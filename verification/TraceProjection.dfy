/** Projecting an ingest trace: seven phases, each record's input the output of the one before. */
module TraceProjection {
  import opened Lru
  import opened JsonValue
  import opened Trace
  import opened Strings

  /** `str(value)` for a value that is no string. */
  type Show = Json -> string

  type Fields = map<string, Json>

  function GetOr(m: Fields, key: string, other: Json): Json { if key in m then m[key] else other }

  function FieldsOf(v: Json): Fields { if v.Obj? then v.fields else map[] }

  /** `str(phase.get("function") or default)`. */
  function Named(show: Show, v: Json, other: string): string { if Truthy(v) then show(v) else other }

  // ---------- Reading the ingest trace ----------

  /** The first phase with that id. */
  function PhaseById(phases: seq<Json>, id: string): Option<Fields> {
    if phases == [] then None
    else if phases[0].Obj? && Get(phases[0].fields, "id") == Str(id) then Some(phases[0].fields)
    else PhaseById(phases[1..], id)
  }

  predicate HasScope(item: Json, scope: string) {
    item.Obj? && Get(FieldsOf(Get(item.fields, "metadata")), "scope") == Str(scope)
  }

  function Scoped(items: seq<Json>, scope: string): seq<Json> {
    if items == [] then [] else (if HasScope(items[0], scope) then [items[0]] else []) + Scoped(items[1..], scope)
  }

  /** `_advisories`. */
  function Advisories(emission: Fields, scope: string): seq<Json> {
    var raw := Get(emission, "advisories");
    if raw.Arr? then Scoped(raw.items, scope) else []
  }

  function DeltaItem(path: string, reason: string): Json { Obj(map["path" := Str(path), "reason" := Str(reason)]) }

  function DeltaItems(items: seq<Json>): seq<Json> {
    if items == [] then []
    else
      var reason := if items[0].Str? then Strip(items[0].text) else "";
      (if reason != "" then [DeltaItem("/", reason)] else []) + DeltaItems(items[1..])
  }

  function DeltaList(raw: Json): Json { Arr(if raw.Arr? then DeltaItems(raw.items) else []) }

  function Delta(preserved: Json, added: Json, transformed: Json, removed: Json, redacted: Json): Json {
    Obj(map["preserved" := preserved, "added" := added, "transformed" := transformed, "removed" := removed,
            "redacted" := redacted])
  }

  /** `_legacy_delta`. */
  function LegacyDelta(phase: Fields): Json {
    var t := FieldsOf(Get(phase, "transformation"));
    Delta(DeltaList(Get(t, "preserved")), DeltaList(Get(t, "added")), DeltaList(Get(t, "transformed")),
          DeltaList(Get(t, "removed")), DeltaList(Get(t, "redacted")))
  }

  function AdvisoryRecord(show: Show, item: Json): Json {
    var m := FieldsOf(item);
    var details := FieldsOf(Get(m, "metadata"));
    var id := if Truthy(Get(m, "code")) then show(Get(m, "code")) else Named(show, Get(m, "kind"), "unknown");
    Obj(map["advisory_id" := Str(id), "result" := Str("signal"), "score" := Null, "authority" := Str("none"),
            "failure_mode" := Str("fail_open"), "scope" := GetOr(details, "scope", Str("unknown")),
            "confidence" := GetOr(details, "confidence", Str("unknown")),
            "recommended_effect" := GetOr(details, "recommended_effect", Str("annotate")),
            "basis" := GetOr(details, "basis", Str("unspecified"))])
  }

  function AdvisoryRecords(show: Show, items: seq<Json>): seq<Json> {
    seq(|items|, i requires 0 <= i < |items| => AdvisoryRecord(show, items[i]))
  }

  function Gate(id: string, result: string, code: string): seq<Json> {
    [Obj(map["gate_id" := Str(id), "result" := Str(result), "reason_code" := Str(code), "evidence" := Arr([])])]
  }

  function Persistence(plane: string, operation: string, artifact: Json, digest: Json): Json {
    Obj(map["plane" := Str(plane), "operation" := Str(operation), "artifact_id" := artifact, "digest" := digest,
            "locator" := Null])
  }

  const NotPersisted := Persistence("none", "none", Null, Null)

  // ---------- The records, phase by phase ----------

  function CapturePart(show: Show, phase: Fields, capture: Json): Parts {
    Parts("PHASE-01-PROVIDER-ACQUISITION", Named(show, Get(phase, "function"), "provider_acquisition.capture"),
          "provider-specific/capture", capture, "bicameral.provider-capture/v1", capture, LegacyDelta(phase),
          Gate("GATE-PROVIDER-ACQUISITION", "pass", "CAPTURE_ACCEPTED"), [], NotPersisted,
          "external_evidence", "external_evidence", "none", "completed", [], false)
  }

  function ObservationPart(show: Show, phase: Fields, captured: bool, state: Json, observation: Json): Parts {
    Parts("PHASE-04-OBSERVATION", Named(show, Get(phase, "function"), "provider_parser.observe"),
          if captured then "bicameral.provider-capture/v1" else "provider-specific/capture", state,
          "bicameral.observation/v1", observation, LegacyDelta(phase),
          Gate("GATE-OBSERVATION-CONTRACT", "pass", "OBSERVATION_VALID"), [], NotPersisted,
          "external_evidence", "normalized_evidence", "normalize", "completed", [], false)
  }

  function ProviderAdvisoryPart(show: Show, state: Json, provider: Json, advisories: seq<Json>): Parts {
    Parts("PHASE-05-PROVIDER-ADVISORIES", "adapter.core.heuristics.evaluate_provider_signals",
          "bicameral.observation/v1", state, "bicameral.observation-with-advisories/v1", provider,
          Delta(Arr([DeltaItem("/", "observation preserved")]),
                Arr([DeltaItem("/advisories", "provider-aware signals")]),
                Arr([]), Arr([]), Arr([])),
          [], AdvisoryRecords(show, advisories), NotPersisted,
          "normalized_evidence", "normalized_evidence", "annotate", "completed", [], false)
  }

  function NormalizationPart(show: Show, phase: Fields, state: Json, emission: Json): Parts {
    Parts("PHASE-06-UNIVERSAL-NORMALIZATION", Named(show, Get(phase, "function"), "adapter.core.pipeline.normalize"),
          "bicameral.observation-with-advisories/v1", state, "bicameral.adapter-emission/v1", emission,
          LegacyDelta(phase), Gate("GATE-ADAPTER-EMISSION-CONTRACT", "pass", "EMISSION_VALID"), [], NotPersisted,
          "normalized_evidence", "normalized_evidence", "normalize", "completed", [], false)
  }

  function UniversalAdvisoryPart(show: Show, state: Json, emission: Json, advisories: seq<Json>): Parts {
    Parts("PHASE-07-UNIVERSAL-ADVISORIES", "adapter.core.heuristics.evaluate_fail_open",
          "bicameral.adapter-emission/v1", state, "bicameral.adapter-emission/v1", emission,
          Delta(Arr([DeltaItem("/", "emission evidence preserved")]),
                Arr([DeltaItem("/advisories", "universal fail-open signals")]), Arr([]), Arr([]), Arr([])),
          [], AdvisoryRecords(show, advisories), NotPersisted,
          "normalized_evidence", "normalized_evidence", "annotate", "completed", [], false)
  }

  function MappingPart(show: Show, phase: Fields, state: Json, envelope: Json): Parts {
    Parts("PHASE-08-GATEWAY-MAPPING",
          Named(show, Get(phase, "function"), "runtime.gateway_mapping.emission_to_external_envelope"),
          "bicameral.adapter-emission/v1", state, "bicameral.external-ingest-envelope/v2", envelope, LegacyDelta(phase),
          Gate("GATE-AUTHORITY-STRIPPING", "pass", "ENVELOPE_NON_AUTHORITATIVE"), [], NotPersisted,
          "normalized_evidence", "normalized_evidence", "wire_projection", "completed", [], false)
  }

  predicate Accepted(status: Json) {
    status == Int(201) || status == Float(201.0) || status == Str("accepted")
  }

  function DeliveryPart(digest: Digest, show: Show, phase: Fields, state: Json, delivery: Fields): Parts {
    var completed := Accepted(Get(delivery, "status"));
    var advanced := Get(delivery, "cursor_verdict") == Str("advance");
    var code := if completed then "HTTP_201" else "DELIVERY_NOT_ACCEPTED";
    Parts("PHASE-08-GATEWAY-DELIVERY", Named(show, Get(phase, "function"), "GatewaySink.deliver"),
          "bicameral.external-ingest-envelope/v2", state, "bicameral.gateway-delivery-receipt/v1", Obj(delivery),
          LegacyDelta(phase), Gate("GATE-GATEWAY-DELIVERY", if completed then "pass" else "fail", code), [],
          if advanced then
            Persistence("local_work", "update", Str("connector_cursor"),
                        Str(digest(GetOr(delivery, "cursor", Obj(map[])))))
          else NotPersisted,
          "normalized_evidence", "normalized_evidence", "deliver", if completed then "completed" else "failed",
          [code], !completed)
  }

  // ---------- The projection ----------

  /** The five phases looked up, and the three objects. */
  datatype Source = Source(
    observation: Fields, emission: Fields, envelope: Fields, capturePhase: Option<Fields>, observationPhase: Fields,
    emissionPhase: Fields, envelopePhase: Fields, deliveryPhase: Option<Fields>)

  function When(b: bool, s: string): seq<string> { if b then [s] else [] }

  function Listed(names: seq<string>): string {
    if names == [] then "" else if |names| == 1 then names[0] else names[0] + "," + Listed(names[1..])
  }

  function ReadSource(trace: Fields): Result<Source> {
    var o, e, x, phases :=
      Get(trace, "observation"), Get(trace, "emission"), Get(trace, "external_ingest_envelope"), Get(trace, "phases");
    if !o.Obj? then Fail(Bad("observation_must_be_object"))
    else if !e.Obj? then Fail(Bad("emission_must_be_object"))
    else if !x.Obj? then Fail(Bad("external_ingest_envelope_must_be_object"))
    else if !phases.Arr? then Fail(Bad("phases_required"))
    else
      var op, ep, xp := PhaseById(phases.items, "observation"), PhaseById(phases.items, "adapter_emission"),
                        PhaseById(phases.items, "external_envelope");
      var missing :=
        When(op.None?, "observation") + When(ep.None?, "adapter_emission") + When(xp.None?, "external_envelope");
      if op.None? || ep.None? || xp.None? then Fail(Bad("missing_required_legacy_phases:" + Listed(missing)))
      else
        Ok(Source(o.fields, e.fields, x.fields, PhaseById(phases.items, "provider_capture"), op.value, ep.value,
                  xp.value, PhaseById(phases.items, "delivery_state")))
  }

  function WithAdvisories(m: Fields, advisories: seq<Json>): Json { Obj(m["advisories" := Arr(advisories)]) }

  /** The records of the four middle phases, after `state`. */
  function MiddleParts(show: Show, s: Source, captured: bool, state: Json): seq<Parts> {
    var provider := Advisories(s.emission, "integration");
    var annotated, integrationOnly := WithAdvisories(s.observation, provider), WithAdvisories(s.emission, provider);
    [ObservationPart(show, s.observationPhase, captured, state, Obj(s.observation)),
     ProviderAdvisoryPart(show, Obj(s.observation), annotated, provider),
     NormalizationPart(show, s.emissionPhase, annotated, integrationOnly),
     UniversalAdvisoryPart(show, integrationOnly, Obj(s.emission), Advisories(s.emission, "universal")),
     MappingPart(show, s.envelopePhase, Obj(s.emission), Obj(s.envelope))]
  }

  /** The capture, or nothing to start from. */
  function Captured(s: Source): Json {
    if s.capturePhase.Some? then Get(s.capturePhase.value, "data") else Obj(map[])
  }

  function FrontParts(show: Show, s: Source): seq<Parts> {
    if s.capturePhase.Some? then [CapturePart(show, s.capturePhase.value, Captured(s))] else []
  }

  function BackParts(digest: Digest, show: Show, s: Source): seq<Parts> {
    if s.deliveryPhase.Some? then
      [DeliveryPart(digest, show, s.deliveryPhase.value, Obj(s.envelope), FieldsOf(Get(s.deliveryPhase.value, "data")))]
    else []
  }

  function ProjectedParts(digest: Digest, show: Show, s: Source): Result<seq<Parts>> {
    if s.capturePhase.Some? && !Get(s.capturePhase.value, "data").Obj? then
      Fail(Bad("provider_capture_data_must_be_object"))
    else if s.deliveryPhase.Some? && !Get(s.deliveryPhase.value, "data").Obj? then
      Fail(Bad("delivery_state_data_must_be_object"))
    else
      Ok(FrontParts(show, s) + MiddleParts(show, s, s.capturePhase.Some?, Captured(s)) + BackParts(digest, show, s))
  }

  function SetOf(journey: string, trace: string, records: seq<Json>): Fields {
    map["schema" := Str(TRACE_SET_SCHEMA), "journey_id" := Str(journey), "trace_id" := Str(trace),
        "records" := Arr(records)]
  }

  function Recorded(digest: Digest, c: Context, parts: seq<Parts>): seq<Json>
    requires ValidContext(c) && forall p :: p in parts ==> p.phaseId in PhaseContracts
  {
    seq(|parts|, i requires 0 <= i < |parts| => Record(digest, c, parts[i]))
  }

  /** The set of records. */
  function TraceSet(digest: Digest, c: Context, parts: seq<Parts>): Fields
    requires ValidContext(c) && forall p :: p in parts ==> p.phaseId in PhaseContracts
  {
    SetOf(c.journeyId, c.traceId, Recorded(digest, c, parts))
  }
}
