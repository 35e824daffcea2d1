/** The transformation trace: projecting an ingest trace into records, and validating a record set. */
module Trace {
  import opened Lru
  import opened JsonValue
  import opened Strings
  import Receipts
  import Regex

  const TRACE_SCHEMA := "bicameral.transformation-trace/v1"
  const TRACE_SET_SCHEMA := "bicameral.transformation-trace-set/v1"

  const PhaseContracts: map<string, string> := map[
    "PHASE-01-PROVIDER-ACQUISITION" := "bicameral.provider-capture/v1",
    "PHASE-04-OBSERVATION" := "bicameral.observation/v1",
    "PHASE-05-PROVIDER-ADVISORIES" := "bicameral.ingress-advisory/v1",
    "PHASE-06-UNIVERSAL-NORMALIZATION" := "bicameral.adapter-emission/v1",
    "PHASE-07-UNIVERSAL-ADVISORIES" := "bicameral.ingress-advisory/v1",
    "PHASE-08-GATEWAY-MAPPING" := "bicameral.external-ingest-envelope/v2",
    "PHASE-08-GATEWAY-DELIVERY" := "bicameral.gateway-delivery-receipt/v1"]

  datatype TraceError = Bad(reason: string) | InRecord(index: nat, reason: string)

  datatype Result<+T> = Ok(value: T) | Fail(error: TraceError)

  /** `canonical_digest`: JSON values that differ only in key order are one value here. */
  type Digest = Json -> string

  /** A string that is not blank. */
  predicate RequiredText(v: Json) { v.Str? && Visible(v.text) }

  predicate IsSha(s: string) {
    |s| == 40 && forall i :: 0 <= i < 40 ==> Regex.IsDigit(s[i]) || 'a' <= s[i] <= 'f'
  }

  // ---------- Records ----------

  datatype Context = Context(
    journeyId: string, traceId: string, revision: string, occurredAt: string,
    fingerprints: map<string, string>, attempt: int, correlationIds: map<string, string>)

  predicate ValidContext(c: Context) {
    Visible(c.journeyId) && Visible(c.traceId) && IsSha(c.revision) &&
    Visible(c.occurredAt) && c.attempt >= 1 &&
    (forall id :: id in PhaseContracts.Values ==> id in c.fingerprints && Receipts.IsDigest(c.fingerprints[id])) &&
    forall k :: k in c.correlationIds ==> Visible(k) && Visible(c.correlationIds[k])
  }

  /** What distinguishes one record from another. */
  datatype Parts = Parts(
    phaseId: string, component: string, inputSchema: string, input: Json, outputSchema: string, output: Json,
    delta: Json, hardGates: seq<Json>, advisories: seq<Json>, persistence: Json,
    before: string, after: string, transition: string, status: string, reasons: seq<string>, retryable: bool)

  function StrArray(s: seq<string>): Json { Arr(seq(|s|, i requires 0 <= i < |s| => Str(s[i]))) }

  function Correlations(m: map<string, string>): Json { Obj(map k | k in m :: Str(m[k])) }

  function Side(digest: Digest, schema: string, data: Json): Json {
    Obj(map["schema" := Str(schema), "digest" := Str(digest(data)), "data" := data])
  }

  function Contract(c: Context, phaseId: string): Json
    requires ValidContext(c) && phaseId in PhaseContracts
  {
    var id := PhaseContracts[phaseId];
    assert id in PhaseContracts.Values;
    Obj(map["id" := Str(id), "semantic_fingerprint" := Str(c.fingerprints[id])])
  }

  function Component(c: Context, name: string): Json {
    Obj(map["id" := Str("ELM-INTEGRATIONS"), "repository" := Str("BicameralAI/bicameral-integrations"),
            "revision" := Str(c.revision), "function" := Str(name)])
  }

  function Authority(p: Parts): Json {
    Obj(map["before" := Str(p.before), "after" := Str(p.after), "transition" := Str(p.transition),
            "canonical" := Bool(false)])
  }

  function Timing(c: Context): Json {
    Obj(map["started_at" := Str(c.occurredAt), "completed_at" := Str(c.occurredAt), "duration_ms" := Int(0),
            "attempt" := Int(c.attempt)])
  }

  function RecordReceipt(c: Context, p: Parts): Json {
    Obj(map["status" := Str(p.status), "reason_codes" := StrArray(p.reasons), "retryable" := Bool(p.retryable),
            "correlation_ids" := Correlations(c.correlationIds)])
  }

  function RecordOf(journey: Json, trace: Json, phaseId: Json, at: Json, component: Json, contract: Json, input: Json,
                    output: Json, delta: Json, evaluation: Json, persistence: Json, authority: Json, timing: Json,
                    receipt: Json): map<string, Json>
  {
    map["schema" := Str(TRACE_SCHEMA), "journey_id" := journey, "trace_id" := trace, "phase_id" := phaseId,
        "occurred_at" := at, "component" := component, "contract" := contract, "input" := input, "output" := output,
        "delta" := delta, "evaluation" := evaluation, "persistence" := persistence, "authority" := authority,
        "timing" := timing, "receipt" := receipt]
  }

  /** `_record`. */
  function Record(digest: Digest, c: Context, p: Parts): Json
    requires ValidContext(c) && p.phaseId in PhaseContracts
  {
    Obj(RecordOf(
      Str(c.journeyId), Str(c.traceId), Str(p.phaseId), Str(c.occurredAt), Component(c, p.component),
      Contract(c, p.phaseId), Side(digest, p.inputSchema, p.input), Side(digest, p.outputSchema, p.output), p.delta,
      Obj(map["hard_gates" := Arr(p.hardGates), "advisories" := Arr(p.advisories)]), p.persistence, Authority(p),
      Timing(c), RecordReceipt(c, p)))
  }

  // ---------- Validation ----------

  /** What the next record is checked against. */
  datatype Seen = Seen(phases: set<string>, previous: Option<Json>)

  /** The local checks of a record, in order; its phase and its output digest where it passes. */
  function CheckRecord(digest: Digest, journey: Json, trace: Json, seen: Seen, index: nat,
                       record: Json): Result<(string, Json)> {
    if !record.Obj? then Fail(InRecord(index, "must_be_object"))
    else
      var r := record.fields;
      var component, contract := Get(r, "component"), Get(r, "contract");
      var input, output, authority := Get(r, "input"), Get(r, "output"), Get(r, "authority");
      if Get(r, "schema") != Str(TRACE_SCHEMA) then Fail(InRecord(index, "schema_invalid"))
      else if Get(r, "journey_id") != journey || Get(r, "trace_id") != trace
        then Fail(InRecord(index, "identity_mismatch"))
      else if !RequiredText(Get(r, "phase_id")) then Fail(InRecord(index, "phase_id_required"))
      else if Get(r, "phase_id").text in seen.phases then Fail(Bad("duplicate_phase_id:" + Get(r, "phase_id").text))
      else if !component.Obj? then Fail(InRecord(index, "component_must_be_object"))
      else if !(Get(component.fields, "revision").Str? && IsSha(Get(component.fields, "revision").text)) then
        Fail(InRecord(index, "revision_invalid"))
      else if !contract.Obj? then Fail(InRecord(index, "contract_must_be_object"))
      else if Get(contract.fields, "id") != ExpectedContract(Get(r, "phase_id").text) then
        Fail(InRecord(index, "contract_id_invalid"))
      else if !(Get(contract.fields, "semantic_fingerprint").Str? &&
                Receipts.IsDigest(Get(contract.fields, "semantic_fingerprint").text)) then
        Fail(InRecord(index, "fingerprint_invalid"))
      else if !input.Obj? then Fail(InRecord(index, "input_must_be_object"))
      else if !output.Obj? then Fail(InRecord(index, "output_must_be_object"))
      else if Get(input.fields, "digest") != Str(digest(Get(input.fields, "data"))) then
        Fail(InRecord(index, "input_digest_invalid"))
      else if Get(output.fields, "digest") != Str(digest(Get(output.fields, "data"))) then
        Fail(InRecord(index, "output_digest_invalid"))
      else if seen.previous.Some? && Get(input.fields, "digest") != seen.previous.value then
        Fail(InRecord(index, "digest_chain_broken"))
      else if !authority.Obj? then Fail(InRecord(index, "authority_must_be_object"))
      else if Get(authority.fields, "canonical") != Bool(false) then
        Fail(InRecord(index, "integrations_cannot_create_canonical_authority"))
      else if !Get(r, "persistence").Obj? then Fail(InRecord(index, "persistence_must_be_object"))
      else if !Get(r, "timing").Obj? then Fail(InRecord(index, "timing_must_be_object"))
      else if !Get(r, "receipt").Obj? then Fail(InRecord(index, "receipt_must_be_object"))
      else Ok((Get(r, "phase_id").text, Get(output.fields, "digest")))
  }

  /** `_PHASE_CONTRACTS.get(phase_id)`. */
  function ExpectedContract(phaseId: string): Json {
    if phaseId in PhaseContracts then Str(PhaseContracts[phaseId]) else Null
  }

  /** The checks of a record, given what came before. */
  type Checks = (Seen, nat, Json) -> Result<(string, Json)>

  function SeenNext(seen: Seen, accepted: (string, Json)): Seen {
    Seen(seen.phases + {accepted.0}, Some(accepted.1))
  }

  function CheckRecords(checks: Checks, records: seq<Json>, seen: Seen, index: nat): Result<()> {
    if records == [] then Ok(())
    else
      match checks(seen, index, records[0])
      case Fail(error) => Fail(error)
      case Ok(accepted) => CheckRecords(checks, records[1..], SeenNext(seen, accepted), index + 1)
  }

  function ChecksOf(digest: Digest, journey: Json, trace: Json): Checks {
    (seen: Seen, index: nat, record: Json) => CheckRecord(digest, journey, trace, seen, index, record)
  }

  function Validated(digest: Digest, traceSet: map<string, Json>): Result<()> {
    var journey, trace, records := Get(traceSet, "journey_id"), Get(traceSet, "trace_id"), Get(traceSet, "records");
    if Get(traceSet, "schema") != Str(TRACE_SET_SCHEMA) then Fail(Bad("trace_set_schema_invalid"))
    else if !RequiredText(journey) then Fail(Bad("journey_id_required"))
    else if !RequiredText(trace) then Fail(Bad("trace_id_required"))
    else if !records.Arr? || records.items == [] then Fail(Bad("trace_records_required"))
    else CheckRecords(ChecksOf(digest, journey, trace), records.items, Seen({}, None), 0)
  }

  method ValidateTraceSet(digest: Digest, traceSet: map<string, Json>) returns (r: Result<()>)
    ensures r == Validated(digest, traceSet)
  {
    var journey, trace, records := Get(traceSet, "journey_id"), Get(traceSet, "trace_id"), Get(traceSet, "records");
    if Get(traceSet, "schema") != Str(TRACE_SET_SCHEMA) {
      return Fail(Bad("trace_set_schema_invalid"));
    }
    if !RequiredText(journey) {
      return Fail(Bad("journey_id_required"));
    }
    if !RequiredText(trace) {
      return Fail(Bad("trace_id_required"));
    }
    if !records.Arr? || records.items == [] {
      return Fail(Bad("trace_records_required"));
    }
    r := ValidateRecords(ChecksOf(digest, journey, trace), records.items);
  }

  /** The loop over the records. */
  method ValidateRecords(checks: Checks, records: seq<Json>) returns (r: Result<()>)
    ensures r == CheckRecords(checks, records, Seen({}, None), 0)
  {
    var previousOutputDigest: Option<Json> := None;
    var seenPhaseIds: set<string> := {};
    assert records[0..] == records;
    for index: nat := 0 to |records|
      invariant CheckRecords(checks, records, Seen({}, None), 0) ==
                CheckRecords(checks, records[index..], Seen(seenPhaseIds, previousOutputDigest), index)
    {
      assert records[index..][1..] == records[index + 1..];
      var accepted := checks(Seen(seenPhaseIds, previousOutputDigest), index, records[index]);
      if accepted.Fail? {
        return Fail(accepted.error);
      }
      seenPhaseIds := seenPhaseIds + {accepted.value.0};
      previousOutputDigest := Some(accepted.value.1);
    }
    r := Ok(());
  }
}
