/** The projection always passes the validator; an accepted set hands each output on unchanged. */
module TraceProof {
  import opened Lru
  import opened JsonValue
  import opened Trace
  import opened TraceProjection
  import opened Strings
  import Receipts
  import Regex

  // ---------- What acceptance means ----------

  function PhaseOf(record: Json): string {
    var id := Get(FieldsOf(record), "phase_id");
    if id.Str? then id.text else ""
  }

  function DataOf(record: Json, side: string): Json { Get(FieldsOf(Get(FieldsOf(record), side)), "data") }

  function DigestOf(record: Json, side: string): Json { Get(FieldsOf(Get(FieldsOf(record), side)), "digest") }

  /** How a record fares in any context, in terms of how it fares alone. */
  ghost predicate ContextFree(checks: Checks, alone: Json -> bool) {
    forall seen, index, record {:trigger checks(seen, index, record)} ::
      (checks(seen, index, record).Ok? <==>
        alone(record) && PhaseOf(record) !in seen.phases &&
        (seen.previous.Some? ==> DigestOf(record, "input") == seen.previous.value)) &&
      (checks(seen, index, record).Ok? ==>
        checks(seen, index, record).value == (PhaseOf(record), DigestOf(record, "output")))
  }

  /** Each passes alone, no phase occurs twice or before, each input digest is the output digest before it. */
  ghost predicate ConsistentAfter(alone: Json -> bool, records: seq<Json>, seen: Seen) {
    (forall i :: 0 <= i < |records| ==> alone(records[i]) && PhaseOf(records[i]) !in seen.phases) &&
    (forall i, j :: 0 <= i < j < |records| ==> PhaseOf(records[i]) != PhaseOf(records[j])) &&
    (forall i :: 1 <= i < |records| ==> DigestOf(records[i], "input") == DigestOf(records[i - 1], "output")) &&
    (records != [] && seen.previous.Some? ==> DigestOf(records[0], "input") == seen.previous.value)
  }

  lemma ConsistentCons(alone: Json -> bool, records: seq<Json>, seen: Seen)
    requires records != []
    ensures var next := SeenNext(seen, (PhaseOf(records[0]), DigestOf(records[0], "output")));
            ConsistentAfter(alone, records, seen) <==>
            alone(records[0]) && PhaseOf(records[0]) !in seen.phases &&
            (seen.previous.Some? ==> DigestOf(records[0], "input") == seen.previous.value) &&
            ConsistentAfter(alone, records[1..], next)
  {
    var next := SeenNext(seen, (PhaseOf(records[0]), DigestOf(records[0], "output")));
    var tail := records[1..];
    if ConsistentAfter(alone, tail, next) {
      forall i | 1 <= i < |records| ensures DigestOf(records[i], "input") == DigestOf(records[i - 1], "output") {
        assert records[i] == tail[i - 1];
        if i > 1 { assert records[i - 1] == tail[i - 2]; }
      }
      forall i | 1 <= i < |records| ensures PhaseOf(records[i]) !in next.phases { assert records[i] == tail[i - 1]; }
    }
    if ConsistentAfter(alone, records, seen) {
      forall i | 0 <= i < |tail| ensures PhaseOf(tail[i]) !in next.phases && alone(tail[i]) {
        assert tail[i] == records[i + 1];
      }
    }
  }

  lemma {:induction false} CheckedExactly(checks: Checks, alone: Json -> bool, records: seq<Json>, seen: Seen,
                                          index: nat)
    requires ContextFree(checks, alone)
    ensures CheckRecords(checks, records, seen, index).Ok? <==> ConsistentAfter(alone, records, seen)
    decreases |records|
  {
    if records != [] {
      ConsistentCons(alone, records, seen);
      var x := checks(seen, index, records[0]);
      if x.Ok? { CheckedExactly(checks, alone, records[1..], SeenNext(seen, x.value), index + 1); }
    }
  }

  /** A record that passes on its own. */
  predicate PassesAlone(digest: Digest, journey: Json, trace: Json, record: Json) {
    CheckRecord(digest, journey, trace, Seen({}, None), 0, record).Ok?
  }

  /** Each passes on its own, no phase occurs twice, each input digest is the output digest before it. */
  ghost predicate Consistent(digest: Digest, journey: Json, trace: Json, records: seq<Json>) {
    (forall i :: 0 <= i < |records| ==> PassesAlone(digest, journey, trace, records[i])) &&
    (forall i, j :: 0 <= i < j < |records| ==> PhaseOf(records[i]) != PhaseOf(records[j])) &&
    forall i :: 1 <= i < |records| ==> DigestOf(records[i], "input") == DigestOf(records[i - 1], "output")
  }

  lemma CheckInContext(digest: Digest, journey: Json, trace: Json, seen: Seen, index: nat, record: Json)
    ensures CheckRecord(digest, journey, trace, seen, index, record).Ok? <==>
            PassesAlone(digest, journey, trace, record) && PhaseOf(record) !in seen.phases &&
            (seen.previous.Some? ==> DigestOf(record, "input") == seen.previous.value)
    ensures CheckRecord(digest, journey, trace, seen, index, record).Ok? ==>
            CheckRecord(digest, journey, trace, seen, index, record).value ==
              (PhaseOf(record), DigestOf(record, "output"))
    ensures CheckRecord(digest, journey, trace, seen, index, record).Ok? ==>
            DigestOf(record, "input") == Str(digest(DataOf(record, "input"))) &&
            DigestOf(record, "output") == Str(digest(DataOf(record, "output")))
  {
  }

  function Alone(digest: Digest, journey: Json, trace: Json): Json -> bool {
    record => PassesAlone(digest, journey, trace, record)
  }

  lemma ChecksAreContextFree(digest: Digest, journey: Json, trace: Json)
    ensures ContextFree(ChecksOf(digest, journey, trace), Alone(digest, journey, trace))
  {
    forall seen, index: nat, record {:trigger ChecksOf(digest, journey, trace)(seen, index, record)}
      ensures var x := ChecksOf(digest, journey, trace)(seen, index, record);
              (x.Ok? <==> PassesAlone(digest, journey, trace, record) && PhaseOf(record) !in seen.phases &&
                          (seen.previous.Some? ==> DigestOf(record, "input") == seen.previous.value)) &&
              (x.Ok? ==> x.value == (PhaseOf(record), DigestOf(record, "output")))
    {
      CheckInContext(digest, journey, trace, seen, index, record);
    }
  }

  /** The validator accepts a set with a valid head when its records pass one by one and are consistent. */
  lemma AcceptedOneByOne(digest: Digest, traceSet: map<string, Json>)
    ensures var journey, trace, records :=
              Get(traceSet, "journey_id"), Get(traceSet, "trace_id"), Get(traceSet, "records");
            Validated(digest, traceSet).Ok? <==>
            Get(traceSet, "schema") == Str(TRACE_SET_SCHEMA) && RequiredText(journey) && RequiredText(trace) &&
            records.Arr? && records.items != [] && Consistent(digest, journey, trace, records.items)
  {
    var journey, trace, records := Get(traceSet, "journey_id"), Get(traceSet, "trace_id"), Get(traceSet, "records");
    if records.Arr? {
      ChecksAreContextFree(digest, journey, trace);
      CheckedExactly(ChecksOf(digest, journey, trace), Alone(digest, journey, trace), records.items, Seen({}, None), 0);
      ConsistentFromStart(digest, journey, trace, records.items);
    }
  }

  lemma ConsistentFromStart(digest: Digest, journey: Json, trace: Json, records: seq<Json>)
    ensures ConsistentAfter(Alone(digest, journey, trace), records, Seen({}, None)) <==>
            Consistent(digest, journey, trace, records)
  {
  }

  // ---------- The projection passes ----------

  ghost predicate GoodPart(p: Parts) {
    p.phaseId in PhaseContracts && p.phaseId != "" && p.phaseId[0] == 'P' && p.persistence.Obj?
  }

  /** Phases are good and distinct, and each takes in what the one before puts out. */
  ghost predicate GoodParts(parts: seq<Parts>) {
    (forall i :: 0 <= i < |parts| ==> GoodPart(parts[i])) &&
    (forall i, j :: 0 <= i < j < |parts| ==> parts[i].phaseId != parts[j].phaseId) &&
    forall i :: 1 <= i < |parts| ==> parts[i].input == parts[i - 1].output
  }

  lemma FirstVisible(s: string)
    requires s != "" && !Regex.IsSpace(s[0])
    ensures Visible(s)
  {
  }

  /** What the validator reads from a record of the projection. */
  ghost predicate ReadAs(digest: Digest, c: Context, p: Parts, r: Fields)
    requires ValidContext(c) && p.phaseId in PhaseContracts
  {
    Get(r, "schema") == Str(TRACE_SCHEMA) &&
    Get(r, "journey_id") == Str(c.journeyId) && Get(r, "trace_id") == Str(c.traceId) &&
    Get(r, "phase_id") == Str(p.phaseId) && Get(r, "component") == Component(c, p.component) &&
    Get(r, "contract") == Contract(c, p.phaseId) && Get(r, "input") == Side(digest, p.inputSchema, p.input) &&
    Get(r, "output") == Side(digest, p.outputSchema, p.output) && Get(r, "persistence") == p.persistence &&
    Get(r, "authority") == Authority(p) && Get(r, "timing") == Timing(c) && Get(r, "receipt") == RecordReceipt(c, p)
  }

  lemma RecordReads(digest: Digest, c: Context, p: Parts)
    requires ValidContext(c) && p.phaseId in PhaseContracts
    ensures var r := FieldsOf(Record(digest, c, p)); Record(digest, c, p) == Obj(r) && ReadAs(digest, c, p, r)
  {
    var evaluation := Obj(map["hard_gates" := Arr(p.hardGates), "advisories" := Arr(p.advisories)]);
    RecordOfReads(
      Str(c.journeyId), Str(c.traceId), Str(p.phaseId), Str(c.occurredAt), Component(c, p.component),
      Contract(c, p.phaseId), Side(digest, p.inputSchema, p.input), Side(digest, p.outputSchema, p.output), p.delta,
      evaluation, p.persistence, Authority(p), Timing(c), RecordReceipt(c, p));
    RecordOfReadsOn(
      Str(c.journeyId), Str(c.traceId), Str(p.phaseId), Str(c.occurredAt), Component(c, p.component),
      Contract(c, p.phaseId), Side(digest, p.inputSchema, p.input), Side(digest, p.outputSchema, p.output), p.delta,
      evaluation, p.persistence, Authority(p), Timing(c), RecordReceipt(c, p));
  }

  lemma RecordOfReads(journey: Json, trace: Json, phaseId: Json, at: Json, component: Json, contract: Json, input: Json,
                      output: Json, delta: Json, evaluation: Json, persistence: Json, authority: Json, timing: Json,
                      receipt: Json)
    ensures var r := RecordOf(journey, trace, phaseId, at, component, contract, input, output, delta, evaluation,
                              persistence, authority, timing, receipt);
            Get(r, "schema") == Str(TRACE_SCHEMA) && Get(r, "journey_id") == journey && Get(r, "trace_id") == trace &&
            Get(r, "phase_id") == phaseId && Get(r, "component") == component && Get(r, "contract") == contract
  {
  }

  lemma RecordOfReadsOn(journey: Json, trace: Json, phaseId: Json, at: Json, component: Json, contract: Json,
                        input: Json, output: Json, delta: Json, evaluation: Json, persistence: Json,
                        authority: Json, timing: Json, receipt: Json)
    ensures var r := RecordOf(journey, trace, phaseId, at, component, contract, input, output, delta, evaluation,
                              persistence, authority, timing, receipt);
            Get(r, "input") == input && Get(r, "output") == output && Get(r, "persistence") == persistence &&
            Get(r, "authority") == authority && Get(r, "timing") == timing && Get(r, "receipt") == receipt
  {
  }

  lemma SideReads(digest: Digest, schema: string, data: Json)
    ensures Side(digest, schema, data).Obj?
    ensures Get(Side(digest, schema, data).fields, "digest") == Str(digest(data))
    ensures Get(Side(digest, schema, data).fields, "data") == data
  {
  }

  lemma ContractReads(c: Context, phaseId: string)
    requires ValidContext(c) && phaseId in PhaseContracts
    ensures Contract(c, phaseId).Obj? && Get(Contract(c, phaseId).fields, "id") == ExpectedContract(phaseId)
    ensures var f := Get(Contract(c, phaseId).fields, "semantic_fingerprint"); f.Str? && Receipts.IsDigest(f.text)
  {
    assert PhaseContracts[phaseId] in PhaseContracts.Values;
  }

  /** The local checks, from what is read. */
  lemma PassesFromReads(digest: Digest, journey: Json, trace: Json, r: Fields, phaseId: string)
    requires Get(r, "schema") == Str(TRACE_SCHEMA) && Get(r, "journey_id") == journey && Get(r, "trace_id") == trace
    requires Get(r, "phase_id") == Str(phaseId) && Visible(phaseId)
    requires Get(r, "component").Obj? &&
             var v := Get(Get(r, "component").fields, "revision"); v.Str? && IsSha(v.text)
    requires Get(r, "contract").Obj? && Get(Get(r, "contract").fields, "id") == ExpectedContract(phaseId) &&
             var f := Get(Get(r, "contract").fields, "semantic_fingerprint"); f.Str? && Receipts.IsDigest(f.text)
    requires Get(r, "input").Obj? &&
             Get(Get(r, "input").fields, "digest") == Str(digest(Get(Get(r, "input").fields, "data")))
    requires Get(r, "output").Obj? &&
             Get(Get(r, "output").fields, "digest") == Str(digest(Get(Get(r, "output").fields, "data")))
    requires Get(r, "authority").Obj? && Get(Get(r, "authority").fields, "canonical") == Bool(false)
    requires Get(r, "persistence").Obj? && Get(r, "timing").Obj? && Get(r, "receipt").Obj?
    ensures PassesAlone(digest, journey, trace, Obj(r))
  {
  }

  lemma RecordDigests(digest: Digest, c: Context, p: Parts)
    requires ValidContext(c) && p.phaseId in PhaseContracts
    ensures var r := Record(digest, c, p);
            PhaseOf(r) == p.phaseId && DigestOf(r, "input") == Str(digest(p.input)) &&
            DigestOf(r, "output") == Str(digest(p.output))
  {
    RecordReads(digest, c, p);
    SideReads(digest, p.inputSchema, p.input);
    SideReads(digest, p.outputSchema, p.output);
  }

  lemma RecordPasses(digest: Digest, c: Context, p: Parts)
    requires ValidContext(c) && GoodPart(p)
    ensures PassesAlone(digest, Str(c.journeyId), Str(c.traceId), Record(digest, c, p))
  {
    RecordReads(digest, c, p);
    ReadPasses(digest, c, p, FieldsOf(Record(digest, c, p)));
  }

  lemma ReadPasses(digest: Digest, c: Context, p: Parts, r: Fields)
    requires ValidContext(c) && GoodPart(p) && ReadAs(digest, c, p, r)
    ensures PassesAlone(digest, Str(c.journeyId), Str(c.traceId), Obj(r))
  {
    SideReads(digest, p.inputSchema, p.input);
    SideReads(digest, p.outputSchema, p.output);
    ContractReads(c, p.phaseId);
    FirstVisible(p.phaseId);
    PassesFromReads(digest, Str(c.journeyId), Str(c.traceId), r, p.phaseId);
  }

  lemma GoodPartsPass(digest: Digest, c: Context, parts: seq<Parts>)
    requires ValidContext(c) && GoodParts(parts) && parts != []
    requires forall p :: p in parts ==> p.phaseId in PhaseContracts
    ensures Validated(digest, TraceSet(digest, c, parts)).Ok?
  {
    RecordsAreConsistent(digest, c, parts);
    SetOfReads(c.journeyId, c.traceId, Recorded(digest, c, parts));
    SetPasses(digest, TraceSet(digest, c, parts), c.journeyId, c.traceId, Recorded(digest, c, parts));
  }

  lemma SetOfReads(journey: string, trace: string, records: seq<Json>)
    ensures var t := SetOf(journey, trace, records);
            Get(t, "schema") == Str(TRACE_SET_SCHEMA) && Get(t, "journey_id") == Str(journey) &&
            Get(t, "trace_id") == Str(trace) && Get(t, "records") == Arr(records)
  {
  }

  lemma SetPasses(digest: Digest, t: Fields, journey: string, trace: string, records: seq<Json>)
    requires Get(t, "schema") == Str(TRACE_SET_SCHEMA) && Get(t, "journey_id") == Str(journey)
    requires Get(t, "trace_id") == Str(trace) && Get(t, "records") == Arr(records)
    requires Visible(journey) && Visible(trace) && records != []
    requires Consistent(digest, Str(journey), Str(trace), records)
    ensures Validated(digest, t).Ok?
  {
    AcceptedOneByOne(digest, t);
  }

  lemma RecordsAreConsistent(digest: Digest, c: Context, parts: seq<Parts>)
    requires ValidContext(c) && GoodParts(parts) && forall p :: p in parts ==> p.phaseId in PhaseContracts
    ensures Consistent(digest, Str(c.journeyId), Str(c.traceId), Recorded(digest, c, parts))
  {
    var records := Recorded(digest, c, parts);
    forall i | 0 <= i < |parts|
      ensures PassesAlone(digest, Str(c.journeyId), Str(c.traceId), records[i])
      ensures PhaseOf(records[i]) == parts[i].phaseId && DigestOf(records[i], "input") == Str(digest(parts[i].input)) &&
              DigestOf(records[i], "output") == Str(digest(parts[i].output))
    {
      RecordPasses(digest, c, parts[i]);
      RecordDigests(digest, c, parts[i]);
    }
  }

  // ---------- The seven phases ----------

  const PhaseNames: seq<string> :=
    ["PHASE-01-PROVIDER-ACQUISITION", "PHASE-04-OBSERVATION", "PHASE-05-PROVIDER-ADVISORIES",
     "PHASE-06-UNIVERSAL-NORMALIZATION", "PHASE-07-UNIVERSAL-ADVISORIES", "PHASE-08-GATEWAY-MAPPING",
     "PHASE-08-GATEWAY-DELIVERY"]

  lemma NamesAreDistinct(i: nat, j: nat)
    requires i < j < 7
    ensures PhaseNames[i] != PhaseNames[j]
  {
    assert PhaseNames[i][7] != PhaseNames[j][7] || |PhaseNames[i]| != |PhaseNames[j]|;
  }

  lemma NamesAreGood(i: nat)
    requires i < 7
    ensures PhaseNames[i] in PhaseContracts && PhaseNames[i] != "" && PhaseNames[i][0] == 'P'
  {
  }

  /** Consecutive phases, each taking in what the one before puts out. */
  ghost predicate InOrder(parts: seq<Parts>, first: nat) {
    first + |parts| <= 7 &&
    (forall i :: 0 <= i < |parts| ==> parts[i].phaseId == PhaseNames[first + i] && parts[i].persistence.Obj?) &&
    forall i :: 1 <= i < |parts| ==> parts[i].input == parts[i - 1].output
  }

  lemma InOrderIsGood(parts: seq<Parts>, first: nat)
    requires InOrder(parts, first)
    ensures GoodParts(parts) && forall p :: p in parts ==> p.phaseId in PhaseContracts
  {
    forall i | 0 <= i < |parts| ensures GoodPart(parts[i]) { NamesAreGood(first + i); }
    forall i, j | 0 <= i < j < |parts| ensures parts[i].phaseId != parts[j].phaseId {
      NamesAreDistinct(first + i, first + j);
    }
  }

  lemma MiddleInOrder(show: Show, s: Source, captured: bool, state: Json)
    ensures var parts := MiddleParts(show, s, captured, state);
            |parts| == 5 && InOrder(parts, 1) && parts[0].input == state && parts[4].output == Obj(s.envelope)
  {
    var parts := MiddleParts(show, s, captured, state);
    FiveInOrder(parts[0], parts[1], parts[2], parts[3], parts[4]);
    assert parts == [parts[0], parts[1], parts[2], parts[3], parts[4]];
  }

  lemma FiveInOrder(a: Parts, b: Parts, c: Parts, d: Parts, e: Parts)
    requires a.phaseId == "PHASE-04-OBSERVATION" && b.phaseId == "PHASE-05-PROVIDER-ADVISORIES"
    requires c.phaseId == "PHASE-06-UNIVERSAL-NORMALIZATION" && d.phaseId == "PHASE-07-UNIVERSAL-ADVISORIES"
    requires e.phaseId == "PHASE-08-GATEWAY-MAPPING"
    requires a.persistence.Obj? && b.persistence.Obj? && c.persistence.Obj? && d.persistence.Obj? && e.persistence.Obj?
    requires b.input == a.output && c.input == b.output && d.input == c.output && e.input == d.output
    ensures InOrder([a, b, c, d, e], 1)
  {
  }

  lemma FrontInOrder(show: Show, s: Source)
    ensures var front := FrontParts(show, s);
            |front| == (if s.capturePhase.Some? then 1 else 0) && InOrder(front, 0) &&
            (front != [] ==> front[0].output == Captured(s))
  {
  }

  lemma BackInOrder(digest: Digest, show: Show, s: Source)
    ensures var back := BackParts(digest, show, s);
            |back| <= 1 && InOrder(back, 6) && (back != [] ==> back[0].input == Obj(s.envelope))
  {
  }

  lemma ProjectedInOrder(digest: Digest, show: Show, s: Source)
    requires ProjectedParts(digest, show, s).Ok?
    ensures var parts := ProjectedParts(digest, show, s).value;
            parts != [] && InOrder(parts, if s.capturePhase.Some? then 0 else 1)
  {
    FrontInOrder(show, s);
    MiddleInOrder(show, s, s.capturePhase.Some?, Captured(s));
    BackInOrder(digest, show, s);
    Surrounded(FrontParts(show, s), MiddleParts(show, s, s.capturePhase.Some?, Captured(s)),
               BackParts(digest, show, s));
  }

  lemma Surrounded(front: seq<Parts>, middle: seq<Parts>, back: seq<Parts>)
    requires |front| <= 1 && |back| <= 1 && |middle| == 5 && InOrder(middle, 1)
    requires front != [] ==> InOrder(front, 0) && front[0].output == middle[0].input
    requires back != [] ==> InOrder(back, 6) && back[0].input == middle[4].output
    ensures InOrder(front + middle + back, 1 - |front|)
  {
    var all, f := front + middle + back, |front|;
    forall i | 0 <= i < |all| ensures all[i].phaseId == PhaseNames[1 - f + i] && all[i].persistence.Obj? {
      if i >= f && i < f + 5 { assert all[i] == middle[i - f]; }
    }
    forall i | 1 <= i < |all| ensures all[i].input == all[i - 1].output {
      if f < i < f + 5 { assert all[i] == middle[i - f] && all[i - 1] == middle[i - f - 1]; }
    }
  }

  /** What the projection returns, before it validates it. */
  function Projected(digest: Digest, show: Show, c: Context, trace: Fields): Result<Fields> {
    if !ValidContext(c) then Fail(Bad("context_invalid"))
    else
      match ReadSource(trace)
      case Fail(error) => Fail(error)
      case Ok(s) =>
        match ProjectedParts(digest, show, s)
        case Fail(error) => Fail(error)
        case Ok(parts) =>
          ProjectedInOrder(digest, show, s);
          InOrderIsGood(parts, if s.capturePhase.Some? then 0 else 1);
          Ok(TraceSet(digest, c, parts))
  }

  /** The projection accepts itself: whatever it builds passes the validator, with or without capture and
      delivery phases, for every valid context. */
  lemma ProjectionIsAccepted(digest: Digest, show: Show, c: Context, trace: Fields)
    requires Projected(digest, show, c, trace).Ok?
    ensures Validated(digest, Projected(digest, show, c, trace).value).Ok?
  {
    var s := ReadSource(trace).value;
    var parts := ProjectedParts(digest, show, s).value;
    ProjectedInOrder(digest, show, s);
    InOrderIsGood(parts, if s.capturePhase.Some? then 0 else 1);
    GoodPartsPass(digest, c, parts);
  }

  /** The projection, appending record after record to the state it hands on, and validating at the end. */
  method ProjectTrace(digest: Digest, show: Show, c: Context, trace: Fields) returns (r: Result<Fields>)
    ensures r == Projected(digest, show, c, trace)
  {
    if !ValidContext(c) {
      return Fail(Bad("context_invalid"));
    }
    var source := ReadSource(trace);
    if source.Fail? {
      return Fail(source.error);
    }
    var parts := ProjectPhases(digest, show, source.value);
    if parts.Fail? {
      return Fail(parts.error);
    }
    ProjectedInOrder(digest, show, source.value);
    InOrderIsGood(parts.value, if source.value.capturePhase.Some? then 0 else 1);
    var result := TraceSet(digest, c, parts.value);
    ProjectionIsAccepted(digest, show, c, trace);
    var valid := ValidateTraceSet(digest, result);
    assert valid.Ok?;
    r := Ok(result);
  }

  method ProjectPhases(digest: Digest, show: Show, s: Source) returns (r: Result<seq<Parts>>)
    ensures r == ProjectedParts(digest, show, s)
  {
    var front := ProjectCapture(show, s);
    if front.Fail? {
      return Fail(front.error);
    }
    var middle := ProjectMiddle(show, s, s.capturePhase.Some?, Captured(s));
    r := AppendDelivery(digest, show, s, front.value + middle);
    PartsInOrder(digest, show, s, FrontParts(show, s) + MiddleParts(show, s, s.capturePhase.Some?, Captured(s)));
  }

  lemma PartsInOrder(digest: Digest, show: Show, s: Source, before: seq<Parts>)
    requires s.capturePhase.Some? ==> Captured(s).Obj?
    requires before == FrontParts(show, s) + MiddleParts(show, s, s.capturePhase.Some?, Captured(s))
    ensures ProjectedParts(digest, show, s) ==
            if s.deliveryPhase.Some? && !Get(s.deliveryPhase.value, "data").Obj? then
              Fail(Bad("delivery_state_data_must_be_object"))
            else Ok(before + BackParts(digest, show, s))
  {
  }

  method ProjectCapture(show: Show, s: Source) returns (r: Result<seq<Parts>>)
    ensures r == if s.capturePhase.Some? && !Captured(s).Obj? then Fail(Bad("provider_capture_data_must_be_object"))
                 else Ok(FrontParts(show, s))
  {
    var records: seq<Parts> := [];
    if s.capturePhase.Some? {
      if !Captured(s).Obj? {
        return Fail(Bad("provider_capture_data_must_be_object"));
      }
      records := [CapturePart(show, s.capturePhase.value, Captured(s))];
    }
    r := Ok(records);
  }

  method AppendDelivery(digest: Digest, show: Show, s: Source, before: seq<Parts>) returns (r: Result<seq<Parts>>)
    ensures r == if s.deliveryPhase.Some? && !Get(s.deliveryPhase.value, "data").Obj? then
                   Fail(Bad("delivery_state_data_must_be_object"))
                 else Ok(before + BackParts(digest, show, s))
  {
    var records := before;
    assert before + [] == before;
    if s.deliveryPhase.Some? {
      var delivery := Get(s.deliveryPhase.value, "data");
      if !delivery.Obj? {
        return Fail(Bad("delivery_state_data_must_be_object"));
      }
      records := records + [DeliveryPart(digest, show, s.deliveryPhase.value, Obj(s.envelope), FieldsOf(delivery))];
    }
    r := Ok(records);
  }

  method ProjectMiddle(show: Show, s: Source, captured: bool, start: Json) returns (records: seq<Parts>)
    ensures records == MiddleParts(show, s, captured, start)
  {
    var state := start;
    records := [ObservationPart(show, s.observationPhase, captured, state, Obj(s.observation))];
    state := Obj(s.observation);
    var providerAdvisories := Advisories(s.emission, "integration");
    var providerState := WithAdvisories(s.observation, providerAdvisories);
    records := records + [ProviderAdvisoryPart(show, state, providerState, providerAdvisories)];
    state := providerState;
    var integrationOnly := WithAdvisories(s.emission, providerAdvisories);
    records := records + [NormalizationPart(show, s.emissionPhase, state, integrationOnly)];
    state := integrationOnly;
    records := records + [UniversalAdvisoryPart(show, state, Obj(s.emission), Advisories(s.emission, "universal"))];
    state := Obj(s.emission);
    records := records + [MappingPart(show, s.envelopePhase, state, Obj(s.envelope))];
  }
}
