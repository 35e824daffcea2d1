/** Accepted trace sets written out, field by field; in an accepted set each output is handed on unchanged. */
module TraceShape {
  import opened Lru
  import opened JsonValue
  import opened Trace
  import opened TraceProjection
  import opened TraceProof
  import opened ReceiptShapes
  import Strings
  import Receipts

  // ---------- One record ----------

  ghost predicate Has(m: Fields, key: string, v: Json) { key in m && m[key] == v }

  predicate HasObject(m: Fields, key: string) { key in m && m[key].Obj? }

  /** What a record is about: its phase, and what went in and came out. */
  datatype View = View(phase: string, input: Json, output: Json)

  /** 40 small hexadecimal digits. */
  ghost predicate SpellsRevision(s: string) {
    |s| == 40 && forall p :: 0 <= p < 40 ==> HexChar(s[p])
  }

  /** The contract of each phase. */
  function ContractName(phase: string): Option<string> {
    if phase == "PHASE-01-PROVIDER-ACQUISITION" then Some("bicameral.provider-capture/v1")
    else if phase == "PHASE-04-OBSERVATION" then Some("bicameral.observation/v1")
    else if phase == "PHASE-05-PROVIDER-ADVISORIES" then Some("bicameral.ingress-advisory/v1")
    else if phase == "PHASE-06-UNIVERSAL-NORMALIZATION" then Some("bicameral.adapter-emission/v1")
    else if phase == "PHASE-07-UNIVERSAL-ADVISORIES" then Some("bicameral.ingress-advisory/v1")
    else if phase == "PHASE-08-GATEWAY-MAPPING" then Some("bicameral.external-ingest-envelope/v2")
    else if phase == "PHASE-08-GATEWAY-DELIVERY" then Some("bicameral.gateway-delivery-receipt/v1")
    else None
  }

  /** A phase that is none of the seven has no contract id. */
  ghost predicate NamesContract(phase: string, contract: Fields) {
    if ContractName(phase).Some? then Has(contract, "id", Str(ContractName(phase).value))
    else "id" !in contract || contract["id"] == Null
  }

  /** Data that is left out counts as null. */
  ghost predicate Carries(digest: Digest, side: Fields, data: Json) {
    Has(side, "digest", Str(digest(data))) && (Has(side, "data", data) || ("data" !in side && data == Null))
  }

  ghost predicate Identified(r: Fields, journey: string, trace: string, phase: string) {
    Has(r, "schema", Str("bicameral.transformation-trace/v1")) && Has(r, "journey_id", Str(journey)) &&
    Has(r, "trace_id", Str(trace)) && Has(r, "phase_id", Str(phase)) && NotBlank(phase)
  }

  ghost predicate MadeBy(r: Fields, phase: string) {
    HasObject(r, "component") && TextField(r["component"].fields, "revision") &&
    SpellsRevision(r["component"].fields["revision"].text) &&
    HasObject(r, "contract") && NamesContract(phase, r["contract"].fields) &&
    DigestIn(r["contract"].fields, "semantic_fingerprint")
  }

  /** Nothing here makes anything canonical. */
  ghost predicate Unauthoritative(r: Fields) {
    HasObject(r, "authority") && Has(r["authority"].fields, "canonical", Bool(false)) &&
    HasObject(r, "persistence") && HasObject(r, "timing") && HasObject(r, "receipt")
  }

  ghost predicate GoodRecord(digest: Digest, journey: string, trace: string, record: Json, v: View) {
    record.Obj? && Identified(record.fields, journey, trace, v.phase) && MadeBy(record.fields, v.phase) &&
    HasObject(record.fields, "input") && Carries(digest, record.fields["input"].fields, v.input) &&
    HasObject(record.fields, "output") && Carries(digest, record.fields["output"].fields, v.output) &&
    Unauthoritative(record.fields)
  }

  // ---------- The checks of one record ----------

  function ViewOf(record: Json): View { View(PhaseOf(record), DataOf(record, "input"), DataOf(record, "output")) }

  lemma ReadText(m: Fields, key: string)
    ensures Get(m, key).Str? <==> TextField(m, key)
    ensures Get(m, key).Obj? <==> HasObject(m, key)
    ensures forall v :: v != Null ==> (Get(m, key) == v <==> Has(m, key, v))
  {
  }

  lemma RevisionExactly(s: string)
    ensures IsSha(s) <==> SpellsRevision(s)
  {
  }

  lemma ContractsExactly(phase: string)
    ensures ExpectedContract(phase) ==
            if ContractName(phase).Some? then Str(ContractName(phase).value) else Null
  {
  }

  ghost predicate ReadIdentified(r: Fields, journey: Json, trace: Json) {
    Get(r, "schema") == Str(TRACE_SCHEMA) && Get(r, "journey_id") == journey && Get(r, "trace_id") == trace &&
    RequiredText(Get(r, "phase_id"))
  }

  ghost predicate ReadMade(r: Fields, phase: string) {
    Get(r, "component").Obj? && Get(Get(r, "component").fields, "revision").Str? &&
    IsSha(Get(Get(r, "component").fields, "revision").text) &&
    Get(r, "contract").Obj? && Get(Get(r, "contract").fields, "id") == ExpectedContract(phase) &&
    Get(Get(r, "contract").fields, "semantic_fingerprint").Str? &&
    Receipts.IsDigest(Get(Get(r, "contract").fields, "semantic_fingerprint").text)
  }

  ghost predicate ReadSide(digest: Digest, r: Fields, key: string) {
    Get(r, key).Obj? && Get(Get(r, key).fields, "digest") == Str(digest(Get(Get(r, key).fields, "data")))
  }

  ghost predicate ReadUnauthoritative(r: Fields) {
    Get(r, "authority").Obj? && Get(Get(r, "authority").fields, "canonical") == Bool(false) &&
    Get(r, "persistence").Obj? && Get(r, "timing").Obj? && Get(r, "receipt").Obj?
  }

  /** The checks, one group after another. */
  lemma PassesInGroups(digest: Digest, journey: Json, trace: Json, r: Fields)
    ensures PassesAlone(digest, journey, trace, Obj(r)) <==>
            ReadIdentified(r, journey, trace) && ReadMade(r, PhaseOf(Obj(r))) && ReadSide(digest, r, "input") &&
            ReadSide(digest, r, "output") && ReadUnauthoritative(r)
  {
  }

  lemma IdentifiedExactly(r: Fields, journey: string, trace: string)
    ensures ReadIdentified(r, Str(journey), Str(trace)) <==> Identified(r, journey, trace, PhaseOf(Obj(r)))
  {
    ReadText(r, "schema");
    ReadText(r, "journey_id");
    ReadText(r, "trace_id");
    ReadText(r, "phase_id");
    VisibleExactly(PhaseOf(Obj(r)));
  }

  lemma MadeExactly(r: Fields, phase: string)
    ensures ReadMade(r, phase) <==> MadeBy(r, phase)
  {
    ReadText(r, "component");
    ReadText(r, "contract");
    if HasObject(r, "component") { RevisionReads(r["component"].fields); }
    if HasObject(r, "contract") { ContractReads(r["contract"].fields, phase); }
  }

  lemma RevisionReads(component: Fields)
    ensures Get(component, "revision").Str? && IsSha(Get(component, "revision").text) <==>
            TextField(component, "revision") && SpellsRevision(component["revision"].text)
  {
    ReadText(component, "revision");
    if TextField(component, "revision") { RevisionExactly(component["revision"].text); }
  }

  lemma ContractReads(contract: Fields, phase: string)
    ensures Get(contract, "id") == ExpectedContract(phase) <==> NamesContract(phase, contract)
    ensures var f := Get(contract, "semantic_fingerprint");
            f.Str? && Receipts.IsDigest(f.text) <==> DigestIn(contract, "semantic_fingerprint")
  {
    ContractsExactly(phase);
    ReadText(contract, "id");
    ReadText(contract, "semantic_fingerprint");
    if TextField(contract, "semantic_fingerprint") { DigestExactly(contract["semantic_fingerprint"].text); }
  }

  lemma SideExactly(digest: Digest, r: Fields, key: string)
    ensures ReadSide(digest, r, key) <==>
            HasObject(r, key) && Carries(digest, r[key].fields, DataOf(Obj(r), key))
  {
    ReadText(r, key);
    if HasObject(r, key) { ReadText(r[key].fields, "digest"); }
  }

  lemma UnauthoritativeExactly(r: Fields)
    ensures ReadUnauthoritative(r) <==> Unauthoritative(r)
  {
    ReadText(r, "authority");
    ReadText(r, "persistence");
    ReadText(r, "timing");
    ReadText(r, "receipt");
    if HasObject(r, "authority") { ReadText(r["authority"].fields, "canonical"); }
  }

  /** What a good record shows is what is read from it. */
  lemma OneView(digest: Digest, journey: string, trace: string, record: Json, v: View)
    requires GoodRecord(digest, journey, trace, record, v)
    ensures v == ViewOf(record) && DigestOf(record, "input") == Str(digest(v.input))
    ensures DigestOf(record, "output") == Str(digest(v.output))
  {
  }

  /** A record passes the checks exactly when it is good. */
  lemma RecordExactly(digest: Digest, journey: string, trace: string, record: Json)
    ensures PassesAlone(digest, Str(journey), Str(trace), record) <==>
            GoodRecord(digest, journey, trace, record, ViewOf(record))
  {
    if record.Obj? {
      var r := record.fields;
      PassesInGroups(digest, Str(journey), Str(trace), r);
      IdentifiedExactly(r, journey, trace);
      MadeExactly(r, PhaseOf(record));
      SideExactly(digest, r, "input");
      SideExactly(digest, r, "output");
      UnauthoritativeExactly(r);
    }
  }

  // ---------- The set ----------

  /** Good records of one journey and trace, each phase once, each input digest the output digest before it. */
  ghost predicate Acceptable(digest: Digest, t: Fields, journey: string, trace: string, records: seq<Json>,
                             views: seq<View>) {
    Has(t, "schema", Str("bicameral.transformation-trace-set/v1")) &&
    Has(t, "journey_id", Str(journey)) && NotBlank(journey) && Has(t, "trace_id", Str(trace)) && NotBlank(trace) &&
    Has(t, "records", Arr(records)) && records != [] && |views| == |records| &&
    (forall i :: 0 <= i < |records| ==> GoodRecord(digest, journey, trace, records[i], views[i])) &&
    (forall i, j :: 0 <= i < j < |views| ==> views[i].phase != views[j].phase) &&
    forall i, j :: 0 <= i && j == i + 1 && j < |views| ==> digest(views[j].input) == digest(views[i].output)
  }

  function ViewsOf(records: seq<Json>): seq<View> {
    seq(|records|, i requires 0 <= i < |records| => ViewOf(records[i]))
  }

  /** The record passes and shows just this. */
  ghost predicate Passing(digest: Digest, journey: Json, trace: Json, record: Json, v: View) {
    PassesAlone(digest, journey, trace, record) && v == ViewOf(record) &&
    DigestOf(record, "input") == Str(digest(v.input)) && DigestOf(record, "output") == Str(digest(v.output))
  }

  lemma GoodIsPassing(digest: Digest, journey: string, trace: string, record: Json, v: View)
    requires GoodRecord(digest, journey, trace, record, v)
    ensures Passing(digest, Str(journey), Str(trace), record, v)
  {
    OneView(digest, journey, trace, record, v);
    RecordExactly(digest, journey, trace, record);
  }

  lemma PassingIsConsistent(digest: Digest, journey: Json, trace: Json, records: seq<Json>, views: seq<View>)
    requires |views| == |records|
    requires forall i :: 0 <= i < |records| ==> Passing(digest, journey, trace, records[i], views[i])
    requires forall i, j :: 0 <= i < j < |views| ==> views[i].phase != views[j].phase
    requires forall i, j :: 0 <= i && j == i + 1 && j < |views| ==> digest(views[j].input) == digest(views[i].output)
    ensures Consistent(digest, journey, trace, records) && views == ViewsOf(records)
  {
    forall i | 1 <= i < |records| ensures DigestOf(records[i], "input") == DigestOf(records[i - 1], "output") {
      Following(digest, views, i - 1, i);
    }
  }

  lemma AcceptableIsConsistent(digest: Digest, t: Fields, journey: string, trace: string, records: seq<Json>,
                               views: seq<View>)
    requires Acceptable(digest, t, journey, trace, records, views)
    ensures Consistent(digest, Str(journey), Str(trace), records) && views == ViewsOf(records)
  {
    forall i | 0 <= i < |records| ensures Passing(digest, Str(journey), Str(trace), records[i], views[i]) {
      GoodIsPassing(digest, journey, trace, records[i], views[i]);
    }
    PassingIsConsistent(digest, Str(journey), Str(trace), records, views);
  }

  lemma Following(digest: Digest, views: seq<View>, i: nat, j: nat)
    requires j == i + 1 && j < |views|
    requires forall k, l :: 0 <= k && l == k + 1 && l < |views| ==> digest(views[l].input) == digest(views[k].output)
    ensures digest(views[j].input) == digest(views[i].output)
  {
  }

  lemma ConsistentIsAcceptable(digest: Digest, t: Fields, journey: string, trace: string, records: seq<Json>)
    requires Has(t, "schema", Str("bicameral.transformation-trace-set/v1")) && Has(t, "records", Arr(records))
    requires Has(t, "journey_id", Str(journey)) && NotBlank(journey) && Has(t, "trace_id", Str(trace)) &&
             NotBlank(trace)
    requires records != [] && Consistent(digest, Str(journey), Str(trace), records)
    ensures Acceptable(digest, t, journey, trace, records, ViewsOf(records))
  {
    var views := ViewsOf(records);
    forall i | 0 <= i < |records|
      ensures GoodRecord(digest, journey, trace, records[i], views[i])
      ensures DigestOf(records[i], "input") == Str(digest(views[i].input))
      ensures DigestOf(records[i], "output") == Str(digest(views[i].output))
    {
      RecordExactly(digest, journey, trace, records[i]);
      OneView(digest, journey, trace, records[i], views[i]);
    }
    forall i, j | 0 <= i && j == i + 1 && j < |views| ensures digest(views[j].input) == digest(views[i].output) {
      assert DigestOf(records[j], "input") == DigestOf(records[j - 1], "output");
    }
  }

  /** The validator accepts exactly the acceptable sets. */
  lemma ValidatedExactly(digest: Digest, t: Fields)
    ensures Validated(digest, t).Ok? <==>
            exists journey, trace, records, views :: Acceptable(digest, t, journey, trace, records, views)
  {
    AcceptedOneByOne(digest, t);
    HeadReads(t);
    if Validated(digest, t).Ok? {
      var journey, trace, records := t["journey_id"].text, t["trace_id"].text, t["records"].items;
      ConsistentIsAcceptable(digest, t, journey, trace, records);
    }
    if journey, trace, records, views :| Acceptable(digest, t, journey, trace, records, views) {
      AcceptableIsConsistent(digest, t, journey, trace, records, views);
    }
  }

  lemma HeadReads(t: Fields)
    ensures Get(t, "schema") == Str(TRACE_SET_SCHEMA) <==>
            Has(t, "schema", Str("bicameral.transformation-trace-set/v1"))
    ensures RequiredText(Get(t, "journey_id")) <==> TextField(t, "journey_id") && NotBlank(t["journey_id"].text)
    ensures RequiredText(Get(t, "trace_id")) <==> TextField(t, "trace_id") && NotBlank(t["trace_id"].text)
    ensures Get(t, "records").Arr? <==> "records" in t && t["records"].Arr?
  {
    if TextField(t, "journey_id") { VisibleExactly(t["journey_id"].text); }
    if TextField(t, "trace_id") { VisibleExactly(t["trace_id"].text); }
  }

  ghost predicate Collision(digest: Digest, x: Json, y: Json) {
    x != y && digest(x) == digest(y)
  }

  /** In an accepted set the input of every record after the first is the output of the one before,
      unless two different values have the same digest. */
  lemma OutputsAreHandedOn(digest: Digest, t: Fields) returns (records: seq<Json>, views: seq<View>)
    requires Validated(digest, t).Ok?
    ensures exists journey, trace :: Acceptable(digest, t, journey, trace, records, views)
    ensures forall i, j :: 0 <= i && j == i + 1 && j < |views| ==>
              views[i].output == views[j].input || Collision(digest, views[i].output, views[j].input)
  {
    ValidatedExactly(digest, t);
    var journey, trace;
    journey, trace, records, views :| Acceptable(digest, t, journey, trace, records, views);
  }

  // ---------- What the projection shows ----------

  function Shown(p: Parts): View { View(p.phaseId, p.input, p.output) }

  function ShownAll(parts: seq<Parts>): seq<View> {
    seq(|parts|, i requires 0 <= i < |parts| => Shown(parts[i]))
  }

  lemma RecordShows(digest: Digest, c: Context, p: Parts)
    requires ValidContext(c) && p.phaseId in PhaseContracts
    ensures ViewOf(Record(digest, c, p)) == Shown(p)
  {
    RecordReads(digest, c, p);
    SideReads(digest, p.inputSchema, p.input);
    SideReads(digest, p.outputSchema, p.output);
  }

  lemma RecordsShow(digest: Digest, c: Context, parts: seq<Parts>)
    requires ValidContext(c) && forall p :: p in parts ==> p.phaseId in PhaseContracts
    ensures ViewsOf(Recorded(digest, c, parts)) == ShownAll(parts)
  {
    forall i | 0 <= i < |parts| ensures ViewOf(Recorded(digest, c, parts)[i]) == Shown(parts[i]) {
      RecordShows(digest, c, parts[i]);
    }
  }

  /** The capture as it came in, when there is one. */
  function CaptureViews(s: Source): seq<View> {
    if s.capturePhase.None? then []
    else
      var data := Get(s.capturePhase.value, "data");
      [View("PHASE-01-PROVIDER-ACQUISITION", data, data)]
  }

  /** The observation, with the provider's signals, the emission with those alone, the emission, the envelope. */
  function MiddleViews(s: Source): seq<View> {
    var start := if s.capturePhase.Some? then Get(s.capturePhase.value, "data") else Obj(map[]);
    var signals := Arr(Advisories(s.emission, "integration"));
    var annotated, integrationOnly := Obj(s.observation["advisories" := signals]),
      Obj(s.emission["advisories" := signals]);
    [View("PHASE-04-OBSERVATION", start, Obj(s.observation)),
     View("PHASE-05-PROVIDER-ADVISORIES", Obj(s.observation), annotated),
     View("PHASE-06-UNIVERSAL-NORMALIZATION", annotated, integrationOnly),
     View("PHASE-07-UNIVERSAL-ADVISORIES", integrationOnly, Obj(s.emission)),
     View("PHASE-08-GATEWAY-MAPPING", Obj(s.emission), Obj(s.envelope))]
  }

  function DeliveryViews(s: Source): seq<View> {
    if s.deliveryPhase.None? then []
    else [View("PHASE-08-GATEWAY-DELIVERY", Obj(s.envelope), Get(s.deliveryPhase.value, "data"))]
  }

  lemma MiddleShows(show: Show, s: Source, captured: bool, start: Json)
    ensures var signals := Arr(Advisories(s.emission, "integration"));
            var annotated, integrationOnly :=
              Obj(s.observation["advisories" := signals]), Obj(s.emission["advisories" := signals]);
            ShownAll(MiddleParts(show, s, captured, start)) ==
            [View("PHASE-04-OBSERVATION", start, Obj(s.observation)),
             View("PHASE-05-PROVIDER-ADVISORIES", Obj(s.observation), annotated),
             View("PHASE-06-UNIVERSAL-NORMALIZATION", annotated, integrationOnly),
             View("PHASE-07-UNIVERSAL-ADVISORIES", integrationOnly, Obj(s.emission)),
             View("PHASE-08-GATEWAY-MAPPING", Obj(s.emission), Obj(s.envelope))]
  {
  }

  lemma FrontShows(show: Show, s: Source)
    ensures ShownAll(FrontParts(show, s)) == CaptureViews(s)
  {
  }

  lemma BackShows(digest: Digest, show: Show, s: Source)
    requires s.deliveryPhase.Some? ==> Get(s.deliveryPhase.value, "data").Obj?
    ensures ShownAll(BackParts(digest, show, s)) == DeliveryViews(s)
  {
  }

  lemma ThreeShow(a: seq<Parts>, b: seq<Parts>, c: seq<Parts>)
    ensures ShownAll(a + b + c) == ShownAll(a) + ShownAll(b) + ShownAll(c)
  {
  }

  lemma PartsShow(digest: Digest, show: Show, s: Source)
    requires ProjectedParts(digest, show, s).Ok?
    ensures ShownAll(ProjectedParts(digest, show, s).value) == CaptureViews(s) + MiddleViews(s) + DeliveryViews(s)
  {
    FrontShows(show, s);
    MiddleShows(show, s, s.capturePhase.Some?, Captured(s));
    BackShows(digest, show, s);
    ThreeShow(FrontParts(show, s), MiddleParts(show, s, s.capturePhase.Some?, Captured(s)), BackParts(digest, show, s));
  }

  lemma SetShows(digest: Digest, c: Context, parts: seq<Parts>)
    requires ValidContext(c) && forall p :: p in parts ==> p.phaseId in PhaseContracts
    ensures Get(TraceSet(digest, c, parts), "records").Arr?
    ensures ViewsOf(Get(TraceSet(digest, c, parts), "records").items) == ShownAll(parts)
  {
    RecordsShow(digest, c, parts);
    SetOfReads(c.journeyId, c.traceId, Recorded(digest, c, parts));
  }

  /** A projected set shows the capture, the observation, the emission, the envelope and the delivery of its trace,
      each as it is in the trace, in order. */
  lemma ProjectionShows(digest: Digest, show: Show, c: Context, trace: Fields)
    requires Projected(digest, show, c, trace).Ok?
    ensures ReadSource(trace).Ok? && Get(Projected(digest, show, c, trace).value, "records").Arr?
    ensures ViewsOf(Get(Projected(digest, show, c, trace).value, "records").items) ==
            CaptureViews(ReadSource(trace).value) + MiddleViews(ReadSource(trace).value) +
            DeliveryViews(ReadSource(trace).value)
  {
    var s := ReadSource(trace).value;
    var parts := ProjectedParts(digest, show, s).value;
    ProjectedInOrder(digest, show, s);
    InOrderIsGood(parts, if s.capturePhase.Some? then 0 else 1);
    SetShows(digest, c, parts);
    PartsShow(digest, show, s);
  }
}
