/** `sanitize_observation`: what it keeps, what it counts, and that the gateway takes its receipts. */
module Observations {
  import opened Lru
  import opened Redaction
  import opened Sanitizer
  import opened SanitizerProof
  import opened Strings
  import opened Receipts
  import opened JsonValue
  import Cleanliness
  import Regex

  datatype SourceRef = SourceRef(sourceId: string, ref: string, url: string, kind: string)

  datatype Observation = Observation(
    sourceRef: SourceRef, excerpt: string, title: string, mode: string, author: string, timestamp: string,
    providerEventId: string, providerResourceId: string, evidenceId: string,
    evidenceMetadata: seq<Entry>, metadata: seq<Entry>)

  /** The constants and functions of the module: the ruleset digest, the payload digest, the engine. */
  datatype Setup = Setup(rulesetDigest: string, digest: Observation -> string, engine: Engine)

  /** Digests have the shape of digests, and the engine is the redactor. */
  ghost predicate Standard(c: Setup) {
    IsDigest(c.rulesetDigest) && (forall o :: IsDigest(c.digest(o))) && c.engine == RedactWithFindings
  }

  // ---------- Identity ----------

  /** The fields that must stay byte for byte, in the order they are checked. */
  function Identity(o: Observation): seq<(string, string)> {
    [("source_ref.source_id", o.sourceRef.sourceId), ("source_ref.ref", o.sourceRef.ref),
     ("source_ref.url", o.sourceRef.url), ("source_ref.kind", o.sourceRef.kind),
     ("provider_event_id", o.providerEventId), ("provider_resource_id", o.providerResourceId),
     ("evidence_id", o.evidenceId), ("timestamp", o.timestamp)]
  }

  function FirstSensitive(fields: seq<(string, string)>): Option<string> {
    if fields == [] then None
    else if DetectSensitive(fields[0].1) != [] then Some(fields[0].0)
    else FirstSensitive(fields[1..])
  }

  lemma {:induction false} NoneSensitive(fields: seq<(string, string)>)
    ensures FirstSensitive(fields) == None <==> forall i :: 0 <= i < |fields| ==> DetectSensitive(fields[i].1) == []
  {
    if fields != [] {
      NoneSensitive(fields[1..]);
      if FirstSensitive(fields) == None {
        forall i | 0 <= i < |fields| ensures DetectSensitive(fields[i].1) == [] {
          if i > 0 { assert fields[i] == fields[1..][i - 1]; }
        }
      } else if DetectSensitive(fields[0].1) == [] {
        var i :| 0 <= i < |fields[1..]| && DetectSensitive(fields[1..][i].1) != [];
        assert fields[1..][i] == fields[i + 1];
      }
    }
  }

  // ---------- Mappings ----------

  /** `output[str(key)] = sub`. */
  function Put(entries: seq<Entry>, key: string, v: Value): seq<Entry> {
    if entries == [] then [Entry(Name(key), v)]
    else if entries[0].key == Name(key) then [Entry(Name(key), v)] + entries[1..]
    else [entries[0]] + Put(entries[1..], key, v)
  }

  function Stringified(entries: seq<Entry>): seq<Entry> {
    if entries == [] then []
    else
      var e := entries[|entries| - 1];
      Put(Stringified(entries[..|entries| - 1]), e.key.text, e.value)
  }

  /** A dictionary with string keys. */
  ghost predicate StringKeys(entries: seq<Entry>) {
    (forall i :: 0 <= i < |entries| ==> entries[i].key.Name?) &&
    forall i, j :: 0 <= i < j < |entries| ==> entries[i].key != entries[j].key
  }

  lemma {:induction false} PutNew(entries: seq<Entry>, key: string, v: Value)
    requires forall i :: 0 <= i < |entries| ==> entries[i].key != Name(key)
    ensures Put(entries, key, v) == entries + [Entry(Name(key), v)]
  {
    if entries != [] { PutNew(entries[1..], key, v); }
  }

  lemma {:induction false} StringifiedIsSame(entries: seq<Entry>)
    requires StringKeys(entries)
    ensures Stringified(entries) == entries
  {
    if entries != [] {
      var n := |entries| - 1;
      StringifiedIsSame(entries[..n]);
      PutNew(entries[..n], entries[n].key.text, entries[n].value);
    }
  }

  function SanitizedMapping(f: Engine, entries: seq<Entry>, path: string): Result<seq<Entry>> {
    match Sanitized(f, Dict(entries), path)
    case Ok(v) => if v.Dict? then Ok(Stringified(v.entries)) else Failure("sanitized_mapping_invalid:" + path)
    case Failure(reason) => Failure(reason)
  }

  // ---------- The whole observation ----------

  function AllFound(f: Engine, o: Observation): Counts {
    Merged(Merged(Merged(Merged(f(o.excerpt).1, f(o.title).1), f(o.author).1),
                  Found(f, Dict(o.evidenceMetadata))), Found(f, Dict(o.metadata)))
  }

  /** The nonzero counts, by category name. */
  function FindingList(m: Counts): seq<Finding> {
    ListedIf(m, Credential, "credential") + ListedIf(m, Pii, "pii") + ListedIf(m, SecretValue, "secret")
  }

  function ListedIf(m: Counts, c: Category, name: string): seq<Finding> {
    if Tally(m, c) > 0 then [Finding(name, "tokenized", Tally(m, c))] else []
  }

  /** `completed_at or now`. */
  function CompletedAt(given: Option<string>, clock: string): string {
    if given.Some? && given.value != "" then given.value else clock
  }

  function IssuedReceipt(c: Setup, input: Observation, output: Observation, m: Counts, at: string): Receipt {
    Receipt(1, "bicameral-stdlib-redaction", "1.0.0", "fx-sec-001-plus-pii-v1", c.rulesetDigest,
            c.digest(input), c.digest(output), FindingList(m), true, at)
  }

  function Rewritten(f: Engine, o: Observation, evidence: seq<Entry>, metadata: seq<Entry>): Observation {
    o.(excerpt := f(o.excerpt).0, title := f(o.title).0, author := f(o.author).0,
       evidenceMetadata := evidence, metadata := metadata)
  }

  function SanitizedObservation(c: Setup, o: Observation, completedAt: Option<string>, clock: string)
    : Result<(Observation, Receipt)>
  {
    var sensitive := FirstSensitive(Identity(o));
    if sensitive.Some? then Failure("sensitive_identity_field:" + sensitive.value)
    else
      match SanitizedMapping(c.engine, o.evidenceMetadata, "evidence_metadata")
      case Failure(reason) => Failure(reason)
      case Ok(evidence) =>
        match SanitizedMapping(c.engine, o.metadata, "metadata")
        case Failure(reason) => Failure(reason)
        case Ok(metadata) =>
          var out := Rewritten(c.engine, o, evidence, metadata);
          Ok((out, IssuedReceipt(c, o, out, AllFound(c.engine, o), CompletedAt(completedAt, clock))))
  }

  method SanitizeMapping(findings: Findings, entries: seq<Entry>, path: string) returns (r: Result<seq<Entry>>)
    modifies findings
    ensures r == SanitizedMapping(findings.f, entries, path)
    ensures r.Ok? ==> findings.counts == Merged(old(findings.counts), Found(findings.f, Dict(entries)))
  {
    var v := findings.SanitizeValue(Dict(entries), path);
    if v.Failure? {
      return Failure(v.reason);
    }
    r := if v.value.Dict? then Ok(Stringified(v.value.entries)) else Failure("sanitized_mapping_invalid:" + path);
  }

  /** Check the identity, sanitize field by field into one findings dictionary, issue the receipt. */
  method SanitizeObservation(c: Setup, o: Observation, completedAt: Option<string>, clock: string)
    returns (r: Result<(Observation, Receipt)>)
    ensures r == SanitizedObservation(c, o, completedAt, clock)
  {
    var sensitive := FirstSensitive(Identity(o));
    if sensitive.Some? {
      return Failure("sensitive_identity_field:" + sensitive.value);
    }
    var findings := new Findings(c.engine);
    var excerpt := findings.SanitizeText(o.excerpt);
    MergedUnit(Found(c.engine, Text(o.excerpt)));
    var title := findings.SanitizeText(o.title);
    var author := findings.SanitizeText(o.author);
    var evidence := SanitizeMapping(findings, o.evidenceMetadata, "evidence_metadata");
    if evidence.Failure? {
      return Failure(evidence.reason);
    }
    var metadata := SanitizeMapping(findings, o.metadata, "metadata");
    if metadata.Failure? {
      return Failure(metadata.reason);
    }
    var sanitized := o.(excerpt := excerpt, title := title, author := author,
                        evidenceMetadata := evidence.value, metadata := metadata.value);
    r := Ok((sanitized, IssuedReceipt(c, o, sanitized, findings.counts, CompletedAt(completedAt, clock))));
  }

  // ---------- When it succeeds, and with what ----------

  /** The fields a redaction must not change have nothing to redact. */
  predicate IdentityIsClean(o: Observation) {
    DetectSensitive(o.sourceRef.sourceId) == [] && DetectSensitive(o.sourceRef.ref) == [] &&
    DetectSensitive(o.sourceRef.url) == [] && DetectSensitive(o.sourceRef.kind) == [] &&
    DetectSensitive(o.providerEventId) == [] && DetectSensitive(o.providerResourceId) == [] &&
    DetectSensitive(o.evidenceId) == [] && DetectSensitive(o.timestamp) == []
  }

  ghost predicate AllAllowed(f: Engine, entries: seq<Entry>) {
    forall p: Place :: Reaches(Dict(entries), p) ==> Allowed(f, At(Dict(entries), p))
  }

  lemma OneField(x: (string, string), rest: seq<(string, string)>)
    ensures FirstSensitive([x] + rest) == None <==> DetectSensitive(x.1) == [] && FirstSensitive(rest) == None
  {
    assert ([x] + rest)[1..] == rest;
  }

  lemma FourFields(a: (string, string), b: (string, string), c: (string, string), d: (string, string),
                   rest: seq<(string, string)>)
    ensures FirstSensitive([a, b, c, d] + rest) == None <==>
            DetectSensitive(a.1) == [] && DetectSensitive(b.1) == [] && DetectSensitive(c.1) == [] &&
            DetectSensitive(d.1) == [] && FirstSensitive(rest) == None
  {
    assert [a, b, c, d] + rest == [a] + ([b] + ([c] + ([d] + rest)));
    OneField(a, [b] + ([c] + ([d] + rest)));
    OneField(b, [c] + ([d] + rest));
    OneField(c, [d] + rest);
    OneField(d, rest);
  }

  lemma EightClean(a: (string, string), b: (string, string), c: (string, string), d: (string, string),
                   e: (string, string), f: (string, string), g: (string, string), h: (string, string))
    ensures FirstSensitive([a, b, c, d, e, f, g, h]) == None <==>
            DetectSensitive(a.1) == [] && DetectSensitive(b.1) == [] && DetectSensitive(c.1) == [] &&
            DetectSensitive(d.1) == [] && DetectSensitive(e.1) == [] && DetectSensitive(f.1) == [] &&
            DetectSensitive(g.1) == [] && DetectSensitive(h.1) == []
  {
    assert [a, b, c, d, e, f, g, h] == [a, b, c, d] + ([e, f, g, h] + []);
    FourFields(a, b, c, d, [e, f, g, h] + []);
    FourFields(e, f, g, h, []);
  }

  lemma EightFields(o: Observation)
    ensures IdentityIsClean(o) <==> FirstSensitive(Identity(o)) == None
  {
    EightClean(("source_ref.source_id", o.sourceRef.sourceId), ("source_ref.ref", o.sourceRef.ref),
               ("source_ref.url", o.sourceRef.url), ("source_ref.kind", o.sourceRef.kind),
               ("provider_event_id", o.providerEventId), ("provider_resource_id", o.providerResourceId),
               ("evidence_id", o.evidenceId), ("timestamp", o.timestamp));
  }

  lemma MappingSucceedsExactly(f: Engine, entries: seq<Entry>, path: string)
    ensures SanitizedMapping(f, entries, path).Ok? <==> AllAllowed(f, entries)
  {
    var r := Sanitized(f, Dict(entries), path);
    SucceedsExactly(f, Dict(entries), path);
    if r.Ok? {
      TopIsSanitized(f, Dict(entries), path, r.value);
      assert r.value.Dict?;
      assert SanitizedMapping(f, entries, path).Ok?;
      assert AllAllowed(f, entries);
    }
  }

  /** An observation is sanitized exactly when its identity is clean and both mappings hold nothing forbidden. */
  lemma SanitizesExactly(c: Setup, o: Observation, at: Option<string>, clock: string)
    ensures SanitizedObservation(c, o, at, clock).Ok? <==>
            IdentityIsClean(o) && AllAllowed(c.engine, o.evidenceMetadata) && AllAllowed(c.engine, o.metadata)
  {
    EightFields(o);
    MappingSucceedsExactly(c.engine, o.evidenceMetadata, "evidence_metadata");
    MappingSucceedsExactly(c.engine, o.metadata, "metadata");
  }

  /** The two mappings have the same places, and at each the second has what the engine makes of the first. */
  ghost predicate RedactedAt(f: Engine, before: seq<Entry>, after: seq<Entry>, p: Place) {
    (Reaches(Dict(before), p) <==> Reaches(Dict(after), p)) &&
    (Reaches(Dict(before), p) ==> SameTop(f, At(Dict(before), p), At(Dict(after), p)))
  }

  /** Each field holds the redaction of the same field, text by text, and nothing else is changed. */
  lemma FieldByField(c: Setup, o: Observation, at: Option<string>, clock: string, out: Observation, p: Place)
    requires SanitizedObservation(c, o, at, clock).Ok? && out == SanitizedObservation(c, o, at, clock).value.0
    requires StringKeys(o.evidenceMetadata) && StringKeys(o.metadata)
    ensures out.excerpt == c.engine(o.excerpt).0 && out.title == c.engine(o.title).0
    ensures out.author == c.engine(o.author).0
    ensures RedactedAt(c.engine, o.evidenceMetadata, out.evidenceMetadata, p)
    ensures RedactedAt(c.engine, o.metadata, out.metadata, p)
    ensures out.sourceRef == o.sourceRef && out.mode == o.mode && out.timestamp == o.timestamp
    ensures out.providerEventId == o.providerEventId && out.providerResourceId == o.providerResourceId
    ensures out.evidenceId == o.evidenceId
  {
    MappingIsKept(c.engine, o.evidenceMetadata, "evidence_metadata", p);
    MappingIsKept(c.engine, o.metadata, "metadata", p);
  }

  // ---------- What it keeps ----------

  /** Identity and mode are unchanged, and the identity is clean. */
  lemma IdentityIsKept(c: Setup, o: Observation, at: Option<string>, clock: string)
    requires SanitizedObservation(c, o, at, clock).Ok?
    ensures var out := SanitizedObservation(c, o, at, clock).value.0;
            Identity(out) == Identity(o) && out.mode == o.mode &&
            forall i :: 0 <= i < |Identity(o)| ==> DetectSensitive(Identity(o)[i].1) == []
  {
    NoneSensitive(Identity(o));
  }

  /** A metadata tree with string keys keeps its places, keys and scalars, and its texts are redacted. */
  lemma MappingIsKept(f: Engine, entries: seq<Entry>, path: string, p: Place)
    requires SanitizedMapping(f, entries, path).Ok? && StringKeys(entries)
    ensures var v, w := Dict(entries), Dict(SanitizedMapping(f, entries, path).value);
            (Reaches(v, p) <==> Reaches(w, p)) &&
            (Reaches(v, p) ==> Allowed(f, At(v, p)) && SameTop(f, At(v, p), At(w, p)))
  {
    var w := Sanitized(f, Dict(entries), path).value;
    TopIsSanitized(f, Dict(entries), path, w);
    StringifiedIsSame(w.entries);
    Conserved(f, Dict(entries), path, w, p);
  }

  /** The texts that are redacted. */
  function Texts(o: Observation): seq<string> {
    [o.excerpt] + [o.title] + [o.author] + Leaves(Dict(o.evidenceMetadata)) + Leaves(Dict(o.metadata))
  }

  /** How often a receipt counts a category. */
  function Counted(fs: seq<Finding>, name: string): nat {
    if fs == [] then 0 else (if fs[0].category == name then fs[0].count else 0) + Counted(fs[1..], name)
  }

  function CategoryName(c: Category): string {
    match c case Credential => "credential" case Pii => "pii" case SecretValue => "secret"
  }

  lemma OneText(f: Engine, s: string, c: Category)
    ensures Total(f, [s], c) == Tally(f(s).1, c)
  {
    assert [s][1..] == [];
  }

  /** All findings, counted text by text. */
  lemma AllFoundIsTotal(f: Engine, o: Observation, c: Category)
    ensures Tally(AllFound(f, o), c) == Total(f, Texts(o), c)
  {
    var e, m := Leaves(Dict(o.evidenceMetadata)), Leaves(Dict(o.metadata));
    FoundIsTotal(f, Dict(o.evidenceMetadata), c);
    FoundIsTotal(f, Dict(o.metadata), c);
    OneText(f, o.excerpt, c);
    OneText(f, o.title, c);
    OneText(f, o.author, c);
    TotalConcat(f, [o.excerpt], [o.title], c);
    TotalConcat(f, [o.excerpt] + [o.title], [o.author], c);
    TotalConcat(f, [o.excerpt] + [o.title] + [o.author], e, c);
    TotalConcat(f, [o.excerpt] + [o.title] + [o.author] + e, m, c);
  }

  lemma {:induction false} CountedConcat(a: seq<Finding>, b: seq<Finding>, name: string)
    ensures Counted(a + b, name) == Counted(a, name) + Counted(b, name)
  {
    if a == [] {
      assert a + b == b;
    } else {
      CountedConcat(a[1..], b, name);
      assert (a + b)[1..] == a[1..] + b;
    }
  }

  lemma ListIsCount(m: Counts, c: Category)
    ensures Counted(FindingList(m), CategoryName(c)) == Tally(m, c)
  {
    var a, b := ListedIf(m, Credential, "credential"), ListedIf(m, Pii, "pii");
    var d := ListedIf(m, SecretValue, "secret");
    CountedConcat(a, b, CategoryName(c));
    CountedConcat(a + b, d, CategoryName(c));
    OneListed(m, Credential, "credential", CategoryName(c));
    OneListed(m, Pii, "pii", CategoryName(c));
    OneListed(m, SecretValue, "secret", CategoryName(c));
  }

  lemma OneListed(m: Counts, c: Category, name: string, other: string)
    ensures Counted(ListedIf(m, c, name), other) == if name == other then Tally(m, c) else 0
  {
    if Tally(m, c) > 0 { assert ListedIf(m, c, name)[1..] == []; }
  }

  /** The receipt's count of each category is the sum over the texts of the observation. */
  lemma ReceiptCountsTexts(c: Setup, o: Observation, at: Option<string>, clock: string, category: Category)
    requires SanitizedObservation(c, o, at, clock).Ok?
    ensures Counted(SanitizedObservation(c, o, at, clock).value.1.findings, CategoryName(category))
            == Total(c.engine, Texts(o), category)
  {
    AllFoundIsTotal(c.engine, o, category);
    ListIsCount(AllFound(c.engine, o), category);
  }

  lemma IssuedIsWellMade(c: Setup, input: Observation, output: Observation, m: Counts, at: string)
    requires Standard(c)
    ensures WellMade(IssuedReceipt(c, input, output, m, at))
  {
    var r := IssuedReceipt(c, input, output, m, at);
    FirstIsVisible(r.engine);
    FirstIsVisible(r.engineVersion);
    FirstIsVisible(r.rulesetId);
  }

  lemma FirstIsVisible(s: string)
    requires s != "" && !Regex.IsSpace(s[0])
    ensures Visible(s)
  {
  }

  lemma IssuedPasses(c: Setup, input: Observation, output: Observation, m: Counts, at: string,
                     metadata: map<string, Json>)
    requires Standard(c) && "redaction_receipt" in metadata
    requires metadata["redaction_receipt"] == ReceiptJson(IssuedReceipt(c, input, output, m, at))
    ensures RequireReceipt(metadata) == None <==> IsTimestamp(at)
  {
    IssuedIsWellMade(c, input, output, m, at);
    WellMadePasses(IssuedReceipt(c, input, output, m, at), metadata);
  }

  lemma WhatIsIssued(c: Setup, o: Observation, at: Option<string>, clock: string, out: Observation, r: Receipt)
    requires SanitizedObservation(c, o, at, clock) == Ok((out, r))
    ensures r == IssuedReceipt(c, o, out, AllFound(c.engine, o), CompletedAt(at, clock))
  {
  }

  /** A receipt carries the digest of the observation before and after, and when it was completed; each category is
      listed at most once, with what was tokenized of it. */
  lemma ReceiptTells(c: Setup, o: Observation, at: Option<string>, clock: string, out: Observation, r: Receipt)
    requires SanitizedObservation(c, o, at, clock) == Ok((out, r))
    ensures r.inputDigest == c.digest(o) && r.outputDigest == c.digest(out) && r.rulesetDigest == c.rulesetDigest
    ensures r.completedAt == if at.Some? && at.value != "" then at.value else clock
    ensures forall f :: f in r.findings ==> f.action == "tokenized" && f.count > 0
    ensures forall i, j :: 0 <= i < j < |r.findings| ==> r.findings[i].category != r.findings[j].category
  {
    WhatIsIssued(c, o, at, clock, out, r);
    ListIsDistinct(AllFound(c.engine, o));
  }

  lemma ListIsDistinct(m: Counts)
    ensures forall f :: f in FindingList(m) ==> f.action == "tokenized" && f.count > 0
    ensures var fs := FindingList(m); forall i, j :: 0 <= i < j < |fs| ==> fs[i].category != fs[j].category
  {
    assert "credential"[0] != "pii"[0] && "pii"[0] != "secret"[0] && "credential"[0] != "secret"[0];
  }

  lemma WhenCompletedAtPasses(at: Option<string>, clock: string)
    requires IsTimestamp(clock)
    ensures IsTimestamp(CompletedAt(at, clock)) <==> (at.Some? && at.value != "" ==> IsTimestamp(at.value))
  {
  }

  /** Every receipt passes the gateway, provided a timestamp the caller supplied is one. */
  lemma ReceiptIsAccepted(c: Setup, o: Observation, at: Option<string>, clock: string, out: Observation, r: Receipt,
                          metadata: map<string, Json>)
    requires Standard(c) && IsTimestamp(clock) && SanitizedObservation(c, o, at, clock) == Ok((out, r))
    requires "redaction_receipt" in metadata && metadata["redaction_receipt"] == ReceiptJson(r)
    ensures RequireReceipt(metadata) == None <==> (at.Some? && at.value != "" ==> IsTimestamp(at.value))
  {
    WhatIsIssued(c, o, at, clock, out, r);
    WhenCompletedAtPasses(at, clock);
    IssuedPasses(c, o, out, AllFound(c.engine, o), CompletedAt(at, clock), metadata);
  }

  /** Every text of the sanitized observation is clean, wherever it stands. */
  lemma OutputIsClean(c: Setup, o: Observation, at: Option<string>, clock: string, p: Place)
    requires Standard(c) && SanitizedObservation(c, o, at, clock).Ok?
    requires StringKeys(o.evidenceMetadata) && StringKeys(o.metadata)
    ensures var out := SanitizedObservation(c, o, at, clock).value.0;
            DetectSensitive(out.excerpt) == [] && DetectSensitive(out.title) == [] &&
            DetectSensitive(out.author) == [] &&
            TextIsClean(Dict(out.evidenceMetadata), p) && TextIsClean(Dict(out.metadata), p)
  {
    Cleanliness.RedactedIsClean(o.excerpt);
    Cleanliness.RedactedIsClean(o.title);
    Cleanliness.RedactedIsClean(o.author);
    CleanBelow(c.engine, o.evidenceMetadata, "evidence_metadata", p);
    CleanBelow(c.engine, o.metadata, "metadata", p);
  }

  /** A text at that place is clean, and so are the keys of a dictionary there. */
  predicate TextIsClean(v: Value, p: Place) {
    Reaches(v, p) ==>
      (At(v, p).Text? ==> DetectSensitive(At(v, p).s) == []) &&
      (At(v, p).Dict? ==>
        forall i :: 0 <= i < |At(v, p).entries| ==> DetectSensitive(At(v, p).entries[i].key.text) == [])
  }

  lemma CleanBelow(f: Engine, entries: seq<Entry>, path: string, p: Place)
    requires SanitizedMapping(f, entries, path).Ok? && StringKeys(entries) && f == RedactWithFindings
    ensures TextIsClean(Dict(SanitizedMapping(f, entries, path).value), p)
  {
    MappingIsKept(f, entries, path, p);
    var v, w := Dict(entries), Dict(SanitizedMapping(f, entries, path).value);
    if Reaches(v, p) { CleanTop(f, At(v, p), At(w, p)); }
  }

  lemma CleanTop(f: Engine, v: Value, w: Value)
    requires Allowed(f, v) && SameTop(f, v, w) && f == RedactWithFindings
    ensures w.Text? ==> DetectSensitive(w.s) == []
    ensures w.Dict? ==> forall i :: 0 <= i < |w.entries| ==> DetectSensitive(w.entries[i].key.text) == []
  {
    if v.Text? { Cleanliness.RedactedIsClean(v.s); }
    if v.Dict? {
      forall i | 0 <= i < |w.entries| ensures DetectSensitive(w.entries[i].key.text) == [] {
        assert v.entries[i] in v.entries;
        Cleanliness.RedactedIsClean(v.entries[i].key.text);
      }
    }
  }
}
