/** Redaction receipts as JSON, and the gateway's check of them. */
module Receipts {
  import opened Lru
  import opened JsonValue
  import opened Strings
  import Regex
  import Catalog

  /** `re.fullmatch`. */
  predicate FullMatch(r: Regex.Re, t: string) {
    |t| in Regex.Ends(r, t, 0)
  }

  const Hex := Regex.Cls(false, false, true, false, {'a', 'b', 'c', 'd', 'e', 'f'})
  const DigestShape := Regex.Cat(Regex.Text("sha256:"), Catalog.Times(Hex, 64))

  function Digits(n: nat): Regex.Re { Catalog.Times(Catalog.Digit, n) }

  /** Two parts with `mark` between them, and what follows. */
  function Pair(a: Regex.Re, mark: Regex.Literal, b: Regex.Re): Regex.Re {
    Regex.Cat(a, Regex.Cat(Regex.Text(mark), b))
  }

  const Fraction := Catalog.Optional(Regex.Cat(Regex.Text("."), Catalog.AtLeast(Catalog.Digit, 1)))
  const Offset :=
    Regex.Alt(Regex.Text("Z"),
              Regex.Cat(Regex.One(Regex.Cls(false, false, false, false, {'+', '-'})), Pair(Digits(2), ":", Digits(2))))
  const Clock := Pair(Digits(2), ":", Pair(Digits(2), ":", Regex.Cat(Digits(2), Regex.Cat(Fraction, Offset))))
  const DateTime := Pair(Digits(4), "-", Pair(Digits(2), "-", Pair(Digits(2), "T", Clock)))

  predicate IsDigest(s: string) { FullMatch(DigestShape, s) }

  predicate IsTimestamp(s: string) { FullMatch(DateTime, s) }

  // ---------- Receipts ----------

  datatype Finding = Finding(category: string, action: string, count: nat)

  datatype Receipt = Receipt(
    schemaVersion: int, engine: string, engineVersion: string, rulesetId: string, rulesetDigest: string,
    inputDigest: string, outputDigest: string, findings: seq<Finding>, structuralFieldsPreserved: bool,
    completedAt: string)

  function FindingJson(f: Finding): Json {
    Obj(map["category" := Str(f.category), "action" := Str(f.action), "count" := Int(f.count)])
  }

  function FindingsJson(fs: seq<Finding>): seq<Json> {
    seq(|fs|, i requires 0 <= i < |fs| => FindingJson(fs[i]))
  }

  function ReceiptJson(r: Receipt): Json {
    Obj(map[
      "schema_version" := Int(r.schemaVersion), "engine" := Str(r.engine), "engine_version" := Str(r.engineVersion),
      "ruleset_id" := Str(r.rulesetId), "ruleset_digest" := Str(r.rulesetDigest),
      "input_digest" := Str(r.inputDigest), "output_digest" := Str(r.outputDigest),
      "findings" := Arr(FindingsJson(r.findings)),
      "structural_fields_preserved" := Bool(r.structuralFieldsPreserved), "completed_at" := Str(r.completedAt)])
  }

  // ---------- The check ----------

  const ReceiptKeys: set<string> :=
    {"schema_version", "engine", "engine_version", "ruleset_id", "ruleset_digest", "input_digest", "output_digest",
     "findings", "structural_fields_preserved", "completed_at"}
  const FindingKeys: set<string> := {"category", "action", "count"}
  const FindingCategories: set<string> := {"credential", "pii", "secret"}
  const FindingActions: set<string> := {"removed", "tokenized"}

  /** `value == 1` in Python: also `1.0` and `True`. */
  predicate EqualsOne(v: Json) {
    v == Int(1) || v == Float(1.0) || v == Bool(true)
  }

  function BadFinding(f: Json): Option<string> {
    if !f.Obj? || f.fields.Keys != FindingKeys then Some("redaction_finding_shape")
    else if !(f.fields["category"].Str? && f.fields["category"].text in FindingCategories) then
      Some("redaction_finding_category")
    else if !(f.fields["action"].Str? && f.fields["action"].text in FindingActions)
      then Some("redaction_finding_action")
    else if !(f.fields["count"].Int? && f.fields["count"].whole > 0) then Some("redaction_finding_count")
    else None
  }

  function FirstBadFinding(fs: seq<Json>): Option<string> {
    if fs == [] then None
    else if BadFinding(fs[0]).Some? then BadFinding(fs[0])
    else FirstBadFinding(fs[1..])
  }

  function FirstFailing(r: map<string, Json>, keys: seq<string>, good: string -> bool): Option<string>
    requires forall k :: k in keys ==> k in r
  {
    if keys == [] then None
    else
      assert keys[0] in keys && forall k :: k in keys[1..] ==> k in keys;
      if !(r[keys[0]].Str? && good(r[keys[0]].text)) then Some("invalid_" + keys[0])
      else FirstFailing(r, keys[1..], good)
  }

  const LabelKeys := ["engine", "engine_version", "ruleset_id"]
  const DigestKeys := ["ruleset_digest", "input_digest", "output_digest"]

  /** Why the gateway rejects the receipt in an emission's metadata, if it does. */
  function RequireReceipt(metadata: map<string, Json>): Option<string> {
    if !("redaction_receipt" in metadata && metadata["redaction_receipt"].Obj?) then Some("redaction_receipt_required")
    else
      var r := metadata["redaction_receipt"].fields;
      if r.Keys != ReceiptKeys then Some("redaction_receipt_incomplete")
      else if !EqualsOne(r["schema_version"]) then Some("redaction_receipt_version")
      else if r["structural_fields_preserved"] != Bool(true) then Some("structural_fields_not_preserved")
      else
        var badLabel := FirstFailing(r, LabelKeys, s => Visible(s));
        var badDigest := FirstFailing(r, DigestKeys, s => IsDigest(s));
        if badLabel.Some? then badLabel
        else if badDigest.Some? then badDigest
        else if !r["findings"].Arr? then Some("redaction_findings_invalid")
        else if FirstBadFinding(r["findings"].items).Some? then FirstBadFinding(r["findings"].items)
        else if !(r["completed_at"].Str? && IsTimestamp(r["completed_at"].text)) then Some("invalid_completed_at")
        else None
  }

  // ---------- When it passes ----------

  lemma {:induction false} GoodFindings(fs: seq<Finding>)
    requires forall f :: f in fs ==> f.category in FindingCategories && f.action in FindingActions && f.count > 0
    ensures FirstBadFinding(FindingsJson(fs)) == None
  {
    if fs != [] {
      assert FindingsJson(fs)[1..] == FindingsJson(fs[1..]);
      assert fs[0] in fs && forall f :: f in fs[1..] ==> f in fs;
      GoodFinding(fs[0]);
      GoodFindings(fs[1..]);
    }
  }

  lemma GoodFinding(f: Finding)
    requires f.category in FindingCategories && f.action in FindingActions && f.count > 0
    ensures BadFinding(FindingJson(f)) == None
  {
    assert FindingJson(f).fields.Keys == FindingKeys;
  }

  /** What a producer of receipts must see to; the timestamp is not among it. */
  ghost predicate WellMade(r: Receipt) {
    r.schemaVersion == 1 && r.structuralFieldsPreserved &&
    Visible(r.engine) && Visible(r.engineVersion) && Visible(r.rulesetId) &&
    IsDigest(r.rulesetDigest) && IsDigest(r.inputDigest) && IsDigest(r.outputDigest) &&
    forall f :: f in r.findings ==> f.category in FindingCategories && f.action in FindingActions && f.count > 0
  }

  lemma ThreePass(r: map<string, Json>, a: string, b: string, c: string, good: string -> bool)
    requires {a, b, c} <= r.Keys
    requires r[a].Str? && good(r[a].text) && r[b].Str? && good(r[b].text) && r[c].Str? && good(r[c].text)
    ensures forall k :: k in [a, b, c] ==> k in r
    ensures FirstFailing(r, [a, b, c], good) == None
  {
    assert [a, b, c][1..] == [b, c] && [b, c][1..] == [c] && [c][1..] == [];
    assert FirstFailing(r, [c], good) == None;
    assert FirstFailing(r, [b, c], good) == None;
  }

  lemma ReceiptReads(r: Receipt)
    ensures var j := ReceiptJson(r).fields;
            j.Keys == ReceiptKeys && j["schema_version"] == Int(r.schemaVersion) &&
            j["structural_fields_preserved"] == Bool(r.structuralFieldsPreserved) &&
            j["engine"] == Str(r.engine) && j["engine_version"] == Str(r.engineVersion) &&
            j["ruleset_id"] == Str(r.rulesetId) && j["ruleset_digest"] == Str(r.rulesetDigest) &&
            j["input_digest"] == Str(r.inputDigest) && j["output_digest"] == Str(r.outputDigest) &&
            j["findings"] == Arr(FindingsJson(r.findings)) && j["completed_at"] == Str(r.completedAt)
  {
  }

  lemma LabelsPass(r: Receipt, j: map<string, Json>)
    requires WellMade(r) && j == ReceiptJson(r).fields
    ensures (forall k :: k in LabelKeys ==> k in j) && FirstFailing(j, LabelKeys, s => Visible(s)) == None
    ensures (forall k :: k in DigestKeys ==> k in j) && FirstFailing(j, DigestKeys, s => IsDigest(s)) == None
  {
    ReceiptReads(r);
    ThreePass(j, "engine", "engine_version", "ruleset_id", s => Visible(s));
    ThreePass(j, "ruleset_digest", "input_digest", "output_digest", s => IsDigest(s));
  }

  /** A well-made receipt passes the gateway exactly when its timestamp does. */
  lemma WellMadePasses(r: Receipt, metadata: map<string, Json>)
    requires WellMade(r) && "redaction_receipt" in metadata && metadata["redaction_receipt"] == ReceiptJson(r)
    ensures RequireReceipt(metadata) == if IsTimestamp(r.completedAt) then None else Some("invalid_completed_at")
  {
    ReceiptReads(r);
    LabelsPass(r, ReceiptJson(r).fields);
    GoodFindings(r.findings);
  }
}
