/** Digests, timestamps and receipts written out: exactly what the gateway's check of a receipt lets through. */
module ReceiptShapes {
  import opened Lru
  import opened JsonValue
  import opened Regex
  import opened Catalog
  import opened RegexShapes
  import opened PatternShapes
  import opened Receipts
  import opened Strings

  predicate HexChar(c: char) { '0' <= c <= '9' || 'a' <= c <= 'f' }

  /** `sha256:` and 64 small hexadecimal digits. */
  ghost predicate SpellsDigest(s: string) {
    |s| == 71 && s[..7] == "sha256:" && All(HexChar, s, 7, 71)
  }

  lemma FullMatchExactly(r: Re, s: string, n: nat)
    requires |s| == n
    ensures FullMatch(r, s) <==> Matches(r, s, 0, n)
  {
    EndsAreMatches(r, s, 0, n);
  }

  lemma DigestExactly(s: string)
    ensures IsDigest(s) <==> SpellsDigest(s)
  {
    var n := |s|;
    FullMatchExactly(DigestShape, s, n);
    TextFirst("sha256:", Times(Hex, 64), s, 0, n);
    if 7 <= n {
      LastRun(Hex, HexChar, 64, Upto(64), s, 7, n);
      assert s[0..7] == s[..7];
    }
  }

  // ---------- Timestamps ----------

  /** Two digits at `p`. */
  predicate Two(s: string, p: int) { 0 <= p && p + 2 <= |s| && Numeral(s[p]) && Numeral(s[p + 1]) }

  /** A time zone up to the end. */
  predicate Zone(s: string, p: int) {
    0 <= p < |s| &&
    ((p + 1 == |s| && s[p] == 'Z') ||
     (p + 6 == |s| && (s[p] == '+' || s[p] == '-') && Two(s, p + 1) && s[p + 3] == ':' && Two(s, p + 4)))
  }

  /** Perhaps a dot and digits, then a time zone. */
  ghost predicate FractionAndZone(s: string, p: int) {
    Zone(s, p) || exists m :: 0 <= p < |s| && s[p] == '.' && p + 2 <= m && All(Numeral, s, p + 1, m) && Zone(s, m)
  }

  /** Year, month, day, hours, minutes and seconds. */
  predicate DateAndClock(s: string) {
    |s| >= 19 && Two(s, 0) && Two(s, 2) && s[4] == '-' && Two(s, 5) && s[7] == '-' && Two(s, 8) && s[10] == 'T' &&
    Two(s, 11) && s[13] == ':' && Two(s, 14) && s[16] == ':' && Two(s, 17)
  }

  ghost predicate SpellsTimestamp(s: string) { DateAndClock(s) && FractionAndZone(s, 19) }

  lemma TwoFirst(b: Re, s: string, i: nat, j: nat)
    requires i <= j <= |s|
    ensures Matches(Cat(Times(Digit, 2), b), s, i, j) <==> i + 2 <= j && Two(s, i) && Matches(b, s, i + 2, j)
  {
    TimesFirst(Digit, 2, b, s, i, j);
    if i + 2 <= j { AllExactly(Digit, Numeral, s, i, i + 2); }
  }

  lemma FourFirst(b: Re, s: string, i: nat, j: nat)
    requires i <= j <= |s|
    ensures Matches(Cat(Times(Digit, 4), b), s, i, j) <==>
            i + 4 <= j && Two(s, i) && Two(s, i + 2) && Matches(b, s, i + 4, j)
  {
    TimesFirst(Digit, 4, b, s, i, j);
    if i + 4 <= j { AllExactly(Digit, Numeral, s, i, i + 4); }
  }

  lemma CharacterFirst(w: Literal, b: Re, s: string, i: nat, j: nat)
    requires i <= j <= |s| && |w| == 1
    ensures Matches(Cat(Text(w), b), s, i, j) <==> i < j && s[i] == w[0] && Matches(b, s, i + 1, j)
  {
    TextFirst(w, b, s, i, j);
    if i < j { OneChar(w, s, i); }
  }

  /** Two digits, a mark, and the rest. */
  lemma PairFirst2(w: Literal, b: Re, s: string, i: nat, j: nat)
    requires i <= j <= |s| && |w| == 1
    ensures Matches(Pair(Times(Digit, 2), w, b), s, i, j) <==>
            i + 3 <= j && Two(s, i) && s[i + 2] == w[0] && Matches(b, s, i + 3, j)
  {
    TwoFirst(Cat(Text(w), b), s, i, j);
    if i + 2 <= j { CharacterFirst(w, b, s, i + 2, j); }
  }

  lemma YearFirst(b: Re, s: string, i: nat, j: nat)
    requires i <= j <= |s|
    ensures Matches(Pair(Times(Digit, 4), "-", b), s, i, j) <==>
            i + 5 <= j && Two(s, i) && Two(s, i + 2) && s[i + 4] == '-' && Matches(b, s, i + 5, j)
  {
    FourFirst(Cat(Text("-"), b), s, i, j);
    if i + 4 <= j { CharacterFirst("-", b, s, i + 4, j); }
  }

  lemma LastTwo(s: string, i: nat, j: nat)
    requires i <= j <= |s|
    ensures Matches(Times(Digit, 2), s, i, j) <==> j == i + 2 && Two(s, i)
  {
    LastRun(Digit, Numeral, 2, Upto(2), s, i, j);
  }

  lemma SignedZone(sign: Cls, s: string, p: nat)
    requires p <= |s| && forall c :: In(c, sign) <==> c == '+' || c == '-'
    ensures Matches(Cat(One(sign), Pair(Times(Digit, 2), ":", Times(Digit, 2))), s, p, |s|) <==>
            p + 6 == |s| && (s[p] == '+' || s[p] == '-') && Two(s, p + 1) && s[p + 3] == ':' && Two(s, p + 4)
  {
    CharFirst(sign, Pair(Times(Digit, 2), ":", Times(Digit, 2)), s, p, |s|);
    if p + 1 <= |s| { PairFirst2(":", Times(Digit, 2), s, p + 1, |s|); }
    if p + 4 <= |s| { LastTwo(s, p + 4, |s|); }
  }

  lemma ZoneExactly(s: string, p: nat)
    requires p <= |s|
    ensures Matches(Offset, s, p, |s|) <==> Zone(s, p)
  {
    SignedZone(Cls(false, false, false, false, {'+', '-'}), s, p);
    assert s[p..|s|] == s[p..];
    if p < |s| { assert s[p..][0] == s[p]; }
    assert Matches(Text("Z"), s, p, |s|) <==> p + 1 == |s| && s[p] == 'Z';
  }

  lemma DotAndDigits(s: string, p: nat, m: nat)
    requires p <= m <= |s|
    ensures Matches(Cat(Text("."), AtLeast(Digit, 1)), s, p, m) <==>
            p + 2 <= m && s[p] == '.' && All(Numeral, s, p + 1, m)
  {
    CharacterFirst(".", AtLeast(Digit, 1), s, p, m);
    if p + 1 <= m { LastRun(Digit, Numeral, 1, Unbounded, s, p + 1, m); }
  }

  lemma FractionThen(zone: Re, s: string, p: nat)
    requires p <= |s| && forall m :: 0 <= m <= |s| ==> (Matches(zone, s, m, |s|) <==> Zone(s, m))
    ensures Matches(Cat(Fraction, zone), s, p, |s|) <==> FractionAndZone(s, p)
  {
    var dot := Cat(Text("."), AtLeast(Digit, 1));
    OptionalFirst(dot, zone, s, p, |s|);
    forall m | p <= m <= |s|
      ensures Matches(dot, s, p, m) <==> p + 2 <= m && s[p] == '.' && All(Numeral, s, p + 1, m)
    {
      DotAndDigits(s, p, m);
    }
    if m :| 0 <= p < |s| && s[p] == '.' && p + 2 <= m && All(Numeral, s, p + 1, m) && Zone(s, m) {
      assert Matches(dot, s, p, m) && Matches(zone, s, m, |s|);
    }
  }

  lemma ClockThen(rest: Re, s: string, i: nat, j: nat)
    requires i <= j <= |s|
    ensures Matches(Pair(Times(Digit, 2), ":", Pair(Times(Digit, 2), ":", Cat(Times(Digit, 2), rest))), s, i, j) <==>
            i + 8 <= j && Two(s, i) && s[i + 2] == ':' && Two(s, i + 3) && s[i + 5] == ':' && Two(s, i + 6) &&
            Matches(rest, s, i + 8, j)
  {
    PairFirst2(":", Pair(Times(Digit, 2), ":", Cat(Times(Digit, 2), rest)), s, i, j);
    if i + 3 <= j { PairFirst2(":", Cat(Times(Digit, 2), rest), s, i + 3, j); }
    if i + 6 <= j { TwoFirst(rest, s, i + 6, j); }
  }

  lemma DateThen(rest: Re, s: string, i: nat, j: nat)
    requires i <= j <= |s|
    ensures Matches(Pair(Times(Digit, 4), "-", Pair(Times(Digit, 2), "-", Pair(Times(Digit, 2), "T", rest))),
                    s, i, j) <==>
            i + 11 <= j && Two(s, i) && Two(s, i + 2) && s[i + 4] == '-' && Two(s, i + 5) && s[i + 7] == '-' &&
            Two(s, i + 8) && s[i + 10] == 'T' && Matches(rest, s, i + 11, j)
  {
    YearFirst(Pair(Times(Digit, 2), "-", Pair(Times(Digit, 2), "T", rest)), s, i, j);
    if i + 5 <= j { PairFirst2("-", Pair(Times(Digit, 2), "T", rest), s, i + 5, j); }
    if i + 8 <= j { PairFirst2("T", rest, s, i + 8, j); }
  }

  lemma ClockAndRest(rest: Re, s: string, n: nat)
    requires |s| == n && (19 <= n ==> (Matches(rest, s, 19, n) <==> FractionAndZone(s, 19)))
    ensures Matches(Pair(Times(Digit, 4), "-", Pair(Times(Digit, 2), "-", Pair(Times(Digit, 2), "T",
              Pair(Times(Digit, 2), ":", Pair(Times(Digit, 2), ":", Cat(Times(Digit, 2), rest)))))), s, 0, n) <==>
            SpellsTimestamp(s)
  {
    DateThen(Pair(Times(Digit, 2), ":", Pair(Times(Digit, 2), ":", Cat(Times(Digit, 2), rest))), s, 0, n);
    if 11 <= n { ClockThen(rest, s, 11, n); }
  }

  lemma ZoneAtEnd(s: string, n: nat)
    requires |s| == n && 19 <= n
    ensures Matches(Cat(Fraction, Offset), s, 19, n) <==> FractionAndZone(s, 19)
  {
    forall m | 0 <= m <= n ensures Matches(Offset, s, m, n) <==> Zone(s, m) { ZoneExactly(s, m); }
    FractionThen(Offset, s, 19);
  }

  lemma TimestampExactly(s: string)
    ensures IsTimestamp(s) <==> SpellsTimestamp(s)
  {
    var n := |s|;
    FullMatchExactly(DateTime, s, n);
    if 19 <= n { ZoneAtEnd(s, n); }
    ClockAndRest(Cat(Fraction, Offset), s, n);
  }

  // ---------- Receipts ----------

  /** Some character is no white space. */
  predicate NotBlank(s: string) {
    exists i :: 0 <= i < |s| && !PatternShapes.Blank(s[i])
  }

  predicate TextField(r: map<string, Json>, key: string) { key in r && r[key].Str? }

  ghost predicate NamedIn(r: map<string, Json>, key: string) { TextField(r, key) && NotBlank(r[key].text) }

  ghost predicate DigestIn(r: map<string, Json>, key: string) { TextField(r, key) && SpellsDigest(r[key].text) }

  /** A category, what was done, and a count above zero. */
  predicate SoundFinding(f: Json) {
    f.Obj? && f.fields.Keys == {"category", "action", "count"} &&
    f.fields["category"] in {Str("credential"), Str("pii"), Str("secret")} &&
    f.fields["action"] in {Str("removed"), Str("tokenized")} && f.fields["count"].Int? && f.fields["count"].whole > 0
  }

  /** What a receipt has to say: just these ten things. */
  ghost predicate SoundReceipt(r: map<string, Json>) {
    r.Keys == {"schema_version", "engine", "engine_version", "ruleset_id", "ruleset_digest", "input_digest",
               "output_digest", "findings", "structural_fields_preserved", "completed_at"} &&
    r["schema_version"] in {Int(1), Float(1.0), Bool(true)} && r["structural_fields_preserved"] == Bool(true) &&
    NamedIn(r, "engine") && NamedIn(r, "engine_version") && NamedIn(r, "ruleset_id") &&
    DigestIn(r, "ruleset_digest") && DigestIn(r, "input_digest") && DigestIn(r, "output_digest") &&
    r["findings"].Arr? && (forall f :: f in r["findings"].items ==> SoundFinding(f)) &&
    TextField(r, "completed_at") && SpellsTimestamp(r["completed_at"].text)
  }

  lemma FindingExactly(f: Json)
    ensures BadFinding(f) == None <==> SoundFinding(f)
  {
  }

  lemma {:induction false} FindingsExactly(fs: seq<Json>)
    ensures FirstBadFinding(fs) == None <==> forall f :: f in fs ==> SoundFinding(f)
  {
    if fs != [] {
      FindingExactly(fs[0]);
      FindingsExactly(fs[1..]);
      assert forall f :: f in fs <==> f == fs[0] || f in fs[1..];
    }
  }

  lemma ThreeExactly(r: map<string, Json>, a: string, b: string, c: string, good: string -> bool)
    requires {a, b, c} <= r.Keys
    ensures forall k :: k in [a, b, c] ==> k in r
    ensures FirstFailing(r, [a, b, c], good) == None <==>
            r[a].Str? && good(r[a].text) && r[b].Str? && good(r[b].text) && r[c].Str? && good(r[c].text)
  {
    assert [a, b, c][1..] == [b, c] && [b, c][1..] == [c] && [c][1..] == [];
    assert FirstFailing(r, [c], good) == None <==> r[c].Str? && good(r[c].text);
    assert FirstFailing(r, [b, c], good) == None <==> r[b].Str? && good(r[b].text) && r[c].Str? && good(r[c].text);
  }

  lemma VisibleExactly(s: string)
    ensures Visible(s) <==> NotBlank(s)
  {
  }

  lemma LabelsExactly(r: map<string, Json>)
    requires r.Keys == ReceiptKeys
    ensures forall k :: k in LabelKeys ==> k in r
    ensures FirstFailing(r, LabelKeys, s => Visible(s)) == None <==>
            NamedIn(r, "engine") && NamedIn(r, "engine_version") && NamedIn(r, "ruleset_id")
  {
    ThreeExactly(r, "engine", "engine_version", "ruleset_id", s => Visible(s));
    forall s ensures Visible(s) <==> NotBlank(s) { VisibleExactly(s); }
  }

  lemma DigestsExactly(r: map<string, Json>)
    requires r.Keys == ReceiptKeys
    ensures forall k :: k in DigestKeys ==> k in r
    ensures FirstFailing(r, DigestKeys, s => IsDigest(s)) == None <==>
            DigestIn(r, "ruleset_digest") && DigestIn(r, "input_digest") && DigestIn(r, "output_digest")
  {
    ThreeExactly(r, "ruleset_digest", "input_digest", "output_digest", s => IsDigest(s));
    forall s ensures IsDigest(s) <==> SpellsDigest(s) { DigestExactly(s); }
  }

  /** The gateway lets through exactly the metadata with a sound receipt. */
  lemma RequiredExactly(metadata: map<string, Json>)
    ensures RequireReceipt(metadata) == None <==>
            "redaction_receipt" in metadata && metadata["redaction_receipt"].Obj? &&
            SoundReceipt(metadata["redaction_receipt"].fields)
  {
    if "redaction_receipt" in metadata && metadata["redaction_receipt"].Obj? {
      var r := metadata["redaction_receipt"].fields;
      if r.Keys == ReceiptKeys {
        LabelsExactly(r);
        DigestsExactly(r);
        if r["findings"].Arr? { FindingsExactly(r["findings"].items); }
        if r["completed_at"].Str? { TimestampExactly(r["completed_at"].text); }
      }
    }
  }
}
