/** `detect_sensitive`, `redact_catalog` and `redact`, and the proof that redacted text is clean. */
module Redaction {
  import opened Regex
  import opened Splice
  import opened Substitution
  import opened Catalog
  import opened CatalogFacts
  import opened Luhn

  const LOOKBACK: nat := 30

  /** `re.search` finds something. */
  predicate Search(r: Re, t: string) {
    exists q :: 0 <= q <= |t| && Ends(r, t, q) != []
  }

  /** An ID-class label stands directly before `start`, within the look-back. */
  predicate IdPreceded(content: string, start: nat)
    requires start <= |content|
  {
    Search(IdLabel, content[if start <= LOOKBACK then 0 else start - LOOKBACK..start])
  }

  /** The candidate run `t[c.0..c.1]` counts as a card number. */
  predicate IsPan(t: string, c: (nat, nat))
    requires c.0 <= c.1 <= |t|
  {
    Digits(t[c.0..c.1]) && LuhnValid(t[c.0..c.1]) && !IdPreceded(t, c.0)
  }

  function PansOf(t: string, spans: seq<(nat, nat)>): (pans: seq<(nat, nat)>)
    requires forall c :: c in spans ==> c.0 <= c.1 <= |t|
  {
    if spans == [] then []
    else
      assert spans[0] in spans && forall c :: c in spans[1..] ==> c in spans;
      (if IsPan(t, spans[0]) then [spans[0]] else []) + PansOf(t, spans[1..])
  }

  function Pans(t: string): seq<(nat, nat)> {
    SpansAreHits(PanCandidate, t, 0);
    PansOf(t, FindIter(PanCandidate, t, 0))
  }

  // ---------- Detection ----------

  datatype Class = Secret | Phi | Pan

  datatype SensitiveHit = SensitiveHit(cls: Class, patternId: nat, excerpt: string)

  const EXCERPT_MAX: nat := 64

  function Stars(n: nat): string { seq(n, i => '*') }

  /** What a hit shows of its match: four characters at either end of a long secret, nothing of anything else. */
  function Excerpt(cls: Class, raw: string): string {
    var cut := if |raw| <= EXCERPT_MAX then raw else raw[..EXCERPT_MAX];
    match cls
    case Secret => if |cut| > 8 then cut[..4] + Stars(|cut| - 8) + cut[|cut| - 4..] else Stars(|cut|)
    case Phi => "[phi:redacted]"
    case Pan => "[pan:redacted]"
  }

  function HitAt(cls: Class, k: nat, t: string, c: (nat, nat)): SensitiveHit {
    SensitiveHit(cls, k, Excerpt(cls, if c.0 <= c.1 <= |t| then t[c.0..c.1] else ""))
  }

  /** One hit for each span, in order. */
  function HitsOf(cls: Class, k: nat, t: string, spans: seq<(nat, nat)>): seq<SensitiveHit> {
    seq(|spans|, i requires 0 <= i < |spans| => HitAt(cls, k, t, spans[i]))
  }

  /** The hits of patterns `rs[k..]`, in order. */
  function HitsFrom(cls: Class, rs: seq<Re>, k: nat, t: string): seq<SensitiveHit>
    requires k <= |rs|
    decreases |rs| - k
  {
    if k == |rs| then []
    else HitsOf(cls, k, t, FindIter(rs[k], t, 0)) + HitsFrom(cls, rs, k + 1, t)
  }

  function PanHits(t: string): seq<SensitiveHit> { HitsOf(Pan, 0, t, Pans(t)) }

  function DetectWith(secrets: seq<Re>, phi: seq<Re>, t: string): seq<SensitiveHit> {
    HitsFrom(Secret, secrets, 0, t) + HitsFrom(Phi, phi, 0, t) + PanHits(t)
  }

  function DetectSensitive(t: string): seq<SensitiveHit> { DetectWith(SecretPatterns, PhiPatterns, t) }

  /** No excerpt shows more of its match than this. */
  ghost predicate Discreet(h: SensitiveHit) {
    match h.cls
    case Secret =>
      |h.excerpt| <= EXCERPT_MAX &&
      forall p :: 0 <= p < |h.excerpt| && (|h.excerpt| <= 8 || 4 <= p < |h.excerpt| - 4) ==> h.excerpt[p] == '*'
    case Phi => h.excerpt == "[phi:redacted]"
    case Pan => h.excerpt == "[pan:redacted]"
  }

  lemma ExcerptIsDiscreet(cls: Class, k: nat, t: string, c: (nat, nat))
    ensures Discreet(HitAt(cls, k, t, c))
  {
  }

  lemma SpansAreDiscreet(cls: Class, k: nat, t: string, spans: seq<(nat, nat)>)
    ensures forall h :: h in HitsOf(cls, k, t, spans) ==> Discreet(h)
  {
    forall i | 0 <= i < |spans| ensures Discreet(HitsOf(cls, k, t, spans)[i]) {
      ExcerptIsDiscreet(cls, k, t, spans[i]);
    }
  }

  lemma {:induction false} PatternsAreDiscreet(cls: Class, rs: seq<Re>, k: nat, t: string)
    requires k <= |rs|
    ensures forall h :: h in HitsFrom(cls, rs, k, t) ==> Discreet(h)
    decreases |rs| - k
  {
    if k < |rs| {
      SpansAreDiscreet(cls, k, t, FindIter(rs[k], t, 0));
      PatternsAreDiscreet(cls, rs, k + 1, t);
    }
  }

  /** A hit never shows a card number or a medical value, and of a secret at most four characters at either end. */
  lemma HitsAreDiscreet(t: string)
    ensures forall h :: h in DetectSensitive(t) ==> Discreet(h)
  {
    PatternsAreDiscreet(Secret, SecretPatterns, 0, t);
    PatternsAreDiscreet(Phi, PhiPatterns, 0, t);
    SpansAreDiscreet(Pan, 0, t, Pans(t));
  }

  // ---------- Redaction ----------

  function SubAll(rs: seq<Re>, s: string, t: string): string
    decreases rs
  {
    if rs == [] then t else SubAll(rs[1..], s, Sub(rs[0], s, t))
  }

  function RedactPan(t: string): string {
    PansOrdered(t);
    Spliced(t, 0, Pans(t), PanMark)
  }

  function RedactCatalog(t: string): string {
    RedactPan(SubAll(RedactPhiPatterns, PhiMark, SubAll(SecretPatterns, SecretMark, t)))
  }

  lemma {:induction false} PansOfMembers(t: string, spans: seq<(nat, nat)>)
    requires forall c :: c in spans ==> c.0 <= c.1 <= |t|
    ensures forall c :: c in PansOf(t, spans) <==> c in spans && IsPan(t, c)
    decreases spans
  {
    if spans != [] {
      assert spans[0] in spans && forall c :: c in spans[1..] ==> c in spans;
      assert forall c :: c in spans ==> c == spans[0] || c in spans[1..];
      PansOfMembers(t, spans[1..]);
    }
  }

  lemma {:induction false} PansOfOrdered(t: string, spans: seq<(nat, nat)>, i: nat)
    requires Ordered(spans, i, |t|) && forall c :: c in spans ==> c.0 <= c.1 <= |t|
    ensures Ordered(PansOf(t, spans), i, |t|)
    decreases spans
  {
    if spans != [] {
      assert spans[0] in spans && forall c :: c in spans[1..] ==> c in spans;
      var rest := PansOf(t, spans[1..]);
      PansOfOrdered(t, spans[1..], spans[0].1);
      OrderedFromEarlier(rest, spans[0].1, i, |t|);
      assert PansOf(t, spans) == (if IsPan(t, spans[0]) then [spans[0]] else []) + rest;
      if IsPan(t, spans[0]) { assert PansOf(t, spans)[1..] == rest; } else { assert PansOf(t, spans) == rest; }
    }
  }

  lemma PansOrdered(t: string)
    ensures Ordered(Pans(t), 0, |t|)
    ensures forall c :: c in Pans(t) <==> c in FindIter(PanCandidate, t, 0) && c.0 <= c.1 <= |t| && IsPan(t, c)
  {
    SpansAreHits(PanCandidate, t, 0);
    PansOfMembers(t, FindIter(PanCandidate, t, 0));
    PansOfOrdered(t, FindIter(PanCandidate, t, 0), 0);
  }

  // ---------- Email and phone passes ----------

  /** The first of `from` from which `r` matches: where the engine enters `r`. */
  function FirstWith(r: Re, t: string, from: seq<nat>): (k: nat)
    requires forall k :: k in from ==> k <= |t|
    ensures from != [] ==> k in from
  {
    if from == [] then 0
    else
      assert from[0] in from && forall m :: m in from[1..] ==> m in from;
      if Ends(r, t, from[0]) != [] || |from| == 1 then from[0] else FirstWith(r, t, from[1..])
  }

  lemma {:induction false} FirstWithIsEntered(r: Re, t: string, i: nat, from: seq<nat>)
    requires forall k :: k in from ==> i <= k <= |t|
    requires EndsFrom(r, t, i, from) != []
    ensures from != [] && i <= FirstWith(r, t, from) <= |t|
    ensures Ends(r, t, FirstWith(r, t, from)) != []
    ensures EndsFrom(r, t, i, from)[0] == Ends(r, t, FirstWith(r, t, from))[0]
    decreases from
  {
    assert from[0] in from && forall m :: m in from[1..] ==> m in from;
    if Ends(r, t, from[0]) == [] {
      assert EndsFrom(r, t, i, from) == EndsFrom(r, t, i, from[1..]);
      FirstWithIsEntered(r, t, i, from[1..]);
    }
  }

  /** The end of group 1 of the phone-in-context match at `i`. */
  function LeadEnd(t: string, i: nat): (k: nat)
    requires i <= |t| && Hit(PhoneInContext, t, i)
    ensures i <= k <= EndAt(PhoneInContext, t, i)
  {
    assert Ends(PhoneInContext, t, i) == EndsFrom(PhoneRun, t, i, Ends(PhoneLead, t, i));
    FirstWithIsEntered(PhoneRun, t, i, Ends(PhoneLead, t, i));
    var k := FirstWith(PhoneRun, t, Ends(PhoneLead, t, i));
    assert Ends(PhoneRun, t, k)[0] in Ends(PhoneRun, t, k);
    k
  }

  /** The replacement keeps group 1 and replaces the number only. */
  function NumbersOf(t: string, spans: seq<(nat, nat)>): seq<(nat, nat)>
    requires forall c :: c in spans ==>
               c.0 <= |t| && Hit(PhoneInContext, t, c.0) && EndAt(PhoneInContext, t, c.0) == c.1
  {
    if spans == [] then []
    else
      assert spans[0] in spans && forall c :: c in spans[1..] ==> c in spans;
      [(LeadEnd(t, spans[0].0), spans[0].1)] + NumbersOf(t, spans[1..])
  }

  lemma {:induction false} NumbersOrdered(t: string, spans: seq<(nat, nat)>, i: nat)
    requires Ordered(spans, i, |t|)
    requires forall c :: c in spans ==>
               c.0 <= |t| && Hit(PhoneInContext, t, c.0) && EndAt(PhoneInContext, t, c.0) == c.1
    ensures Ordered(NumbersOf(t, spans), i, |t|)
    decreases spans
  {
    if spans != [] {
      assert spans[0] in spans && forall c :: c in spans[1..] ==> c in spans;
      var rest := NumbersOf(t, spans[1..]);
      NumbersOrdered(t, spans[1..], spans[0].1);
      assert NumbersOf(t, spans)[1..] == rest;
    }
  }

  function Numbers(t: string): (cuts: seq<(nat, nat)>)
    ensures Ordered(cuts, 0, |t|)
  {
    SpansAreHits(PhoneInContext, t, 0);
    NumbersOrdered(t, FindIter(PhoneInContext, t, 0), 0);
    NumbersOf(t, FindIter(PhoneInContext, t, 0))
  }

  function RedactPhoneInContext(t: string): string {
    Spliced(t, 0, Numbers(t), PhoneMark)
  }

  // ---------- redact_with_findings ----------

  datatype Category = Credential | Pii | SecretValue

  function CountOf(hits: seq<SensitiveHit>, cls: Class): nat {
    if hits == [] then 0 else (if hits[0].cls == cls then 1 else 0) + CountOf(hits[1..], cls)
  }

  function Positive(m: map<Category, nat>): map<Category, nat> {
    map c | c in m && m[c] > 0 :: m[c]
  }

  /** The counts by category, those above zero only. */
  function Report(credentials: nat, personal: nat, secrets: nat): map<Category, nat> {
    Positive(map[Credential := credentials, Pii := personal, SecretValue := secrets])
  }

  /** The text in which addresses are replaced, then numbers, then numbers behind a keyword. */
  function WithoutEmail(text: string): string { Sub(Email, EmailMark, RedactCatalog(text)) }

  function WithoutPhone(text: string): string { Sub(Phone, PhoneMark, WithoutEmail(text)) }

  /** The text the final pass sees. */
  function BeforeFinalPass(text: string): string { RedactPhoneInContext(WithoutPhone(text)) }

  /** How many addresses, numbers and numbers behind a keyword are replaced, and how many medical values there were. */
  function PersonalCount(text: string): nat {
    |FindIter(Email, RedactCatalog(text), 0)| + |FindIter(Phone, WithoutEmail(text), 0)| +
    |FindIter(PhoneInContext, WithoutPhone(text), 0)| + CountOf(DetectSensitive(text), Phi)
  }

  function RedactWithFindings(text: string): (string, map<Category, nat>) {
    var hits := DetectSensitive(text);
    (RedactCatalog(BeforeFinalPass(text)),
     Report(CountOf(hits, Pan), PersonalCount(text), CountOf(hits, Secret)))
  }

  function Redact(text: string): string {
    RedactWithFindings(text).0
  }
}
