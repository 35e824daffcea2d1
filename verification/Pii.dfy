/**
 E-mail addresses and phone numbers in redacted text. No number behind a keyword is left. An address or another
 number can be left only directly against a placeholder: the placeholder is the edge that the pattern did not see
 when its turn came.
 */
module Pii {
  import opened Lru
  import opened Regex
  import opened Splice
  import opened SplicePlaces
  import opened Substitution
  import opened Catalog
  import opened CatalogFacts
  import opened Redaction
  import opened RedactionProof
  import opened Cleanliness
  import KeyStep
  import opened PatternShapes
  import opened PiiShapes

  datatype Kind = Address | PhoneNumber

  ghost predicate Spelled(k: Kind, u: string) {
    match k
    case Address => IsAddress(u)
    case PhoneNumber => IsPhone(u)
  }

  /** The character in front of `t[i]`, the character behind `t[..j]`. */
  function CharBefore(t: string, i: nat): Option<char>
    requires i <= |t|
  {
    if i == 0 then None else Some(t[i - 1])
  }

  function CharBehind(t: string, j: nat): Option<char>
    requires j <= |t|
  {
    if j == |t| then None else Some(t[j])
  }

  /** A piece that begins, or ends, with `c` may stand against `next`: a word must begin or end there, a number
      must not go on. */
  predicate Apart(k: Kind, c: char, next: Option<char>) {
    match k
    case Address => AlnumScore(c) != (next.Some? && AlnumScore(next.value))
    case PhoneNumber => next.None? || !Numeral(next.value)
  }

  /** An address or a number stands at `t[i..j]`. */
  ghost predicate StandsAt(k: Kind, t: string, i: nat, j: nat) {
    i < j <= |t| && Spelled(k, t[i..j]) && Apart(k, t[i], CharBefore(t, i)) && Apart(k, t[j - 1], CharBehind(t, j))
  }

  ghost predicate NoneIn(k: Kind, t: string) {
    forall i, j :: 0 <= i < j <= |t| ==> !StandsAt(k, t, i, j)
  }

  // ---------- What addresses and numbers are made of ----------

  lemma AddressFacts(u: string)
    requires IsAddress(u)
    ensures |u| > 1 && LetterChar(u[|u| - 1]) && '@' in u && '.' in u
  {
    var a, d :| 1 <= a <= 64 && All(LocalChar, u, 0, a) && a < |u| && u[a] == '@' && Labels(u, a + 1, d) &&
                2 <= |u| - d <= 63 && All(LetterChar, u, d, |u|);
    var at :| LabelsAt(u, a + 1, d, at);
    assert DottedLabel(u, at[0], at[1]) && u[at[1] - 1] == '.';
  }

  lemma BracketFree(r: Re, u: string, n: nat)
    requires |u| == n && Avoids(r, Brackets) && Matches(r, u, 0, n)
    ensures NoBrackets(u)
  {
    AvoidsSound(r, Brackets, u, 0, n);
  }

  lemma AddressHasNoBrackets(u: string)
    requires IsAddress(u)
    ensures NoBrackets(u)
  {
    SameBody(u, |u|);
    EmailBodyAvoids();
    BracketFree(EmailBody, u, |u|);
  }

  lemma EmailBodyAvoids()
    ensures Avoids(EmailBody, Brackets)
  {
  }

  lemma NumberEnds(u: string)
    requires IsPhone(u)
    ensures |u| > 0 && Numeral(u[|u| - 1])
  {
    if NanpNumber(u, 0, |u|) {
      var a :| National(u, a, |u|);
    }
  }

  lemma NumberStarts(u: string)
    requires IsPhone(u) && |u| > 0
    ensures Numeral(u[0]) || u[0] == '(' || u[0] == '+'
  {
    if National(u, 0, |u|) {
      var b :| Area(u, 0, b);
    } else if NanpNumber(u, 0, |u|) {
      var a :| Country(u, 0, a);
    } else {
      var p, q, r, s :|
        ((p == 0 + 1 && 0 <= 0 < |u| && u[0] == '+') || (p == 0 + 2 && At(u, 0, "00"))) && Gap(u, p, q) &&
        1 <= r - q <= 3 && All(Numeral, u, q, r) && Gap(u, r, s) && Grouped(u, s, |u|, 5, 12);
      if At(u, 0, "00") { assert u[0] == u[0..2][0]; }
    }
  }

  lemma NumberHasNoBrackets(u: string)
    requires IsPhone(u)
    ensures NoBrackets(u)
  {
    PhoneBodyExactly(u, |u|);
    PhoneBodyAvoids();
    BracketFree(PhoneBody, u, |u|);
  }

  lemma PhoneBodyAvoids()
    ensures Avoids(PhoneBody, Brackets)
  {
    assert Avoids(Nanp, Brackets) && Avoids(International, Brackets);
  }

  /** No placeholder has an at sign or a digit. */
  predicate Foreign(s: string) {
    '@' !in s && forall c :: c in s ==> !Numeral(c)
  }

  lemma SpelledFacts(k: Kind, u: string, s: string)
    requires Spelled(k, u) && Foreign(s)
    ensures |u| > 0 && NoBrackets(u) && Leaves(u, s)
    ensures if k == Address then AlnumScore(u[|u| - 1]) else Numeral(u[|u| - 1])
  {
    match k
    case Address =>
      AddressFacts(u);
      AddressHasNoBrackets(u);
      var p :| 0 <= p < |u| && u[p] == '@';
    case PhoneNumber =>
      NumberEnds(u);
      NumberHasNoBrackets(u);
      assert u[|u| - 1] !in s;
  }

  // ---------- One replacement ----------

  /** What an untouched piece has in front of it, and behind it, after the replacement. */
  ghost function NewBefore(t: string, cuts: seq<(nat, nat)>, p: nat): Option<char>
    requires p <= |t|
  {
    if CutEnd(cuts, p) then Some(']') else CharBefore(t, p)
  }

  ghost function NewBehind(t: string, cuts: seq<(nat, nat)>, q: nat): Option<char>
    requires q <= |t|
  {
    if CutStart(cuts, q) then Some('[') else CharBehind(t, q)
  }

  /** The replacement leaves `t[p..q]` alone, and with the placeholders around it an address or a number
      stands there. */
  ghost predicate Exposed(k: Kind, t: string, cuts: seq<(nat, nat)>, p: nat, q: nat) {
    p < q <= |t| && Spelled(k, t[p..q]) && Untouched(cuts, p, q) &&
    Apart(k, t[p], NewBefore(t, cuts, p)) && Apart(k, t[q - 1], NewBehind(t, cuts, q))
  }

  ghost predicate NoneExposed(k: Kind, t: string, cuts: seq<(nat, nat)>) {
    forall p, q :: 0 <= p < q <= |t| ==> !Exposed(k, t, cuts, p, q)
  }

  ghost predicate Replaceable(t: string, cuts: seq<(nat, nat)>, s: string) {
    Ordered(cuts, 0, |t|) && NonEmpty(cuts) && Bracketed(s) && Foreign(s)
  }

  lemma SameNeighbours(k: Kind, t: string, cuts: seq<(nat, nat)>, out: string, p: nat, q: nat, a: nat, b: nat)
    requires Placed(t, 0, cuts, out, p, q, a, b)
    ensures StandsAt(k, out, a, b) <==> Exposed(k, t, cuts, p, q)
  {
    assert CharBefore(out, a) == NewBefore(t, cuts, p) && CharBehind(out, b) == NewBehind(t, cuts, q);
    assert out[a] == out[a..b][0] == t[p..q][0] == t[p];
    var last := b - a - 1;
    assert b - a == |out[a..b]| == |t[p..q]| == q - p;
    assert out[b - 1] == out[a..b][last] == t[p..q][last] == t[q - 1];
  }

  lemma Origin(k: Kind, t: string, cuts: seq<(nat, nat)>, s: string, a: nat, b: nat) returns (p: nat, q: nat)
    requires Replaceable(t, cuts, s) && StandsAt(k, Spliced(t, 0, cuts, s), a, b)
    ensures Placed(t, 0, cuts, Spliced(t, 0, cuts, s), p, q, a, b) && Exposed(k, t, cuts, p, q)
  {
    var out := Spliced(t, 0, cuts, s);
    SpelledFacts(k, out[a..b], s);
    p, q := OriginPlace(t, 0, cuts, s, a, b);
    SameNeighbours(k, t, cuts, out, p, q, a, b);
  }

  /** Just the exposed addresses and numbers stand in the text after a replacement. */
  lemma ReplacementExactly(k: Kind, t: string, cuts: seq<(nat, nat)>, s: string)
    requires Replaceable(t, cuts, s)
    ensures NoneIn(k, Spliced(t, 0, cuts, s)) <==> NoneExposed(k, t, cuts)
  {
    var out := Spliced(t, 0, cuts, s);
    if a, b :| 0 <= a < b <= |out| && StandsAt(k, out, a, b) { var p, q := Origin(k, t, cuts, s, a, b); }
    if p, q :| 0 <= p < q <= |t| && Exposed(k, t, cuts, p, q) {
      var a, b := KeepPlace(t, 0, cuts, s, p, q);
      SameNeighbours(k, t, cuts, out, p, q, a, b);
    }
  }

  // ---------- What is left stands against a placeholder ----------

  predicate Against(t: string, i: nat, j: nat) {
    (0 < i <= |t| && t[i - 1] == ']') || (j < |t| && t[j] == '[')
  }

  ghost predicate OnlyAgainst(k: Kind, t: string) {
    forall i, j :: 0 <= i < j <= |t| && StandsAt(k, t, i, j) ==> Against(t, i, j)
  }

  lemma ReplacementKeepsAgainst(k: Kind, t: string, cuts: seq<(nat, nat)>, s: string)
    requires Replaceable(t, cuts, s) && OnlyAgainst(k, t)
    ensures OnlyAgainst(k, Spliced(t, 0, cuts, s))
  {
    var out := Spliced(t, 0, cuts, s);
    forall a, b | 0 <= a < b <= |out| && StandsAt(k, out, a, b) ensures Against(out, a, b) {
      var p, q := Origin(k, t, cuts, s, a, b);
      if !CutEnd(cuts, p) && !CutStart(cuts, q) { assert StandsAt(k, t, p, q); }
    }
  }

  lemma SpansAreReplaceable(r: Re, t: string, s: string)
    requires Bracketed(s) && Foreign(s)
    ensures Replaceable(t, FindIter(r, t, 0), s)
  {
    SpansAreHits(r, t, 0);
  }

  lemma {:induction false} ListKeepsAgainst(k: Kind, rs: seq<Re>, s: string, t: string)
    requires Bracketed(s) && Foreign(s) && OnlyAgainst(k, t)
    ensures OnlyAgainst(k, SubAll(rs, s, t))
    decreases rs
  {
    if rs != [] {
      SpansAreReplaceable(rs[0], t, s);
      ReplacementKeepsAgainst(k, t, FindIter(rs[0], t, 0), s);
      ListKeepsAgainst(k, rs[1..], s, Sub(rs[0], s, t));
    }
  }

  // ---------- Replacing all that stands in the text ----------

  /** `r` finds just the pieces of kind `k`. */
  ghost predicate Finds(r: Re, k: Kind, t: string) {
    forall i, j :: 0 <= i <= j <= |t| ==> (Matches(r, t, i, j) <==> StandsAt(k, t, i, j))
  }

  lemma EmailFinds(t: string)
    ensures Finds(Email, Address, t)
  {
    forall i, j | 0 <= i <= j <= |t| ensures Matches(Email, t, i, j) <==> StandsAt(Address, t, i, j) {
      EmailExactly(t, i, j);
      AddressEdges(t, i, j);
    }
  }

  lemma AddressEdges(t: string, i: nat, j: nat)
    requires i <= j <= |t|
    ensures AddressAt(t, i, j) <==> StandsAt(Address, t, i, j)
  {
    if IsAddress(t[i..j]) { AddressFacts(t[i..j]); }
  }

  lemma PhoneFinds(t: string)
    ensures Finds(Phone, PhoneNumber, t)
  {
    forall i, j | 0 <= i <= j <= |t| ensures Matches(Phone, t, i, j) <==> StandsAt(PhoneNumber, t, i, j) {
      PhoneExactly(t, i, j);
      NumberEdges(t, i, j);
    }
  }

  lemma NumberEdges(t: string, i: nat, j: nat)
    requires i <= j <= |t|
    ensures PhoneAt(t, i, j) <==> StandsAt(PhoneNumber, t, i, j)
  {
    if IsPhone(t[i..j]) { NumberEnds(t[i..j]); }
  }

  /** A match that no span touches would have been found. */
  lemma UntouchedIsNoMatch(r: Re, k: Kind, t: string, p: nat, q: nat)
    requires Finds(r, k, t) && p < q <= |t| && Untouched(FindIter(r, t, 0), p, q)
    ensures !StandsAt(k, t, p, q)
  {
    if StandsAt(k, t, p, q) {
      EndsAreMatches(r, t, p, q);
      var e := Ends(r, t, p)[0];
      assert e in Ends(r, t, p);
      EndsAreMatches(r, t, p, e);
      OutsideSpans(r, t, 0, p);
    }
  }

  /** The spans are where addresses or numbers stand. */
  lemma SpansStand(r: Re, k: Kind, t: string)
    requires Finds(r, k, t)
    ensures forall c :: c in FindIter(r, t, 0) ==> StandsAt(k, t, c.0, c.1)
  {
    SpansAreHits(r, t, 0);
    forall c | c in FindIter(r, t, 0) ensures StandsAt(k, t, c.0, c.1) {
      assert Matches(r, t, c.0, c.1);
    }
  }

  lemma LastOf(k: Kind, t: string, i: nat, j: nat)
    requires StandsAt(k, t, i, j)
    ensures if k == Address then AlnumScore(t[j - 1]) else Numeral(t[j - 1])
  {
    SpelledFacts(k, t[i..j], "");
    assert t[i..j][j - i - 1] == t[j - 1];
  }

  lemma SpanOpens(r: Re, k: Kind, t: string, q: nat)
    requires Finds(r, k, t) && CutStart(FindIter(r, t, 0), q)
    ensures q < |t| && Apart(k, t[q], CharBefore(t, q))
  {
    SpansStand(r, k, t);
    var c :| c in FindIter(r, t, 0) && c.0 == q;
    assert StandsAt(k, t, c.0, c.1);
  }

  /** What ends where a replaced address or number begins, ends there anyway. */
  lemma EndsAtSpan(r: Re, k: Kind, t: string, p: nat, q: nat)
    requires Finds(r, k, t) && p < q <= |t| && Spelled(k, t[p..q]) && CutStart(FindIter(r, t, 0), q)
    ensures k == Address && Apart(k, t[q - 1], CharBehind(t, q))
  {
    SpanOpens(r, k, t, q);
    SpelledFacts(k, t[p..q], "");
    assert t[p..q][q - p - 1] == t[q - 1];
  }

  lemma SpanEndingAt(r: Re, k: Kind, t: string, p: nat) returns (i: nat)
    requires Finds(r, k, t) && CutEnd(FindIter(r, t, 0), p)
    ensures StandsAt(k, t, i, p)
  {
    SpansStand(r, k, t);
    var c :| c in FindIter(r, t, 0) && c.1 == p;
    i := c.0;
  }

  lemma SpanCloses(r: Re, k: Kind, t: string, p: nat)
    requires Finds(r, k, t) && CutEnd(FindIter(r, t, 0), p)
    ensures 0 < p <= |t| && Apart(k, t[p - 1], CharBehind(t, p))
    ensures if k == Address then AlnumScore(t[p - 1]) else Numeral(t[p - 1])
  {
    var i := SpanEndingAt(r, k, t, p);
    LastOf(k, t, i, p);
  }

  /** Where a replaced address or number ends, no word goes on, and no digit. */
  lemma StartsAtSpan(r: Re, k: Kind, t: string, p: nat)
    requires Finds(r, k, t) && p < |t| && CutEnd(FindIter(r, t, 0), p)
    ensures if k == Address then !AlnumScore(t[p]) else !Numeral(t[p])
  {
    SpanCloses(r, k, t, p);
  }

  /** Only a number directly behind a replaced one is exposed. */
  lemma ExposedBehind(r: Re, k: Kind, t: string, p: nat, q: nat)
    requires Finds(r, k, t) && Exposed(k, t, FindIter(r, t, 0), p, q)
    ensures k == PhoneNumber && CutEnd(FindIter(r, t, 0), p) && !Numeral(t[p])
    ensures !CutStart(FindIter(r, t, 0), q)
  {
    UntouchedIsNoMatch(r, k, t, p, q);
    if CutStart(FindIter(r, t, 0), q) { EndsAtSpan(r, k, t, p, q); }
    if CutEnd(FindIter(r, t, 0), p) { StartsAtSpan(r, k, t, p); }
  }

  /** No address stands in the text after addresses are replaced. */
  lemma EmailPassLeavesNone(t: string)
    ensures NoneIn(Address, Sub(Email, EmailMark, t))
  {
    EmailFinds(t);
    MarksAreForeign();
    SpansAreReplaceable(Email, t, EmailMark);
    ReplacementExactly(Address, t, FindIter(Email, t, 0), EmailMark);
    forall p, q | 0 <= p < q <= |t| ensures !Exposed(Address, t, FindIter(Email, t, 0), p, q) {
      if Exposed(Address, t, FindIter(Email, t, 0), p, q) { ExposedBehind(Email, Address, t, p, q); }
    }
  }

  lemma MarksAreForeign()
    ensures forall s :: s in {SecretMark, PhiMark, PanMark, EmailMark, PhoneMark} ==> Bracketed(s) && Foreign(s)
  {
  }

  /** A number with a plus sign or a parenthesis in front, directly behind a number that is replaced. */
  ghost predicate Follows(t: string, p: nat, q: nat) {
    CutEnd(FindIter(Phone, t, 0), p) && p < q <= |t| && IsPhone(t[p..q]) && !Numeral(t[p]) &&
    (q == |t| || !Numeral(t[q])) && Untouched(FindIter(Phone, t, 0), p, q)
  }

  /** After numbers are replaced one is left exactly where it followed another one directly. */
  lemma PhonePassExactly(t: string)
    ensures NoneIn(PhoneNumber, Sub(Phone, PhoneMark, t)) <==> forall p, q :: 0 <= p < q <= |t| ==> !Follows(t, p, q)
  {
    var cuts := FindIter(Phone, t, 0);
    PhoneFinds(t);
    MarksAreForeign();
    SpansAreReplaceable(Phone, t, PhoneMark);
    ReplacementExactly(PhoneNumber, t, cuts, PhoneMark);
    forall p, q | 0 <= p < q <= |t| ensures Exposed(PhoneNumber, t, cuts, p, q) <==> Follows(t, p, q) {
      FollowingIsExposed(t, p, q);
    }
  }

  lemma FollowingIsExposed(t: string, p: nat, q: nat)
    requires p < q <= |t| && Finds(Phone, PhoneNumber, t)
    ensures Exposed(PhoneNumber, t, FindIter(Phone, t, 0), p, q) <==> Follows(t, p, q)
  {
    var cuts := FindIter(Phone, t, 0);
    if Exposed(PhoneNumber, t, cuts, p, q) {
      ExposedBehind(Phone, PhoneNumber, t, p, q);
    }
  }

  // ---------- Numbers behind a keyword ----------

  lemma GroupedStarts(u: string, s: int, j: int, lo: nat, hi: nat)
    requires Grouped(u, s, j, lo, hi) && lo > 0
    ensures 0 <= s < j <= |u| && Numeral(u[s])
  {
    GroupedForward(u, s, j, lo, hi);
    var at :| lo < |at| <= hi + 1 && GroupsAt(u, s, j - 1, at);
    assert Group(u, at[0], at[1]);
  }

  /** Two keywords that end in the same place, with a number behind each, are one and the same. */
  lemma OneLead(t: string, i: int, k: int, p: int, l: int)
    requires Lead(t, i, k) && Lead(t, p, l) && i <= p < k < |t| && l < |t| && Numeral(t[k]) && Numeral(t[l])
    ensures k == l
  {
    var w :| Keyword(t, i, w) && 1 <= k - w <= 4 && All(Separator, t, w, k);
    var v :| Keyword(t, p, v) && 1 <= l - v <= 4 && All(Separator, t, v, l);
    KeywordEnding(t, i, w);
    KeywordEnding(t, p, v);
    SameWord(t, i, w, k, p, v, l);
  }

  lemma SameWord(t: string, i: int, w: int, k: int, p: int, v: int, l: int)
    requires Ending(t, i, w) && Ending(t, p, v) && All(Separator, t, w, k) && All(Separator, t, v, l)
    requires i <= p < k < |t| && l < |t| && w < k && v < l && Numeral(t[k]) && Numeral(t[l])
    ensures k == l
  {
    assert LetterAt(t, p) && p < w;
    assert v < w ==> LetterAt(t, v);
    assert w < v ==> LetterAt(t, w);
  }

  /** The span of a match: a keyword and separators up to the number, which is what is replaced. */
  lemma SpanParts(t: string, i: nat)
    requires i <= |t| && Hit(PhoneInContext, t, i)
    ensures ContextNumber(t, i, LeadEnd(t, i), EndAt(PhoneInContext, t, i))
  {
    var lead := Ends(PhoneLead, t, i);
    assert Ends(PhoneInContext, t, i) == EndsFrom(PhoneRun, t, i, lead);
    FirstWithIsEntered(PhoneRun, t, i, lead);
    var k, e := LeadEnd(t, i), EndAt(PhoneInContext, t, i);
    assert k in lead && e == Ends(PhoneRun, t, k)[0] && e in Ends(PhoneRun, t, k);
    EndsAreMatches(PhoneLead, t, i, k);
    EndsAreMatches(PhoneRun, t, k, e);
    LeadExactly(t, i, k);
    GroupedExactly(t, k, e, 6, 13);
  }

  lemma {:induction false} NumbersAreSpans(t: string, spans: seq<(nat, nat)>)
    requires forall c :: c in spans ==>
               c.0 <= |t| && Hit(PhoneInContext, t, c.0) && EndAt(PhoneInContext, t, c.0) == c.1
    ensures forall c :: c in spans ==> (LeadEnd(t, c.0), c.1) in NumbersOf(t, spans)
    ensures NonEmpty(NumbersOf(t, spans))
    decreases spans
  {
    if spans != [] {
      assert spans[0] in spans && forall c :: c in spans[1..] ==> c in spans;
      assert forall c :: c in spans ==> c == spans[0] || c in spans[1..];
      NumbersAreSpans(t, spans[1..]);
      SpanParts(t, spans[0].0);
      GroupedStarts(t, LeadEnd(t, spans[0].0), spans[0].1, 6, 13);
    }
  }

  lemma NumbersAreReplaceable(t: string)
    ensures Replaceable(t, Numbers(t), PhoneMark)
  {
    MarksAreForeign();
    SpansAreHits(PhoneInContext, t, 0);
    NumbersAreSpans(t, FindIter(PhoneInContext, t, 0));
  }

  lemma ContextIsHit(t: string, p: nat, q: nat)
    requires p <= q <= |t| && IsContextNumber(t[p..q])
    ensures Hit(PhoneInContext, t, p) && Matches(PhoneInContext, t, p, q)
  {
    ContextOfPiece(t, p, q);
    EndsAreMatches(PhoneInContext, t, p, q);
    var e := Ends(PhoneInContext, t, p)[0];
    assert e in Ends(PhoneInContext, t, p);
    EndsAreMatches(PhoneInContext, t, p, e);
    ContextExactly(t, p, e);
    var k :| ContextNumber(t, p, k, e);
    LeadForward(t, p, k);
    GroupedForward(t, k, e, 6, 13);
  }

  /** The replacement reaches into every number behind a keyword. */
  lemma ContextIsTouched(t: string, p: nat, q: nat)
    requires p <= q <= |t| && IsContextNumber(t[p..q])
    ensures !Untouched(Numbers(t), p, q)
  {
    var spans := FindIter(PhoneInContext, t, 0);
    ContextIsHit(t, p, q);
    if !Inside(spans, p) { OutsideSpans(PhoneInContext, t, 0, p); }
    var c :| c in spans && c.0 <= p < c.1;
    SpansAreHits(PhoneInContext, t, 0);
    NumbersAreSpans(t, spans);
    var k := LeadEnd(t, c.0);
    SpanParts(t, c.0);
    GroupedStarts(t, k, c.1, 6, 13);
    ContextExactly(t, p, q);
    var l :| ContextNumber(t, p, l, q);
    GroupedStarts(t, l, q, 6, 13);
    LeadForward(t, p, l);
    assert (k, c.1) in Numbers(t);
    if p < k { OneLead(t, c.0, k, p, l); }
  }

  lemma ContextFacts(u: string)
    requires IsContextNumber(u)
    ensures |u| > 0 && NoBrackets(u) && Leaves(u, PhoneMark)
  {
    ContextHasNoBrackets(u);
    MarksAreForeign();
    ContextEndsInDigit(u, PhoneMark);
  }

  lemma ContextEndsInDigit(u: string, s: string)
    requires IsContextNumber(u) && Foreign(s)
    ensures |u| > 0 && Leaves(u, s)
  {
    var k :| ContextNumber(u, 0, k, |u|);
    assert Numeral(u[|u| - 1]);
    assert u[|u| - 1] !in s;
  }

  lemma ContextHasNoBrackets(u: string)
    requires IsContextNumber(u)
    ensures NoBrackets(u)
  {
    ContextOfWhole(u, |u|);
    ContextAvoids();
    BracketFree(ContextPlain, u, |u|);
  }

  lemma ContextAvoids()
    ensures Avoids(ContextPlain, Brackets)
  {
    assert Avoids(PhoneWord, Brackets) && Avoids(PhoneRun, Brackets);
  }

  lemma ContextIsTame()
    ensures Tame(ContextPlain, MarkChars) && Assertions(ContextPlain) == {}
  {
    ContextPlainIsQuiet();
    ContextAvoids();
    NoMarkIsDigit();
    ContextEscapes(MarkChars);
    KeyStep.MarkCharsAreLow();
    QuietIsTame(ContextPlain, MarkChars);
  }

  lemma NoMarkIsDigit()
    ensures forall c :: c in MarkChars ==> !IsDigit(c)
  {
  }

  lemma ContextEscapes(cs: set<char>)
    requires forall c :: c in cs ==> !IsDigit(c)
    ensures Escapes(ContextPlain, cs)
  {
    RunEscapes(cs);
    SecondEscapes(Cat(PhoneWord, Separators), PhoneRun, cs);
  }

  lemma QuietIsTame(r: Re, cs: set<char>)
    requires Avoids(r, Brackets) && Escapes(r, cs) && Assertions(r) == {} && forall c :: c in cs ==> !IsUpper(c)
    ensures Tame(r, cs)
  {
  }

  lemma RunEscapes(cs: set<char>)
    requires forall c :: c in cs ==> !IsDigit(c)
    ensures Escapes(PhoneRun, cs)
  {
  }

  lemma SecondEscapes(a: Re, b: Re, cs: set<char>)
    requires Escapes(b, cs)
    ensures Escapes(Cat(a, b), cs)
  {
  }

  ghost predicate NoContextNumberIn(t: string) {
    forall i, j :: 0 <= i <= j <= |t| ==> !IsContextNumber(t[i..j])
  }

  lemma ContextCleanExactly(t: string)
    ensures NoContextNumberIn(t) <==> Clean(ContextPlain, t)
  {
    forall i, j | 0 <= i <= j <= |t| ensures Matches(ContextPlain, t, i, j) <==> IsContextNumber(t[i..j]) {
      ContextOfPiece(t, i, j);
    }
  }

  lemma ContextPassLeavesNone(t: string)
    ensures NoContextNumberIn(RedactPhoneInContext(t))
  {
    var out := RedactPhoneInContext(t);
    forall a, b | 0 <= a <= b <= |out| ensures !IsContextNumber(out[a..b]) {
      if IsContextNumber(out[a..b]) {
        ContextFacts(out[a..b]);
        NumbersAreReplaceable(t);
        var p, q := OriginPlace(t, 0, Numbers(t), PhoneMark, a, b);
        ContextIsTouched(t, p, q);
      }
    }
  }

  // ---------- The whole redaction ----------

  lemma RedactSteps(x: string)
    ensures BeforeFinalPass(x) == RedactPhoneInContext(WithoutPhone(x))
    ensures Redact(x) == RedactCatalog(BeforeFinalPass(x))
  {
  }

  /** No number behind a keyword is left, in any text. */
  lemma NoContextNumberLeft(x: string)
    ensures NoContextNumberIn(Redact(x))
  {
    var y := BeforeFinalPass(x);
    ContextPassLeavesNone(WithoutPhone(x));
    RedactSteps(x);
    ContextCleanExactly(y);
    CatalogKeepsQuiet(ContextPlain, y);
    ContextCleanExactly(Redact(x));
  }

  lemma CatalogKeepsQuiet(q: Re, y: string)
    requires q == ContextPlain && Clean(q, y)
    ensures Clean(q, RedactCatalog(y))
  {
    ContextIsTame();
    MarksAreMarks();
    LoosePass(SecretPatterns, SecretMark, MarkChars, y, q);
    RestOfPass(y, q);
  }

  lemma CatalogKeepsAgainst(k: Kind, t: string)
    requires OnlyAgainst(k, t)
    ensures OnlyAgainst(k, RedactCatalog(t))
  {
    MarksAreForeign();
    ListKeepsAgainst(k, SecretPatterns, SecretMark, t);
    var t1 := SubAll(SecretPatterns, SecretMark, t);
    ListKeepsAgainst(k, RedactPhiPatterns, PhiMark, t1);
    PansAreReplaceable(SubAll(RedactPhiPatterns, PhiMark, t1));
    ReplacementKeepsAgainst(k, SubAll(RedactPhiPatterns, PhiMark, t1), Pans(SubAll(RedactPhiPatterns, PhiMark, t1)),
                            PanMark);
  }

  lemma PansAreReplaceable(t: string)
    ensures Replaceable(t, Pans(t), PanMark)
  {
    MarksAreForeign();
    PansOrdered(t);
    SpansAreHits(PanCandidate, t, 0);
  }

  lemma PhonePassLeavesAgainst(k: Kind, t: string)
    requires k == Address ==> NoneIn(k, t)
    ensures OnlyAgainst(k, Sub(Phone, PhoneMark, t))
  {
    MarksAreForeign();
    var cuts, out := FindIter(Phone, t, 0), Sub(Phone, PhoneMark, t);
    SpansAreReplaceable(Phone, t, PhoneMark);
    if k == Address {
      ReplacementKeepsAgainst(k, t, cuts, PhoneMark);
    } else {
      PhoneFinds(t);
      forall a, b | 0 <= a < b <= |out| && StandsAt(k, out, a, b) ensures Against(out, a, b) {
        var p, q := Origin(k, t, cuts, PhoneMark, a, b);
        ExposedBehind(Phone, k, t, p, q);
      }
    }
  }

  /** Whatever the text, an address or a number that is left stands directly against a placeholder, or against a
      bracket that was there. */
  lemma LeftIsAgainst(k: Kind, x: string)
    ensures OnlyAgainst(k, Redact(x))
  {
    EmailPassLeavesNone(RedactCatalog(x));
    PhonePassLeavesAgainst(k, WithoutEmail(x));
    NumbersAreReplaceable(WithoutPhone(x));
    ReplacementKeepsAgainst(k, WithoutPhone(x), Numbers(WithoutPhone(x)), PhoneMark);
    RedactSteps(x);
    CatalogKeepsAgainst(k, BeforeFinalPass(x));
  }

  // ---------- Exactly when something is left ----------

  lemma PhiValueIsClean(t: string)
    requires Clean(PhiField, t)
    ensures Clean(PhiFieldValue, t)
  {
    forall i, j | 0 <= i <= j <= |t| ensures !Matches(PhiFieldValue, t, i, j) {
      if Matches(PhiFieldValue, t, i, j) {
        var m := SplitCat(PhiFieldValue.first, PhiFieldValue.second, t, i, j);
        var n := SplitCat(PhiField, Spaces, t, i, m);
      }
    }
  }

  /** Text in which nothing of the catalog stands is left alone. */
  lemma HarmlessIsLeftAlone(t: string)
    requires Harmless(t)
    ensures RedactCatalog(t) == t
  {
    HarmlessIsClean(t);
    CleanIsLeftAlone(t);
  }

  lemma CleanIsLeftAlone(t: string)
    requires (forall q :: q in SecretPatterns || q == Mrn || q == PhiField ==> Clean(q, t)) && Pans(t) == []
    ensures RedactCatalog(t) == t
  {
    PhiValueIsClean(t);
    CleanSubAllIsIdentity(SecretPatterns, SecretMark, t);
    CleanSubAllIsIdentity(RedactPhiPatterns, PhiMark, t);
    assert t[0..] == t;
  }

  /** When nothing of the catalog has appeared in the meantime, what is left is just what the last replacement
      exposed. */
  lemma LeftExactly(k: Kind, x: string)
    requires Harmless(BeforeFinalPass(x))
    ensures NoneIn(k, Redact(x)) <==> NoneExposed(k, WithoutPhone(x), Numbers(WithoutPhone(x)))
  {
    RedactSteps(x);
    HarmlessIsLeftAlone(BeforeFinalPass(x));
    NumbersAreReplaceable(WithoutPhone(x));
    ReplacementExactly(k, WithoutPhone(x), Numbers(WithoutPhone(x)), PhoneMark);
  }

  lemma EmailIsTame()
    ensures Tame(Email, MarkChars)
  {
    EmailAvoids();
    EmailEscapes(MarkChars);
    EmailLooks();
    KeyStep.MarkCharsAreLow();
    EdgedIsTame(Email, MarkChars);
  }

  lemma EdgedIsTame(r: Re, cs: set<char>)
    requires Avoids(r, Brackets) && Escapes(r, cs) && Assertions(r) == {WordBoundary}
    requires forall c :: c in cs ==> !IsUpper(c)
    ensures Tame(r, cs)
  {
  }

  lemma EmailAvoids()
    ensures Avoids(Email, Brackets)
  {
  }

  lemma EmailEscapes(cs: set<char>)
    requires '@' !in cs
    ensures Escapes(Email, cs)
  {
    assert Escapes(Text("@"), cs);
    assert Escapes(Email.second.second, cs);
    assert Escapes(Email.second, cs);
  }

  lemma EmailLooks()
    ensures Assertions(Email) == {WordBoundary}
  {
  }

  lemma CleanOfAddresses(t: string)
    ensures Clean(Email, t) <==> NoneIn(Address, t)
  {
    EmailFinds(t);
    if i, j :| 0 <= i <= j <= |t| && Matches(Email, t, i, j) { assert StandsAt(Address, t, i, j); }
    if i, j :| 0 <= i < j <= |t| && StandsAt(Address, t, i, j) { assert Matches(Email, t, i, j); }
  }

  /** The catalog pass exposes no address, when no storage key is about. */
  lemma CatalogExposesNoAddress(y: string)
    requires Clean(AzureKey, y) && NoneIn(Address, y)
    ensures NoneIn(Address, RedactCatalog(y))
  {
    EmailIsTame();
    MarksAreMarks();
    SecretsAreTame();
    AzureIsTame();
    CleanOfAddresses(y);
    SettledPass(SecretPatterns, SecretMark, MarkChars, y, Email);
    RestOfPass(y, Email);
    CleanOfAddresses(RedactCatalog(y));
  }

  /** No address is left, whatever the text, unless the replacement of the numbers exposes one. */
  lemma UnexposedAddressesAreGone(x: string)
    requires NoneExposed(Address, WithoutPhone(x), Numbers(WithoutPhone(x)))
    ensures NoneIn(Address, Redact(x))
  {
    NumbersAreReplaceable(WithoutPhone(x));
    ReplacementExactly(Address, WithoutPhone(x), Numbers(WithoutPhone(x)), PhoneMark);
    NoAzureBeforeFinalPass(x);
    RedactSteps(x);
    CatalogExposesNoAddress(BeforeFinalPass(x));
  }

  /** Nor is one left where every number that is replaced stands apart from the words around it. */
  lemma NumbersApartLeaveNone(x: string)
    requires SafeCuts(WithoutEmail(x), FindIter(Phone, WithoutEmail(x), 0))
    requires SafeCuts(WithoutPhone(x), Numbers(WithoutPhone(x)))
    ensures NoneIn(Address, Redact(x))
  {
    EmailPassLeavesNone(RedactCatalog(x));
    CleanOfAddresses(WithoutEmail(x));
    EmailIsTame();
    MarksAreMarks();
    SubKeepsClean(Phone, Email, PhoneMark, MarkChars, WithoutEmail(x));
    SpliceKeepsClean(Email, WithoutPhone(x), Numbers(WithoutPhone(x)), PhoneMark, MarkChars);
    CleanOfAddresses(BeforeFinalPass(x));
    NoAzureBeforeFinalPass(x);
    RedactSteps(x);
    CatalogExposesNoAddress(BeforeFinalPass(x));
  }

  // ---------- Exactly when nothing is done ----------

  /** How many at signs and digits a text has. No replacement brings any. */
  function Marked(t: string): nat {
    if t == "" then 0 else (if t[0] == '@' || Numeral(t[0]) then 1 else 0) + Marked(t[1..])
  }

  lemma {:induction false} MarkedSum(u: string, v: string)
    ensures Marked(u + v) == Marked(u) + Marked(v)
    decreases u
  {
    if u == "" {
      assert u + v == v;
    } else {
      assert (u + v)[1..] == u[1..] + v;
      MarkedSum(u[1..], v);
    }
  }

  lemma {:induction false} MarkedThere(u: string, p: nat)
    requires p < |u| && (u[p] == '@' || Numeral(u[p]))
    ensures Marked(u) > 0
    decreases u
  {
    if p > 0 { MarkedThere(u[1..], p - 1); }
  }

  lemma {:induction false} ForeignIsUnmarked(s: string)
    requires Foreign(s)
    ensures Marked(s) == 0
    decreases s
  {
    if s != "" {
      assert s[0] in s && forall c :: c in s[1..] ==> c in s;
      ForeignIsUnmarked(s[1..]);
    }
  }

  lemma {:induction false} FewerMarked(t: string, i: nat, cuts: seq<(nat, nat)>, s: string)
    requires Ordered(cuts, i, |t|) && Foreign(s)
    ensures Marked(Spliced(t, i, cuts, s)) <= Marked(t[i..])
    ensures (exists c :: c in cuts && c.0 <= c.1 <= |t| && Marked(t[c.0..c.1]) > 0) ==>
              Marked(Spliced(t, i, cuts, s)) < Marked(t[i..])
    decreases cuts
  {
    if cuts != [] {
      var p, q := cuts[0].0, cuts[0].1;
      var rest := Spliced(t, q, cuts[1..], s);
      FewerMarked(t, q, cuts[1..], s);
      ForeignIsUnmarked(s);
      MarkedSum(t[i..p] + s, rest);
      MarkedSum(t[i..p], s);
      assert t[i..] == t[i..p] + t[p..q] + t[q..];
      MarkedSum(t[i..p] + t[p..q], t[q..]);
      MarkedSum(t[i..p], t[p..q]);
      assert forall c :: c in cuts ==> c == cuts[0] || c in cuts[1..];
    }
  }

  lemma SubMarked(r: Re, s: string, t: string)
    requires Bracketed(s) && Foreign(s)
    ensures Marked(Sub(r, s, t)) <= Marked(t)
  {
    SpansAreHits(r, t, 0);
    FewerMarked(t, 0, FindIter(r, t, 0), s);
    assert t[0..] == t;
  }

  lemma SubUnmarks(r: Re, k: Kind, s: string, t: string)
    requires Bracketed(s) && Foreign(s) && Finds(r, k, t) && !NoneIn(k, t)
    ensures Marked(Sub(r, s, t)) < Marked(t)
  {
    var cuts := FindIter(r, t, 0);
    SpansAreHits(r, t, 0);
    SpansStand(r, k, t);
    var i, j :| 0 <= i < j <= |t| && StandsAt(k, t, i, j);
    if Untouched(cuts, i, j) { UntouchedIsNoMatch(r, k, t, i, j); }
    var c :| c in cuts && !(c.1 <= i || j <= c.0);
    PieceIsMarked(k, t[c.0..c.1]);
    FewerMarked(t, 0, cuts, s);
    assert t[0..] == t;
  }

  lemma PieceIsMarked(k: Kind, u: string)
    requires Spelled(k, u)
    ensures Marked(u) > 0
  {
    match k
    case Address =>
      AddressFacts(u);
      var p :| 0 <= p < |u| && u[p] == '@';
      MarkedThere(u, p);
    case PhoneNumber =>
      NumberEnds(u);
      MarkedThere(u, |u| - 1);
  }

  lemma {:induction false} ListMarked(rs: seq<Re>, s: string, t: string)
    requires Bracketed(s) && Foreign(s)
    ensures Marked(SubAll(rs, s, t)) <= Marked(t)
    decreases rs
  {
    if rs != [] {
      SubMarked(rs[0], s, t);
      ListMarked(rs[1..], s, Sub(rs[0], s, t));
    }
  }

  lemma CatalogMarked(t: string)
    ensures Marked(RedactCatalog(t)) <= Marked(t)
  {
    MarksAreForeign();
    ListMarked(SecretPatterns, SecretMark, t);
    var t1 := SubAll(SecretPatterns, SecretMark, t);
    ListMarked(RedactPhiPatterns, PhiMark, t1);
    var t2 := SubAll(RedactPhiPatterns, PhiMark, t1);
    PansOrdered(t2);
    FewerMarked(t2, 0, Pans(t2), PanMark);
    assert t2[0..] == t2;
  }

  lemma LaterMarked(x: string)
    ensures Marked(Redact(x)) <= Marked(WithoutPhone(x)) <= Marked(WithoutEmail(x))
  {
    var y := WithoutPhone(x);
    MarksAreForeign();
    SubMarked(Phone, PhoneMark, WithoutEmail(x));
    FewerMarked(y, 0, Numbers(y), PhoneMark);
    assert y[0..] == y;
    RedactSteps(x);
    CatalogMarked(BeforeFinalPass(x));
  }

  lemma NumberlessIsLeftAlone(t: string)
    requires NoContextNumberIn(t)
    ensures RedactPhoneInContext(t) == t
  {
    forall i, j | 0 <= i <= j <= |t| ensures !Matches(PhoneInContext, t, i, j) { ContextOfPiece(t, i, j); }
    CleanHasNoHits(PhoneInContext, t);
    CleanHasNoSpans(PhoneInContext, t, 0);
    assert t[0..] == t;
  }

  lemma PieceFreeIsLeftAlone(r: Re, k: Kind, s: string, t: string)
    requires Finds(r, k, t) && NoneIn(k, t)
    ensures Sub(r, s, t) == t
  {
    assert Clean(r, t);
    CleanSubIsIdentity(r, s, t);
  }

  /** A text of which only numbers are replaced, with nothing more to redact after that. */
  lemma OnlyNumbersGo(x: string, y: string)
    requires RedactCatalog(x) == x && NoneIn(Address, x) && Sub(Phone, PhoneMark, x) == y
    requires NoContextNumberIn(y) && RedactCatalog(y) == y
    ensures Redact(x) == y
  {
    EmailFinds(x);
    PieceFreeIsLeftAlone(Email, Address, EmailMark, x);
    NumberlessIsLeftAlone(y);
    RedactSteps(x);
  }

  /** Nothing to redact stands in the text. */
  ghost predicate NothingToRedact(x: string) {
    Harmless(x) && NoneIn(Address, x) && NoneIn(PhoneNumber, x) && NoContextNumberIn(x)
  }

  lemma UnchangedAddresses(x: string)
    requires Redact(x) == x && Harmless(x)
    ensures NoneIn(Address, x) && WithoutEmail(x) == x
  {
    HarmlessIsLeftAlone(x);
    MarksAreForeign();
    EmailFinds(x);
    LaterMarked(x);
    if !NoneIn(Address, x) { SubUnmarks(Email, Address, EmailMark, x); }
    PieceFreeIsLeftAlone(Email, Address, EmailMark, x);
  }

  /** A text comes back as it is exactly when there is nothing to redact in it. */
  lemma LeftAloneExactly(x: string)
    ensures Redact(x) == x <==> NothingToRedact(x)
  {
    EmailFinds(x);
    PhoneFinds(x);
    MarksAreForeign();
    if Redact(x) == x {
      RedactedIsHarmless(x);
      NoContextNumberLeft(x);
      UnchangedAddresses(x);
      LaterMarked(x);
      if !NoneIn(PhoneNumber, x) { SubUnmarks(Phone, PhoneNumber, PhoneMark, x); }
    }
    if NothingToRedact(x) {
      StepsOfNothing(x);
      RedactSteps(x);
    }
  }

  lemma StepsOfNothing(x: string)
    requires NothingToRedact(x)
    ensures RedactCatalog(x) == x && WithoutEmail(x) == x && WithoutPhone(x) == x && BeforeFinalPass(x) == x
  {
    EmailFinds(x);
    PhoneFinds(x);
    HarmlessIsLeftAlone(x);
    PieceFreeIsLeftAlone(Email, Address, EmailMark, x);
    PieceFreeIsLeftAlone(Phone, PhoneNumber, PhoneMark, x);
    NumberlessIsLeftAlone(x);
    RedactSteps(x);
  }
}
