/** After `RedactPan` the detector finds no card number, also among the runs kept behind an ID label. */
module PanProof {
  import opened Regex
  import opened Splice
  import opened Substitution
  import opened Catalog
  import opened CatalogFacts
  import opened Luhn
  import opened Redaction
  import opened RedactionProof

  const TenDigits: set<char> := {'0', '1', '2', '3', '4', '5', '6', '7', '8', '9'}

  lemma {:induction false} DigitRun(lo: nat, hi: Bound, t: string, i: nat, j: nat)
    requires i <= j <= |t| && Repeats(One(Digit), lo, hi, t, i, j)
    ensures j - i >= lo && Digits(t[i..j])
    decreases j - i
  {
    if i < j {
      var lo' := if lo == 0 then 0 else lo - 1;
      var m :| i < m <= j && Matches(One(Digit), t, i, m) && Repeats(One(Digit), lo', Less(hi), t, m, j);
      DigitRun(lo', Less(hi), t, m, j);
      assert t[i..j] == [t[i]] + t[m..j];
    }
  }

  /** A candidate is a maximal run of digits. */
  lemma CandidateIsDigits(t: string, i: nat, j: nat)
    requires i <= j <= |t| && Matches(PanCandidate, t, i, j)
    ensures i < j && Digits(t[i..j]) && BoundaryAt(t, i) && BoundaryAt(t, j)
  {
    var run := Rep(One(Digit), 13, Upto(19));
    var m :| i <= m <= j && Matches(B, t, i, m) && Matches(Cat(run, B), t, m, j);
    var k :| m <= k <= j && Matches(run, t, m, k) && Matches(B, t, k, j);
    DigitRun(13, Upto(19), t, i, j);
  }

  lemma DigitAt(t: string, i: nat, j: nat, p: nat)
    requires i <= p < j <= |t| && Digits(t[i..j])
    ensures IsDigit(t[p])
  {
    assert t[i..j][p - i] == t[p];
  }

  lemma TwoCandidates(t: string, i: nat, j: nat, p: nat, q: nat)
    requires i <= j <= |t| && p <= q <= |t| && i <= p < j
    requires Matches(PanCandidate, t, i, j) && Matches(PanCandidate, t, p, q)
    ensures i == p && j == q
  {
    CandidateIsDigits(t, i, j);
    CandidateIsDigits(t, p, q);
    if i < p {
      DigitAt(t, i, j, p - 1);
      DigitAt(t, i, j, p);
    } else if j < q {
      DigitAt(t, i, j, j - 1);
      DigitAt(t, p, q, j);
    } else if q < j {
      DigitAt(t, i, j, q);
    }
  }

  lemma CandidateIsTame()
    ensures SafeTame(PanCandidate)
  {
    var run := Rep(One(Digit), 13, Upto(19));
    assert PlainBody(run, MarkChars);
    BoundedIsSafeTame(run);
  }

  /** The scan visits every candidate. */
  lemma CandidateIsVisited(t: string, p: nat, q: nat)
    requires p <= q <= |t| && Matches(PanCandidate, t, p, q)
    ensures (p, q) in FindIter(PanCandidate, t, 0)
  {
    CandidateIsTame();
    TameMatchIsHit(PanCandidate, MarkChars, t, p, q);
    SpansAreHits(PanCandidate, t, 0);
    var spans := FindIter(PanCandidate, t, 0);
    if !Inside(spans, p) { OutsideSpans(PanCandidate, t, 0, p); }
    var c :| c in spans && c.0 <= p < c.1;
    TwoCandidates(t, c.0, c.1, p, q);
  }

  lemma PanCutsAreSafe(t: string)
    ensures SafeCuts(t, Pans(t))
    ensures forall c :: c in Pans(t) ==> c.0 < c.1 <= |t| && IsDigit(t[c.1 - 1])
  {
    forall c | c in Pans(t) ensures SafeEdge(t, c.0) && SafeEdge(t, c.1) && c.0 < c.1 <= |t| && IsDigit(t[c.1 - 1]) {
      PanIsCandidate(t, c);
      CandidateEdges(t, c.0, c.1);
    }
  }

  lemma PanIsCandidate(t: string, c: (nat, nat))
    requires c in Pans(t)
    ensures c.0 < c.1 <= |t| && Matches(PanCandidate, t, c.0, c.1)
  {
    PansOrdered(t);
    SpansAreHits(PanCandidate, t, 0);
    assert EndAt(PanCandidate, t, c.0) == c.1;
  }

  lemma CandidateEdges(t: string, i: nat, j: nat)
    requires i <= j <= |t| && Matches(PanCandidate, t, i, j)
    ensures i < j && SafeEdge(t, i) && SafeEdge(t, j) && IsDigit(t[j - 1])
  {
    CandidateIsDigits(t, i, j);
    DigitAt(t, i, j, j - 1);
  }

  // ---------- The ID label in front of a kept run ----------

  /** The pattern's first character is a letter or an underscore. */
  predicate StartsWithLetter(r: Re) {
    match r
    case AnyCase(s) => s != ""
    case Alt(a, b) => StartsWithLetter(a) && StartsWithLetter(b)
    case _ => false
  }

  lemma {:induction false} LetterFirst(r: Re, t: string, i: nat, j: nat)
    requires i <= j <= |t| && StartsWithLetter(r) && Matches(r, t, i, j)
    ensures i < j && IsWord(t[i])
  {
    match r
    case AnyCase(s) => assert t[i..j][0] == t[i];
    case Alt(a, b) => if Matches(a, t, i, j) { LetterFirst(a, t, i, j); } else { LetterFirst(b, t, i, j); }
  }

  lemma IdWordFacts()
    ensures StartsWithLetter(IdWord) && Avoids(IdWord, TenDigits) && Assertions(IdWord) == {}
  {
  }

  /** `IdLabel`, for any word. */
  function LabelOf(word: Re): Re {
    Cat(B, Cat(word, Cat(Spaces, Cat(One(Colon), Cat(Spaces, Look(TextEnd))))))
  }

  lemma LabelFacts(word: Re)
    requires Avoids(word, TenDigits) && Assertions(word) == {}
    ensures Avoids(LabelOf(word), TenDigits) && Assertions(LabelOf(word)) == {WordBoundary, TextEnd}
  {
    var tail := Cat(One(Colon), Cat(Spaces, Look(TextEnd)));
    assert Avoids(tail, TenDigits) && Assertions(tail) == {TextEnd};
    assert Assertions(Cat(word, Cat(Spaces, tail))) == {TextEnd};
  }

  lemma LabelEnd(w: string, k: nat, e: nat)
    requires k <= e <= |w| && Matches(Cat(Spaces, Cat(One(Colon), Cat(Spaces, Look(TextEnd)))), w, k, e)
    ensures Holds(TextEnd, w, e)
  {
    var u := SplitCat(Spaces, Cat(One(Colon), Cat(Spaces, Look(TextEnd))), w, k, e);
    var v := SplitCat(One(Colon), Cat(Spaces, Look(TextEnd)), w, u, e);
    var x := SplitCat(Spaces, Look(TextEnd), w, v, e);
  }

  /** A label starts with a word character, at a boundary, and ends with the text. */
  lemma LabelShape(word: Re, w: string, q: nat, e: nat)
    requires q <= e <= |w| && StartsWithLetter(word) && Matches(LabelOf(word), w, q, e)
    ensures q < |w| && IsWord(w[q]) && BoundaryAt(w, q) && Holds(TextEnd, w, e)
  {
    var rest := Cat(Spaces, Cat(One(Colon), Cat(Spaces, Look(TextEnd))));
    var m := SplitCat(B, Cat(word, rest), w, q, e);
    var k := SplitCat(word, rest, w, m, e);
    LetterFirst(word, w, m, k);
    LabelEnd(w, k, e);
  }

  /** No digit stands in a label or after it. */
  lemma LabelHasNoDigit(word: Re, w: string, q: nat, e: nat)
    requires q <= e <= |w| && Avoids(word, TenDigits) && Assertions(word) == {}
    requires Matches(LabelOf(word), w, q, e) && Holds(TextEnd, w, e)
    ensures forall k :: q <= k < |w| ==> !IsDigit(w[k])
  {
    LabelFacts(word);
    AvoidsSound(LabelOf(word), TenDigits, w, q, e);
    forall k | q <= k < |w| ensures !IsDigit(w[k]) {
      if k < e { NotADigit(w[k]); }
    }
  }

  lemma NotADigit(c: char)
    ensures c in TenDigits <==> IsDigit(c)
  {
  }

  /** Equal suffixes carry the label's assertions, given the boundary at their start. */
  lemma SuffixCarries(w1: string, q1: nat, w: string, q: nat, n: nat)
    requires q1 + n <= |w1| && q <= |w| && w1[q1..] == w[q..]
    requires BoundaryAt(w1, q1) ==> BoundaryAt(w, q)
    ensures Carries({WordBoundary, TextEnd}, w1, q1, w, q, n)
  {
    assert |w1| - q1 == |w| - q;
    assert forall k :: 0 <= k < |w| - q ==> w1[q1 + k] == w1[q1..][k] == w[q..][k] == w[q + k];
    forall k | 0 <= k <= n ensures Carry(WordBoundary, w1, q1, w, q, k) && Carry(TextEnd, w1, q1, w, q, k) {
      if k > 0 { assert w1[q1 + (k - 1)] == w[q + (k - 1)]; }
      if k < |w| - q { assert w1[q1 + k] == w[q + k]; }
    }
  }

  /** How far the look-back reaches. */
  function From(start: nat): nat { if start <= LOOKBACK then 0 else start - LOOKBACK }

  /** `r` matches `w[q..e]`, starting with a word character at a boundary, with no digit from there on. */
  ghost predicate LabelIn(r: Re, w: string, q: nat, e: nat) {
    q <= e <= |w| && Matches(r, w, q, e) && q < |w| && IsWord(w[q]) && BoundaryAt(w, q) &&
    forall k :: q <= k < |w| ==> !IsDigit(w[k])
  }

  lemma FindLabel(w: string) returns (q: nat, e: nat)
    requires Search(IdLabel, w)
    ensures LabelIn(IdLabel, w, q, e)
  {
    q :| 0 <= q <= |w| && Ends(IdLabel, w, q) != [];
    e := Ends(IdLabel, w, q)[0];
    assert e in Ends(IdLabel, w, q);
    EndsAreMatches(IdLabel, w, q, e);
    IdWordFacts();
    LabelShape(IdWord, w, q, e);
    LabelHasNoDigit(IdWord, w, q, e);
  }

  lemma SuffixMoves(r: Re, w1: string, q1: nat, e1: nat, w: string, q: nat)
    requires Assertions(r) == {WordBoundary, TextEnd} && q1 <= e1 <= |w1| && Matches(r, w1, q1, e1)
    requires q <= |w| && w1[q1..] == w[q..] && BoundaryAt(w, q)
    ensures Search(r, w)
  {
    var n := e1 - q1;
    SuffixCarries(w1, q1, w, q, n);
    assert w1[q1..q1 + n] == w1[q1..][..n] == w[q..][..n] == w[q..q + n];
    Transfer(r, w1, q1, w, q, n);
    EndsAreMatches(r, w, q, q + n);
  }

  lemma SliceTail(t: string, i: nat, j: nat, k: nat)
    requires i + k <= j <= |t|
    ensures t[i..j][k..] == t[i + k..j]
  {
  }

  /** A label found before a kept run is found there again after the runs before it are replaced. */
  lemma LabelCarries(r: Re, t: string, cuts: seq<(nat, nat)>, out: string, a: nat, b: nat, p: nat, n: nat, q1: nat,
                     e1: nat)
    requires Found(t, 0, cuts, out, a, b, p, n) && Assertions(r) == {WordBoundary, TextEnd}
    requires LabelIn(r, t[From(p)..p], q1, e1)
    requires forall c :: c in cuts ==> c.0 < c.1 <= |t| && IsDigit(t[c.1 - 1])
    ensures Search(r, out[From(a)..a])
  {
    var q := LabelMoves(t, cuts, out, a, b, p, n, q1);
    SuffixMoves(r, t[From(p)..p], q1, e1, out[From(a)..a], q);
  }

  /** Text from `q1` on, digit-free and starting at a word boundary, is there again before the kept run. */
  lemma LabelMoves(t: string, cuts: seq<(nat, nat)>, out: string, a: nat, b: nat, p: nat, n: nat, q1: nat)
      returns (q: nat)
    requires Found(t, 0, cuts, out, a, b, p, n)
    requires q1 < |t[From(p)..p]| && IsWord(t[From(p)..p][q1]) && BoundaryAt(t[From(p)..p], q1)
    requires forall k :: q1 <= k < |t[From(p)..p]| ==> !IsDigit(t[From(p)..p][k])
    requires forall c :: c in cuts ==> c.0 < c.1 <= |t| && IsDigit(t[c.1 - 1])
    ensures var w := out[From(a)..a]; q <= |w| && t[From(p)..p][q1..] == w[q..] && BoundaryAt(w, q)
  {
    var d := InWindow(t, From(p), p, q1);
    LabelAfterCut(t, cuts, out, a, b, p, n, d);
    LabelBoundary(t, cuts, out, a, b, p, n, d);
    q := a - From(a) - d;
    SliceTail(out, From(a), a, q);
  }

  /** The text of a window from `q1` on, seen from the end of the window. */
  lemma InWindow(t: string, i: nat, j: nat, q1: nat) returns (d: nat)
    requires i <= j <= |t| && q1 < j - i && forall k :: q1 <= k < j - i ==> !IsDigit(t[i..j][k])
    ensures 0 < d == j - i - q1 <= j && t[i..j][q1] == t[j - d] && t[i..j][q1..] == t[j - d..j]
    ensures forall k :: j - d <= k < j ==> !IsDigit(t[k])
  {
    d := j - i - q1;
    SliceTail(t, i, j, q1);
    forall k | j - d <= k < j ensures !IsDigit(t[k]) { assert t[i..j][k - i] == t[k]; }
  }

  /** A kept run is still preceded by its label after the runs before it are replaced. */
  lemma PrecededCarries(t: string, cuts: seq<(nat, nat)>, out: string, a: nat, b: nat, p: nat, n: nat)
    requires Found(t, 0, cuts, out, a, b, p, n) && IdPreceded(t, p)
    requires forall c :: c in cuts ==> c.0 < c.1 <= |t| && IsDigit(t[c.1 - 1])
    ensures IdPreceded(out, a)
  {
    var q1, e1 := FindLabel(t[From(p)..p]);
    IdLabelAssertions();
    LabelCarries(IdLabel, t, cuts, out, a, b, p, n, q1, e1);
  }

  lemma IdLabelAssertions()
    ensures Assertions(IdLabel) == {WordBoundary, TextEnd}
  {
    IdWordFacts();
    LabelFacts(IdWord);
  }

  /** The label lies behind the last replaced run, so its text is unchanged. */
  lemma LabelAfterCut(t: string, cuts: seq<(nat, nat)>, out: string, a: nat, b: nat, p: nat, n: nat, d: nat)
    requires Found(t, 0, cuts, out, a, b, p, n) && d <= p
    requires forall c :: c in cuts ==> c.0 < c.1 <= |t| && IsDigit(t[c.1 - 1])
    requires forall k :: p - d <= k < p ==> !IsDigit(t[k])
    ensures d <= n && out[a - d..a] == t[p - d..p]
  {
    if n < a {
      var c :| c in cuts && c.1 == p - n;
      assert IsDigit(t[p - n - 1]);
    }
    assert d <= n;
    assert out[a - d..a] == out[a - n..a][n - d..];
    assert t[p - d..p] == t[p - n..p][n - d..];
  }

  lemma LabelBoundary(t: string, cuts: seq<(nat, nat)>, out: string, a: nat, b: nat, p: nat, n: nat, d: nat)
    requires Found(t, 0, cuts, out, a, b, p, n) && 0 < d <= n && d <= p - From(p)
    requires out[a - d..a] == t[p - d..p]
    requires IsWord(t[p - d]) && BoundaryAt(t[From(p)..p], p - From(p) - d)
    ensures d <= a - From(a) && BoundaryAt(out[From(a)..a], a - From(a) - d)
  {
    SameAt(out, a - d, a, t, p - d, p, 0);
    WindowBoundary(t, From(p), p, p - d);
    assert From(a) <= a - d;
    if From(a) < a - d { NothingBefore(t, cuts, out, a, p, n, d); }
    WindowBoundary(out, From(a), a, a - d);
  }

  /** In front of the label stands what stood there, or a placeholder's end, or it is where the text starts. */
  lemma NothingBefore(t: string, cuts: seq<(nat, nat)>, out: string, a: nat, p: nat, n: nat, d: nat)
    requires SameBack(t, 0, cuts, out, a, p, n) && 0 < d <= n && d < a && a - d > From(a)
    requires p - d > From(p) ==> !IsWord(t[p - d - 1])
    ensures !IsWord(out[a - d - 1])
  {
    if d < n { SameAt(out, a - n, a, t, p - n, p, n - d - 1); }
  }

  /** A boundary inside a window is one of the text, the start of the window aside. */
  lemma WindowBoundary(t: string, i: nat, j: nat, p: nat)
    requires i <= p < j <= |t|
    ensures BoundaryAt(t[i..j], p - i) <==> (p > i && IsWord(t[p - 1])) != IsWord(t[p])
  {
    var w := t[i..j];
    assert w[p - i] == t[p];
    if p > i { assert w[p - i - 1] == t[p - 1]; }
  }
}
