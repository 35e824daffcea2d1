/**
 `pattern.finditer` and `pattern.sub` as leftmost, non-overlapping scans, syntactic facts about
 what a pattern can match, and the central lemma of redaction: putting placeholders at safe
 places creates no new match of a pattern that cannot see the placeholders.
 */
module Substitution {
  import opened Regex
  import opened Splice

  /** The engine finds a non-empty match starting at `i`. */
  predicate Hit(r: Re, t: string, i: nat)
    requires i <= |t|
  {
    Ends(r, t, i) != [] && Ends(r, t, i)[0] > i
  }

  /** The end of the match the engine prefers. */
  function EndAt(r: Re, t: string, i: nat): (j: nat)
    requires i <= |t| && Hit(r, t, i)
    ensures i < j <= |t| && Matches(r, t, i, j)
  {
    assert Ends(r, t, i)[0] in Ends(r, t, i);
    EndsAreMatches(r, t, i, Ends(r, t, i)[0]);
    Ends(r, t, i)[0]
  }

  /** The spans of the matches found by scanning from `i`. */
  function FindIter(r: Re, t: string, i: nat): seq<(nat, nat)>
    requires i <= |t|
    decreases |t| - i
  {
    if Hit(r, t, i) then [(i, EndAt(r, t, i))] + FindIter(r, t, EndAt(r, t, i))
    else if i < |t| then FindIter(r, t, i + 1)
    else []
  }

  lemma {:induction false} SpansAreHits(r: Re, t: string, i: nat)
    requires i <= |t|
    ensures Ordered(FindIter(r, t, i), i, |t|)
    ensures forall c :: c in FindIter(r, t, i) ==> i <= c.0 < c.1 <= |t| && Hit(r, t, c.0) && EndAt(r, t, c.0) == c.1
    decreases |t| - i
  {
    if Hit(r, t, i) {
      SpansAreHits(r, t, EndAt(r, t, i));
    } else if i < |t| {
      SpansAreHits(r, t, i + 1);
      OrderedFromEarlier(FindIter(r, t, i + 1), i + 1, i, |t|);
    }
  }

  lemma OrderedFromEarlier(cuts: seq<(nat, nat)>, i: nat, i': nat, n: nat)
    requires Ordered(cuts, i, n) && i' <= i
    ensures Ordered(cuts, i', n)
  {
    if cuts != [] {}
  }

  /** No match starts where the scan found nothing. */
  lemma {:induction false} OutsideSpans(r: Re, t: string, i: nat, p: nat)
    requires i <= p <= |t| && !Inside(FindIter(r, t, i), p)
    ensures !Hit(r, t, p)
    decreases |t| - i
  {
    if Hit(r, t, i) {
      var j := EndAt(r, t, i);
      var rest := FindIter(r, t, j);
      assert (i, j) in FindIter(r, t, i);
      assert forall c :: c in rest ==> c in FindIter(r, t, i);
      OutsideSpans(r, t, j, p);
    } else if i < p {
      OutsideSpans(r, t, i + 1, p);
    }
  }

  /** `re.sub(r, s, t)` for a constant replacement. */
  function Sub(r: Re, s: string, t: string): string
  {
    SpansAreHits(r, t, 0);
    Spliced(t, 0, FindIter(r, t, 0), s)
  }

  ghost predicate Clean(r: Re, t: string) {
    forall i, j :: 0 <= i <= j <= |t| ==> !Matches(r, t, i, j)
  }

  // ---------- What a pattern can match, read off its syntax ----------

  /** No match contains a character of `cs`. */
  predicate Avoids(r: Re, cs: set<char>)
  {
    match r
    case Text(_) => cs <= Brackets
    case AnyCase(_) => forall c :: c in cs ==> !IsLower(Lower(c)) && c != '_'
    case One(k) => forall c :: c in cs ==> !In(c, k)
    case Cat(a, b) => Avoids(a, cs) && Avoids(b, cs)
    case Alt(a, b) => Avoids(a, cs) && Avoids(b, cs)
    case Rep(b, _, _) => Avoids(b, cs)
    case Look(_) => true
  }

  /** The first, last or second character of `s` is not in `cs`. */
  predicate HasOutside(s: string, cs: set<char>) {
    |s| > 0 && (s[0] !in cs || s[|s| - 1] !in cs || (|s| > 1 && s[1] !in cs))
  }

  /** Every match has a character that is not in `cs`, a set with a small letter for each capital one: it is
      enough to look at three characters of each literal. */
  predicate Escapes(r: Re, cs: set<char>)
  {
    match r
    case Text(s) => HasOutside(s, cs)
    case AnyCase(s) => HasOutside(s, cs)
    case One(k) => forall c :: c in cs ==> !In(c, k)
    case Cat(a, b) => Escapes(a, cs) || Escapes(b, cs)
    case Alt(a, b) => Escapes(a, cs) && Escapes(b, cs)
    case Rep(b, lo, _) => lo > 0 && Escapes(b, cs)
    case Look(_) => false
  }

  function Assertions(r: Re): set<Assertion>
  {
    match r
    case Cat(a, b) => Assertions(a) + Assertions(b)
    case Alt(a, b) => Assertions(a) + Assertions(b)
    case Rep(b, _, _) => Assertions(b)
    case Look(a) => {a}
    case _ => {}
  }

  lemma {:induction false} AvoidsSound(r: Re, cs: set<char>, t: string, i: nat, j: nat)
    requires i <= j <= |t| && Avoids(r, cs) && Matches(r, t, i, j)
    ensures forall p :: i <= p < j ==> t[p] !in cs
    decreases r, 0
  {
    match r
    case Text(s) =>
      forall p | i <= p < j ensures t[p] !in cs { assert t[p] == t[i..j][p - i] == s[p - i]; }
    case AnyCase(s) =>
      forall p | i <= p < j ensures t[p] !in cs { assert t[p] == t[i..j][p - i] && Lower(t[p]) == s[p - i]; }
    case One(k) =>
    case Cat(a, b) =>
      var m :| i <= m <= j && Matches(a, t, i, m) && Matches(b, t, m, j);
      AvoidsSound(a, cs, t, i, m);
      AvoidsSound(b, cs, t, m, j);
    case Alt(a, b) =>
      if Matches(a, t, i, j) { AvoidsSound(a, cs, t, i, j); } else { AvoidsSound(b, cs, t, i, j); }
    case Rep(b, lo, hi) => AvoidsRepeats(b, lo, hi, cs, t, i, j);
    case Look(_) =>
  }

  lemma {:induction false} AvoidsRepeats(b: Re, lo: nat, hi: Bound, cs: set<char>, t: string, i: nat, j: nat)
    requires i <= j <= |t| && Avoids(b, cs) && Repeats(b, lo, hi, t, i, j)
    ensures forall p :: i <= p < j ==> t[p] !in cs
    decreases b, 1 + j - i
  {
    if i < j {
      var lo' := if lo == 0 then 0 else lo - 1;
      var m :| i < m <= j && Matches(b, t, i, m) && Repeats(b, lo', Less(hi), t, m, j);
      AvoidsSound(b, cs, t, i, m);
      AvoidsRepeats(b, lo', Less(hi), cs, t, m, j);
    }
  }

  ghost predicate LowerClosed(cs: set<char>) {
    forall c :: c in cs ==> Lower(c) in cs
  }

  lemma {:induction false} EscapesSound(r: Re, cs: set<char>, t: string, i: nat, j: nat)
    requires i <= j <= |t| && Escapes(r, cs) && Matches(r, t, i, j)
    requires LowerClosed(cs)
    ensures exists p :: i <= p < j && t[p] !in cs
  {
    match r
    case Text(s) =>
      var p := if s[0] !in cs then 0 else if s[|s| - 1] !in cs then |s| - 1 else 1;
      assert t[i + p] == t[i..j][p];
    case AnyCase(s) =>
      var p := if s[0] !in cs then 0 else if s[|s| - 1] !in cs then |s| - 1 else 1;
      assert t[i + p] == t[i..j][p] && Lower(t[i + p]) == s[p];
    case One(k) => assert t[i] !in cs;
    case Cat(a, b) =>
      var m :| i <= m <= j && Matches(a, t, i, m) && Matches(b, t, m, j);
      if Escapes(a, cs) { EscapesSound(a, cs, t, i, m); } else { EscapesSound(b, cs, t, m, j); }
    case Alt(a, b) =>
      if Matches(a, t, i, j) { EscapesSound(a, cs, t, i, j); } else { EscapesSound(b, cs, t, i, j); }
    case Rep(b, lo, hi) =>
      var lo' := if lo == 0 then 0 else lo - 1;
      assert Repeats(b, lo, hi, t, i, j);
      var m :| i < m <= j && Matches(b, t, i, m) && Repeats(b, lo', Less(hi), t, m, j);
      EscapesSound(b, cs, t, i, m);
    case Look(_) =>
  }

  // ---------- Carrying a match from one text to another ----------

  predicate Carry(s: Assertion, t1: string, i1: nat, t: string, i: nat, p: nat)
  {
    i1 + p <= |t1| && i + p <= |t| && (Holds(s, t1, i1 + p) ==> Holds(s, t, i + p))
  }

  /** Every one of these assertions that holds in `t1[i1..i1 + n]` holds in `t[i..i + n]`. */
  ghost predicate Carries(asserts: set<Assertion>, t1: string, i1: nat, t: string, i: nat, n: nat)
  {
    forall s, p :: s in asserts && 0 <= p <= n ==> Carry(s, t1, i1, t, i, p)
  }

  lemma {:induction false} Transfer(r: Re, t1: string, i1: nat, t: string, i: nat, n: nat)
    requires i1 + n <= |t1| && i + n <= |t| && t1[i1..i1 + n] == t[i..i + n]
    requires Carries(Assertions(r), t1, i1, t, i, n) && Matches(r, t1, i1, i1 + n)
    ensures Matches(r, t, i, i + n)
    decreases r, 0
  {
    match r
    case Text(s) =>
    case AnyCase(s) =>
    case One(k) => assert t1[i1] == t1[i1..i1 + n][0] == t[i];
    case Cat(a, b) =>
      var j1 := i1 + n;
      assert Matches(Cat(a, b), t1, i1, j1);
      var m :| i1 <= m <= j1 && Matches(a, t1, i1, m) && Matches(b, t1, m, j1);
      var k := m - i1;
      TransferPart(a, t1, i1, t, i, n, 0, k);
      TransferPart(b, t1, i1, t, i, n, k, n);
      assert Matches(a, t, i, i + k) && Matches(b, t, i + k, i + n);
    case Alt(a, b) =>
      if Matches(a, t1, i1, i1 + n) { Transfer(a, t1, i1, t, i, n); } else { Transfer(b, t1, i1, t, i, n); }
    case Rep(b, lo, hi) => TransferRepeats(b, lo, hi, t1, i1, t, i, n);
    case Look(a) => assert Carry(a, t1, i1, t, i, 0);
  }

  lemma CarriesPart(asserts: set<Assertion>, t1: string, i1: nat, t: string, i: nat, n: nat, u: nat, v: nat)
    requires u <= v <= n && Carries(asserts, t1, i1, t, i, n)
    ensures Carries(asserts, t1, i1 + u, t, i + u, v - u)
  {
    var i2, j2 := i1 + u, i + u;
    forall s, p | s in asserts && 0 <= p <= v - u ensures Carry(s, t1, i2, t, j2, p) {
      assert Carry(s, t1, i1, t, i, u + p);
    }
  }

  lemma {:induction false} TransferPart(r: Re, t1: string, i1: nat, t: string, i: nat, n: nat, u: nat, v: nat)
    requires u <= v <= n
    requires i1 + n <= |t1| && i + n <= |t| && t1[i1..i1 + n] == t[i..i + n]
    requires Carries(Assertions(r), t1, i1, t, i, n) && Matches(r, t1, i1 + u, i1 + v)
    ensures Matches(r, t, i + u, i + v)
    decreases r, 1
  {
    Subslice(t1, i1, n, u, v);
    Subslice(t, i, n, u, v);
    CarriesPart(Assertions(r), t1, i1, t, i, n, u, v);
    Transfer(r, t1, i1 + u, t, i + u, v - u);
  }

  lemma {:induction false} TransferRepeats(b: Re, lo: nat, hi: Bound, t1: string, i1: nat, t: string, i: nat, n: nat)
    requires i1 + n <= |t1| && i + n <= |t| && t1[i1..i1 + n] == t[i..i + n]
    requires Carries(Assertions(b), t1, i1, t, i, n) && Repeats(b, lo, hi, t1, i1, i1 + n)
    ensures Repeats(b, lo, hi, t, i, i + n)
    decreases b, 2 + n
  {
    if n > 0 {
      var lo' := if lo == 0 then 0 else lo - 1;
      var m :| i1 < m <= i1 + n && Matches(b, t1, i1, m) && Repeats(b, lo', Less(hi), t1, m, i1 + n);
      var k := m - i1;
      TransferPart(b, t1, i1, t, i, n, 0, k);
      Subslice(t1, i1, n, k, n);
      Subslice(t, i, n, k, n);
      CarriesPart(Assertions(b), t1, i1, t, i, n, k, n);
      TransferRepeats(b, lo', Less(hi), t1, m, t, i + k, n - k);
      assert Matches(b, t, i, i + k) && Repeats(b, lo', Less(hi), t, i + k, i + n);
    }
  }

  // ---------- Safe places for placeholders ----------

  /** `p` is not between two word characters. */
  predicate SafeEdge(t: string, p: nat)
  {
    p == 0 || p >= |t| || !IsWord(t[p - 1]) || !IsWord(t[p])
  }

  ghost predicate SafeCuts(t: string, cuts: seq<(nat, nat)>) {
    forall c :: c in cuts ==> SafeEdge(t, c.0) && SafeEdge(t, c.1)
  }

  /** The pattern cannot see a placeholder `s`, made of characters of `cs`, put at the cuts. */
  ghost predicate Blind(q: Re, t: string, cuts: seq<(nat, nat)>, s: string, cs: set<char>) {
    Avoids(q, Brackets) && Escapes(q, cs) && (forall c :: c in s ==> c in cs) &&
    (forall c :: c in cs ==> !IsUpper(c)) &&
    (Assertions(q) == {} || (Assertions(q) == {WordBoundary} && SafeCuts(t, cuts)))
  }

  ghost predicate SafeEnds(t: string, cuts: seq<(nat, nat)>) {
    forall c :: c in cuts ==> SafeEdge(t, c.1)
  }

  lemma BoundariesCarry(t: string, cuts: seq<(nat, nat)>, out: string, a: nat, b: nat, p: nat, n: nat)
    requires Found(t, 0, cuts, out, a, b, p, n) && SafeCuts(t, cuts)
    ensures Carries({WordBoundary}, out, a, t, p, b - a)
  {
    var d := b - a;
    forall k | 0 <= k <= d ensures Carry(WordBoundary, out, a, t, p, k) {
      if k == 0 {
        LeftBoundary(t, cuts, out, a, b, p, n);
      } else {
        SameAt(out, a, b, t, p, p + d, k - 1);
        if k < d { SameAt(out, a, b, t, p, p + d, k); }
        if k == d && b < |out| && CutStart(cuts, p + d) { assert SafeEdge(t, p + d); }
      }
    }
  }

  lemma LeftBoundary(t: string, cuts: seq<(nat, nat)>, out: string, a: nat, b: nat, p: nat, n: nat)
    requires Found(t, 0, cuts, out, a, b, p, n) && SafeEnds(t, cuts)
    ensures BoundaryAt(out, a) ==> BoundaryAt(t, p)
  {
    SameAt(out, a, b, t, p, p + (b - a), 0);
    if n > 0 { LeftSame(t, out, a, p, n); } else if a > 0 { LeftOfCut(t, cuts, out, a, p); }
  }

  /** The character in front is the same. */
  lemma LeftSame(t: string, out: string, a: nat, p: nat, n: nat)
    requires 0 < n <= a < |out| && n <= p < |t| && out[a - n..a] == t[p - n..p] && out[a] == t[p]
    ensures BoundaryAt(out, a) ==> BoundaryAt(t, p)
  {
    SameAt(out, a - n, a, t, p - n, p, n - 1);
  }

  /** A placeholder's end is in front, where a cut ended. */
  lemma LeftOfCut(t: string, cuts: seq<(nat, nat)>, out: string, a: nat, p: nat)
    requires 0 < a < |out| && p < |t| && out[a] == t[p] && out[a - 1] == ']' && CutEnd(cuts, p) && SafeEnds(t, cuts)
    ensures BoundaryAt(out, a) ==> BoundaryAt(t, p)
  {
    var c :| c in cuts && c.1 == p;
    assert SafeEdge(t, p);
  }

  lemma SameAt(u: string, a: nat, b: nat, t: string, p: nat, q: nat, k: nat)
    requires a <= b <= |u| && p <= q <= |t| && u[a..b] == t[p..q] && k < b - a
    ensures u[a + k] == t[p + k]
  {
    assert u[a..b][k] == t[p..q][k];
  }

  lemma BlindPiece(q: Re, out: string, s: string, cs: set<char>, a: nat, b: nat)
    requires Avoids(q, Brackets) && Escapes(q, cs)
    requires (forall c :: c in s ==> c in cs) && forall c :: c in cs ==> !IsUpper(c)
    requires a <= b <= |out| && Matches(q, out, a, b)
    ensures a < b && NoBrackets(out[a..b]) && Leaves(out[a..b], s)
  {
    AvoidsSound(q, Brackets, out, a, b);
    EscapesSound(q, cs, out, a, b);
    var k :| a <= k < b && out[k] !in cs;
    assert out[a..b][k - a] == out[k];
    forall m | 0 <= m < b - a ensures out[a..b][m] !in Brackets { assert out[a..b][m] == out[a + m]; }
  }

  /** A match in spliced text of a pattern blind to the placeholder was a match before. */
  lemma MatchBefore(q: Re, t: string, cuts: seq<(nat, nat)>, s: string, cs: set<char>, a: nat, b: nat)
    returns (p: nat, n: nat)
    requires Ordered(cuts, 0, |t|) && Bracketed(s) && Blind(q, t, cuts, s, cs)
    requires a <= b <= |Spliced(t, 0, cuts, s)| && Matches(q, Spliced(t, 0, cuts, s), a, b)
    ensures Found(t, 0, cuts, Spliced(t, 0, cuts, s), a, b, p, n)
    ensures Matches(q, t, p, p + (b - a))
  {
    var out := Spliced(t, 0, cuts, s);
    BlindPiece(q, out, s, cs, a, b);
    p, n := Locate(t, 0, cuts, s, a, b);
    TransferFound(q, t, cuts, out, s, cs, a, b, p, n);
  }

  lemma TransferFound(q: Re, t: string, cuts: seq<(nat, nat)>, out: string, s: string, cs: set<char>,
                      a: nat, b: nat, p: nat, n: nat)
    requires Blind(q, t, cuts, s, cs) && Found(t, 0, cuts, out, a, b, p, n) && Matches(q, out, a, b)
    ensures Matches(q, t, p, p + (b - a))
  {
    if Assertions(q) != {} { BoundariesCarry(t, cuts, out, a, b, p, n); }
    Transfer(q, out, a, t, p, b - a);
  }

  lemma SpliceKeepsClean(q: Re, t: string, cuts: seq<(nat, nat)>, s: string, cs: set<char>)
    requires Ordered(cuts, 0, |t|) && Bracketed(s) && Blind(q, t, cuts, s, cs) && Clean(q, t)
    ensures Clean(q, Spliced(t, 0, cuts, s))
  {
    var out := Spliced(t, 0, cuts, s);
    forall a, b | 0 <= a <= b <= |out| ensures !Matches(q, out, a, b) {
      if Matches(q, out, a, b) {
        var p, n := MatchBefore(q, t, cuts, s, cs, a, b);
      }
    }
  }

  // ---------- Patterns whose matches begin and end at safe places ----------

  predicate NonWordClass(k: Cls) {
    !k.lower && !k.upper && !k.digit && forall c :: c in k.extra ==> !IsWord(c)
  }

  predicate SafeStart(r: Re) {
    match r
    case Text(s) => s != "" && !IsWord(s[0])
    case Cat(a, _) => SafeStart(a)
    case Look(a) => a == WordBoundary
    case _ => false
  }

  predicate SafeEnd(r: Re) {
    match r
    case Text(s) => s != "" && !IsWord(s[|s| - 1])
    case One(k) => NonWordClass(k)
    case Cat(_, b) => SafeEnd(b)
    case Look(a) => a == WordBoundary
    case _ => false
  }

  lemma {:induction false} SafeStartSound(r: Re, t: string, i: nat, j: nat)
    requires i <= j <= |t| && SafeStart(r) && Matches(r, t, i, j)
    ensures SafeEdge(t, i)
  {
    match r
    case Text(s) => assert t[i] == t[i..j][0];
    case Cat(a, b) =>
      var m :| i <= m <= j && Matches(a, t, i, m) && Matches(b, t, m, j);
      SafeStartSound(a, t, i, m);
    case Look(a) =>
  }

  lemma {:induction false} SafeEndSound(r: Re, t: string, i: nat, j: nat)
    requires i <= j <= |t| && SafeEnd(r) && Matches(r, t, i, j)
    ensures SafeEdge(t, j)
  {
    match r
    case Text(s) => assert t[j - 1] == t[i..j][|s| - 1];
    case One(k) =>
    case Cat(a, b) =>
      var m :| i <= m <= j && Matches(a, t, i, m) && Matches(b, t, m, j);
      SafeEndSound(b, t, m, j);
    case Look(a) =>
  }

  predicate StopsOutside(ends: seq<nat>, k: Cls, t: string) {
    ends != [] && (ends[0] >= |t| || !In(t[ends[0]], k))
  }

  /** A greedy star of one class stops only at the end or at a character outside the class. */
  lemma {:induction false} StarIsMaximal(k: Cls, t: string, i: nat)
    requires i <= |t|
    ensures StopsOutside(RepEnds(One(k), 0, Unbounded, t, i), k, t)
    decreases |t| - i
  {
    var from := Ends(One(k), t, i);
    if i < |t| && In(t[i], k) {
      StarIsMaximal(k, t, i + 1);
      assert from == [i + 1];
      assert RepEndsFrom(One(k), 0, Unbounded, t, i, from) ==
             RepEnds(One(k), 0, Unbounded, t, i + 1) + RepEndsFrom(One(k), 0, Unbounded, t, i, from[1..]);
    } else {
      assert from == [];
      assert RepEndsFrom(One(k), 0, Unbounded, t, i, from) == [];
    }
  }

  lemma TrailingStarIsMaximal(a: Re, k: Cls, t: string, i: nat)
    requires i <= |t| && Hit(Cat(a, Rep(One(k), 0, Unbounded)), t, i)
    ensures var j := EndAt(Cat(a, Rep(One(k), 0, Unbounded)), t, i); j == |t| || !In(t[j], k)
  {
    var star := Rep(One(k), 0, Unbounded);
    var from := Ends(a, t, i);
    assert Ends(Cat(a, star), t, i) == EndsFrom(star, t, i, from);
    if from != [] {
      assert from[0] in from && forall m :: m in from[1..] ==> m in from;
      StarIsMaximal(k, t, from[0]);
      assert EndsFrom(star, t, i, from) == Ends(star, t, from[0]) + EndsFrom(star, t, i, from[1..]);
      assert Ends(star, t, from[0]) == RepEnds(One(k), 0, Unbounded, t, from[0]);
    }
  }
}
