/**
 The part of Python's `re` that the redaction catalog uses: character classes, greedy
 bounded repetition, alternation, word boundaries and digit look-arounds, with the
 backtracking engine's choice of match. `Matches` says declaratively what a pattern may
 match; `Ends` lists the ends the engine tries, best first. `EndsAreMatches` connects them.
 */
module Regex {

  predicate IsDigit(c: char) { '0' <= c <= '9' }

  predicate IsLower(c: char) { 'a' <= c <= 'z' }

  predicate IsUpper(c: char) { 'A' <= c <= 'Z' }

  predicate IsWord(c: char) { IsDigit(c) || IsLower(c) || IsUpper(c) || c == '_' }

  predicate IsSpace(c: char) { c == ' ' || 9 <= c as int <= 13 || 28 <= c as int <= 31 }

  function Lower(c: char): char {
    if IsUpper(c) then (c as int + 32) as char else c
  }

  /** A bracket expression: the four named ranges it contains, and single characters. */
  datatype Cls = Cls(lower: bool, upper: bool, digit: bool, space: bool, extra: set<char>)

  predicate In(c: char, k: Cls) {
    (k.lower && IsLower(c)) || (k.upper && IsUpper(c)) || (k.digit && IsDigit(c)) ||
    (k.space && IsSpace(c)) || c in k.extra
  }

  datatype Assertion = WordBoundary | NotAfterDigit | NotBeforeDigit | TextEnd

  predicate BoundaryAt(t: string, p: nat)
    requires p <= |t|
  {
    (p > 0 && IsWord(t[p - 1])) != (p < |t| && IsWord(t[p]))
  }

  predicate Holds(a: Assertion, t: string, p: nat)
    requires p <= |t|
  {
    match a
    case WordBoundary => BoundaryAt(t, p)
    case NotAfterDigit => p == 0 || !IsDigit(t[p - 1])
    case NotBeforeDigit => p == |t| || !IsDigit(t[p])
    case TextEnd => p == |t| || (p == |t| - 1 && t[p] == '\n')
  }

  datatype Bound = Upto(n: nat) | Unbounded

  /** The bound left for the iterations after the first. */
  function Less(b: Bound): Bound {
    match b
    case Upto(n) => Upto(if n == 0 then 0 else n - 1)
    case Unbounded => Unbounded
  }

  /** Literal text; no pattern modelled here has a literal bracket. */
  type Literal = s: string | forall p :: 0 <= p < |s| ==> s[p] != '[' && s[p] != ']'

  /** A case-insensitive literal, written in lower case. */
  type LowerLiteral = s: string | forall p :: 0 <= p < |s| ==> IsLower(s[p]) || s[p] == '_'

  datatype Re =
    | Text(s: Literal)
    | AnyCase(w: LowerLiteral)    // letters match in either case
    | One(k: Cls)
    | Cat(first: Re, second: Re)
    | Alt(left: Re, right: Re)
    | Rep(body: Re, lo: nat, hi: Bound)
    | Look(at: Assertion)

  predicate SameIgnoringCase(u: string, s: string)
  {
    |u| == |s| && forall p :: 0 <= p < |s| ==> Lower(u[p]) == s[p]
  }

  /** `r` may match exactly `t[i..j]` inside `t`. */
  ghost predicate Matches(r: Re, t: string, i: nat, j: nat)
    requires i <= j <= |t|
    decreases r, 0
  {
    match r
    case Text(s) => t[i..j] == s
    case AnyCase(s) => SameIgnoringCase(t[i..j], s)
    case One(k) => j == i + 1 && In(t[i], k)
    case Cat(a, b) => exists m :: i <= m <= j && Matches(a, t, i, m) && Matches(b, t, m, j)
    case Alt(a, b) => Matches(a, t, i, j) || Matches(b, t, i, j)
    case Rep(b, lo, hi) => Repeats(b, lo, hi, t, i, j)
    case Look(a) => i == j && Holds(a, t, i)
  }

  /** At least `lo` and at most `hi` non-empty matches of `b` in a row cover `t[i..j]`. */
  ghost predicate Repeats(b: Re, lo: nat, hi: Bound, t: string, i: nat, j: nat)
    requires i <= j <= |t|
    decreases b, 1 + j - i
  {
    (lo == 0 && i == j) ||
    (hi != Upto(0) &&
     exists m :: i < m <= j && Matches(b, t, i, m) &&
       Repeats(b, if lo == 0 then 0 else lo - 1, Less(hi), t, m, j))
  }

  /** Where the two parts of a match meet. */
  lemma SplitCat(a: Re, b: Re, t: string, i: nat, j: nat) returns (m: nat)
    requires i <= j <= |t| && Matches(Cat(a, b), t, i, j)
    ensures i <= m <= j && Matches(a, t, i, m) && Matches(b, t, m, j)
  {
    m :| i <= m <= j && Matches(a, t, i, m) && Matches(b, t, m, j);
  }

  /** Every end the engine would try for a match of `r` at `i`, in the order it tries them. */
  function Ends(r: Re, t: string, i: nat): (ends: seq<nat>)
    requires i <= |t|
    ensures forall j :: j in ends ==> i <= j <= |t|
    decreases r, 0, 0, 0
  {
    match r
    case Text(s) => if i + |s| <= |t| && t[i..i + |s|] == s then [i + |s|] else []
    case AnyCase(s) =>
      if i + |s| <= |t| && SameIgnoringCase(t[i..i + |s|], s) then [i + |s|] else []
    case One(k) => if i < |t| && In(t[i], k) then [i + 1] else []
    case Cat(a, b) => EndsFrom(b, t, i, Ends(a, t, i))
    case Alt(a, b) => Ends(a, t, i) + Ends(b, t, i)
    case Rep(b, lo, hi) => RepEnds(b, lo, hi, t, i)
    case Look(a) => if Holds(a, t, i) then [i] else []
  }

  function EndsFrom(r: Re, t: string, i: nat, from: seq<nat>): (ends: seq<nat>)
    requires forall k :: k in from ==> i <= k <= |t|
    ensures forall j :: j in ends ==> i <= j <= |t|
    decreases r, 0, 0, 1 + |from|
  {
    if from == [] then [] else
      assert from[0] in from && forall k :: k in from[1..] ==> k in from;
      Ends(r, t, from[0]) + EndsFrom(r, t, i, from[1..])
  }

  /** Greedy: one more iteration is tried before stopping. */
  function RepEnds(b: Re, lo: nat, hi: Bound, t: string, i: nat): (ends: seq<nat>)
    requires i <= |t|
    ensures forall j :: j in ends ==> i <= j <= |t|
    decreases b, 1 + |t| - i, 1, 0
  {
    (if hi == Upto(0) then [] else RepEndsFrom(b, lo, hi, t, i, Ends(b, t, i))) +
    (if lo == 0 then [i] else [])
  }

  function RepEndsFrom(b: Re, lo: nat, hi: Bound, t: string, i: nat, from: seq<nat>): (ends: seq<nat>)
    requires i <= |t| && forall k :: k in from ==> i <= k <= |t|
    ensures forall j :: j in ends ==> i <= j <= |t|
    decreases b, 1 + |t| - i, 0, |from|
  {
    if from == [] then [] else
      assert from[0] in from && forall k :: k in from[1..] ==> k in from;
      (if from[0] == i then [] else RepEnds(b, if lo == 0 then 0 else lo - 1, Less(hi), t, from[0])) +
      RepEndsFrom(b, lo, hi, t, i, from[1..])
  }

  lemma {:induction false} InEndsFrom(r: Re, t: string, i: nat, from: seq<nat>, j: nat)
    requires forall k :: k in from ==> i <= k <= |t|
    ensures j in EndsFrom(r, t, i, from) <==> exists k :: k in from && j in Ends(r, t, k)
    decreases from
  {
    if from != [] {
      assert from[0] in from;
      assert forall k :: k in from <==> k == from[0] || k in from[1..];
      InEndsFrom(r, t, i, from[1..], j);
      assert j in EndsFrom(r, t, i, from) <==> j in Ends(r, t, from[0]) || j in EndsFrom(r, t, i, from[1..]);
    }
  }

  lemma {:induction false} InRepEndsFrom(b: Re, lo: nat, hi: Bound, t: string, i: nat, from: seq<nat>, j: nat)
    requires i <= |t| && forall k :: k in from ==> i <= k <= |t|
    ensures j in RepEndsFrom(b, lo, hi, t, i, from) <==>
            exists k :: k in from && i < k && j in RepEnds(b, if lo == 0 then 0 else lo - 1, Less(hi), t, k)
    decreases from
  {
    if from != [] {
      assert from[0] in from;
      assert forall k :: k in from <==> k == from[0] || k in from[1..];
      InRepEndsFrom(b, lo, hi, t, i, from[1..], j);
      var lo' := if lo == 0 then 0 else lo - 1;
      assert j in RepEndsFrom(b, lo, hi, t, i, from) <==>
             (i < from[0] && j in RepEnds(b, lo', Less(hi), t, from[0])) ||
               j in RepEndsFrom(b, lo, hi, t, i, from[1..]);
    }
  }

  /** The engine tries exactly the ends the pattern may match. */
  lemma {:induction false} EndsAreMatches(r: Re, t: string, i: nat, j: nat)
    requires i <= j <= |t|
    ensures j in Ends(r, t, i) <==> Matches(r, t, i, j)
    decreases r, 0
  {
    match r
    case Text(s) =>
    case AnyCase(s) =>
    case One(k) =>
    case Cat(a, b) =>
      InEndsFrom(b, t, i, Ends(a, t, i), j);
      forall m | i <= m <= |t| ensures m in Ends(a, t, i) <==> Matches(a, t, i, m) {
        EndsAreMatches(a, t, i, m);
      }
      forall m | i <= m <= j ensures j in Ends(b, t, m) <==> Matches(b, t, m, j) {
        EndsAreMatches(b, t, m, j);
      }
    case Alt(a, b) =>
      EndsAreMatches(a, t, i, j);
      EndsAreMatches(b, t, i, j);
    case Rep(b, lo, hi) =>
      RepEndsAreRepeats(b, lo, hi, t, i, j);
    case Look(a) =>
  }

  lemma {:induction false} RepEndsAreRepeats(b: Re, lo: nat, hi: Bound, t: string, i: nat, j: nat)
    requires i <= j <= |t|
    ensures j in RepEnds(b, lo, hi, t, i) <==> Repeats(b, lo, hi, t, i, j)
    decreases b, 1 + j - i
  {
    var lo' := if lo == 0 then 0 else lo - 1;
    forall m | i < m <= j
      ensures m in Ends(b, t, i) <==> Matches(b, t, i, m)
      ensures j in RepEnds(b, lo', Less(hi), t, m) <==> Repeats(b, lo', Less(hi), t, m, j)
    {
      EndsAreMatches(b, t, i, m);
      RepEndsAreRepeats(b, lo', Less(hi), t, m, j);
    }
    RepEndsStep(b, lo, hi, t, i, j);
    assert forall m :: i < m <= j ==>
      (FirstIteration(b, lo, hi, t, i, m, j) <==> Matches(b, t, i, m) && Repeats(b, lo', Less(hi), t, m, j));
  }

  predicate FirstIteration(b: Re, lo: nat, hi: Bound, t: string, i: nat, m: nat, j: nat)
    requires i <= m <= |t|
  {
    m in Ends(b, t, i) && j in RepEnds(b, if lo == 0 then 0 else lo - 1, Less(hi), t, m)
  }

  /** The engine stops at `j` without an iteration, or after a first one. */
  lemma RepEndsStep(b: Re, lo: nat, hi: Bound, t: string, i: nat, j: nat)
    requires i <= j <= |t|
    ensures j in RepEnds(b, lo, hi, t, i) <==>
            (lo == 0 && j == i) || (hi != Upto(0) && exists m :: i < m <= j && FirstIteration(b, lo, hi, t, i, m, j))
  {
    InRepEndsFrom(b, lo, hi, t, i, Ends(b, t, i), j);
    if j in RepEndsFrom(b, lo, hi, t, i, Ends(b, t, i)) {
      var k :| k in Ends(b, t, i) && i < k && j in RepEnds(b, if lo == 0 then 0 else lo - 1, Less(hi), t, k);
      assert FirstIteration(b, lo, hi, t, i, k, j);
    }
    assert j in RepEnds(b, lo, hi, t, i) <==>
           (lo == 0 && j == i) || (hi != Upto(0) && j in RepEndsFrom(b, lo, hi, t, i, Ends(b, t, i)));
  }
}
