/** What literals, runs of a class and their concatenations match, in terms of characters. */
module RegexShapes {
  import opened Regex
  import opened Catalog

  ghost predicate AllIn(k: Cls, t: string, i: nat, j: nat)
    requires j <= |t|
  {
    forall p :: i <= p < j ==> In(t[p], k)
  }

  lemma CharAt(t: string, i: nat, j: nat, s: string, p: nat)
    requires i <= p < j <= |t| && t[i..j] == s
    ensures |s| == j - i && t[p] == s[p - i]
  {
    assert t[i..j][p - i] == t[p];
  }

  lemma {:induction false} ClassRun(k: Cls, lo: nat, hi: Bound, t: string, i: nat, j: nat)
    requires i <= j <= |t| && Repeats(One(k), lo, hi, t, i, j)
    ensures j - i >= lo && AllIn(k, t, i, j)
    decreases j - i
  {
    if i < j {
      var lo' := if lo == 0 then 0 else lo - 1;
      var m :| i < m <= j && Matches(One(k), t, i, m) && Repeats(One(k), lo', Less(hi), t, m, j);
      ClassRun(k, lo', Less(hi), t, m, j);
    }
  }

  lemma {:induction false} RunMatches(k: Cls, lo: nat, hi: Bound, t: string, i: nat, j: nat)
    requires i <= j <= |t| && AllIn(k, t, i, j) && lo <= j - i && (hi.Upto? ==> j - i <= hi.n)
    ensures Repeats(One(k), lo, hi, t, i, j)
    decreases j - i
  {
    if i < j {
      RunMatches(k, if lo == 0 then 0 else lo - 1, Less(hi), t, i + 1, j);
      assert Matches(One(k), t, i, i + 1);
    }
  }

  lemma MakeCat(a: Re, b: Re, t: string, i: nat, m: nat, j: nat)
    requires i <= m <= j <= |t| && Matches(a, t, i, m) && Matches(b, t, m, j)
    ensures Matches(Cat(a, b), t, i, j)
  {
  }

  lemma SplitText(s: Literal, b: Re, t: string, i: nat, j: nat)
    requires i <= j <= |t| && Matches(Cat(Text(s), b), t, i, j)
    ensures i + |s| <= j && t[i..i + |s|] == s && Matches(b, t, i + |s|, j)
  {
    var m :| i <= m <= j && Matches(Text(s), t, i, m) && Matches(b, t, m, j);
    assert t[i..m] == s;
  }

  lemma SplitRun(k: Cls, n: nat, b: Re, t: string, i: nat, j: nat) returns (m: nat)
    requires i <= j <= |t| && Matches(Cat(AtLeast(k, n), b), t, i, j)
    ensures i + n <= m <= j && AllIn(k, t, i, m) && Matches(b, t, m, j)
  {
    m :| i <= m <= j && Matches(AtLeast(k, n), t, i, m) && Matches(b, t, m, j);
    ClassRun(k, n, Unbounded, t, i, m);
  }

  lemma SplitBounded(body: Re, t: string, i: nat, j: nat)
    requires i <= j <= |t| && Matches(Bounded(body), t, i, j)
    ensures BoundaryAt(t, i) && Matches(body, t, i, j) && BoundaryAt(t, j)
  {
    var m := SplitCat(B, Cat(body, B), t, i, j);
    var k := SplitCat(body, B, t, m, j);
  }

  lemma MakeBounded(body: Re, t: string, i: nat, j: nat)
    requires i <= j <= |t| && BoundaryAt(t, i) && Matches(body, t, i, j) && BoundaryAt(t, j)
    ensures Matches(Bounded(body), t, i, j)
  {
    assert Matches(B, t, i, i) && Matches(B, t, j, j);
    assert Matches(Cat(body, B), t, i, j);
  }

  // ---------- Both ways ----------

  lemma {:induction false} RunIsShort(k: Cls, lo: nat, n: nat, t: string, i: nat, j: nat)
    requires i <= j <= |t| && Repeats(One(k), lo, Upto(n), t, i, j)
    ensures j - i <= n
    decreases j - i
  {
    if i < j {
      var lo' := if lo == 0 then 0 else lo - 1;
      var m :| i < m <= j && Matches(One(k), t, i, m) && Repeats(One(k), lo', Less(Upto(n)), t, m, j);
      RunIsShort(k, lo', if n == 0 then 0 else n - 1, t, m, j);
    }
  }

  lemma RunExactly(k: Cls, lo: nat, hi: Bound, t: string, i: nat, j: nat)
    requires i <= j <= |t|
    ensures Matches(Rep(One(k), lo, hi), t, i, j) <==>
            lo <= j - i && (hi.Upto? ==> j - i <= hi.n) && AllIn(k, t, i, j)
  {
    if Repeats(One(k), lo, hi, t, i, j) {
      ClassRun(k, lo, hi, t, i, j);
      if hi.Upto? { RunIsShort(k, lo, hi.n, t, i, j); }
    }
    if lo <= j - i && (hi.Upto? ==> j - i <= hi.n) && AllIn(k, t, i, j) { RunMatches(k, lo, hi, t, i, j); }
  }

  lemma TextFirst(s: Literal, b: Re, t: string, i: nat, j: nat)
    requires i <= j <= |t|
    ensures Matches(Cat(Text(s), b), t, i, j) <==>
            i + |s| <= j && t[i..i + |s|] == s && Matches(b, t, i + |s|, j)
  {
    if Matches(Cat(Text(s), b), t, i, j) { SplitText(s, b, t, i, j); }
    if i + |s| <= j && t[i..i + |s|] == s && Matches(b, t, i + |s|, j) { MakeCat(Text(s), b, t, i, i + |s|, j); }
  }

  lemma CharFirst(k: Cls, b: Re, t: string, i: nat, j: nat)
    requires i <= j <= |t|
    ensures Matches(Cat(One(k), b), t, i, j) <==> i < j && In(t[i], k) && Matches(b, t, i + 1, j)
  {
    if Matches(Cat(One(k), b), t, i, j) { var m := SplitCat(One(k), b, t, i, j); }
    if i < j && In(t[i], k) && Matches(b, t, i + 1, j) { MakeCat(One(k), b, t, i, i + 1, j); }
  }

  /** A run of exactly `n`. */
  lemma TimesFirst(k: Cls, n: nat, b: Re, t: string, i: nat, j: nat)
    requires i <= j <= |t|
    ensures Matches(Cat(Times(k, n), b), t, i, j) <==>
            i + n <= j && AllIn(k, t, i, i + n) && Matches(b, t, i + n, j)
  {
    if Matches(Cat(Times(k, n), b), t, i, j) {
      var m := SplitCat(Times(k, n), b, t, i, j);
      RunExactly(k, n, Upto(n), t, i, m);
    }
    if i + n <= j && AllIn(k, t, i, i + n) && Matches(b, t, i + n, j) {
      RunExactly(k, n, Upto(n), t, i, i + n);
      MakeCat(Times(k, n), b, t, i, i + n, j);
    }
  }

  /** A run of any allowed length, up to some place. */
  lemma RunFirst(k: Cls, lo: nat, hi: Bound, b: Re, t: string, i: nat, j: nat)
    requires i <= j <= |t|
    ensures Matches(Cat(Rep(One(k), lo, hi), b), t, i, j) <==>
            exists m :: i + lo <= m <= j && (hi.Upto? ==> m - i <= hi.n) && AllIn(k, t, i, m) && Matches(b, t, m, j)
  {
    if Matches(Cat(Rep(One(k), lo, hi), b), t, i, j) {
      var m := SplitCat(Rep(One(k), lo, hi), b, t, i, j);
      RunExactly(k, lo, hi, t, i, m);
    }
    if m :| i + lo <= m <= j && (hi.Upto? ==> m - i <= hi.n) && AllIn(k, t, i, m) && Matches(b, t, m, j) {
      RunExactly(k, lo, hi, t, i, m);
      MakeCat(Rep(One(k), lo, hi), b, t, i, m, j);
    }
  }

  /** Nothing, or one character of a class. */
  lemma GapFirst(k: Cls, b: Re, t: string, i: nat, j: nat)
    requires i <= j <= |t|
    ensures Matches(Cat(Optional(One(k)), b), t, i, j) <==>
            Matches(b, t, i, j) || (i < j && In(t[i], k) && Matches(b, t, i + 1, j))
  {
    RunFirst(k, 0, Upto(1), b, t, i, j);
    if i < j && In(t[i], k) && Matches(b, t, i + 1, j) { assert AllIn(k, t, i, i + 1); }
    if Matches(b, t, i, j) { assert AllIn(k, t, i, i); }
  }

  lemma BoundedExactly(body: Re, t: string, i: nat, j: nat)
    requires i <= j <= |t|
    ensures Matches(Bounded(body), t, i, j) <==> BoundaryAt(t, i) && Matches(body, t, i, j) && BoundaryAt(t, j)
  {
    if Matches(Bounded(body), t, i, j) { SplitBounded(body, t, i, j); }
    if BoundaryAt(t, i) && Matches(body, t, i, j) && BoundaryAt(t, j) { MakeBounded(body, t, i, j); }
  }

  lemma WordFirst(w: LowerLiteral, b: Re, t: string, i: nat, j: nat)
    requires i <= j <= |t|
    ensures Matches(Cat(AnyCase(w), b), t, i, j) <==>
            i + |w| <= j && SameIgnoringCase(t[i..i + |w|], w) && Matches(b, t, i + |w|, j)
  {
    if Matches(Cat(AnyCase(w), b), t, i, j) {
      var m := SplitCat(AnyCase(w), b, t, i, j);
      assert |t[i..m]| == m - i;
    }
    if i + |w| <= j && SameIgnoringCase(t[i..i + |w|], w) && Matches(b, t, i + |w|, j) {
      MakeCat(AnyCase(w), b, t, i, i + |w|, j);
    }
  }

  lemma EitherFirst(a: Re, b: Re, c: Re, t: string, i: nat, j: nat)
    requires i <= j <= |t|
    ensures Matches(Cat(Alt(a, b), c), t, i, j) <==> Matches(Cat(a, c), t, i, j) || Matches(Cat(b, c), t, i, j)
  {
    if Matches(Cat(Alt(a, b), c), t, i, j) {
      var m := SplitCat(Alt(a, b), c, t, i, j);
      if Matches(a, t, i, m) { MakeCat(a, c, t, i, m, j); } else { MakeCat(b, c, t, i, m, j); }
    }
    if Matches(Cat(a, c), t, i, j) {
      var m := SplitCat(a, c, t, i, j);
      MakeCat(Alt(a, b), c, t, i, m, j);
    }
    if Matches(Cat(b, c), t, i, j) {
      var m := SplitCat(b, c, t, i, j);
      MakeCat(Alt(a, b), c, t, i, m, j);
    }
  }

  lemma PairFirst(a: Re, b: Re, c: Re, t: string, i: nat, j: nat)
    requires i <= j <= |t|
    ensures Matches(Cat(Cat(a, b), c), t, i, j) <==> Matches(Cat(a, Cat(b, c)), t, i, j)
  {
    if Matches(Cat(Cat(a, b), c), t, i, j) { PairRight(a, b, c, t, i, j); }
    if Matches(Cat(a, Cat(b, c)), t, i, j) { PairLeft(a, b, c, t, i, j); }
  }

  lemma PairRight(a: Re, b: Re, c: Re, t: string, i: nat, j: nat)
    requires i <= j <= |t| && Matches(Cat(Cat(a, b), c), t, i, j)
    ensures Matches(Cat(a, Cat(b, c)), t, i, j)
  {
    var m := SplitCat(Cat(a, b), c, t, i, j);
    var k := SplitCat(a, b, t, i, m);
    MakeCat(b, c, t, k, m, j);
    MakeCat(a, Cat(b, c), t, i, k, j);
  }

  lemma PairLeft(a: Re, b: Re, c: Re, t: string, i: nat, j: nat)
    requires i <= j <= |t| && Matches(Cat(a, Cat(b, c)), t, i, j)
    ensures Matches(Cat(Cat(a, b), c), t, i, j)
  {
    var k := SplitCat(a, Cat(b, c), t, i, j);
    var m := SplitCat(b, c, t, k, j);
    MakeCat(a, b, t, i, k, m);
    MakeCat(Cat(a, b), c, t, i, m, j);
  }

  /** Once or not at all. */
  lemma OptionalFirst(a: Re, b: Re, t: string, i: nat, j: nat)
    requires i <= j <= |t|
    ensures Matches(Cat(Optional(a), b), t, i, j) <==>
            Matches(b, t, i, j) || exists m :: i < m <= j && Matches(a, t, i, m) && Matches(b, t, m, j)
  {
    if Matches(Cat(Optional(a), b), t, i, j) {
      var m := SplitCat(Optional(a), b, t, i, j);
      OptionalExactly(a, t, i, m);
    }
    if Matches(b, t, i, j) {
      OptionalExactly(a, t, i, i);
      MakeCat(Optional(a), b, t, i, i, j);
    }
    if m :| i < m <= j && Matches(a, t, i, m) && Matches(b, t, m, j) {
      OptionalExactly(a, t, i, m);
      MakeCat(Optional(a), b, t, i, m, j);
    }
  }

  lemma OptionalExactly(a: Re, t: string, i: nat, j: nat)
    requires i <= j <= |t|
    ensures Matches(Optional(a), t, i, j) <==> i == j || (i < j && Matches(a, t, i, j))
  {
    OnceExactly(a, 0, Upto(1), t, i, j);
  }

  lemma OnceExactly(a: Re, lo: nat, hi: Bound, t: string, i: nat, j: nat)
    requires i <= j <= |t| && lo == 0 && hi == Upto(1)
    ensures Repeats(a, lo, hi, t, i, j) <==> i == j || (i < j && Matches(a, t, i, j))
  {
    if Repeats(a, lo, hi, t, i, j) && i < j { JustOnce(a, lo, hi, t, i, j); }
    if i < j && Matches(a, t, i, j) {
      var lo' := if lo == 0 then 0 else lo - 1;
      assert Repeats(a, lo', Less(hi), t, j, j);
    }
  }

  lemma JustOnce(a: Re, lo: nat, hi: Bound, t: string, i: nat, j: nat)
    requires i < j <= |t| && hi == Upto(1) && Repeats(a, lo, hi, t, i, j)
    ensures Matches(a, t, i, j)
  {
    var lo' := if lo == 0 then 0 else lo - 1;
    var m :| i < m <= j && Matches(a, t, i, m) && Repeats(a, lo', Less(hi), t, m, j);
  }

  lemma LookFirst(a: Assertion, b: Re, t: string, i: nat, j: nat)
    requires i <= j <= |t|
    ensures Matches(Cat(Look(a), b), t, i, j) <==> Holds(a, t, i) && Matches(b, t, i, j)
  {
    if Matches(Cat(Look(a), b), t, i, j) { var m := SplitCat(Look(a), b, t, i, j); }
    if Holds(a, t, i) && Matches(b, t, i, j) { MakeCat(Look(a), b, t, i, i, j); }
  }

  lemma LookLast(a: Re, b: Assertion, t: string, i: nat, j: nat)
    requires i <= j <= |t|
    ensures Matches(Cat(a, Look(b)), t, i, j) <==> Matches(a, t, i, j) && Holds(b, t, j)
  {
    if Matches(Cat(a, Look(b)), t, i, j) { var m := SplitCat(a, Look(b), t, i, j); }
    if Matches(a, t, i, j) && Holds(b, t, j) { MakeCat(a, Look(b), t, i, j, j); }
  }
}
