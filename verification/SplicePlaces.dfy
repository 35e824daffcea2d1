/** Which pieces of a text are still there after some spans are replaced, and what stands around them. */
module SplicePlaces {
  import opened Splice

  ghost predicate NonEmpty(cuts: seq<(nat, nat)>) {
    forall c :: c in cuts ==> c.0 < c.1
  }

  /** No span touches `t[p..q]`. */
  ghost predicate Untouched(cuts: seq<(nat, nat)>, p: nat, q: nat) {
    forall c :: c in cuts ==> c.1 <= p || q <= c.0
  }

  /** What stands in front of `t[p]` in the output: the end of a placeholder, what stood there, or nothing. */
  ghost predicate Before(t: string, i: nat, cuts: seq<(nat, nat)>, out: string, p: nat, a: nat) {
    i <= p <= |t| && a <= |out| &&
    if CutEnd(cuts, p) then a > 0 && out[a - 1] == ']'
    else if p == i then a == 0
    else a > 0 && out[a - 1] == t[p - 1]
  }

  /** What stands behind `t[..q]`. */
  ghost predicate Behind(t: string, cuts: seq<(nat, nat)>, out: string, q: nat, b: nat) {
    q <= |t| && b <= |out| &&
    if CutStart(cuts, q) then b < |out| && out[b] == '['
    else if q == |t| then b == |out|
    else b < |out| && out[b] == t[q]
  }

  /** The untouched piece `t[p..q]` stands at `out[a..b]`, between what should stand around it. */
  ghost predicate Placed(t: string, i: nat, cuts: seq<(nat, nat)>, out: string, p: nat, q: nat, a: nat, b: nat) {
    i <= p < q <= |t| && a < b <= |out| && out[a..b] == t[p..q] && Untouched(cuts, p, q) &&
    Before(t, i, cuts, out, p, a) && Behind(t, cuts, out, q, b)
  }

  // ---------- One span at a time ----------

  lemma PlacedUncut(t: string, i: nat, p: nat, q: nat)
    requires i <= p < q <= |t|
    ensures Placed(t, i, [], t[i..], p, q, p - i, q - i)
  {
    assert t[i..][p - i..q - i] == t[p..q];
  }

  lemma {:induction false} StartsFrom(cuts: seq<(nat, nat)>, i: nat, n: nat)
    requires Ordered(cuts, i, n) && NonEmpty(cuts)
    ensures forall c :: c in cuts ==> i <= c.0 < c.1 <= n
    ensures forall c :: c in cuts ==> c == cuts[0] || cuts[0].1 <= c.0
    decreases cuts
  {
    if cuts != [] {
      assert cuts[0] in cuts && forall c :: c in cuts[1..] ==> c in cuts;
      StartsFrom(cuts[1..], cuts[0].1, n);
      assert forall c :: c in cuts ==> c == cuts[0] || c in cuts[1..];
      OrderedEnds(cuts, i, n);
    }
  }

  lemma OrderedEnds(cuts: seq<(nat, nat)>, i: nat, n: nat)
    requires Ordered(cuts, i, n) && cuts != []
    ensures i <= cuts[0].0 && cuts[0].1 <= n
  {
  }

  /** In front of the first span. */
  lemma PlacedBefore(t: string, i: nat, cuts: seq<(nat, nat)>, out: string, p: nat, q: nat)
    requires cuts != [] && Ordered(cuts, i, |t|) && NonEmpty(cuts) && i <= p < q <= cuts[0].0
    requires cuts[0].0 - i < |out| && out[..cuts[0].0 - i] == t[i..cuts[0].0] && out[cuts[0].0 - i] == '['
    ensures Placed(t, i, cuts, out, p, q, p - i, q - i)
  {
    var h := cuts[0].0 - i;
    StartsFrom(cuts, i, |t|);
    assert cuts[0] in cuts;
    Subslice(out, 0, h, p - i, q - i);
    Subslice(t, i, h, p - i, q - i);
    assert out[0..h] == out[..h];
    if p > i { assert out[p - i - 1] == out[..h][p - i - 1] == t[i..cuts[0].0][p - i - 1]; }
    if q < cuts[0].0 { assert out[q - i] == out[..h][q - i] == t[i..cuts[0].0][q - i]; }
  }

  /** Behind the first span. */
  lemma PlacedBeyond(t: string, i: nat, cuts: seq<(nat, nat)>, out: string, h: nat, rest: string,
                     p: nat, q: nat, a: nat, b: nat)
    requires cuts != [] && Ordered(cuts, i, |t|) && NonEmpty(cuts)
    requires 0 < h <= |out| && out[h - 1] == ']' && out[h..] == rest
    requires Placed(t, cuts[0].1, cuts[1..], rest, p, q, a, b)
    ensures Placed(t, i, cuts, out, p, q, a + h, b + h)
  {
    SameCuts(cuts, i, |t|, p, q);
    Subslice(out, h, |out| - h, a, b);
    assert out[h..|out|] == rest;
    if a > 0 { assert out[a + h - 1] == rest[a - 1]; }
    if b < |rest| { assert out[b + h] == rest[b]; }
  }

  lemma SameCuts(cuts: seq<(nat, nat)>, i: nat, n: nat, p: nat, q: nat)
    requires cuts != [] && Ordered(cuts, i, n) && NonEmpty(cuts) && cuts[0].1 <= p < q
    ensures CutEnd(cuts, p) <==> p == cuts[0].1 || CutEnd(cuts[1..], p)
    ensures CutStart(cuts, q) <==> CutStart(cuts[1..], q)
    ensures Untouched(cuts, p, q) <==> Untouched(cuts[1..], p, q)
  {
    assert cuts[0] in cuts && forall c :: c in cuts <==> c == cuts[0] || c in cuts[1..];
  }

  // ---------- Both ways ----------

  /** An untouched piece is still there. */
  lemma {:induction false} KeepPlace(t: string, i: nat, cuts: seq<(nat, nat)>, s: string, p: nat, q: nat)
    returns (a: nat, b: nat)
    requires Ordered(cuts, i, |t|) && Bracketed(s) && NonEmpty(cuts)
    requires i <= p < q <= |t| && Untouched(cuts, p, q)
    ensures Placed(t, i, cuts, Spliced(t, i, cuts, s), p, q, a, b)
    decreases cuts
  {
    if cuts == [] {
      a, b := p - i, q - i;
      PlacedUncut(t, i, p, q);
      return;
    }
    var out := Spliced(t, i, cuts, s);
    SpliceParts(t, i, cuts, s);
    assert cuts[0] in cuts;
    if q <= cuts[0].0 {
      a, b := p - i, q - i;
      PlacedBefore(t, i, cuts, out, p, q);
    } else {
      a, b := KeepBeyond(t, i, cuts, s, cuts[0].0 - i + |s|, out, p, q);
    }
  }

  lemma {:induction false} KeepBeyond(t: string, i: nat, cuts: seq<(nat, nat)>, s: string, h: nat, out: string,
                                      p: nat, q: nat)
    returns (a: nat, b: nat)
    requires cuts != [] && Ordered(cuts, i, |t|) && Bracketed(s) && NonEmpty(cuts)
    requires cuts[0].1 <= p < q <= |t| && Untouched(cuts, p, q)
    requires 0 < h <= |out| && out[h..] == Spliced(t, cuts[0].1, cuts[1..], s) && out[h - 1] == ']'
    ensures Placed(t, i, cuts, out, p, q, a, b)
    decreases cuts, 0
  {
    SameCuts(cuts, i, |t|, p, q);
    assert forall c :: c in cuts[1..] ==> c in cuts;
    a, b := KeepPlace(t, cuts[0].1, cuts[1..], s, p, q);
    PlacedBeyond(t, i, cuts, out, h, out[h..], p, q, a, b);
    a, b := a + h, b + h;
  }

  /** The piece is no part of a placeholder. */
  ghost predicate Own(out: string, a: nat, b: nat, s: string) {
    a < b <= |out| && NoBrackets(out[a..b]) && Leaves(out[a..b], s)
  }

  lemma OwnBehind(out: string, h: nat, rest: string, a: nat, b: nat, s: string)
    requires h <= |out| && out[h..] == rest && Own(out, a + h, b + h, s)
    ensures Own(rest, a, b, s)
  {
    Subslice(out, h, |out| - h, a, b);
    assert out[h..|out|] == rest;
  }

  /** A piece of the output that is no part of a placeholder was there before, untouched. */
  lemma {:induction false} OriginPlace(t: string, i: nat, cuts: seq<(nat, nat)>, s: string, a: nat, b: nat)
    returns (p: nat, q: nat)
    requires Ordered(cuts, i, |t|) && Bracketed(s) && NonEmpty(cuts) && Own(Spliced(t, i, cuts, s), a, b, s)
    ensures Placed(t, i, cuts, Spliced(t, i, cuts, s), p, q, a, b)
    decreases cuts
  {
    var out := Spliced(t, i, cuts, s);
    if cuts == [] {
      p, q := i + a, i + b;
      PlacedUncut(t, i, p, q);
      return;
    }
    SpliceParts(t, i, cuts, s);
    p, q := OriginCut(t, i, cuts, s, out, cuts[0].0 - i, a, b);
  }

  /** The first span is at `h` in the output. */
  lemma {:induction false} OriginCut(t: string, i: nat, cuts: seq<(nat, nat)>, s: string, out: string, h: nat,
                                     a: nat, b: nat)
    returns (p: nat, q: nat)
    requires cuts != [] && Ordered(cuts, i, |t|) && Bracketed(s) && NonEmpty(cuts) && Own(out, a, b, s)
    requires h == cuts[0].0 - i && h + |s| <= |out| && out[..h] == t[i..cuts[0].0] && out[h..h + |s|] == s
    requires out[h] == '[' && out[h + |s| - 1] == ']' && out[h + |s|..] == Spliced(t, cuts[0].1, cuts[1..], s)
    ensures Placed(t, i, cuts, out, p, q, a, b)
    decreases cuts, 1
  {
    if a < h {
      p, q := i + a, i + b;
      OriginBefore(t, i, cuts, out, s, a, b);
    } else {
      var k := h + |s|;
      BehindPlaceholder(out, s, h, a, b);
      p, q := OriginBeyond(t, i, cuts, s, k, out, a - k, b - k);
    }
  }

  lemma OriginBefore(t: string, i: nat, cuts: seq<(nat, nat)>, out: string, s: string, a: nat, b: nat)
    requires cuts != [] && Ordered(cuts, i, |t|) && NonEmpty(cuts) && Own(out, a, b, s) && a < cuts[0].0 - i
    requires cuts[0].0 - i < |out| && out[..cuts[0].0 - i] == t[i..cuts[0].0] && out[cuts[0].0 - i] == '['
    ensures Placed(t, i, cuts, out, i + a, i + b, a, b)
  {
    BracketBounds(out, a, b, cuts[0].0 - i);
    PlacedBefore(t, i, cuts, out, i + a, i + b);
  }

  lemma BehindPlaceholder(out: string, s: string, h: nat, a: nat, b: nat)
    requires Bracketed(s) && h <= a && h + |s| <= |out| && out[h..h + |s|] == s && Own(out, a, b, s)
    ensures h + |s| <= a
  {
    if a < h + |s| { InPlaceholder(out, s, h, a, b); }
  }

  /** Behind the first span; places count from there. */
  lemma {:induction false} OriginBeyond(t: string, i: nat, cuts: seq<(nat, nat)>, s: string, h: nat, out: string,
                                        a: nat, b: nat)
    returns (p: nat, q: nat)
    requires cuts != [] && Ordered(cuts, i, |t|) && Bracketed(s) && NonEmpty(cuts)
    requires 0 < h <= |out| && out[h - 1] == ']' && Own(out, a + h, b + h, s)
    requires out[h..] == Spliced(t, cuts[0].1, cuts[1..], s)
    ensures Placed(t, i, cuts, out, p, q, a + h, b + h)
    decreases cuts, 0
  {
    var rest := out[h..];
    OwnBehind(out, h, rest, a, b, s);
    assert forall c :: c in cuts[1..] ==> c in cuts;
    p, q := OriginPlace(t, cuts[0].1, cuts[1..], s, a, b);
    PlacedBeyond(t, i, cuts, out, h, rest, p, q, a, b);
  }
}
