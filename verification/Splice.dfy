/**
 Replacing some spans of a text by one bracketed placeholder, and finding a piece of the
 resulting text again in the text it came from.
 */
module Splice {

  predicate Ordered(cuts: seq<(nat, nat)>, i: nat, n: nat)
    decreases cuts
  {
    if cuts == [] then i <= n
    else i <= cuts[0].0 <= cuts[0].1 <= n && Ordered(cuts[1..], cuts[0].1, n)
  }

  /** `t[i..]` with every span of `cuts` replaced by `s`. */
  function Spliced(t: string, i: nat, cuts: seq<(nat, nat)>, s: string): string
    requires Ordered(cuts, i, |t|)
    decreases cuts
  {
    if cuts == [] then t[i..]
    else t[i..cuts[0].0] + s + Spliced(t, cuts[0].1, cuts[1..], s)
  }

  const Brackets: set<char> := {'[', ']'}

  predicate Bracketed(s: string) {
    |s| >= 2 && s[0] == '[' && s[|s| - 1] == ']'
  }

  predicate NoBrackets(u: string) {
    forall p :: 0 <= p < |u| ==> u[p] !in Brackets
  }

  /** Some character of `u` does not occur in `s`. */
  predicate Leaves(u: string, s: string) {
    exists p :: 0 <= p < |u| && u[p] !in s
  }

  ghost predicate CutStart(cuts: seq<(nat, nat)>, p: nat) {
    exists c :: c in cuts && c.0 == p
  }

  ghost predicate CutEnd(cuts: seq<(nat, nat)>, p: nat) {
    exists c :: c in cuts && c.1 == p
  }

  ghost predicate Inside(cuts: seq<(nat, nat)>, p: nat) {
    exists c :: c in cuts && c.0 <= p < c.1
  }

  /** The `n` characters before `out[a]` are those before `t[p]`, back to a cut or to `i`. */
  ghost predicate SameBack(t: string, i: nat, cuts: seq<(nat, nat)>, out: string, a: nat, p: nat, n: nat) {
    n <= a <= |out| && n <= p <= |t| && out[a - n..a] == t[p - n..p] &&
    if n < a then out[a - n - 1] == ']' && CutEnd(cuts, p - n) else p - n == i
  }

  /** What follows `out[..b]` is what follows `t[..p]`, or a placeholder cut in there. */
  ghost predicate SameNext(t: string, cuts: seq<(nat, nat)>, out: string, b: nat, p: nat) {
    b <= |out| && p <= |t| &&
    if b == |out| then p == |t| else (p < |t| && out[b] == t[p]) || (out[b] == '[' && CutStart(cuts, p))
  }

  /** What `Locate` finds: `t[p..]` holds the piece `out[a..b]`, with the same surroundings. */
  ghost predicate Found(t: string, i: nat, cuts: seq<(nat, nat)>, out: string, a: nat, b: nat, p: nat, n: nat) {
    a < b <= |out| && i <= p && p + (b - a) <= |t| && out[a..b] == t[p..p + (b - a)] &&
    SameBack(t, i, cuts, out, a, p, n) && SameNext(t, cuts, out, b, p + (b - a)) && !Inside(cuts, p)
  }

  lemma SpliceParts(t: string, i: nat, cuts: seq<(nat, nat)>, s: string)
    requires Ordered(cuts, i, |t|) && Bracketed(s) && cuts != []
    ensures var out := Spliced(t, i, cuts, s);
            var h := cuts[0].0 - i;
            h + |s| <= |out| && out[..h] == t[i..cuts[0].0] && out[h..h + |s|] == s &&
            out[h + |s|..] == Spliced(t, cuts[0].1, cuts[1..], s) &&
            out[h] == '[' && out[h + |s| - 1] == ']'
  {
    var out := Spliced(t, i, cuts, s);
    var h := cuts[0].0 - i;
    assert out == t[i..cuts[0].0] + s + Spliced(t, cuts[0].1, cuts[1..], s);
    assert out[h..h + |s|] == s;
    assert out[h] == s[0] && out[h + |s| - 1] == s[|s| - 1];
  }

  /** Bracket-free output that is not part of a placeholder is uncut input. */
  lemma {:induction false} Locate(t: string, i: nat, cuts: seq<(nat, nat)>, s: string, a: nat, b: nat)
    returns (p: nat, n: nat)
    requires Ordered(cuts, i, |t|) && Bracketed(s)
    requires a < b <= |Spliced(t, i, cuts, s)|
    requires NoBrackets(Spliced(t, i, cuts, s)[a..b]) && Leaves(Spliced(t, i, cuts, s)[a..b], s)
    ensures Found(t, i, cuts, Spliced(t, i, cuts, s), a, b, p, n)
    decreases cuts
  {
    var out := Spliced(t, i, cuts, s);
    if cuts == [] {
      p, n := i + a, a;
      LocateUncut(t, i, a, b);
      return;
    }
    SpliceParts(t, i, cuts, s);
    var h := cuts[0].0 - i;
    if a < h {
      p, n := i + a, a;
      LocateBefore(t, i, cuts, out, a, b);
    } else if a < h + |s| {
      InPlaceholder(out, s, h, a, b);
    } else {
      p, n := LocateBeyond(t, i, cuts, s, h + |s|, out, a, b);
    }
  }

  lemma LocateUncut(t: string, i: nat, a: nat, b: nat)
    requires i <= |t| && a < b <= |t| - i
    ensures Found(t, i, [], t[i..], a, b, i + a, a)
  {
    assert t[i..][a..b] == t[i + a..i + b] && t[i..][..a] == t[i..i + a];
  }

  lemma {:induction false} LocateBeyond(t: string, i: nat, cuts: seq<(nat, nat)>, s: string, h: nat, out: string,
                                        a: nat, b: nat)
    returns (p: nat, n: nat)
    requires cuts != [] && Ordered(cuts, i, |t|) && Bracketed(s)
    requires 0 < h <= a < b <= |out| && NoBrackets(out[a..b]) && Leaves(out[a..b], s)
    requires out[h..] == Spliced(t, cuts[0].1, cuts[1..], s) && out[h - 1] == ']'
    ensures Found(t, i, cuts, out, a, b, p, n)
    decreases cuts, 0
  {
    Subslice(out, h, |out| - h, a - h, b - h);
    assert out[h..|out|] == out[h..];
    p, n := Locate(t, cuts[0].1, cuts[1..], s, a - h, b - h);
    LocateAfter(t, i, cuts, out, out[h..], h, a, b, p, n);
  }

  lemma Subslice(t: string, i: nat, n: nat, u: nat, v: nat)
    requires i + n <= |t| && u <= v <= n
    ensures t[i + u..i + v] == t[i..i + n][u..v]
  {
    var x, y := t[i + u..i + v], t[i..i + n][u..v];
    assert |x| == |y| && forall k :: 0 <= k < |x| ==> x[k] == t[i + u + k] == y[k];
  }

  lemma LocateBefore(t: string, i: nat, cuts: seq<(nat, nat)>, out: string, a: nat, b: nat)
    requires cuts != [] && Ordered(cuts, i, |t|)
    requires a < b <= |out| && NoBrackets(out[a..b])
    requires a < cuts[0].0 - i < |out| && out[..cuts[0].0 - i] == t[i..cuts[0].0] && out[cuts[0].0 - i] == '['
    ensures Found(t, i, cuts, out, a, b, i + a, a)
  {
    var h, p := cuts[0].0 - i, i + a;
    BracketBounds(out, a, b, h);
    OrderedBelow(cuts, i, |t|, p);
    Subslice(out, 0, h, a, b);
    Subslice(t, i, h, a, b);
    Subslice(out, 0, h, 0, a);
    Subslice(t, i, h, 0, a);
    assert out[..h] == out[0..h] && out[..a] == out[0..a];
    assert cuts[0] in cuts;
    if b < h { assert out[b] == out[..h][b]; }
  }

  lemma LocateAfter(t: string, i: nat, cuts: seq<(nat, nat)>, out: string, rest: string, h: nat, a: nat, b: nat,
                    p: nat, n: nat)
    requires cuts != [] && 0 < h <= |out| && out[h..] == rest && out[h - 1] == ']' && h <= a < b
    requires i <= cuts[0].0 <= cuts[0].1
    requires Found(t, cuts[0].1, cuts[1..], rest, a - h, b - h, p, n)
    ensures Found(t, i, cuts, out, a, b, p, n)
  {
    assert forall d :: d in cuts <==> d == cuts[0] || d in cuts[1..];
    Subslice(out, h, |out| - h, a - h, b - h);
    Subslice(out, h, |out| - h, a - h - n, a - h);
    assert out[h..|out|] == rest;
    if n < a - h { assert out[a - n - 1] == rest[a - h - n - 1]; }
    if b < |out| { assert out[b] == rest[b - h]; }
  }

  lemma BracketBounds(out: string, a: nat, b: nat, h: nat)
    requires a <= b <= |out| && a <= h < |out| && out[h] in Brackets
    ensures NoBrackets(out[a..b]) ==> b <= h
  {
    if h < b {
      assert out[a..b][h - a] == out[h];
    }
  }

  lemma InPlaceholder(out: string, s: string, h: nat, a: nat, b: nat)
    requires Bracketed(s) && h <= a < b <= |out| && a < h + |s| <= |out| && out[h..h + |s|] == s
    ensures !NoBrackets(out[a..b]) || !Leaves(out[a..b], s)
  {
    var last := h + |s| - 1;
    assert out[last] == out[h..h + |s|][|s| - 1] == ']';
    if b > last {
      BracketBounds(out, a, b, last);
    } else {
      forall k | 0 <= k < b - a ensures out[a..b][k] in s {
        assert out[a..b][k] == out[h..h + |s|][a + k - h] == s[a + k - h];
      }
    }
  }

  lemma {:induction false} OrderedBelow(cuts: seq<(nat, nat)>, i: nat, n: nat, p: nat)
    requires Ordered(cuts, i, n) && (cuts != [] ==> p < cuts[0].0)
    ensures !Inside(cuts, p)
    decreases cuts
  {
    if |cuts| > 1 {
      OrderedBelow(cuts[1..], cuts[0].1, n, p);
      assert forall d :: d in cuts ==> d == cuts[0] || d in cuts[1..];
    }
  }
}
