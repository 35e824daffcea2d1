/** Python's string operations, on ASCII text. */
module Strings {
  import Regex

  /** `s.lower()`. */
  function Lowered(s: string): string {
    seq(|s|, i requires 0 <= i < |s| => Regex.Lower(s[i]))
  }

  predicate StandsAt(s: string, p: nat, w: string) { p + |w| <= |s| && s[p..p + |w|] == w }

  /** `w in s`. */
  predicate Contains(s: string, w: string) {
    exists p :: 0 <= p <= |s| && StandsAt(s, p, w)
  }

  function StripLeft(s: string): string {
    if s != "" && Regex.IsSpace(s[0]) then StripLeft(s[1..]) else s
  }

  function StripRight(s: string): string {
    if s != "" && Regex.IsSpace(s[|s| - 1]) then StripRight(s[..|s| - 1]) else s
  }

  /** `s.strip()`. */
  function Strip(s: string): string { StripRight(StripLeft(s)) }

  /** `s.strip()` is not empty. */
  predicate Visible(s: string) {
    exists i :: 0 <= i < |s| && !Regex.IsSpace(s[i])
  }

  // ---------- Words in any case ----------

  /** The word, in small letters, stands at `p` in any case. */
  predicate SpelledAt(s: string, p: int, w: string) {
    0 <= p && p + |w| <= |s| && forall k :: 0 <= k < |w| ==> Regex.Lower(s[p + k]) == w[k]
  }

  ghost predicate Names(s: string, w: string) {
    exists p :: 0 <= p && p + |w| <= |s| && SpelledAt(s, p, w)
  }

  lemma SpelledExactly(s: string, p: nat, w: string)
    requires p + |w| <= |s|
    ensures StandsAt(Lowered(s), p, w) <==> SpelledAt(s, p, w)
  {
    var u := Lowered(s)[p..p + |w|];
    assert forall k :: 0 <= k < |w| ==> u[k] == Regex.Lower(s[p + k]);
    if u == w { assert forall k :: 0 <= k < |w| ==> u[k] == w[k]; }
  }

  lemma NamesExactly(s: string, w: string)
    ensures Contains(Lowered(s), w) <==> Names(s, w)
  {
    forall p: nat | p + |w| <= |s| ensures StandsAt(Lowered(s), p, w) <==> SpelledAt(s, p, w) {
      SpelledExactly(s, p, w);
    }
    if p :| 0 <= p && p + |w| <= |s| && SpelledAt(s, p, w) { assert StandsAt(Lowered(s), p, w); }
  }

  // ---------- White space at the ends ----------

  predicate White(c: char) { c == ' ' || 9 <= c as int <= 13 || 28 <= c as int <= 31 }

  predicate AllWhite(s: string, i: int, j: int) {
    0 <= i <= j <= |s| && forall p :: i <= p < j ==> White(s[p])
  }

  lemma {:induction false} StripLeftAt(s: string) returns (i: nat)
    ensures i <= |s| && StripLeft(s) == s[i..] && AllWhite(s, 0, i) && (i < |s| ==> !White(s[i]))
    decreases s
  {
    i := 0;
    if s != "" && Regex.IsSpace(s[0]) {
      var k := StripLeftAt(s[1..]);
      i := k + 1;
      assert s[1..][k..] == s[i..];
      assert forall p :: 1 <= p < i ==> s[p] == s[1..][p - 1];
    }
  }

  lemma {:induction false} StripRightAt(s: string) returns (j: nat)
    ensures j <= |s| && StripRight(s) == s[..j] && AllWhite(s, j, |s|) && (0 < j ==> !White(s[j - 1]))
    decreases s
  {
    j := |s|;
    if s != "" && Regex.IsSpace(s[|s| - 1]) {
      j := StripRightAt(s[..|s| - 1]);
      assert s[..|s| - 1][..j] == s[..j];
    }
  }

  /** What is left of a text when white space goes at both ends. */
  lemma StripAt(s: string) returns (i: nat, j: nat)
    ensures i <= j <= |s| && Strip(s) == s[i..j] && AllWhite(s, 0, i) && AllWhite(s, j, |s|)
    ensures i < j ==> !White(s[i]) && !White(s[j - 1])
    ensures i == j ==> AllWhite(s, 0, |s|)
  {
    i := StripLeftAt(s);
    var k := StripRightAt(s[i..]);
    j := i + k;
    assert s[i..][..k] == s[i..j];
    assert forall p :: j <= p < |s| ==> s[p] == s[i..][p - i];
    if k > 0 { assert s[j - 1] == s[i..][k - 1]; }
  }
}
