/** The Luhn checksum: the detector's parity loop, the right-to-left definition of ISO/IEC 7812-1
    Annex B, and which transcription errors it catches. */
module Luhn {
  import opened Regex

  predicate Digits(s: string) {
    forall p :: 0 <= p < |s| ==> IsDigit(s[p])
  }

  function Value(c: char): (n: nat)
    requires IsDigit(c)
    ensures n < 10
  {
    c as nat - '0' as nat
  }

  /** A digit that is doubled contributes its digit sum. */
  function Weight(doubled: bool, c: char): nat
    requires IsDigit(c)
  {
    if !doubled then Value(c) else if 2 * Value(c) > 9 then 2 * Value(c) - 9 else 2 * Value(c)
  }

  /** The sum from the left: a digit is doubled when an even number of digits is left, itself included. */
  function Checksum(s: string): nat
    requires Digits(s)
  {
    if s == [] then 0 else Weight(|s| % 2 == 0, s[0]) + Checksum(s[1..])
  }

  predicate LuhnValid(s: string)
    requires Digits(s)
  {
    Checksum(s) % 10 == 0
  }

  /** The standard's order: from the right, every second digit is doubled, the last one not. */
  function FromRight(s: string, doubled: bool): nat
    requires Digits(s)
  {
    if s == [] then 0
    else Weight(doubled, s[|s| - 1]) + FromRight(s[..|s| - 1], !doubled)
  }

  /** The detector's loop, left to right with a parity taken from the length. */
  method IsLuhnValid(digits: string) returns (valid: bool)
    requires Digits(digits)
    ensures valid <==> FromRight(digits, false) % 10 == 0
    ensures valid <==> LuhnValid(digits)
  {
    var total := 0;
    var parity := |digits| % 2;
    for i := 0 to |digits|
      invariant total + Checksum(digits[i..]) == Checksum(digits)
    {
      var n := Value(digits[i]);
      if i % 2 == parity {
        n := n * 2;
        if n > 9 {
          n := n - 9;
        }
      }
      ChecksumStep(digits, i);
      total := total + n;
    }
    ParityIsFromRight(digits);
    return total % 10 == 0;
  }

  lemma ChecksumStep(s: string, i: nat)
    requires Digits(s) && i < |s|
    ensures Checksum(s[i..]) == Weight(i % 2 == |s| % 2, s[i]) + Checksum(s[i + 1..])
  {
    assert s[i..][1..] == s[i + 1..] && s[i..][0] == s[i];
  }

  lemma {:induction false} ParityIsFromRight(s: string)
    requires Digits(s)
    ensures Checksum(s) == FromRight(s, false)
  {
    if s != [] {
      ParityIsFromRight(s[1..]);
      FirstFromRight(s, false);
    }
  }

  lemma {:induction false} FirstFromRight(s: string, doubled: bool)
    requires Digits(s) && s != []
    ensures FromRight(s, doubled) == Weight(doubled == (|s| % 2 == 1), s[0]) + FromRight(s[1..], doubled)
  {
    if |s| > 1 {
      var init := s[..|s| - 1];
      FirstFromRight(init, !doubled);
      assert init[1..] == s[1..][..|s| - 2];
    }
  }

  /** Replacing the digit at `k` changes the sum by the difference of the two weights. */
  lemma {:induction false} Replaced(s: string, k: nat, c: char)
    requires Digits(s) && k < |s| && IsDigit(c)
    ensures Digits(s[k := c])
    ensures Checksum(s[k := c]) == Checksum(s) - Weight((|s| - k) % 2 == 0, s[k]) + Weight((|s| - k) % 2 == 0, c)
  {
    if k == 0 {
      assert s[0 := c][1..] == s[1..];
    } else {
      Replaced(s[1..], k - 1, c);
      assert s[k := c][1..] == s[1..][k - 1 := c];
    }
  }

  /** Every single-digit error is caught. */
  lemma SingleErrorIsCaught(s: string, k: nat, c: char)
    requires Digits(s) && LuhnValid(s) && k < |s| && IsDigit(c) && c != s[k]
    ensures Digits(s[k := c]) && !LuhnValid(s[k := c])
  {
    Replaced(s, k, c);
    var w, w' := Weight((|s| - k) % 2 == 0, s[k]), Weight((|s| - k) % 2 == 0, c);
    var change: int := w' as int - w as int;
    assert change != 0 && -10 < change < 10;
    NearMultiple(Checksum(s), change);
  }

  lemma NearMultiple(n: int, d: int)
    requires n % 10 == 0 && n + d >= 0
    ensures (n + d) % 10 == 0 <==> d % 10 == 0
  {
  }

  function Swapped(s: string, k: nat): string
    requires k + 1 < |s|
  {
    s[k := s[k + 1]][k + 1 := s[k]]
  }

  /** Swapping two different adjacent digits is caught, except for 0 and 9. */
  lemma SwapIsCaught(s: string, k: nat)
    requires Digits(s) && LuhnValid(s) && k + 1 < |s| && s[k] != s[k + 1]
    ensures Digits(Swapped(s, k))
    ensures LuhnValid(Swapped(s, k)) <==> {s[k], s[k + 1]} == {'0', '9'}
  {
    var a, b := s[k], s[k + 1];
    Replaced(s, k, b);
    Replaced(s[k := b], k + 1, a);
    var even := (|s| - k) % 2 == 0;
    var change := Weight(even, b) + Weight(!even, a) - Weight(even, a) - Weight(!even, b);
    assert Checksum(Swapped(s, k)) == Checksum(s) + change;
    NearMultiple(Checksum(s), change);
    SwapChange(a, b);
  }

  lemma SwapChange(a: char, b: char)
    requires IsDigit(a) && IsDigit(b) && a != b
    ensures (Weight(true, b) + Value(a) - Weight(true, a) - Value(b)) % 10 == 0 <==> {a, b} == {'0', '9'}
    ensures (Value(b) + Weight(true, a) - Value(a) - Weight(true, b)) % 10 == 0 <==> {a, b} == {'0', '9'}
  {
    var x, y := Value(a), Value(b);
    assert {a, b} == {'0', '9'} <==> (x == 0 && y == 9) || (x == 9 && y == 0);
  }
}
