/** `str(int)` and `int(str)`, on ASCII text. */
module Decimals {
  import opened Lru
  import opened Strings
  import Regex

  function Unsigned(n: nat): string {
    var last := [('0' as int + n % 10) as char];
    if n < 10 then last else Unsigned(n / 10) + last
  }

  function Decimal(n: int): string { if n < 0 then "-" + Unsigned(-n) else Unsigned(n) }

  /** Digits, with single underscores between them. */
  function ParseDigits(s: string, value: nat, afterDigit: bool): Option<nat> {
    if s == "" then (if afterDigit then Some(value) else None)
    else if Regex.IsDigit(s[0]) then ParseDigits(s[1..], 10 * value + (s[0] as int - '0' as int), true)
    else if s[0] == '_' && afterDigit then ParseDigits(s[1..], value, false)
    else None
  }

  /** `None` where `int` raises `ValueError`. */
  function ParseInt(s: string): Option<int> {
    var t := Strip(s);
    if t != "" && (t[0] == '-' || t[0] == '+') then
      match ParseDigits(t[1..], 0, false)
      case Some(n) => var m: int := n; Some(if t[0] == '-' then -m else m)
      case None => None
    else
      match ParseDigits(t, 0, false)
      case Some(n) => Some(n)
      case None => None
  }

  lemma {:induction false} OneMoreDigit(s: string, value: nat, afterDigit: bool, d: char)
    requires ParseDigits(s, value, afterDigit).Some? && Regex.IsDigit(d)
    ensures ParseDigits(s + [d], value, afterDigit)
            == Some(10 * ParseDigits(s, value, afterDigit).value + (d as int - '0' as int))
    decreases s
  {
    if s == "" {
      assert s + [d] == [d] && [d][1..] == "";
    } else {
      assert (s + [d])[1..] == s[1..] + [d];
      if Regex.IsDigit(s[0]) {
        OneMoreDigit(s[1..], 10 * value + (s[0] as int - '0' as int), true, d);
      } else {
        OneMoreDigit(s[1..], value, false, d);
      }
    }
  }

  lemma {:induction false} UnsignedRoundTrip(n: nat)
    ensures ParseDigits(Unsigned(n), 0, false) == Some(n)
    ensures Unsigned(n) != "" && Regex.IsDigit(Unsigned(n)[0]) && Regex.IsDigit(Unsigned(n)[|Unsigned(n)| - 1])
  {
    var last := ('0' as int + n % 10) as char;
    if n < 10 {
      assert [last][1..] == "";
    } else {
      UnsignedRoundTrip(n / 10);
      OneMoreDigit(Unsigned(n / 10), 0, false, last);
    }
  }

  lemma DecimalRoundTrip(n: int)
    ensures ParseInt(Decimal(n)) == Some(n) && Decimal(n) != ""
  {
    var m := if n < 0 then -n else n;
    UnsignedRoundTrip(m);
    var s := Decimal(n);
    assert s[|s| - 1] == Unsigned(m)[|Unsigned(m)| - 1];
    if n < 0 { assert s[1..] == Unsigned(m); }
  }
}
