/** E-mail addresses and phone numbers, character by character, and that the patterns find exactly those. */
module PiiShapes {
  import opened Regex
  import opened Substitution
  import opened Catalog
  import opened RegexShapes
  import opened PatternShapes

  // ---------- A pattern without assertions sees only the piece itself ----------

  lemma PieceExactly(r: Re, t: string, i: nat, j: nat)
    requires i <= j <= |t| && Assertions(r) == {}
    ensures Matches(r, t, i, j) <==> Matches(r, t[i..j], 0, j - i)
  {
    SamePiece(r, t, i, t[i..j], 0, j - i);
  }

  lemma SamePiece(r: Re, t: string, i: nat, u: string, k: nat, n: nat)
    requires i + n <= |t| && k + n <= |u| && t[i..i + n] == u[k..k + n] && Assertions(r) == {}
    ensures Matches(r, t, i, i + n) <==> Matches(r, u, k, k + n)
  {
    if Matches(r, t, i, i + n) { Transfer(r, t, i, u, k, n); }
    if Matches(r, u, k, k + n) { Transfer(r, u, k, t, i, n); }
  }

  // ---------- E-mail addresses ----------

  predicate LocalChar(c: char) { Alnum(c) || c in {'.', '_', '%', '+', '-'} }

  predicate LetterChar(c: char) { Capital(c) || Small(c) }

  /** A label of 1 to 63 characters from `p` on, and the dot in front of `q`. */
  ghost predicate DottedLabel(u: string, p: int, q: int) {
    2 <= q - p <= 64 && 0 <= p && q <= |u| && All(AlnumDash, u, p, q - 1) && u[q - 1] == '.'
  }

  /** Such labels one after another from `h` to `d`; `at` says where each begins and the last one ends. */
  ghost predicate LabelsAt(u: string, h: int, d: int, at: seq<int>) {
    |at| >= 2 && at[0] == h && at[|at| - 1] == d &&
    forall k, l :: 0 <= k && l == k + 1 && l < |at| ==> DottedLabel(u, at[k], at[l])
  }

  ghost predicate Labels(u: string, h: int, d: int) {
    exists at :: LabelsAt(u, h, d, at)
  }

  /** A local part of 1 to 64 characters, an at sign, dotted labels and a top-level domain of 2 to 63 letters. */
  ghost predicate IsAddress(u: string) {
    exists a, d :: 1 <= a <= 64 && All(LocalChar, u, 0, a) && a < |u| && u[a] == '@' && Labels(u, a + 1, d) &&
                   2 <= |u| - d <= 63 && All(LetterChar, u, d, |u|)
  }

  /** An address between two edges. */
  ghost predicate AddressAt(t: string, i: nat, j: nat)
    requires i <= j <= |t|
  {
    Edge(t, i) && Edge(t, j) && IsAddress(t[i..j])
  }

  const LabelDot := Cat(Rep(One(AlphaNumDash), 1, Upto(63)), Text("."))
  const TopLevel := Rep(One(Letter), 2, Upto(63))
  const Domain := Rep(LabelDot, 1, Unbounded)
  const EmailBody :=
    Cat(Rep(One(EmailLocal), 1, Upto(64)), Cat(Text("@"), Cat(Domain, TopLevel)))

  lemma LabelDotExactly(u: string, i: nat, j: nat)
    requires i <= j <= |u|
    ensures Matches(LabelDot, u, i, j) <==> DottedLabel(u, i, j)
  {
    RunFirst(AlphaNumDash, 1, Upto(63), Text("."), u, i, j);
    if i < j {
      AllExactly(AlphaNumDash, AlnumDash, u, i, j - 1);
      LastChar(".", u, j);
    }
    forall m | i <= m <= j && Matches(Text("."), u, m, j) ensures m == j - 1 { assert |u[m..j]| == j - m; }
  }

  lemma {:induction false} Forward(u: string, h: int, d: int, at: seq<int>)
    requires LabelsAt(u, h, d, at)
    ensures 0 <= h < d <= |u|
    decreases |at|
  {
    assert DottedLabel(u, at[0], at[1]);
    if |at| > 2 {
      LabelsTail(u, h, d, at);
      Forward(u, at[1], d, at[1..]);
    }
  }

  lemma LabelsTail(u: string, h: int, d: int, at: seq<int>)
    requires LabelsAt(u, h, d, at) && |at| > 2
    ensures LabelsAt(u, at[1], d, at[1..])
  {
    var rest := at[1..];
    forall k, l | 0 <= k && l == k + 1 && l < |rest| ensures DottedLabel(u, rest[k], rest[l]) {
      assert DottedLabel(u, at[k + 1], at[l + 1]);
    }
  }

  /** Labels one after another, as the pattern repeats them. */
  lemma {:induction false} LabelsRepeat(u: string, lo: nat, hi: Bound, h: nat, d: nat, at: seq<int>)
    requires LabelsAt(u, h, d, at) && lo <= 1 && hi == Unbounded && h < d <= |u|
    ensures Repeats(LabelDot, lo, hi, u, h, d)
    decreases |at|
  {
    assert DottedLabel(u, at[0], at[1]);
    var m: nat := at[1];
    LabelDotExactly(u, h, m);
    var lo' := if lo == 0 then 0 else lo - 1;
    if |at| == 2 {
      assert Repeats(LabelDot, lo', Less(hi), u, m, d);
    } else {
      LabelsTail(u, h, d, at);
      Forward(u, m, d, at[1..]);
      LabelsRepeat(u, lo', Less(hi), m, d, at[1..]);
    }
    assert Matches(LabelDot, u, h, m) && Repeats(LabelDot, lo', Less(hi), u, m, d);
  }

  lemma {:induction false} RepeatedLabels(u: string, lo: nat, hi: Bound, h: nat, d: nat) returns (at: seq<int>)
    requires h < d <= |u| && Repeats(LabelDot, lo, hi, u, h, d)
    ensures LabelsAt(u, h, d, at)
    decreases d - h
  {
    var lo' := if lo == 0 then 0 else lo - 1;
    var m :| h < m <= d && Matches(LabelDot, u, h, m) && Repeats(LabelDot, lo', Less(hi), u, m, d);
    LabelDotExactly(u, h, m);
    if m == d {
      at := [h, d];
    } else {
      var rest := RepeatedLabels(u, lo', Less(hi), m, d);
      at := [h] + rest;
      LabelInFront(u, h, m, d, rest);
    }
  }

  lemma LabelInFront(u: string, h: int, m: int, d: int, rest: seq<int>)
    requires LabelsAt(u, m, d, rest) && DottedLabel(u, h, m)
    ensures LabelsAt(u, h, d, [h] + rest)
  {
    var at := [h] + rest;
    forall k, l | 0 <= k && l == k + 1 && l < |at| ensures DottedLabel(u, at[k], at[l]) {
      if k > 0 { assert DottedLabel(u, rest[k - 1], rest[l - 1]); }
    }
  }

  lemma DomainExactly(u: string, h: nat, d: nat)
    requires h <= d <= |u|
    ensures Matches(Domain, u, h, d) <==> Labels(u, h, d)
  {
    if Matches(Domain, u, h, d) {
      NotEmpty(u, 1, Unbounded, h, d);
      var at := RepeatedLabels(u, 1, Unbounded, h, d);
    }
    if at :| LabelsAt(u, h, d, at) {
      Forward(u, h, d, at);
      LabelsRepeat(u, 1, Unbounded, h, d, at);
    }
  }

  lemma NotEmpty(u: string, lo: nat, hi: Bound, h: nat, d: nat)
    requires h <= d <= |u| && lo > 0 && Repeats(LabelDot, lo, hi, u, h, d)
    ensures h < d
  {
    var lo' := if lo == 0 then 0 else lo - 1;
    var m :| h < m <= d && Matches(LabelDot, u, h, m) && Repeats(LabelDot, lo', Less(hi), u, m, d);
  }

  ghost predicate DomainUpTo(u: string, h: int) {
    exists d :: Labels(u, h, d) && 2 <= |u| - d <= 63 && All(LetterChar, u, d, |u|)
  }

  lemma DomainThenTop(u: string, h: nat)
    requires h <= |u|
    ensures Matches(Cat(Domain, TopLevel), u, h, |u|) <==> DomainUpTo(u, h)
  {
    forall d | h <= d <= |u|
      ensures Matches(Domain, u, h, d) <==> Labels(u, h, d)
      ensures Matches(TopLevel, u, d, |u|) <==> 2 <= |u| - d <= 63 && All(LetterChar, u, d, |u|)
    {
      DomainExactly(u, h, d);
      LastRun(Letter, LetterChar, 2, Upto(63), u, d, |u|);
    }
    if Matches(Cat(Domain, TopLevel), u, h, |u|) { var d := SplitCat(Domain, TopLevel, u, h, |u|); }
    if d :| Labels(u, h, d) && 2 <= |u| - d <= 63 && All(LetterChar, u, d, |u|) {
      LabelsForward(u, h, d);
      MakeCat(Domain, TopLevel, u, h, d, |u|);
    }
  }

  lemma LabelsForward(u: string, h: int, d: int)
    requires Labels(u, h, d)
    ensures 0 <= h <= d
  {
    var at :| LabelsAt(u, h, d, at);
    Forward(u, h, d, at);
  }

  lemma BodyExactly(u: string)
    ensures Matches(EmailBody, u, 0, |u|) <==> IsAddress(u)
  {
    var rest := Cat(Domain, TopLevel);
    forall h | 0 <= h <= |u| ensures Matches(rest, u, h, |u|) <==> DomainUpTo(u, h) { DomainThenTop(u, h); }
    LocalThen(rest, u);
    AddressParts(u);
  }

  lemma LocalThen(rest: Re, u: string)
    requires forall h :: 0 <= h <= |u| ==> (Matches(rest, u, h, |u|) <==> DomainUpTo(u, h))
    ensures Matches(Cat(Rep(One(EmailLocal), 1, Upto(64)), Cat(Text("@"), rest)), u, 0, |u|) <==>
            exists a: nat :: 1 <= a <= 64 && All(LocalChar, u, 0, a) && a < |u| && u[a] == '@' && DomainUpTo(u, a + 1)
  {
    RunFirst(EmailLocal, 1, Upto(64), Cat(Text("@"), rest), u, 0, |u|);
    forall a | 0 <= a <= |u|
      ensures AllIn(EmailLocal, u, 0, a) <==> All(LocalChar, u, 0, a)
      ensures Matches(Cat(Text("@"), rest), u, a, |u|) <==> a < |u| && u[a] == '@' && DomainUpTo(u, a + 1)
    {
      AllExactly(EmailLocal, LocalChar, u, 0, a);
      AtSign(rest, u, a);
    }
  }

  lemma AtSign(rest: Re, u: string, a: nat)
    requires a <= |u|
    ensures Matches(Cat(Text("@"), rest), u, a, |u|) <==> a < |u| && u[a] == '@' && Matches(rest, u, a + 1, |u|)
  {
    TextFirst("@", rest, u, a, |u|);
    if a < |u| { OneChar("@", u, a); }
  }

  lemma AddressParts(u: string)
    ensures IsAddress(u) <==>
            exists a: nat :: 1 <= a <= 64 && All(LocalChar, u, 0, a) && a < |u| && u[a] == '@' && DomainUpTo(u, a + 1)
  {
    if IsAddress(u) {
      var a, d :| 1 <= a <= 64 && All(LocalChar, u, 0, a) && a < |u| && u[a] == '@' && Labels(u, a + 1, d) &&
                  2 <= |u| - d <= 63 && All(LetterChar, u, d, |u|);
      assert DomainUpTo(u, a + 1);
    }
  }

  /** The pattern has its last edge inside; the body leaves it out. */
  lemma EmailIsBounded(t: string, i: nat, j: nat)
    requires i <= j <= |t|
    ensures Matches(Email, t, i, j) <==> BoundaryAt(t, i) && Matches(EmailBody, t, i, j) && BoundaryAt(t, j)
  {
    EdgeInside(Rep(One(EmailLocal), 1, Upto(64)), Text("@"), Domain, TopLevel, t, i, j);
  }

  lemma EdgeInside(a: Re, b: Re, c: Re, d: Re, t: string, i: nat, j: nat)
    requires i <= j <= |t|
    ensures Matches(Cat(B, Cat(a, Cat(b, Cat(c, Cat(d, B))))), t, i, j) <==>
            BoundaryAt(t, i) && Matches(Cat(a, Cat(b, Cat(c, d))), t, i, j) && BoundaryAt(t, j)
  {
    LookFirst(WordBoundary, Cat(a, Cat(b, Cat(c, Cat(d, B)))), t, i, j);
    forall m | i <= m <= j
      ensures Matches(Cat(b, Cat(c, Cat(d, B))), t, m, j) <==> Matches(Cat(b, Cat(c, d)), t, m, j) && BoundaryAt(t, j)
    {
      TwoInside(b, c, d, t, m, j);
    }
    EdgeOut(a, Cat(b, Cat(c, Cat(d, B))), Cat(b, Cat(c, d)), t, i, j);
  }

  lemma TwoInside(b: Re, c: Re, d: Re, t: string, i: nat, j: nat)
    requires i <= j <= |t|
    ensures Matches(Cat(b, Cat(c, Cat(d, B))), t, i, j) <==> Matches(Cat(b, Cat(c, d)), t, i, j) && BoundaryAt(t, j)
  {
    forall m | i <= m <= j
      ensures Matches(Cat(c, Cat(d, B)), t, m, j) <==> Matches(Cat(c, d), t, m, j) && BoundaryAt(t, j)
    {
      OneInside(c, d, t, m, j);
    }
    EdgeOut(b, Cat(c, Cat(d, B)), Cat(c, d), t, i, j);
  }

  lemma OneInside(c: Re, d: Re, t: string, i: nat, j: nat)
    requires i <= j <= |t|
    ensures Matches(Cat(c, Cat(d, B)), t, i, j) <==> Matches(Cat(c, d), t, i, j) && BoundaryAt(t, j)
  {
    forall m | i <= m <= j ensures Matches(Cat(d, B), t, m, j) <==> Matches(d, t, m, j) && BoundaryAt(t, j) {
      LookLast(d, WordBoundary, t, m, j);
    }
    EdgeOut(c, Cat(d, B), d, t, i, j);
  }

  lemma EdgeOut(a: Re, withEdge: Re, without: Re, t: string, i: nat, j: nat)
    requires i <= j <= |t|
    requires forall m :: i <= m <= j ==> (Matches(withEdge, t, m, j) <==> Matches(without, t, m, j) && BoundaryAt(t, j))
    ensures Matches(Cat(a, withEdge), t, i, j) <==> Matches(Cat(a, without), t, i, j) && BoundaryAt(t, j)
  {
    if Matches(Cat(a, withEdge), t, i, j) {
      var m := SplitCat(a, withEdge, t, i, j);
      MakeCat(a, without, t, i, m, j);
    }
    if Matches(Cat(a, without), t, i, j) && BoundaryAt(t, j) {
      var m := SplitCat(a, without, t, i, j);
      MakeCat(a, withEdge, t, i, m, j);
    }
  }

  /** The e-mail pattern matches exactly the addresses. */
  lemma EmailExactly(t: string, i: nat, j: nat)
    requires i <= j <= |t|
    ensures Matches(Email, t, i, j) <==> AddressAt(t, i, j)
  {
    EmailIsBounded(t, i, j);
    EmailBodyIsQuiet();
    BodyOfPiece(t, i, j);
    EmailPiece(t, i, j);
  }

  lemma EmailPiece(t: string, i: nat, j: nat)
    requires i <= j <= |t| && Assertions(EmailBody) == {}
    requires Matches(Email, t, i, j) <==> BoundaryAt(t, i) && Matches(EmailBody, t, i, j) && BoundaryAt(t, j)
    requires Matches(EmailBody, t[i..j], 0, j - i) <==> IsAddress(t[i..j])
    ensures Matches(Email, t, i, j) <==> AddressAt(t, i, j)
  {
    BoundedPiece(Email, EmailBody, t, i, j);
  }

  lemma BoundedPiece(whole: Re, body: Re, t: string, i: nat, j: nat)
    requires i <= j <= |t| && Assertions(body) == {}
    requires Matches(whole, t, i, j) <==> BoundaryAt(t, i) && Matches(body, t, i, j) && BoundaryAt(t, j)
    requires Matches(body, t[i..j], 0, j - i) <==> IsAddress(t[i..j])
    ensures Matches(whole, t, i, j) <==> AddressAt(t, i, j)
  {
    PieceExactly(body, t, i, j);
    EdgeExactly(t, i);
    EdgeExactly(t, j);
  }

  lemma EmailBodyIsQuiet()
    ensures Assertions(EmailBody) == {}
  {
  }

  lemma BodyOfPiece(t: string, i: nat, j: nat)
    requires i <= j <= |t|
    ensures Matches(EmailBody, t[i..j], 0, j - i) <==> IsAddress(t[i..j])
  {
    SameBody(t[i..j], j - i);
  }

  lemma SameBody(u: string, n: nat)
    requires |u| == n
    ensures Matches(EmailBody, u, 0, n) <==> IsAddress(u)
  {
    BodyExactly(u);
  }

  // ---------- Digits in groups ----------

  predicate GapChar(c: char) { c in {' ', '.', '-'} }

  /** Nothing, or one gap character. */
  predicate Gap(u: string, p: int, q: int) {
    q == p || (q == p + 1 && 0 <= p < |u| && GapChar(u[p]))
  }

  /** A digit, perhaps with a gap character behind it. */
  predicate Group(u: string, p: int, q: int) {
    0 <= p < |u| && Numeral(u[p]) && Gap(u, p + 1, q) && q <= |u|
  }

  /** Groups one after another from `s` to `m`; `at` says where each begins and the last one ends. */
  ghost predicate GroupsAt(u: string, s: int, m: int, at: seq<int>) {
    |at| >= 1 && at[0] == s && at[|at| - 1] == m &&
    forall k, l :: 0 <= k && l == k + 1 && l < |at| ==> Group(u, at[k], at[l])
  }

  /** From `s` to `j`, at least `lo` and at most `hi` groups, and a last digit. */
  ghost predicate Grouped(u: string, s: int, j: int, lo: nat, hi: nat) {
    0 < j <= |u| && Numeral(u[j - 1]) && exists at :: lo < |at| <= hi + 1 && GroupsAt(u, s, j - 1, at)
  }

  const DigitGap := Cat(One(Digit), PhoneGap)
  const GapClass := Cls(false, false, false, false, {' ', '.', '-'})

  lemma GroupExactly(u: string, p: nat, q: nat)
    requires p <= q <= |u|
    ensures Matches(DigitGap, u, p, q) <==> Group(u, p, q)
  {
    CharFirst(Digit, PhoneGap, u, p, q);
    if p + 1 <= q { LastGap(u, p + 1, q); }
  }

  lemma LastGap(u: string, p: nat, q: nat)
    requires p <= q <= |u|
    ensures Matches(PhoneGap, u, p, q) <==> Gap(u, p, q)
  {
    OptionalExactly(One(GapClass), u, p, q);
  }

  lemma {:induction false} GroupsForward(u: string, s: int, m: int, at: seq<int>)
    requires GroupsAt(u, s, m, at) && |at| > 1
    ensures 0 <= s < m <= |u| && Group(u, s, at[1]) && GroupsAt(u, at[1], m, at[1..])
    decreases |at|
  {
    assert Group(u, at[0], at[1]);
    var rest := at[1..];
    forall k, l | 0 <= k && l == k + 1 && l < |rest| ensures Group(u, rest[k], rest[l]) {
      assert Group(u, at[k + 1], at[l + 1]);
    }
    if |at| > 2 { GroupsForward(u, at[1], m, rest); }
  }

  lemma {:induction false} GroupsRepeat(u: string, lo: nat, hi: nat, s: nat, m: nat, at: seq<int>)
    requires GroupsAt(u, s, m, at) && s <= m <= |u| && lo < |at| <= hi + 1
    ensures Repeats(DigitGap, lo, Upto(hi), u, s, m)
    decreases |at|
  {
    if |at| > 1 {
      GroupsForward(u, s, m, at);
      var n: nat := at[1];
      if |at| > 2 { GroupsForward(u, n, m, at[1..]); }
      GroupExactly(u, s, n);
      var lo' := if lo == 0 then 0 else lo - 1;
      GroupsRepeat(u, lo', hi - 1, n, m, at[1..]);
      assert Matches(DigitGap, u, s, n) && Repeats(DigitGap, lo', Less(Upto(hi)), u, n, m);
    }
  }

  lemma {:induction false} RepeatedGroups(u: string, lo: nat, hi: nat, s: nat, m: nat) returns (at: seq<int>)
    requires s <= m <= |u| && Repeats(DigitGap, lo, Upto(hi), u, s, m)
    ensures GroupsAt(u, s, m, at) && lo < |at| <= hi + 1
    decreases m - s
  {
    if s == m {
      at := [s];
      NoGroupIsEmpty(u, lo, Upto(hi), s);
    } else {
      var lo' := if lo == 0 then 0 else lo - 1;
      var n :| s < n <= m && Matches(DigitGap, u, s, n) && Repeats(DigitGap, lo', Less(Upto(hi)), u, n, m);
      GroupExactly(u, s, n);
      var rest := RepeatedGroups(u, lo', if hi == 0 then 0 else hi - 1, n, m);
      at := [s] + rest;
      GroupInFront(u, s, n, m, rest);
    }
  }

  lemma NoGroupIsEmpty(u: string, lo: nat, hi: Bound, s: nat)
    requires s <= |u| && Repeats(DigitGap, lo, hi, u, s, s)
    ensures lo == 0
  {
  }

  lemma GroupInFront(u: string, s: int, n: int, m: int, rest: seq<int>)
    requires GroupsAt(u, n, m, rest) && Group(u, s, n)
    ensures GroupsAt(u, s, m, [s] + rest)
  {
    var at := [s] + rest;
    forall k, l | 0 <= k && l == k + 1 && l < |at| ensures Group(u, at[k], at[l]) {
      if k > 0 { assert Group(u, rest[k - 1], rest[l - 1]); }
    }
  }

  lemma GroupedExactly(u: string, s: nat, j: nat, lo: nat, hi: nat)
    requires s <= j <= |u|
    ensures Matches(Cat(Rep(DigitGap, lo, Upto(hi)), One(Digit)), u, s, j) <==> Grouped(u, s, j, lo, hi)
  {
    var run := Rep(DigitGap, lo, Upto(hi));
    if Matches(Cat(run, One(Digit)), u, s, j) {
      var m := SplitCat(run, One(Digit), u, s, j);
      var at := RepeatedGroups(u, lo, hi, s, m);
    }
    if Grouped(u, s, j, lo, hi) {
      var at :| lo < |at| <= hi + 1 && GroupsAt(u, s, j - 1, at);
      if |at| > 1 { GroupsForward(u, s, j - 1, at); }
      GroupsRepeat(u, lo, hi, s, j - 1, at);
      MakeCat(run, One(Digit), u, s, j - 1, j);
    }
  }

  // ---------- Phone numbers ----------

  /** Three digits, perhaps in parentheses. */
  ghost predicate Area(u: string, a: int, b: int) {
    (b == a + 3 && All(Numeral, u, a, b)) ||
    (0 <= a && b == a + 5 && b <= |u| && u[a] == '(' && All(Numeral, u, a + 1, a + 4) && u[a + 4] == ')')
  }

  /** Area code, three digits and four digits up to `j`, with gaps in between. */
  ghost predicate National(u: string, a: int, j: int) {
    exists b, c, d :: Area(u, a, b) && Gap(u, b, c) && All(Numeral, u, c, c + 3) && Gap(u, c + 3, d) &&
                      j == d + 4 && All(Numeral, u, d, j)
  }

  /** One to three digits, perhaps behind a plus sign, and a gap up to `a`. */
  ghost predicate Country(u: string, i: int, a: int) {
    exists p, q ::
      (p == i || (p == i + 1 && 0 <= i < |u| && u[i] == '+')) && 1 <= q - p <= 3 && All(Numeral, u, p, q) &&
      Gap(u, q, a)
  }

  ghost predicate NanpNumber(u: string, i: int, j: int) {
    National(u, i, j) || exists a :: Country(u, i, a) && National(u, a, j)
  }

  /** A plus sign or two zeros, one to three digits and 6 to 13 more in groups. */
  ghost predicate InternationalNumber(u: string, i: int, j: int) {
    exists p, q, r, s ::
      ((p == i + 1 && 0 <= i < |u| && u[i] == '+') || (p == i + 2 && At(u, i, "00"))) && Gap(u, p, q) &&
      1 <= r - q <= 3 && All(Numeral, u, q, r) && Gap(u, r, s) && Grouped(u, s, j, 5, 12)
  }

  /** A phone number that is not part of a longer run of digits. */
  ghost predicate PhoneAt(t: string, i: nat, j: nat)
    requires i <= j <= |t|
  {
    (i == 0 || !Numeral(t[i - 1])) && (j == |t| || !Numeral(t[j])) && IsPhone(t[i..j])
  }

  ghost predicate IsPhone(u: string) { NanpNumber(u, 0, |u|) || InternationalNumber(u, 0, |u|) }

  lemma AreaExactly(u: string, a: nat, b: nat)
    requires a <= b <= |u|
    ensures Matches(AreaCode, u, a, b) <==> Area(u, a, b)
  {
    LastRun(Digit, Numeral, 3, Upto(3), u, a, b);
    InParentheses("(", ")", u, a, b);
  }

  lemma InParentheses(open: Literal, close: Literal, u: string, a: nat, b: nat)
    requires a <= b <= |u| && |open| == 1 && |close| == 1
    ensures Matches(Cat(Text(open), Cat(Times(Digit, 3), Text(close))), u, a, b) <==>
            b == a + 5 && u[a] == open[0] && All(Numeral, u, a + 1, a + 4) && u[a + 4] == close[0]
  {
    TextFirst(open, Cat(Times(Digit, 3), Text(close)), u, a, b);
    if a + 1 <= b {
      OneChar(open, u, a);
      TimesFirst(Digit, 3, Text(close), u, a + 1, b);
      if a + 4 <= b { AllExactly(Digit, Numeral, u, a + 1, a + 4); }
      if a + 4 < b { OneChar(close, u, a + 4); }
      if a + 4 <= b && Matches(Text(close), u, a + 4, b) { assert |u[a + 4..b]| == b - a - 4; }
    }
  }

  /** A gap in front of something. */
  lemma GapThen(b: Re, u: string, p: nat, j: nat)
    requires p <= j <= |u|
    ensures Matches(Cat(PhoneGap, b), u, p, j) <==> exists q :: p <= q <= j && Gap(u, p, q) && Matches(b, u, q, j)
  {
    GapFirst(GapClass, b, u, p, j);
    if Matches(b, u, p, j) { assert Gap(u, p, p); }
    if p < j && In(u[p], GapClass) && Matches(b, u, p + 1, j) { assert Gap(u, p, p + 1); }
  }

  /** The last four digits. */
  lemma LastFour(u: string, d: nat, j: nat)
    requires d <= j <= |u|
    ensures Matches(Times(Digit, 4), u, d, j) <==> j == d + 4 && All(Numeral, u, d, j)
  {
    LastRun(Digit, Numeral, 4, Upto(4), u, d, j);
  }

  /** Three digits, a gap and four digits. */
  ghost predicate Seven(u: string, c: int, j: int) {
    All(Numeral, u, c, c + 3) && exists d :: Gap(u, c + 3, d) && j == d + 4 && All(Numeral, u, d, j)
  }

  ghost predicate Subscriber(u: string, b: int, j: int) {
    exists c :: Gap(u, b, c) && Seven(u, c, j)
  }

  lemma SevenExactly(u: string, c: nat, j: nat)
    requires c <= j <= |u|
    ensures Matches(Cat(Times(Digit, 3), Cat(PhoneGap, Times(Digit, 4))), u, c, j) <==> Seven(u, c, j)
  {
    TimesFirst(Digit, 3, Cat(PhoneGap, Times(Digit, 4)), u, c, j);
    if c + 3 <= j {
      AllExactly(Digit, Numeral, u, c, c + 3);
      GapThenFour(u, c + 3, j);
    }
  }

  lemma GapThenFour(u: string, e: nat, j: nat)
    requires e <= j <= |u|
    ensures Matches(Cat(PhoneGap, Times(Digit, 4)), u, e, j) <==>
            exists d :: Gap(u, e, d) && j == d + 4 && All(Numeral, u, d, j)
  {
    GapThen(Times(Digit, 4), u, e, j);
    forall d | e <= d <= j ensures Matches(Times(Digit, 4), u, d, j) <==> j == d + 4 && All(Numeral, u, d, j) {
      LastFour(u, d, j);
    }
  }

  lemma SubscriberExactly(u: string, b: nat, j: nat)
    requires b <= j <= |u|
    ensures Matches(Cat(PhoneGap, Cat(Times(Digit, 3), Cat(PhoneGap, Times(Digit, 4)))), u, b, j) <==>
            Subscriber(u, b, j)
  {
    var rest := Cat(Times(Digit, 3), Cat(PhoneGap, Times(Digit, 4)));
    forall c | b <= c <= j ensures Matches(rest, u, c, j) <==> Seven(u, c, j) { SevenExactly(u, c, j); }
    GapThenSeven(rest, u, b, j);
  }

  lemma GapThenSeven(rest: Re, u: string, b: nat, j: nat)
    requires b <= j <= |u| && forall c :: b <= c <= j ==> (Matches(rest, u, c, j) <==> Seven(u, c, j))
    ensures Matches(Cat(PhoneGap, rest), u, b, j) <==> Subscriber(u, b, j)
  {
    GapThen(rest, u, b, j);
    if c :| Gap(u, b, c) && Seven(u, c, j) { assert c <= j && Matches(rest, u, c, j); }
  }

  lemma NationalExactly(u: string, a: nat, j: nat)
    requires a <= j <= |u|
    ensures Matches(Cat(AreaCode, Cat(PhoneGap, Cat(Times(Digit, 3), Cat(PhoneGap, Times(Digit, 4))))), u, a, j) <==>
            National(u, a, j)
  {
    var rest := Cat(PhoneGap, Cat(Times(Digit, 3), Cat(PhoneGap, Times(Digit, 4))));
    forall b | a <= b <= j
      ensures Matches(AreaCode, u, a, b) <==> Area(u, a, b)
      ensures Matches(rest, u, b, j) <==> Subscriber(u, b, j)
    {
      AreaExactly(u, a, b);
      SubscriberExactly(u, b, j);
    }
    AreaThen(AreaCode, rest, u, a, j);
    NationalParts(u, a, j);
  }

  lemma AreaThen(area: Re, rest: Re, u: string, a: nat, j: nat)
    requires a <= j <= |u|
    requires forall b :: a <= b <= j ==> (Matches(area, u, a, b) <==> Area(u, a, b))
    requires forall b :: a <= b <= j ==> (Matches(rest, u, b, j) <==> Subscriber(u, b, j))
    ensures Matches(Cat(area, rest), u, a, j) <==> exists b :: Area(u, a, b) && Subscriber(u, b, j)
  {
    if Matches(Cat(area, rest), u, a, j) { var b := SplitCat(area, rest, u, a, j); }
    if b :| Area(u, a, b) && Subscriber(u, b, j) { MakeCat(area, rest, u, a, b, j); }
  }

  lemma NationalParts(u: string, a: int, j: int)
    ensures National(u, a, j) <==> exists b :: Area(u, a, b) && Subscriber(u, b, j)
  {
    if National(u, a, j) {
      var b, c, d :| Area(u, a, b) && Gap(u, b, c) && All(Numeral, u, c, c + 3) && Gap(u, c + 3, d) &&
                     j == d + 4 && All(Numeral, u, d, j);
      assert Seven(u, c, j) && Subscriber(u, b, j);
    }
    if b :| Area(u, a, b) && Subscriber(u, b, j) {
      var c :| Gap(u, b, c) && Seven(u, c, j);
      var d :| Gap(u, c + 3, d) && j == d + 4 && All(Numeral, u, d, j);
    }
  }

  /** A sign or not. */
  lemma SignFirst(sign: Literal, b: Re, u: string, i: nat, j: nat)
    requires i <= j <= |u| && |sign| == 1
    ensures Matches(Cat(Optional(Text(sign)), b), u, i, j) <==>
            Matches(b, u, i, j) || (i < j && u[i] == sign[0] && Matches(b, u, i + 1, j))
  {
    OptionalFirst(Text(sign), b, u, i, j);
    forall m | i < m <= j && Matches(Text(sign), u, i, m) ensures m == i + 1 && u[i] == sign[0] {
      assert |u[i..m]| == m - i;
      OneChar(sign, u, i);
    }
    if i < j && u[i] == sign[0] {
      OneChar(sign, u, i);
      assert Matches(Text(sign), u, i, i + 1);
    }
  }

  ghost predicate CodeAndGap(u: string, p: int, a: int) {
    exists q :: 1 <= q - p <= 3 && All(Numeral, u, p, q) && Gap(u, q, a)
  }

  lemma CodeExactly(u: string, p: nat, a: nat)
    requires p <= a <= |u|
    ensures Matches(Cat(Rep(One(Digit), 1, Upto(3)), PhoneGap), u, p, a) <==> CodeAndGap(u, p, a)
  {
    RunFirst(Digit, 1, Upto(3), PhoneGap, u, p, a);
    forall q | p <= q <= a
      ensures AllIn(Digit, u, p, q) <==> All(Numeral, u, p, q)
      ensures Matches(PhoneGap, u, q, a) <==> Gap(u, q, a)
    {
      AllExactly(Digit, Numeral, u, p, q);
      LastGap(u, q, a);
    }
  }

  lemma CountryExactly(u: string, i: nat, a: nat)
    requires i <= a <= |u|
    ensures Matches(CountryCode, u, i, a) <==> Country(u, i, a)
  {
    SignFirst("+", Cat(Rep(One(Digit), 1, Upto(3)), PhoneGap), u, i, a);
    CodeExactly(u, i, a);
    if i < a { CodeExactly(u, i + 1, a); }
    CountryParts(u, i, a);
  }

  lemma CountryParts(u: string, i: nat, a: nat)
    requires i <= a <= |u|
    ensures Country(u, i, a) <==> CodeAndGap(u, i, a) || (i < a && u[i] == '+' && CodeAndGap(u, i + 1, a))
  {
    if Country(u, i, a) {
      var p, q :| (p == i || (p == i + 1 && 0 <= i < |u| && u[i] == '+')) && 1 <= q - p <= 3 && All(Numeral, u, p, q) &&
                  Gap(u, q, a);
      assert CodeAndGap(u, p, a);
    }
    if CodeAndGap(u, i, a) {
      var q :| 1 <= q - i <= 3 && All(Numeral, u, i, q) && Gap(u, q, a);
    }
    if i < a && u[i] == '+' && CodeAndGap(u, i + 1, a) {
      var p := i + 1;
      var q :| 1 <= q - p <= 3 && All(Numeral, u, p, q) && Gap(u, q, a);
    }
  }

  lemma NanpExactly(u: string, i: nat, j: nat)
    requires i <= j <= |u|
    ensures Matches(Nanp, u, i, j) <==> NanpNumber(u, i, j)
  {
    var rest := Cat(AreaCode, Cat(PhoneGap, Cat(Times(Digit, 3), Cat(PhoneGap, Times(Digit, 4)))));
    forall a | i <= a <= j
      ensures Matches(rest, u, a, j) <==> National(u, a, j)
      ensures Matches(CountryCode, u, i, a) <==> Country(u, i, a)
    {
      NationalExactly(u, a, j);
      CountryExactly(u, i, a);
    }
    CountryThen(CountryCode, rest, u, i, j);
  }

  lemma CountryThen(code: Re, rest: Re, u: string, i: nat, j: nat)
    requires i <= j <= |u|
    requires forall a :: i <= a <= j ==> (Matches(rest, u, a, j) <==> National(u, a, j))
    requires forall a :: i <= a <= j ==> (Matches(code, u, i, a) <==> Country(u, i, a))
    ensures Matches(Cat(Optional(code), rest), u, i, j) <==> NanpNumber(u, i, j)
  {
    OptionalFirst(code, rest, u, i, j);
    if a :| Country(u, i, a) && National(u, a, j) {
      CountryForward(u, i, a);
      NationalForward(u, a, j);
      assert Matches(code, u, i, a) && Matches(rest, u, a, j);
    }
    if National(u, i, j) { assert Matches(rest, u, i, j); }
  }

  lemma CountryForward(u: string, i: int, a: int)
    requires Country(u, i, a)
    ensures i < a <= |u|
  {
  }

  lemma NationalForward(u: string, a: int, j: int)
    requires National(u, a, j)
    ensures 0 <= a < j <= |u|
  {
  }

  // ---------- International numbers ----------

  ghost predicate AfterPrefix(u: string, p: int, j: int) {
    exists q, r, s :: Gap(u, p, q) && 1 <= r - q <= 3 && All(Numeral, u, q, r) && Gap(u, r, s) &&
      Grouped(u, s, j, 5, 12)
  }

  ghost predicate CodeThenGroups(u: string, q: int, j: int) {
    exists r, s :: 1 <= r - q <= 3 && All(Numeral, u, q, r) && Gap(u, r, s) && Grouped(u, s, j, 5, 12)
  }

  ghost predicate GapAndGroups(u: string, r: int, j: int) {
    exists s :: Gap(u, r, s) && Grouped(u, s, j, 5, 12)
  }

  lemma CodeThenGroupsExactly(u: string, q: nat, j: nat)
    requires q <= j <= |u|
    ensures Matches(International.second.second, u, q, j) <==> CodeThenGroups(u, q, j)
  {
    var groups := Cat(Rep(DigitGap, 5, Upto(12)), One(Digit));
    forall r | q <= r <= j ensures Matches(Cat(PhoneGap, groups), u, r, j) <==> GapAndGroups(u, r, j) {
      GapThenGroups(groups, u, r, j);
    }
    CodeThenRest(Cat(PhoneGap, groups), u, q, j);
  }

  lemma CodeThenRest(rest: Re, u: string, q: nat, j: nat)
    requires q <= j <= |u| && forall r :: q <= r <= j ==> (Matches(rest, u, r, j) <==> GapAndGroups(u, r, j))
    ensures Matches(Cat(Rep(One(Digit), 1, Upto(3)), rest), u, q, j) <==> CodeThenGroups(u, q, j)
  {
    RunFirst(Digit, 1, Upto(3), rest, u, q, j);
    forall r | q <= r <= j ensures AllIn(Digit, u, q, r) <==> All(Numeral, u, q, r) {
      AllExactly(Digit, Numeral, u, q, r);
    }
    if r, s :| 1 <= r - q <= 3 && All(Numeral, u, q, r) && Gap(u, r, s) && Grouped(u, s, j, 5, 12) {
      GroupedForward(u, s, j, 5, 12);
      assert GapAndGroups(u, r, j) && AllIn(Digit, u, q, r) && Matches(rest, u, r, j);
    }
    if r :| q + 1 <= r <= j && r - q <= 3 && AllIn(Digit, u, q, r) && Matches(rest, u, r, j) {
      var s :| Gap(u, r, s) && Grouped(u, s, j, 5, 12);
    }
  }

  lemma GapThenGroups(groups: Re, u: string, r: nat, j: nat)
    requires r <= j <= |u| && groups == Cat(Rep(DigitGap, 5, Upto(12)), One(Digit))
    ensures Matches(Cat(PhoneGap, groups), u, r, j) <==> GapAndGroups(u, r, j)
  {
    GapThen(groups, u, r, j);
    forall s | r <= s <= j ensures Matches(groups, u, s, j) <==> Grouped(u, s, j, 5, 12) {
      GroupedExactly(u, s, j, 5, 12);
    }
    if s :| Gap(u, r, s) && Grouped(u, s, j, 5, 12) { GroupedForward(u, s, j, 5, 12); }
  }

  lemma GroupedForward(u: string, s: int, j: int, lo: nat, hi: nat)
    requires Grouped(u, s, j, lo, hi) && lo > 0
    ensures 0 <= s < j <= |u|
  {
    var at :| lo < |at| <= hi + 1 && GroupsAt(u, s, j - 1, at);
    GroupsForward(u, s, j - 1, at);
  }

  lemma AfterPrefixExactly(u: string, p: nat, j: nat)
    requires p <= j <= |u|
    ensures Matches(International.second, u, p, j) <==> AfterPrefix(u, p, j)
  {
    GapThen(International.second.second, u, p, j);
    forall q | p <= q <= j ensures Matches(International.second.second, u, q, j) <==> CodeThenGroups(u, q, j) {
      CodeThenGroupsExactly(u, q, j);
    }
    AfterParts(u, p, j);
  }

  lemma AfterParts(u: string, p: nat, j: nat)
    requires p <= j <= |u|
    ensures AfterPrefix(u, p, j) <==> exists q :: p <= q <= j && Gap(u, p, q) && CodeThenGroups(u, q, j)
  {
    if AfterPrefix(u, p, j) {
      var q, r, s :| Gap(u, p, q) && 1 <= r - q <= 3 && All(Numeral, u, q, r) && Gap(u, r, s) &&
        Grouped(u, s, j, 5, 12);
      GroupedForward(u, s, j, 5, 12);
      assert CodeThenGroups(u, q, j);
    }
    if q :| p <= q <= j && Gap(u, p, q) && CodeThenGroups(u, q, j) {
      var r, s :| 1 <= r - q <= 3 && All(Numeral, u, q, r) && Gap(u, r, s) && Grouped(u, s, j, 5, 12);
    }
  }

  lemma InternationalExactly(u: string, i: nat, j: nat)
    requires i <= j <= |u|
    ensures Matches(International, u, i, j) <==> InternationalNumber(u, i, j)
  {
    EitherFirst(Text("+"), Text("00"), International.second, u, i, j);
    TextFirst("+", International.second, u, i, j);
    TextFirst("00", International.second, u, i, j);
    if i + 1 <= j {
      OneChar("+", u, i);
      AfterPrefixExactly(u, i + 1, j);
    }
    if i + 2 <= j { AfterPrefixExactly(u, i + 2, j); }
    PrefixParts(u, i, j);
  }

  lemma PrefixParts(u: string, i: nat, j: nat)
    requires i <= j <= |u|
    ensures InternationalNumber(u, i, j) <==>
            (i + 1 <= j && u[i] == '+' && AfterPrefix(u, i + 1, j)) ||
            (i + 2 <= j && At(u, i, "00") && AfterPrefix(u, i + 2, j))
  {
    if InternationalNumber(u, i, j) {
      var p, q, r, s :|
        ((p == i + 1 && 0 <= i < |u| && u[i] == '+') || (p == i + 2 && At(u, i, "00"))) && Gap(u, p, q) &&
        1 <= r - q <= 3 && All(Numeral, u, q, r) && Gap(u, r, s) && Grouped(u, s, j, 5, 12);
      GroupedForward(u, s, j, 5, 12);
      assert AfterPrefix(u, p, j);
    }
    if i + 1 <= j && u[i] == '+' && AfterPrefix(u, i + 1, j) { PrefixForm(u, i, i + 1, j); }
    if i + 2 <= j && At(u, i, "00") && AfterPrefix(u, i + 2, j) { PrefixForm(u, i, i + 2, j); }
  }

  lemma PrefixForm(u: string, i: nat, p: nat, j: nat)
    requires (p == i + 1 && i < |u| && u[i] == '+') || (p == i + 2 && At(u, i, "00"))
    requires AfterPrefix(u, p, j)
    ensures InternationalNumber(u, i, j)
  {
    var q, r, s :| Gap(u, p, q) && 1 <= r - q <= 3 && All(Numeral, u, q, r) && Gap(u, r, s) && Grouped(u, s, j, 5, 12);
  }

  const PhoneBody := Alt(Nanp, International)

  lemma PhoneBodyExactly(u: string, n: nat)
    requires |u| == n
    ensures Matches(PhoneBody, u, 0, n) <==> IsPhone(u)
  {
    NanpExactly(u, 0, n);
    InternationalExactly(u, 0, n);
  }

  lemma PhoneBodyIsQuiet()
    ensures Assertions(PhoneBody) == {}
  {
    assert Assertions(AreaCode) == {} && Assertions(CountryCode) == {};
    assert Assertions(Nanp) == {};
    assert Assertions(International.second) == {};
  }

  lemma PhoneOfPiece(t: string, i: nat, j: nat)
    requires i <= j <= |t|
    ensures Matches(PhoneBody, t, i, j) <==> IsPhone(t[i..j])
  {
    PhoneBodyIsQuiet();
    PhoneBodyExactly(t[i..j], j - i);
    PieceIsPhone(PhoneBody, t, i, j);
  }

  lemma PieceIsPhone(body: Re, t: string, i: nat, j: nat)
    requires i <= j <= |t| && Assertions(body) == {}
    requires Matches(body, t[i..j], 0, j - i) <==> IsPhone(t[i..j])
    ensures Matches(body, t, i, j) <==> IsPhone(t[i..j])
  {
    PieceExactly(body, t, i, j);
  }

  lemma PhoneIsGuarded(t: string, i: nat, j: nat)
    requires i <= j <= |t|
    ensures Matches(Phone, t, i, j) <==>
            Holds(NotAfterDigit, t, i) && Matches(PhoneBody, t, i, j) && Holds(NotBeforeDigit, t, j)
  {
    LookFirst(NotAfterDigit, Cat(PhoneBody, Look(NotBeforeDigit)), t, i, j);
    LookLast(PhoneBody, NotBeforeDigit, t, i, j);
  }

  /** The phone pattern matches exactly the phone numbers. */
  lemma PhoneExactly(t: string, i: nat, j: nat)
    requires i <= j <= |t|
    ensures Matches(Phone, t, i, j) <==> PhoneAt(t, i, j)
  {
    PhoneIsGuarded(t, i, j);
    PhoneOfPiece(t, i, j);
  }

  // ---------- Phone numbers behind a keyword ----------

  predicate Separator(c: char) { c in {' ', ':', '.', '-'} }

  ghost predicate Keyword(t: string, i: int, w: int) {
    (AtAnyCase(t, i, "tel") && w == i + 3) || (AtAnyCase(t, i, "phone") && w == i + 5) ||
    (AtAnyCase(t, i, "call") && w == i + 4) || (AtAnyCase(t, i, "ring") && w == i + 4) ||
    (AtAnyCase(t, i, "mobile") && w == i + 6) || (AtAnyCase(t, i, "cell") && w == i + 4) ||
    (AtAnyCase(t, i, "fax") && w == i + 3) || (AtAnyCase(t, i, "whatsapp") && w == i + 8)
  }

  /** A keyword and one to four separators up to `k`. */
  ghost predicate Lead(t: string, i: int, k: int) {
    exists w :: Keyword(t, i, w) && 1 <= k - w <= 4 && All(Separator, t, w, k)
  }

  /** A keyword, separators, and from `k` on 7 to 14 digits in groups. */
  ghost predicate ContextNumber(t: string, i: int, k: int, j: int) {
    Lead(t, i, k) && Grouped(t, k, j, 6, 13)
  }

  ghost predicate IsContextNumber(u: string) {
    exists k :: ContextNumber(u, 0, k, |u|)
  }

  const SeparatorClass := Cls(false, false, false, false, {' ', ':', '.', '-'})
  const Separators := Rep(One(SeparatorClass), 1, Upto(4))

  /** The pattern without the edge behind the keyword, which the separator implies. */
  const ContextPlain := Cat(Cat(PhoneWord, Separators), PhoneRun)

  lemma KeywordExactly(t: string, i: nat, w: nat)
    requires i <= w <= |t|
    ensures Matches(PhoneWord, t, i, w) <==> Keyword(t, i, w)
  {
    LastWord("tel", t, i, w);
    LastWord("phone", t, i, w);
    LastWord("call", t, i, w);
    LastWord("ring", t, i, w);
    LastWord("mobile", t, i, w);
    LastWord("cell", t, i, w);
    LastWord("fax", t, i, w);
    LastWord("whatsapp", t, i, w);
  }

  predicate LetterAt(t: string, p: int) { 0 <= p < |t| && (Capital(t[p]) || Small(t[p])) }

  lemma WordIsLetters(t: string, i: int, s: LowerLiteral)
    requires AtAnyCase(t, i, s) && forall c :: c in s ==> Small(c)
    ensures forall p :: i <= p < i + |s| ==> LetterAt(t, p) && Lower(t[p]) == s[p - i]
  {
    forall p | i <= p < i + |s| ensures LetterAt(t, p) && Lower(t[p]) == s[p - i] {
      assert t[i..i + |s|][p - i] == t[p] && s[p - i] in s;
    }
  }

  /** The last two letters of a keyword tell how long it is. */
  ghost predicate Ending(t: string, i: int, w: int) {
    i + 2 < w <= |t| && 0 <= i && (forall p :: i <= p < w ==> LetterAt(t, p)) &&
    var x, y := Lower(t[w - 2]), Lower(t[w - 1]);
    (x == 'e' && y == 'l' && w == i + 3) || (x == 'n' && y == 'e' && w == i + 5) ||
    (x == 'l' && y == 'l' && w == i + 4) || (x == 'n' && y == 'g' && w == i + 4) ||
    (x == 'l' && y == 'e' && w == i + 6) || (x == 'a' && y == 'x' && w == i + 3) || (x == 'p' && y == 'p' && w == i + 8)
  }

  /** A keyword ends in its last two letters. */
  lemma WordEnding(t: string, i: int, s: LowerLiteral, x: char, y: char, w: int)
    requires AtAnyCase(t, i, s) && (forall c :: c in s ==> Small(c)) && w == i + |s|
    requires |s| > 2 && s[|s| - 2] == x && s[|s| - 1] == y
    ensures 0 <= i && i + 2 < w <= |t| && (forall p :: i <= p < w ==> LetterAt(t, p))
    ensures Lower(t[w - 2]) == x && Lower(t[w - 1]) == y
  {
    WordIsLetters(t, i, s);
    assert LetterAt(t, w - 2) && LetterAt(t, w - 1);
  }

  lemma KeywordEnding(t: string, i: int, w: int)
    requires Keyword(t, i, w)
    ensures Ending(t, i, w)
  {
    if w - i == 4 { FourLetters(t, i, w); } else { OtherLengths(t, i, w); }
  }

  lemma FourLetters(t: string, i: int, w: int)
    requires Keyword(t, i, w) && w - i == 4
    ensures Ending(t, i, w)
  {
    if AtAnyCase(t, i, "call") { WordEnding(t, i, "call", 'l', 'l', w); }
    else if AtAnyCase(t, i, "ring") { WordEnding(t, i, "ring", 'n', 'g', w); }
    else { WordEnding(t, i, "cell", 'l', 'l', w); }
  }

  lemma OtherLengths(t: string, i: int, w: int)
    requires Keyword(t, i, w) && w - i != 4
    ensures Ending(t, i, w)
  {
    if w == i + 5 { WordEnding(t, i, "phone", 'n', 'e', w); }
    else if w == i + 6 { WordEnding(t, i, "mobile", 'l', 'e', w); }
    else if w == i + 8 { WordEnding(t, i, "whatsapp", 'p', 'p', w); }
    else if AtAnyCase(t, i, "tel") { WordEnding(t, i, "tel", 'e', 'l', w); }
    else { WordEnding(t, i, "fax", 'a', 'x', w); }
  }

  lemma SeparatorsExactly(t: string, w: nat, k: nat)
    requires w <= k <= |t|
    ensures Matches(Separators, t, w, k) <==> 1 <= k - w <= 4 && All(Separator, t, w, k)
  {
    LastRun(SeparatorClass, Separator, 1, Upto(4), t, w, k);
  }

  lemma PlainLeadExactly(t: string, i: nat, k: nat)
    requires i <= k <= |t|
    ensures Matches(Cat(PhoneWord, Separators), t, i, k) <==> Lead(t, i, k)
  {
    forall w | i <= w <= k
      ensures Matches(PhoneWord, t, i, w) <==> Keyword(t, i, w)
      ensures Matches(Separators, t, w, k) <==> 1 <= k - w <= 4 && All(Separator, t, w, k)
    {
      KeywordExactly(t, i, w);
      SeparatorsExactly(t, w, k);
    }
    WordThenSeparators(PhoneWord, Separators, t, i, k);
  }

  lemma WordThenSeparators(word: Re, seps: Re, t: string, i: nat, k: nat)
    requires i <= k <= |t|
    requires forall w :: i <= w <= k ==> (Matches(word, t, i, w) <==> Keyword(t, i, w))
    requires forall w :: i <= w <= k ==> (Matches(seps, t, w, k) <==> 1 <= k - w <= 4 && All(Separator, t, w, k))
    ensures Matches(Cat(word, seps), t, i, k) <==> Lead(t, i, k)
  {
    if Matches(Cat(word, seps), t, i, k) { var w := SplitCat(word, seps, t, i, k); }
    if w :| Keyword(t, i, w) && 1 <= k - w <= 4 && All(Separator, t, w, k) {
      KeywordEnding(t, i, w);
      MakeCat(word, seps, t, i, w, k);
    }
  }

  /** The edge behind the keyword is there anyway. */
  lemma LeadExactly(t: string, i: nat, k: nat)
    requires i <= k <= |t|
    ensures Matches(PhoneLead, t, i, k) <==> Lead(t, i, k)
  {
    PlainLeadExactly(t, i, k);
    if Matches(PhoneLead, t, i, k) {
      var w := SplitCat(PhoneWord, Cat(B, Separators), t, i, k);
      LookFirst(WordBoundary, Separators, t, w, k);
      MakeCat(PhoneWord, Separators, t, i, w, k);
    }
    if Lead(t, i, k) { LeadHasEdge(t, i, k); }
  }

  lemma LeadHasEdge(t: string, i: nat, k: nat)
    requires i <= k <= |t| && Lead(t, i, k)
    ensures Matches(PhoneLead, t, i, k)
  {
    var w :| Keyword(t, i, w) && 1 <= k - w <= 4 && All(Separator, t, w, k);
    KeywordEnding(t, i, w);
    KeywordExactly(t, i, w);
    SeparatorsExactly(t, w, k);
    assert LetterAt(t, w - 1) && Separator(t[w]);
    LookFirst(WordBoundary, Separators, t, w, k);
    MakeCat(PhoneWord, Cat(B, Separators), t, i, w, k);
  }

  lemma ContextExactly(t: string, i: nat, j: nat)
    requires i <= j <= |t|
    ensures Matches(PhoneInContext, t, i, j) <==> exists k :: ContextNumber(t, i, k, j)
    ensures Matches(ContextPlain, t, i, j) <==> exists k :: ContextNumber(t, i, k, j)
  {
    forall k | i <= k <= j
      ensures Matches(PhoneLead, t, i, k) <==> Lead(t, i, k)
      ensures Matches(Cat(PhoneWord, Separators), t, i, k) <==> Lead(t, i, k)
      ensures Matches(PhoneRun, t, k, j) <==> Grouped(t, k, j, 6, 13)
    {
      LeadExactly(t, i, k);
      PlainLeadExactly(t, i, k);
      GroupedExactly(t, k, j, 6, 13);
    }
    LeadThenRun(PhoneLead, PhoneRun, t, i, j);
    LeadThenRun(Cat(PhoneWord, Separators), PhoneRun, t, i, j);
  }

  lemma LeadThenRun(lead: Re, run: Re, t: string, i: nat, j: nat)
    requires i <= j <= |t|
    requires forall k :: i <= k <= j ==> (Matches(lead, t, i, k) <==> Lead(t, i, k))
    requires forall k :: i <= k <= j ==> (Matches(run, t, k, j) <==> Grouped(t, k, j, 6, 13))
    ensures Matches(Cat(lead, run), t, i, j) <==> exists k :: ContextNumber(t, i, k, j)
  {
    if Matches(Cat(lead, run), t, i, j) {
      var k := SplitCat(lead, run, t, i, j);
      assert ContextNumber(t, i, k, j);
    }
    if k :| ContextNumber(t, i, k, j) {
      GroupedForward(t, k, j, 6, 13);
      LeadForward(t, i, k);
      MakeCat(lead, run, t, i, k, j);
    }
  }

  lemma LeadForward(t: string, i: int, k: int)
    requires Lead(t, i, k)
    ensures 0 <= i < k <= |t|
  {
    var w :| Keyword(t, i, w) && 1 <= k - w <= 4 && All(Separator, t, w, k);
    KeywordEnding(t, i, w);
  }

  lemma ContextPlainIsQuiet()
    ensures Assertions(ContextPlain) == {}
  {
    assert Assertions(PhoneWord) == {} && Assertions(PhoneRun) == {};
  }

  /** The keyword pattern matches exactly such numbers. */
  lemma ContextOfPiece(t: string, i: nat, j: nat)
    requires i <= j <= |t|
    ensures Matches(PhoneInContext, t, i, j) <==> IsContextNumber(t[i..j])
    ensures Matches(ContextPlain, t, i, j) <==> IsContextNumber(t[i..j])
  {
    ContextExactly(t, i, j);
    ContextPlainIsQuiet();
    PieceExactly(ContextPlain, t, i, j);
    ContextOfWhole(t[i..j], j - i);
  }

  lemma ContextOfWhole(u: string, n: nat)
    requires |u| == n
    ensures Matches(ContextPlain, u, 0, n) <==> IsContextNumber(u)
  {
    ContextExactly(u, 0, n);
  }
}
