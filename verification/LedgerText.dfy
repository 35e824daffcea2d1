/** Writing a ledger down: the verifier reads back what is written, whatever the number of entries. */
module LedgerText {
  import opened Lru
  import opened Strings
  import opened Ledger
  import Regex

  /** What the line of an entry for `name` says. */
  function Line(name: string, value: string): string { "\n**" + name + "**: " + value }

  const ContentName := "Content Hash"
  const PreviousName := "Previous Hash"
  const ChainName := "Chain Hash"

  /** An entry to be written; a genesis entry has no chain hash. */
  datatype Written = Written(num: string, subject: string, content: string, previous: string, chain: Option<string>)

  function Body(w: Written): string {
    w.subject + (Line(ContentName, w.content) + (Line(PreviousName, w.previous) + Tail(w)))
  }

  function Tail(w: Written): string { (if w.chain.Some? then Line(ChainName, w.chain.value) else "") + "\n" }

  function Pieces(ws: seq<Written>): seq<(string, string)> {
    seq(|ws|, i requires 0 <= i < |ws| => (ws[i].num, Body(ws[i])))
  }

  function Print(ws: seq<Written>): string { Printed(Pieces(ws)) }

  predicate Digest(h: string) { |h| == 64 && HexAt(h, 0) }

  ghost predicate Absent(t: string, s: string) {
    forall k :: 0 <= k <= |t| ==> !StandsAt(t, k, s)
  }

  /** One line without white space at either end; what starts with a digest is one. */
  ghost predicate OneLine(v: string) {
    v != "" && !Regex.IsSpace(v[0]) && StripRight(v) == v && '\n' !in v && (HexAt(v, 0) ==> |v| == 64) &&
    Absent(v, ChainName)
  }

  /** One line that does not go on with the number and names none of the three hashes. */
  ghost predicate Subject(s: string) {
    '\n' !in s && (s != "" ==> !Regex.IsDigit(s[0])) && Absent(s, ContentName) && Absent(s, PreviousLabel) &&
    Absent(s, ChainName)
  }

  predicate IsNumber(num: string) {
    num != "" && forall k :: 0 <= k < |num| ==> Regex.IsDigit(num[k])
  }

  ghost predicate WellFormed(w: Written) {
    IsNumber(w.num) && Subject(w.subject) && Digest(w.content) && OneLine(w.previous) &&
    (w.chain.Some? ==> Digest(w.chain.value))
  }

  // ---------- Looking behind a piece ----------

  lemma StandsBehind(a: string, b: string, s: string, k: nat)
    ensures StandsAt(a + b, |a| + k, s) <==> StandsAt(b, k, s)
  {
    if k + |s| <= |b| { assert (a + b)[|a| + k..|a| + k + |s|] == b[k..k + |s|]; }
  }

  lemma StandsCharacter(text: string, k: nat, s: string, i: nat)
    requires i < |s|
    ensures StandsAt(text, k, s) ==> k + i < |text| && text[k + i] == s[i]
  {
    if StandsAt(text, k, s) { assert text[k..k + |s|][i] == s[i]; }
  }

  /** What has no line break does not reach over one. */
  lemma StandsInFront(a: string, b: string, s: string, k: nat)
    requires '\n' !in s && k < |a| && (b != "" ==> b[0] == '\n')
    ensures StandsAt(a + b, k, s) ==> StandsAt(a, k, s)
  {
    assert b != "" ==> (a + b)[|a|] == b[0];
    if k + |s| <= |a| {
      assert (a + b)[k..k + |s|] == a[k..k + |s|];
    } else {
      StandsCharacter(a + b, k, s, |a| - k);
    }
  }

  lemma {:induction false} FindBehind(a: string, b: string, s: string, p: nat)
    requires p <= |b|
    ensures Find(a + b, s, |a| + p) == |a| + Find(b, s, p)
    decreases |b| - p
  {
    StandsBehind(a, b, s, p);
    if p < |b| { FindBehind(a, b, s, p + 1); }
  }

  lemma {:induction false} FindSkips(a: string, b: string, s: string, p: nat)
    requires '\n' !in s && p <= |a| && (b != "" ==> b[0] == '\n') && Absent(a, s)
    ensures Find(a + b, s, p) == Find(a + b, s, |a|)
    decreases |a| - p
  {
    if p < |a| {
      StandsInFront(a, b, s, p);
      FindSkips(a, b, s, p + 1);
    }
  }

  lemma HexBehind(a: string, b: string, k: nat)
    ensures HexAt(a + b, |a| + k) <==> HexAt(b, k)
  {
    assert forall i :: 0 <= i < |b| ==> (a + b)[|a| + i] == b[i];
    if HexAt(a + b, |a| + k) {
      forall i | k <= i < k + 64 ensures IsHex(b[i]) { assert IsHex((a + b)[|a| + i]); }
    }
  }

  lemma {:induction false} FindHexBehind(a: string, b: string, p: nat)
    requires p <= |b|
    ensures FindHex(a + b, |a| + p) == |a| + FindHex(b, p)
    decreases |b| - p
  {
    HexBehind(a, b, p);
    if p < |b| { FindHexBehind(a, b, p + 1); }
  }

  function HashFrom(body: string, i: nat): Option<string>
    requires i <= |body|
  {
    var p := FindHex(body, i);
    if HexAt(body, p) then Some(body[p..p + 64]) else None
  }

  lemma HashFromBehind(a: string, b: string, i: nat)
    requires i <= |b|
    ensures HashFrom(a + b, |a| + i) == HashFrom(b, i)
  {
    FindHexBehind(a, b, i);
    var p := FindHex(b, i);
    HexBehind(a, b, p);
    if HexAt(b, p) { assert (a + b)[|a| + p..|a| + p + 64] == b[p..p + 64]; }
  }

  lemma HashAfterIs(body: string, name: string)
    ensures var i := Find(body, name, 0); HashAfter(body, name) == if i == |body| then None else HashFrom(body, i)
  {
  }

  /** A piece that does not name the hash is skipped. */
  lemma HashAfterSkips(a: string, b: string, name: string)
    requires '\n' !in name && (b != "" ==> b[0] == '\n') && Absent(a, name)
    ensures HashAfter(a + b, name) == HashAfter(b, name)
  {
    FindSkips(a, b, name, 0);
    FindBehind(a, b, name, 0);
    HashFromBehind(a, b, Find(b, name, 0));
    HashAfterIs(a + b, name);
    HashAfterIs(b, name);
  }

  lemma {:induction false} SpacesBehind(a: string, b: string, p: nat)
    requires p <= |b|
    ensures SkipSpaces(a + b, |a| + p) == |a| + SkipSpaces(b, p)
    decreases |b| - p
  {
    if p < |b| {
      assert (a + b)[|a| + p] == b[p];
      SpacesBehind(a, b, p + 1);
    }
  }

  lemma {:induction false} LineBehind(a: string, b: string, p: nat)
    requires p <= |b|
    ensures LineEnd(a + b, |a| + p) == |a| + LineEnd(b, p)
    decreases |b| - p
  {
    if p < |b| {
      assert (a + b)[|a| + p] == b[p];
      LineBehind(a, b, p + 1);
    }
  }

  function ValueAt(body: string, r: nat): string
    requires r <= |body|
  {
    StripRight(body[r..LineEnd(body, r)])
  }

  lemma ValueBehind(a: string, b: string, r: nat)
    requires r <= |b|
    ensures ValueAt(a + b, |a| + r) == ValueAt(b, r)
  {
    LineBehind(a, b, r);
    assert (a + b)[|a| + r..|a| + LineEnd(b, r)] == b[r..LineEnd(b, r)];
  }

  /** The first label has a value behind it. */
  lemma PreviousAt(text: string, q: nat, r: nat)
    requires Find(text, PreviousLabel, 0) == q && q + |PreviousLabel| <= r < |text|
    requires SkipSpaces(text, q + |PreviousLabel|) == r
    ensures PreviousFrom(text, 0) == Some(ValueAt(text, r))
  {
  }

  // ---------- The lines of an entry ----------

  /** Where the value begins. */
  function Indent(name: string): nat { 7 + |name| }

  lemma LineParts(name: string, value: string, tail: string)
    ensures var t := Line(name, value) + tail;
            |t| == Indent(name) + |value| + |tail| && t[0] == '\n' && t[1] == '*' && t[2] == '*' &&
            t[3..3 + |name|] == name && t[3 + |name|..Indent(name)] == "**: " &&
            t[Indent(name)..Indent(name) + |value|] == value && t[Indent(name) + |value|..] == tail
  {
    var head := "\n**" + name + "**: ";
    assert Line(name, value) == head + value;
    var t := Line(name, value) + tail;
    assert t == "\n**" + (name + ("**: " + (value + tail)));
    assert t[3..] == name + ("**: " + (value + tail));
    assert t[3 + |name|..] == "**: " + (value + tail);
    assert t[7 + |name|..] == value + tail;
  }

  /** The digest in a line is read. */
  lemma DigestIsRead(name: string, h: string, tail: string)
    requires Digest(h) && 0 < |name| <= 50 && name[0] != '\n' && name[0] != '*'
    ensures HashAfter(Line(name, h) + tail, name) == Some(h)
  {
    var t := Line(name, h) + tail;
    LineParts(name, h, tail);
    var n := Indent(name);
    FirstAtThree(t, name);
    assert t[n - 1] == t[3 + |name|..n][3] == ' ';
    HexThere(t, h, n);
    FirstHex(t, 3, n);
  }

  lemma FirstAtThree(t: string, name: string)
    requires 0 < |name| && 3 + |name| <= |t| && t[3..3 + |name|] == name
    requires forall k :: 0 <= k < 3 ==> t[k] != name[0]
    ensures Find(t, name, 0) == 3
  {
    forall k | 0 <= k < 3 ensures !StandsAt(t, k, name) { StandsCharacter(t, k, name, 0); }
    FindAt(t, name, 0, 3);
  }

  lemma {:induction false} FindAt(text: string, s: string, p: nat, q: nat)
    requires p <= q < |text| && StandsAt(text, q, s) && forall k :: p <= k < q ==> !StandsAt(text, k, s)
    ensures Find(text, s, p) == q
    decreases q - p
  {
    if p < q { FindAt(text, s, p + 1, q); }
  }

  lemma HexThere(t: string, h: string, n: nat)
    requires Digest(h) && n + 64 <= |t| && t[n..n + 64] == h
    ensures HexAt(t, n)
  {
    forall i | n <= i < n + 64 ensures IsHex(t[i]) { assert t[i] == t[n..n + 64][i - n]; }
  }

  /** The digest behind a character that is none of a digest. */
  lemma {:induction false} FirstHex(t: string, p: nat, n: nat)
    requires p < n <= p + 64 && HexAt(t, n) && t[n - 1] == ' '
    ensures FindHex(t, p) == n
    decreases n - p
  {
    assert !IsHex(t[n - 1]);
    if p + 1 < n { FirstHex(t, p + 1, n); }
  }

  const ContentHead := "\n**Content Hash**: "
  const PreviousHead := "\n**Previous Hash**: "

  lemma HeadChars()
    ensures |ContentHead| == 19 && |PreviousHead| == 20 && PreviousHead[1..19] == PreviousLabel && |PreviousLabel| == 18
    ensures forall k :: 0 <= k < 19 ==>
              ContentHead[k] != 'P' && (ContentHead[k] == 'C' <==> k == 3) && (ContentHead[k] == '\n' <==> k == 0)
    ensures forall k :: 0 <= k < 20 ==>
              PreviousHead[k] != 'C' && (PreviousHead[k] == '\n' <==> k == 0)
    ensures ContentHead[1] == '*' && ContentHead[4] == 'o'
    ensures PreviousHead[0] == '\n' && PreviousHead[1] == '*' && PreviousHead[19] == ' '
  {
  }

  lemma HeadsAreHeads(v: string)
    ensures Line(ContentName, v) == ContentHead + v && Line(PreviousName, v) == PreviousHead + v
  {
  }

  /** The content line names no other hash. */
  lemma ContentLineAbsent(h: string)
    requires Digest(h)
    ensures Absent(Line(ContentName, h), ChainName) && Absent(Line(ContentName, h), PreviousLabel)
  {
    var t := Line(ContentName, h);
    HeadChars();
    HeadsAreHeads(h);
    assert forall k :: 0 <= k < |t| ==> t[k] == if k < 19 then ContentHead[k] else h[k - 19];
    forall k | 0 <= k <= |t| ensures !StandsAt(t, k, ChainName) && !StandsAt(t, k, PreviousLabel) {
      StandsCharacter(t, k, ChainName, 0);
      StandsCharacter(t, k, ChainName, 1);
      StandsCharacter(t, k, PreviousLabel, 2);
    }
  }

  /** The line of the previous hash names no chain hash, unless its value does. */
  lemma PreviousLineAbsent(v: string)
    requires Absent(v, ChainName)
    ensures Absent(Line(PreviousName, v), ChainName)
  {
    var t := Line(PreviousName, v);
    HeadChars();
    HeadsAreHeads(v);
    forall k | 0 <= k <= |t| ensures !StandsAt(t, k, ChainName) {
      if k < 20 {
        StandsCharacter(t, k, ChainName, 0);
      } else {
        StandsBehind(PreviousHead, v, ChainName, k - 20);
      }
    }
  }

  lemma AbsentSum(a: string, b: string, s: string)
    requires '\n' !in s && Absent(a, s) && Absent(b, s) && b != "" && b[0] == '\n'
    ensures Absent(a + b, s)
  {
    forall k | 0 <= k <= |a + b| ensures !StandsAt(a + b, k, s) {
      if k < |a| { StandsInFront(a, b, s, k); } else { StandsBehind(a, b, s, k - |a|); }
    }
  }

  lemma NamesHaveNoBreak()
    ensures '\n' !in ContentName && '\n' !in ChainName && '\n' !in PreviousLabel
    ensures 0 < |ContentName| <= 50 && ContentName[0] == 'C' && 0 < |ChainName| <= 50 && ChainName[0] == 'C'
  {
  }

  // ---------- An entry is read back ----------

  lemma TailStarts(w: Written)
    ensures Tail(w) != "" && Tail(w)[0] == '\n'
  {
  }

  lemma LineStarts(name: string, v: string, tail: string)
    ensures Line(name, v) + tail != "" && (Line(name, v) + tail)[0] == '\n'
  {
    LineParts(name, v, tail);
  }

  lemma ContentIsRead(w: Written)
    requires WellFormed(w)
    ensures HashAfter(Body(w), ContentName) == Some(w.content)
  {
    var rest := Line(PreviousName, w.previous) + Tail(w);
    NamesHaveNoBreak();
    LineStarts(ContentName, w.content, rest);
    HashAfterSkips(w.subject, Line(ContentName, w.content) + rest, ContentName);
    DigestIsRead(ContentName, w.content, rest);
  }

  lemma ChainIsRead(w: Written)
    requires WellFormed(w)
    ensures HashAfter(Body(w), ChainName) == w.chain
  {
    var rest := Line(PreviousName, w.previous) + Tail(w);
    NamesHaveNoBreak();
    LineStarts(ContentName, w.content, rest);
    HashAfterSkips(w.subject, Line(ContentName, w.content) + rest, ChainName);
    ContentLineAbsent(w.content);
    LineStarts(PreviousName, w.previous, Tail(w));
    HashAfterSkips(Line(ContentName, w.content), rest, ChainName);
    PreviousLineAbsent(w.previous);
    TailStarts(w);
    HashAfterSkips(Line(PreviousName, w.previous), Tail(w), ChainName);
    TailIsRead(w);
  }

  lemma TailIsRead(w: Written)
    requires w.chain.Some? ==> Digest(w.chain.value)
    ensures HashAfter(Tail(w), ChainName) == w.chain
  {
    NamesHaveNoBreak();
    if w.chain.Some? {
      DigestIsRead(ChainName, w.chain.value, "\n");
    } else {
      assert Tail(w) == "\n";
      StandsCharacter("\n", 0, ChainName, 0);
      assert Find("\n", ChainName, 0) == 1;
    }
  }

  lemma {:induction false} LineEndsAt(t: string, p: nat, e: nat)
    requires p <= e < |t| && t[e] == '\n' && forall k :: p <= k < e ==> t[k] != '\n'
    ensures LineEnd(t, p) == e
    decreases e - p
  {
    if p < e { LineEndsAt(t, p + 1, e); }
  }

  /** The value of the line is read. */
  lemma ValueIsRead(v: string, tail: string)
    requires OneLine(v) && tail != "" && tail[0] == '\n'
    ensures var t := Line(PreviousName, v) + tail;
            Find(t, PreviousLabel, 0) == 1 && 20 < |t| && SkipSpaces(t, 19) == 20 && ValueAt(t, 20) == v
  {
    var t := Line(PreviousName, v) + tail;
    HeadChars();
    HeadsAreHeads(v);
    assert t == PreviousHead + (v + tail);
    assert t[1..19] == PreviousHead[1..19];
    StandsCharacter(t, 0, PreviousLabel, 0);
    FindAt(t, PreviousLabel, 0, 1);
    assert t[19] == ' ' && t[20] == v[0];
    assert SkipSpaces(t, 20) == 20;
    LineEndsAt(t, 20, 20 + |v|);
    assert t[20..20 + |v|] == v;
  }

  lemma PreviousIsRead(w: Written)
    requires WellFormed(w)
    ensures Previous(Body(w)) == Some(w.previous)
  {
    var a, b := w.subject + Line(ContentName, w.content), Line(PreviousName, w.previous) + Tail(w);
    assert Body(w) == a + b;
    TailStarts(w);
    LineStarts(PreviousName, w.previous, Tail(w));
    LineStarts(ContentName, w.content, "");
    assert Line(ContentName, w.content) + "" == Line(ContentName, w.content);
    NamesHaveNoBreak();
    ContentLineAbsent(w.content);
    AbsentSum(w.subject, Line(ContentName, w.content), PreviousLabel);
    ValueIsRead(w.previous, Tail(w));
    PreviousInSum(a, b, w.previous);
  }

  lemma PreviousInSum(a: string, b: string, v: string)
    requires OneLine(v) && Absent(a, PreviousLabel) && b != "" && b[0] == '\n'
    requires Find(b, PreviousLabel, 0) == 1 && 20 < |b| && SkipSpaces(b, 19) == 20 && ValueAt(b, 20) == v
    ensures Previous(a + b) == Some(v)
  {
    HeadChars();
    NamesHaveNoBreak();
    FindSkips(a, b, PreviousLabel, 0);
    FindBehind(a, b, PreviousLabel, 0);
    SpacesBehind(a, b, 19);
    ValueBehind(a, b, 20);
    PreviousAt(a + b, |a| + 1, |a| + 20);
    assert HexAt(v, 0) ==> v[..64] == v;
  }

  function AsEntry(w: Written): Entry { Entry(w.num, Some(w.content), Some(w.previous), w.chain) }

  /** Each hash of an entry is read back. */
  lemma EntryIsRead(w: Written)
    requires WellFormed(w)
    ensures ParseEntry(w.num, Body(w)) == AsEntry(w)
  {
    ContentIsRead(w);
    PreviousIsRead(w);
    ChainIsRead(w);
  }

  // ---------- The entries of a written ledger ----------

  /** A piece that is cut out as it is: a number, then complete lines none of which is a header. */
  ghost predicate Cuttable(p: (string, string)) {
    IsNumber(p.0) && p.1 != "" && !Regex.IsDigit(p.1[0]) && p.1[|p.1| - 1] == '\n' && NoHeaderLine(p.1)
  }

  ghost predicate NoHeaderLine(b: string) {
    forall k :: 0 < k < |b| && b[k - 1] == '\n' ==> b[k] != '#'
  }

  lemma {:induction false} DigitsUpTo(text: string, p: nat, q: nat)
    requires p <= q <= |text| && (forall k :: p <= k < q ==> Regex.IsDigit(text[k]))
    requires q < |text| ==> !Regex.IsDigit(text[q])
    ensures SkipDigits(text, p) == q
    decreases q - p
  {
    if p < q { DigitsUpTo(text, p + 1, q); }
  }

  lemma NoHeaderAt(text: string, k: nat)
    requires 0 < k < |text| && (text[k - 1] == '\n' ==> text[k] != '#')
    ensures !HeaderAt(text, k)
  {
    StandsCharacter(text, k, HeaderStart, 0);
  }

  lemma {:induction false} HeaderNext(text: string, p: nat, q: nat)
    requires 0 < p <= q <= |text| && (q < |text| ==> HeaderAt(text, q))
    requires forall k :: p <= k < q ==> (text[k - 1] == '\n' ==> text[k] != '#')
    ensures NextHeader(text, p) == q
    decreases q - p
  {
    if p < q {
      NoHeaderAt(text, p);
      HeaderNext(text, p + 1, q);
    }
  }

  /** The places of one piece in a text that goes on with `rest`. */
  lemma PieceParts(pre: string, num: string, body: string, rest: string)
    ensures var text := pre + (HeaderStart + num + body + rest);
            var d := |pre| + 11; var b := d + |num|; var n := b + |body|;
            n + |rest| == |text| && text[|pre|..d] == HeaderStart && text[d..b] == num && text[b..n] == body &&
            text[n..] == rest && text[..|pre|] == pre
  {
    assert |HeaderStart| == 11;
    var text := pre + (HeaderStart + num + body + rest);
    assert text == pre + (HeaderStart + (num + (body + rest)));
    assert text[|pre|..] == HeaderStart + (num + (body + rest));
    assert text[|pre| + 11..] == num + (body + rest);
    assert text[|pre| + 11 + |num|..] == body + rest;
  }

  ghost predicate AtLineStart(pre: string) { pre == "" || pre[|pre| - 1] == '\n' }

  lemma PrintedStarts(ps: seq<(string, string)>)
    requires ps != [] && IsNumber(ps[0].0)
    ensures var t := Printed(ps); |t| > 11 && t[..11] == HeaderStart && Regex.IsDigit(t[11])
  {
    PieceParts("", ps[0].0, ps[0].1, Printed(ps[1..]));
    var t := Printed(ps);
    assert t == "" + (HeaderStart + ps[0].0 + ps[0].1 + Printed(ps[1..]));
    assert t[11] == t[11..11 + |ps[0].0|][0];
  }

  lemma HeaderStands(pre: string, ps: seq<(string, string)>)
    requires AtLineStart(pre) && ps != [] && IsNumber(ps[0].0)
    ensures HeaderAt(pre + Printed(ps), |pre|)
  {
    PrintedStarts(ps);
    var text := pre + Printed(ps);
    assert text[|pre|..|pre| + 11] == Printed(ps)[..11];
    assert text[|pre| + 11] == Printed(ps)[11];
    assert |pre| > 0 ==> text[|pre| - 1] == pre[|pre| - 1];
  }

  /** Where the number and the body end. */
  lemma CutsAt(text: string, d: nat, b: nat, n: nat, num: string, body: string)
    requires Cuttable((num, body)) && d <= b <= n <= |text| && text[d..b] == num && text[b..n] == body
    requires n < |text| ==> HeaderAt(text, n)
    ensures SkipDigits(text, d) == b && NextHeader(text, b) == n && text[n - 1] == '\n'
  {
    assert forall k :: d <= k < b ==> text[k] == text[d..b][k - d];
    assert forall k :: b <= k < n ==> text[k] == text[b..n][k - b];
    DigitsUpTo(text, d, b);
    HeaderNext(text, b, n);
  }

  lemma EntriesStep(text: string, p: nat, b: nat, n: nat)
    requires p < |text| && HeaderAt(text, p) && SkipDigits(text, p + 11) == b && NextHeader(text, b) == n
    ensures p + 11 <= b <= n <= |text| && (n < |text| ==> HeaderAt(text, n))
    ensures EntriesFrom(text, p) == [(text[p + 11..b], text[b..n])] + EntriesFrom(text, n)
  {
    assert |HeaderStart| == 11;
  }

  /** One piece, and what the rest gives. */
  lemma FirstCut(text: string, p: nat, d: nat, b: nat, n: nat, num: string, body: string)
    requires Cuttable((num, body)) && d == p + 11 <= b <= n <= |text| && text[d..b] == num && text[b..n] == body
    requires HeaderAt(text, p) && (n < |text| ==> HeaderAt(text, n))
    ensures EntriesFrom(text, p) == [(num, body)] + EntriesFrom(text, n)
  {
    CutsAt(text, d, b, n, num, body);
    EntriesStep(text, p, b, n);
  }

  lemma PieceCut(pre: string, text: string, num: string, body: string, rest: string, n: nat)
    requires Cuttable((num, body)) && text == pre + (HeaderStart + num + body + rest)
    requires n == |pre| + 11 + |num| + |body| <= |text|
    requires HeaderAt(text, |pre|) && (n < |text| ==> HeaderAt(text, n))
    ensures EntriesFrom(text, |pre|) == [(num, body)] + EntriesFrom(text, n)
  {
    PieceParts(pre, num, body, rest);
    var d := |pre| + 11;
    FirstCut(text, |pre|, d, d + |num|, n, num, body);
  }

  /** What is in front of the rest. */
  function Front(pre: string, p: (string, string)): string { pre + (HeaderStart + p.0 + p.1) }

  lemma FrontParts(pre: string, ps: seq<(string, string)>)
    requires ps != [] && Cuttable(ps[0])
    ensures pre + Printed(ps) == Front(pre, ps[0]) + Printed(ps[1..]) && AtLineStart(Front(pre, ps[0]))
    ensures |Front(pre, ps[0])| == |pre| + 11 + |ps[0].0| + |ps[0].1|
    ensures pre + Printed(ps) == pre + (HeaderStart + ps[0].0 + ps[0].1 + Printed(ps[1..]))
  {
    var u := HeaderStart + ps[0].0 + ps[0].1;
    assert |HeaderStart| == 11;
    assert Printed(ps) == u + Printed(ps[1..]);
    assert pre + (u + Printed(ps[1..])) == (pre + u) + Printed(ps[1..]);
  }

  lemma HeaderOrEnd(pre: string, ps: seq<(string, string)>)
    requires AtLineStart(pre) && forall p :: p in ps ==> Cuttable(p)
    ensures ps != [] ==> HeaderAt(pre + Printed(ps), |pre|)
    ensures |pre + Printed(ps)| > |pre| <==> ps != []
  {
    if ps != [] {
      assert ps[0] in ps;
      HeaderStands(pre, ps);
    }
  }

  /** Cutting gives the pieces back. */
  lemma {:induction false} CutRoundTrip(pre: string, ps: seq<(string, string)>, text: string)
    requires AtLineStart(pre) && (forall p :: p in ps ==> Cuttable(p)) && text == pre + Printed(ps)
    ensures ps != [] ==> HeaderAt(text, |pre|)
    ensures |text| > |pre| <==> ps != []
    ensures EntriesFrom(text, |pre|) == ps
    decreases |ps|, 2
  {
    HeaderOrEnd(pre, ps);
    if ps != [] { CutFirst(pre, ps, text, Front(pre, ps[0])); }
  }

  lemma {:induction false} CutFirst(pre: string, ps: seq<(string, string)>, text: string, front: string)
    requires ps != [] && (forall p :: p in ps ==> Cuttable(p)) && text == pre + Printed(ps)
    requires front == Front(pre, ps[0]) && HeaderAt(text, |pre|)
    ensures EntriesFrom(text, |pre|) == ps
    decreases |ps|, 1
  {
    assert ps[0] in ps;
    CutRest(pre, ps, text, front);
    FirstGiven(pre, ps, text, |front|);
  }

  lemma FirstGiven(pre: string, ps: seq<(string, string)>, text: string, n: nat)
    requires ps != [] && Cuttable(ps[0]) && text == pre + Printed(ps) && n == |Front(pre, ps[0])| <= |text|
    requires HeaderAt(text, |pre|) && (n < |text| ==> HeaderAt(text, n)) && EntriesFrom(text, n) == ps[1..]
    ensures EntriesFrom(text, |pre|) == ps
  {
    FrontParts(pre, ps);
    PieceCut(pre, text, ps[0].0, ps[0].1, Printed(ps[1..]), n);
    Whole(ps, EntriesFrom(text, |pre|));
  }

  lemma Whole<T>(ps: seq<(T, T)>, all: seq<(T, T)>)
    requires ps != [] && all == [(ps[0].0, ps[0].1)] + ps[1..]
    ensures all == ps
  {
    assert (ps[0].0, ps[0].1) == ps[0];
  }

  lemma {:induction false} CutRest(pre: string, ps: seq<(string, string)>, text: string, front: string)
    requires ps != [] && (forall p :: p in ps ==> Cuttable(p)) && text == pre + Printed(ps)
    requires front == Front(pre, ps[0])
    ensures |front| <= |text| && (|front| < |text| ==> HeaderAt(text, |front|))
    ensures EntriesFrom(text, |front|) == ps[1..]
    decreases |ps|, 0
  {
    assert ps[0] in ps && forall p :: p in ps[1..] ==> p in ps;
    FrontParts(pre, ps);
    CutRoundTrip(front, ps[1..], text);
  }

  lemma NoHeaderSum(a: string, b: string)
    requires NoHeaderLine(a) && NoHeaderLine(b) && (b != "" ==> b[0] != '#')
    ensures NoHeaderLine(a + b)
  {
  }

  lemma LineHasNoHeader(name: string, v: string)
    requires '\n' !in name && '\n' !in v
    ensures NoHeaderLine(Line(name, v))
  {
    var t := Line(name, v);
    LineParts(name, v, "");
    assert t + "" == t;
    assert t == "\n" + ("**" + name + "**: " + v);
    var u := "**" + name + "**: " + v;
    assert '\n' !in "**" && '\n' !in "**: ";
    assert forall k :: 0 < k < |t| ==> t[k] == u[k - 1] && u[k - 1] in u;
  }

  lemma BodyIsCuttable(w: Written)
    requires WellFormed(w)
    ensures Cuttable((w.num, Body(w)))
  {
    var rest := Line(PreviousName, w.previous) + Tail(w);
    NamesHaveNoBreak();
    DigestHasNoBreak(w.content);
    TailIsPlain(w);
    TailStarts(w);
    LineHasNoHeader(PreviousName, w.previous);
    NoHeaderSum(Line(PreviousName, w.previous), Tail(w));
    LineStarts(PreviousName, w.previous, Tail(w));
    LineHasNoHeader(ContentName, w.content);
    NoHeaderSum(Line(ContentName, w.content), rest);
    LineStarts(ContentName, w.content, rest);
    SubjectIsPlain(w.subject);
    NoHeaderSum(w.subject, Line(ContentName, w.content) + rest);
  }

  lemma SubjectIsPlain(s: string)
    requires '\n' !in s
    ensures NoHeaderLine(s)
  {
  }

  lemma DigestHasNoBreak(h: string)
    requires Digest(h)
    ensures '\n' !in h
  {
  }

  lemma TailIsPlain(w: Written)
    requires w.chain.Some? ==> Digest(w.chain.value)
    ensures NoHeaderLine(Tail(w)) && Tail(w)[|Tail(w)| - 1] == '\n'
  {
    NamesHaveNoBreak();
    if w.chain.Some? {
      DigestHasNoBreak(w.chain.value);
      LineHasNoHeader(ChainName, w.chain.value);
      NoHeaderSum(Line(ChainName, w.chain.value), "\n");
    } else {
      assert Tail(w) == "\n";
    }
  }

  ghost predicate AllWellFormed(ws: seq<Written>) {
    forall w :: w in ws ==> WellFormed(w)
  }

  function AsEntries(ws: seq<Written>): seq<Entry> {
    seq(|ws|, i requires 0 <= i < |ws| => AsEntry(ws[i]))
  }

  lemma PiecesAreCuttable(ws: seq<Written>)
    requires AllWellFormed(ws)
    ensures forall p :: p in Pieces(ws) ==> Cuttable(p)
  {
    forall p | p in Pieces(ws) ensures Cuttable(p) {
      var i :| 0 <= i < |ws| && Pieces(ws)[i] == p;
      assert ws[i] in ws;
      BodyIsCuttable(ws[i]);
    }
  }

  lemma PrintedIsCut(ps: seq<(string, string)>)
    requires forall p :: p in ps ==> Cuttable(p)
    ensures Entries(Printed(ps)) == ps
  {
    var text := Printed(ps);
    assert text == "" + text;
    CutRoundTrip("", ps, text);
  }

  lemma PiecesAreParsed(ws: seq<Written>)
    requires AllWellFormed(ws)
    ensures Parsed(Pieces(ws)) == AsEntries(ws)
  {
    forall i | 0 <= i < |ws| ensures ParseEntry(Pieces(ws)[i].0, Pieces(ws)[i].1) == AsEntry(ws[i]) {
      assert ws[i] in ws;
      EntryIsRead(ws[i]);
    }
  }

  /** Every entry of a written ledger is read back, with every hash, at any length. */
  lemma PrintRoundTrip(ws: seq<Written>)
    requires AllWellFormed(ws)
    ensures Entries(Print(ws)) == Pieces(ws) && Parsed(Entries(Print(ws))) == AsEntries(ws)
  {
    PiecesAreCuttable(ws);
    PrintedIsCut(Pieces(ws));
    PiecesAreParsed(ws);
  }

  // ---------- When a written ledger verifies ----------

  predicate Anchor(w: Written) { Contains(w.previous, "GENESIS") }

  /** What the next entry has to name as its previous hash. */
  function LinkOf(w: Written): Option<string> { if Anchor(w) then Some(w.content) else w.chain }

  /** At most one genesis entry, without a chain hash; every other entry has the hash of its content and previous
      hashes, and names what it follows. */
  ghost predicate WellChained(hash: Hash, ws: seq<Written>) {
    (forall i, j :: 0 <= i < j < |ws| ==> !(Anchor(ws[i]) && Anchor(ws[j]))) &&
    (forall i :: 0 <= i < |ws| ==>
      ws[i].chain == if Anchor(ws[i]) then None else Some(hash(ws[i].content + ws[i].previous))) &&
    forall i, j :: 0 <= i && j == i + 1 && j < |ws| && !Anchor(ws[j]) ==> Some(ws[j].previous) == LinkOf(ws[i])
  }

  lemma ChainedExactly(hash: Hash, ws: seq<Written>)
    ensures WellChained(hash, ws) <==> Verifies(hash, AsEntries(ws))
  {
    var es := AsEntries(ws);
    assert forall i :: 0 <= i < |ws| ==> IsGenesis(es[i]) == Anchor(ws[i]) && Link(es[i]) == LinkOf(ws[i]);
    if Verifies(hash, es) {
      forall i | 0 <= i < |ws| && !Anchor(ws[i])
        ensures ws[i].chain == Some(hash(ws[i].content + ws[i].previous))
        ensures i > 0 ==> Some(ws[i].previous) == LinkOf(ws[i - 1])
      {
        assert ChainedAt(hash, es, i);
      }
    }
    if WellChained(hash, ws) {
      forall i | 0 <= i < |es| && !IsGenesis(es[i]) ensures ChainedAt(hash, es, i) {
        if i > 0 { assert Some(ws[i].previous) == LinkOf(ws[i - 1]); }
      }
    }
  }

  /** A written ledger is reported free of errors exactly when its entries are chained. */
  lemma PrintedVerifiesExactly(hash: Hash, ws: seq<Written>)
    requires AllWellFormed(ws)
    ensures LedgerErrors(hash, Print(ws)) == [] <==> ws != [] && WellChained(hash, ws)
  {
    PrintRoundTrip(ws);
    LedgerVerifiesExactly(hash, Print(ws));
    ChainedExactly(hash, ws);
  }

  // ---------- Issuing a ledger ----------

  datatype Draft = Draft(num: string, subject: string, content: string)

  /** The entries behind `link`, each with the hash computed from its own content and the link before. */
  function Issued(hash: Hash, drafts: seq<Draft>, link: string): seq<Written> {
    if drafts == [] then []
    else
      var d := drafts[0];
      var chain := hash(d.content + link);
      [Written(d.num, d.subject, d.content, link, Some(chain))] + Issued(hash, drafts[1..], chain)
  }

  function Issue(hash: Hash, genesis: Draft, origin: string, drafts: seq<Draft>): seq<Written> {
    [Written(genesis.num, genesis.subject, genesis.content, origin, None)] + Issued(hash, drafts, genesis.content)
  }

  ghost predicate GoodDraft(d: Draft) { IsNumber(d.num) && Subject(d.subject) && Digest(d.content) }

  lemma DigestIsOneLine(h: string)
    requires Digest(h)
    ensures OneLine(h) && !Contains(h, "GENESIS")
  {
    assert IsHex(h[0]) && IsHex(h[63]);
    forall k | 0 <= k <= |h| ensures !StandsAt(h, k, ChainName) && !StandsAt(h, k, "GENESIS") {
      StandsCharacter(h, k, ChainName, 0);
      StandsCharacter(h, k, "GENESIS", 0);
    }
  }

  lemma {:induction false} IssuedAreChained(hash: Hash, drafts: seq<Draft>, link: string)
    requires (forall s :: Digest(hash(s))) && (forall d :: d in drafts ==> GoodDraft(d)) && Digest(link)
    ensures AllWellFormed(Issued(hash, drafts, link)) && WellChained(hash, Issued(hash, drafts, link))
    ensures forall w :: w in Issued(hash, drafts, link) ==> !Anchor(w)
    ensures drafts != [] ==> Issued(hash, drafts, link)[0].previous == link
    decreases drafts
  {
    if drafts != [] {
      var d := drafts[0];
      var chain := hash(d.content + link);
      var rest := Issued(hash, drafts[1..], chain);
      assert d in drafts && forall e :: e in drafts[1..] ==> e in drafts;
      DigestIsOneLine(link);
      IssuedAreChained(hash, drafts[1..], chain);
      ChainedInFront(hash, Written(d.num, d.subject, d.content, link, Some(chain)), rest);
    }
  }

  /** An entry in front of entries that follow it. */
  lemma ChainedInFront(hash: Hash, w: Written, rest: seq<Written>)
    requires WellChained(hash, rest) && (forall v :: v in rest ==> !Anchor(v))
    requires w.chain == if Anchor(w) then None else Some(hash(w.content + w.previous))
    requires rest != [] ==> Some(rest[0].previous) == LinkOf(w)
    ensures WellChained(hash, [w] + rest)
  {
    var ws := [w] + rest;
    forall i | 0 <= i < |ws|
      ensures ws[i].chain == if Anchor(ws[i]) then None else Some(hash(ws[i].content + ws[i].previous))
    {
      if i > 0 { assert ws[i] == rest[i - 1]; }
    }
    forall i, j | 0 <= i && j == i + 1 && j < |ws| && !Anchor(ws[j])
      ensures Some(ws[j].previous) == LinkOf(ws[i])
    {
      assert ws[j] == rest[i];
      if i > 0 { assert ws[i] == rest[i - 1]; }
    }
    forall j | 0 < j < |ws| ensures !Anchor(ws[j]) { assert ws[j] == rest[j - 1] && rest[j - 1] in rest; }
  }

  /** A ledger issued with computed hashes is reported free of errors, at any length. */
  lemma IssuedLedgerVerifies(hash: Hash, genesis: Draft, origin: string, drafts: seq<Draft>)
    requires (forall s :: Digest(hash(s))) && GoodDraft(genesis) && (forall d :: d in drafts ==> GoodDraft(d))
    requires OneLine(origin) && Contains(origin, "GENESIS")
    ensures AllWellFormed(Issue(hash, genesis, origin, drafts))
    ensures LedgerErrors(hash, Print(Issue(hash, genesis, origin, drafts))) == []
  {
    IssuedAreChained(hash, drafts, genesis.content);
    var w := Written(genesis.num, genesis.subject, genesis.content, origin, None);
    ChainedInFront(hash, w, Issued(hash, drafts, genesis.content));
    PrintedVerifiesExactly(hash, Issue(hash, genesis, origin, drafts));
  }

  // ---------- Altering a ledger ----------

  lemma {:induction false} MismatchIsReported(hash: Hash, es: seq<Entry>, n: nat, link: Option<string>, count: nat)
    requires n < |es| && !IsGenesis(es[n]) && Ledger.Complete(es[n])
    requires hash(es[n].content.value + es[n].previous.value) != es[n].chain.value
    ensures ChainMismatch(es[n].num) in ErrorsFrom(hash, es, link, count)
    decreases n
  {
    if n > 0 {
      MismatchIsReported(hash, es[1..], n - 1, NextLink(es[0], link), count + if IsGenesis(es[0]) then 1 else 0);
    }
  }

  lemma {:induction false} WrongLinkIsReported(hash: Hash, es: seq<Entry>, n: nat, link: Option<string>, count: nat)
    requires 0 < n < |es| && !IsGenesis(es[n]) && Ledger.Complete(es[n])
    requires Link(es[n - 1]).Some? && es[n - 1].content.Some? && es[n - 1].previous.Some?
    requires es[n].previous != Link(es[n - 1])
    ensures NotLinked(es[n].num) in ErrorsFrom(hash, es, link, count)
    decreases n
  {
    var tail, next := es[1..], NextLink(es[0], link);
    var c := count + if IsGenesis(es[0]) then 1 else 0;
    if n > 1 {
      WrongLinkIsReported(hash, tail, n - 1, next, c);
    } else {
      assert NotLinked(es[1].num) in EntryErrors(hash, tail[0], next, c);
    }
  }

  /** A chain hash that is overwritten is reported where it stands. */
  lemma AlteredChainIsReported(hash: Hash, ws: seq<Written>, n: nat, c: string)
    requires AllWellFormed(ws) && LedgerErrors(hash, Print(ws)) == [] && n < |ws| && !Anchor(ws[n])
    requires Digest(c) && ws[n].chain != Some(c)
    ensures ChainMismatch(ws[n].num) in LedgerErrors(hash, Print(ws[n := ws[n].(chain := Some(c))]))
  {
    var w := ws[n].(chain := Some(c));
    assert ws[n] in ws;
    PrintedVerifiesExactly(hash, ws);
    AlteredIsRead(ws, n, w);
    assert hash(w.content + w.previous) != c;
    MismatchIsReported(hash, AsEntries(ws[n := w]), n, None, 0);
  }

  lemma AlteredIsRead(ws: seq<Written>, n: nat, w: Written)
    requires AllWellFormed(ws) && n < |ws| && WellFormed(w)
    ensures Parsed(Entries(Print(ws[n := w]))) == AsEntries(ws[n := w]) != [] && AsEntries(ws[n := w])[n] == AsEntry(w)
  {
    assert ws[n] in ws;
    assert forall v :: v in ws[n := w] ==> v == w || v in ws;
    PrintRoundTrip(ws[n := w]);
  }

  /** So is a content hash, unless the two texts hashed collide. */
  lemma AlteredContentIsReported(hash: Hash, ws: seq<Written>, n: nat, h: string)
    requires AllWellFormed(ws) && LedgerErrors(hash, Print(ws)) == [] && n < |ws| && !Anchor(ws[n])
    requires Digest(h) && ws[n].content != h
    ensures ChainMismatch(ws[n].num) in LedgerErrors(hash, Print(ws[n := ws[n].(content := h)])) ||
            Collision(hash, ws[n].content + ws[n].previous, h + ws[n].previous)
  {
    var w := ws[n].(content := h);
    var s, t := ws[n].content + ws[n].previous, h + ws[n].previous;
    assert ws[n] in ws;
    PrintedVerifiesExactly(hash, ws);
    AlteredIsRead(ws, n, w);
    assert s[..64] == ws[n].content && t[..64] == h;
    if hash(t) != hash(s) { MismatchIsReported(hash, AsEntries(ws[n := w]), n, None, 0); }
  }

  /** And a previous hash that no longer names what the entry follows. */
  lemma AlteredPreviousIsReported(hash: Hash, ws: seq<Written>, n: nat, v: string)
    requires AllWellFormed(ws) && LedgerErrors(hash, Print(ws)) == [] && 0 < n < |ws| && !Anchor(ws[n])
    requires OneLine(v) && !Contains(v, "GENESIS") && ws[n].previous != v
    ensures NotLinked(ws[n].num) in LedgerErrors(hash, Print(ws[n := ws[n].(previous := v)]))
  {
    var w := ws[n].(previous := v);
    assert ws[n] in ws;
    PrintedVerifiesExactly(hash, ws);
    AlteredIsRead(ws, n, w);
    var es := AsEntries(ws[n := w]);
    assert es[n - 1] == AsEntry(ws[n - 1]) && Link(es[n - 1]) == LinkOf(ws[n - 1]);
    WrongLinkIsReported(hash, es, n, None, 0);
  }

  // ---------- What the last link leaves open ----------

  /** A ledger with one entry, its genesis. */
  function GenesisText(content: string, origin: string): string { Print([Written("1", "", content, origin, None)]) }

  lemma GenesisIsWellFormed(h: string, v: string)
    requires Digest(h) && v in {"GENESIS", "GENESIS!"}
    ensures WellFormed(Written("1", "", h, v, None)) && Contains(v, "GENESIS")
  {
    assert StandsAt(v, 0, "GENESIS");
    forall k | 0 <= k <= |v| ensures !StandsAt(v, k, ChainName) { StandsCharacter(v, k, ChainName, 0); }
  }

  lemma GenesisAlone(hash: Hash, h: string, v: string)
    requires Digest(h) && v in {"GENESIS", "GENESIS!"}
    ensures LedgerErrors(hash, GenesisText(h, v)) == []
    ensures Parsed(Entries(GenesisText(h, v))) == [Entry("1", Some(h), Some(v), None)]
  {
    var ws := [Written("1", "", h, v, None)];
    GenesisIsWellFormed(h, v);
    PrintRoundTrip(ws);
    assert AsEntries(ws) == [Entry("1", Some(h), Some(v), None)];
    PrintedVerifiesExactly(hash, ws);
  }

  /** So the last chain hash, which a genesis entry alone does not have, leaves its content hash open, and
      nothing says what stands in its previous field. */
  lemma GenesisIsLoose(hash: Hash, h: string, h': string)
    requires Digest(h) && Digest(h')
    ensures var s, t := GenesisText(h, "GENESIS"), GenesisText(h', "GENESIS!");
            LedgerErrors(hash, s) == [] && LedgerErrors(hash, t) == [] && |Entries(s)| == |Entries(t)| == 1 &&
            Parsed(Entries(s))[0].chain == Parsed(Entries(t))[0].chain == None &&
            Parsed(Entries(s))[0].content == Some(h) && Parsed(Entries(t))[0].content == Some(h') &&
            Parsed(Entries(s))[0].previous != Parsed(Entries(t))[0].previous
  {
    GenesisAlone(hash, h, "GENESIS");
    GenesisAlone(hash, h', "GENESIS!");
    assert |"GENESIS"| != |"GENESIS!"|;
  }
}
