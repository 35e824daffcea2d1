/**
 Query strings: what `urlsplit`, `parse_qsl`, `urlencode` and `dict` do to the parameters of a URL.
 A text is taken as its UTF-8 bytes, one character each.
 */
module UrlQuery {
  import opened Lru
  import Regex

  // ---------- Percent-encoding ----------

  predicate IsSafe(c: char) {
    Regex.IsWord(c) || c == '.' || c == '-' || c == '~'
  }

  function HexDigit(n: nat): char
    requires n < 16
  {
    "0123456789ABCDEF"[n]
  }

  function HexValue(c: char): (v: Option<nat>)
    ensures v.Some? ==> v.value < 16
  {
    if '0' <= c <= '9' then Some(c as int - '0' as int)
    else if 'A' <= c <= 'F' then Some(c as int - 'A' as int + 10)
    else if 'a' <= c <= 'f' then Some(c as int - 'a' as int + 10)
    else None
  }

  function QuoteChar(c: char): string {
    if IsSafe(c) then [c]
    else if c == ' ' then "+"
    else if c as int < 256 then ['%', HexDigit(c as int / 16), HexDigit(c as int % 16)]
    else [c]
  }

  /** `quote_plus`. */
  function Quote(s: string): string {
    if s == "" then "" else QuoteChar(s[0]) + Quote(s[1..])
  }

  function Spaced(s: string): string {
    seq(|s|, i requires 0 <= i < |s| => if s[i] == '+' then ' ' else s[i])
  }

  predicate Escape(s: string) {
    |s| >= 3 && s[0] == '%' && HexValue(s[1]).Some? && HexValue(s[2]).Some?
  }

  function Unquote(s: string): string {
    if s == "" then ""
    else if Escape(s) then
      [(HexValue(s[1]).value * 16 + HexValue(s[2]).value) as char] + Unquote(s[3..])
    else [s[0]] + Unquote(s[1..])
  }

  /** `unquote(text.replace("+", " "))`. */
  function Decode(s: string): string { Unquote(Spaced(s)) }

  lemma DecodeQuoted(c: char, rest: string)
    ensures Decode(QuoteChar(c) + rest) == [c] + Decode(rest)
  {
    var s := QuoteChar(c) + rest;
    if IsSafe(c) || c == ' ' || c as int >= 256 {
      assert Spaced(s) == [if c == '+' then ' ' else Spaced(s)[0]] + Spaced(rest);
      assert Spaced(s)[1..] == Spaced(rest);
    } else {
      var n := c as int;
      HexRoundTrip(n / 16);
      HexRoundTrip(n % 16);
      assert Spaced(s)[3..] == Spaced(rest);
    }
  }

  lemma HexRoundTrip(n: nat)
    requires n < 16
    ensures HexValue(HexDigit(n)) == Some(n) && HexDigit(n) != '+'
  {
  }

  lemma {:induction false} QuoteRoundTrip(s: string)
    ensures Decode(Quote(s)) == s
  {
    if s != "" {
      QuoteRoundTrip(s[1..]);
      DecodeQuoted(s[0], Quote(s[1..]));
    }
  }

  /** No character with a meaning in a query or a URL. */
  ghost predicate Plain(s: string) {
    forall i :: 0 <= i < |s| ==> s[i] !in {'&', '=', '#', '?'}
  }

  lemma {:induction false} QuotedIsPlain(s: string)
    ensures Plain(Quote(s))
  {
    if s != "" {
      QuotedIsPlain(s[1..]);
      QuotedCharIsPlain(s[0]);
      PlainConcat(QuoteChar(s[0]), Quote(s[1..]));
    }
  }

  lemma QuotedCharIsPlain(c: char)
    ensures Plain(QuoteChar(c))
  {
  }

  lemma PlainConcat(a: string, b: string)
    requires Plain(a) && Plain(b)
    ensures Plain(a + b)
  {
  }

  // ---------- Splitting ----------

  /** The first index of `c`, or the length. */
  function IndexOf(s: string, c: char): (i: nat)
    ensures i <= |s|
    ensures i < |s| ==> s[i] == c
    ensures forall j :: 0 <= j < i ==> s[j] != c
  {
    if s == "" || s[0] == c then 0 else 1 + IndexOf(s[1..], c)
  }

  function Pieces(s: string): seq<string>
    decreases |s|
  {
    var i := IndexOf(s, '&');
    if i == |s| then [s] else [s[..i]] + Pieces(s[i + 1..])
  }

  function Joined(pieces: seq<string>): string {
    if pieces == [] then "" else if |pieces| == 1 then pieces[0] else pieces[0] + "&" + Joined(pieces[1..])
  }

  lemma FirstSeparator(a: string, b: string, c: char)
    requires c !in a && (b == "" || b[0] == c)
    ensures IndexOf(a + b, c) == |a|
  {
    var s := a + b;
    assert forall j :: 0 <= j < |a| ==> s[j] == a[j] && a[j] in a;
    if b != "" { assert s[|a|] == c; }
  }

  lemma {:induction false} PiecesOfJoined(pieces: seq<string>)
    requires pieces != [] && forall x :: x in pieces ==> '&' !in x
    ensures Pieces(Joined(pieces)) == pieces
  {
    if |pieces| == 1 {
      FirstSeparator(pieces[0], "", '&');
      assert pieces[0] + "" == pieces[0];
    } else {
      var rest := Joined(pieces[1..]);
      assert Joined(pieces) == pieces[0] + ("&" + rest);
      FirstSeparator(pieces[0], "&" + rest, '&');
      assert Joined(pieces)[|pieces[0]| + 1..] == rest;
      PiecesOfJoined(pieces[1..]);
    }
  }

  // ---------- Parameters ----------

  type Pairs = seq<(string, string)>

  /** `keep_blank_values` decides about a piece without a value. */
  function PiecePairs(piece: string, keepBlank: bool): Pairs {
    var i := IndexOf(piece, '=');
    if piece == "" then []
    else if i == |piece| then (if keepBlank then [(Decode(piece), "")] else [])
    else if piece[i + 1..] == "" && !keepBlank then []
    else [(Decode(piece[..i]), Decode(piece[i + 1..]))]
  }

  function PairsOfPieces(pieces: seq<string>, keepBlank: bool): Pairs {
    if pieces == [] then [] else PiecePairs(pieces[0], keepBlank) + PairsOfPieces(pieces[1..], keepBlank)
  }

  /** `parse_qsl`. */
  function ParseQsl(query: string, keepBlank: bool): Pairs { PairsOfPieces(Pieces(query), keepBlank) }

  function EncodedPair(p: (string, string)): string { Quote(p.0) + "=" + Quote(p.1) }

  function EncodedPairs(d: Pairs): seq<string> {
    seq(|d|, i requires 0 <= i < |d| => EncodedPair(d[i]))
  }

  /** `urlencode`. */
  function Encode(d: Pairs): string { Joined(EncodedPairs(d)) }

  function NonBlank(d: Pairs): Pairs {
    if d == [] then [] else (if d[0].1 != "" then [d[0]] else []) + NonBlank(d[1..])
  }

  lemma PieceOfPair(p: (string, string), keepBlank: bool)
    ensures PiecePairs(EncodedPair(p), keepBlank) == if keepBlank then [p] else NonBlank([p])
    ensures Plain(Quote(p.0)) && Plain(Quote(p.1)) && '&' !in EncodedPair(p) && '#' !in EncodedPair(p)
  {
    QuotedIsPlain(p.0);
    QuotedIsPlain(p.1);
    SplitPiece(Quote(p.0), Quote(p.1), keepBlank);
    QuoteRoundTrip(p.0);
    QuoteRoundTrip(p.1);
    NotEmptied(p.1);
    assert [p][1..] == [];
  }

  /** A piece is split at its first equals sign. */
  lemma SplitPiece(a: string, b: string, keepBlank: bool)
    requires '=' !in a
    ensures PiecePairs(a + "=" + b, keepBlank) == if b == "" && !keepBlank then [] else [(Decode(a), Decode(b))]
  {
    var piece := a + "=" + b;
    assert piece == a + ("=" + b);
    FirstSeparator(a, "=" + b, '=');
    assert piece[..|a|] == a && piece[|a| + 1..] == b;
  }

  lemma NotEmptied(s: string)
    ensures Quote(s) == "" <==> s == ""
  {
  }

  lemma {:induction false} PairsOfEncoded(d: Pairs, keepBlank: bool)
    ensures PairsOfPieces(EncodedPairs(d), keepBlank) == if keepBlank then d else NonBlank(d)
  {
    if d != [] {
      PieceOfPair(d[0], keepBlank);
      assert EncodedPairs(d)[1..] == EncodedPairs(d[1..]);
      PairsOfEncoded(d[1..], keepBlank);
      assert [d[0]][1..] == [];
    }
  }

  /** Parsing what was encoded gives the pairs back, blank values only on request. */
  lemma EncodeRoundTrip(d: Pairs, keepBlank: bool)
    ensures ParseQsl(Encode(d), keepBlank) == if keepBlank then d else NonBlank(d)
  {
    if d == [] {
      assert PairsOfPieces([""], keepBlank) == PairsOfPieces([], keepBlank);
    } else {
      forall x | x in EncodedPairs(d) ensures '&' !in x {
        var i :| 0 <= i < |d| && EncodedPairs(d)[i] == x;
        PieceOfPair(d[i], keepBlank);
      }
      PiecesOfJoined(EncodedPairs(d));
      PairsOfEncoded(d, keepBlank);
    }
  }

  lemma NonBlankHead(x: (string, string), d: Pairs)
    ensures NonBlank([x] + d) == (if x.1 != "" then [x] else []) + NonBlank(d)
  {
    assert ([x] + d)[1..] == d;
  }

  lemma {:induction false} NonBlankConcat(a: Pairs, b: Pairs)
    ensures NonBlank(a + b) == NonBlank(a) + NonBlank(b)
  {
    if a == [] {
      assert a + b == b;
    } else {
      NonBlankConcat(a[1..], b);
      NonBlankHead(a[0], a[1..] + b);
      NonBlankHead(a[0], a[1..]);
      assert a + b == [a[0]] + (a[1..] + b) && a == [a[0]] + a[1..];
    }
  }

  lemma {:induction false} BlankPieces(pieces: seq<string>)
    ensures PairsOfPieces(pieces, false) == NonBlank(PairsOfPieces(pieces, true))
  {
    if pieces != [] {
      BlankPieces(pieces[1..]);
      var kept := PiecePairs(pieces[0], true);
      NonBlankConcat(kept, PairsOfPieces(pieces[1..], true));
      BlankPiece(pieces[0]);
    }
  }

  lemma BlankPiece(piece: string)
    ensures PiecePairs(piece, false) == NonBlank(PiecePairs(piece, true))
  {
    var i := IndexOf(piece, '=');
    var kept := PiecePairs(piece, true);
    if piece != "" {
      assert kept[1..] == [];
      if i < |piece| { DecodeEmpties(piece[i + 1..]); }
    }
  }

  lemma DecodeEmpties(s: string)
    ensures Decode(s) == "" <==> s == ""
  {
  }

  // ---------- Dictionaries of parameters ----------

  /** `d[k] = v`. */
  function Assign(d: Pairs, k: string, v: string): Pairs {
    if d == [] then [(k, v)]
    else if d[0].0 == k then [(k, v)] + d[1..]
    else [d[0]] + Assign(d[1..], k, v)
  }

  /** `dict(pairs)`. */
  function FromPairs(d: Pairs): Pairs {
    if d == [] then [] else Assign(FromPairs(d[..|d| - 1]), d[|d| - 1].0, d[|d| - 1].1)
  }

  function Lookup(d: Pairs, k: string): Option<string> {
    if d == [] then None else if d[0].0 == k then Some(d[0].1) else Lookup(d[1..], k)
  }

  ghost predicate DistinctNames(d: Pairs) {
    forall i, j :: 0 <= i < j < |d| ==> d[i].0 != d[j].0
  }

  /** The parameters with another name. */
  function Others(d: Pairs, k: string): Pairs {
    if d == [] then [] else (if d[0].0 != k then [d[0]] else []) + Others(d[1..], k)
  }

  ghost predicate NoBlanks(d: Pairs) {
    forall i :: 0 <= i < |d| ==> d[i].1 != ""
  }

  lemma {:induction false} AssignedLookup(d: Pairs, k: string, v: string, n: string)
    ensures Lookup(Assign(d, k, v), n) == if n == k then Some(v) else Lookup(d, n)
  {
    if d != [] { AssignedLookup(d[1..], k, v, n); }
  }

  lemma {:induction false} AssignedOthers(d: Pairs, n: string, v: string, k: string)
    ensures Others(Assign(d, n, v), k) == if n == k then Others(d, k) else Assign(Others(d, k), n, v)
  {
    if d != [] {
      var rest := d[1..];
      AssignedOthers(rest, n, v, k);
      OthersHead(d[0], rest, k);
      OthersHead((n, v), rest, k);
      OthersHead(d[0], Assign(rest, n, v), k);
      assert d == [d[0]] + rest;
      AssignHead(d[0], Others(rest, k), n, v);
      if d[0].0 == k { assert [] + Others(rest, k) == Others(rest, k); }
    } else {
      assert [(n, v)][1..] == [];
    }
  }

  lemma AssignHead(x: (string, string), d: Pairs, n: string, v: string)
    ensures Assign([x] + d, n, v) == if x.0 == n then [(n, v)] + d else [x] + Assign(d, n, v)
  {
    assert ([x] + d)[1..] == d;
  }

  lemma OthersHead(x: (string, string), d: Pairs, k: string)
    ensures Others([x] + d, k) == (if x.0 != k then [x] else []) + Others(d, k)
  {
    assert ([x] + d)[1..] == d;
  }

  lemma {:induction false} OthersLast(d: Pairs, x: (string, string), k: string)
    ensures Others(d + [x], k) == Others(d, k) + if x.0 != k then [x] else []
  {
    if d == [] {
      assert [] + [x] == [x] && [x][1..] == [];
    } else {
      OthersLast(d[1..], x, k);
      OthersHead(d[0], d[1..] + [x], k);
      OthersHead(d[0], d[1..], k);
      assert d + [x] == [d[0]] + (d[1..] + [x]) && d == [d[0]] + d[1..];
    }
  }

  /** Dropping a name and making a dictionary commute. */
  lemma {:induction false} DictOthers(d: Pairs, k: string)
    ensures Others(FromPairs(d), k) == FromPairs(Others(d, k))
  {
    if d != [] {
      var front, x := d[..|d| - 1], d[|d| - 1];
      DictOthers(front, k);
      AssignedOthers(FromPairs(front), x.0, x.1, k);
      assert d == front + [x];
      OthersLast(front, x, k);
      LastOther(Others(front, k), x, k);
    }
  }

  lemma LastOther(front: Pairs, x: (string, string), k: string)
    ensures FromPairs(front + if x.0 != k then [x] else []) ==
            if x.0 != k then Assign(FromPairs(front), x.0, x.1) else FromPairs(front)
  {
    if x.0 != k { FromPairsLast(front, x); } else { assert front + [] == front; }
  }

  lemma FromPairsLast(d: Pairs, x: (string, string))
    ensures FromPairs(d + [x]) == Assign(FromPairs(d), x.0, x.1)
  {
    assert (d + [x])[..|d|] == d;
  }

  lemma {:induction false} AssignedNew(d: Pairs, k: string, v: string)
    requires forall i :: 0 <= i < |d| ==> d[i].0 != k
    ensures Assign(d, k, v) == d + [(k, v)]
  {
    if d != [] { AssignedNew(d[1..], k, v); }
  }

  lemma {:induction false} DistinctIsDict(d: Pairs)
    requires DistinctNames(d)
    ensures FromPairs(d) == d
  {
    if d != [] {
      DistinctIsDict(d[..|d| - 1]);
      AssignedNew(d[..|d| - 1], d[|d| - 1].0, d[|d| - 1].1);
    }
  }

  lemma {:induction false} AssignedDistinct(d: Pairs, k: string, v: string)
    requires DistinctNames(d)
    ensures DistinctNames(Assign(d, k, v))
    ensures forall x :: x in Assign(d, k, v) ==> x in d || x == (k, v)
  {
    if d != [] && d[0].0 != k {
      assert DistinctNames(d[1..]);
      AssignedDistinct(d[1..], k, v);
      var rest := Assign(d[1..], k, v);
      forall j | 0 <= j < |rest| ensures d[0].0 != rest[j].0 {
        assert rest[j] in rest;
        if rest[j] in d[1..] {
          var u :| 0 <= u < |d[1..]| && d[1..][u] == rest[j];
          assert d[u + 1].0 == rest[j].0;
        }
      }
    }
  }

  lemma {:induction false} DictIsDistinct(d: Pairs)
    ensures DistinctNames(FromPairs(d))
    ensures forall x :: x in FromPairs(d) ==> x in d
  {
    if d != [] {
      var front, x := d[..|d| - 1], d[|d| - 1];
      DictIsDistinct(front);
      AssignedDistinct(FromPairs(front), x.0, x.1);
    }
  }

  lemma {:induction false} NonBlankMembers(d: Pairs)
    ensures forall x :: x in NonBlank(d) <==> x in d && x.1 != ""
  {
    if d != [] {
      NonBlankMembers(d[1..]);
      assert forall x :: x in d <==> x == d[0] || x in d[1..];
    }
  }

  lemma {:induction false} NoBlanksKept(d: Pairs)
    requires NoBlanks(d)
    ensures NonBlank(d) == d
  {
    if d != [] { NoBlanksKept(d[1..]); }
  }

  lemma {:induction false} OthersNonBlank(d: Pairs, k: string)
    ensures Others(NonBlank(d), k) == NonBlank(Others(d, k))
  {
    if d != [] {
      OthersNonBlank(d[1..], k);
      OthersHead(d[0], NonBlank(d[1..]), k);
      NonBlankHead(d[0], Others(d[1..], k));
      if d[0].1 == "" { assert NonBlank(d) == NonBlank(d[1..]); }
      if d[0].0 == k { assert Others(d, k) == Others(d[1..], k); }
    }
  }

  /** Making a dictionary of the nonblank parameters keeps them all exactly when none is blank and no
      name occurs twice. */
  lemma DictKeepsAll(d: Pairs)
    ensures FromPairs(NonBlank(d)) == d <==> NoBlanks(d) && DistinctNames(d)
  {
    if NoBlanks(d) && DistinctNames(d) {
      NoBlanksKept(d);
      DistinctIsDict(d);
    }
    if FromPairs(NonBlank(d)) == d {
      DictIsDistinct(NonBlank(d));
      NonBlankMembers(d);
      forall i | 0 <= i < |d| ensures d[i].1 != "" { assert d[i] in FromPairs(NonBlank(d)); }
    }
  }

  // ---------- URLs ----------

  datatype Url = Url(base: string, query: string, fragment: string)

  /** `urlsplit`, with scheme, host and path in one part. */
  function Split(url: string): Url {
    var h := IndexOf(url, '#');
    var q := IndexOf(url[..h], '?');
    Url(url[..q], if q < h then url[q + 1..h] else "", if h < |url| then url[h + 1..] else "")
  }

  /** `urlunsplit`. */
  function Unsplit(u: Url): string {
    u.base + (if u.query != "" then "?" + u.query else "") + (if u.fragment != "" then "#" + u.fragment else "")
  }

  lemma SplitRoundTrip(u: Url)
    requires '#' !in u.base && '?' !in u.base && '#' !in u.query
    ensures Split(Unsplit(u)) == u
  {
    var query := if u.query != "" then "?" + u.query else "";
    var fragment := if u.fragment != "" then "#" + u.fragment else "";
    SplitJoined(u.base, query, fragment);
    if u.query != "" { assert query[1..] == u.query; }
    if u.fragment != "" { assert fragment[1..] == u.fragment; }
  }

  lemma SplitJoined(base: string, query: string, fragment: string)
    requires '#' !in base && '?' !in base && '#' !in query
    requires (query == "" || query[0] == '?') && (fragment == "" || fragment[0] == '#')
    ensures Split(base + query + fragment) ==
            Url(base, if query == "" then "" else query[1..], if fragment == "" then "" else fragment[1..])
  {
    var front := base + query;
    var url := front + fragment;
    FirstSeparator(front, fragment, '#');
    assert url[..|front|] == front;
    FirstSeparator(base, query, '?');
    assert url[..|base|] == base;
    if query != "" { assert url[|base| + 1..|front|] == query[1..]; }
    if fragment != "" { assert url[|front| + 1..] == fragment[1..]; }
  }

  lemma SplitParts(url: string)
    ensures '#' !in Split(url).base && '?' !in Split(url).base
  {
  }

  /** `dict(parse_qsl(urlsplit(url).query))`. */
  function Params(url: string): Pairs { FromPairs(ParseQsl(Split(url).query, false)) }

  /** Every parameter the URL carries, blank ones and repetitions included. */
  function AllParams(url: string): Pairs { ParseQsl(Split(url).query, true) }

  /** `_with_query_param`. */
  function WithParam(url: string, param: string, value: string): string {
    Unsplit(Split(url).(query := Encode(Assign(Params(url), param, value))))
  }

  lemma {:induction false} EncodedHasNoHash(pieces: seq<string>)
    requires forall x :: x in pieces ==> '#' !in x
    ensures '#' !in Joined(pieces)
  {
    if |pieces| > 1 { EncodedHasNoHash(pieces[1..]); }
  }

  lemma SplitWithParam(url: string, param: string, value: string)
    ensures Split(WithParam(url, param, value)) == Split(url).(query := Encode(Assign(Params(url), param, value)))
  {
    var d := Assign(Params(url), param, value);
    forall x | x in EncodedPairs(d) ensures '#' !in x {
      var i :| 0 <= i < |d| && EncodedPairs(d)[i] == x;
      PieceOfPair(d[i], true);
    }
    EncodedHasNoHash(EncodedPairs(d));
    SplitParts(url);
    SplitRoundTrip(Split(url).(query := Encode(d)));
  }

  /** The rewritten URL reads back with that one parameter changed. */
  lemma ParamIsSet(url: string, param: string, value: string, n: string)
    requires value != ""
    ensures var u := WithParam(url, param, value);
            Lookup(Params(u), n) == (if n == param then Some(value) else Lookup(Params(url), n)) &&
            Split(u).base == Split(url).base && Split(u).fragment == Split(url).fragment
  {
    var d := Params(url);
    SplitWithParam(url, param, value);
    EncodeRoundTrip(Assign(d, param, value), false);
    ParamsAreNonBlank(url);
    DictIsDistinct(ParseQsl(Split(url).query, false));
    AssignedDistinct(d, param, value);
    forall i | 0 <= i < |Assign(d, param, value)| ensures Assign(d, param, value)[i].1 != "" {
      assert Assign(d, param, value)[i] in Assign(d, param, value);
    }
    NoBlanksKept(Assign(d, param, value));
    DistinctIsDict(Assign(d, param, value));
    AssignedLookup(d, param, value, n);
  }

  lemma ParamsAreNonBlank(url: string)
    ensures forall x :: x in Params(url) ==> x.1 != ""
  {
    var l := ParseQsl(Split(url).query, true);
    BlankPieces(Pieces(Split(url).query));
    NonBlankMembers(l);
    DictIsDistinct(NonBlank(l));
  }

  /** What a rewrite leaves of the other parameters: the nonblank ones, each name once. */
  lemma OthersAfter(url: string, param: string, value: string)
    ensures Others(AllParams(WithParam(url, param, value)), param) == FromPairs(NonBlank(Others(AllParams(url), param)))
  {
    var l := AllParams(url);
    SplitWithParam(url, param, value);
    EncodeRoundTrip(Assign(Params(url), param, value), true);
    AssignedOthers(Params(url), param, value, param);
    BlankPieces(Pieces(Split(url).query));
    DictOthers(NonBlank(l), param);
    OthersNonBlank(l, param);
  }

  /** The other parameters survive a rewrite, in order, exactly when none of them is blank and no
      name occurs twice among them. */
  lemma OthersSurvive(url: string, param: string, value: string)
    ensures Others(AllParams(WithParam(url, param, value)), param) == Others(AllParams(url), param)
            <==> NoBlanks(Others(AllParams(url), param)) && DistinctNames(Others(AllParams(url), param))
  {
    OthersAfter(url, param, value);
    DictKeepsAll(Others(AllParams(url), param));
  }

  /** A pager rewrites the same parameter page after page. */
  function Rewritten(url: string, param: string, values: seq<string>): string
    decreases |values|
  {
    if values == [] then url else Rewritten(WithParam(url, param, values[0]), param, values[1..])
  }

  /** They survive every page of a walk on that same condition: what the first rewrite keeps, all keep. */
  lemma {:induction false} OthersSurviveWalk(url: string, param: string, values: seq<string>)
    requires values != []
    ensures Others(AllParams(Rewritten(url, param, values)), param) == Others(AllParams(url), param)
            <==> NoBlanks(Others(AllParams(url), param)) && DistinctNames(Others(AllParams(url), param))
    decreases |values|
  {
    var next := WithParam(url, param, values[0]);
    var o := Others(AllParams(url), param);
    OthersAfter(url, param, values[0]);
    DictKeepsAll(o);
    NonBlankMembers(o);
    DictIsDistinct(NonBlank(o));
    var kept := FromPairs(NonBlank(o));
    forall i | 0 <= i < |kept| ensures kept[i].1 != "" { assert kept[i] in kept; }
    if |values| > 1 {
      OthersSurviveWalk(next, param, values[1..]);
    } else {
      assert Rewritten(next, param, values[1..]) == next;
    }
  }

  /** A blank parameter is lost: `h?filter=&offset=0` comes back without its filter. */
  lemma BlankParameterIsLost(base: string, value: string)
    requires '#' !in base && '?' !in base
    ensures var url := Unsplit(Url(base, Encode([("filter", ""), ("offset", "0")]), ""));
            ("filter", "") in AllParams(url) && ("filter", "") !in AllParams(WithParam(url, "offset", value))
  {
    var d := [("filter", ""), ("offset", "0")];
    var url := Unsplit(Url(base, Encode(d), ""));
    PieceOfPair(d[0], true);
    PieceOfPair(d[1], true);
    EncodedHasNoHash(EncodedPairs(d));
    SplitRoundTrip(Url(base, Encode(d), ""));
    EncodeRoundTrip(d, true);
    assert d[0] in AllParams(url);
    SplitWithParam(url, "offset", value);
    EncodeRoundTrip(Assign(Params(url), "offset", value), true);
    ParamsAreNonBlank(url);
    DictIsDistinct(ParseQsl(Split(url).query, false));
    AssignedDistinct(Params(url), "offset", value);
  }
}
