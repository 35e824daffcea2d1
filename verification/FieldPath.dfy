/** Field paths such as `$.items[3].name`: their parser, their rendering, and following them. */
module FieldPath {
  import opened Lru
  import opened JsonValue
  import opened UrlQuery
  import Decimals
  import Regex

  datatype Token = Key(name: string) | Index(n: nat)

  datatype PathError =
    | EmptyComponent
    | UnclosedIndex
    | BadIndex
    | EndsWithSeparator
    | IndexDoesNotResolve
    | KeyDoesNotResolve

  datatype Result<+T> = Ok(value: T) | Fail(error: PathError)

  // ---------- Parsing ----------

  /** The length of the key that starts here: up to the next `.` or `[`. */
  function KeyLength(rest: string): (n: nat)
    ensures n <= |rest|
    ensures forall i :: 0 <= i < n ==> rest[i] != '.' && rest[i] != '['
    ensures n < |rest| ==> rest[n] == '.' || rest[n] == '['
  {
    if rest == "" || rest[0] == '.' || rest[0] == '[' then 0 else 1 + KeyLength(rest[1..])
  }

  predicate AllDigits(s: string) {
    s != "" && forall i :: 0 <= i < |s| ==> Regex.IsDigit(s[i])
  }

  /** `int(raw)` of digits. */
  function Number(s: string): nat {
    var n := Decimals.ParseDigits(s, 0, false);
    if n.Some? then n.value else 0
  }

  function Prepend(t: Token, rest: Result<seq<Token>>): Result<seq<Token>> {
    if rest.Fail? then rest else Ok([t] + rest.value)
  }

  /** The index that starts here, and the length of its brackets. */
  function IndexAt(rest: string): (r: Result<(nat, nat)>)
    requires rest != "" && rest[0] == '['
    ensures r.Ok? ==> 0 < r.value.1 <= |rest|
  {
    var inner := rest[1..];
    var close := IndexOf(inner, ']');
    if close == |inner| then Fail(UnclosedIndex)
    else if !AllDigits(inner[..close]) then Fail(BadIndex)
    else Ok((Number(inner[..close]), close + 2))
  }

  /** The tokens of the rest of a path. */
  function Tokens(rest: string, expecting: bool): Result<seq<Token>>
    decreases |rest|
  {
    if rest == "" then (if expecting then Fail(EndsWithSeparator) else Ok([]))
    else if rest[0] == '.' then (if expecting then Fail(EmptyComponent) else Tokens(rest[1..], true))
    else if rest[0] == '[' then
      match IndexAt(rest)
      case Fail(error) => Fail(error)
      case Ok((n, length)) => Prepend(Index(n), Tokens(rest[length..], false))
    else
      var n := KeyLength(rest);
      Prepend(Key(rest[..n]), Tokens(rest[n..], false))
  }

  /** Where the components start: after `$` and one dot. */
  function Start(path: string): (i: nat)
    ensures i <= |path|
  {
    if path != "" && path[0] == '$' then (if |path| > 1 && path[1] == '.' then 2 else 1) else 0
  }

  function FieldTokens(path: string): Result<seq<Token>> {
    if path == "$" then Ok([]) else Tokens(path[Start(path)..], true)
  }

  /** What a loop has collected so far, and what is still to come. */
  function Joined(done: seq<Token>, rest: Result<seq<Token>>): Result<seq<Token>> {
    if rest.Fail? then rest else Ok(done + rest.value)
  }

  lemma JoinedStep(done: seq<Token>, t: Token, rest: Result<seq<Token>>)
    ensures Joined(done, Prepend(t, rest)) == Joined(done + [t], rest)
  {
    if rest.Ok? { assert done + ([t] + rest.value) == done + [t] + rest.value; }
  }

  /** The inner loop: past the key that starts at `start`. */
  method SkipKey(path: string, start: nat) returns (index: nat)
    requires start <= |path|
    ensures index == start + KeyLength(path[start..])
  {
    index := start;
    while index < |path| && path[index] != '.' && path[index] != '['
      invariant start <= index <= |path|
      invariant KeyLength(path[start..]) == index - start + KeyLength(path[index..])
    {
      assert path[index..][1..] == path[index + 1..];
      index := index + 1;
    }
  }

  /** The key or bracketed index that starts at `index`, and where it ends. */
  method ReadToken(path: string, index: nat, expecting: bool) returns (r: Result<(Token, nat)>)
    requires index < |path| && path[index] != '.'
    ensures r.Ok? ==> index < r.value.1 <= |path|
    ensures Tokens(path[index..], expecting) ==
            if r.Fail? then Fail(r.error) else Prepend(r.value.0, Tokens(path[r.value.1..], false))
  {
    ghost var rest := path[index..];
    if path[index] == '[' {
      var found := IndexAt(path[index..]);
      if found.Fail? {
        return Fail(found.error);
      }
      var (n, length) := found.value;
      assert path[index + length..] == rest[length..];
      return Ok((Index(n), index + length));
    }
    var end := SkipKey(path, index);
    assert rest[..end - index] == path[index..end] && rest[end - index..] == path[end..];
    r := Ok((Key(path[index..end]), end));
  }

  /** The parser: one index moved through the path. */
  method ParseFieldPath(path: string) returns (r: Result<seq<Token>>)
    ensures r == FieldTokens(path)
  {
    if path == "$" {
      return Ok([]);
    }
    var index := Start(path);
    var tokens: seq<Token> := [];
    var expecting := true;
    JoinedNothing(Tokens(path[index..], true));
    while index < |path|
      invariant index <= |path|
      invariant FieldTokens(path) == Joined(tokens, Tokens(path[index..], expecting))
    {
      if path[index] == '.' {
        if expecting {
          return Fail(EmptyComponent);
        }
        assert path[index..][1..] == path[index + 1..];
        expecting, index := true, index + 1;
      } else {
        var found := ReadToken(path, index, expecting);
        if found.Fail? {
          return Fail(found.error);
        }
        JoinedStep(tokens, found.value.0, Tokens(path[found.value.1..], false));
        tokens, expecting, index := tokens + [found.value.0], false, found.value.1;
      }
    }
    JoinedEnd(tokens);
    r := if expecting then Fail(EndsWithSeparator) else Ok(tokens);
  }

  lemma JoinedEnd(tokens: seq<Token>)
    ensures Joined(tokens, Ok([])) == Ok(tokens)
  {
    assert tokens + [] == tokens;
  }

  lemma JoinedNothing(rest: Result<seq<Token>>)
    ensures Joined([], rest) == rest
  {
    if rest.Ok? { assert [] + rest.value == rest.value; }
  }

  // ---------- Rendering ----------

  function RenderToken(t: Token): string {
    match t
    case Key(name) => "." + name
    case Index(n) => "[" + Decimals.Unsigned(n) + "]"
  }

  function RenderTokens(tokens: seq<Token>): string {
    if tokens == [] then "" else RenderToken(tokens[0]) + RenderTokens(tokens[1..])
  }

  function Render(tokens: seq<Token>): string { "$" + RenderTokens(tokens) }

  /** A key is not empty and has no `.` or `[` in it. */
  predicate PlainKey(name: string) {
    name != "" && KeyLength(name) == |name|
  }

  ghost predicate Plain(tokens: seq<Token>) {
    forall i :: 0 <= i < |tokens| && tokens[i].Key? ==> PlainKey(tokens[i].name)
  }

  lemma {:induction false} KeyLengthOf(name: string, rest: string)
    requires KeyLength(name) == |name| && (rest == "" || rest[0] == '.' || rest[0] == '[')
    ensures KeyLength(name + rest) == |name|
  {
    var s := name + rest;
    if name == "" {
      assert s == rest;
    } else {
      assert s[0] == name[0] && s[1..] == name[1..] + rest;
      KeyLengthOf(name[1..], rest);
    }
  }

  lemma KeyParses(name: string, rest: string)
    requires PlainKey(name) && (rest == "" || rest[0] == '.' || rest[0] == '[')
    ensures Tokens(name + rest, true) == Prepend(Key(name), Tokens(rest, false))
  {
    KeyLengthOf(name, rest);
    var s := name + rest;
    assert s[0] == name[0] && s[..|name|] == name && s[|name|..] == rest;
  }

  lemma {:induction false} UnsignedIsDigits(n: nat)
    ensures AllDigits(Decimals.Unsigned(n)) && ']' !in Decimals.Unsigned(n) && Number(Decimals.Unsigned(n)) == n
  {
    Decimals.UnsignedRoundTrip(n);
    DigitsOnly(n);
  }

  lemma {:induction false} DigitsOnly(n: nat)
    ensures forall i :: 0 <= i < |Decimals.Unsigned(n)| ==> Regex.IsDigit(Decimals.Unsigned(n)[i])
  {
    if n >= 10 { DigitsOnly(n / 10); }
  }

  /** How a token is written. */
  ghost predicate IsPiece(t: Token, piece: string) {
    match t
    case Key(name) => piece == "." + name && PlainKey(name)
    case Index(n) =>
      |piece| >= 2 && piece[0] == '[' && piece[|piece| - 1] == ']' && AllDigits(piece[1..|piece| - 1]) &&
      ']' !in piece[1..|piece| - 1] && Number(piece[1..|piece| - 1]) == n
  }

  lemma RenderedIsPiece(t: Token)
    requires t.Key? ==> PlainKey(t.name)
    ensures IsPiece(t, RenderToken(t))
  {
    if t.Index? {
      UnsignedIsDigits(t.n);
      BracketsAround(Decimals.Unsigned(t.n));
    }
  }

  lemma BracketsAround(s: string)
    ensures var piece := "[" + s + "]";
            |piece| >= 2 && piece[0] == '[' && piece[|piece| - 1] == ']' && piece[1..|piece| - 1] == s
  {
  }

  /** Nothing, or a separator. */
  predicate Separated(rest: string) { rest == "" || rest[0] == '.' || rest[0] == '[' }

  lemma IndexParses(n: nat, piece: string, rest: string, expecting: bool)
    requires IsPiece(Index(n), piece)
    ensures Tokens(piece + rest, expecting) == Prepend(Index(n), Tokens(rest, false))
  {
    var digits := piece[1..|piece| - 1];
    var s := piece + rest;
    assert s[1..] == digits + ("]" + rest);
    FirstSeparator(digits, "]" + rest, ']');
    assert s[1..][..|digits|] == digits && s[|digits| + 2..] == rest;
  }

  lemma TokenParses(t: Token, piece: string, rest: string)
    requires IsPiece(t, piece) && Separated(rest)
    ensures Tokens(piece + rest, false) == Prepend(t, Tokens(rest, false))
  {
    match t
    case Key(name) =>
      KeyParses(name, rest);
      assert (piece + rest)[1..] == name + rest;
    case Index(n) => IndexParses(n, piece, rest, false);
  }

  /** Right after `$`, where the first dot is skipped. */
  lemma FirstTokenParses(t: Token, piece: string, rest: string)
    requires IsPiece(t, piece) && Separated(rest)
    ensures FieldTokens("$" + (piece + rest)) == Prepend(t, Tokens(rest, false))
  {
    var s := "$" + (piece + rest);
    assert s[1..] == piece + rest && s[1] == piece[0];
    match t
    case Key(name) =>
      KeyParses(name, rest);
      assert s[2..] == name + rest;
    case Index(n) => IndexParses(n, piece, rest, true);
  }

  function Flat(pieces: seq<string>): string {
    if pieces == [] then "" else pieces[0] + Flat(pieces[1..])
  }

  /** Each piece writes its token. */
  ghost predicate Written(tokens: seq<Token>, pieces: seq<string>) {
    |tokens| == |pieces| && forall i :: 0 <= i < |tokens| ==> IsPiece(tokens[i], pieces[i])
  }

  lemma FlatIsSeparated(tokens: seq<Token>, pieces: seq<string>)
    requires Written(tokens, pieces)
    ensures Separated(Flat(pieces))
  {
    if pieces != [] { assert IsPiece(tokens[0], pieces[0]) && Flat(pieces)[0] == pieces[0][0]; }
  }

  lemma PrependIsWhole(tokens: seq<Token>, rest: Result<seq<Token>>)
    requires tokens != [] && rest == Ok(tokens[1..])
    ensures Prepend(tokens[0], rest) == Ok(tokens)
  {
    assert [tokens[0]] + tokens[1..] == tokens;
  }

  lemma {:induction false} TokensOfWritten(tokens: seq<Token>, pieces: seq<string>)
    requires Written(tokens, pieces)
    ensures Tokens(Flat(pieces), false) == Ok(tokens)
    decreases tokens
  {
    if tokens != [] {
      var rest := Flat(pieces[1..]);
      TokensOfWritten(tokens[1..], pieces[1..]);
      FlatIsSeparated(tokens[1..], pieces[1..]);
      TokenParses(tokens[0], pieces[0], rest);
      PrependIsWhole(tokens, Tokens(rest, false));
    }
  }

  lemma WrittenParses(tokens: seq<Token>, pieces: seq<string>)
    requires Written(tokens, pieces) && tokens != []
    ensures FieldTokens("$" + Flat(pieces)) == Ok(tokens)
  {
    var rest := Flat(pieces[1..]);
    TokensOfWritten(tokens[1..], pieces[1..]);
    FlatIsSeparated(tokens[1..], pieces[1..]);
    FirstTokenParses(tokens[0], pieces[0], rest);
    PrependIsWhole(tokens, Tokens(rest, false));
  }

  function Pieces(tokens: seq<Token>): seq<string> {
    seq(|tokens|, i requires 0 <= i < |tokens| => RenderToken(tokens[i]))
  }

  lemma {:induction false} RenderedIsFlat(tokens: seq<Token>)
    ensures RenderTokens(tokens) == Flat(Pieces(tokens))
  {
    if tokens != [] {
      RenderedIsFlat(tokens[1..]);
      assert Pieces(tokens)[1..] == Pieces(tokens[1..]);
    }
  }

  /** Parsing the rendering of tokens gives the tokens back. */
  lemma RenderRoundTrip(tokens: seq<Token>)
    requires Plain(tokens)
    ensures FieldTokens(Render(tokens)) == Ok(tokens)
  {
    if tokens != [] {
      var pieces := Pieces(tokens);
      forall i | 0 <= i < |tokens| ensures IsPiece(tokens[i], pieces[i]) { RenderedIsPiece(tokens[i]); }
      WrittenParses(tokens, pieces);
      RenderedIsFlat(tokens);
    }
  }

  lemma {:induction false} ParsedArePlain(rest: string, expecting: bool)
    requires Tokens(rest, expecting).Ok?
    ensures Plain(Tokens(rest, expecting).value)
    decreases |rest|
  {
    if rest != "" {
      if rest[0] == '.' {
        ParsedArePlain(rest[1..], true);
      } else if rest[0] == '[' {
        ParsedArePlain(rest[IndexAt(rest).value.1..], false);
      } else {
        var n := KeyLength(rest);
        ParsedArePlain(rest[n..], false);
        KeyLengthOfPrefix(rest);
      }
    }
  }

  lemma {:induction false} KeyLengthOfPrefix(rest: string)
    ensures KeyLength(rest[..KeyLength(rest)]) == KeyLength(rest)
  {
    if rest != "" && rest[0] != '.' && rest[0] != '[' {
      KeyLengthOfPrefix(rest[1..]);
      assert rest[..KeyLength(rest)][1..] == rest[1..][..KeyLength(rest[1..])];
    }
  }

  /** Whatever parses has a rendering that parses alike. */
  lemma ParsedRendersBack(path: string)
    requires FieldTokens(path).Ok?
    ensures FieldTokens(Render(FieldTokens(path).value)) == FieldTokens(path)
  {
    if path != "$" { ParsedArePlain(path[Start(path)..], true); }
    RenderRoundTrip(FieldTokens(path).value);
  }

  // ---------- Resolving ----------

  /** Follow the tokens into a document. */
  function Follow(v: Json, tokens: seq<Token>): Result<Json>
    decreases |tokens|
  {
    if tokens == [] then Ok(v)
    else
      match tokens[0]
      case Index(n) =>
        if v.Arr? && n < |v.items| then Follow(v.items[n], tokens[1..]) else Fail(IndexDoesNotResolve)
      case Key(name) =>
        if v.Obj? && name in v.fields then Follow(v.fields[name], tokens[1..]) else Fail(KeyDoesNotResolve)
  }

  function Resolved(document: Json, path: string): Result<Json> {
    match FieldTokens(path)
    case Fail(e) => Fail(e)
    case Ok(tokens) => Follow(document, tokens)
  }

  method ResolveField(document: Json, path: string) returns (r: Result<Json>)
    ensures r == Resolved(document, path)
  {
    var tokens := ParseFieldPath(path);
    if tokens.Fail? {
      return Fail(tokens.error);
    }
    var current := document;
    for i := 0 to |tokens.value|
      invariant Follow(document, tokens.value) == Follow(current, tokens.value[i..])
    {
      assert tokens.value[i..][1..] == tokens.value[i + 1..];
      match tokens.value[i] {
        case Index(n) =>
          if !current.Arr? || n >= |current.items| {
            return Fail(IndexDoesNotResolve);
          }
          current := current.items[n];
        case Key(name) =>
          if !current.Obj? || name !in current.fields {
            return Fail(KeyDoesNotResolve);
          }
          current := current.fields[name];
      }
    }
    r := Ok(current);
  }

  /** Resolving a rendering is following its tokens. */
  lemma ResolvingIsFollowing(document: Json, tokens: seq<Token>)
    requires Plain(tokens)
    ensures Resolved(document, Render(tokens)) == Follow(document, tokens)
  {
    RenderRoundTrip(tokens);
  }
}
