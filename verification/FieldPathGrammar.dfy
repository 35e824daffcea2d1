/** Which texts are field paths, and which tokens each of them spells. */
module FieldPathGrammar {
  import opened Lru
  import opened FieldPath
  import opened UrlQuery
  import Decimals
  import Regex

  ghost predicate KeyText(s: string) {
    s != "" && forall p :: 0 <= p < |s| ==> s[p] != '.' && s[p] != '['
  }

  predicate Digits(s: string) {
    s != "" && forall p :: 0 <= p < |s| ==> '0' <= s[p] <= '9'
  }

  /** What the digits say. */
  function Value(s: string): nat
    requires forall p :: 0 <= p < |s| ==> '0' <= s[p] <= '9'
  {
    if s == "" then 0 else 10 * Value(s[..|s| - 1]) + (s[|s| - 1] as int - '0' as int)
  }

  /** A key is written as it is, an index as digits in brackets; leading zeros do not matter. */
  ghost predicate Says(t: Token, text: string) {
    match t
    case Key(name) => text == name && KeyText(name)
    case Index(n) => exists d :: Digits(d) && Value(d) == n && text == "[" + d + "]"
  }

  /** A component may have a dot in front, and between two keys it has to. */
  ghost predicate Dots(tokens: seq<Token>, seps: seq<string>) {
    |seps| == |tokens| && (forall i :: 0 <= i < |seps| ==> seps[i] == "" || seps[i] == ".") &&
    forall i, j :: 0 <= i && j == i + 1 && j < |tokens| && tokens[i].Key? && tokens[j].Key? ==> seps[j] == "."
  }

  ghost predicate AllSay(tokens: seq<Token>, texts: seq<string>) {
    |texts| == |tokens| && forall i :: 0 <= i < |tokens| ==> Says(tokens[i], texts[i])
  }

  function Together(texts: seq<string>, seps: seq<string>): string
    requires |texts| == |seps|
    decreases texts
  {
    if texts == [] then "" else seps[0] + texts[0] + Together(texts[1..], seps[1..])
  }

  /** The components, the first one without a dot. */
  ghost predicate Spells(tokens: seq<Token>, texts: seq<string>, seps: seq<string>) {
    tokens != [] && AllSay(tokens, texts) && Dots(tokens, seps) && seps[0] == ""
  }

  // ---------- Single components ----------

  lemma KeyExactly(s: string)
    ensures PlainKey(s) <==> KeyText(s)
  {
    if KeyText(s) { KeyIsLong(s); }
  }

  lemma {:induction false} KeyIsLong(s: string)
    requires forall p :: 0 <= p < |s| ==> s[p] != '.' && s[p] != '['
    ensures KeyLength(s) == |s|
    decreases s
  {
    if s != "" { KeyIsLong(s[1..]); }
  }

  lemma OneDigit(c: char)
    requires '0' <= c <= '9'
    ensures Value([c]) == c as int - '0' as int
    ensures Decimals.ParseDigits([c], 0, false) == Some(c as int - '0' as int)
  {
    var s := [c];
    assert s[..0] == "" && s[1..] == "";
    assert Decimals.ParseDigits("", c as int - '0' as int, true) == Some(c as int - '0' as int);
  }

  lemma ValueOfMore(front: string, c: char)
    requires (forall p :: 0 <= p < |front| ==> '0' <= front[p] <= '9') && '0' <= c <= '9'
    ensures Value(front + [c]) == 10 * Value(front) + (c as int - '0' as int)
  {
    var s := front + [c];
    assert s[..|s| - 1] == front;
  }

  lemma {:induction false} ValueIsParsed(s: string)
    requires Digits(s)
    ensures Decimals.ParseDigits(s, 0, false) == Some(Value(s))
    decreases s
  {
    var front, last := s[..|s| - 1], s[|s| - 1];
    assert s == front + [last];
    if front == "" {
      assert s == [last];
      OneDigit(last);
    } else {
      ValueIsParsed(front);
      Decimals.OneMoreDigit(front, 0, false, last);
      ValueOfMore(front, last);
    }
  }

  lemma NumberExactly(s: string)
    ensures AllDigits(s) <==> Digits(s)
    ensures Digits(s) ==> Number(s) == Value(s)
  {
    if Digits(s) { ValueIsParsed(s); }
  }

  lemma SaidIsPiece(n: nat, text: string)
    requires Says(Index(n), text)
    ensures IsPiece(Index(n), text)
  {
    var d :| Digits(d) && Value(d) == n && text == "[" + d + "]";
    NumberExactly(d);
    BracketsAround(d);
  }

  lemma IndexIsSaid(rest: string)
    requires rest != "" && rest[0] == '[' && IndexAt(rest).Ok?
    ensures var x := IndexAt(rest).value; Says(Index(x.0), rest[..x.1])
  {
    var inner := rest[1..];
    var close := IndexOf(inner, ']');
    var d := inner[..close];
    NumberExactly(d);
    assert rest[..close + 2] == "[" + d + "]";
  }

  // ---------- What is spelled is parsed ----------

  /** Nothing follows a key but a separator. */
  lemma AfterKey(tokens: seq<Token>, texts: seq<string>, seps: seq<string>)
    requires AllSay(tokens, texts) && Dots(tokens, seps) && tokens != [] && tokens[0].Key?
    ensures Separated(Together(texts[1..], seps[1..]))
  {
    if |tokens| > 1 {
      var rest := Together(texts[1..], seps[1..]);
      assert texts[1..][0] == texts[1] && seps[1..][0] == seps[1];
      assert rest == seps[1] + texts[1] + Together(texts[1..][1..], seps[1..][1..]);
      if seps[1] == "" {
        assert tokens[1].Index? && texts[1][0] == '[';
        assert rest[0] == texts[1][0];
      } else {
        assert rest[0] == '.';
      }
    }
  }

  lemma ComponentParses(t: Token, text: string, rest: string, expecting: bool)
    requires Says(t, text) && (t.Key? ==> Separated(rest))
    ensures Tokens(text + rest, expecting) == Prepend(t, Tokens(rest, false))
  {
    match t
    case Key(name) =>
      KeyExactly(name);
      KeyLengthOf(name, rest);
      var s := name + rest;
      assert s[0] == name[0] && s[..|name|] == name && s[|name|..] == rest;
    case Index(n) =>
      SaidIsPiece(n, text);
      IndexParses(n, text, rest, expecting);
  }

  lemma TailsKeep(tokens: seq<Token>, texts: seq<string>, seps: seq<string>)
    requires AllSay(tokens, texts) && Dots(tokens, seps) && tokens != []
    ensures AllSay(tokens[1..], texts[1..]) && Dots(tokens[1..], seps[1..])
  {
    forall i, j | 0 <= i && j == i + 1 && j < |tokens[1..]| && tokens[1..][i].Key? && tokens[1..][j].Key?
      ensures seps[1..][j] == "."
    {
      var k, l := i + 1, j + 1;
      assert tokens[k].Key? && tokens[l].Key? && seps[l] == ".";
    }
  }

  lemma {:induction false} TogetherParses(tokens: seq<Token>, texts: seq<string>, seps: seq<string>)
    requires AllSay(tokens, texts) && Dots(tokens, seps)
    ensures Tokens(Together(texts, seps), false) == Result.Ok(tokens)
    decreases tokens
  {
    if tokens != [] {
      var rest := Together(texts[1..], seps[1..]);
      TailsKeep(tokens, texts, seps);
      TogetherParses(tokens[1..], texts[1..], seps[1..]);
      if tokens[0].Key? { AfterKey(tokens, texts, seps); }
      OneParses(tokens[0], texts[0], seps[0], rest);
      PrependIsWhole(tokens, Tokens(rest, false));
    }
  }

  lemma OneParses(t: Token, text: string, sep: string, rest: string)
    requires Says(t, text) && (sep == "" || sep == ".") && (t.Key? ==> Separated(rest))
    ensures Tokens(sep + text + rest, false) == Prepend(t, Tokens(rest, false))
  {
    if sep == "" {
      assert sep + text + rest == text + rest;
      ComponentParses(t, text, rest, false);
    } else {
      assert (sep + text + rest)[1..] == text + rest;
      ComponentParses(t, text, rest, true);
    }
  }

  lemma SpelledParses(tokens: seq<Token>, texts: seq<string>, seps: seq<string>)
    requires Spells(tokens, texts, seps)
    ensures Tokens(Together(texts, seps), true) == Result.Ok(tokens) && Together(texts, seps) != ""
  {
    var rest := Together(texts[1..], seps[1..]);
    TailsKeep(tokens, texts, seps);
    TogetherParses(tokens[1..], texts[1..], seps[1..]);
    if tokens[0].Key? { AfterKey(tokens, texts, seps); }
    assert Together(texts, seps) == texts[0] + rest;
    ComponentParses(tokens[0], texts[0], rest, true);
    PrependIsWhole(tokens, Tokens(rest, false));
  }

  // ---------- What parses is spelled ----------

  /** The components of a rest of a path; expected ones come without a dot in front. */
  ghost predicate SpelledAs(rest: string, expecting: bool, tokens: seq<Token>, texts: seq<string>, seps: seq<string>) {
    AllSay(tokens, texts) && Dots(tokens, seps) && rest == Together(texts, seps) &&
    (expecting ==> tokens != [] && seps[0] == "")
  }

  lemma InFront(t: Token, text: string, rest: string, tokens: seq<Token>, texts: seq<string>, seps: seq<string>)
    requires Says(t, text) && SpelledAs(rest, false, tokens, texts, seps) && (t.Key? ==> Separated(rest))
    ensures SpelledAs(text + rest, true, [t] + tokens, [text] + texts, [""] + seps)
  {
    var all, allTexts, allSeps := [t] + tokens, [text] + texts, [""] + seps;
    forall i | 0 <= i < |all| ensures Says(all[i], allTexts[i]) && (allSeps[i] == "" || allSeps[i] == ".") {
      if i > 0 { assert all[i] == tokens[i - 1] && allTexts[i] == texts[i - 1] && allSeps[i] == seps[i - 1]; }
    }
    forall i, j | 0 <= i && j == i + 1 && j < |all| && all[i].Key? && all[j].Key? ensures allSeps[j] == "." {
      assert all[j] == tokens[i] && allSeps[j] == seps[i];
      if i == 0 { FirstHasDot(rest, tokens, texts, seps); } else { assert all[i] == tokens[i - 1]; }
    }
    assert allTexts[1..] == texts && allSeps[1..] == seps;
    assert Together(allTexts, allSeps) == "" + text + rest == text + rest;
  }

  /** A key behind a separator has a dot in front. */
  lemma FirstHasDot(rest: string, tokens: seq<Token>, texts: seq<string>, seps: seq<string>)
    requires SpelledAs(rest, false, tokens, texts, seps) && Separated(rest) && tokens != [] && tokens[0].Key?
    ensures seps[0] == "."
  {
    assert Says(tokens[0], texts[0]);
    assert rest[|seps[0]|] == texts[0][0];
  }

  lemma DotInFront(rest: string, tokens: seq<Token>, texts: seq<string>, seps: seq<string>)
    requires SpelledAs(rest, true, tokens, texts, seps)
    ensures SpelledAs("." + rest, false, tokens, texts, seps[0 := "."])
  {
    var dotted := seps[0 := "."];
    assert dotted[1..] == seps[1..];
    assert Together(texts, dotted) == "." + texts[0] + Together(texts[1..], seps[1..]);
    assert rest == "" + texts[0] + Together(texts[1..], seps[1..]);
  }

  lemma WithoutDot(rest: string, tokens: seq<Token>, texts: seq<string>, seps: seq<string>)
    requires SpelledAs(rest, true, tokens, texts, seps)
    ensures SpelledAs(rest, false, tokens, texts, seps)
  {
  }

  lemma {:induction false} ParsedIsSpelled(rest: string, expecting: bool)
    returns (texts: seq<string>, seps: seq<string>)
    requires Tokens(rest, expecting).Ok?
    ensures SpelledAs(rest, expecting, Tokens(rest, expecting).value, texts, seps)
    decreases |rest|, 1
  {
    if rest == "" {
      texts, seps := [], [];
    } else if rest[0] == '.' {
      texts, seps := ParsedIsSpelled(rest[1..], true);
      DotInFront(rest[1..], Tokens(rest[1..], true).value, texts, seps);
      seps := seps[0 := "."];
      assert "." + rest[1..] == rest;
    } else {
      texts, seps := ComponentIsSpelled(rest, expecting);
      WithoutDot(rest, Tokens(rest, expecting).value, texts, seps);
    }
  }

  lemma {:induction false} ComponentIsSpelled(rest: string, expecting: bool)
    returns (texts: seq<string>, seps: seq<string>)
    requires Tokens(rest, expecting).Ok? && rest != "" && rest[0] != '.'
    ensures SpelledAs(rest, true, Tokens(rest, expecting).value, texts, seps)
    decreases |rest|, 0
  {
    var n := if rest[0] == '[' then IndexAt(rest).value.1 else KeyLength(rest);
    var t := if rest[0] == '[' then Index(IndexAt(rest).value.0) else Key(rest[..n]);
    ComponentIsSaid(rest, n, t);
    texts, seps := ParsedIsSpelled(rest[n..], false);
    InFront(t, rest[..n], rest[n..], Tokens(rest[n..], false).value, texts, seps);
    assert rest[..n] + rest[n..] == rest;
    texts, seps := [rest[..n]] + texts, [""] + seps;
  }

  lemma ComponentIsSaid(rest: string, n: nat, t: Token)
    requires rest != "" && rest[0] != '.' && (rest[0] == '[' ==> IndexAt(rest).Ok?)
    requires n == if rest[0] == '[' then IndexAt(rest).value.1 else KeyLength(rest)
    requires t == if rest[0] == '[' then Index(IndexAt(rest).value.0) else Key(rest[..n])
    ensures 0 < n <= |rest| && Says(t, rest[..n]) && (t.Key? ==> Separated(rest[n..]))
  {
    if rest[0] == '[' { IndexIsSaid(rest); }
  }

  // ---------- Whole paths ----------

  /** The dollar sign alone, or components with an optional `$` or `$.` in front; without it they do not begin with
      a dollar sign. */
  ghost predicate IsPath(path: string, tokens: seq<Token>) {
    (path == "$" && tokens == []) ||
    exists texts, seps :: Spells(tokens, texts, seps) &&
      var u := Together(texts, seps);
      path == "$" + u || path == "$." + u || (path == u && u[0] != '$')
  }

  /** A text is a field path, and spells these tokens, exactly when the parser gives them. */
  lemma ParsesExactly(path: string, tokens: seq<Token>)
    ensures FieldTokens(path) == Result.Ok(tokens) <==> IsPath(path, tokens)
  {
    if FieldTokens(path) == Result.Ok(tokens) && path != "$" {
      var texts, seps := ParsedIsSpelled(path[Start(path)..], true);
      PathForms(path);
    }
    if texts, seps :| Spells(tokens, texts, seps) &&
                      var u := Together(texts, seps);
                      path == "$" + u || path == "$." + u || (path == u && u[0] != '$')
    {
      SpelledParses(tokens, texts, seps);
      StartsOf(path, Together(texts, seps));
    }
  }

  lemma PathForms(path: string)
    ensures var u := path[Start(path)..];
            path == "$" + u || path == "$." + u || (path == u && (u == "" || u[0] != '$'))
  {
  }

  lemma StartsOf(path: string, u: string)
    requires u != "" && u[0] != '.' && (path == "$" + u || path == "$." + u || (path == u && u[0] != '$'))
    ensures path != "$" && path[Start(path)..] == u
  {
  }
}
