/** The mod manifest reader: a flat subset of YAML, line by line. */
module Manifest {
  import opened Lru
  import opened Strings
  import Regex

  datatype Manifest = Manifest(id: string, version: string, name: string, outputs: set<string>, forbidden: set<string>)

  datatype ManifestError =
    | TabIndentation
    | ItemBeforeListKey
    | IndentedLine
    | NotAKeyLine
    | UnknownKey
    | DuplicateKey
    | InlineListValue
    | MissingScalar
    | MissingList
    | NothingForbidden

  datatype Result<+T> = Ok(value: T) | Fail(error: ManifestError)

  const ScalarKeys: set<string> := {"id", "version", "name"}
  const ListKeys: set<string> := {"outputs", "forbidden_actions"}

  // ---------- Lines ----------

  /** `text.replace("\r\n", "\n")`. */
  function JoinCrLf(s: string): string {
    if s == "" then ""
    else if |s| >= 2 && s[0] == '\r' && s[1] == '\n' then "\n" + JoinCrLf(s[2..])
    else [s[0]] + JoinCrLf(s[1..])
  }

  /** `text.replace("\r", "\n")`. */
  function ReplaceCr(s: string): string {
    seq(|s|, i requires 0 <= i < |s| => if s[i] == '\r' then '\n' else s[i])
  }

  function FirstNewline(s: string): (i: nat)
    ensures i <= |s|
    ensures i < |s| ==> s[i] == '\n'
    ensures forall j :: 0 <= j < i ==> s[j] != '\n'
  {
    if s == "" || s[0] == '\n' then 0 else 1 + FirstNewline(s[1..])
  }

  /** `s.split("\n")`. */
  function SplitLines(s: string): (lines: seq<string>)
    ensures lines != []
    decreases |s|
  {
    var i := FirstNewline(s);
    if i == |s| then [s] else [s[..i]] + SplitLines(s[i + 1..])
  }

  function Lines(text: string): seq<string> { SplitLines(ReplaceCr(JoinCrLf(text))) }

  predicate StartsWith(s: string, p: string) { p <= s }

  /** Blank lines and comments. */
  predicate Ignored(line: string) {
    Strip(line) == "" || StartsWith(StripLeft(line), "#")
  }

  predicate IsItem(line: string) {
    StartsWith(line, "  - ") || StartsWith(Strip(line), "- ")
  }

  /** `line.split("- ", 1)[1]`. */
  function AfterDash(line: string): string {
    if |line| < 2 then "" else if line[0] == '-' && line[1] == ' ' then line[2..] else AfterDash(line[1..])
  }

  function FirstColon(s: string): (i: nat)
    ensures i <= |s|
    ensures i < |s| ==> s[i] == ':'
  {
    if s == "" || s[0] == ':' then 0 else 1 + FirstColon(s[1..])
  }

  // ---------- The reader ----------

  /** The scalars and lists so far, and the list being filled. */
  datatype State = State(scalars: map<string, string>, lists: map<string, seq<string>>, current: Option<string>)

  function AddItem(st: State, item: string): Result<State> {
    if st.current.None? || st.current.value !in st.lists then Fail(ItemBeforeListKey)
    else Ok(st.(lists := st.lists[st.current.value := st.lists[st.current.value] + [item]]))
  }

  function AddKey(st: State, key: string, value: string): Result<State> {
    if key !in ScalarKeys + ListKeys then Fail(UnknownKey)
    else if key in st.scalars || key in st.lists then Fail(DuplicateKey)
    else if key in ListKeys then
      if value != "" then Fail(InlineListValue) else Ok(State(st.scalars, st.lists[key := []], Some(key)))
    else Ok(State(st.scalars[key := value], st.lists, None))
  }

  function Step(st: State, line: string): Result<State> {
    if Ignored(line) then Ok(st)
    else if '\t' in line then Fail(TabIndentation)
    else if IsItem(line) then AddItem(st, Strip(AfterDash(line)))
    else if line == "" || Regex.IsSpace(line[0]) then Fail(IndentedLine)
    else
      var colon := FirstColon(line);
      if colon == |line| then Fail(NotAKeyLine) else AddKey(st, Strip(line[..colon]), Strip(line[colon + 1..]))
  }

  function ReadLines(lines: seq<string>, st: State): Result<State> {
    if lines == [] then Ok(st)
    else
      match Step(st, lines[0])
      case Fail(error) => Fail(error)
      case Ok(next) => ReadLines(lines[1..], next)
  }

  /** `_build`. */
  function Build(st: State): Result<Manifest> {
    if !(forall k :: k in ScalarKeys ==> k in st.scalars && st.scalars[k] != "") then Fail(MissingScalar)
    else if !(ListKeys <= st.lists.Keys) then Fail(MissingList)
    else if st.lists["forbidden_actions"] == [] then Fail(NothingForbidden)
    else
      Ok(Manifest(st.scalars["id"], st.scalars["version"], st.scalars["name"],
                  Members(st.lists["outputs"]), Members(st.lists["forbidden_actions"])))
  }

  function Members(s: seq<string>): set<string> { set x | x in s }

  const Start := State(map[], map[], None)

  function LoadLines(lines: seq<string>): Result<Manifest> {
    match ReadLines(lines, Start)
    case Fail(error) => Fail(error)
    case Ok(st) => Build(st)
  }

  function Load(text: string): Result<Manifest> { LoadLines(Lines(text)) }

  method LoadManifest(text: string) returns (r: Result<Manifest>)
    ensures r == Load(text)
  {
    var scalars: map<string, string> := map[];
    var lists: map<string, seq<string>> := map[];
    var current: Option<string> := None;
    var lines := Lines(text);
    assert lines[0..] == lines;
    for i := 0 to |lines|
      invariant ReadLines(lines, Start) == ReadLines(lines[i..], State(scalars, lists, current))
    {
      assert lines[i..][1..] == lines[i + 1..];
      var raw := lines[i];
      if Ignored(raw) {
        continue;
      }
      if '\t' in raw {
        return Fail(TabIndentation);
      }
      if IsItem(raw) {
        if current.None? || current.value !in lists {
          return Fail(ItemBeforeListKey);
        }
        lists := lists[current.value := lists[current.value] + [Strip(AfterDash(raw))]];
        continue;
      }
      if raw == "" || Regex.IsSpace(raw[0]) {
        return Fail(IndentedLine);
      }
      var colon := FirstColon(raw);
      if colon == |raw| {
        return Fail(NotAKeyLine);
      }
      var key, value := Strip(raw[..colon]), Strip(raw[colon + 1..]);
      if key !in ScalarKeys + ListKeys {
        return Fail(UnknownKey);
      }
      if key in scalars || key in lists {
        return Fail(DuplicateKey);
      }
      if key in ListKeys {
        lists, current := lists[key := []], Some(key);
        if value != "" {
          return Fail(InlineListValue);
        }
      } else {
        scalars, current := scalars[key := value], None;
      }
    }
    r := Build(State(scalars, lists, current));
  }

  // ---------- Blank and comment lines ----------

  function Significant(lines: seq<string>): seq<string> {
    if lines == [] then [] else (if Ignored(lines[0]) then [] else [lines[0]]) + Significant(lines[1..])
  }

  lemma {:induction false} OnlySignificantLinesCount(lines: seq<string>, st: State)
    ensures ReadLines(Significant(lines), st) == ReadLines(lines, st)
  {
    if lines != [] {
      var rest := Significant(lines[1..]);
      if Ignored(lines[0]) {
        OnlySignificantLinesCount(lines[1..], st);
        assert Significant(lines) == rest;
      } else {
        assert Significant(lines)[1..] == rest;
        var next := Step(st, lines[0]);
        if next.Ok? { OnlySignificantLinesCount(lines[1..], next.value); }
      }
    }
  }

  /** Two texts with the same significant lines load alike, wherever blank lines and comments stand. */
  lemma SameSignificantLinesLoadAlike(a: string, b: string)
    requires Significant(Lines(a)) == Significant(Lines(b))
    ensures Load(a) == Load(b)
  {
    OnlySignificantLinesCount(Lines(a), Start);
    OnlySignificantLinesCount(Lines(b), Start);
  }

  // ---------- Line endings ----------

  datatype Ending = Lf | CrLf | Cr

  function Mark(e: Ending): string { match e case Lf => "\n" case CrLf => "\r\n" case Cr => "\r" }

  function JoinLines(lines: seq<string>, e: Ending): string {
    if lines == [] then "" else if |lines| == 1 then lines[0] else lines[0] + Mark(e) + JoinLines(lines[1..], e)
  }

  ghost predicate OneLine(s: string) { '\n' !in s && '\r' !in s }

  lemma {:induction false} JoinCrLfOver(line: string, rest: string)
    requires OneLine(line)
    ensures JoinCrLf(line + rest) == line + JoinCrLf(rest)
  {
    if line == "" {
      assert line + rest == rest;
    } else {
      assert line[0] in line && forall c :: c in line[1..] ==> c in line;
      JoinCrLfOver(line[1..], rest);
      assert (line + rest)[1..] == line[1..] + rest && (line + rest)[0] == line[0];
      assert line == [line[0]] + line[1..];
    }
  }

  function Normal(text: string): string { ReplaceCr(JoinCrLf(text)) }

  lemma NormalLine(line: string)
    requires OneLine(line)
    ensures Normal(line) == line
  {
    JoinCrLfOver(line, "");
    assert line + "" == line;
    PlainReplace(line);
  }

  lemma PlainReplace(line: string)
    requires OneLine(line)
    ensures ReplaceCr(line) == line
  {
    forall i | 0 <= i < |line| ensures ReplaceCr(line)[i] == line[i] { assert line[i] in line; }
  }

  /** A line and its ending become the line and a newline, provided no newline follows a lone CR. */
  lemma NormalStep(line: string, e: Ending, rest: string)
    requires OneLine(line) && (e.Cr? ==> rest == "" || rest[0] != '\n')
    ensures Normal(line + Mark(e) + rest) == line + "\n" + Normal(rest)
  {
    var tail := Mark(e) + rest;
    var joined := (if e.Cr? then "\r" else "\n") + JoinCrLf(rest);
    assert line + Mark(e) + rest == line + tail;
    JoinCrLfOver(line, tail);
    JoinMark(e, rest);
    PlainReplace(line);
    ReplaceConcat(line, joined);
    ReplaceConcat(if e.Cr? then "\r" else "\n", JoinCrLf(rest));
    assert line + ("\n" + Normal(rest)) == line + "\n" + Normal(rest);
  }

  lemma JoinMark(e: Ending, rest: string)
    requires e.Cr? ==> rest == "" || rest[0] != '\n'
    ensures JoinCrLf(Mark(e) + rest) == (if e.Cr? then "\r" else "\n") + JoinCrLf(rest)
  {
    var s := Mark(e) + rest;
    if e.CrLf? {
      assert s[0] == '\r' && s[1] == '\n' && s[2..] == rest;
    } else {
      assert s[1..] == rest;
    }
  }

  lemma ReplaceConcat(a: string, b: string)
    ensures ReplaceCr(a + b) == ReplaceCr(a) + ReplaceCr(b)
    ensures |a| == 1 && (a[0] == '\r' || a[0] == '\n') ==> ReplaceCr(a) == "\n"
  {
  }

  lemma {:induction false} EndingsAreNormalized(lines: seq<string>, e: Ending)
    requires forall l :: l in lines ==> OneLine(l)
    ensures Normal(JoinLines(lines, e)) == JoinLines(lines, Lf)
    ensures e.Cr? ==> JoinLines(lines, e) == "" || JoinLines(lines, e)[0] != '\n'
  {
    if lines == [] {
    } else {
      assert lines[0] in lines && forall l :: l in lines[1..] ==> l in lines;
      if lines[0] != "" { assert lines[0][0] in lines[0]; }
      if |lines| == 1 {
        NormalLine(lines[0]);
      } else {
        EndingsAreNormalized(lines[1..], e);
        NormalStep(lines[0], e, JoinLines(lines[1..], e));
      }
    }
  }

  lemma {:induction false} LinesOfJoined(lines: seq<string>)
    requires lines != [] && forall l :: l in lines ==> OneLine(l)
    ensures SplitLines(JoinLines(lines, Lf)) == lines
  {
    assert lines[0] in lines && forall l :: l in lines[1..] ==> l in lines;
    if |lines| == 1 {
      NewlineAfter(lines[0], "");
      assert lines[0] + "" == lines[0];
    } else {
      LinesOfJoined(lines[1..]);
      SplitFirst(lines[0], JoinLines(lines[1..], Lf));
      assert [lines[0]] + lines[1..] == lines;
    }
  }

  lemma SplitFirst(line: string, rest: string)
    requires OneLine(line)
    ensures SplitLines(line + "\n" + rest) == [line] + SplitLines(rest)
  {
    var s := line + ("\n" + rest);
    NewlineAfter(line, "\n" + rest);
    assert line + "\n" + rest == s && s[..|line|] == line && s[|line| + 1..] == rest;
  }

  lemma NewlineAfter(line: string, rest: string)
    requires '\n' !in line && (rest == "" || rest[0] == '\n')
    ensures FirstNewline(line + rest) == |line|
  {
    var s := line + rest;
    assert forall j :: 0 <= j < |line| ==> s[j] == line[j] && line[j] in line;
    if rest != "" { assert s[|line|] == '\n'; }
  }

  /** Whatever the line endings, the lines are the lines. */
  lemma EndingsDoNotMatter(lines: seq<string>, e: Ending)
    requires lines != [] && forall l :: l in lines ==> OneLine(l)
    ensures Lines(JoinLines(lines, e)) == lines && Load(JoinLines(lines, e)) == LoadLines(lines)
  {
    EndingsAreNormalized(lines, e);
    LinesOfJoined(lines);
  }
}
