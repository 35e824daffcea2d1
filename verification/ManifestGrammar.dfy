/** Exactly which manifests load, line by line, and what each line contributes. */
module ManifestGrammar {
  import opened Lru
  import opened Strings
  import opened Manifest
  import Regex

  // ---------- One line ----------

  /** What a line says. */
  datatype Reading = Nothing | Item(text: string) | Key(key: string, value: string)

  /** `u` is `s` without the white space at either end. */
  ghost predicate Trims(s: string, u: string) {
    (u == "" || (!White(u[0]) && !White(u[|u| - 1]))) &&
    exists i, j :: 0 <= i <= j <= |s| && AllWhite(s, 0, i) && AllWhite(s, j, |s|) && u == s[i..j]
  }

  lemma TrimsExactly(s: string, u: string)
    ensures Strip(s) == u <==> Trims(s, u)
  {
    var i, j := StripAt(s);
    if Strip(s) == u && u != "" { assert u[0] == s[i] && u[|u| - 1] == s[j - 1]; }
    if Trims(s, u) {
      var k, l :| 0 <= k <= l <= |s| && AllWhite(s, 0, k) && AllWhite(s, l, |s|) && u == s[k..l];
      if u != "" { assert u[0] == s[k] && u[|u| - 1] == s[l - 1] && i == k && j == l; }
    }
  }

  /** Blank, or a comment. */
  ghost predicate Skips(line: string) {
    AllWhite(line, 0, |line|) || exists i :: AllWhite(line, 0, i) && i < |line| && line[i] == '#'
  }

  lemma SkipsExactly(line: string)
    ensures Ignored(line) <==> Skips(line)
  {
    var i, j := StripAt(line);
    var k := StripLeftAt(line);
    assert StartsWith(StripLeft(line), "#") <==> k < |line| && line[k] == '#';
    assert Strip(line) == "" <==> AllWhite(line, 0, |line|);
  }

  /** A dash and a blank, behind two blanks or with something behind them. */
  ghost predicate StartsItem(line: string) {
    (|line| >= 4 && line[0] == ' ' && line[1] == ' ' && line[2] == '-' && line[3] == ' ') ||
    exists i, p ::
      AllWhite(line, 0, i) && i + 2 <= p < |line| && line[i] == '-' && line[i + 1] == ' ' && !White(line[p])
  }

  lemma StartsItemExactly(line: string)
    ensures IsItem(line) <==> StartsItem(line)
  {
    var i, j := StripAt(line);
    var u := Strip(line);
    assert StartsWith(line, "  - ") <==>
           |line| >= 4 && line[0] == ' ' && line[1] == ' ' && line[2] == '-' && line[3] == ' ';
    assert StartsWith(u, "- ") <==> |u| >= 2 && u[0] == '-' && u[1] == ' ';
    if |u| >= 2 { assert u[0] == line[i] && u[1] == line[i + 1] && u[|u| - 1] == line[j - 1]; }
    if k, p :| AllWhite(line, 0, k) && k + 2 <= p < |line| && line[k] == '-' && line[k + 1] == ' ' && !White(line[p]) {
      assert k == i && p < j;
    }
  }

  /** The first dash with a blank behind it. */
  ghost predicate DashAt(line: string, d: int) {
    0 <= d && d + 2 <= |line| && line[d] == '-' && line[d + 1] == ' ' &&
    forall k, l :: 0 <= k < d && l == k + 1 ==> line[k] != '-' || line[l] != ' '
  }

  lemma {:induction false} AfterDashAt(line: string, d: nat)
    requires DashAt(line, d)
    ensures AfterDash(line) == line[d + 2..]
    decreases d
  {
    if d > 0 {
      var tail := line[1..];
      forall k, l | 0 <= k < d - 1 && l == k + 1 ensures tail[k] != '-' || tail[l] != ' ' {
        var m := k + 1;
        assert line[m] != '-' || line[l + 1] != ' ';
      }
      AfterDashAt(tail, d - 1);
      assert tail[d - 1 + 2..] == line[d + 2..];
      var one := 1;
      assert line[0] != '-' || line[one] != ' ';
    }
  }

  lemma {:induction false} DashIsThere(line: string, k: nat) returns (d: nat)
    requires k + 2 <= |line| && line[k] == '-' && line[k + 1] == ' '
    ensures DashAt(line, d)
    decreases |line|
  {
    if line[0] == '-' && line[1] == ' ' {
      d := 0;
    } else {
      var e := DashIsThere(line[1..], k - 1);
      d := e + 1;
      forall m, l | 0 <= m < d && l == m + 1 ensures line[m] != '-' || line[l] != ' ' {
        if m > 0 { assert line[1..][m - 1] == line[m] && line[1..][l - 1] == line[l]; }
      }
    }
  }

  ghost predicate ColonAt(line: string, c: int) {
    0 <= c < |line| && line[c] == ':' && forall k :: 0 <= k < c ==> line[k] != ':'
  }

  lemma {:induction false} ColonExactly(line: string, c: nat)
    ensures ColonAt(line, c) <==> c < |line| && FirstColon(line) == c
    decreases |line|
  {
    if line != "" && line[0] != ':' {
      if c > 0 { ColonExactly(line[1..], c - 1); }
      assert forall k :: 1 <= k < |line| ==> line[k] == line[1..][k - 1];
    }
  }

  ghost predicate ReadsItem(line: string, x: string) {
    '\t' !in line && !Skips(line) && StartsItem(line) && exists d :: DashAt(line, d) && Trims(line[d + 2..], x)
  }

  ghost predicate ReadsKey(line: string, k: string, v: string) {
    '\t' !in line && !Skips(line) && !StartsItem(line) && line != "" && !White(line[0]) &&
    exists c :: ColonAt(line, c) && Trims(line[..c], k) && Trims(line[c + 1..], v)
  }

  ghost predicate Reads(line: string, r: Reading) {
    match r
    case Nothing => Skips(line)
    case Item(x) => ReadsItem(line, x)
    case Key(k, v) => ReadsKey(line, k, v)
  }

  /** The reader's way to tell. */
  function ReadingOf(line: string): Option<Reading> {
    if Ignored(line) then Some(Nothing)
    else if '\t' in line then None
    else if IsItem(line) then Some(Item(Strip(AfterDash(line))))
    else if line == "" || Regex.IsSpace(line[0]) then None
    else
      var colon := FirstColon(line);
      if colon == |line| then None else Some(Key(Strip(line[..colon]), Strip(line[colon + 1..])))
  }

  lemma ItemDash(line: string) returns (d: nat)
    requires StartsItem(line)
    ensures DashAt(line, d) && AfterDash(line) == line[d + 2..]
  {
    if |line| >= 4 && line[0] == ' ' && line[1] == ' ' && line[2] == '-' && line[3] == ' ' {
      d := DashIsThere(line, 2);
    } else {
      var i, p :|
        AllWhite(line, 0, i) && i + 2 <= p < |line| && line[i] == '-' && line[i + 1] == ' ' && !White(line[p]);
      d := DashIsThere(line, i);
    }
    AfterDashAt(line, d);
  }

  lemma ItemExactly(line: string, x: string)
    requires StartsItem(line)
    ensures Strip(AfterDash(line)) == x <==> exists d :: DashAt(line, d) && Trims(line[d + 2..], x)
  {
    var d := ItemDash(line);
    TrimsExactly(line[d + 2..], x);
    if e :| DashAt(line, e) && Trims(line[e + 2..], x) {
      AfterDashAt(line, e);
      TrimsExactly(line[e + 2..], x);
    }
  }

  lemma KeyExactly(line: string, k: string, v: string)
    ensures (exists c :: ColonAt(line, c) && Trims(line[..c], k) && Trims(line[c + 1..], v)) <==>
            FirstColon(line) < |line| && Strip(line[..FirstColon(line)]) == k &&
            Strip(line[FirstColon(line) + 1..]) == v
  {
    var f := FirstColon(line);
    ColonExactly(line, f);
    if f < |line| {
      TrimsExactly(line[..f], k);
      TrimsExactly(line[f + 1..], v);
    }
    if c :| ColonAt(line, c) && Trims(line[..c], k) && Trims(line[c + 1..], v) { ColonExactly(line, c); }
  }

  /** A line is read in one way only, if at all. */
  lemma ReadsExactly(line: string, r: Reading)
    ensures ReadingOf(line) == Some(r) <==> Reads(line, r)
  {
    SkipsExactly(line);
    StartsItemExactly(line);
    match r
    case Nothing =>
    case Item(x) => if StartsItem(line) { ItemExactly(line, x); }
    case Key(k, v) => KeyExactly(line, k, v);
  }

  // ---------- All lines ----------

  predicate IsScalar(k: string) { k == "id" || k == "version" || k == "name" }

  predicate IsList(k: string) { k == "outputs" || k == "forbidden_actions" }

  /** The key of the last key line. */
  function LastKey(rs: seq<Reading>): Option<string> {
    if rs == [] then None
    else if rs[|rs| - 1].Key? then Some(rs[|rs| - 1].key)
    else LastKey(rs[..|rs| - 1])
  }

  ghost predicate HasKey(rs: seq<Reading>, k: string, v: string) {
    exists i :: 0 <= i < |rs| && rs[i] == Key(k, v)
  }

  /** An item of the list `k`: no other key stands in between. */
  ghost predicate HasItem(rs: seq<Reading>, k: string, x: string) {
    exists i :: 0 <= i < |rs| && rs[i] == Item(x) && LastKey(rs[..i]) == Some(k)
  }

  /** An item stands in a list; a key is one of the five, comes once, and has a value only if it is no list. */
  ghost predicate InPlace(before: seq<Reading>, r: Reading) {
    match r
    case Nothing => true
    case Item(x) => LastKey(before).Some? && IsList(LastKey(before).value)
    case Key(k, v) =>
      (IsScalar(k) || IsList(k)) && (IsList(k) ==> v == "") &&
      forall i :: 0 <= i < |before| && before[i].Key? ==> before[i].key != k
  }

  ghost predicate AllInPlace(rs: seq<Reading>) {
    forall i :: 0 <= i < |rs| ==> InPlace(rs[..i], rs[i])
  }

  // ---------- The state after some lines ----------

  function StepBy(st: State, r: Reading): Result<State> {
    match r
    case Nothing => Ok(st)
    case Item(x) => AddItem(st, x)
    case Key(k, v) => AddKey(st, k, v)
  }

  lemma StepReads(st: State, line: string)
    ensures Step(st, line).Ok? ==> ReadingOf(line).Some?
    ensures ReadingOf(line).Some? ==> Step(st, line) == StepBy(st, ReadingOf(line).value)
  {
  }

  ghost predicate ScalarsAre(st: State, rs: seq<Reading>) {
    (forall k :: k in st.scalars ==> IsScalar(k) && HasKey(rs, k, st.scalars[k])) &&
    forall k, v :: HasKey(rs, k, v) && IsScalar(k) ==> k in st.scalars && st.scalars[k] == v
  }

  ghost predicate ListsAre(st: State, rs: seq<Reading>) {
    (forall k :: k in st.lists ==> IsList(k) && HasKey(rs, k, "")) &&
    (forall k, v :: HasKey(rs, k, v) && IsList(k) ==> k in st.lists) &&
    forall k, x :: k in st.lists ==> (x in st.lists[k] <==> HasItem(rs, k, x))
  }

  /** The state says what the lines say. */
  ghost predicate Describes(st: State, rs: seq<Reading>) {
    AllInPlace(rs) && ScalarsAre(st, rs) && ListsAre(st, rs) &&
    st.current == (if LastKey(rs).Some? && IsList(LastKey(rs).value) then LastKey(rs) else None) &&
    (LastKey(rs).Some? ==> exists v :: HasKey(rs, LastKey(rs).value, v))
  }

  lemma KeysOfMore(rs: seq<Reading>, r: Reading)
    ensures forall k, v :: HasKey(rs + [r], k, v) <==> HasKey(rs, k, v) || r == Key(k, v)
    ensures LastKey(rs + [r]) == if r.Key? then Some(r.key) else LastKey(rs)
  {
    var all := rs + [r];
    assert all[|rs|] == r && all[..|rs|] == rs;
    forall k, v ensures HasKey(all, k, v) <==> HasKey(rs, k, v) || r == Key(k, v) {
      if i :| 0 <= i < |rs| && rs[i] == Key(k, v) { assert all[i] == rs[i]; }
    }
  }

  lemma ItemsOfMore(rs: seq<Reading>, r: Reading)
    ensures forall k, x :: HasItem(rs + [r], k, x) <==> HasItem(rs, k, x) || (r == Item(x) && LastKey(rs) == Some(k))
  {
    var all := rs + [r];
    assert all[|rs|] == r && all[..|rs|] == rs;
    forall k, x ensures HasItem(all, k, x) <==> HasItem(rs, k, x) || (r == Item(x) && LastKey(rs) == Some(k)) {
      if i :| 0 <= i < |rs| && rs[i] == Item(x) && LastKey(rs[..i]) == Some(k) {
        assert all[i] == rs[i] && all[..i] == rs[..i];
      }
      if i :| 0 <= i < |all| && all[i] == Item(x) && LastKey(all[..i]) == Some(k) {
        if i < |rs| { assert all[..i] == rs[..i]; }
      }
    }
  }

  lemma PlacesOfMore(rs: seq<Reading>, r: Reading)
    ensures AllInPlace(rs + [r]) <==> AllInPlace(rs) && InPlace(rs, r)
  {
    var all := rs + [r];
    assert all[|rs|] == r && all[..|rs|] == rs;
    assert forall i :: 0 <= i < |rs| ==> all[i] == rs[i] && all[..i] == rs[..i];
  }

  lemma SeenKeys(rs: seq<Reading>, k: string)
    ensures (exists v :: HasKey(rs, k, v)) <==> exists i :: 0 <= i < |rs| && rs[i].Key? && rs[i].key == k
  {
    if i :| 0 <= i < |rs| && rs[i].Key? && rs[i].key == k { assert HasKey(rs, k, rs[i].value); }
  }

  /** A line is taken exactly when it is in place, and the state goes on to say what the lines say. */
  lemma DescribesMore(st: State, rs: seq<Reading>, r: Reading)
    requires Describes(st, rs)
    ensures StepBy(st, r).Ok? <==> InPlace(rs, r)
    ensures StepBy(st, r).Ok? ==> Describes(StepBy(st, r).value, rs + [r])
  {
    KeysOfMore(rs, r);
    ItemsOfMore(rs, r);
    PlacesOfMore(rs, r);
    match r
    case Nothing =>
    case Item(x) => ItemMore(st, rs, x);
    case Key(k, v) =>
      KeyTaken(st, rs, k, v);
      AddKeyIs(st, k, v);
      if InPlace(rs, Key(k, v)) { KeyMore(st, rs, k, v); }
  }

  lemma ItemMore(st: State, rs: seq<Reading>, x: string)
    requires Describes(st, rs)
    ensures AddItem(st, x).Ok? <==> InPlace(rs, Item(x))
    ensures AddItem(st, x).Ok? ==> Describes(AddItem(st, x).value, rs + [Item(x)])
  {
    KeysOfMore(rs, Item(x));
    ItemsOfMore(rs, Item(x));
    PlacesOfMore(rs, Item(x));
  }

  lemma {:induction false} LastIsThere(rs: seq<Reading>)
    requires LastKey(rs).Some?
    ensures exists i :: 0 <= i < |rs| && rs[i].Key? && rs[i].key == LastKey(rs).value
    decreases rs
  {
    var n := |rs| - 1;
    if !rs[n].Key? {
      LastIsThere(rs[..n]);
      var i :| 0 <= i < n && rs[..n][i].Key? && rs[..n][i].key == LastKey(rs).value;
      assert rs[i] == rs[..n][i];
    }
  }

  /** A list with items has a key line. */
  lemma ItemsHaveKey(rs: seq<Reading>, k: string)
    requires forall v :: !HasKey(rs, k, v)
    ensures forall x :: !HasItem(rs, k, x)
  {
    SeenKeys(rs, k);
    forall x ensures !HasItem(rs, k, x) {
      if i :| 0 <= i < |rs| && rs[i] == Item(x) && LastKey(rs[..i]) == Some(k) {
        LastIsThere(rs[..i]);
      }
    }
  }

  lemma KeyTaken(st: State, rs: seq<Reading>, k: string, v: string)
    requires Describes(st, rs)
    ensures AddKey(st, k, v).Ok? <==> InPlace(rs, Key(k, v))
    ensures k in st.scalars || k in st.lists <==>
            (IsScalar(k) || IsList(k)) && exists i :: 0 <= i < |rs| && rs[i].Key? && rs[i].key == k
  {
    SeenKeys(rs, k);
  }

  lemma ListMore(st: State, rs: seq<Reading>, k: string)
    requires Describes(st, rs) && IsList(k) && InPlace(rs, Key(k, ""))
    ensures Describes(State(st.scalars, st.lists[k := []], Some(k)), rs + [Key(k, "")])
  {
    KeysOfMore(rs, Key(k, ""));
    ItemsOfMore(rs, Key(k, ""));
    PlacesOfMore(rs, Key(k, ""));
    SeenKeys(rs, k);
    ItemsHaveKey(rs, k);
    assert HasKey(rs + [Key(k, "")], k, "");
  }

  lemma ScalarMore(st: State, rs: seq<Reading>, k: string, v: string)
    requires Describes(st, rs) && IsScalar(k) && InPlace(rs, Key(k, v))
    ensures Describes(State(st.scalars[k := v], st.lists, None), rs + [Key(k, v)])
  {
    KeysOfMore(rs, Key(k, v));
    ItemsOfMore(rs, Key(k, v));
    PlacesOfMore(rs, Key(k, v));
    SeenKeys(rs, k);
    assert HasKey(rs + [Key(k, v)], k, v);
  }

  function WithKey(st: State, k: string, v: string): State {
    if IsList(k) then State(st.scalars, st.lists[k := []], Some(k)) else State(st.scalars[k := v], st.lists, None)
  }

  lemma AddKeyIs(st: State, k: string, v: string)
    ensures AddKey(st, k, v).Ok? ==> (IsScalar(k) || IsList(k)) && (IsList(k) ==> v == "")
    ensures AddKey(st, k, v).Ok? ==> AddKey(st, k, v).value == WithKey(st, k, v)
  {
  }

  lemma KeyMore(st: State, rs: seq<Reading>, k: string, v: string)
    requires Describes(st, rs) && InPlace(rs, Key(k, v))
    ensures Describes(WithKey(st, k, v), rs + [Key(k, v)])
  {
    if IsList(k) { ListMore(st, rs, k); } else { ScalarMore(st, rs, k, v); }
  }

  // ---------- Whole manifests ----------

  function Readings(lines: seq<string>): Option<seq<Reading>> {
    if lines == [] then Some([])
    else
      var first, rest := ReadingOf(lines[0]), Readings(lines[1..]);
      if first.None? || rest.None? then None else Some([first.value] + rest.value)
  }

  ghost predicate AllRead(lines: seq<string>, rs: seq<Reading>) {
    |rs| == |lines| && forall i :: 0 <= i < |lines| ==> Reads(lines[i], rs[i])
  }

  lemma AllReadFirst(lines: seq<string>, rs: seq<Reading>)
    requires lines != [] && rs != []
    ensures AllRead(lines, rs) <==> Reads(lines[0], rs[0]) && AllRead(lines[1..], rs[1..])
  {
    if Reads(lines[0], rs[0]) && AllRead(lines[1..], rs[1..]) {
      forall i | 0 <= i < |lines| ensures Reads(lines[i], rs[i]) {
        if i > 0 { assert lines[i] == lines[1..][i - 1] && rs[i] == rs[1..][i - 1]; }
      }
    }
  }

  lemma {:induction false} ReadingsExactly(lines: seq<string>, rs: seq<Reading>)
    ensures Readings(lines) == Some(rs) <==> AllRead(lines, rs)
    decreases lines
  {
    if lines != [] && rs != [] {
      ReadsExactly(lines[0], rs[0]);
      ReadingsExactly(lines[1..], rs[1..]);
      AllReadFirst(lines, rs);
      assert rs == [rs[0]] + rs[1..];
    }
  }

  /** Reading succeeds exactly when every line says something, in its place. */
  lemma {:induction false} ReadOn(lines: seq<string>, st: State, done: seq<Reading>)
    requires Describes(st, done)
    ensures ReadLines(lines, st).Ok? <==>
            Readings(lines).Some? && AllInPlace(done + Readings(lines).value)
    ensures ReadLines(lines, st).Ok? ==> Describes(ReadLines(lines, st).value, done + Readings(lines).value)
    decreases lines
  {
    if lines == [] {
      assert done + [] == done;
    } else {
      StepReads(st, lines[0]);
      if ReadingOf(lines[0]).Some? {
        var r := ReadingOf(lines[0]).value;
        DescribesMore(st, done, r);
        if Readings(lines[1..]).Some? { PrefixInPlace(done, r, Readings(lines[1..]).value); }
        if StepBy(st, r).Ok? { ReadOn(lines[1..], StepBy(st, r).value, done + [r]); }
      }
    }
  }

  lemma PrefixInPlace(done: seq<Reading>, r: Reading, rest: seq<Reading>)
    ensures done + ([r] + rest) == done + [r] + rest
    ensures AllInPlace(done + [r] + rest) ==> InPlace(done, r)
  {
    var all := done + [r] + rest;
    assert all == done + ([r] + rest);
    assert all[|done|] == r && all[..|done|] == done;
  }

  lemma StartDescribes()
    ensures Describes(Start, [])
  {
  }

  /** The lines give all five keys, and something is forbidden. */
  ghost predicate IsManifest(lines: seq<string>, rs: seq<Reading>, m: Manifest) {
    AllRead(lines, rs) && AllInPlace(rs) &&
    m.id != "" && HasKey(rs, "id", m.id) && m.version != "" && HasKey(rs, "version", m.version) &&
    m.name != "" && HasKey(rs, "name", m.name) &&
    HasKey(rs, "outputs", "") && (forall x :: x in m.outputs <==> HasItem(rs, "outputs", x)) &&
    HasKey(rs, "forbidden_actions", "") && (forall x :: x in m.forbidden <==> HasItem(rs, "forbidden_actions", x)) &&
    m.forbidden != {}
  }

  lemma BuildGives(st: State, rs: seq<Reading>, m: Manifest)
    requires Describes(st, rs) && Build(st) == Result.Ok(m)
    ensures m.id != "" && HasKey(rs, "id", m.id) && m.version != "" && HasKey(rs, "version", m.version)
    ensures m.name != "" && HasKey(rs, "name", m.name)
    ensures HasKey(rs, "outputs", "") && forall x :: x in m.outputs <==> HasItem(rs, "outputs", x)
    ensures HasKey(rs, "forbidden_actions", "") && m.forbidden != {}
    ensures forall x :: x in m.forbidden <==> HasItem(rs, "forbidden_actions", x)
  {
    assert "id" in ScalarKeys && "version" in ScalarKeys && "name" in ScalarKeys;
    assert "outputs" in ListKeys && "forbidden_actions" in ListKeys;
    assert st.lists["forbidden_actions"][0] in m.forbidden;
  }

  ghost predicate Holds(st: State, m: Manifest) {
    "id" in st.scalars && st.scalars["id"] == m.id != "" &&
    "version" in st.scalars && st.scalars["version"] == m.version != "" &&
    "name" in st.scalars && st.scalars["name"] == m.name != "" &&
    "outputs" in st.lists && (forall x :: x in m.outputs <==> x in st.lists["outputs"]) &&
    "forbidden_actions" in st.lists && (forall x :: x in m.forbidden <==> x in st.lists["forbidden_actions"]) &&
    m.forbidden != {}
  }

  lemma ManifestHolds(st: State, rs: seq<Reading>, lines: seq<string>, m: Manifest)
    requires Describes(st, rs) && IsManifest(lines, rs, m)
    ensures Holds(st, m)
  {
    assert IsScalar("id") && IsScalar("version") && IsScalar("name");
    assert IsList("outputs") && IsList("forbidden_actions");
  }

  lemma HeldIsBuilt(st: State, m: Manifest)
    requires Holds(st, m)
    ensures Build(st) == Result.Ok(m)
  {
    assert m.outputs == Members(st.lists["outputs"]);
    assert m.forbidden == Members(st.lists["forbidden_actions"]);
    assert ListKeys <= st.lists.Keys;
  }

  lemma BuildTakes(st: State, rs: seq<Reading>, lines: seq<string>, m: Manifest)
    requires Describes(st, rs) && IsManifest(lines, rs, m)
    ensures Build(st) == Result.Ok(m)
  {
    ManifestHolds(st, rs, lines, m);
    HeldIsBuilt(st, m);
  }

  lemma ReadFromStart(lines: seq<string>)
    ensures ReadLines(lines, Start).Ok? <==> Readings(lines).Some? && AllInPlace(Readings(lines).value)
    ensures ReadLines(lines, Start).Ok? ==> Describes(ReadLines(lines, Start).value, Readings(lines).value)
  {
    StartDescribes();
    ReadOn(lines, Start, []);
    if Readings(lines).Some? { assert [] + Readings(lines).value == Readings(lines).value; }
  }

  /** A text loads exactly when its lines are a manifest, and then gives what they say. */
  lemma LoadsExactly(text: string, m: Manifest)
    ensures Load(text) == Result.Ok(m) <==> exists rs :: IsManifest(Lines(text), rs, m)
  {
    var lines := Lines(text);
    ReadFromStart(lines);
    if Load(text) == Result.Ok(m) {
      var rs := Readings(lines).value;
      ReadingsExactly(lines, rs);
      BuildGives(ReadLines(lines, Start).value, rs, m);
      assert IsManifest(lines, rs, m);
    }
    if rs :| IsManifest(lines, rs, m) {
      ReadingsExactly(lines, rs);
      BuildTakes(ReadLines(lines, Start).value, rs, lines, m);
    }
  }
}
