/** Loading a printed manifest gives it back, whatever the order of its keys. */
module ManifestProof {
  import opened Lru
  import opened Strings
  import opened Manifest
  import Regex

  /** A key with its value or items. */
  datatype Block = Scalar(key: string, value: string) | ListOf(key: string, items: seq<string>)

  function ItemLines(items: seq<string>): seq<string> {
    if items == [] then [] else ["  - " + items[0]] + ItemLines(items[1..])
  }

  function PrintBlock(b: Block): seq<string> {
    match b
    case Scalar(key, value) => [key + ": " + value]
    case ListOf(key, items) => [key + ":"] + ItemLines(items)
  }

  function Print(blocks: seq<Block>): seq<string> {
    if blocks == [] then [] else PrintBlock(blocks[0]) + Print(blocks[1..])
  }

  /** One line, no tab, no white space at either end. */
  ghost predicate CleanText(s: string) {
    OneLine(s) && '\t' !in s && (s == "" || (!Regex.IsSpace(s[0]) && !Regex.IsSpace(s[|s| - 1])))
  }

  predicate KeyChars(k: string) {
    k != "" && forall i :: 0 <= i < |k| ==> Regex.IsLower(k[i]) || k[i] == '_'
  }

  ghost predicate GoodBlock(b: Block) {
    KeyChars(b.key) &&
    match b
    case Scalar(key, value) => key in ScalarKeys && key !in ListKeys && CleanText(value)
    case ListOf(key, items) => key in ListKeys && forall x :: x in items ==> CleanText(x)
  }

  // ---------- Stripping ----------

  lemma StripClean(s: string)
    requires CleanText(s)
    ensures Strip(s) == s && Strip(" " + s) == s
  {
    assert (" " + s)[1..] == s;
  }

  lemma KeyIsClean(k: string)
    requires KeyChars(k)
    ensures CleanText(k) && ':' !in k && !Regex.IsSpace(k[0]) && k[0] != '#' && k[0] != '-'
  {
  }

  lemma {:induction false} ColonAfter(k: string, rest: string)
    requires ':' !in k && rest != "" && rest[0] == ':'
    ensures FirstColon(k + rest) == |k|
  {
    if k == "" {
      assert k + rest == rest;
    } else {
      assert (k + rest)[0] == k[0] && k[0] in k && (k + rest)[1..] == k[1..] + rest;
      ColonAfter(k[1..], rest);
    }
  }

  lemma {:induction false} StripRightKeepsFirst(s: string)
    requires s != "" && !Regex.IsSpace(s[0])
    ensures StripRight(s) != "" && StripRight(s)[0] == s[0]
  {
    if Regex.IsSpace(s[|s| - 1]) { StripRightKeepsFirst(s[..|s| - 1]); }
  }

  // ---------- Key lines ----------

  /** A line `key:value` at the margin. */
  lemma KeyLineStep(st: State, k: string, rest: string)
    requires KeyChars(k) && '\t' !in rest
    ensures Step(st, k + ":" + rest) == AddKey(st, k, Strip(rest))
  {
    var line := k + ":" + rest;
    KeyIsClean(k);
    assert line[0] == k[0] && StripLeft(line) == line;
    StripRightKeepsFirst(line);
    assert line == k + (":" + rest);
    ColonAfter(k, ":" + rest);
    assert line[..|k|] == k && line[|k| + 1..] == rest;
    StripClean(k);
    assert '\t' !in line;
  }

  lemma ItemLineStep(st: State, item: string)
    requires CleanText(item)
    ensures Step(st, "  - " + item) == AddItem(st, item)
  {
    var line := "  - " + item;
    var tail := "- " + item;
    assert line[1..] == " " + tail && (" " + tail)[1..] == tail;
    assert StripLeft(tail) == tail && StripLeft(" " + tail) == tail;
    assert StripLeft(line) == tail;
    StripRightKeepsFirst("- " + item);
    assert AfterDash("- " + item) == item by { assert ("- " + item)[2..] == item; }
    assert AfterDash(line) == item;
    StripClean(item);
    assert '\t' !in line;
  }

  // ---------- Blocks ----------

  function AfterBlock(st: State, b: Block): State {
    match b
    case Scalar(key, value) => State(st.scalars[key := value], st.lists, None)
    case ListOf(key, items) => State(st.scalars, st.lists[key := items], Some(key))
  }

  lemma {:induction false} ItemsStep(st: State, key: string, done: seq<string>, items: seq<string>, rest: seq<string>)
    requires st.current == Some(key) && key in st.lists && st.lists[key] == done
    requires forall x :: x in items ==> CleanText(x)
    ensures ReadLines(ItemLines(items) + rest, st) == ReadLines(rest, st.(lists := st.lists[key := done + items]))
    decreases items
  {
    var lines := ItemLines(items) + rest;
    if items == [] {
      assert lines == rest && done + items == done && st.lists[key := done] == st.lists;
    } else {
      assert items[0] in items && forall x :: x in items[1..] ==> x in items;
      ItemLineStep(st, items[0]);
      var next := st.(lists := st.lists[key := done + [items[0]]]);
      ItemsStep(next, key, done + [items[0]], items[1..], rest);
      assert lines[0] == "  - " + items[0] && lines[1..] == ItemLines(items[1..]) + rest;
      assert done + [items[0]] + items[1..] == done + items;
      assert next.lists[key := done + items] == st.lists[key := done + items];
    }
  }

  lemma ScalarStep(st: State, key: string, value: string, rest: seq<string>)
    requires GoodBlock(Scalar(key, value)) && key !in st.scalars && key !in st.lists
    ensures ReadLines([key + ": " + value] + rest, st) == ReadLines(rest, AfterBlock(st, Scalar(key, value)))
  {
    var lines := [key + ": " + value] + rest;
    KeyLineStep(st, key, " " + value);
    StripClean(value);
    assert key + ": " + value == key + ":" + (" " + value);
    assert lines[1..] == rest;
  }

  lemma ListStep(st: State, key: string, items: seq<string>, rest: seq<string>)
    requires GoodBlock(ListOf(key, items)) && key !in st.scalars && key !in st.lists
    ensures ReadLines([key + ":"] + (ItemLines(items) + rest), st) ==
            ReadLines(rest, AfterBlock(st, ListOf(key, items)))
  {
    var lines := [key + ":"] + (ItemLines(items) + rest);
    KeyLineStep(st, key, "");
    assert key + ":" + "" == key + ":";
    var started := State(st.scalars, st.lists[key := []], Some(key));
    assert lines[1..] == ItemLines(items) + rest;
    ItemsStep(started, key, [], items, rest);
    assert [] + items == items && started.lists[key := items] == st.lists[key := items];
  }

  lemma BlockStep(st: State, b: Block, rest: seq<string>)
    requires GoodBlock(b) && b.key !in st.scalars && b.key !in st.lists
    ensures ReadLines(PrintBlock(b) + rest, st) == ReadLines(rest, AfterBlock(st, b))
  {
    match b
    case Scalar(key, value) => ScalarStep(st, key, value, rest);
    case ListOf(key, items) =>
      ListStep(st, key, items, rest);
      assert PrintBlock(b) + rest == [key + ":"] + (ItemLines(items) + rest);
  }

  ghost predicate DistinctKeys(blocks: seq<Block>) {
    forall i, j :: 0 <= i < j < |blocks| ==> blocks[i].key != blocks[j].key
  }

  ghost predicate HoldsAll(st: State, blocks: seq<Block>) {
    forall b :: b in blocks ==>
      if b.Scalar? then b.key in st.scalars && st.scalars[b.key] == b.value
      else b.key in st.lists && st.lists[b.key] == b.items
  }

  lemma {:induction false} BlocksAreRead(blocks: seq<Block>, before: seq<Block>, st: State) returns (end: State)
    requires (forall b :: b in blocks ==> GoodBlock(b)) && DistinctKeys(before + blocks) && HoldsAll(st, before)
    requires forall k :: k in st.scalars || k in st.lists ==> exists b :: b in before && b.key == k
    ensures ReadLines(Print(blocks), st) == Ok(end) && HoldsAll(end, before + blocks)
    decreases blocks
  {
    if blocks == [] {
      end := st;
      assert before + blocks == before;
    } else {
      var b, next := blocks[0], AfterBlock(st, blocks[0]);
      assert b in blocks && forall x :: x in blocks[1..] ==> x in blocks;
      assert before + blocks == before + [b] + blocks[1..];
      NewKey(before, b, blocks[1..]);
      BlockStep(st, b, Print(blocks[1..]));
      forall k | k in next.scalars || k in next.lists ensures exists x :: x in before + [b] && x.key == k {
        if k == b.key {
          assert b in before + [b];
        } else {
          var x :| x in before && x.key == k;
          assert x in before + [b];
        }
      }
      end := BlocksAreRead(blocks[1..], before + [b], next);
    }
  }

  lemma NewKey(before: seq<Block>, b: Block, rest: seq<Block>)
    requires DistinctKeys(before + [b] + rest)
    ensures forall x :: x in before ==> x.key != b.key
  {
    var all := before + [b] + rest;
    forall x | x in before ensures x.key != b.key {
      var i :| 0 <= i < |before| && before[i] == x;
      assert all[i] == x && all[|before|] == b;
    }
  }

  // ---------- The round trip ----------

  function Five(id: string, version: string, name: string, outputs: seq<string>, forbidden: seq<string>)
    : multiset<Block>
  {
    multiset{Scalar("id", id), Scalar("version", version), Scalar("name", name), ListOf("outputs", outputs),
             ListOf("forbidden_actions", forbidden)}
  }

  lemma KnownKeys()
    ensures KeyChars("id") && KeyChars("version") && KeyChars("name") && KeyChars("outputs") &&
            KeyChars("forbidden_actions")
    ensures |"id"| == 2 && |"version"| == 7 && |"name"| == 4 && |"outputs"| == 7 && |"forbidden_actions"| == 17
    ensures "version" != "outputs"
  {
    assert "version"[0] != "outputs"[0];
  }

  lemma FiveOnce(id: string, version: string, name: string, outputs: seq<string>, forbidden: seq<string>, a: Block,
                 b: Block)
    requires a in Five(id, version, name, outputs, forbidden) && b in Five(id, version, name, outputs, forbidden)
    ensures Five(id, version, name, outputs, forbidden)[a] == 1 && (a.key == b.key ==> a == b)
  {
    KnownKeys();
  }

  lemma FiveAreGood(id: string, version: string, name: string, outputs: seq<string>, forbidden: seq<string>, b: Block)
    requires CleanText(id) && CleanText(version) && CleanText(name)
    requires (forall x :: x in outputs ==> CleanText(x)) && (forall x :: x in forbidden ==> CleanText(x))
    requires b in Five(id, version, name, outputs, forbidden)
    ensures GoodBlock(b)
  {
    KnownKeys();
  }

  lemma FiveAreDistinct(id: string, version: string, name: string, outputs: seq<string>, forbidden: seq<string>,
                        blocks: seq<Block>)
    requires multiset(blocks) == Five(id, version, name, outputs, forbidden)
    ensures DistinctKeys(blocks)
  {
    assert forall b :: b in multiset(blocks) <==> b in blocks;
    forall i, j | 0 <= i < j < |blocks| ensures blocks[i].key != blocks[j].key {
      FiveOnce(id, version, name, outputs, forbidden, blocks[i], blocks[j]);
      if blocks[i] == blocks[j] { TwiceCounts(blocks, i, j); }
    }
  }

  lemma BuildFive(st: State, id: string, version: string, name: string, outputs: seq<string>, forbidden: seq<string>,
                  blocks: seq<Block>)
    requires HoldsAll(st, blocks) && id != "" && version != "" && name != "" && forbidden != []
    requires Scalar("id", id) in blocks && Scalar("version", version) in blocks && Scalar("name", name) in blocks
    requires ListOf("outputs", outputs) in blocks && ListOf("forbidden_actions", forbidden) in blocks
    ensures Build(st) == Ok(Manifest(id, version, name, Members(outputs), Members(forbidden)))
  {
  }

  /** Printing the five keys in any order and loading gives the manifest. */
  lemma PrintRoundTrip(id: string, version: string, name: string, outputs: seq<string>, forbidden: seq<string>,
                       blocks: seq<Block>)
    requires CleanText(id) && CleanText(version) && CleanText(name) && id != "" && version != "" && name != ""
    requires (forall x :: x in outputs ==> CleanText(x)) && (forall x :: x in forbidden ==> CleanText(x)) &&
             forbidden != []
    requires multiset(blocks) == Five(id, version, name, outputs, forbidden)
    ensures LoadLines(Print(blocks)) == Ok(Manifest(id, version, name, Members(outputs), Members(forbidden)))
  {
    var five := Five(id, version, name, outputs, forbidden);
    assert forall b :: b in multiset(blocks) <==> b in blocks;
    forall b | b in blocks ensures GoodBlock(b) { FiveAreGood(id, version, name, outputs, forbidden, b); }
    FiveAreDistinct(id, version, name, outputs, forbidden, blocks);
    assert [] + blocks == blocks;
    var end := BlocksAreRead(blocks, [], Start);
    assert Scalar("id", id) in five && Scalar("version", version) in five && Scalar("name", name) in five;
    assert ListOf("outputs", outputs) in five && ListOf("forbidden_actions", forbidden) in five;
    BuildFive(end, id, version, name, outputs, forbidden, blocks);
  }

  lemma TwiceCounts<T>(s: seq<T>, i: nat, j: nat)
    requires i < j < |s| && s[i] == s[j]
    ensures multiset(s)[s[i]] >= 2
  {
    assert s == s[..j] + s[j..];
    assert s[i] in s[..j] && s[i] in s[j..] by { assert s[..j][i] == s[i] && s[j..][0] == s[j]; }
  }

  /** The same as a text: with any line ending, and with blank lines and comments anywhere. */
  lemma PrintedTextLoads(id: string, version: string, name: string, outputs: seq<string>, forbidden: seq<string>,
                         blocks: seq<Block>, lines: seq<string>, e: Ending)
    requires CleanText(id) && CleanText(version) && CleanText(name) && id != "" && version != "" && name != ""
    requires (forall x :: x in outputs ==> CleanText(x)) && (forall x :: x in forbidden ==> CleanText(x)) &&
             forbidden != []
    requires multiset(blocks) == Five(id, version, name, outputs, forbidden)
    requires lines != [] && (forall l :: l in lines ==> OneLine(l)) && Significant(lines) == Significant(Print(blocks))
    ensures Load(JoinLines(lines, e)) == Ok(Manifest(id, version, name, Members(outputs), Members(forbidden)))
  {
    EndingsDoNotMatter(lines, e);
    OnlySignificantLinesCount(lines, Start);
    OnlySignificantLinesCount(Print(blocks), Start);
    PrintRoundTrip(id, version, name, outputs, forbidden, blocks);
  }
}
