/**
 The sanitizer: identity fields are kept or the call fails, text is redacted, metadata trees are
 rewritten leaf by leaf, and findings are counted into one shared dictionary.
 */
module Sanitizer {
  import opened Redaction

  datatype Result<+T> = Ok(value: T) | Failure(reason: string)

  /** A dictionary key and its `str()` text. */
  datatype DictKey = Name(text: string) | NonText(text: string, id: nat)

  /** A Python value as it occurs in metadata; a dictionary in insertion order. */
  datatype Value =
    | Text(s: string)
    | Nothing
    | Truth(b: bool)
    | Whole(n: int)
    | Decimal(r: real)
    | Binary(bytes: seq<bv8>)
    | Dict(entries: seq<Entry>)
    | List(items: seq<Value>)
    | Tuple(items: seq<Value>)
    | Set(items: seq<Value>)
    | Other(typeName: string)

  datatype Entry = Entry(key: DictKey, value: Value)

  type Counts = map<Category, nat>

  /** What redacts a text and counts its findings. */
  type Engine = string -> (string, Counts)

  function Tally(m: Counts, c: Category): nat {
    if c in m then m[c] else 0
  }

  /** `target.get(category, 0) + count`, for every category found. */
  function Merged(target: Counts, found: Counts): Counts {
    map c | c in target.Keys + found.Keys :: Tally(target, c) + Tally(found, c)
  }

  lemma MergedAssociates(a: Counts, b: Counts, c: Counts)
    ensures Merged(Merged(a, b), c) == Merged(a, Merged(b, c))
  {
    var l, r := Merged(Merged(a, b), c), Merged(a, Merged(b, c));
    assert l.Keys == r.Keys;
    forall k | k in l ensures l[k] == r[k] {}
  }

  lemma MergedUnit(a: Counts)
    ensures Merged(a, map[]) == a && Merged(map[], a) == a
  {
  }

  function Within(found: Counts, categories: set<Category>): Counts {
    map c | c in found && c in categories :: found[c]
  }

  lemma NothingMerged(target: Counts, found: Counts)
    ensures Merged(target, Within(found, {})) == target
  {
  }

  lemma OneMoreMerged(target: Counts, found: Counts, done: set<Category>, c: Category)
    requires c in found && c !in done
    ensures var m := Merged(target, Within(found, done));
            Merged(target, Within(found, done + {c})) == m[c := Tally(m, c) + found[c]]
  {
  }

  /** Redacting the key changes nothing and finds nothing. */
  predicate KeyIsClean(f: Engine, k: DictKey) {
    f(k.text) == (k.text, map[])
  }

  // ---------- What the recursion computes ----------

  function Sanitized(f: Engine, v: Value, path: string): Result<Value>
    decreases v
  {
    match v
    case Text(s) => Ok(Text(f(s).0))
    case Nothing => Ok(v)
    case Truth(_) => Ok(v)
    case Whole(_) => Ok(v)
    case Decimal(_) => Ok(v)
    case Binary(_) => Failure("unsupported_binary:" + path)
    case Dict(entries) =>
      (match SanitizedEntries(f, entries, path)
       case Ok(out) => Ok(Dict(out))
       case Failure(reason) => Failure(reason))
    case List(items) =>
      (match SanitizedItems(f, items, path + "[]")
       case Ok(out) => Ok(List(out))
       case Failure(reason) => Failure(reason))
    case Tuple(items) =>
      (match SanitizedItems(f, items, path + "[]")
       case Ok(out) => Ok(Tuple(out))
       case Failure(reason) => Failure(reason))
    case Set(_) => Failure("unsupported_metadata_type:set:" + path)
    case Other(name) => Failure("unsupported_metadata_type:" + name)
  }

  function Prepended<T>(head: Result<T>, tail: Result<seq<T>>): Result<seq<T>> {
    if head.Failure? then Failure(head.reason)
    else if tail.Failure? then tail
    else Ok([head.value] + tail.value)
  }

  function SanitizedItems(f: Engine, items: seq<Value>, path: string): Result<seq<Value>>
    decreases items
  {
    if items == [] then Ok([])
    else Prepended(Sanitized(f, items[0], path), SanitizedItems(f, items[1..], path))
  }

  function SanitizedEntry(f: Engine, e: Entry, path: string): Result<Entry>
    decreases e
  {
    if !KeyIsClean(f, e.key) then Failure("sensitive_metadata_key:" + path)
    else
      match Sanitized(f, e.value, path + "." + e.key.text)
      case Ok(out) => Ok(Entry(e.key, out))
      case Failure(reason) => Failure(reason)
  }

  function SanitizedEntries(f: Engine, entries: seq<Entry>, path: string): Result<seq<Entry>>
    decreases entries
  {
    if entries == [] then Ok([])
    else Prepended(SanitizedEntry(f, entries[0], path), SanitizedEntries(f, entries[1..], path))
  }

  /** The findings of every text leaf, merged in order. */
  function Found(f: Engine, v: Value): Counts
    decreases v
  {
    match v
    case Text(s) => f(s).1
    case Dict(entries) => FoundInEntries(f, entries)
    case List(items) => FoundInItems(f, items)
    case Tuple(items) => FoundInItems(f, items)
    case _ => map[]
  }

  function FoundInItems(f: Engine, items: seq<Value>): Counts
    decreases items
  {
    if items == [] then map[] else Merged(Found(f, items[0]), FoundInItems(f, items[1..]))
  }

  function FoundInEntries(f: Engine, entries: seq<Entry>): Counts
    decreases entries
  {
    if entries == [] then map[] else Merged(FoundInEntry(f, entries[0]), FoundInEntries(f, entries[1..]))
  }

  function FoundInEntry(f: Engine, e: Entry): Counts
    decreases e
  {
    Found(f, e.value)
  }

  /** What a loop over a list has done so far, and what it has still to do. */
  function Rest<T>(done: seq<T>, tail: Result<seq<T>>): Result<seq<T>> {
    if tail.Failure? then tail else Ok(done + tail.value)
  }

  lemma RestStep<T>(done: seq<T>, x: T, tail: Result<seq<T>>)
    ensures Rest(done, Prepended(Ok(x), tail)) == Rest(done + [x], tail)
  {
    if tail.Ok? { assert done + ([x] + tail.value) == done + [x] + tail.value; }
  }

  lemma RestEnds<T>(s: seq<T>, tail: Result<seq<T>>)
    ensures Rest([], tail) == tail && Rest(s, Ok([])) == Ok(s)
  {
    assert s + [] == s;
    if tail.Ok? { assert [] + tail.value == tail.value; }
  }

  // ---------- The shared findings ----------

  class Findings {
    const f: Engine
    var counts: Counts

    constructor (f: Engine)
      ensures counts == map[] && this.f == f
    {
      this.f, counts := f, map[];
    }

    method MergeCounts(found: Counts)
      modifies this
      ensures counts == Merged(old(counts), found)
    {
      var left := found.Keys;
      ghost var done: set<Category> := {};
      NothingMerged(counts, found);
      while left != {}
        invariant found.Keys == left + done && left !! done
        invariant counts == Merged(old(counts), Within(found, done))
        decreases |left|
      {
        var category :| category in left;
        OneMoreMerged(old(counts), found, done, category);
        counts := counts[category := Tally(counts, category) + found[category]];
        left, done := left - {category}, done + {category};
      }
      assert Within(found, done) == found;
    }

    method SanitizeText(value: string) returns (redacted: string)
      modifies this
      ensures redacted == f(value).0
      ensures counts == Merged(old(counts), Found(f, Text(value)))
    {
      var both := f(value);
      MergeCounts(both.1);
      redacted := both.0;
    }

    method SanitizeValue(value: Value, path: string) returns (r: Result<Value>)
      modifies this
      ensures r == Sanitized(f, value, path)
      ensures r.Ok? ==> counts == Merged(old(counts), Found(f, value))
      decreases value
    {
      match value {
        case Text(s) =>
          var t := SanitizeText(s);
          r := Ok(Text(t));
        case Binary(_) =>
          r := Failure("unsupported_binary:" + path);
        case Dict(entries) =>
          var out := SanitizeEntries(entries, path);
          r := if out.Ok? then Ok(Dict(out.value)) else Failure(out.reason);
        case List(items) =>
          var out := SanitizeItems(items, path + "[]");
          r := if out.Ok? then Ok(List(out.value)) else Failure(out.reason);
        case Tuple(items) =>
          var out := SanitizeItems(items, path + "[]");
          r := if out.Ok? then Ok(Tuple(out.value)) else Failure(out.reason);
        case Set(_) =>
          r := Failure("unsupported_metadata_type:set:" + path);
        case Other(name) =>
          r := Failure("unsupported_metadata_type:" + name);
        case _ =>
          MergedUnit(counts);
          r := Ok(value);
      }
    }

    method SanitizeItems(items: seq<Value>, path: string) returns (r: Result<seq<Value>>)
      modifies this
      ensures r == SanitizedItems(f, items, path)
      ensures r.Ok? ==> counts == Merged(old(counts), FoundInItems(f, items))
      decreases items
    {
      var out: seq<Value> := [];
      var i := 0;
      assert items[0..] == items;
      RestEnds(out, SanitizedItems(f, items, path));
      while i < |items|
        invariant i <= |items|
        invariant SanitizedItems(f, items, path) == Rest(out, SanitizedItems(f, items[i..], path))
        invariant Merged(counts, FoundInItems(f, items[i..])) == Merged(old(counts), FoundInItems(f, items))
      {
        assert items[i..][1..] == items[i + 1..];
        ghost var before := counts;
        var item := SanitizeValue(items[i], path);
        if item.Failure? {
          return Failure(item.reason);
        }
        MergedAssociates(before, Found(f, items[i]), FoundInItems(f, items[i + 1..]));
        RestStep(out, item.value, SanitizedItems(f, items[i + 1..], path));
        out := out + [item.value];
        i := i + 1;
      }
      MergedUnit(counts);
      RestEnds(out, Ok([]));
      r := Ok(out);
    }

    method SanitizeEntries(entries: seq<Entry>, path: string) returns (r: Result<seq<Entry>>)
      modifies this
      ensures r == SanitizedEntries(f, entries, path)
      ensures r.Ok? ==> counts == Merged(old(counts), FoundInEntries(f, entries))
      decreases entries
    {
      var output: seq<Entry> := [];
      var i := 0;
      assert entries[0..] == entries;
      RestEnds(output, SanitizedEntries(f, entries, path));
      while i < |entries|
        invariant i <= |entries|
        invariant SanitizedEntries(f, entries, path) == Rest(output, SanitizedEntries(f, entries[i..], path))
        invariant Merged(counts, FoundInEntries(f, entries[i..])) == Merged(old(counts), FoundInEntries(f, entries))
      {
        assert entries[i..][1..] == entries[i + 1..];
        ghost var before := counts;
        var item := SanitizeEntry(entries[i], path);
        if item.Failure? {
          return Failure(item.reason);
        }
        MergedAssociates(before, FoundInEntry(f, entries[i]), FoundInEntries(f, entries[i + 1..]));
        RestStep(output, item.value, SanitizedEntries(f, entries[i + 1..], path));
        output := output + [item.value];
        i := i + 1;
      }
      MergedUnit(counts);
      RestEnds(output, Ok([]));
      r := Ok(output);
    }

    method SanitizeEntry(e: Entry, path: string) returns (r: Result<Entry>)
      modifies this
      ensures r == SanitizedEntry(f, e, path)
      ensures r.Ok? ==> counts == Merged(old(counts), FoundInEntry(f, e))
      decreases e
    {
      if !KeyIsClean(f, e.key) {
        return Failure("sensitive_metadata_key:" + path);
      }
      var sub := SanitizeValue(e.value, path + "." + e.key.text);
      r := if sub.Ok? then Ok(Entry(e.key, sub.value)) else Failure(sub.reason);
    }
  }
}
