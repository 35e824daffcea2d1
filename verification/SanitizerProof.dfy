/** A sanitized tree has the shape, keys and scalars of the original, and its texts redacted. */
module SanitizerProof {
  import opened Redaction
  import opened Sanitizer

  // ---------- Places in a tree ----------

  /** A place: which child to enter at each level. */
  type Place = seq<nat>

  function Children(v: Value): seq<Value> {
    match v
    case Dict(entries) => seq(|entries|, i requires 0 <= i < |entries| => entries[i].value)
    case List(items) => items
    case Tuple(items) => items
    case _ => []
  }

  predicate Reaches(v: Value, p: Place)
    decreases |p|
  {
    p == [] || (p[0] < |Children(v)| && Reaches(Children(v)[p[0]], p[1..]))
  }

  function At(v: Value, p: Place): Value
    requires Reaches(v, p)
    decreases |p|
  {
    if p == [] then v else At(Children(v)[p[0]], p[1..])
  }

  /** Nothing the sanitizer rejects at the top of `v`. */
  ghost predicate Allowed(f: Engine, v: Value) {
    !v.Binary? && !v.Set? && !v.Other? && (v.Dict? ==> forall e :: e in v.entries ==> KeyIsClean(f, e.key))
  }

  /** The top of `w` is the top of `v`, sanitized. */
  ghost predicate SameTop(f: Engine, v: Value, w: Value) {
    match v
    case Text(s) => w == Text(f(s).0)
    case Dict(entries) =>
      w.Dict? && |w.entries| == |entries| && forall i :: 0 <= i < |entries| ==> w.entries[i].key == entries[i].key
    case List(items) => w.List? && |w.items| == |items|
    case Tuple(items) => w.Tuple? && |w.items| == |items|
    case _ => w == v
  }

  // ---------- Children are sanitized one by one ----------

  lemma {:induction false} EachItem(f: Engine, items: seq<Value>, path: string, out: seq<Value>)
    requires SanitizedItems(f, items, path) == Ok(out)
    ensures |out| == |items| && forall i :: 0 <= i < |items| ==> Sanitized(f, items[i], path) == Ok(out[i])
  {
    if items != [] {
      EachItem(f, items[1..], path, out[1..]);
      forall i | 0 <= i < |items| ensures Sanitized(f, items[i], path) == Ok(out[i]) {
        if i > 0 { assert items[i] == items[1..][i - 1] && out[i] == out[1..][i - 1]; }
      }
    }
  }

  lemma {:induction false} EachEntry(f: Engine, entries: seq<Entry>, path: string, out: seq<Entry>)
    requires SanitizedEntries(f, entries, path) == Ok(out)
    ensures |out| == |entries| && forall i :: 0 <= i < |entries| ==> SanitizedEntry(f, entries[i], path) == Ok(out[i])
  {
    if entries != [] {
      EachEntry(f, entries[1..], path, out[1..]);
      forall i | 0 <= i < |entries| ensures SanitizedEntry(f, entries[i], path) == Ok(out[i]) {
        if i > 0 { assert entries[i] == entries[1..][i - 1] && out[i] == out[1..][i - 1]; }
      }
    }
  }

  lemma TopIsSanitized(f: Engine, v: Value, path: string, w: Value)
    requires Sanitized(f, v, path) == Ok(w)
    ensures Allowed(f, v) && SameTop(f, v, w) && |Children(w)| == |Children(v)|
  {
    match v
    case Dict(entries) => EachEntry(f, entries, path, w.entries);
    case List(items) => EachItem(f, items, path + "[]", w.items);
    case Tuple(items) => EachItem(f, items, path + "[]", w.items);
    case _ =>
  }

  lemma ChildIsSanitized(f: Engine, v: Value, path: string, w: Value, i: nat) returns (below: string)
    requires Sanitized(f, v, path) == Ok(w) && i < |Children(v)|
    ensures |Children(w)| == |Children(v)| && Sanitized(f, Children(v)[i], below) == Ok(Children(w)[i])
  {
    match v
    case Dict(entries) =>
      EachEntry(f, entries, path, w.entries);
      below := path + "." + entries[i].key.text;
    case List(items) =>
      EachItem(f, items, path + "[]", w.items);
      below := path + "[]";
    case Tuple(items) =>
      EachItem(f, items, path + "[]", w.items);
      below := path + "[]";
  }

  // ---------- Conservation ----------

  /** The same places exist in both trees, and at each of them the tops correspond. */
  lemma {:induction false} Conserved(f: Engine, v: Value, path: string, w: Value, p: Place)
    requires Sanitized(f, v, path) == Ok(w)
    ensures Reaches(v, p) <==> Reaches(w, p)
    ensures Reaches(v, p) ==> Allowed(f, At(v, p)) && SameTop(f, At(v, p), At(w, p))
    decreases |p|
  {
    TopIsSanitized(f, v, path, w);
    if p != [] && p[0] < |Children(v)| {
      var below := ChildIsSanitized(f, v, path, w, p[0]);
      Conserved(f, Children(v)[p[0]], below, Children(w)[p[0]], p[1..]);
    }
  }

  /** Sanitizing fails exactly when something is not allowed somewhere. */
  lemma SucceedsExactly(f: Engine, v: Value, path: string)
    ensures Sanitized(f, v, path).Ok? <==> forall p :: Reaches(v, p) ==> Allowed(f, At(v, p))
  {
    if Sanitized(f, v, path).Ok? {
      forall p | Reaches(v, p) ensures Allowed(f, At(v, p)) {
        Conserved(f, v, path, Sanitized(f, v, path).value, p);
      }
    } else {
      var p := FailingPlace(f, v, path);
    }
  }

  lemma {:induction false} FailingPlace(f: Engine, v: Value, path: string) returns (p: Place)
    requires Sanitized(f, v, path).Failure?
    ensures Reaches(v, p) && !Allowed(f, At(v, p))
    decreases v
  {
    p := [];
    match v
    case Dict(entries) =>
      var i := FailingEntry(f, entries, path);
      if KeyIsClean(f, entries[i].key) {
        var below := FailingPlace(f, entries[i].value, path + "." + entries[i].key.text);
        assert Children(v)[i] == entries[i].value;
        p := Below(f, v, i, below);
      }
    case List(items) =>
      var i := FailingItem(f, items, path + "[]");
      var below := FailingPlace(f, items[i], path + "[]");
      p := Below(f, v, i, below);
    case Tuple(items) =>
      var i := FailingItem(f, items, path + "[]");
      var below := FailingPlace(f, items[i], path + "[]");
      p := Below(f, v, i, below);
    case _ =>
  }

  lemma Below(f: Engine, v: Value, i: nat, below: Place) returns (p: Place)
    requires i < |Children(v)| && Reaches(Children(v)[i], below) && !Allowed(f, At(Children(v)[i], below))
    ensures Reaches(v, p) && !Allowed(f, At(v, p))
  {
    p := [i] + below;
    assert p[1..] == below;
  }

  lemma {:induction false} FailingItem(f: Engine, items: seq<Value>, path: string) returns (i: nat)
    requires SanitizedItems(f, items, path).Failure?
    ensures i < |items| && Sanitized(f, items[i], path).Failure?
  {
    i := 0;
    if Sanitized(f, items[0], path).Ok? {
      i := FailingItem(f, items[1..], path);
      i := i + 1;
    }
  }

  lemma {:induction false} FailingEntry(f: Engine, entries: seq<Entry>, path: string) returns (i: nat)
    requires SanitizedEntries(f, entries, path).Failure?
    ensures i < |entries| && SanitizedEntry(f, entries[i], path).Failure?
  {
    i := 0;
    if SanitizedEntry(f, entries[0], path).Ok? {
      i := FailingEntry(f, entries[1..], path);
      i := i + 1;
    }
  }

  // ---------- Counts ----------

  /** The texts of the tree, in order. */
  function Leaves(v: Value): seq<string>
    decreases v
  {
    match v
    case Text(s) => [s]
    case Dict(entries) => EntryLeaves(entries)
    case List(items) => ItemLeaves(items)
    case Tuple(items) => ItemLeaves(items)
    case _ => []
  }

  function ItemLeaves(items: seq<Value>): seq<string>
    decreases items
  {
    if items == [] then [] else Leaves(items[0]) + ItemLeaves(items[1..])
  }

  function EntryLeaves(entries: seq<Entry>): seq<string>
    decreases entries
  {
    if entries == [] then []
    else
      var e := entries[0];
      assert e.value < e;
      Leaves(e.value) + EntryLeaves(entries[1..])
  }

  /** How often the engine finds category `c` in the texts, one text at a time. */
  function Total(f: Engine, texts: seq<string>, c: Category): nat {
    if texts == [] then 0 else Tally(f(texts[0]).1, c) + Total(f, texts[1..], c)
  }

  lemma {:induction false} TotalConcat(f: Engine, a: seq<string>, b: seq<string>, c: Category)
    ensures Total(f, a + b, c) == Total(f, a, c) + Total(f, b, c)
  {
    if a == [] {
      assert a + b == b;
    } else {
      TotalConcat(f, a[1..], b, c);
      assert (a + b)[1..] == a[1..] + b;
    }
  }

  lemma {:induction false} FoundIsTotal(f: Engine, v: Value, c: Category)
    ensures Tally(Found(f, v), c) == Total(f, Leaves(v), c)
    decreases v
  {
    match v
    case Text(s) => assert [s][1..] == [];
    case Dict(entries) => FoundInEntriesIsTotal(f, entries, c);
    case List(items) => FoundInItemsIsTotal(f, items, c);
    case Tuple(items) => FoundInItemsIsTotal(f, items, c);
    case _ =>
  }

  lemma {:induction false} FoundInItemsIsTotal(f: Engine, items: seq<Value>, c: Category)
    ensures Tally(FoundInItems(f, items), c) == Total(f, ItemLeaves(items), c)
    decreases items
  {
    if items != [] {
      FoundIsTotal(f, items[0], c);
      FoundInItemsIsTotal(f, items[1..], c);
      TotalConcat(f, Leaves(items[0]), ItemLeaves(items[1..]), c);
    }
  }

  lemma {:induction false} FoundInEntriesIsTotal(f: Engine, entries: seq<Entry>, c: Category)
    ensures Tally(FoundInEntries(f, entries), c) == Total(f, EntryLeaves(entries), c)
    decreases entries
  {
    if entries != [] {
      var e := entries[0];
      assert e.value < e;
      FoundIsTotal(f, e.value, c);
      FoundInEntriesIsTotal(f, entries[1..], c);
      TotalConcat(f, Leaves(e.value), EntryLeaves(entries[1..]), c);
    }
  }
}
