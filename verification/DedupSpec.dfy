/**
 What the replay-dedup cache promises, said about the history of marks alone, and what a cache
 without lazy deletion (`Replay`) stores. `ReplayIsExact` connects the two.
 */
module DedupSpec {
  import opened Lru

  /** A bucket of the cache: a source and an optional partition of it. */
  type Key = (string, Option<string>)

  datatype Mark = Mark(key: Key, id: string, at: real)

  type History = seq<Mark>

  // ---------- The declarative specification ----------

  /** `h[i]` is the last mark of `id` in bucket `k`. */
  ghost predicate LastMark(h: History, k: Key, id: string, i: nat) {
    i < |h| && h[i].key == k && h[i].id == id &&
    forall j :: i < j < |h| ==> !(h[j].key == k && h[j].id == id)
  }

  /** The other ids marked in the bucket since `h[i]`. */
  function OthersSince(h: History, k: Key, id: string, i: nat): set<string> {
    set j | i < j < |h| && h[j].key == k && h[j].id != id :: h[j].id
  }

  /** The buckets written strictly between steps `a` and `b`. */
  function KeysBetween(h: History, a: nat, b: nat): set<Key>
    requires b <= |h|
  {
    set j | a < j < b :: h[j].key
  }

  ghost predicate Unwritten(h: History, k: Key, a: nat, b: nat)
    requires b <= |h|
  {
    forall c :: a < c < b ==> h[c].key != k
  }

  /** Since step `i`, no stretch between two writes to the bucket, or from its last write to now,
      saw `cap` or more distinct other buckets written. */
  ghost predicate Kept(h: History, k: Key, i: nat, cap: nat) {
    forall a, b :: i <= a < b <= |h| && h[a].key == k && Unwritten(h, k, a, b) ==> |KeysBetween(h, a, b)| < cap
  }

  ghost predicate Duplicate(h: History, k: Key, id: string, now: real, maxEntries: nat, maxPartitions: nat, ttl: real) {
    exists i :: 0 <= i < |h| && LastMark(h, k, id, i) && now - h[i].at <= ttl &&
      |OthersSince(h, k, id, i)| < maxEntries && Kept(h, k, i, maxPartitions)
  }

  // ---------- Ordered dictionaries ----------

  /** An `OrderedDict`, oldest item first. */
  type Dict<K, V> = seq<(K, V)>

  function Keys<K, V>(d: Dict<K, V>): seq<K> {
    seq(|d|, i requires 0 <= i < |d| => d[i].0)
  }

  function Find<K(==), V>(d: Dict<K, V>, k: K): (i: int)
    ensures -1 <= i < |d|
    ensures i >= 0 ==> d[i].0 == k
    ensures i >= 0 <==> k in Keys(d)
  {
    if d == [] then -1
    else if d[|d| - 1].0 == k then assert Keys(d)[|d| - 1] == k; |d| - 1
    else
      assert Keys(d) == Keys(d[..|d| - 1]) + [d[|d| - 1].0];
      Find(d[..|d| - 1], k)
  }

  function Removed<K(==), V>(d: Dict<K, V>, k: K): Dict<K, V> {
    if d == [] then [] else (if d[0].0 == k then [] else [d[0]]) + Removed(d[1..], k)
  }

  lemma {:induction false} RemovedKeys<K(!new), V>(d: Dict<K, V>, k: K)
    ensures Keys(Removed(d, k)) == Without(Keys(d), k)
    ensures forall x :: x in Removed(d, k) ==> x in d && x.0 != k
  {
    if d != [] {
      RemovedKeys(d[1..], k);
      assert Keys(d) == [d[0].0] + Keys(d[1..]);
      assert Keys(d)[1..] == Keys(d[1..]);
      assert Keys(Removed(d, k)) == (if d[0].0 == k then [] else [d[0].0]) + Keys(Removed(d[1..], k));
    }
  }

  type Bucket = Dict<string, real>
  type Buckets = Dict<Key, Bucket>

  /** Write `id` as the newest entry and drop the oldest ones past `cap`. */
  function BucketWrite(e: Bucket, id: string, at: real, cap: nat): Bucket {
    DropOldest(Removed(e, id) + [(id, at)], cap)
  }

  function BucketOf(bs: Buckets, k: Key): Bucket {
    if Find(bs, k) >= 0 then bs[Find(bs, k)].1 else []
  }

  /** One mark: the bucket becomes the newest; the oldest buckets past `maxPartitions` go. */
  function MarkStep(bs: Buckets, m: Mark, maxEntries: nat, maxPartitions: nat): Buckets {
    DropOldest(Removed(bs, m.key) + [(m.key, BucketWrite(BucketOf(bs, m.key), m.id, m.at, maxEntries))], maxPartitions)
  }

  /** The contents of a cache that never deletes an entry for being expired. */
  function Replay(h: History, maxEntries: nat, maxPartitions: nat): Buckets {
    if h == [] then []
    else MarkStep(Replay(h[..|h| - 1], maxEntries, maxPartitions), h[|h| - 1], maxEntries, maxPartitions)
  }

  function TimeOf(bs: Buckets, k: Key, id: string): Option<real> {
    var e := BucketOf(bs, k);
    if Find(e, id) >= 0 then Some(e[Find(e, id)].1) else None
  }

  // ---------- The traces the two LRU levels see ----------

  function KeyTrace(h: History): seq<Option<Key>> {
    seq(|h|, j requires 0 <= j < |h| => Some(h[j].key))
  }

  /** The marks of bucket `k` since it was last created. */
  ghost function IdTrace(h: History, k: Key, cap: nat): seq<Option<string>> {
    seq(|h|, j requires 0 <= j < |h| => if h[j].key == k && Kept(h, k, j, cap) then Some(h[j].id) else None)
  }

  lemma KeysBetweenIsAfter(h: History, a: nat)
    ensures KeysBetween(h, a, |h|) == After(KeyTrace(h), a)
  {
    var w := KeyTrace(h);
    forall k | k in KeysBetween(h, a, |h|) ensures k in After(w, a) {
      var j :| a < j < |h| && h[j].key == k;
      assert w[j] == Some(k);
    }
    forall k | k in After(w, a) ensures k in KeysBetween(h, a, |h|) {
      var j :| a < j < |w| && 0 <= j && w[j] == Some(k);
    }
  }

  lemma KeptLater(h: History, k: Key, i: nat, j: nat, cap: nat)
    requires i <= j && Kept(h, k, i, cap)
    ensures Kept(h, k, j, cap)
  {
  }

  /** Appending a mark leaves the stretches before it as they were. */
  lemma OldStretches(h: History, m: Mark, k: Key)
    ensures forall a, b :: 0 <= a < b <= |h| ==> KeysBetween(h + [m], a, b) == KeysBetween(h, a, b)
    ensures forall a, b :: 0 <= a < b <= |h| ==> (Unwritten(h + [m], k, a, b) <==> Unwritten(h, k, a, b))
  {
    var h' := h + [m];
    forall a, b | 0 <= a < b <= |h| ensures KeysBetween(h', a, b) == KeysBetween(h, a, b) {
      assert forall j :: a < j < b ==> h'[j] == h[j];
    }
    forall a, b | 0 <= a < b <= |h| ensures Unwritten(h', k, a, b) <==> Unwritten(h, k, a, b) {
      assert forall j :: a < j < b ==> h'[j] == h[j];
    }
  }

  lemma KeptBefore(h: History, m: Mark, k: Key, i: nat, cap: nat)
    requires Kept(h + [m], k, i, cap)
    ensures Kept(h, k, i, cap)
  {
    OldStretches(h, m, k);
    forall a, b | i <= a < b <= |h| && h[a].key == k && Unwritten(h, k, a, b) ensures |KeysBetween(h, a, b)| < cap {
      assert (h + [m])[a] == h[a];
      assert |KeysBetween(h + [m], a, b)| < cap;
    }
  }

  /** A mark of the bucket itself does not change which of its earlier marks are kept. */
  lemma KeptByOwnMark(h: History, m: Mark, i: nat, cap: nat)
    requires i < |h| && h[i].key == m.key && Kept(h, m.key, i, cap)
    ensures Kept(h + [m], m.key, i, cap)
  {
    var h', k := h + [m], m.key;
    OldStretches(h, m, k);
    assert |KeysBetween(h, i, i + 1)| < cap;
    assert h'[|h|].key == k;
    forall a, b | i <= a < b <= |h'| && h'[a].key == k && Unwritten(h', k, a, b) ensures |KeysBetween(h', a, b)| < cap {
      if a == |h| { assert KeysBetween(h', a, b) == {}; }
    }
  }

  /** A mark of another bucket keeps what it kept, if the bucket is still among the most recent. */
  lemma KeptByOtherMark(h: History, m: Mark, k: Key, i: nat, cap: nat)
    requires Kept(h, k, i, cap) && k != m.key
    requires |After(KeyTrace(h + [m]), Last(KeyTrace(h + [m]), k))| < cap
    ensures Kept(h + [m], k, i, cap)
  {
    var h' := h + [m];
    OldStretches(h, m, k);
    forall a, b | i <= a < b <= |h'| && h'[a].key == k && Unwritten(h', k, a, b) ensures |KeysBetween(h', a, b)| < cap {
      if b == |h'| {
        assert KeyTrace(h')[a] == Some(k);
        var l := Last(KeyTrace(h'), k);
        assert a <= l && h'[l].key == k && l == a;
        KeysBetweenIsAfter(h', a);
      }
    }
  }

  /** A bucket that left the cache keeps none of its marks. */
  lemma EvictedKeepsNothing(h: History, k: Key, i: nat, cap: nat)
    requires i < |h| && h[i].key == k && |After(KeyTrace(h), Last(KeyTrace(h), k))| >= cap
    ensures !Kept(h, k, i, cap)
  {
    var w := KeyTrace(h);
    assert w[i] == Some(k);
    var l := Last(w, k);
    KeysBetweenIsAfter(h, l);
    assert Unwritten(h, k, l, |h|) by {
      forall c | l < c < |h| ensures h[c].key != k { assert w[c] == Some(h[c].key); }
    }
    assert h[l].key == k;
  }

  // ---------- The traces, one mark later ----------

  lemma KeyTraceAppend(h: History, m: Mark)
    ensures KeyTrace(h + [m]) == KeyTrace(h) + [Some(m.key)]
  {
  }

  lemma OwnTraceAppend(h: History, m: Mark, cap: nat)
    requires exists i :: 0 <= i < |h| && h[i].key == m.key && Kept(h, m.key, i, cap)
    ensures IdTrace(h + [m], m.key, cap) == IdTrace(h, m.key, cap) + [Some(m.id)]
  {
    var h', k := h + [m], m.key;
    forall j | 0 <= j < |h| ensures IdTrace(h', k, cap)[j] == IdTrace(h, k, cap)[j] {
      if h[j].key == k {
        if Kept(h, k, j, cap) { KeptByOwnMark(h, m, j, cap); }
        if Kept(h', k, j, cap) { KeptBefore(h, m, k, j, cap); }
      }
    }
    var i :| 0 <= i < |h| && h[i].key == k && Kept(h, k, i, cap);
    KeptByOwnMark(h, m, i, cap);
    KeptLater(h', k, i, |h|, cap);
  }

  lemma OtherTraceAppend(h: History, m: Mark, k: Key, cap: nat)
    requires k != m.key && |After(KeyTrace(h + [m]), Last(KeyTrace(h + [m]), k))| < cap
    ensures IdTrace(h + [m], k, cap) == IdTrace(h, k, cap) + [None]
  {
    var h' := h + [m];
    forall j | 0 <= j < |h| ensures IdTrace(h', k, cap)[j] == IdTrace(h, k, cap)[j] {
      if h[j].key == k {
        if Kept(h, k, j, cap) { KeptByOtherMark(h, m, k, j, cap); }
        if Kept(h', k, j, cap) { KeptBefore(h, m, k, j, cap); }
      }
    }
  }

  function Nones(n: nat): seq<Option<string>> { seq(n, _ => None) }

  /** The first mark of a bucket that is not in the cache starts its trace afresh. */
  lemma NewTrace(h: History, m: Mark, cap: nat)
    requires cap > 0
    requires Last(KeyTrace(h), m.key) >= 0 ==> |After(KeyTrace(h), Last(KeyTrace(h), m.key))| >= cap
    ensures IdTrace(h + [m], m.key, cap) == Nones(|h|) + [Some(m.id)]
  {
    var h', k := h + [m], m.key;
    forall j | 0 <= j < |h| ensures IdTrace(h', k, cap)[j] == None {
      if h[j].key == k {
        assert KeyTrace(h)[j] == Some(k);
        EvictedKeepsNothing(h, k, j, cap);
        if Kept(h', k, j, cap) { KeptBefore(h, m, k, j, cap); }
      }
    }
    assert Kept(h', k, |h|, cap) by {
      forall a, b | |h| <= a < b <= |h'| ensures |KeysBetween(h', a, b)| < cap { assert KeysBetween(h', a, b) == {}; }
    }
  }
}
