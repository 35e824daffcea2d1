/** The cache itself: ordered dictionaries changed in place, with expired entries deleted lazily. */
module DedupCache {
  import opened Lru
  import opened DedupSpec
  import opened DedupProof

  /** The entries written at `since` or later. */
  function Fresh(e: Bucket, since: real): Bucket {
    if e == [] then [] else (if e[0].1 >= since then [e[0]] else []) + Fresh(e[1..], since)
  }

  /** Entries stand in the order of their times, none later than `latest`. */
  ghost predicate Sorted(e: Bucket, latest: real) {
    (forall p, q :: 0 <= p < q < |e| ==> e[p].1 <= e[q].1) && forall x :: x in e ==> x.1 <= latest
  }

  // ---------- Fresh entries do not depend on expired ones ----------

  lemma FreshHead(x: (string, real), e: Bucket, since: real)
    ensures Fresh([x] + e, since) == (if x.1 >= since then [x] else []) + Fresh(e, since)
  {
    assert ([x] + e)[1..] == e;
  }

  lemma {:induction false} FreshConcat(a: Bucket, b: Bucket, since: real)
    ensures Fresh(a + b, since) == Fresh(a, since) + Fresh(b, since)
  {
    if a == [] {
      assert a + b == b;
    } else {
      FreshConcat(a[1..], b, since);
      FreshHead(a[0], a[1..] + b, since);
      FreshHead(a[0], a[1..], since);
      HeadFirst(a, b);
      Associate(if a[0].1 >= since then [a[0]] else [], Fresh(a[1..], since), Fresh(b, since));
    }
  }

  lemma {:induction false} AllExpired(e: Bucket, since: real)
    requires forall x :: x in e ==> x.1 < since
    ensures Fresh(e, since) == []
  {
    if e != [] { AllExpired(e[1..], since); }
  }

  lemma {:induction false} AllFresh(e: Bucket, since: real)
    requires forall x :: x in e ==> x.1 >= since
    ensures Fresh(e, since) == e
  {
    if e != [] { AllFresh(e[1..], since); }
  }

  lemma {:induction false} FreshFresher(e: Bucket, since: real, later: real)
    requires since <= later
    ensures Fresh(Fresh(e, since), later) == Fresh(e, later)
  {
    if e != [] {
      FreshFresher(e[1..], since, later);
      FreshConcat(if e[0].1 >= since then [e[0]] else [], Fresh(e[1..], since), later);
    }
  }

  lemma {:induction false} FreshMembers(e: Bucket, since: real)
    ensures forall x :: x in Fresh(e, since) <==> x in e && x.1 >= since
  {
    if e != [] {
      FreshMembers(e[1..], since);
      assert forall x :: x in e <==> x == e[0] || x in e[1..];
    }
  }

  lemma FirstIsOldest(e: Bucket, latest: real)
    requires Sorted(e, latest) && e != []
    ensures forall x :: x in e ==> e[0].1 <= x.1
  {
    forall x | x in e ensures e[0].1 <= x.1 {
      var q :| 0 <= q < |e| && e[q] == x;
    }
  }

  lemma SortedTail(e: Bucket, latest: real)
    requires Sorted(e, latest) && e != []
    ensures Sorted(e[1..], latest)
  {
    assert forall x :: x in e[1..] ==> x in e;
  }

  /** The fresh entries of a sorted bucket are a suffix of it. */
  lemma {:induction false} FreshIsSuffix(e: Bucket, latest: real, since: real) returns (n: nat)
    requires Sorted(e, latest)
    ensures n <= |e| && Fresh(e, since) == e[n..] && forall x :: x in e[..n] ==> x.1 < since
  {
    n := 0;
    if e != [] && e[0].1 >= since {
      FirstIsOldest(e, latest);
      AllFresh(e, since);
    } else if e != [] {
      SortedTail(e, latest);
      n := FreshIsSuffix(e[1..], latest, since);
      FrontIsOld(e, n, since);
      n := n + 1;
    }
  }

  lemma FrontIsOld(e: Bucket, n: nat, since: real)
    requires e != [] && n <= |e[1..]| && e[0].1 < since && forall x :: x in e[1..][..n] ==> x.1 < since
    ensures e[n + 1..] == e[1..][n..] && forall x :: x in e[..n + 1] ==> x.1 < since
  {
    assert e[..n + 1] == [e[0]] + e[1..][..n];
  }

  lemma RemovedHead(x: (string, real), e: Bucket, id: string)
    ensures Removed([x] + e, id) == (if x.0 == id then [] else [x]) + Removed(e, id)
  {
    assert ([x] + e)[1..] == e;
  }

  lemma {:induction false} RemovedConcat(a: Bucket, b: Bucket, id: string)
    ensures Removed(a + b, id) == Removed(a, id) + Removed(b, id)
  {
    if a == [] {
      assert a + b == b;
    } else {
      RemovedConcat(a[1..], b, id);
      RemovedHead(a[0], a[1..] + b, id);
      RemovedHead(a[0], a[1..], id);
      HeadFirst(a, b);
      Associate(if a[0].0 == id then [] else [a[0]], Removed(a[1..], id), Removed(b, id));
    }
  }

  lemma HeadFirst(a: Bucket, b: Bucket)
    requires a != []
    ensures a + b == [a[0]] + (a[1..] + b) && a == [a[0]] + a[1..]
  {
  }

  lemma Associate(a: Bucket, b: Bucket, c: Bucket)
    ensures (a + b) + c == a + (b + c)
  {
  }

  /** Whatever stands in front of fresh entries and is expired leaves no trace among them. */
  lemma DropExpiredFront(front: Bucket, tail: Bucket, since: real, cap: nat)
    requires forall x :: x in front ==> x.1 < since
    ensures Fresh(DropOldest(front + tail, cap), since) == Fresh(DropOldest(tail, cap), since)
  {
    if |tail| >= cap {
      assert DropOldest(front + tail, cap) == DropOldest(tail, cap);
    } else {
      var kept := DropOldest(front, cap - |tail|);
      assert DropOldest(front + tail, cap) == kept + tail && DropOldest(tail, cap) == tail;
      FreshConcat(kept, tail, since);
      AllExpired(kept, since);
    }
  }

  /** Writing to a bucket and writing to its fresh part leave the same fresh entries. */
  lemma WriteFresh(e: Bucket, latest: real, since: real, id: string, at: real, cap: nat)
    requires Sorted(e, latest)
    ensures Fresh(BucketWrite(e, id, at, cap), since) == Fresh(BucketWrite(Fresh(e, since), id, at, cap), since)
  {
    var n := FreshIsSuffix(e, latest, since);
    var front, rest := Removed(e[..n], id), Removed(e[n..], id);
    RemovedKeys(e[..n], id);
    assert e == e[..n] + e[n..];
    RemovedConcat(e[..n], e[n..], id);
    assert Removed(e, id) + [(id, at)] == front + (rest + [(id, at)]);
    DropExpiredFront(front, rest + [(id, at)], since, cap);
  }

  lemma WriteSorted(e: Bucket, latest: real, id: string, at: real, cap: nat)
    requires Sorted(e, latest) && latest <= at
    ensures Sorted(BucketWrite(e, id, at, cap), at)
  {
    RemovedSorted(e, latest, id);
    var m := Removed(e, id) + [(id, at)];
    assert Sorted(m, at);
    assert forall x :: x in DropOldest(m, cap) ==> x in m;
  }

  lemma {:induction false} RemovedSorted(e: Bucket, latest: real, id: string)
    requires Sorted(e, latest)
    ensures Sorted(Removed(e, id), latest)
  {
    if e != [] {
      assert forall x :: x in e[1..] ==> x in e;
      RemovedSorted(e[1..], latest, id);
      var rest := Removed(e[1..], id);
      RemovedKeys(e[1..], id);
      forall q | 0 <= q < |rest| ensures e[0].1 <= rest[q].1 {
        assert rest[q] in rest;
        var u :| 0 <= u < |e[1..]| && e[1..][u] == rest[q];
        assert e[u + 1] == rest[q];
      }
    }
  }

  /** Deleting an expired entry leaves the fresh entries alone. */
  lemma {:induction false} DeleteExpired(e: Bucket, id: string, since: real)
    requires Expired(e, id, since)
    ensures Fresh(Removed(e, id), since) == Fresh(e, since)
  {
    if e != [] {
      assert e[0] in e && forall x :: x in e[1..] ==> x in e;
      DeleteExpired(e[1..], id, since);
      FreshConcat(if e[0].0 == id then [] else [e[0]], Removed(e[1..], id), since);
    }
  }

  // ---------- The cache and the cache without deletion, side by side ----------

  ghost predicate UniqueKeys<K(!new), V>(d: Dict<K, V>) {
    forall p, q :: 0 <= p < q < |d| ==> d[p].0 != d[q].0
  }

  /** Sorted and without repeated keys. */
  ghost predicate Tidy(e: Bucket, latest: real) { Sorted(e, latest) && UniqueKeys(e) }

  ghost predicate MirrorsBucket(e: Bucket, r: Bucket, latest: real, ttl: real) {
    Tidy(e, latest) && Tidy(r, latest) && Fresh(e, latest - ttl) == Fresh(r, latest - ttl)
  }

  /** Same buckets in the same order, with the same fresh entries. */
  ghost predicate Mirrors(bs: Buckets, rs: Buckets, latest: real, ttl: real) {
    |bs| == |rs| &&
    forall p :: 0 <= p < |bs| ==> bs[p].0 == rs[p].0 && MirrorsBucket(bs[p].1, rs[p].1, latest, ttl)
  }

  lemma MirrorsLater(e: Bucket, r: Bucket, latest: real, now: real, ttl: real)
    requires MirrorsBucket(e, r, latest, ttl) && latest <= now
    ensures MirrorsBucket(e, r, now, ttl)
  {
    SortedLater(e, latest, now);
    SortedLater(r, latest, now);
    SameFreshLater(e, r, latest - ttl, now - ttl);
  }

  lemma SameFreshLater(e: Bucket, r: Bucket, since: real, later: real)
    requires Fresh(e, since) == Fresh(r, since) && since <= later
    ensures Fresh(e, later) == Fresh(r, later)
  {
    FreshFresher(e, since, later);
    FreshFresher(r, since, later);
  }

  lemma SortedLater(e: Bucket, latest: real, now: real)
    requires Sorted(e, latest) && latest <= now
    ensures Sorted(e, now)
  {
  }

  lemma AllMirrorLater(bs: Buckets, rs: Buckets, latest: real, now: real, ttl: real)
    requires Mirrors(bs, rs, latest, ttl) && latest <= now
    ensures Mirrors(bs, rs, now, ttl)
  {
    forall p | 0 <= p < |bs| ensures MirrorsBucket(bs[p].1, rs[p].1, now, ttl) {
      MirrorsLater(bs[p].1, rs[p].1, latest, now, ttl);
    }
  }

  lemma FindIsMember<K(!new), V>(d: Dict<K, V>, x: (K, V))
    requires UniqueKeys(d)
    ensures x in d <==> Find(d, x.0) >= 0 && d[Find(d, x.0)] == x
  {
    if x in d { KeyOfMember(d, x); }
  }

  lemma SameKeysSameFind(bs: Buckets, rs: Buckets, k: Key)
    requires Keys(bs) == Keys(rs) && UniqueKeys(bs)
    ensures Find(bs, k) == Find(rs, k)
  {
    var i, j := Find(bs, k), Find(rs, k);
    if i >= 0 { assert Keys(bs)[i] == k && Keys(rs)[j] == k && bs[j].0 == Keys(bs)[j]; }
  }

  /** The cache holds an entry that is at most `ttl` old. */
  ghost predicate HoldsFresh(bs: Buckets, k: Key, id: string, now: real, ttl: real) {
    var t := TimeOf(bs, k, id);
    t.Some? && now - t.value <= ttl
  }

  /** Both caches answer a query alike. */
  lemma SameAnswer(bs: Buckets, rs: Buckets, now: real, ttl: real, k: Key, id: string)
    requires Mirrors(bs, rs, now, ttl) && UniqueKeys(bs)
    ensures HoldsFresh(bs, k, id, now, ttl) <==> HoldsFresh(rs, k, id, now, ttl)
  {
    assert Keys(bs) == Keys(rs);
    SameKeysSameFind(bs, rs, k);
    if Find(bs, k) >= 0 {
      SameBucketAnswer(BucketOf(bs, k), BucketOf(rs, k), now, ttl, id);
    }
  }

  lemma SameBucketAnswer(e: Bucket, r: Bucket, now: real, ttl: real, id: string)
    requires MirrorsBucket(e, r, now, ttl)
    ensures (Find(e, id) >= 0 && now - e[Find(e, id)].1 <= ttl) <==> (Find(r, id) >= 0 && now - r[Find(r, id)].1 <= ttl)
  {
    HalfAnswer(e, r, now - ttl, id);
    HalfAnswer(r, e, now - ttl, id);
  }

  lemma HalfAnswer(e: Bucket, r: Bucket, since: real, id: string)
    requires UniqueKeys(r) && Fresh(e, since) == Fresh(r, since)
    ensures Find(e, id) >= 0 && e[Find(e, id)].1 >= since ==> Find(r, id) >= 0 && r[Find(r, id)].1 >= since
  {
    if Find(e, id) >= 0 { SharedEntry(e, r, since, e[Find(e, id)]); }
  }

  /** A fresh entry of the one is found in the other. */
  lemma SharedEntry(e: Bucket, r: Bucket, since: real, x: (string, real))
    requires UniqueKeys(r) && Fresh(e, since) == Fresh(r, since) && x in e
    ensures x.1 >= since ==> Find(r, x.0) >= 0 && r[Find(r, x.0)] == x
  {
    FreshMember(e, since, x);
    FreshMember(r, since, x);
    FindIsMember(r, x);
  }

  lemma FreshMember(e: Bucket, since: real, x: (string, real))
    ensures x in Fresh(e, since) <==> x in e && x.1 >= since
  {
    FreshMembers(e, since);
  }

  // ---------- A mark keeps them side by side ----------

  lemma {:induction false} RemovedMirrors(bs: Buckets, rs: Buckets, latest: real, ttl: real, k: Key)
    requires Mirrors(bs, rs, latest, ttl)
    ensures Mirrors(Removed(bs, k), Removed(rs, k), latest, ttl)
  {
    if bs != [] {
      assert bs[0].0 == rs[0].0 && MirrorsBucket(bs[0].1, rs[0].1, latest, ttl);
      assert Mirrors(bs[1..], rs[1..], latest, ttl);
      RemovedMirrors(bs[1..], rs[1..], latest, ttl, k);
    }
  }

  lemma {:induction false} RemovedUnique<K(!new), V>(d: Dict<K, V>, k: K)
    requires UniqueKeys(d)
    ensures UniqueKeys(Removed(d, k)) && |Removed(d, k)| == |d| - (if k in Keys(d) then 1 else 0)
    ensures k !in Keys(d) ==> Removed(d, k) == d
    ensures k !in Keys(Removed(d, k))
  {
    RemovedKeys(d, k);
    if d != [] {
      RemovedUnique(d[1..], k);
      assert Keys(d) == [d[0].0] + Keys(d[1..]);
      FirstKeyIsGone(d, k);
    }
  }

  /** The first key does not occur again. */
  lemma FirstKeyIsGone<K(!new), V>(d: Dict<K, V>, k: K)
    requires UniqueKeys(d) && d != []
    ensures d[0].0 !in Keys(d[1..])
    ensures forall q :: 0 <= q < |Removed(d[1..], k)| ==> Removed(d[1..], k)[q].0 != d[0].0
  {
    var tail, rest := d[1..], Removed(d[1..], k);
    forall u | 0 <= u < |tail| ensures tail[u].0 != d[0].0 { assert d[u + 1] == tail[u]; }
    RemovedKeys(tail, k);
    forall q | 0 <= q < |rest| ensures rest[q].0 != d[0].0 { assert rest[q] in rest && rest[q] in tail; }
  }

  lemma WriteUnique(e: Bucket, id: string, at: real, cap: nat)
    requires UniqueKeys(e)
    ensures UniqueKeys(BucketWrite(e, id, at, cap))
  {
    RemovedUnique(e, id);
    var r := Removed(e, id);
    forall p | 0 <= p < |r| ensures r[p].0 != id { assert Keys(r)[p] == r[p].0; }
  }

  lemma WriteMirrors(e: Bucket, r: Bucket, latest: real, ttl: real, id: string, at: real, cap: nat)
    requires MirrorsBucket(e, r, latest, ttl) && latest <= at
    ensures MirrorsBucket(BucketWrite(e, id, at, cap), BucketWrite(r, id, at, cap), at, ttl)
  {
    MirrorsLater(e, r, latest, at, ttl);
    WriteSameFresh(e, r, at, at - ttl, id, cap);
    WriteSorted(e, latest, id, at, cap);
    WriteSorted(r, latest, id, at, cap);
    WriteUnique(e, id, at, cap);
    WriteUnique(r, id, at, cap);
  }

  lemma WriteSameFresh(e: Bucket, r: Bucket, at: real, since: real, id: string, cap: nat)
    requires Sorted(e, at) && Sorted(r, at) && Fresh(e, since) == Fresh(r, since)
    ensures Fresh(BucketWrite(e, id, at, cap), since) == Fresh(BucketWrite(r, id, at, cap), since)
  {
    WriteFresh(e, at, since, id, at, cap);
    WriteFresh(r, at, since, id, at, cap);
  }

  lemma MarkMirrors(bs: Buckets, rs: Buckets, latest: real, ttl: real, m: Mark, maxEntries: nat, maxPartitions: nat)
    requires Mirrors(bs, rs, latest, ttl) && UniqueKeys(bs) && latest <= m.at
    ensures Mirrors(MarkStep(bs, m, maxEntries, maxPartitions), MarkStep(rs, m, maxEntries, maxPartitions), m.at, ttl)
  {
    var e, r := BucketOf(bs, m.key), BucketOf(rs, m.key);
    BucketMirrors(bs, rs, latest, ttl, m.key);
    WriteMirrors(e, r, latest, ttl, m.id, m.at, maxEntries);
    RemovedMirrors(bs, rs, latest, ttl, m.key);
    AllMirrorLater(Removed(bs, m.key), Removed(rs, m.key), latest, m.at, ttl);
    AppendMirrors(Removed(bs, m.key), Removed(rs, m.key), m.at, ttl, m.key, BucketWrite(e, m.id, m.at, maxEntries),
                  BucketWrite(r, m.id, m.at, maxEntries), maxPartitions);
  }

  lemma BucketMirrors(bs: Buckets, rs: Buckets, latest: real, ttl: real, k: Key)
    requires Mirrors(bs, rs, latest, ttl) && UniqueKeys(bs)
    ensures MirrorsBucket(BucketOf(bs, k), BucketOf(rs, k), latest, ttl)
  {
    assert Keys(bs) == Keys(rs);
    SameKeysSameFind(bs, rs, k);
  }

  lemma AppendMirrors(bs: Buckets, rs: Buckets, latest: real, ttl: real, k: Key, v: Bucket, w: Bucket, cap: nat)
    requires Mirrors(bs, rs, latest, ttl) && MirrorsBucket(v, w, latest, ttl)
    ensures Mirrors(DropOldest(bs + [(k, v)], cap), DropOldest(rs + [(k, w)], cap), latest, ttl)
  {
    var a, b := bs + [(k, v)], rs + [(k, w)];
    forall p | 0 <= p < |a| ensures a[p].0 == b[p].0 && MirrorsBucket(a[p].1, b[p].1, latest, ttl) {
      if p < |bs| { assert a[p] == bs[p] && b[p] == rs[p]; }
    }
    DropMirrors(a, b, latest, ttl, cap);
  }

  lemma DropMirrors(bs: Buckets, rs: Buckets, latest: real, ttl: real, cap: nat)
    requires Mirrors(bs, rs, latest, ttl)
    ensures Mirrors(DropOldest(bs, cap), DropOldest(rs, cap), latest, ttl)
  {
  }

  lemma MarkUnique(bs: Buckets, m: Mark, maxEntries: nat, maxPartitions: nat)
    requires UniqueKeys(bs)
    ensures UniqueKeys(MarkStep(bs, m, maxEntries, maxPartitions))
    ensures |MarkStep(bs, m, maxEntries, maxPartitions)| <= maxPartitions
  {
    RemovedUnique(bs, m.key);
    var r := Removed(bs, m.key);
    forall p | 0 <= p < |r| ensures r[p].0 != m.key { assert Keys(r)[p] == r[p].0; }
  }

  /** Every entry of that id was written before `since`. */
  ghost predicate Expired(e: Bucket, id: string, since: real) {
    forall x :: x in e && x.0 == id ==> x.1 < since
  }

  /** `bucket.pop(id)`, in the i-th bucket. */
  function WithoutEntry(bs: Buckets, i: nat, id: string): (next: Buckets)
    requires i < |bs|
    ensures |next| == |bs|
  {
    bs[i := (bs[i].0, Removed(bs[i].1, id))]
  }

  lemma AllOfIdExpired(e: Bucket, id: string, since: real)
    requires UniqueKeys(e) && Find(e, id) >= 0 && e[Find(e, id)].1 < since
    ensures Expired(e, id, since)
  {
    forall x | x in e && x.0 == id ensures x.1 < since { FindIsMember(e, x); }
  }

  /** Lazily deleting an expired entry keeps them side by side. */
  lemma DeleteMirrors(e: Bucket, r: Bucket, now: real, ttl: real, id: string)
    requires MirrorsBucket(e, r, now, ttl) && Expired(e, id, now - ttl)
    ensures MirrorsBucket(Removed(e, id), r, now, ttl)
  {
    DeleteKeepsTidy(e, r, now, now - ttl, id);
  }

  lemma DeleteKeepsTidy(e: Bucket, r: Bucket, latest: real, since: real, id: string)
    requires Tidy(e, latest) && Tidy(r, latest) && Fresh(e, since) == Fresh(r, since) && Expired(e, id, since)
    ensures Tidy(Removed(e, id), latest) && Fresh(Removed(e, id), since) == Fresh(r, since)
  {
    DeletedFacts(e, id, latest, since);
  }

  lemma DeletedFacts(e: Bucket, id: string, latest: real, since: real)
    requires Sorted(e, latest) && UniqueKeys(e) && Expired(e, id, since)
    ensures Sorted(Removed(e, id), latest) && UniqueKeys(Removed(e, id)) &&
            Fresh(Removed(e, id), since) == Fresh(e, since)
  {
    DeleteExpired(e, id, since);
    RemovedSorted(e, latest, id);
    RemovedStaysUnique(e, id);
  }

  lemma RemovedStaysUnique(e: Bucket, id: string)
    requires UniqueKeys(e)
    ensures UniqueKeys(Removed(e, id))
  {
    RemovedUnique(e, id);
  }

  // ---------- Python's dictionary steps ----------

  /** `bucket[id] = at`: in place for a key already there, else at the end. */
  function Put(e: Bucket, id: string, at: real): Bucket {
    if Find(e, id) >= 0 then e[Find(e, id) := (id, at)] else e + [(id, at)]
  }

  /** `d.move_to_end(k)`. */
  function MoveToEnd<K(==), V>(d: Dict<K, V>, k: K): Dict<K, V>
    requires Find(d, k) >= 0
  {
    Removed(d, k) + [(k, d[Find(d, k)].1)]
  }

  lemma PutFound(e: Bucket, id: string, at: real)
    requires UniqueKeys(e)
    ensures Find(Put(e, id, at), id) >= 0 && Put(e, id, at)[Find(Put(e, id, at), id)] == (id, at)
    ensures UniqueKeys(Put(e, id, at)) && Removed(Put(e, id, at), id) == Removed(e, id)
  {
    var p := Put(e, id, at);
    if Find(e, id) >= 0 {
      RemovedAfterUpdate(e, Find(e, id), id, at);
    } else {
      assert forall q :: 0 <= q < |e| ==> Keys(e)[q] == e[q].0;
      RemovedConcat(e, [(id, at)], id);
      assert Removed([(id, at)], id) == [];
    }
    assert (id, at) in p by { assert p[if Find(e, id) >= 0 then Find(e, id) else |e|] == (id, at); }
    FindIsMember(p, (id, at));
  }

  lemma {:induction false} RemovedAfterUpdate(e: Bucket, i: nat, id: string, at: real)
    requires i < |e| && e[i].0 == id
    ensures Removed(e[i := (id, at)], id) == Removed(e, id)
  {
    if i > 0 {
      RemovedAfterUpdate(e[1..], i - 1, id, at);
      assert e[i := (id, at)][1..] == e[1..][i - 1 := (id, at)];
    } else {
      assert e[0 := (id, at)][1..] == e[1..];
    }
  }

  /** Assigning and then moving to the end is removing and appending. */
  lemma PutThenMove(e: Bucket, id: string, at: real)
    requires UniqueKeys(e)
    ensures Find(Put(e, id, at), id) >= 0 && MoveToEnd(Put(e, id, at), id) == Removed(e, id) + [(id, at)]
  {
    PutFound(e, id, at);
  }

  // ---------- The cache ----------

  class DeliveryDedupCache {
    const maxEntries: nat
    const maxPartitions: nat
    const ttl: real
    var buckets: Buckets
    /** Every mark so far, and the latest reading of the clock. */
    ghost var history: History
    ghost var latest: Option<real>

    ghost predicate Valid()
      reads this
    {
      UniqueKeys(buckets) && |buckets| <= maxPartitions &&
      match latest
      case None => history == [] && buckets == []
      case Some(t) => Mirrors(buckets, Replay(history, maxEntries, maxPartitions), t, ttl)
    }

    /** The clock is monotone. */
    ghost predicate ClockReads(now: real)
      reads this
    {
      latest.Some? ==> latest.value <= now
    }

    constructor (maxEntries: nat, maxPartitions: nat, ttl: real)
      ensures Valid() && history == [] && latest == None
      ensures this.maxEntries == maxEntries && this.maxPartitions == maxPartitions && this.ttl == ttl
    {
      this.maxEntries, this.maxPartitions, this.ttl := maxEntries, maxPartitions, ttl;
      buckets := [];
      history, latest := [], None;
    }

    /** The answer is the specification's, whatever was deleted before; a query is no mark. */
    method IsDuplicate(source: string, id: string, partition: Option<string>, now: real) returns (dup: bool)
      requires Valid() && ClockReads(now)
      modifies this
      ensures Valid() && history == old(history) && latest == Some(now)
      ensures dup <==>
              id != "" && Duplicate(history, (source, partition), id, now, maxEntries, maxPartitions, ttl)
    {
      Tick(now);
      var key := (source, partition);
      if id == "" {
        return false;
      }
      QueryIsExact(buckets, history, key, id, now, maxEntries, maxPartitions, ttl);
      dup := LookUp(key, id, now);
    }

    /** The lookup, which deletes the entry it finds expired. */
    method LookUp(key: Key, id: string, now: real) returns (hit: bool)
      requires Valid() && latest == Some(now)
      modifies this`buckets
      ensures Valid()
      ensures hit <==> HoldsFresh(old(buckets), key, id, now, ttl)
    {
      FreshAnswer(buckets, key, id, now, ttl);
      var i := Find(buckets, key);
      if i < 0 {
        return false;
      }
      var bucket := buckets[i].1;
      var j := Find(bucket, id);
      if j < 0 {
        return false;
      }
      hit := now - bucket[j].1 <= ttl;
      if !hit {
        UniqueBucket(buckets, Replay(history, maxEntries, maxPartitions), now, ttl, i);
        AllOfIdExpired(bucket, id, now - ttl);
        DropExpired(i, id, now);
      }
    }

    /** The lazy deletion of one expired entry. */
    method DropExpired(i: nat, id: string, now: real)
      requires Valid() && latest == Some(now) && i < |buckets| && Expired(buckets[i].1, id, now - ttl)
      modifies this`buckets
      ensures Valid()
    {
      DeleteInPlace(buckets, Replay(history, maxEntries, maxPartitions), i, id, now, ttl);
      buckets := WithoutEntry(buckets, i, id);
    }

    method MarkSeen(source: string, id: string, partition: Option<string>, now: real)
      requires Valid() && ClockReads(now)
      modifies this
      ensures Valid() && latest == Some(now)
      ensures history == if id == "" then old(history) else old(history) + [Mark((source, partition), id, now)]
    {
      Tick(now);
      if id == "" {
        return;
      }
      BucketMirrors(buckets, Replay(history, maxEntries, maxPartitions), now, ttl, (source, partition));
      ghost var before := buckets;
      Store((source, partition), id, now);
      Remember(before, Mark((source, partition), id, now));
    }

    /** Open the bucket, write the entry, put the bucket back. */
    method Store(key: Key, id: string, now: real)
      requires UniqueKeys(buckets) && UniqueKeys(BucketOf(buckets, key)) && |buckets| <= maxPartitions
      modifies this`buckets
      ensures buckets == MarkStep(old(buckets), Mark(key, id, now), maxEntries, maxPartitions)
    {
      var bucket := OpenBucket(key);
      ghost var found := bucket;
      bucket := WriteEntry(bucket, id, now);
      StoreLast(Removed(old(buckets), key), key, found, bucket, maxPartitions);
      if |buckets| > 0 {
        // The dictionary holds the bucket itself, unless it was evicted at once.
        buckets := buckets[|buckets| - 1 := (key, bucket)];
      }
    }

    /** The mark is made: take it into the history. */
    ghost method Remember(before: Buckets, m: Mark)
      requires latest == Some(m.at) && UniqueKeys(before)
      requires Mirrors(before, Replay(history, maxEntries, maxPartitions), m.at, ttl)
      requires buckets == MarkStep(before, m, maxEntries, maxPartitions)
      modifies this`history
      ensures Valid() && history == old(history) + [m]
    {
      MarkMirrors(before, Replay(history, maxEntries, maxPartitions), m.at, ttl, m, maxEntries, maxPartitions);
      MarkUnique(before, m, maxEntries, maxPartitions);
      ReplayAppend(history, m, maxEntries, maxPartitions);
      history := history + [m];
    }

    /** The clock moves on to `now`. */
    ghost method Tick(now: real)
      requires Valid() && ClockReads(now)
      modifies this`latest
      ensures Valid() && latest == Some(now)
      ensures Mirrors(buckets, Replay(history, maxEntries, maxPartitions), now, ttl)
    {
      if latest.Some? {
        AllMirrorLater(buckets, Replay(history, maxEntries, maxPartitions), latest.value, now, ttl);
      }
      latest := Some(now);
    }

    /** Make the bucket of `key` the newest, creating it and evicting old ones when there is none. */
    method OpenBucket(key: Key) returns (bucket: Bucket)
      requires UniqueKeys(buckets) && |buckets| <= maxPartitions
      modifies this`buckets
      ensures bucket == BucketOf(old(buckets), key)
      ensures buckets == DropOldest(Removed(old(buckets), key) + [(key, bucket)], maxPartitions)
    {
      RemovedUnique(buckets, key);
      var i := Find(buckets, key);
      if i < 0 {
        bucket := [];
        buckets := buckets + [(key, bucket)];
        ghost var all := buckets;
        while |buckets| > maxPartitions
          modifies this`buckets
          invariant |buckets| <= |all| && buckets == DropOldest(all, |buckets|)
          invariant |buckets| >= maxPartitions || buckets == all
        {
          buckets := buckets[1..];
        }
      } else {
        bucket := buckets[i].1;
        buckets := MoveToEnd(buckets, key);
      }
    }

    /** Assign, move to the end, drop the oldest entries over the cap. */
    method WriteEntry(entries: Bucket, id: string, now: real) returns (bucket: Bucket)
      requires UniqueKeys(entries)
      ensures bucket == BucketWrite(entries, id, now, maxEntries)
    {
      PutThenMove(entries, id, now);
      bucket := Put(entries, id, now);
      bucket := MoveToEnd(bucket, id);
      ghost var all := bucket;
      while |bucket| > maxEntries
        invariant bucket == DropOldest(all, |bucket|) && |bucket| <= |all|
        invariant |bucket| >= maxEntries || bucket == all
      {
        bucket := bucket[1..];
      }
    }
  }

  lemma UniqueBucket(bs: Buckets, rs: Buckets, latest: real, ttl: real, i: nat)
    requires Mirrors(bs, rs, latest, ttl) && i < |bs|
    ensures UniqueKeys(bs[i].1)
  {
    assert MirrorsBucket(bs[i].1, rs[i].1, latest, ttl);
  }

  /** What the two lookups say about freshness. */
  lemma FreshAnswer(bs: Buckets, k: Key, id: string, now: real, ttl: real)
    ensures HoldsFresh(bs, k, id, now, ttl) <==>
            Find(bs, k) >= 0 && Find(bs[Find(bs, k)].1, id) >= 0 &&
            now - bs[Find(bs, k)].1[Find(bs[Find(bs, k)].1, id)].1 <= ttl
  {
  }

  /** A fresh entry is in the cache exactly when the specification says so. */
  lemma QueryIsExact(bs: Buckets, h: History, k: Key, id: string, now: real, maxEntries: nat, maxPartitions: nat,
                     ttl: real)
    requires Mirrors(bs, Replay(h, maxEntries, maxPartitions), now, ttl) && UniqueKeys(bs)
    ensures HoldsFresh(bs, k, id, now, ttl) <==> Duplicate(h, k, id, now, maxEntries, maxPartitions, ttl)
  {
    SameAnswer(bs, Replay(h, maxEntries, maxPartitions), now, ttl, k, id);
    ReplayIsExact(h, k, id, now, maxEntries, maxPartitions, ttl);
  }

  lemma DeleteInPlace(bs: Buckets, rs: Buckets, i: nat, id: string, now: real, ttl: real)
    requires Mirrors(bs, rs, now, ttl) && UniqueKeys(bs) && i < |bs| && Expired(bs[i].1, id, now - ttl)
    ensures var next := WithoutEntry(bs, i, id);
            Mirrors(next, rs, now, ttl) && UniqueKeys(next) && |next| == |bs|
  {
    DeleteMirrors(bs[i].1, rs[i].1, now, ttl, id);
  }

  lemma StoreLast(bs: Buckets, k: Key, old0: Bucket, new0: Bucket, cap: nat)
    ensures var d := DropOldest(bs + [(k, old0)], cap);
            DropOldest(bs + [(k, new0)], cap) == if |d| > 0 then d[|d| - 1 := (k, new0)] else d
  {
  }

  lemma ReplayAppend(h: History, m: Mark, maxEntries: nat, maxPartitions: nat)
    ensures Replay(h + [m], maxEntries, maxPartitions) ==
            MarkStep(Replay(h, maxEntries, maxPartitions), m, maxEntries, maxPartitions)
  {
    assert (h + [m])[..|h|] == h;
  }
}
