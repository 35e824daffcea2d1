/** A cache without lazy deletion stores exactly what the declarative specification says. */
module DedupProof {
  import opened Lru
  import opened DedupSpec

  ghost predicate BucketInv(h: History, k: Key, e: Bucket, maxEntries: nat, maxPartitions: nat) {
    Recent(IdTrace(h, k, maxPartitions), Keys(e), maxEntries) && TimesMatch(h, IdTrace(h, k, maxPartitions), e)
  }

  /** Each entry carries the time of its id's last mark. */
  ghost predicate TimesMatch(h: History, w: seq<Option<string>>, e: Bucket)
    requires |w| == |h|
  {
    forall x :: x in e ==> Last(w, x.0) >= 0 && h[Last(w, x.0)].at == x.1
  }

  ghost predicate ReplayInv(h: History, bs: Buckets, maxEntries: nat, maxPartitions: nat) {
    Recent(KeyTrace(h), Keys(bs), maxPartitions) &&
    forall b :: b in bs ==> BucketInv(h, b.0, b.1, maxEntries, maxPartitions)
  }

  lemma KeysOfDropped<K, V>(d: Dict<K, V>, cap: nat)
    ensures Keys(DropOldest(d, cap)) == DropOldest(Keys(d), cap)
    ensures forall x :: x in DropOldest(d, cap) ==> x in d
  {
  }

  lemma KeyOfMember<K, V>(d: Dict<K, V>, x: (K, V))
    requires x in d
    ensures x.0 in Keys(d)
  {
    var i :| 0 <= i < |d| && d[i] == x;
    assert Keys(d)[i] == x.0;
  }

  lemma WriteKeys<K(!new), V>(d: Dict<K, V>, k: K, v: V, cap: nat)
    ensures Keys(DropOldest(Removed(d, k) + [(k, v)], cap)) == Touch(Keys(d), k, cap)
    ensures forall x :: x in DropOldest(Removed(d, k) + [(k, v)], cap) ==> x == (k, v) || (x in d && x.0 != k)
  {
    var m := Removed(d, k) + [(k, v)];
    KeysOfDropped(m, cap);
    RemovedKeys(d, k);
    assert Keys(m) == Keys(Removed(d, k)) + [k];
  }

  /** The bucket a mark writes to. */
  lemma WrittenBucket(h: History, m: Mark, e: Bucket, w: seq<Option<string>>, maxEntries: nat, maxPartitions: nat)
    requires |w| == |h| && Recent(w, Keys(e), maxEntries) && TimesMatch(h, w, e)
    requires IdTrace(h + [m], m.key, maxPartitions) == w + [Some(m.id)]
    ensures BucketInv(h + [m], m.key, BucketWrite(e, m.id, m.at, maxEntries), maxEntries, maxPartitions)
  {
    var h', w' := h + [m], w + [Some(m.id)];
    var e' := BucketWrite(e, m.id, m.at, maxEntries);
    WriteKeys(e, m.id, m.at, maxEntries);
    TouchIsRecent(w, Keys(e), maxEntries, m.id);
    forall x | x in e' ensures Last(w', x.0) >= 0 && h'[Last(w', x.0)].at == x.1 {
      LastAppend(w, Some(m.id), x.0);
    }
  }

  /** A bucket that a mark of another one leaves in the cache. */
  lemma OtherBucket(h: History, m: Mark, k: Key, e: Bucket, maxEntries: nat, maxPartitions: nat)
    requires BucketInv(h, k, e, maxEntries, maxPartitions) && k != m.key
    requires |After(KeyTrace(h + [m]), Last(KeyTrace(h + [m]), k))| < maxPartitions
    ensures BucketInv(h + [m], k, e, maxEntries, maxPartitions)
  {
    var w := IdTrace(h, k, maxPartitions);
    OtherTraceAppend(h, m, k, maxPartitions);
    RecentSkips(w, Keys(e), maxEntries);
    forall x | x in e ensures Last(w + [None], x.0) == Last(w, x.0) { LastAppend(w, None, x.0); }
  }

  lemma {:induction false} NonesHaveNoLast(n: nat, id: string)
    ensures Last(Nones(n), id) == -1
  {
    if n > 0 {
      NonesHaveNoLast(n - 1, id);
      assert Nones(n)[..n - 1] == Nones(n - 1);
    }
  }

  lemma FreshBucket(n: nat, maxEntries: nat)
    ensures Recent(Nones(n), [], maxEntries)
  {
    forall id ensures Last(Nones(n), id) == -1 { NonesHaveNoLast(n, id); }
  }

  /** The last mark of a bucket in the cache is kept. */
  lemma HeldKeepsLast(h: History, bs: Buckets, k: Key, maxPartitions: nat)
    requires Recent(KeyTrace(h), Keys(bs), maxPartitions) && k in Keys(bs)
    ensures var l := Last(KeyTrace(h), k); 0 <= l < |h| && h[l].key == k && Kept(h, k, l, maxPartitions)
  {
    var w := KeyTrace(h);
    var l := Last(w, k);
    RecentIsExact(w, Keys(bs), maxPartitions, k);
    KeysBetweenIsAfter(h, l);
    forall a, b | l <= a < b <= |h| && h[a].key == k && Unwritten(h, k, a, b)
      ensures |KeysBetween(h, a, b)| < maxPartitions
    {
      assert w[a] == Some(k) && a == l;
      SubsetSize(KeysBetween(h, a, b), KeysBetween(h, l, |h|));
    }
  }

  lemma MarkedBucket(h: History, bs: Buckets, m: Mark, maxEntries: nat, maxPartitions: nat)
    requires ReplayInv(h, bs, maxEntries, maxPartitions) && maxPartitions > 0
    ensures BucketInv(h + [m], m.key, BucketWrite(BucketOf(bs, m.key), m.id, m.at, maxEntries), maxEntries,
                      maxPartitions)
  {
    if m.key in Keys(bs) {
      HeldKeepsLast(h, bs, m.key, maxPartitions);
      OwnTraceAppend(h, m, maxPartitions);
      assert bs[Find(bs, m.key)] in bs;
      WrittenBucket(h, m, BucketOf(bs, m.key), IdTrace(h, m.key, maxPartitions), maxEntries, maxPartitions);
    } else {
      RecentIsExact(KeyTrace(h), Keys(bs), maxPartitions, m.key);
      NewTrace(h, m, maxPartitions);
      FreshBucket(|h|, maxEntries);
      WrittenBucket(h, m, [], Nones(|h|), maxEntries, maxPartitions);
    }
  }

  lemma MarkStepKeepsInv(h: History, bs: Buckets, m: Mark, maxEntries: nat, maxPartitions: nat)
    requires ReplayInv(h, bs, maxEntries, maxPartitions)
    ensures ReplayInv(h + [m], MarkStep(bs, m, maxEntries, maxPartitions), maxEntries, maxPartitions)
  {
    var v := BucketWrite(BucketOf(bs, m.key), m.id, m.at, maxEntries);
    var bs' := MarkStep(bs, m, maxEntries, maxPartitions);
    var w := KeyTrace(h);
    KeyTraceAppend(h, m);
    WriteKeys(bs, m.key, v, maxPartitions);
    TouchIsRecent(w, Keys(bs), maxPartitions, m.key);
    forall b | b in bs' ensures BucketInv(h + [m], b.0, b.1, maxEntries, maxPartitions) {
      KeyOfMember(bs', b);
      if b == (m.key, v) {
        MarkedBucket(h, bs, m, maxEntries, maxPartitions);
      } else {
        RecentIsExact(KeyTrace(h + [m]), Keys(bs'), maxPartitions, b.0);
        OtherBucket(h, m, b.0, b.1, maxEntries, maxPartitions);
      }
    }
  }

  lemma EmptyInv(maxEntries: nat, maxPartitions: nat)
    ensures ReplayInv([], [], maxEntries, maxPartitions)
  {
    assert KeyTrace([]) == [];
  }

  lemma ReplayStep(g: History, m: Mark, h: History, maxEntries: nat, maxPartitions: nat)
    requires h == g + [m] && ReplayInv(g, Replay(g, maxEntries, maxPartitions), maxEntries, maxPartitions)
    ensures Replay(h, maxEntries, maxPartitions) ==
            MarkStep(Replay(g, maxEntries, maxPartitions), m, maxEntries, maxPartitions)
    ensures ReplayInv(h, Replay(h, maxEntries, maxPartitions), maxEntries, maxPartitions)
  {
    var bs := Replay(g, maxEntries, maxPartitions);
    assert h[..|h| - 1] == g && h[|h| - 1] == m;
    assert Replay(h, maxEntries, maxPartitions) == MarkStep(bs, m, maxEntries, maxPartitions);
    MarkStepKeepsInv(g, bs, m, maxEntries, maxPartitions);
  }

  lemma {:induction false} ReplayKeepsInv(h: History, maxEntries: nat, maxPartitions: nat)
    ensures ReplayInv(h, Replay(h, maxEntries, maxPartitions), maxEntries, maxPartitions)
  {
    if h == [] {
      EmptyInv(maxEntries, maxPartitions);
    } else {
      ReplayKeepsInv(h[..|h| - 1], maxEntries, maxPartitions);
      ReplayStep(h[..|h| - 1], h[|h| - 1], h, maxEntries, maxPartitions);
    }
  }

  // ---------- From the stored state back to the history ----------

  /** In a bucket's trace, the last write of an id is its last mark and what follows is `OthersSince`. */
  lemma TraceIsHistory(h: History, k: Key, id: string, i: nat, cap: nat)
    requires i < |h| && Kept(h, k, i, cap) && h[i].key == k && h[i].id == id
    ensures LastMark(h, k, id, i) <==> Last(IdTrace(h, k, cap), id) == i
    ensures LastMark(h, k, id, i) ==> OthersSince(h, k, id, i) == After(IdTrace(h, k, cap), i)
  {
    var w := IdTrace(h, k, cap);
    forall j | i <= j < |h| ensures w[j] == if h[j].key == k then Some(h[j].id) else None {
      KeptLater(h, k, i, j, cap);
    }
    if LastMark(h, k, id, i) {
      forall x | x in OthersSince(h, k, id, i) ensures x in After(w, i) {
        var j :| i < j < |h| && h[j].key == k && h[j].id != id && h[j].id == x;
        assert w[j] == Some(x);
      }
      forall x | x in After(w, i) ensures x in OthersSince(h, k, id, i) {
        var j :| i < j < |w| && 0 <= j && w[j] == Some(x);
      }
    }
  }

  lemma StoredIsMarked(h: History, k: Key, id: string, now: real, maxEntries: nat, maxPartitions: nat, ttl: real)
    requires var t := TimeOf(Replay(h, maxEntries, maxPartitions), k, id); t.Some? && now - t.value <= ttl
    ensures Duplicate(h, k, id, now, maxEntries, maxPartitions, ttl)
  {
    var bs := Replay(h, maxEntries, maxPartitions);
    ReplayKeepsInv(h, maxEntries, maxPartitions);
    var e := BucketOf(bs, k);
    assert bs[Find(bs, k)] in bs && e[Find(e, id)] in e;
    var w := IdTrace(h, k, maxPartitions);
    RecentIsExact(w, Keys(e), maxEntries, id);
    var i := Last(w, id);
    TraceIsHistory(h, k, id, i, maxPartitions);
  }

  lemma MarkedIsStored(h: History, k: Key, id: string, i: nat, maxEntries: nat, maxPartitions: nat)
    requires LastMark(h, k, id, i) && |OthersSince(h, k, id, i)| < maxEntries && Kept(h, k, i, maxPartitions)
    ensures TimeOf(Replay(h, maxEntries, maxPartitions), k, id) == Some(h[i].at)
  {
    var bs := Replay(h, maxEntries, maxPartitions);
    ReplayKeepsInv(h, maxEntries, maxPartitions);
    KeptIsHeld(h, bs, k, i, maxEntries, maxPartitions);
    assert bs[Find(bs, k)] in bs;
    var e, w := BucketOf(bs, k), IdTrace(h, k, maxPartitions);
    TraceIsHistory(h, k, id, i, maxPartitions);
    RecentIsExact(w, Keys(e), maxEntries, id);
    assert e[Find(e, id)] in e;
  }

  lemma KeptIsHeld(h: History, bs: Buckets, k: Key, i: nat, maxEntries: nat, maxPartitions: nat)
    requires ReplayInv(h, bs, maxEntries, maxPartitions)
    requires i < |h| && h[i].key == k && Kept(h, k, i, maxPartitions)
    ensures k in Keys(bs)
  {
    assert KeyTrace(h)[i] == Some(k);
    RecentIsExact(KeyTrace(h), Keys(bs), maxPartitions, k);
    if k !in Keys(bs) { EvictedKeepsNothing(h, k, i, maxPartitions); }
  }

  /** An unexpired entry is stored exactly when the specification calls its id a duplicate. */
  lemma ReplayIsExact(h: History, k: Key, id: string, now: real, maxEntries: nat, maxPartitions: nat, ttl: real)
    ensures (var t := TimeOf(Replay(h, maxEntries, maxPartitions), k, id); t.Some? && now - t.value <= ttl)
            <==> Duplicate(h, k, id, now, maxEntries, maxPartitions, ttl)
  {
    if Duplicate(h, k, id, now, maxEntries, maxPartitions, ttl) {
      var i :| 0 <= i < |h| && LastMark(h, k, id, i) && now - h[i].at <= ttl &&
        |OthersSince(h, k, id, i)| < maxEntries && Kept(h, k, i, maxPartitions);
      MarkedIsStored(h, k, id, i, maxEntries, maxPartitions);
    }
    var t := TimeOf(Replay(h, maxEntries, maxPartitions), k, id);
    if t.Some? && now - t.value <= ttl {
      StoredIsMarked(h, k, id, now, maxEntries, maxPartitions, ttl);
    }
  }
}
