/**
 Least-recently-written lists. `Recent(w, l, cap)` says that `l` is what a bounded LRU holds after
 the writes `w`: the keys written with fewer than `cap` distinct other keys after them, in order.
 A `None` in `w` is a step that wrote nothing to this list.
 */
module Lru {
  datatype Option<+T> = None | Some(value: T)

  /** The index of the last write of `k`, or -1. */
  function Last<K(==)>(w: seq<Option<K>>, k: K): (i: int)
    ensures -1 <= i < |w|
    ensures i >= 0 ==> w[i] == Some(k)
    ensures forall j :: i < j < |w| ==> w[j] != Some(k)
  {
    if w == [] then -1
    else if w[|w| - 1] == Some(k) then |w| - 1
    else Last(w[..|w| - 1], k)
  }

  /** The keys written after step `i`. */
  function After<K(==)>(w: seq<Option<K>>, i: int): set<K> {
    set j | i < j < |w| && 0 <= j && w[j].Some? :: w[j].value
  }

  ghost predicate Written<K(!new)>(w: seq<Option<K>>, l: seq<K>) {
    forall k :: k in l ==> Last(w, k) >= 0
  }

  /** The list is ordered by last write. */
  ghost predicate Ascending<K(!new)>(w: seq<Option<K>>, l: seq<K>) {
    forall p, q :: 0 <= p < q < |l| ==> Last(w, l[p]) < Last(w, l[q])
  }

  /** Whatever was written after a key of the list is in the list. */
  ghost predicate Complete<K(!new)>(w: seq<Option<K>>, l: seq<K>) {
    forall y, k :: y in l && Last(w, k) > Last(w, y) ==> k in l
  }

  ghost predicate Recent<K(!new)>(w: seq<Option<K>>, l: seq<K>, cap: nat) {
    && |l| <= cap
    && Written(w, l) && Ascending(w, l) && Complete(w, l)
    && (forall k :: Last(w, k) >= 0 && k !in l ==> |After(w, Last(w, k))| >= cap)
  }

  function Without<K(==, !new)>(l: seq<K>, k: K): (r: seq<K>)
    ensures forall x :: x in r <==> x in l && x != k
    ensures |r| <= |l|
  {
    if l == [] then [] else (if l[0] == k then [] else [l[0]]) + Without(l[1..], k)
  }

  function DropOldest<T>(s: seq<T>, cap: nat): seq<T> {
    if |s| <= cap then s else s[|s| - cap..]
  }

  function Touch<K(==, !new)>(l: seq<K>, k: K, cap: nat): seq<K> {
    DropOldest(Without(l, k) + [k], cap)
  }

  function Elements<K>(l: seq<K>): set<K> { set k | k in l }

  lemma {:induction false} DistinctSize<K>(l: seq<K>)
    requires forall p, q :: 0 <= p < q < |l| ==> l[p] != l[q]
    ensures |Elements(l)| == |l|
  {
    if l != [] {
      DistinctSize(l[1..]);
      assert Elements(l) == {l[0]} + Elements(l[1..]);
      assert l[0] !in Elements(l[1..]);
    }
  }

  lemma SubsetSize<K>(a: set<K>, b: set<K>)
    requires a <= b
    ensures |a| <= |b|
  {
    assert b == a + (b - a);
  }

  /** What was written after a held key is what stands behind it. */
  lemma AfterHeld<K(!new)>(w: seq<Option<K>>, l: seq<K>, cap: nat, p: nat)
    requires Recent(w, l, cap) && p < |l|
    ensures After(w, Last(w, l[p])) == Elements(l[p + 1..]) && |After(w, Last(w, l[p]))| == |l| - p - 1
  {
    var i := Last(w, l[p]);
    assert l[p] in l;
    forall k | k in After(w, i) ensures k in Elements(l[p + 1..]) {
      var j :| i < j < |w| && w[j] == Some(k);
      assert Last(w, k) > i;
      var q :| 0 <= q < |l| && l[q] == k;
      assert q > p;
      assert l[p + 1..][q - p - 1] == k;
    }
    forall k | k in Elements(l[p + 1..]) ensures k in After(w, i) {
      var q :| 0 <= q < |l| - p - 1 && l[p + 1..][q] == k;
      assert l[p + 1 + q] == k && w[Last(w, k)] == Some(k);
    }
    DistinctSize(l[p + 1..]);
  }

  /** An LRU list holds a key exactly when it was written, with fewer than `cap` others since. */
  lemma RecentIsExact<K(!new)>(w: seq<Option<K>>, l: seq<K>, cap: nat, k: K)
    requires Recent(w, l, cap)
    ensures k in l <==> Last(w, k) >= 0 && |After(w, Last(w, k))| < cap
  {
    if k in l {
      var p :| 0 <= p < |l| && l[p] == k;
      AfterHeld(w, l, cap, p);
    }
  }

  lemma LastAppend<K>(w: seq<Option<K>>, o: Option<K>, k: K)
    ensures Last(w + [o], k) == if o == Some(k) then |w| else Last(w, k)
  {
    assert (w + [o])[..|w|] == w;
  }

  lemma AfterAppend<K>(w: seq<Option<K>>, o: Option<K>, i: int)
    requires i < |w|
    ensures After(w + [o], i) == After(w, i) + (if o.Some? then {o.value} else {})
  {
    var v := w + [o];
    forall k | k in After(w, i) ensures k in After(v, i) {
      var j :| i < j < |w| && 0 <= j && w[j] == Some(k);
      assert v[j] == w[j];
    }
    if o.Some? { assert v[|w|] == o; }
  }

  lemma RecentSkips<K(!new)>(w: seq<Option<K>>, l: seq<K>, cap: nat)
    requires Recent(w, l, cap)
    ensures Recent(w + [None], l, cap)
  {
    forall k ensures Last(w + [None], k) == Last(w, k) { LastAppend(w, None, k); }
    forall k ensures After(w + [None], Last(w, k)) == After(w, Last(w, k)) { AfterAppend(w, None, Last(w, k)); }
  }

  lemma {:induction false} WithoutKeepsOrder<K(!new)>(w: seq<Option<K>>, l: seq<K>, k: K)
    requires Ascending(w, l)
    ensures Ascending(w, Without(l, k)) && |Without(l, k)| == |l| - if k in l then 1 else 0
  {
    if l != [] {
      var rest := Without(l[1..], k);
      assert Ascending(w, l[1..]);
      WithoutKeepsOrder(w, l[1..], k);
      FirstIsLeast(w, l);
      if l[0] == k { assert k !in l[1..]; }
    }
  }

  lemma FirstIsLeast<K(!new)>(w: seq<Option<K>>, l: seq<K>)
    requires Ascending(w, l) && l != []
    ensures forall x :: x in l[1..] ==> Last(w, l[0]) < Last(w, x)
  {
    forall x | x in l[1..] ensures Last(w, l[0]) < Last(w, x) {
      var q :| 0 <= q < |l[1..]| && l[1..][q] == x;
      assert l[q + 1] == x;
    }
  }

  lemma LastAppends<K(!new)>(w: seq<Option<K>>, o: Option<K>)
    ensures forall k :: Last(w + [o], k) == if o == Some(k) then |w| else Last(w, k)
  {
    forall k ensures Last(w + [o], k) == if o == Some(k) then |w| else Last(w, k) { LastAppend(w, o, k); }
  }

  /** The list after moving or adding `k` at the end, before anything is dropped. */
  lemma TouchedOrder<K(!new)>(w: seq<Option<K>>, l: seq<K>, k: K)
    requires Written(w, l) && Ascending(w, l) && Complete(w, l)
    ensures var v, m := w + [Some(k)], Without(l, k) + [k];
            |m| == |l| + (if k in l then 0 else 1) && Written(v, m) && Ascending(v, m) && Complete(v, m)
  {
    var v, l' := w + [Some(k)], Without(l, k);
    var m := l' + [k];
    LastAppends(w, Some(k));
    WithoutKeepsOrder(w, l, k);
    TouchedIsComplete(w, l, k);
    LastIsNewest(w, l', k);
  }

  /** What is put at the end was written last. */
  lemma LastIsNewest<K(!new)>(w: seq<Option<K>>, l: seq<K>, k: K)
    requires Ascending(w, l) && k !in l
    ensures Ascending(w + [Some(k)], l + [k])
  {
    var v, m := w + [Some(k)], l + [k];
    LastAppends(w, Some(k));
    forall p, q | 0 <= p < q < |m| ensures Last(v, m[p]) < Last(v, m[q]) {
      assert m[p] == l[p] && l[p] in l;
      if q < |l| { assert m[q] == l[q] && l[q] in l; }
    }
  }

  lemma TouchedIsComplete<K(!new)>(w: seq<Option<K>>, l: seq<K>, k: K)
    requires Written(w, l) && Complete(w, l)
    ensures Written(w + [Some(k)], Without(l, k) + [k]) && Complete(w + [Some(k)], Without(l, k) + [k])
  {
    LastAppends(w, Some(k));
    assert forall x :: x in Without(l, k) + [k] <==> x == k || x in Without(l, k);
  }

  /** Writing `k` touches the list as an LRU should. */
  lemma TouchIsRecent<K(!new)>(w: seq<Option<K>>, l: seq<K>, cap: nat, k: K)
    requires Recent(w, l, cap)
    ensures Recent(w + [Some(k)], Touch(l, k, cap), cap)
  {
    var v, m := w + [Some(k)], Without(l, k) + [k];
    var r := Touch(l, k, cap);
    TouchedOrder(w, l, k);
    if |m| <= cap { assert r == m; } else { DropFirst(v, m, cap); }
    LastAppends(w, Some(k));
    assert m[|m| - 1] == k;
    forall x | Last(v, x) >= 0 && x !in r ensures |After(v, Last(v, x))| >= cap {
      if x !in m {
        AfterAppend(w, Some(k), Last(w, x));
        SubsetSize(After(w, Last(w, x)), After(v, Last(w, x)));
      }
    }
  }

  /** Dropping the oldest key of a list that is one too long. */
  lemma DropFirst<K(!new)>(v: seq<Option<K>>, m: seq<K>, cap: nat)
    requires |m| == cap + 1 && Written(v, m) && Ascending(v, m) && Complete(v, m)
    ensures DropOldest(m, cap) == m[1..]
    ensures Written(v, m[1..]) && Ascending(v, m[1..]) && Complete(v, m[1..])
    ensures forall x :: x in m ==> x in m[1..] || |After(v, Last(v, x))| >= cap
  {
    FirstIsLeast(v, m);
    DroppedIsOld(v, m, cap);
    assert forall x :: x in m <==> x == m[0] || x in m[1..];
  }

  lemma DroppedIsOld<K(!new)>(v: seq<Option<K>>, m: seq<K>, cap: nat)
    requires |m| == cap + 1
    requires Written(v, m) && Ascending(v, m)
    ensures |After(v, Last(v, m[0]))| >= cap
  {
    forall x | x in Elements(m[1..]) ensures x in After(v, Last(v, m[0])) {
      var q :| 0 <= q < |m[1..]| && m[1..][q] == x;
      assert m[q + 1] == x;
      assert v[Last(v, x)] == Some(x);
    }
    DistinctSize(m[1..]);
    SubsetSize(Elements(m[1..]), After(v, Last(v, m[0])));
  }
}
