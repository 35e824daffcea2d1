/** Against a server that serves a list in slices, polling is complete, in order, and all or nothing. */
module PollProof {
  import opened Lru
  import opened JsonValue
  import opened UrlQuery
  import opened Decimals
  import opened Poll

  /** Where in the list the page of a URL starts. */
  type Where = string -> int

  function Min(a: int, b: int): int { if a <= b then a else b }

  function SliceAt(list: seq<Json>, o: nat, limit: nat): seq<Json> {
    list[Min(o, |list|)..Min(o + limit, |list|)]
  }

  /** Every request for a URL is answered with the slice that starts there. */
  ghost predicate Serves(t: Transport, items: Json -> Option<seq<Json>>, at: Where, list: seq<Json>, limit: nat) {
    forall n: nat, url: string {:trigger t(n, url)} :: at(url) >= 0 ==>
      ServesOne(t(n, url), items, SliceAt(list, at(url), limit))
  }

  predicate ServesOne(f: Fetched, items: Json -> Option<seq<Json>>, slice: seq<Json>) {
    f.Response? && f.status == 200 && f.body.Some? && (f.body.value.Obj? || f.body.value.Arr?) &&
    items(f.body.value) == Some(slice)
  }

  /** A short page is the last; after a full one the pager moves on to the next slice. */
  ghost predicate Moves(next: Next, at: Where, step: string -> string, limit: nat) {
    forall url, page, count: nat {:trigger next(url, page, count)} :: at(url) >= 0 ==>
      next(url, page, count) == (if count < limit then Ok(None) else Ok(Some(step(url)))) &&
      at(step(url)) == at(url) + limit
  }

  /** The number of pages that `rest` items take. */
  function PagesFor(rest: nat, limit: nat): (k: nat)
    requires limit > 0
    ensures k >= 1
  {
    if rest < limit then 1 else 1 + PagesFor(rest - limit, limit)
  }

  lemma {:induction false} PagesForBounds(rest: nat, limit: nat)
    requires limit > 0
    ensures var k := PagesFor(rest, limit); (k - 1) * limit <= rest < (k - 1) * limit + limit
  {
    if rest >= limit {
      PagesForBounds(rest - limit, limit);
      var k := PagesFor(rest - limit, limit);
      assert k * limit == (k - 1) * limit + limit;
    }
  }

  lemma QuotientIsUnique(a: nat, b: nat, q: nat)
    requires b > 0 && q * b <= a < q * b + b
    ensures a / b == q
  {
    var p := a / b;
    assert p * b <= a < p * b + b;
    if p < q {
      assert (p + 1) * b <= q * b by { Multiply(p + 1, q, b); }
    } else if q < p {
      assert (q + 1) * b <= p * b by { Multiply(q + 1, p, b); }
    }
  }

  lemma Multiply(x: nat, y: nat, b: nat)
    requires x <= y
    ensures x * b <= y * b
  {
    assert y * b == x * b + (y - x) * b;
  }

  /** The page count is `rest / limit + 1`. */
  lemma PagesForIsQuotient(rest: nat, limit: nat)
    requires limit > 0
    ensures PagesFor(rest, limit) == rest / limit + 1
  {
    PagesForBounds(rest, limit);
    QuotientIsUnique(rest, limit, PagesFor(rest, limit) - 1);
  }

  function Length(f: Fetched): nat { if f.Response? then f.length else 0 }

  /** The bytes of `k` pages from the n-th request on. */
  function BytesFrom(t: Transport, step: string -> string, url: string, n: nat, k: nat): nat
    decreases k
  {
    if k == 0 then 0 else Length(t(n, url)) + BytesFrom(t, step, step(url), n + 1, k - 1)
  }

  function UrlsFrom(step: string -> string, url: string, k: nat): seq<string>
    decreases k
  {
    if k == 0 then [] else [url] + UrlsFrom(step, step(url), k - 1)
  }

  function RestAt(list: seq<Json>, o: nat): nat { |list| - Min(o, |list|) }

  /** The caps hold for everything from `o` on. */
  predicate WithinCaps(t: Transport, step: string -> string, url: string, rest: nat, limit: nat,
                       pages: nat, bytes: nat, count: nat)
    requires limit > 0
  {
    pages + PagesFor(rest, limit) <= MAX_PAGES && count + rest <= MAX_TOTAL_ITEMS &&
    bytes + BytesFrom(t, step, url, pages, PagesFor(rest, limit)) <= MAX_TOTAL_BYTES
  }

  lemma SliceFacts(list: seq<Json>, o: nat, limit: nat)
    requires limit > 0
    ensures var slice, rest := SliceAt(list, o, limit), RestAt(list, o);
            |slice| == Min(rest, limit) &&
            (rest >= limit ==> RestAt(list, o + limit) == rest - limit) &&
            list[Min(o, |list|)..] == slice + (if rest >= limit then list[Min(o + limit, |list|)..] else [])
  {
  }

  /** What one request does to the walk. */
  lemma OnePage(t: Transport, spec: Spec, at: Where, step: string -> string, list: seq<Json>, limit: nat,
                url: string, pages: nat, bytes: nat, count: nat)
    requires limit > 0 && Serves(t, spec.items, at, list, limit) && Moves(spec.nextUrl, at, step, limit) && at(url) >= 0
    ensures var x, slice := TakePage(t, spec, url, pages, bytes, count), SliceAt(list, at(url), limit);
            var length := Length(t(pages, url));
            (x.Ok? <==> bytes + length <= MAX_TOTAL_BYTES && count + |slice| <= MAX_TOTAL_ITEMS) &&
            (x.Ok? ==> x.value == Taken(slice, length, if |slice| < limit then None else Some(step(url))))
  {
    assert ServesOne(t(pages, url), spec.items, SliceAt(list, at(url), limit));
  }

  /** The walk succeeds exactly within the caps, and then returns the list from there on. */
  lemma {:induction false} WalkOverSlices(t: Transport, spec: Spec, at: Where, step: string -> string, list: seq<Json>,
                                          limit: nat, url: string, pages: nat, bytes: nat, payloads: seq<Json>)
    requires limit > 0 && Serves(t, spec.items, at, list, limit) && Moves(spec.nextUrl, at, step, limit) && at(url) >= 0
    requires pages <= MAX_PAGES
    ensures var w, rest := WalkFrom(t, spec, Some(url), pages, bytes, payloads), RestAt(list, at(url));
            (w.result.Ok? <==> WithinCaps(t, step, url, rest, limit, pages, bytes, |payloads|)) &&
            (w.result.Ok? ==> w.result.value == payloads + list[Min(at(url), |list|)..] &&
                              w.urls == UrlsFrom(step, url, PagesFor(rest, limit)))
    decreases MAX_PAGES - pages
  {
    var o := at(url);
    SliceFacts(list, o, limit);
    if pages < MAX_PAGES {
      OnePage(t, spec, at, step, list, limit, url, pages, bytes, |payloads|);
      var x := TakePage(t, spec, url, pages, bytes, |payloads|);
      if x.Ok? {
        if RestAt(list, o) >= limit {
          WalkOverSlices(t, spec, at, step, list, limit, step(url), pages + 1, bytes + x.value.length,
                         payloads + x.value.items);
          assert payloads + x.value.items + list[Min(o + limit, |list|)..] == payloads + list[Min(o, |list|)..];
        } else {
          assert BytesFrom(t, step, url, pages, 1) == Length(t(pages, url));
          assert UrlsFrom(step, url, 1) == [url];
        }
      }
    }
  }

  // ---------- The pagers move by one slice ----------

  function OffsetStep(u: Urls, param: string, limit: int, start: int): string -> string {
    url => Advanced(u, url, param, start, limit)
  }

  function PageStep(u: Urls, param: string, start: int): string -> string {
    url => Advanced(u, url, param, start, 1)
  }

  function PagerNext(u: Urls, pager: Pager): Next {
    (url: string, page: Json, count: nat) => NextUrl(u, pager, url, page, count)
  }

  /** The position written into a URL is the position read from it. */
  lemma PositionRoundTrip(u: Urls, url: string, param: string, start: int, n: int)
    requires Sound(u)
    ensures Position(u, u.put(url, param, u.write(n)), param, start) == n
  {
  }

  lemma AdvancedPosition(u: Urls, url: string, param: string, start: int, step: int, n: int)
    requires Sound(u) && n == Position(u, url, param, start) + step
    ensures Position(u, Advanced(u, url, param, start, step), param, start) == n
  {
    PositionRoundTrip(u, url, param, start, n);
  }

  lemma OffsetPagerMoves(u: Urls, param: string, limit: nat, start: int)
    requires limit > 0 && Sound(u)
    ensures Moves(PagerNext(u, OffsetPager(param, limit, start)), url => Position(u, url, param, start),
                  OffsetStep(u, param, limit, start), limit)
  {
    forall url: string
      ensures Position(u, OffsetStep(u, param, limit, start)(url), param, start) ==
              Position(u, url, param, start) + limit
    {
      AdvancedPosition(u, url, param, start, limit, Position(u, url, param, start) + limit);
    }
  }

  /** Page numbers count from one. */
  function PageAt(u: Urls, param: string, perPage: nat, start: int): Where {
    url => (Position(u, url, param, start) - 1) * perPage
  }

  lemma PageNumberPagerMoves(u: Urls, param: string, perPage: nat, start: int)
    requires perPage > 0 && Sound(u)
    ensures Moves(PagerNext(u, PageNumberPager(param, perPage, start)), PageAt(u, param, perPage, start),
                  PageStep(u, param, start), perPage)
  {
    forall url: string
      ensures PageAt(u, param, perPage, start)(PageStep(u, param, start)(url)) ==
              PageAt(u, param, perPage, start)(url) + perPage
    {
      var n := Position(u, url, param, start);
      AdvancedPosition(u, url, param, start, 1, n + 1);
      assert n * perPage == (n - 1) * perPage + perPage;
    }
  }

  // ---------- The theorems ----------

  /** Offset polling returns the whole list from the first offset on, in order, exactly when it takes at
      most a hundred pages and stays within the item and byte caps; the requests are for consecutive slices. */
  lemma OffsetPollIsComplete(u: Urls, t: Transport, base: string, items: Json -> Option<seq<Json>>, param: string,
                             limit: nat, start: int, list: seq<Json>)
    requires Sound(u) && limit > 0 && Position(u, base, param, start) >= 0
    requires Serves(t, items, url => Position(u, url, param, start), list, limit)
    ensures var o := Position(u, base, param, start);
            var w := PollWalk(t, Spec(base, items, PagerNext(u, OffsetPager(param, limit, start))));
            var rest := RestAt(list, o);
            (w.result.Ok? <==>
              rest / limit + 1 <= MAX_PAGES && rest <= MAX_TOTAL_ITEMS &&
              BytesFrom(t, OffsetStep(u, param, limit, start), base, 0, rest / limit + 1) <= MAX_TOTAL_BYTES) &&
            (w.result.Ok? ==>
              w.result.value == list[Min(o, |list|)..] &&
              w.urls == UrlsFrom(OffsetStep(u, param, limit, start), base, rest / limit + 1))
  {
    var at: Where := url => Position(u, url, param, start);
    OffsetPagerMoves(u, param, limit, start);
    PagesForIsQuotient(RestAt(list, at(base)), limit);
    WalkOverSlices(t, Spec(base, items, PagerNext(u, OffsetPager(param, limit, start))), at,
                   OffsetStep(u, param, limit, start), list, limit, base, 0, 0, []);
  }

  /** The same for page numbers. */
  lemma PageNumberPollIsComplete(u: Urls, t: Transport, base: string, items: Json -> Option<seq<Json>>, param: string,
                                 perPage: nat, start: int, list: seq<Json>)
    requires Sound(u) && perPage > 0 && Position(u, base, param, start) >= 1
    requires Serves(t, items, PageAt(u, param, perPage, start), list, perPage)
    requires PageAt(u, param, perPage, start)(base) >= 0
    ensures var o := PageAt(u, param, perPage, start)(base);
            var w := PollWalk(t, Spec(base, items, PagerNext(u, PageNumberPager(param, perPage, start))));
            var rest := RestAt(list, o);
            (w.result.Ok? <==>
              rest / perPage + 1 <= MAX_PAGES && rest <= MAX_TOTAL_ITEMS &&
              BytesFrom(t, PageStep(u, param, start), base, 0, rest / perPage + 1) <= MAX_TOTAL_BYTES) &&
            (w.result.Ok? ==>
              w.result.value == list[Min(o, |list|)..] &&
              w.urls == UrlsFrom(PageStep(u, param, start), base, rest / perPage + 1))
  {
    var at := PageAt(u, param, perPage, start);
    PageNumberPagerMoves(u, param, perPage, start);
    PagesForIsQuotient(RestAt(list, at(base)), perPage);
    WalkOverSlices(t, Spec(base, items, PagerNext(u, PageNumberPager(param, perPage, start))), at,
                   PageStep(u, param, start), list, perPage, base, 0, 0, []);
  }
}
