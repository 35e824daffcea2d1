/**
 Polling that succeeds has fetched every page whole; polling by page token returns a server's whole chain of pages.
 */
module TokenPoll {
  import opened Lru
  import opened JsonValue
  import opened Poll
  import opened PollProof
  import opened GraphQlProof

  // ---------- Any successful walk ----------

  /** The page has arrived: status 200, a JSON object or array, and a list of items in it. */
  predicate Whole(f: Fetched, items: Json -> Option<seq<Json>>) {
    f.Response? && f.status == 200 && f.body.Some? && (f.body.value.Obj? || f.body.value.Arr?) &&
    items(f.body.value).Some?
  }

  /** The items of the pages, one page after another. */
  function PageItems(t: Transport, items: Json -> Option<seq<Json>>, n: nat, urls: seq<string>): seq<Json>
    decreases urls
  {
    if urls == [] then []
    else
      (if Whole(t(n, urls[0]), items) then items(t(n, urls[0]).body.value).value else []) +
      PageItems(t, items, n + 1, urls[1..])
  }

  ghost predicate AllWhole(t: Transport, items: Json -> Option<seq<Json>>, n: nat, urls: seq<string>) {
    forall k, m: nat :: 0 <= k < |urls| && m == n + k ==> Whole(t(m, urls[k]), items)
  }

  lemma TakenIsWhole(t: Transport, spec: Spec, url: string, pages: nat, bytes: nat, count: nat)
    requires TakePage(t, spec, url, pages, bytes, count).Ok?
    ensures Whole(t(pages, url), spec.items)
    ensures Some(TakePage(t, spec, url, pages, bytes, count).value.items) == spec.items(t(pages, url).body.value)
  {
  }

  lemma WholeInFront(t: Transport, items: Json -> Option<seq<Json>>, n: nat, url: string, urls: seq<string>)
    requires Whole(t(n, url), items) && AllWhole(t, items, n + 1, urls)
    ensures AllWhole(t, items, n, [url] + urls)
  {
    var all := [url] + urls;
    forall k, m: nat | 0 <= k < |all| && m == n + k ensures Whole(t(m, all[k]), items) {
      if k > 0 { assert all[k] == urls[k - 1] && m == n + 1 + (k - 1); }
    }
  }

  /** A walk that succeeds has fetched every page whole, and returns just their items, in order. */
  lemma {:induction false} SuccessIsWhole(t: Transport, spec: Spec, url: Option<string>, pages: nat, bytes: nat,
                                          payloads: seq<Json>)
    requires pages <= MAX_PAGES && WalkFrom(t, spec, url, pages, bytes, payloads).result.Ok?
    ensures var w := WalkFrom(t, spec, url, pages, bytes, payloads);
            AllWhole(t, spec.items, pages, w.urls) &&
            w.result.value == payloads + PageItems(t, spec.items, pages, w.urls)
    decreases MAX_PAGES - pages
  {
    if url != None {
      var x := TakePage(t, spec, url.value, pages, bytes, |payloads|).value;
      TakenIsWhole(t, spec, url.value, pages, bytes, |payloads|);
      SuccessIsWhole(t, spec, x.next, pages + 1, bytes + x.length, payloads + x.items);
      var rest := WalkFrom(t, spec, x.next, pages + 1, bytes + x.length, payloads + x.items).urls;
      WholeInFront(t, spec.items, pages, url.value, rest);
      assert ([url.value] + rest)[1..] == rest;
    }
  }

  /** A walk ends at the first response with another status than 200, and fails with that status. */
  lemma {:induction false} OtherStatusEnds(t: Transport, spec: Spec, url: Option<string>, pages: nat, bytes: nat,
                                           payloads: seq<Json>, k: nat, n: nat)
    requires pages <= MAX_PAGES && k < |WalkFrom(t, spec, url, pages, bytes, payloads).urls| && n == pages + k
    requires var f := t(n, WalkFrom(t, spec, url, pages, bytes, payloads).urls[k]); f.Response? && f.status != 200
    ensures var w := WalkFrom(t, spec, url, pages, bytes, payloads);
            k == |w.urls| - 1 && w.result.Fail? && w.result.error.status == t(n, w.urls[k]).status
    decreases MAX_PAGES - pages
  {
    var x := TakePage(t, spec, url.value, pages, bytes, |payloads|);
    if k > 0 {
      var rest := WalkFrom(t, spec, x.value.next, pages + 1, bytes + x.value.length, payloads + x.value.items);
      assert WalkFrom(t, spec, url, pages, bytes, payloads).urls[k] == rest.urls[k - 1];
      OtherStatusEnds(t, spec, x.value.next, pages + 1, bytes + x.value.length, payloads + x.value.items, k - 1, n);
    }
  }

  // ---------- A chain of pages ----------

  /** A page of the server: its items, and the token that asks for the next one. */
  datatype Chunk = Chunk(items: seq<Json>, token: string)

  ghost predicate SaysMore(page: Json, hasMore: Option<seq<string>>) {
    hasMore.Some? ==> exists v :: v != Null && Leads(page, hasMore.value, v) && Truthy(v)
  }

  /** There is a next page, and `token` asks for it. */
  ghost predicate Continues(page: Json, tokenField: seq<string>, hasMore: Option<seq<string>>, token: string) {
    page.Obj? && SaysMore(page, hasMore) && Leads(page, tokenField, Str(token)) && token != "" && !HasControl(token)
  }

  /** There is none: the page says so, or has no token. */
  ghost predicate Closes(page: Json, tokenField: seq<string>, hasMore: Option<seq<string>>) {
    !page.Obj? || !SaysMore(page, hasMore) || forall token :: Leads(page, tokenField, Str(token)) ==> token == ""
  }

  lemma MoreExactly(page: Json, hasMore: Option<seq<string>>)
    ensures SaysMore(page, hasMore) <==> (hasMore.Some? ==> Truthy(Dig(page, hasMore.value)))
  {
    if hasMore.Some? {
      var v := Dig(page, hasMore.value);
      if v != Null { DigExactly(page, hasMore.value, v); }
      if w :| w != Null && Leads(page, hasMore.value, w) && Truthy(w) { DigExactly(page, hasMore.value, w); }
    }
  }

  lemma NextContinues(u: Urls, param: string, tokenField: seq<string>, hasMore: Option<seq<string>>, url: string,
                      page: Json, count: nat, token: string)
    requires Continues(page, tokenField, hasMore, token)
    ensures NextUrl(u, PageToken(param, tokenField, hasMore), url, page, count) == Ok(Some(u.put(url, param, token)))
  {
    MoreExactly(page, hasMore);
    DigExactly(page, tokenField, Str(token));
  }

  lemma NextCloses(u: Urls, param: string, tokenField: seq<string>, hasMore: Option<seq<string>>, url: string,
                   page: Json, count: nat)
    requires Closes(page, tokenField, hasMore)
    ensures NextUrl(u, PageToken(param, tokenField, hasMore), url, page, count) == Ok(None)
  {
    MoreExactly(page, hasMore);
    var token := Dig(page, tokenField);
    if token.Str? { DigExactly(page, tokenField, token); }
  }

  /** The URL asks for page `k`: it is the first one, or has the token of the page before. */
  predicate Asks(u: Urls, base: string, param: string, chain: seq<Chunk>, url: string, k: nat) {
    k < |chain| && if k == 0 then url == base else u.get(url, param) == Some(chain[k - 1].token)
  }

  /** The answer is page `k`. */
  ghost predicate IsPage(f: Fetched, items: Json -> Option<seq<Json>>, tokenField: seq<string>,
                         hasMore: Option<seq<string>>, chain: seq<Chunk>, k: nat)
    requires k < |chain|
  {
    f.Response? && f.status == 200 && f.body.Some? && (f.body.value.Obj? || f.body.value.Arr?) &&
    items(f.body.value) == Some(chain[k].items) &&
    if k == |chain| - 1 then Closes(f.body.value, tokenField, hasMore)
    else Continues(f.body.value, tokenField, hasMore, chain[k].token)
  }

  /** Whatever has been asked before, a URL that asks for a page is answered with it. */
  ghost predicate ServesChunks(u: Urls, t: Transport, items: Json -> Option<seq<Json>>, base: string, param: string,
                               tokenField: seq<string>, hasMore: Option<seq<string>>, chain: seq<Chunk>) {
    forall n: nat, url, k: nat {:trigger t(n, url), Asks(u, base, param, chain, url, k)} ::
      Asks(u, base, param, chain, url, k) ==> IsPage(t(n, url), items, tokenField, hasMore, chain, k)
  }

  /** The URLs for the pages from `k` on, each made from the one before with its page's token. */
  function TokenUrls(u: Urls, param: string, chain: seq<Chunk>, k: nat, url: string): seq<string>
    decreases |chain| - k
  {
    if k >= |chain| then [] else [url] + TokenUrls(u, param, chain, k + 1, u.put(url, param, chain[k].token))
  }

  function ItemsFrom(chain: seq<Chunk>, k: nat): seq<Json>
    decreases |chain| - k
  {
    if k >= |chain| then [] else chain[k].items + ItemsFrom(chain, k + 1)
  }

  function ChunkBytes(u: Urls, t: Transport, param: string, chain: seq<Chunk>, k: nat, url: string, n: nat): nat
    decreases |chain| - k
  {
    if k >= |chain| then 0
    else Length(t(n, url)) + ChunkBytes(u, t, param, chain, k + 1, u.put(url, param, chain[k].token), n + 1)
  }

  /** What one request does to the walk. */
  lemma OneChunk(u: Urls, t: Transport, spec: Spec, param: string, tokenField: seq<string>,
                 hasMore: Option<seq<string>>, chain: seq<Chunk>, k: nat, url: string, pages: nat, bytes: nat,
                 count: nat)
    requires k < |chain| && IsPage(t(pages, url), spec.items, tokenField, hasMore, chain, k)
    requires spec.nextUrl == PagerNext(u, PageToken(param, tokenField, hasMore))
    ensures var x, length := TakePage(t, spec, url, pages, bytes, count), Length(t(pages, url));
            (x.Ok? <==> bytes + length <= 67_108_864 && count + |chain[k].items| <= 50_000) &&
            (x.Ok? ==>
              x.value == Taken(chain[k].items, length,
                               if k == |chain| - 1 then None else Some(u.put(url, param, chain[k].token))))
  {
    var page := t(pages, url).body.value;
    if k == |chain| - 1 {
      NextCloses(u, param, tokenField, hasMore, url, page, |chain[k].items|);
    } else {
      NextContinues(u, param, tokenField, hasMore, url, page, |chain[k].items|, chain[k].token);
    }
  }

  /** The caps hold for everything from page `k` on. */
  ghost predicate ChunksFit(u: Urls, t: Transport, param: string, chain: seq<Chunk>, k: nat, url: string, pages: nat,
                            bytes: nat, count: nat) {
    k < |chain| && pages + (|chain| - k) <= 100 && count + |ItemsFrom(chain, k)| <= 50_000 &&
    bytes + ChunkBytes(u, t, param, chain, k, url, pages) <= 67_108_864
  }

  lemma ChunksStep(u: Urls, t: Transport, param: string, chain: seq<Chunk>, k: nat, url: string, pages: nat)
    requires k < |chain|
    ensures var next := u.put(url, param, chain[k].token);
            ItemsFrom(chain, k) == chain[k].items + ItemsFrom(chain, k + 1) &&
            TokenUrls(u, param, chain, k, url) == [url] + TokenUrls(u, param, chain, k + 1, next) &&
            ChunkBytes(u, t, param, chain, k, url, pages) ==
              Length(t(pages, url)) + ChunkBytes(u, t, param, chain, k + 1, next, pages + 1)
    ensures k == |chain| - 1 ==>
              ItemsFrom(chain, k + 1) == [] &&
              TokenUrls(u, param, chain, k + 1, u.put(url, param, chain[k].token)) == []
  {
  }

  lemma FitStep(u: Urls, t: Transport, param: string, chain: seq<Chunk>, k: nat, url: string, pages: nat, bytes: nat,
                count: nat)
    requires k < |chain|
    ensures ChunksFit(u, t, param, chain, k, url, pages, bytes, count) <==>
            pages < 100 && bytes + Length(t(pages, url)) <= 67_108_864 && count + |chain[k].items| <= 50_000 &&
            (k + 1 < |chain| ==>
              ChunksFit(u, t, param, chain, k + 1, u.put(url, param, chain[k].token), pages + 1,
                        bytes + Length(t(pages, url)), count + |chain[k].items|))
  {
    ChunksStep(u, t, param, chain, k, url, pages);
  }

  lemma NextAsks(u: Urls, base: string, param: string, chain: seq<Chunk>, url: string, k: nat)
    requires Sound(u) && k + 1 < |chain| && chain[k].token != ""
    ensures Asks(u, base, param, chain, u.put(url, param, chain[k].token), k + 1)
  {
  }

  /** What the walk from page `k` on should give. */
  ghost predicate Walked(u: Urls, t: Transport, param: string, chain: seq<Chunk>, k: nat, url: string, pages: nat,
                         bytes: nat, payloads: seq<Json>, w: Walk) {
    (w.result.Ok? <==> ChunksFit(u, t, param, chain, k, url, pages, bytes, |payloads|)) &&
    (w.result.Ok? ==> w.result.value == payloads + ItemsFrom(chain, k) && w.urls == TokenUrls(u, param, chain, k, url))
  }

  lemma WalkedStep(u: Urls, t: Transport, param: string, chain: seq<Chunk>, k: nat, url: string, pages: nat, bytes: nat,
                   payloads: seq<Json>, rest: Walk)
    requires k + 1 < |chain| && pages < 100 && bytes + Length(t(pages, url)) <= 67_108_864
    requires |payloads| + |chain[k].items| <= 50_000
    requires Walked(u, t, param, chain, k + 1, u.put(url, param, chain[k].token), pages + 1,
                    bytes + Length(t(pages, url)), payloads + chain[k].items, rest)
    ensures Walked(u, t, param, chain, k, url, pages, bytes, payloads, Later([url], rest))
  {
    ChunksStep(u, t, param, chain, k, url, pages);
    FitStep(u, t, param, chain, k, url, pages, bytes, |payloads|);
    assert payloads + chain[k].items + ItemsFrom(chain, k + 1) == payloads + ItemsFrom(chain, k);
  }

  /** The last page, or one that breaks a cap. */
  lemma WalkedEnd(u: Urls, t: Transport, param: string, chain: seq<Chunk>, k: nat, url: string, pages: nat, bytes: nat,
                  payloads: seq<Json>, w: Walk)
    requires k < |chain|
    requires var fits := pages < 100 && bytes + Length(t(pages, url)) <= 67_108_864 &&
                         |payloads| + |chain[k].items| <= 50_000;
             if fits then k + 1 == |chain| && w == Walk(Result.Ok(payloads + chain[k].items), [url])
             else w.result.Fail?
    ensures Walked(u, t, param, chain, k, url, pages, bytes, payloads, w)
  {
    ChunksStep(u, t, param, chain, k, url, pages);
    FitStep(u, t, param, chain, k, url, pages, bytes, |payloads|);
  }

  lemma WalkLast(t: Transport, spec: Spec, url: string, pages: nat, bytes: nat, payloads: seq<Json>, x: Taken)
    requires pages < MAX_PAGES && TakePage(t, spec, url, pages, bytes, |payloads|) == Result.Ok(x) && x.next == None
    ensures WalkFrom(t, spec, Some(url), pages, bytes, payloads) == Walk(Result.Ok(payloads + x.items), [url])
  {
    assert WalkFrom(t, spec, None, pages + 1, bytes + x.length, payloads + x.items) ==
           Walk(Result.Ok(payloads + x.items), []);
    assert [url] + [] == [url];
  }

  lemma {:induction false} WalkOverChunks(u: Urls, t: Transport, spec: Spec, base: string, param: string,
                                          tokenField: seq<string>, hasMore: Option<seq<string>>, chain: seq<Chunk>,
                                          k: nat, url: string, pages: nat, bytes: nat, payloads: seq<Json>)
    requires Sound(u) && ServesChunks(u, t, spec.items, base, param, tokenField, hasMore, chain)
    requires spec.nextUrl == PagerNext(u, PageToken(param, tokenField, hasMore))
    requires pages <= MAX_PAGES && Asks(u, base, param, chain, url, k)
    ensures Walked(u, t, param, chain, k, url, pages, bytes, payloads,
                   WalkFrom(t, spec, Some(url), pages, bytes, payloads))
    decreases MAX_PAGES - pages
  {
    var w := WalkFrom(t, spec, Some(url), pages, bytes, payloads);
    assert IsPage(t(pages, url), spec.items, tokenField, hasMore, chain, k);
    OneChunk(u, t, spec, param, tokenField, hasMore, chain, k, url, pages, bytes, |payloads|);
    var x := TakePage(t, spec, url, pages, bytes, |payloads|);
    if pages < MAX_PAGES && x.Ok? && k + 1 < |chain| {
      var next := u.put(url, param, chain[k].token);
      NextAsks(u, base, param, chain, url, k);
      WalkOverChunks(u, t, spec, base, param, tokenField, hasMore, chain, k + 1, next, pages + 1,
                     bytes + x.value.length, payloads + x.value.items);
      WalkedStep(u, t, param, chain, k, url, pages, bytes, payloads,
                 WalkFrom(t, spec, Some(next), pages + 1, bytes + x.value.length, payloads + x.value.items));
    } else {
      if pages < MAX_PAGES && x.Ok? { WalkLast(t, spec, url, pages, bytes, payloads, x.value); }
      WalkedEnd(u, t, param, chain, k, url, pages, bytes, payloads, w);
    }
  }

  /** Polling by page token returns every item of the chain, in order, exactly when it has at most a hundred pages and
      stays within the caps; each request carries the token of the page before. */
  lemma TokenPollIsComplete(u: Urls, t: Transport, base: string, items: Json -> Option<seq<Json>>, param: string,
                            tokenField: seq<string>, hasMore: Option<seq<string>>, chain: seq<Chunk>)
    requires Sound(u) && chain != [] && ServesChunks(u, t, items, base, param, tokenField, hasMore, chain)
    ensures var w := PollWalk(t, Spec(base, items, PagerNext(u, PageToken(param, tokenField, hasMore))));
            (w.result.Ok? <==>
              |chain| <= 100 && |ItemsFrom(chain, 0)| <= 50_000 &&
              ChunkBytes(u, t, param, chain, 0, base, 0) <= 67_108_864) &&
            (w.result.Ok? ==>
              w.result.value == ItemsFrom(chain, 0) && w.urls == TokenUrls(u, param, chain, 0, base))
  {
    var spec := Spec(base, items, PagerNext(u, PageToken(param, tokenField, hasMore)));
    WalkOverChunks(u, t, spec, base, param, tokenField, hasMore, chain, 0, base, 0, 0, []);
  }
}
