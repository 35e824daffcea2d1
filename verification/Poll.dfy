/** Paged polling: the walk, its caps, and the pagers that carry their position in the URL. */
module Poll {
  import opened Lru
  import opened JsonValue
  import opened UrlQuery
  import opened Decimals

  const MAX_PAGES := 100
  const MAX_TOTAL_ITEMS := 50_000
  const MAX_TOTAL_BYTES := 64 * 1024 * 1024

  datatype PollError = PollError(status: int, reason: string)

  datatype Result<+T> = Ok(value: T) | Fail(error: PollError)

  /** What the transport returns for a request, its body read as JSON where it is JSON. */
  datatype Fetched = TransportFault(error: PollError) | Response(status: int, length: nat, body: Option<Json>)

  /** The answer to the n-th request, which is for that URL. */
  type Transport = (nat, string) -> Fetched

  datatype Pager =
    | Single
    | PageToken(nextParam: string, tokenField: seq<string>, hasMoreField: Option<seq<string>>)
    | OffsetPager(offsetParam: string, limit: int, start: int)
    | PageNumberPager(pageParam: string, perPage: int, start: int)

  /** `next_url(current_url, page, item_count)` of whichever pager is configured. */
  type Next = (string, Json, nat) -> Result<Option<string>>

  datatype Spec = Spec(baseUrl: string, items: Json -> Option<seq<Json>>, nextUrl: Next)

  // ---------- Parameters of a URL ----------

  /** How parameters are read from and written into URLs, and integers from and into parameters. */
  datatype Urls = Urls(
    get: (string, string) -> Option<string>, put: (string, string, string) -> string,
    write: int -> string, read: string -> Option<int>)

  /** What was written is read back. */
  ghost predicate Sound(u: Urls) {
    (forall n {:trigger u.write(n)} :: u.write(n) != "" && u.read(u.write(n)) == Some(n)) &&
    forall url, param, value {:trigger u.put(url, param, value)} ::
      value != "" ==> u.get(u.put(url, param, value), param) == Some(value)
  }

  /** `_with_query_param`, `dict(parse_qsl(...)).get`, `str` and `int`. */
  const PythonUrls: Urls :=
    Urls((url, param) => Lookup(Params(url), param), (url, param, value) => WithParam(url, param, value),
         n => Decimal(n), text => ParseInt(text))

  lemma PythonUrlsAreSound()
    ensures Sound(PythonUrls)
  {
    forall n ensures PythonUrls.write(n) != "" && PythonUrls.read(PythonUrls.write(n)) == Some(n) {
      DecimalRoundTrip(n);
    }
    forall url, param, value | value != ""
      ensures PythonUrls.get(PythonUrls.put(url, param, value), param) == Some(value)
    {
      ParamIsSet(url, param, value, param);
    }
  }

  // ---------- One page ----------

  function FetchPage(f: Fetched): Result<(Json, nat)> {
    if f.TransportFault? then Fail(f.error)
    else if f.status != 200 then Fail(PollError(f.status, "unexpected_status_expected_200"))
    else if f.body.None? then Fail(PollError(0, "unparseable_body"))
    else if !f.body.value.Obj? && !f.body.value.Arr? then Fail(PollError(0, "non_object_body"))
    else Ok((f.body.value, f.length))
  }

  /** Walk a dotted path through nested objects; `Null` where a segment is missing. */
  function Dig(v: Json, path: seq<string>): Json
    decreases |path|
  {
    if path == [] then v
    else if !v.Obj? then Null
    else Dig(if path[0] in v.fields then v.fields[path[0]] else Null, path[1..])
  }

  predicate HasControl(s: string) {
    exists i :: 0 <= i < |s| && (s[i] as int < 0x20 || s[i] as int == 0x7F)
  }

  /** `int(query.get(param, start))`, or `start` where that is no integer. */
  function Position(u: Urls, url: string, param: string, start: int): int {
    match u.get(url, param)
    case None => start
    case Some(text) =>
      match u.read(text)
      case Some(n) => n
      case None => start
  }

  /** The URL with its position moved on. */
  function Advanced(u: Urls, url: string, param: string, start: int, step: int): string {
    u.put(url, param, u.write(Position(u, url, param, start) + step))
  }

  function NextUrl(u: Urls, pager: Pager, url: string, page: Json, count: nat): Result<Option<string>> {
    match pager
    case Single => Ok(None)
    case PageToken(param, tokenField, hasMore) =>
      var token := Dig(page, tokenField);
      if !page.Obj? || (hasMore.Some? && !Truthy(Dig(page, hasMore.value))) then Ok(None)
      else if !token.Str? || token.text == "" then Ok(None)
      else if HasControl(token.text) then Fail(PollError(0, "page_token_contains_control_char"))
      else Ok(Some(u.put(url, param, token.text)))
    case OffsetPager(param, limit, start) =>
      if count < limit then Ok(None)
      else Ok(Some(Advanced(u, url, param, start, limit)))
    case PageNumberPager(param, perPage, start) =>
      if count < perPage then Ok(None)
      else Ok(Some(Advanced(u, url, param, start, 1)))
  }

  // ---------- The walk ----------

  datatype Walk = Walk(result: Result<seq<Json>>, urls: seq<string>)

  /** A page that passed every check: its items, its size, and where to go next. */
  datatype Taken = Taken(items: seq<Json>, length: nat, next: Option<string>)

  /** One round of the loop, after `bytes` bytes and `count` items. */
  function TakePage(t: Transport, spec: Spec, url: string, pages: nat, bytes: nat, count: nat): Result<Taken> {
    match FetchPage(t(pages, url))
    case Fail(error) => Fail(error)
    case Ok((page, length)) =>
      if bytes + length > MAX_TOTAL_BYTES then Fail(PollError(0, "aggregate_bytes_exceeded"))
      else
        match spec.items(page)
        case None => Fail(PollError(0, "items_not_a_list"))
        case Some(items) =>
          if count + |items| > MAX_TOTAL_ITEMS then Fail(PollError(0, "aggregate_items_exceeded"))
          else
            match spec.nextUrl(url, page, |items|)
            case Fail(error) => Fail(error)
            case Ok(next) => Ok(Taken(items, length, next))
  }

  /** The rest of the walk after `pages` requests: its result, and the URLs it still asks for. */
  function WalkFrom(t: Transport, spec: Spec, url: Option<string>, pages: nat, bytes: nat, payloads: seq<Json>): Walk
    requires pages <= MAX_PAGES
    decreases MAX_PAGES - pages
  {
    if url == None then Walk(Ok(payloads), [])
    else if pages == MAX_PAGES then Walk(Fail(PollError(0, "max_pages_exceeded")), [])
    else
      match TakePage(t, spec, url.value, pages, bytes, |payloads|)
      case Fail(error) => Walk(Fail(error), [url.value])
      case Ok(x) => Later([url.value], WalkFrom(t, spec, x.next, pages + 1, bytes + x.length, payloads + x.items))
  }

  function Later(urls: seq<string>, rest: Walk): Walk { Walk(rest.result, urls + rest.urls) }

  lemma LaterLater(a: seq<string>, b: seq<string>, rest: Walk)
    ensures Later(a, Later(b, rest)) == Later(a + b, rest)
  {
    assert a + (b + rest.urls) == a + b + rest.urls;
  }

  /** One round, as the loop sees it. */
  lemma TakenStep(t: Transport, spec: Spec, url: string, pages: nat, bytes: nat, payloads: seq<Json>, urls: seq<string>)
    requires pages < MAX_PAGES
    ensures Later(urls, WalkFrom(t, spec, Some(url), pages, bytes, payloads)) ==
      match TakePage(t, spec, url, pages, bytes, |payloads|)
      case Fail(error) => Walk(Fail(error), urls + [url])
      case Ok(x) => Later(urls + [url], WalkFrom(t, spec, x.next, pages + 1, bytes + x.length, payloads + x.items))
  {
    var x := TakePage(t, spec, url, pages, bytes, |payloads|);
    if x.Ok? {
      LaterLater(urls, [url],
        WalkFrom(t, spec, x.value.next, pages + 1, bytes + x.value.length, payloads + x.value.items));
    }
  }

  function PollWalk(t: Transport, spec: Spec): Walk { WalkFrom(t, spec, Some(spec.baseUrl), 0, 0, []) }

  /** At most a hundred requests, whatever the server answers. */
  lemma {:induction false} AtMostHundred(t: Transport, spec: Spec, url: Option<string>, pages: nat, bytes: nat,
                                         payloads: seq<Json>)
    requires pages <= MAX_PAGES
    ensures |WalkFrom(t, spec, url, pages, bytes, payloads).urls| <= MAX_PAGES - pages
    decreases MAX_PAGES - pages
  {
    if url != None && pages < MAX_PAGES {
      var x := TakePage(t, spec, url.value, pages, bytes, |payloads|);
      if x.Ok? {
        AtMostHundred(t, spec, x.value.next, pages + 1, bytes + x.value.length, payloads + x.value.items);
      }
    }
  }

  // ---------- Delivery ----------

  /** What the connector makes of one row: observations, an exception that skips the row, or another one. */
  datatype Row<O> = Parsed(observations: seq<O>) | Skipped | Raised(error: PollError)

  datatype Connector<!O, !E> = Connector(observations: Json -> Row<O>, normalize: seq<O> -> Result<seq<E>>)

  class CollectingSink<E> {
    var emissions: seq<E>
    /** The calls so far. */
    ghost var calls: seq<seq<E>>

    constructor ()
      ensures emissions == [] && calls == []
    {
      emissions, calls := [], [];
    }

    method Emit(batch: seq<E>)
      modifies this
      ensures emissions == old(emissions) + batch && calls == old(calls) + [batch]
    {
      emissions, calls := emissions + batch, calls + [batch];
    }
  }

  /** The observations of all rows that parse, unless a row raises something that is not skipped. */
  function Extracted<O, E>(connector: Connector<O, E>, payloads: seq<Json>): Result<seq<O>> {
    if payloads == [] then Ok([])
    else
      match connector.observations(payloads[0])
      case Raised(error) => Fail(error)
      case Skipped => Extracted(connector, payloads[1..])
      case Parsed(obs) => Before(obs, Extracted(connector, payloads[1..]))
  }

  function Before<O>(done: seq<O>, rest: Result<seq<O>>): Result<seq<O>> {
    if rest.Fail? then rest else Ok(done + rest.value)
  }

  lemma BeforeBefore<O>(a: seq<O>, b: seq<O>, rest: Result<seq<O>>)
    ensures Before(a, Before(b, rest)) == Before(a + b, rest)
    ensures Before([], rest) == rest && Before(a, Ok([])) == Ok(a)
  {
    assert a + [] == a;
    if rest.Ok? { assert a + (b + rest.value) == a + b + rest.value && [] + rest.value == rest.value; }
  }

  /** The one batch handed to the sink, if any. */
  function Batch<O(==), E>(connector: Connector<O, E>, payloads: seq<Json>): Result<Option<seq<E>>> {
    match Extracted(connector, payloads)
    case Fail(error) => Fail(error)
    case Ok(obs) =>
      if obs == [] then Ok(None)
      else
        match connector.normalize(obs)
        case Fail(error) => Fail(error)
        case Ok(emissions) => Ok(Some(emissions))
  }

  method DeliverPoll<O(==), E>(connector: Connector<O, E>, payloads: seq<Json>, sink: CollectingSink<E>)
    returns (r: Result<nat>)
    modifies sink
    ensures match Batch(connector, payloads)
      case Fail(error) => r == Fail(error) && sink.calls == old(sink.calls) && sink.emissions == old(sink.emissions)
      case Ok(None) => r == Ok(0) && sink.calls == old(sink.calls) && sink.emissions == old(sink.emissions)
      case Ok(Some(batch)) =>
        r == Ok(|batch|) && sink.calls == old(sink.calls) + [batch] && sink.emissions == old(sink.emissions) + batch
  {
    var observations: seq<O> := [];
    var i := 0;
    assert payloads[0..] == payloads;
    BeforeBefore([], [], Extracted(connector, payloads));
    while i < |payloads|
      modifies {}
      invariant i <= |payloads|
      invariant Extracted(connector, payloads) == Before(observations, Extracted(connector, payloads[i..]))
    {
      assert payloads[i..][1..] == payloads[i + 1..];
      match connector.observations(payloads[i]) {
        case Raised(error) => return Fail(error);
        case Skipped =>
        case Parsed(obs) =>
          BeforeBefore(observations, obs, Extracted(connector, payloads[i + 1..]));
          observations := observations + obs;
      }
      i := i + 1;
    }
    BeforeBefore(observations, [], Ok([]));
    if observations == [] {
      return Ok(0);
    }
    match connector.normalize(observations) {
      case Fail(error) => r := Fail(error);
      case Ok(emissions) =>
        sink.Emit(emissions);
        r := Ok(|emissions|);
    }
  }

  // ---------- poll ----------

  /** Walk, then deliver everything at once; `requested` lists the URLs asked for. */
  method PollAndDeliver<O(==), E>(connector: Connector<O, E>, spec: Spec, t: Transport, sink: CollectingSink<E>)
    returns (r: Result<nat>, requested: seq<string>)
    modifies sink
    ensures requested == PollWalk(t, spec).urls
    ensures match PollWalk(t, spec).result
      case Fail(error) => r == Fail(error) && sink.calls == old(sink.calls) && sink.emissions == old(sink.emissions)
      case Ok(payloads) =>
        match Batch(connector, payloads)
        case Fail(error) => r == Fail(error) && sink.calls == old(sink.calls) && sink.emissions == old(sink.emissions)
        case Ok(None) => r == Ok(0) && sink.calls == old(sink.calls) && sink.emissions == old(sink.emissions)
        case Ok(Some(batch)) =>
          r == Ok(|batch|) && sink.calls == old(sink.calls) + [batch] && sink.emissions == old(sink.emissions) + batch
  {
    var payloads: Result<seq<Json>>;
    payloads, requested := FetchAll(spec, t);
    if payloads.Fail? {
      return Fail(payloads.error), requested;
    }
    r := DeliverPoll(connector, payloads.value, sink);
  }

  method FetchAll(spec: Spec, t: Transport) returns (r: Result<seq<Json>>, requested: seq<string>)
    ensures Walk(r, requested) == PollWalk(t, spec)
  {
    var payloads: seq<Json> := [];
    requested := [];
    var url := Some(spec.baseUrl);
    var pages: nat, totalBytes: nat := 0, 0;
    while url != None
      invariant pages <= MAX_PAGES
      invariant PollWalk(t, spec) == Later(requested, WalkFrom(t, spec, url, pages, totalBytes, payloads))
      decreases MAX_PAGES - pages, url != None
    {
      if pages + 1 > MAX_PAGES {
        return Fail(PollError(0, "max_pages_exceeded")), requested;
      }
      TakenStep(t, spec, url.value, pages, totalBytes, payloads, requested);
      requested := requested + [url.value];
      var taken := FetchChecked(spec, t, url.value, pages, totalBytes, |payloads|);
      pages := pages + 1;
      if taken.Fail? {
        return Fail(taken.error), requested;
      }
      totalBytes, payloads := totalBytes + taken.value.length, payloads + taken.value.items;
      url := taken.value.next;
    }
    r := Ok(payloads);
  }

  /** Fetch, then the byte cap, the items, the item cap, the next URL. */
  method FetchChecked(spec: Spec, t: Transport, url: string, pages: nat, bytes: nat, count: nat)
    returns (r: Result<Taken>)
    ensures r == TakePage(t, spec, url, pages, bytes, count)
  {
    var fetched := FetchPage(t(pages, url));
    if fetched.Fail? {
      return Fail(fetched.error);
    }
    var (page, length) := fetched.value;
    if bytes + length > MAX_TOTAL_BYTES {
      return Fail(PollError(0, "aggregate_bytes_exceeded"));
    }
    var items := spec.items(page);
    if items.None? {
      return Fail(PollError(0, "items_not_a_list"));
    }
    if count + |items.value| > MAX_TOTAL_ITEMS {
      return Fail(PollError(0, "aggregate_items_exceeded"));
    }
    var next := spec.nextUrl(url, page, |items.value|);
    r := if next.Fail? then Fail(next.error) else Ok(Taken(items.value, length, next.value));
  }
}
