/** The GraphQL walk: a cursor in the request body, cyclic cursors refused, pages and items capped. */
module GraphQlPoll {
  import opened Lru
  import opened JsonValue
  import opened Poll

  const MAX_RESPONSE := 8 * 1024 * 1024

  /** The answer to the n-th request, which asks for the page after that cursor. */
  type CursorTransport = (nat, Option<string>) -> Fetched

  datatype Query<!O> = Query(nodesPath: seq<string>, pageInfoPath: seq<string>, parse: map<string, Json> -> Result<O>)

  // ---------- One page ----------

  /** Cap, parse, require an object. */
  function ParseBody(length: nat, body: Option<Json>): Result<map<string, Json>> {
    if length > MAX_RESPONSE then Fail(PollError(0, "oversized_body"))
    else if body.None? then Fail(PollError(0, "unparseable_body"))
    else if !body.value.Obj? then Fail(PollError(0, "non_object_body"))
    else Ok(body.value.fields)
  }

  predicate RateLimited(errors: Json) {
    errors.Arr? &&
    exists i :: 0 <= i < |errors.items| && errors.items[i].Obj? &&
      Get(errors.items[i].fields, "code") == Str("RATELIMITED")
  }

  function DecodePage(status: int, length: nat, body: Option<Json>): Result<map<string, Json>> {
    var parsed := ParseBody(length, body);
    if status == 400 then
      if parsed.Ok? && RateLimited(Get(parsed.value, "errors")) then Fail(PollError(0, "rate_limited"))
      else Fail(PollError(400, "http_error"))
    else if status != 200 then Fail(PollError(status, "http_error"))
    else if parsed.Fail? then parsed
    else if Truthy(Get(parsed.value, "errors")) then Fail(PollError(0, "graphql_errors"))
    else if !Get(parsed.value, "data").Obj? then Fail(PollError(0, "missing_data"))
    else parsed
  }

  /** Stop unless there is a next page and a usable cursor to it. */
  function NextCursor(page: Json, path: seq<string>): Result<Option<string>> {
    var info := Dig(page, path);
    if !info.Obj? || Get(info.fields, "hasNextPage") != Bool(true) then Ok(None)
    else
      var cursor := Get(info.fields, "endCursor");
      if !cursor.Str? || cursor.text == "" then Ok(None)
      else if HasControl(cursor.text) then Fail(PollError(0, "graphql_cursor_contains_control_char"))
      else Ok(Some(cursor.text))
  }

  /** The nodes that are objects, parsed. */
  function ParsedNodes<O>(q: Query<O>, nodes: seq<Json>): Result<seq<O>> {
    if nodes == [] then Ok([])
    else if !nodes[0].Obj? then ParsedNodes(q, nodes[1..])
    else
      match q.parse(nodes[0].fields)
      case Fail(error) => Fail(error)
      case Ok(o) => Before([o], ParsedNodes(q, nodes[1..]))
  }

  datatype Round<O> = Round(observations: seq<O>, length: nat, next: Option<string>)

  /** One round of the loop, after `bytes` bytes and `count` observations. */
  function TakeRound<O>(q: Query<O>, f: Fetched, bytes: nat, count: nat): Result<Round<O>> {
    if f.TransportFault? then Fail(f.error)
    else if bytes + f.length > MAX_TOTAL_BYTES then Fail(PollError(0, "aggregate_bytes_exceeded"))
    else
      match DecodePage(f.status, f.length, f.body)
      case Fail(error) => Fail(error)
      case Ok(page) =>
        var nodes := Dig(Obj(page), q.nodesPath);
        if !nodes.Arr? then Fail(PollError(0, "nodes_not_a_list"))
        else
          match ParsedNodes(q, nodes.items)
          case Fail(error) => Fail(error)
          case Ok(obs) =>
            if count + |obs| > MAX_TOTAL_ITEMS then Fail(PollError(0, "aggregate_items_exceeded"))
            else
              match NextCursor(Obj(page), q.pageInfoPath)
              case Fail(error) => Fail(error)
              case Ok(next) => Ok(Round(obs, f.length, next))
  }

  // ---------- The walk ----------

  /** The outcome of the n-th round, for that cursor, after so many bytes and observations. */
  type Rounds<!O> = (nat, Option<string>, nat, nat) -> Result<Round<O>>

  function RoundsOf<O>(t: CursorTransport, q: Query<O>): Rounds<O> {
    (n: nat, cursor: Option<string>, bytes: nat, count: nat) => TakeRound(q, t(n, cursor), bytes, count)
  }

  datatype CursorWalk<O> = CursorWalk(result: Result<seq<O>>, cursors: seq<Option<string>>)

  function LaterCursors<O>(cursors: seq<Option<string>>, rest: CursorWalk<O>): CursorWalk<O> {
    CursorWalk(rest.result, cursors + rest.cursors)
  }

  /** The rest of the walk after `n` requests: after a hundred, it stops with what it has. */
  function CursorWalkFrom<O>(rounds: Rounds<O>, cursor: Option<string>, seen: set<string>,
                             n: nat, bytes: nat, obs: seq<O>): CursorWalk<O>
    requires n <= MAX_PAGES
    decreases MAX_PAGES - n
  {
    if n == MAX_PAGES then CursorWalk(Ok(obs), [])
    else
      match rounds(n, cursor, bytes, |obs|)
      case Fail(error) => CursorWalk(Fail(error), [cursor])
      case Ok(x) =>
        if x.next == None then CursorWalk(Ok(obs + x.observations), [cursor])
        else if x.next.value in seen then CursorWalk(Fail(PollError(0, "circular_cursor")), [cursor])
        else
          LaterCursors([cursor],
            CursorWalkFrom(rounds, x.next, seen + {x.next.value}, n + 1, bytes + x.length, obs + x.observations))
  }

  function GraphQlWalk<O>(t: CursorTransport, q: Query<O>): CursorWalk<O> {
    CursorWalkFrom(RoundsOf(t, q), None, {}, 0, 0, [])
  }

  lemma LaterLaterCursors<O>(a: seq<Option<string>>, b: seq<Option<string>>, rest: CursorWalk<O>)
    ensures LaterCursors(a, LaterCursors(b, rest)) == LaterCursors(a + b, rest)
  {
    assert a + (b + rest.cursors) == a + b + rest.cursors;
  }

  /** One round, as the loop sees it. */
  lemma RoundStep<O>(rounds: Rounds<O>, cursor: Option<string>, seen: set<string>, n: nat, bytes: nat,
                     obs: seq<O>, before: seq<Option<string>>)
    requires n < MAX_PAGES
    ensures LaterCursors(before, CursorWalkFrom(rounds, cursor, seen, n, bytes, obs)) ==
      match rounds(n, cursor, bytes, |obs|)
      case Fail(error) => CursorWalk(Fail(error), before + [cursor])
      case Ok(x) =>
        if x.next == None then CursorWalk(Ok(obs + x.observations), before + [cursor])
        else if x.next.value in seen then CursorWalk(Fail(PollError(0, "circular_cursor")), before + [cursor])
        else
          LaterCursors(before + [cursor],
            CursorWalkFrom(rounds, x.next, seen + {x.next.value}, n + 1, bytes + x.length, obs + x.observations))
  {
    var x := rounds(n, cursor, bytes, |obs|);
    if x.Ok? && x.value.next.Some? && x.value.next.value !in seen {
      LaterLaterCursors(before, [cursor],
        CursorWalkFrom(rounds, x.value.next, seen + {x.value.next.value}, n + 1, bytes + x.value.length,
                       obs + x.value.observations));
    }
  }

  /** The loop, over the outcomes of its rounds. */
  method FetchRounds<O>(rounds: Rounds<O>, ghost walk: CursorWalk<O>)
    returns (r: Result<seq<O>>, requested: seq<Option<string>>)
    requires walk == CursorWalkFrom(rounds, None, {}, 0, 0, [])
    ensures CursorWalk(r, requested) == walk
  {
    var observations: seq<O> := [];
    var cursor: Option<string> := None;
    var seenCursors: set<string> := {};
    var totalBytes: nat := 0;
    requested := [];
    for n: nat := 0 to MAX_PAGES
      invariant walk == LaterCursors(requested,
                  CursorWalkFrom(rounds, cursor, seenCursors, n, totalBytes, observations))
    {
      RoundStep(rounds, cursor, seenCursors, n, totalBytes, observations, requested);
      requested := requested + [cursor];
      var round := rounds(n, cursor, totalBytes, |observations|);
      if round.Fail? {
        return Fail(round.error), requested;
      }
      observations := observations + round.value.observations;
      totalBytes := totalBytes + round.value.length;
      if round.value.next.None? {
        return Ok(observations), requested;
      }
      if round.value.next.value in seenCursors {
        return Fail(PollError(0, "circular_cursor")), requested;
      }
      cursor := round.value.next;
      seenCursors := seenCursors + {cursor.value};
    }
    r := Ok(observations);
  }

  /** Walk, then normalize and emit everything at once; a failure leaves the sink untouched. */
  method PollGraphQl<O(==), E>(q: Query<O>, t: CursorTransport, normalize: seq<O> -> Result<seq<E>>,
                               sink: CollectingSink<E>)
    returns (r: Result<nat>, requested: seq<Option<string>>)
    modifies sink
    ensures requested == GraphQlWalk(t, q).cursors
    ensures match GraphQlWalk(t, q).result
      case Fail(error) => r == Fail(error) && sink.calls == old(sink.calls) && sink.emissions == old(sink.emissions)
      case Ok(obs) =>
        if obs == [] then r == Ok(0) && sink.calls == old(sink.calls) && sink.emissions == old(sink.emissions)
        else
          match normalize(obs)
          case Fail(error) => r == Fail(error) && sink.calls == old(sink.calls) && sink.emissions == old(sink.emissions)
          case Ok(batch) =>
            r == Ok(|batch|) && sink.calls == old(sink.calls) + [batch] && sink.emissions == old(sink.emissions) + batch
  {
    var obs: Result<seq<O>>;
    obs, requested := FetchRounds(RoundsOf(t, q), GraphQlWalk(t, q));
    if obs.Fail? {
      return Fail(obs.error), requested;
    }
    if obs.value == [] {
      return Ok(0), requested;
    }
    match normalize(obs.value) {
      case Fail(error) => r := Fail(error);
      case Ok(batch) =>
        sink.Emit(batch);
        r := Ok(|batch|);
    }
  }

  // ---------- No page is asked for twice ----------

  lemma {:induction false} CursorsAreDistinct<O>(rounds: Rounds<O>, cursor: Option<string>, seen: set<string>,
                                                 n: nat, bytes: nat, obs: seq<O>)
    requires n <= MAX_PAGES && (cursor.Some? ==> cursor.value in seen)
    ensures var cs := CursorWalkFrom(rounds, cursor, seen, n, bytes, obs).cursors;
            |cs| <= MAX_PAGES - n && (cs != [] ==> cs[0] == cursor) &&
            (forall i :: 1 <= i < |cs| ==> cs[i].Some? && cs[i].value !in seen) &&
            (forall i, j :: 0 <= i < j < |cs| ==> cs[i] != cs[j])
    decreases MAX_PAGES - n
  {
    if n < MAX_PAGES {
      var x := rounds(n, cursor, bytes, |obs|);
      if x.Ok? && x.value.next.Some? && x.value.next.value !in seen {
        CursorsAreDistinct(rounds, x.value.next, seen + {x.value.next.value}, n + 1, bytes + x.value.length,
                           obs + x.value.observations);
      }
    }
  }

  /** Requested cursors are pairwise distinct, and there are at most a hundred. */
  lemma WalkNeverRepeats<O>(t: CursorTransport, q: Query<O>)
    ensures var cs := GraphQlWalk(t, q).cursors;
            |cs| <= MAX_PAGES && forall i, j :: 0 <= i < j < |cs| ==> cs[i] != cs[j]
  {
    CursorsAreDistinct(RoundsOf(t, q), None, {}, 0, 0, []);
  }

  // ---------- A finite chain of pages ----------

  /** A page of the server: the cursor that asks for it, what its nodes parse to, its size. */
  datatype Link<O> = Link(cursor: Option<string>, observations: seq<O>, length: nat)

  function NextLink<O>(chain: seq<Link<O>>, i: nat): Option<string> {
    if i + 1 < |chain| then chain[i + 1].cursor else None
  }

  /** Within the caps, a request for a page of the chain gets that page, with the cursor of the next. */
  ghost predicate ServesChain<O>(rounds: Rounds<O>, chain: seq<Link<O>>) {
    forall n: nat, i: nat, bytes: nat, count: nat {:trigger rounds(n, chain[i].cursor, bytes, count)} ::
      i < |chain| && bytes + chain[i].length <= MAX_TOTAL_BYTES &&
      count + |chain[i].observations| <= MAX_TOTAL_ITEMS ==>
        rounds(n, chain[i].cursor, bytes, count) ==
          Ok(Round(chain[i].observations, chain[i].length, NextLink(chain, i)))
  }

  /** Acyclic: after the first page, each has a cursor of its own. */
  ghost predicate Acyclic<O>(chain: seq<Link<O>>) {
    chain != [] && (forall i :: 1 <= i < |chain| ==> chain[i].cursor.Some?) &&
    forall i, j :: 0 <= i < j < |chain| ==> chain[i].cursor != chain[j].cursor
  }

  function Observed<O>(chain: seq<Link<O>>): seq<O> {
    if chain == [] then [] else chain[0].observations + Observed(chain[1..])
  }

  function Size<O>(chain: seq<Link<O>>): nat {
    if chain == [] then 0 else chain[0].length + Size(chain[1..])
  }

  function SeenUpTo<O>(chain: seq<Link<O>>, i: nat): set<string> {
    set k | 0 <= k <= i && k < |chain| && chain[k].cursor.Some? :: chain[k].cursor.value
  }

  lemma SeenNext<O>(chain: seq<Link<O>>, i: nat)
    requires Acyclic(chain) && i + 1 < |chain|
    ensures SeenUpTo(chain, i + 1) == SeenUpTo(chain, i) + {chain[i + 1].cursor.value}
    ensures chain[i + 1].cursor.value !in SeenUpTo(chain, i)
  {
  }

  function First(a: nat, b: nat): nat { if a <= b then a else b }

  /** At most `left` links from the i-th on. */
  function Window<O>(chain: seq<Link<O>>, i: nat, left: nat): seq<Link<O>>
    requires i <= |chain|
  {
    chain[i..First(|chain|, i + left)]
  }

  lemma WindowStep<O>(chain: seq<Link<O>>, i: nat, left: nat)
    requires i < |chain| && left > 0
    ensures var rest := Window(chain, i + 1, left - 1);
            Window(chain, i, left) == [chain[i]] + rest &&
            Observed(Window(chain, i, left)) == chain[i].observations + Observed(rest) &&
            Size(Window(chain, i, left)) == chain[i].length + Size(rest)
  {
    var rest := Window(chain, i + 1, left - 1);
    assert Window(chain, i, left) == [chain[i]] + rest;
    assert ([chain[i]] + rest)[1..] == rest;
  }

  /** The walk yields those links: their observations, their cursors. */
  ghost predicate Yields<O>(w: CursorWalk<O>, obs: seq<O>, links: seq<Link<O>>) {
    w.result == Ok(obs + Observed(links)) && |w.cursors| == |links| &&
    forall k :: 0 <= k < |links| ==> w.cursors[k] == links[k].cursor
  }

  lemma YieldsMore<O>(w: CursorWalk<O>, obs: seq<O>, x: Link<O>, rest: seq<Link<O>>, all: seq<Link<O>>)
    requires Yields(w, obs + x.observations, rest) && all == [x] + rest &&
             Observed(all) == x.observations + Observed(rest)
    ensures Yields(LaterCursors([x.cursor], w), obs, all)
  {
    assert obs + x.observations + Observed(rest) == obs + Observed(all);
  }

  lemma {:induction false} ChainWalk<O>(rounds: Rounds<O>, chain: seq<Link<O>>, i: nat, n: nat, bytes: nat, obs: seq<O>)
    requires ServesChain(rounds, chain) && Acyclic(chain) && i < |chain| && n <= MAX_PAGES
    requires bytes + Size(Window(chain, i, MAX_PAGES - n)) <= MAX_TOTAL_BYTES
    requires |obs| + |Observed(Window(chain, i, MAX_PAGES - n))| <= MAX_TOTAL_ITEMS
    ensures Yields(CursorWalkFrom(rounds, chain[i].cursor, SeenUpTo(chain, i), n, bytes, obs), obs,
                   Window(chain, i, MAX_PAGES - n))
    decreases MAX_PAGES - n
  {
    if n == MAX_PAGES {
      assert obs + Observed(Window(chain, i, 0)) == obs;
    } else {
      var x, rest := chain[i], Window(chain, i + 1, MAX_PAGES - n - 1);
      WindowStep(chain, i, MAX_PAGES - n);
      assert rounds(n, chain[i].cursor, bytes, |obs|) == Ok(Round(x.observations, x.length, NextLink(chain, i)));
      if i + 1 < |chain| {
        SeenNext(chain, i);
        ChainWalk(rounds, chain, i + 1, n + 1, bytes + x.length, obs + x.observations);
        YieldsMore(
          CursorWalkFrom(rounds, chain[i + 1].cursor, SeenUpTo(chain, i + 1), n + 1, bytes + x.length,
                         obs + x.observations),
          obs, x, rest, Window(chain, i, MAX_PAGES - n));
      } else {
        assert rest == [] && Observed(Window(chain, i, MAX_PAGES - n)) == x.observations;
      }
    }
  }

  lemma ChainFromStart<O>(rounds: Rounds<O>, chain: seq<Link<O>>, n: nat)
    requires ServesChain(rounds, chain) && Acyclic(chain) && chain[0].cursor == None && n == 0
    requires Size(Window(chain, 0, MAX_PAGES)) <= MAX_TOTAL_BYTES
    requires |Observed(Window(chain, 0, MAX_PAGES))| <= MAX_TOTAL_ITEMS
    ensures Yields(CursorWalkFrom(rounds, None, {}, n, 0, []), [], Window(chain, 0, MAX_PAGES))
  {
    assert SeenUpTo(chain, 0) == {};
    ChainWalk(rounds, chain, 0, n, 0, []);
  }
}
