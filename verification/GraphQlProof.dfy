/** The GraphQL walk against a server, in terms of the JSON it answers with. */
module GraphQlProof {
  import opened Lru
  import opened JsonValue
  import opened Poll
  import opened GraphQlPoll

  // ---------- Paths ----------

  /** `path` leads from `v` through objects to `w`, by way of `steps`. */
  ghost predicate LeadsBy(v: Json, path: seq<string>, w: Json, steps: seq<Json>) {
    |steps| == |path| + 1 && steps[0] == v && steps[|path|] == w &&
    forall i :: 0 <= i < |path| ==>
      steps[i].Obj? && path[i] in steps[i].fields && steps[i].fields[path[i]] == steps[i + 1]
  }

  ghost predicate Leads(v: Json, path: seq<string>, w: Json) {
    exists steps :: LeadsBy(v, path, w, steps)
  }

  lemma {:induction false} LeadsFinds(v: Json, path: seq<string>, w: Json, steps: seq<Json>)
    requires LeadsBy(v, path, w, steps)
    ensures Dig(v, path) == w
    decreases |path|
  {
    if path != [] {
      assert steps[0].Obj? && path[0] in steps[0].fields && steps[0].fields[path[0]] == steps[1];
      LeadsFinds(steps[1], path[1..], w, steps[1..]);
    }
  }

  lemma {:induction false} FoundLeads(v: Json, path: seq<string>) returns (steps: seq<Json>)
    requires Dig(v, path) != Null
    ensures LeadsBy(v, path, Dig(v, path), steps)
    decreases |path|
  {
    if path == [] {
      steps := [v];
    } else {
      NullLeadsNowhere(path[1..]);
      var rest := FoundLeads(v.fields[path[0]], path[1..]);
      steps := [v] + rest;
    }
  }

  lemma NullLeadsNowhere(path: seq<string>)
    ensures Dig(Null, path) == Null
  {
  }

  lemma DigExactly(v: Json, path: seq<string>, w: Json)
    requires w != Null
    ensures Dig(v, path) == w <==> Leads(v, path, w)
  {
    if Dig(v, path) == w { var steps := FoundLeads(v, path); }
    if steps :| LeadsBy(v, path, w, steps) { LeadsFinds(v, path, w, steps); }
  }

  // ---------- What a page says ----------

  /** The objects among the nodes, wherever they stand, parse to `obs`, in order. */
  ghost predicate ParseTo<O>(q: Query<O>, nodes: seq<Json>, at: seq<nat>, obs: seq<O>) {
    |at| == |obs| && (forall k, l :: 0 <= k < l < |at| ==> at[k] < at[l]) &&
    (forall k :: 0 <= k < |at| ==>
      at[k] < |nodes| && nodes[at[k]].Obj? && q.parse(nodes[at[k]].fields) == Ok(obs[k])) &&
    forall n: nat :: n < |nodes| && nodes[n].Obj? ==> n in at
  }

  /** There is a next page, and `cursor` asks for it. */
  ghost predicate GoesOn(page: Json, path: seq<string>, cursor: string) {
    cursor != "" && exists info ::
      Leads(page, path, Obj(info)) && "hasNextPage" in info && info["hasNextPage"] == Bool(true) &&
      "endCursor" in info && info["endCursor"] == Str(cursor)
  }

  ghost predicate Printable(s: string) {
    forall i :: 0 <= i < |s| ==> s[i] >= ' ' && s[i] as int != 127
  }

  /** The page info names `next`, or, for no next page, does not say both that there is one and how to ask for it. */
  ghost predicate Announces(page: Json, path: seq<string>, next: Option<string>) {
    match next
    case Some(cursor) => GoesOn(page, path, cursor) && Printable(cursor)
    case None => forall cursor :: !GoesOn(page, path, cursor)
  }

  /** No errors are reported: nothing, or something Python takes for false. */
  ghost predicate NoErrors(page: map<string, Json>) {
    "errors" in page ==>
      page["errors"] in {Null, Bool(false), Int(0), Float(0.0), Str(""), Arr([]), Obj(map[])}
  }

  /** A good answer: status 200, within the cap, no errors, a data object, a list of nodes that parse to `obs`, and
      the cursor of the next page. */
  ghost predicate Answers<O>(q: Query<O>, f: Fetched, obs: seq<O>, length: nat, next: Option<string>) {
    f.Response? && f.status == 200 && f.length == length <= 8_388_608 && f.body.Some? && f.body.value.Obj? &&
    var page := f.body.value.fields;
    NoErrors(page) && "data" in page && page["data"].Obj? && Announces(Obj(page), q.pageInfoPath, next) &&
    exists nodes, at :: Leads(Obj(page), q.nodesPath, Arr(nodes)) && ParseTo(q, nodes, at, obs)
  }

  // ---------- A round, exactly ----------

  lemma {:induction false} NodesParse<O>(q: Query<O>, nodes: seq<Json>) returns (at: seq<nat>)
    requires ParsedNodes(q, nodes).Ok?
    ensures ParseTo(q, nodes, at, ParsedNodes(q, nodes).value)
  {
    at := [];
    if nodes != [] {
      var rest := NodesParse(q, nodes[1..]);
      if nodes[0].Obj? {
        at := [0] + Moved(rest);
        PlaceFirst(q, nodes, rest, q.parse(nodes[0].fields).value, ParsedNodes(q, nodes[1..]).value);
      } else {
        at := Moved(rest);
        PlaceSkipped(q, nodes, rest, ParsedNodes(q, nodes).value);
      }
    }
  }

  function Moved(at: seq<nat>): seq<nat> { seq(|at|, k requires 0 <= k < |at| => at[k] + 1) }

  lemma InMoved(at: seq<nat>, n: nat)
    requires n in at
    ensures n + 1 in Moved(at)
  {
    var k :| 0 <= k < |at| && at[k] == n;
    assert Moved(at)[k] == n + 1;
  }

  lemma PlaceSkipped<O>(q: Query<O>, nodes: seq<Json>, rest: seq<nat>, obs: seq<O>)
    requires nodes != [] && !nodes[0].Obj? && ParseTo(q, nodes[1..], rest, obs)
    ensures ParseTo(q, nodes, Moved(rest), obs)
  {
    forall n: nat | n < |nodes| && nodes[n].Obj? ensures n in Moved(rest) {
      assert nodes[n] == nodes[1..][n - 1];
      InMoved(rest, n - 1);
    }
  }

  lemma PlaceFirst<O>(q: Query<O>, nodes: seq<Json>, rest: seq<nat>, o: O, obs: seq<O>)
    requires nodes != [] && nodes[0].Obj? && q.parse(nodes[0].fields) == Ok(o) && ParseTo(q, nodes[1..], rest, obs)
    ensures ParseTo(q, nodes, [0] + Moved(rest), [o] + obs)
  {
    var at, all := [0] + Moved(rest), [o] + obs;
    forall k | 0 <= k < |at|
      ensures at[k] < |nodes| && nodes[at[k]].Obj? && q.parse(nodes[at[k]].fields) == Ok(all[k])
    {
      if k > 0 { assert at[k] == rest[k - 1] + 1 && nodes[at[k]] == nodes[1..][rest[k - 1]]; }
    }
    forall n: nat | n < |nodes| && nodes[n].Obj? ensures n in at {
      if n > 0 {
        assert nodes[n] == nodes[1..][n - 1];
        InMoved(rest, n - 1);
      } else {
        assert at[0] == 0;
      }
    }
  }

  /** There is only one way to parse the nodes. */
  lemma {:induction false} ParsesOnce<O>(q: Query<O>, nodes: seq<Json>, at: seq<nat>, obs: seq<O>)
    requires ParseTo(q, nodes, at, obs)
    ensures ParsedNodes(q, nodes) == Ok(obs)
    decreases nodes
  {
    if nodes == [] {
      assert obs == [];
    } else if nodes[0].Obj? {
      FirstPlace(q, nodes, at, obs);
      ParsesOnce(q, nodes[1..], Back(at[1..]), obs[1..]);
      FirstParsed(q, nodes, obs);
    } else {
      TailParses(q, nodes, at, obs);
      ParsesOnce(q, nodes[1..], Back(at), obs);
    }
  }

  lemma FirstParsed<O>(q: Query<O>, nodes: seq<Json>, obs: seq<O>)
    requires nodes != [] && nodes[0].Obj? && obs != [] && q.parse(nodes[0].fields) == Ok(obs[0])
    requires ParsedNodes(q, nodes[1..]) == Ok(obs[1..])
    ensures ParsedNodes(q, nodes) == Ok(obs)
  {
    assert [obs[0]] + obs[1..] == obs;
  }

  function Back(at: seq<nat>): seq<nat> {
    seq(|at|, k requires 0 <= k < |at| => if at[k] == 0 then 0 else at[k] - 1)
  }

  lemma FirstPlace<O>(q: Query<O>, nodes: seq<Json>, at: seq<nat>, obs: seq<O>)
    requires ParseTo(q, nodes, at, obs) && nodes != [] && nodes[0].Obj?
    ensures at != [] && at[0] == 0 && q.parse(nodes[0].fields) == Ok(obs[0])
    ensures ParseTo(q, nodes[1..], Back(at[1..]), obs[1..])
  {
    assert 0 in at;
    forall n: nat | 0 < n < |nodes| && nodes[n].Obj? ensures n in at[1..] { assert n in at && at == [at[0]] + at[1..]; }
    TailParses(q, nodes, at[1..], obs[1..]);
  }

  lemma TailParses<O>(q: Query<O>, nodes: seq<Json>, at: seq<nat>, obs: seq<O>)
    requires nodes != [] && |at| == |obs| && forall k, l :: 0 <= k < l < |at| ==> at[k] < at[l]
    requires forall k :: 0 <= k < |at| ==>
               0 < at[k] < |nodes| && nodes[at[k]].Obj? && q.parse(nodes[at[k]].fields) == Ok(obs[k])
    requires forall n: nat :: 0 < n < |nodes| && nodes[n].Obj? ==> n in at
    ensures ParseTo(q, nodes[1..], Back(at), obs)
  {
    var rest := nodes[1..];
    assert forall n: nat :: n < |rest| ==> rest[n] == nodes[n + 1];
    forall n: nat | n < |rest| && rest[n].Obj? ensures n in Back(at) { InBack(at, n); }
  }

  lemma InBack(at: seq<nat>, n: nat)
    requires n + 1 in at
    ensures n in Back(at)
  {
    var k :| 0 <= k < |at| && at[k] == n + 1;
    assert Back(at)[k] == n;
  }

  lemma CursorExactly(page: Json, path: seq<string>, next: Option<string>)
    ensures NextCursor(page, path) == Ok(next) <==> Announces(page, path, next)
  {
    var info := Dig(page, path);
    forall c | GoesOn(page, path, c) ensures info.Obj? && Get(info.fields, "hasNextPage") == Bool(true) &&
                                             Get(info.fields, "endCursor") == Str(c) && c != ""
    {
      var fields :| Leads(page, path, Obj(fields)) && "hasNextPage" in fields &&
                    fields["hasNextPage"] == Bool(true) && "endCursor" in fields && fields["endCursor"] == Str(c);
      DigExactly(page, path, Obj(fields));
    }
    if info.Obj? && Get(info.fields, "hasNextPage") == Bool(true) && Get(info.fields, "endCursor").Str? {
      DigExactly(page, path, Obj(info.fields));
      var cursor := Get(info.fields, "endCursor").text;
      if cursor != "" { assert GoesOn(page, path, cursor); }
    }
  }

  lemma ErrorsExactly(page: map<string, Json>)
    ensures Truthy(Get(page, "errors")) <==> !NoErrors(page)
  {
  }

  lemma DecodedExactly(status: int, length: nat, body: Option<Json>, page: map<string, Json>)
    ensures DecodePage(status, length, body) == Ok(page) <==>
            status == 200 && length <= 8_388_608 && body == Some(Obj(page)) && NoErrors(page) &&
            "data" in page && page["data"].Obj?
  {
    ErrorsExactly(page);
  }

  lemma NodesExactly<O>(q: Query<O>, page: Json, obs: seq<O>)
    ensures (exists nodes, at :: Leads(page, q.nodesPath, Arr(nodes)) && ParseTo(q, nodes, at, obs)) <==>
            Dig(page, q.nodesPath).Arr? && ParsedNodes(q, Dig(page, q.nodesPath).items) == Ok(obs)
  {
    var found := Dig(page, q.nodesPath);
    if found.Arr? && ParsedNodes(q, found.items) == Ok(obs) {
      DigExactly(page, q.nodesPath, found);
      var at := NodesParse(q, found.items);
    }
    if nodes, at :| Leads(page, q.nodesPath, Arr(nodes)) && ParseTo(q, nodes, at, obs) {
      DigExactly(page, q.nodesPath, Arr(nodes));
      ParsesOnce(q, nodes, at, obs);
    }
  }

  /** A round takes exactly what a good answer says, while the totals stay within the caps. */
  lemma RoundExactly<O>(q: Query<O>, f: Fetched, bytes: nat, count: nat, x: Round<O>)
    ensures TakeRound(q, f, bytes, count) == Ok(x) <==>
            Answers(q, f, x.observations, x.length, x.next) &&
            bytes + x.length <= 67_108_864 && count + |x.observations| <= 50_000
  {
    if f.Response? && f.body.Some? && f.body.value.Obj? {
      var page := f.body.value.fields;
      DecodedExactly(f.status, f.length, f.body, page);
      NodesExactly(q, Obj(page), x.observations);
      CursorExactly(Obj(page), q.pageInfoPath, x.next);
    }
  }

  // ---------- The walk over a chain of pages ----------

  /** However often it is asked, the server answers a cursor of the chain with the page for it. */
  ghost predicate Serves<O>(t: CursorTransport, q: Query<O>, chain: seq<Link<O>>) {
    forall n: nat, i: nat {:trigger t(n, chain[i].cursor)} :: i < |chain| ==>
      Answers(q, t(n, chain[i].cursor), chain[i].observations, chain[i].length, NextLink(chain, i))
  }

  lemma ServedChain<O>(t: CursorTransport, q: Query<O>, chain: seq<Link<O>>)
    requires Serves(t, q, chain)
    ensures ServesChain(RoundsOf(t, q), chain)
  {
    var rounds := RoundsOf(t, q);
    forall n: nat, i: nat, bytes: nat, count: nat {:trigger rounds(n, chain[i].cursor, bytes, count)} |
      i < |chain| && bytes + chain[i].length <= MAX_TOTAL_BYTES &&
      count + |chain[i].observations| <= MAX_TOTAL_ITEMS
      ensures rounds(n, chain[i].cursor, bytes, count) ==
              Ok(Round(chain[i].observations, chain[i].length, NextLink(chain, i)))
    {
      RoundExactly(q, t(n, chain[i].cursor), bytes, count,
                   Round(chain[i].observations, chain[i].length, NextLink(chain, i)));
    }
  }

  /** Against a server with a finite acyclic chain of pages, with no cap hit, the walk asks for the first hundred
      pages in order and returns what they parse to; of a longer chain the rest is left out without an error. */
  lemma ChainIsWalked<O>(t: CursorTransport, q: Query<O>, chain: seq<Link<O>>)
    requires Serves(t, q, chain) && Acyclic(chain) && chain[0].cursor == None
    requires Size(Window(chain, 0, 100)) <= 67_108_864 && |Observed(Window(chain, 0, 100))| <= 50_000
    ensures Yields(GraphQlWalk(t, q), [], Window(chain, 0, 100))
  {
    ServedChain(t, q, chain);
    ChainFromStart(RoundsOf(t, q), chain, 0);
  }
}
