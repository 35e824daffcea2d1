/** GitHub webhook deliveries: the connector as the client of a private dedup cache. */
module GithubDelivery {
  import opened JsonValue
  import opened Lru
  import opened Strings
  import opened DedupSpec
  import opened DedupCache

  type Bytes = seq<bv8>
  type Headers = seq<(string, string)>

  datatype Observation = Observation(providerEventId: string, pull: map<string, Json>)

  /** One call: the clock is read to look the id up and again to mark it. */
  datatype Event = Event(headers: Headers, body: Bytes, asked: real, marked: real)

  type Run = seq<Event>

  /** A digest in hexadecimal is never empty. */
  type BodyHash = f: Bytes -> string | forall b :: f(b) != "" ghost witness (b => "0")

  /** What the connector is given: its secret, the MAC and the hash, and the JSON reader. */
  datatype Setup = Setup(
    secret: string, mac: (string, Bytes) -> string, hash: BodyHash, load: Bytes -> Option<Json>,
    maxEntries: nat, maxPartitions: nat, ttl: real)

  const GITHUB: Key := ("github", None)

  /** The first header of that name, whatever its case. */
  function HeaderValue(headers: Headers, name: string): Option<string> {
    if headers == [] then None
    else if Lowered(headers[0].0) == Lowered(name) then Some(headers[0].1)
    else HeaderValue(headers[1..], name)
  }

  function Signature(headers: Headers): Option<string> {
    match HeaderValue(headers, "X-Hub-Signature-256")
    case None => None
    case Some(sig) => Some(if "sha256=" <= Lowered(sig) then sig[7..] else sig)
  }

  predicate Verified(c: Setup, headers: Headers, body: Bytes) {
    var sig := Signature(headers);
    c.secret != "" && sig.Some? && sig.value != "" && sig.value == c.mac(c.secret, body)
  }

  /** The payload of a signed event whose body is a JSON object. */
  function Payload(c: Setup, e: Event): Option<map<string, Json>> {
    if !Verified(c, e.headers, e.body) then None
    else
      match c.load(e.body)
      case None => None
      case Some(payload) => if payload.Obj? then Some(payload.fields) else None
  }

  function DeliveryId(c: Setup, e: Event): (id: string)
    ensures id != ""
  {
    match HeaderValue(e.headers, "X-GitHub-Delivery")
    case Some(id) => if id != "" then id else c.hash(e.body)
    case None => c.hash(e.body)
  }

  /** The flat pull request, with the envelope's number where it has none of its own. */
  function Unwrapped(payload: map<string, Json>): Option<map<string, Json>> {
    if "pull_request" in payload && payload["pull_request"].Obj? then
      var pull := payload["pull_request"].fields;
      Some(if "number" in pull then pull
           else pull["number" := if "number" in payload then payload["number"] else Null])
    else None
  }

  /** At most one observation, under the delivery's id. */
  function Parsed(id: string, payload: Option<map<string, Json>>): seq<Observation> {
    if payload.None? then []
    else
      match Unwrapped(payload.value)
      case None => []
      case Some(pull) => [Observation(id, pull)]
  }

  // ---------- Runs ----------

  /** What a run depends on: which events are accepted, under which id, and the cache's configuration. */
  datatype Policy = Policy(accepts: Event -> bool, id: Event -> string, maxEntries: nat, maxPartitions: nat, ttl: real)

  /** The marks the events would leave, were they all let through. */
  function Offered(c: Policy, run: Run): seq<Mark> {
    seq(|run|, n requires 0 <= n < |run| => Mark(GITHUB, c.id(run[n]), run[n].marked))
  }

  /** The chosen items, in order. */
  function Chosen<T>(items: seq<T>, flags: seq<bool>): seq<T>
    requires |items| == |flags|
  {
    if items == [] then []
    else Chosen(items[..|items| - 1], flags[..|items| - 1]) + if flags[|items| - 1] then [items[|items| - 1]] else []
  }

  /** The event is let through and marked, after the marks `h`. */
  ghost predicate Passes(c: Policy, h: History, e: Event) {
    c.accepts(e) && !Duplicate(h, GITHUB, c.id(e), e.asked, c.maxEntries, c.maxPartitions, c.ttl)
  }

  /** Which events of the run are let through. */
  ghost function Passed(c: Policy, run: Run): (flags: seq<bool>)
    ensures |flags| == |run|
  {
    if run == [] then []
    else
      var front := run[..|run| - 1];
      Passed(c, front) + [Passes(c, Chosen(Offered(c, front), Passed(c, front)), run[|run| - 1])]
  }

  /** What the cache was told during the run. */
  ghost function Marks(c: Policy, run: Run): History {
    Chosen(Offered(c, run), Passed(c, run))
  }

  /** The clock is monotone. */
  ghost predicate Timed(run: Run) {
    (forall i :: 0 <= i < |run| ==> run[i].asked <= run[i].marked) &&
    forall i, j :: 0 <= i < j < |run| ==> run[i].marked <= run[j].asked
  }

  // ---------- The connector ----------

  function PolicyOf(c: Setup): Policy {
    Policy(e => Payload(c, e).Some?, e => DeliveryId(c, e), c.maxEntries, c.maxPartitions, c.ttl)
  }

  /** What event `n` of the run yields. */
  ghost function Yield(c: Setup, run: Run, n: nat): seq<Observation>
    requires n < |run|
  {
    if Passed(PolicyOf(c), run)[n] then Parsed(DeliveryId(c, run[n]), Payload(c, run[n])) else []
  }

  /** Signed with the secret, and a JSON object. */
  ghost predicate Readable(c: Setup, e: Event) {
    Verified(c, e.headers, e.body) && exists fields :: c.load(e.body) == Some(Obj(fields))
  }

  lemma PayloadIsRead(c: Setup, e: Event)
    ensures Payload(c, e).Some? <==> Readable(c, e)
    ensures Payload(c, e).Some? ==> c.load(e.body) == Some(Obj(Payload(c, e).value))
  {
    if c.load(e.body).Some? && c.load(e.body).value.Obj? {
      assert c.load(e.body) == Some(Obj(c.load(e.body).value.fields));
    }
  }

  /** Verify, load, require an object. */
  method ReadPayload(c: Setup, e: Event) returns (payload: Option<map<string, Json>>)
    ensures payload.Some? <==> Readable(c, e)
    ensures payload.Some? ==> c.load(e.body) == Some(Obj(payload.value))
  {
    if !Verified(c, e.headers, e.body) {
      return None;
    }
    var loaded := c.load(e.body);
    if loaded.None? || !loaded.value.Obj? {
      return None;
    }
    PayloadIsRead(c, e);
    payload := Some(loaded.value.fields);
  }

  class GitHubConnector {
    const setup: Setup
    const policy: Policy
    const dedup: DeliveryDedupCache
    /** The calls so far. */
    ghost var run: Run

    ghost predicate Valid()
      reads this, dedup
    {
      policy == PolicyOf(setup) && dedup.Valid() && Timed(run) && dedup.history == Marks(policy, run) &&
      dedup.maxEntries == setup.maxEntries && dedup.maxPartitions == setup.maxPartitions && dedup.ttl == setup.ttl &&
      (dedup.latest.Some? ==> run != [] && dedup.latest.value <= run[|run| - 1].marked)
    }

    constructor (c: Setup)
      ensures Valid() && fresh(dedup) && run == [] && setup == c
    {
      setup, policy := c, PolicyOf(c);
      dedup := new DeliveryDedupCache(c.maxEntries, c.maxPartitions, c.ttl);
      run := [];
    }

    /** Verify, load, look up, mark, unwrap, parse. */
    method NormalizeEvent(e: Event) returns (obs: seq<Observation>)
      requires Valid() && e.asked <= e.marked && (run != [] ==> run[|run| - 1].marked <= e.asked)
      modifies this, dedup
      ensures Valid() && run == old(run) + [e]
      ensures obs == Yield(setup, run, |run| - 1)
    {
      ghost var before := run;
      TimedNext(run, e);
      run := run + [e];
      var payload := ReadPayload(setup, e);
      PayloadIsRead(setup, e);
      assert payload == Payload(setup, e);
      if payload.None? {
        Rejected(policy, before, e);
        return [];
      }
      var admitted := Admit(before, e);
      if !admitted {
        return [];
      }
      obs := Parsed(DeliveryId(setup, e), payload);
    }

    /** Look the delivery up, and mark it unless it is a duplicate. */
    method Admit(ghost before: Run, e: Event) returns (admitted: bool)
      requires dedup.Valid() && dedup.ClockReads(e.asked) && e.asked <= e.marked
      requires policy.accepts(e) && policy.id(e) != ""
      requires dedup.history == Marks(policy, before)
      requires dedup.maxEntries == policy.maxEntries && dedup.maxPartitions == policy.maxPartitions &&
               dedup.ttl == policy.ttl
      modifies dedup
      ensures dedup.Valid() && dedup.latest.Some? && dedup.latest.value <= e.marked
      ensures admitted <==> Passed(policy, before + [e])[|before|]
      ensures dedup.history == Marks(policy, before + [e])
    {
      NextEvent(policy, before, e);
      var id := policy.id(e);
      var seen := dedup.IsDuplicate("github", id, None, e.asked);
      if seen {
        return false;
      }
      dedup.MarkSeen("github", id, None, e.marked);
      return true;
    }
  }

  lemma Rejected(c: Policy, run: Run, e: Event)
    requires !c.accepts(e)
    ensures !Passed(c, run + [e])[|run|] && Marks(c, run + [e]) == Marks(c, run)
  {
    NextEvent(c, run, e);
  }

  lemma {:induction false} RejectedLeavesNoTrace(c: Policy, before: Run, e: Event, later: Run)
    requires !c.accepts(e)
    ensures Marks(c, before + [e] + later) == Marks(c, before + later)
    decreases |later|
  {
    if later == [] {
      Rejected(c, before, e);
      assert before + [e] + later == before + [e] && before + later == before;
    } else {
      var front, last := later[..|later| - 1], later[|later| - 1];
      RejectedLeavesNoTrace(c, before, e, front);
      NextEvent(c, before + [e] + front, last);
      NextEvent(c, before + front, last);
      assert before + [e] + later == before + [e] + front + [last] && before + later == before + front + [last];
    }
  }

  lemma NextEvent(c: Policy, run: Run, e: Event)
    ensures Passed(c, run + [e]) == Passed(c, run) + [Passes(c, Marks(c, run), e)]
    ensures Marks(c, run + [e]) ==
            Marks(c, run) + if Passes(c, Marks(c, run), e) then [Mark(GITHUB, c.id(e), e.marked)] else []
  {
    assert (run + [e])[..|run|] == run;
    assert Offered(c, run + [e])[..|run|] == Offered(c, run);
    assert Passed(c, run + [e])[..|run|] == Passed(c, run);
  }

  lemma TimedNext(run: Run, e: Event)
    requires Timed(run) && e.asked <= e.marked && (run != [] ==> run[|run| - 1].marked <= e.asked)
    ensures Timed(run + [e])
  {
  }

  // ---------- What was chosen, and where it came from ----------

  /** `at` lists the places of the chosen marks. */
  ghost predicate Places(ms: seq<Mark>, flags: seq<bool>, at: seq<nat>)
    requires |ms| == |flags|
  {
    |at| == |Chosen(ms, flags)| && (forall i, j :: 0 <= i < j < |at| ==> at[i] < at[j]) &&
    (forall i :: 0 <= i < |at| ==> at[i] < |ms| && flags[at[i]] && Chosen(ms, flags)[i] == ms[at[i]]) &&
    Covers(flags, at)
  }

  /** Every place that was chosen is listed. */
  ghost predicate Covers(flags: seq<bool>, at: seq<nat>) {
    forall n: nat :: n < |flags| && flags[n] ==> n in at
  }

  lemma CoversFront(flags: seq<bool>, front: seq<nat>)
    requires flags != [] && Covers(flags[..|flags| - 1], front)
    ensures Covers(flags, if flags[|flags| - 1] then front + [|flags| - 1] else front)
  {
    var n := |flags| - 1;
    var at := if flags[n] then front + [n] else front;
    forall m: nat | m < |flags| && flags[m] ensures m in at {
      if m < n {
        assert flags[..n][m] && m in front;
      } else {
        assert at[|front|] == m;
      }
    }
  }

  lemma {:induction false} ChosenPlaces(ms: seq<Mark>, flags: seq<bool>) returns (at: seq<nat>)
    requires |ms| == |flags|
    ensures Places(ms, flags, at)
  {
    if ms == [] {
      at := [];
    } else {
      var n := |ms| - 1;
      at := ChosenPlaces(ms[..n], flags[..n]);
      PlacesOfFront(ms, flags, at);
      if flags[n] { at := at + [n]; }
    }
  }

  lemma PlacesOfFront(ms: seq<Mark>, flags: seq<bool>, front: seq<nat>)
    requires |ms| == |flags| && ms != [] && Places(ms[..|ms| - 1], flags[..|ms| - 1], front)
    ensures Places(ms, flags, if flags[|ms| - 1] then front + [|ms| - 1] else front)
  {
    var n := |ms| - 1;
    var at := if flags[n] then front + [n] else front;
    CoversFront(flags, front);
    var h := Chosen(ms[..n], flags[..n]);
    forall i | 0 <= i < |at| ensures at[i] < |ms| && flags[at[i]] && Chosen(ms, flags)[i] == ms[at[i]] {
      if i < |front| { assert at[i] == front[i] && h[i] == ms[..n][front[i]] && flags[..n][front[i]]; }
    }
  }

  /** The other ids chosen strictly between places `a` and `b`. */
  function OthersBetween(ms: seq<Mark>, flags: seq<bool>, a: nat, b: nat): set<string>
    requires a < b <= |ms| == |flags|
  {
    set n | a < n < b && flags[n] && ms[n].id != ms[a].id :: ms[n].id
  }

  ghost predicate OneKey(ms: seq<Mark>) {
    forall m :: m in ms ==> m.key == GITHUB
  }

  lemma SameOthers(ms: seq<Mark>, flags: seq<bool>, at: seq<nat>, i: nat)
    requires |ms| == |flags| && Places(ms, flags, at) && i < |at| && OneKey(ms)
    ensures OthersSince(Chosen(ms, flags), GITHUB, ms[at[i]].id, i) == OthersBetween(ms, flags, at[i], |ms|)
  {
    var h, id := Chosen(ms, flags), ms[at[i]].id;
    forall x | x in OthersBetween(ms, flags, at[i], |ms|) ensures x in OthersSince(h, GITHUB, id, i) {
      var n :| at[i] < n < |ms| && flags[n] && ms[n].id == x && x != id;
      var j :| 0 <= j < |at| && at[j] == n;
      assert i < j && h[j] == ms[n];
    }
    forall x | x in OthersSince(h, GITHUB, id, i) ensures x in OthersBetween(ms, flags, at[i], |ms|) {
      var j :| i < j < |h| && h[j].key == GITHUB && h[j].id != id && h[j].id == x;
      assert at[i] < at[j];
    }
  }

  /** With one bucket, nothing is ever evicted for the sake of other buckets. */
  lemma OneBucketIsKept(h: History, i: nat, cap: nat)
    requires cap >= 1 && OneKey(h)
    ensures Kept(h, GITHUB, i, cap)
  {
    forall a, b | i <= a < b <= |h| && h[a].key == GITHUB && Unwritten(h, GITHUB, a, b)
      ensures |KeysBetween(h, a, b)| < cap
    {
      assert forall j :: a < j < b ==> h[j] in h;
      assert KeysBetween(h, a, b) == {};
    }
  }

  lemma {:induction false} ChosenAreItems<T>(items: seq<T>, flags: seq<bool>)
    requires |items| == |flags|
    ensures forall x :: x in Chosen(items, flags) ==> x in items
  {
    if items != [] {
      ChosenAreItems(items[..|items| - 1], flags[..|items| - 1]);
    }
  }

  /** In a history of one bucket, the id of the last mark chosen is a duplicate exactly while it is
      recent and few others were chosen since. */
  lemma ChosenDuplicate(ms: seq<Mark>, flags: seq<bool>, a: nat, now: real, c: Policy)
    requires |ms| == |flags| && a < |ms| && flags[a] && OneKey(ms) && c.maxPartitions >= 1
    requires forall n :: a < n < |ms| && flags[n] ==> ms[n].id != ms[a].id
    ensures Duplicate(Chosen(ms, flags), GITHUB, ms[a].id, now, c.maxEntries, c.maxPartitions, c.ttl)
            <==> now - ms[a].at <= c.ttl && |OthersBetween(ms, flags, a, |ms|)| < c.maxEntries
  {
    var h := Chosen(ms, flags);
    var at := ChosenPlaces(ms, flags);
    var i :| 0 <= i < |at| && at[i] == a;
    SameOthers(ms, flags, at, i);
    ChosenAreItems(ms, flags);
    OneBucketIsKept(h, i, c.maxPartitions);
    assert LastMark(h, GITHUB, ms[a].id, i) by {
      forall j | i < j < |h| ensures h[j].id != ms[a].id { assert at[i] < at[j]; }
    }
    OnlyLast(h, ms[a].id, i);
  }

  lemma OnlyLast(h: History, id: string, i: nat)
    requires LastMark(h, GITHUB, id, i)
    ensures forall k: nat :: LastMark(h, GITHUB, id, k) ==> k == i
  {
  }

  // ---------- At most once ----------

  lemma {:induction false} PassedPrefix(c: Policy, run: Run, n: nat)
    requires n <= |run|
    ensures Passed(c, run)[..n] == Passed(c, run[..n]) && Offered(c, run)[..n] == Offered(c, run[..n])
  {
    if n < |run| {
      PassedPrefix(c, run[..|run| - 1], n);
      assert run[..|run| - 1][..n] == run[..n];
    } else {
      assert run[..n] == run;
    }
  }

  lemma PassedAt(c: Policy, run: Run, n: nat)
    requires n < |run|
    ensures Passed(c, run)[n] <==> Passes(c, Chosen(Offered(c, run)[..n], Passed(c, run)[..n]), run[n])
  {
    PassedPrefix(c, run, n + 1);
    PassedPrefix(c, run, n);
    assert run[..n + 1][..n] == run[..n];
    assert Passed(c, run)[n] == Passed(c, run[..n + 1])[n];
  }

  /** The number of other deliveries let through between events `a` and `b`. */
  ghost function OthersLetThrough(c: Policy, run: Run, a: nat, b: nat): nat
    requires a < b <= |run|
  {
    |OthersBetween(Offered(c, run), Passed(c, run), a, b)|
  }

  /** After event `a` let a delivery through, and none did since, event `b` lets it through again exactly
      when it is accepted and the first is too old or too many others came in between. */
  lemma LetThroughAgain(c: Policy, run: Run, a: nat, b: nat)
    requires c.maxPartitions >= 1 && a < b < |run| && c.id(run[a]) == c.id(run[b]) && Passed(c, run)[a]
    requires forall n :: a < n < b && Passed(c, run)[n] ==> c.id(run[n]) != c.id(run[a])
    ensures Passed(c, run)[b] <==>
            c.accepts(run[b]) &&
            (run[b].asked - run[a].marked > c.ttl || OthersLetThrough(c, run, a, b) >= c.maxEntries)
  {
    PassedAt(c, run, b);
    var ms, flags := Offered(c, run)[..b], Passed(c, run)[..b];
    ChosenDuplicate(ms, flags, a, run[b].asked, c);
    assert OthersBetween(ms, flags, a, b) == OthersBetween(Offered(c, run), Passed(c, run), a, b);
  }

  /** The last event before `b` that let the delivery of event `a` through. */
  lemma {:induction false} LastPass(ids: seq<Mark>, flags: seq<bool>, a: nat, b: nat) returns (m: nat)
    requires a < b <= |ids| == |flags| && flags[a]
    ensures a <= m < b && ids[m].id == ids[a].id && flags[m]
    ensures forall n :: m < n < b && flags[n] ==> ids[n].id != ids[a].id
    decreases b
  {
    m := b - 1;
    if m > a && !(ids[m].id == ids[a].id && flags[m]) {
      m := LastPass(ids, flags, a, b - 1);
    }
  }

  lemma PassedTwice(c: Policy, run: Run, a: nat, b: nat)
    requires Timed(run) && c.maxPartitions >= 1 && a < b < |run| && c.id(run[a]) == c.id(run[b])
    requires Passed(c, run)[a] && Passed(c, run)[b]
    ensures run[b].asked - run[a].marked > c.ttl || OthersLetThrough(c, run, a, b) >= c.maxEntries
  {
    var ms, flags := Offered(c, run), Passed(c, run);
    var m := LastPass(ms, flags, a, b);
    forall n | m < n < b && flags[n] ensures c.id(run[n]) != c.id(run[m]) {
      assert ms[n].id == c.id(run[n]);
    }
    LetThroughAgain(c, run, m, b);
    OthersShrink(ms, flags, a, m, b);
  }

  lemma OthersShrink(ms: seq<Mark>, flags: seq<bool>, a: nat, m: nat, b: nat)
    requires a <= m < b <= |ms| == |flags| && ms[m].id == ms[a].id
    ensures |OthersBetween(ms, flags, m, b)| <= |OthersBetween(ms, flags, a, b)|
  {
    SubsetSize(OthersBetween(ms, flags, m, b), OthersBetween(ms, flags, a, b));
  }

  /** Two events with one delivery id both yield observations only if more than `ttl` passed in
      between or at least `maxEntries` other deliveries were let through. */
  lemma AtMostOnce(c: Setup, run: Run, a: nat, b: nat)
    requires Timed(run) && c.maxPartitions >= 1 && a < b < |run| && DeliveryId(c, run[a]) == DeliveryId(c, run[b])
    requires Yield(c, run, a) != [] && Yield(c, run, b) != []
    ensures run[b].asked - run[a].marked > c.ttl || OthersLetThrough(PolicyOf(c), run, a, b) >= c.maxEntries
  {
    PassedTwice(PolicyOf(c), run, a, b);
  }
}
