/** Which webhook deliveries yield an observation, in terms of their headers and body alone. */
module GithubProof {
  import opened JsonValue
  import opened Lru
  import opened Strings
  import opened DedupSpec
  import opened GithubDelivery

  // ---------- Signatures ----------

  /** Header `k` is the first whose name is `name` but for its case. */
  ghost predicate FirstNamed(headers: Headers, name: string, k: int) {
    0 <= k < |headers| && Lowered(headers[k].0) == name && forall m :: 0 <= m < k ==> Lowered(headers[m].0) != name
  }

  /** `sig` is `mac`, or `mac` behind a `sha256=` prefix in either case. */
  ghost predicate Carries(sig: string, mac: string) {
    mac != "" &&
    if |sig| >= 7 && Lowered(sig[..7]) == "sha256=" then sig[7..] == mac else sig == mac
  }

  /** A secret is set, and the first signature header carries the MAC of this very body under it. */
  ghost predicate Signed(c: Setup, e: Event) {
    c.secret != "" &&
    exists k :: FirstNamed(e.headers, "x-hub-signature-256", k) && Carries(e.headers[k].1, c.mac(c.secret, e.body))
  }

  /** Signed, and a JSON object. */
  ghost predicate Genuine(c: Setup, e: Event) {
    Signed(c, e) && exists fields :: c.load(e.body) == Some(Obj(fields))
  }

  /** Looking a header up finds the first of that name, if there is one. */
  lemma {:induction false} HeaderIsFirst(headers: Headers, name: string)
    ensures HeaderValue(headers, name).Some? <==> exists k :: FirstNamed(headers, Lowered(name), k)
    ensures forall k :: FirstNamed(headers, Lowered(name), k) ==> HeaderValue(headers, name) == Some(headers[k].1)
  {
    if headers != [] {
      if Lowered(headers[0].0) == Lowered(name) {
        assert FirstNamed(headers, Lowered(name), 0);
      } else {
        HeaderIsFirst(headers[1..], name);
        HeaderInTail(headers, Lowered(name));
        if k :| FirstNamed(headers[1..], Lowered(name), k) { assert FirstNamed(headers, Lowered(name), k + 1); }
        forall k | FirstNamed(headers, Lowered(name), k) ensures HeaderValue(headers, name) == Some(headers[k].1) {
          assert FirstNamed(headers[1..], Lowered(name), k - 1) && headers[1..][k - 1] == headers[k];
        }
      }
    }
  }

  lemma HeaderInTail(headers: Headers, name: string)
    requires headers != [] && Lowered(headers[0].0) != name
    ensures forall k :: FirstNamed(headers[1..], name, k) ==> FirstNamed(headers, name, k + 1)
    ensures forall k :: FirstNamed(headers, name, k) ==> k > 0 && FirstNamed(headers[1..], name, k - 1)
  {
    forall k | FirstNamed(headers, name, k) ensures k > 0 && FirstNamed(headers[1..], name, k - 1) {
      assert forall m :: 0 <= m < k - 1 ==> headers[1..][m] == headers[m + 1];
    }
    forall k | FirstNamed(headers[1..], name, k) ensures FirstNamed(headers, name, k + 1) {
      forall m | 0 <= m < k + 1 ensures Lowered(headers[m].0) != name {
        if m > 0 { assert headers[m] == headers[1..][m - 1]; }
      }
    }
  }

  lemma PrefixIsLowered(sig: string)
    ensures "sha256=" <= Lowered(sig) <==> |sig| >= 7 && Lowered(sig[..7]) == "sha256="
  {
    if |sig| >= 7 { assert Lowered(sig)[..7] == Lowered(sig[..7]); }
  }

  lemma NameIsLowered()
    ensures Lowered("X-Hub-Signature-256") == "x-hub-signature-256" &&
            Lowered("X-GitHub-Delivery") == "x-github-delivery"
  {
  }

  lemma OneFirst(headers: Headers, name: string, j: int, k: int)
    requires FirstNamed(headers, name, j) && FirstNamed(headers, name, k)
    ensures j == k
  {
  }

  /** The check of the signature, exactly. */
  lemma VerifiedExactly(c: Setup, e: Event)
    ensures Verified(c, e.headers, e.body) <==> Signed(c, e)
  {
    NameIsLowered();
    HeaderIsFirst(e.headers, "X-Hub-Signature-256");
    var found := HeaderValue(e.headers, "X-Hub-Signature-256");
    if found.Some? {
      var k :| FirstNamed(e.headers, "x-hub-signature-256", k);
      CarriedExactly(c, e, found.value);
      forall j | FirstNamed(e.headers, "x-hub-signature-256", j) ensures j == k {
        OneFirst(e.headers, "x-hub-signature-256", j, k);
      }
    }
  }

  lemma CarriedExactly(c: Setup, e: Event, sig: string)
    requires HeaderValue(e.headers, "X-Hub-Signature-256") == Some(sig)
    ensures Verified(c, e.headers, e.body) <==> c.secret != "" && Carries(sig, c.mac(c.secret, e.body))
  {
    PrefixIsLowered(sig);
  }

  lemma AcceptedExactly(c: Setup, e: Event)
    ensures PolicyOf(c).accepts(e) <==> Genuine(c, e)
  {
    PayloadIsRead(c, e);
    VerifiedExactly(c, e);
  }

  // ---------- What a delivery yields ----------

  /** The delivery's own id is in its header; without one the hash of the body stands in. */
  ghost predicate Identifies(c: Setup, e: Event, id: string) {
    if exists k :: FirstNamed(e.headers, "x-github-delivery", k) && e.headers[k].1 != ""
    then exists k :: FirstNamed(e.headers, "x-github-delivery", k) && e.headers[k].1 == id
    else id == c.hash(e.body)
  }

  lemma IdIsFound(c: Setup, e: Event)
    ensures Identifies(c, e, DeliveryId(c, e))
    ensures forall id :: Identifies(c, e, id) ==> id == DeliveryId(c, e)
  {
    NameIsLowered();
    HeaderIsFirst(e.headers, "X-GitHub-Delivery");
  }

  /** The pull request with a number: its own, or the envelope's, which may be missing. */
  ghost predicate Flat(envelope: map<string, Json>, pull: map<string, Json>) {
    "pull_request" in envelope && envelope["pull_request"].Obj? &&
    var inner := envelope["pull_request"].fields;
    pull.Keys == inner.Keys + {"number"} && (forall key :: key in inner ==> pull[key] == inner[key]) &&
    ("number" !in inner ==> pull["number"] == Get(envelope, "number"))
  }

  lemma FlatIsUnique(envelope: map<string, Json>, pull: map<string, Json>)
    ensures Flat(envelope, pull) <==> Unwrapped(envelope) == Some(pull)
  {
    if "pull_request" in envelope && envelope["pull_request"].Obj? {
      var inner := envelope["pull_request"].fields;
      var flat := Unwrapped(envelope).value;
      assert Flat(envelope, flat);
      if Flat(envelope, pull) { assert pull == flat; }
    }
  }

  /** Event `n` is new: its id is no duplicate after what was let through before it. */
  ghost predicate New(c: Setup, run: Run, n: nat, id: string)
    requires n < |run|
  {
    !Duplicate(Marks(PolicyOf(c), run[..n]), ("github", None), id, run[n].asked, c.maxEntries, c.maxPartitions, c.ttl)
  }

  /** A delivery yields exactly the observations it should: one where it is genuine, new and about a pull
      request, under its own id and with the pull request flattened; otherwise none. */
  lemma YieldsExactly(c: Setup, run: Run, n: nat, id: string, pull: map<string, Json>)
    requires n < |run| && Identifies(c, run[n], id)
    ensures Yield(c, run, n) == [Observation(id, pull)] <==>
            Signed(c, run[n]) && New(c, run, n, id) &&
            exists envelope :: c.load(run[n].body) == Some(Obj(envelope)) && Flat(envelope, pull)
    ensures Yield(c, run, n) == [] || exists q :: Yield(c, run, n) == [Observation(id, q)]
  {
    var e := run[n];
    IdIsFound(c, e);
    AcceptedExactly(c, e);
    PayloadIsRead(c, e);
    VerifiedExactly(c, e);
    LetThroughExactly(PolicyOf(c), run, n);
    ParsedExactly(c, e, id, pull);
  }

  lemma ParsedExactly(c: Setup, e: Event, id: string, pull: map<string, Json>)
    ensures Payload(c, e).Some? ==>
            (Parsed(id, Payload(c, e)) == [Observation(id, pull)] <==> Flat(Payload(c, e).value, pull))
    ensures Parsed(id, Payload(c, e)) == [] || exists q :: Parsed(id, Payload(c, e)) == [Observation(id, q)]
  {
    if Payload(c, e).Some? {
      FlatIsUnique(Payload(c, e).value, pull);
      if Unwrapped(Payload(c, e).value).Some? {
        assert Parsed(id, Payload(c, e)) == [Observation(id, Unwrapped(Payload(c, e).value).value)];
      }
    }
  }

  lemma LetThroughExactly(p: Policy, run: Run, n: nat)
    requires n < |run|
    ensures Passed(p, run)[n] <==> Passes(p, Marks(p, run[..n]), run[n])
  {
    PassedAt(p, run, n);
    PassedPrefix(p, run, n);
  }

  /** A delivery that is not signed with the secret, or is no JSON object, yields nothing and changes nothing for
      any later one: it does not use up its delivery id, nor push any other out of the cache. */
  lemma ForgedLeavesNoTrace(c: Setup, before: Run, e: Event, later: Run, f: Event)
    requires !Genuine(c, e)
    ensures Yield(c, before + [e], |before|) == []
    ensures Yield(c, before + [e] + later + [f], |before| + 1 + |later|) ==
            Yield(c, before + later + [f], |before| + |later|)
  {
    AcceptedExactly(c, e);
    var p := PolicyOf(c);
    Rejected(p, before, e);
    RejectedLeavesNoTrace(p, before, e, later);
    NextEvent(p, before + [e] + later, f);
    NextEvent(p, before + later, f);
  }
}
