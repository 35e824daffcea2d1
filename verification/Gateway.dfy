/** The gateway sink: prepare everything, shake hands once, post one envelope after another. */
module Gateway {
  import opened Lru
  import opened JsonValue
  import opened Decimals

  datatype Emission = Emission(metadata: map<string, Json>, body: Json)

  datatype Request = Capabilities | Post(payload: Json)

  /** What the opener does with a request: a response, or one of the exceptions it can raise. */
  datatype Outcome =
    | Response(status: int, body: Option<Json>)
    | HttpError(code: int)
    | UrlError(reasonType: string)
    | OtherError

  datatype SinkError =
    | Contract(reason: string)                 // the emission breaks the neutral contract
    | RedactionGated(reason: string)
    | Gated                                    // no endpoint configured
    | Transport(status: int, reason: string)   // the typed, token-free failure
    | NotSendable                              // the mapping or the JSON encoder raised something else

  function ProtocolMismatch(code: string): SinkError { Transport(0, "protocol_mismatch:" + code) }

  datatype Result<+T> = Ok(value: T) | Fail(error: SinkError)

  /** What the sink calls: the screen, the receipt check and issuer, the mapping into an encoded envelope
      (nothing where it raises), the contract check of a capability report, and the opener, whose answers
      may depend on everything asked before. */
  datatype Setup = Setup(
    screen: Emission -> Option<string>, checkReceipt: map<string, Json> -> Option<string>,
    issueReceipt: Emission -> Json, envelope: Emission -> Option<Json>,
    incompatible: map<string, Json> -> Option<string>,
    opener: (seq<Request>, Request) -> Outcome)

  // ---------- Preparing ----------

  function Screened(c: Setup, es: seq<Emission>): Option<string> {
    if es == [] then None else if c.screen(es[0]).Some? then c.screen(es[0]) else Screened(c, es[1..])
  }

  predicate HasReceipt(e: Emission) {
    "redaction_receipt" in e.metadata && e.metadata["redaction_receipt"] != Null
  }

  /** `_ensure_redaction_receipt`. */
  function WithReceipt(c: Setup, e: Emission): Emission {
    if HasReceipt(e) then e else e.(metadata := e.metadata["redaction_receipt" := c.issueReceipt(e)])
  }

  function Receipted(c: Setup, es: seq<Emission>): Result<seq<Emission>> {
    if es == [] then Ok([])
    else
      match c.checkReceipt(WithReceipt(c, es[0]).metadata)
      case Some(reason) => Fail(RedactionGated(reason))
      case None =>
        match Receipted(c, es[1..])
        case Fail(error) => Fail(error)
        case Ok(rest) => Ok([WithReceipt(c, es[0])] + rest)
  }

  /** Screen all, then see to all receipts. */
  function Prepared(c: Setup, es: seq<Emission>): Result<seq<Emission>> {
    match Screened(c, es)
    case Some(reason) => Fail(Contract(reason))
    case None => Receipted(c, es)
  }

  // ---------- The handshake ----------

  function HandshakeError(c: Setup, o: Outcome): Option<SinkError> {
    match o
    case HttpError(code) => Some(ProtocolMismatch("capabilities_http_" + Decimal(code)))
    case UrlError(t) => Some(Transport(0, "transport_error:" + t))
    case OtherError => Some(ProtocolMismatch("capabilities_invalid_response"))
    case Response(status, body) =>
      if status != 200 then Some(ProtocolMismatch("capabilities_http_" + Decimal(status)))
      else if body.None? then Some(ProtocolMismatch("capabilities_invalid_json"))
      else if !body.value.Obj? then Some(ProtocolMismatch("capabilities_not_object"))
      else
        match c.incompatible(body.value.fields)
        case Some(code) => Some(ProtocolMismatch(code))
        case None => None
  }

  // ---------- Posting ----------

  function PostError(o: Outcome): Option<SinkError> {
    match o
    case HttpError(code) => Some(Transport(code, "gateway_rejected"))
    case UrlError(t) => Some(Transport(0, "transport_error:" + t))
    case OtherError => Some(Transport(0, "unexpected_error"))
    case Response(status, _) =>
      if status != 201 then Some(Transport(status, "unexpected_status_expected_201")) else None
  }

  datatype Posted = Posted(log: seq<Request>, error: Option<SinkError>)

  /** Map and post one emission after another, until one fails. */
  function PostFrom(c: Setup, log: seq<Request>, es: seq<Emission>): Posted
    decreases |es|
  {
    if es == [] then Posted(log, None)
    else if c.envelope(es[0]).None? then Posted(log, Some(NotSendable))
    else
      var request := Sent(c, es[0]);
      var error := PostError(c.opener(log, request));
      if error.Some? then Posted(log + [request], error) else PostFrom(c, log + [request], es[1..])
  }

  /** The request for an emission that has an envelope. */
  function Sent(c: Setup, e: Emission): Request {
    Post(if c.envelope(e).Some? then c.envelope(e).value else Null)
  }

  function Posts(c: Setup, es: seq<Emission>): seq<Request> {
    seq(|es|, i requires 0 <= i < |es| => Sent(c, es[i]))
  }

  /** How the post of emission `k` was answered. */
  function Answer(c: Setup, log: seq<Request>, es: seq<Emission>, k: nat): Outcome
    requires k < |es|
  {
    c.opener(log + Posts(c, es[..k]), Sent(c, es[k]))
  }

  /** The gateway has taken the evidence: a response, with status 201. */
  predicate Created(o: Outcome) { o.Response? && o.status == 201 }

  /** Emission `k` was mapped, and its post answered 201. */
  predicate Delivered(c: Setup, log: seq<Request>, es: seq<Emission>, k: nat)
    requires k < |es|
  {
    c.envelope(es[k]).Some? && Created(Answer(c, log, es, k))
  }

  /** Why posting ended after `n` posts: all done, no envelope for the next one, or the last one failed. */
  predicate EndsAfter(c: Setup, log: seq<Request>, es: seq<Emission>, n: nat, error: Option<SinkError>)
    requires n <= |es|
  {
    match error
    case None => n == |es|
    case Some(NotSendable) => n < |es| && c.envelope(es[n]).None?
    case Some(_) =>
      n > 0 && c.envelope(es[n - 1]).Some? && !Created(Answer(c, log, es, n - 1)) &&
      error == PostError(Answer(c, log, es, n - 1))
  }

  /** Posting sends the envelopes of a prefix, in order: all of them when it succeeds. Otherwise the last
      one sent is the one that failed, or the next one has no envelope. Every other one was answered 201. */
  lemma {:induction false} PostedIsPrefix(c: Setup, log: seq<Request>, es: seq<Emission>) returns (n: nat)
    ensures n <= |es| && PostFrom(c, log, es).log == log + Posts(c, es[..n])
    ensures EndsAfter(c, log, es, n, PostFrom(c, log, es).error)
    ensures forall k :: 0 <= k < n ==>
              Delivered(c, log, es, k) || (k == n - 1 && PostFrom(c, log, es).error !in {None, Some(NotSendable)})
    decreases |es|
  {
    n := 0;
    assert log + Posts(c, es[..0]) == log;
    if es != [] && c.envelope(es[0]).Some? {
      var request := Sent(c, es[0]);
      assert Answer(c, log, es, 0) == c.opener(log, request);
      assert log + [request] == log + Posts(c, es[..1]);
      if PostError(c.opener(log, request)).Some? {
        n := 1;
      } else {
        var m := PostedIsPrefix(c, log + [request], es[1..]);
        n := m + 1;
        PostsCons(c, log, es, m);
        forall k | 0 <= k < n
          ensures Delivered(c, log, es, k) || (k == n - 1 && PostFrom(c, log, es).error !in {None, Some(NotSendable)})
        {
          if k > 0 {
            AnswerCons(c, log, es, k);
            assert Delivered(c, log + [request], es[1..], k - 1) <==> Delivered(c, log, es, k);
          }
        }
        if m > 0 { AnswerCons(c, log, es, m); }
      }
    }
  }

  lemma PostsCons(c: Setup, log: seq<Request>, es: seq<Emission>, k: nat)
    requires es != [] && k < |es|
    ensures log + [Sent(c, es[0])] + Posts(c, es[1..][..k]) == log + Posts(c, es[..k + 1])
  {
    assert [Sent(c, es[0])] + Posts(c, es[1..][..k]) == Posts(c, es[..k + 1]);
  }

  lemma AnswerCons(c: Setup, log: seq<Request>, es: seq<Emission>, k: nat)
    requires 0 < k < |es|
    ensures es[1..][k - 1] == es[k] && Answer(c, log + [Sent(c, es[0])], es[1..], k - 1) == Answer(c, log, es, k)
  {
    PostsCons(c, log, es, k - 1);
  }

  // ---------- One call ----------

  datatype Emitted = Emitted(log: seq<Request>, verified: bool, error: Option<SinkError>)

  /** What one call does to the log and to the trust in the endpoint, and how it ends. */
  function EmitFrom(c: Setup, endpoint: string, isDeliveryPath: bool, before: Emitted, es: seq<Emission>): Emitted {
    var prepared := Prepared(c, es);
    if prepared.Fail? then before.(error := Some(prepared.error))
    else if endpoint == "" then before.(error := Some(Gated))
    else if !isDeliveryPath then before.(error := Some(ProtocolMismatch("delivery_endpoint_not_v2")))
    else
      var refused := if before.verified then None else HandshakeError(c, c.opener(before.log, Capabilities));
      var greeted := if before.verified then before.log else before.log + [Capabilities];
      if refused.Some? then Emitted(greeted, false, refused)
      else
        var posted := PostFrom(c, greeted, prepared.value);
        Emitted(posted.log, true, posted.error)
  }

  // ---------- The sink ----------

  /** The endpoint answered 200, with a report that meets the contract. */
  predicate Agreed(c: Setup, o: Outcome) {
    o.Response? && o.status == 200 && o.body.Some? && o.body.value.Obj? && c.incompatible(o.body.value.fields) == None
  }

  /** Request `i` of the log is a handshake that succeeded. */
  predicate ShookHands(c: Setup, log: seq<Request>, i: nat)
    requires i < |log|
  {
    log[i] == Capabilities && Agreed(c, c.opener(log[..i], Capabilities))
  }

  /** No post precedes a successful handshake. */
  ghost predicate PostsAreCovered(c: Setup, log: seq<Request>) {
    forall j :: 0 <= j < |log| && log[j].Post? ==> exists i :: 0 <= i < j && ShookHands(c, log, i)
  }

  class GatewaySink {
    const c: Setup
    const endpoint: string
    const isDeliveryPath: bool
    var compatibilityVerified: bool
    /** Every request made so far: what the other side has seen. */
    var log: seq<Request>

    ghost predicate Valid()
      reads this
    {
      PostsAreCovered(c, log) && (compatibilityVerified ==> exists i :: 0 <= i < |log| && ShookHands(c, log, i))
    }

    constructor (c: Setup, endpoint: string, isDeliveryPath: bool)
      ensures Valid() && log == [] && !compatibilityVerified
      ensures this.c == c && this.endpoint == endpoint && this.isDeliveryPath == isDeliveryPath
    {
      this.c, this.endpoint, this.isDeliveryPath := c, endpoint, isDeliveryPath;
      compatibilityVerified, log := false, [];
    }

    /** What one call does, whatever came before. */
    method Emit(emissions: seq<Emission>) returns (error: Option<SinkError>)
      requires Valid()
      modifies this
      ensures Valid()
      ensures Prepared(c, emissions).Fail? ==> error == Some(Prepared(c, emissions).error)
      ensures Prepared(c, emissions).Ok? && endpoint == "" ==> error == Some(Gated)
      ensures Prepared(c, emissions).Ok? && endpoint != "" && !isDeliveryPath ==>
                error == Some(ProtocolMismatch("delivery_endpoint_not_v2"))
      ensures Prepared(c, emissions).Fail? || endpoint == "" || !isDeliveryPath ==>
                log == old(log) && compatibilityVerified == old(compatibilityVerified)
      ensures Prepared(c, emissions).Ok? && endpoint != "" && isDeliveryPath ==>
                var refused :=
                  if old(compatibilityVerified) then None else HandshakeError(c, c.opener(old(log), Capabilities));
                var greeted := if old(compatibilityVerified) then old(log) else old(log) + [Capabilities];
                if refused.Some? then error == refused && log == greeted && !compatibilityVerified
                else Posted(log, error) == PostFrom(c, greeted, Prepared(c, emissions).value) && compatibilityVerified
      ensures Emitted(log, compatibilityVerified, error) ==
              EmitFrom(c, endpoint, isDeliveryPath, Emitted(old(log), old(compatibilityVerified), None), emissions)
    {
      var prepared := Prepared(c, emissions);
      if prepared.Fail? {
        return Some(prepared.error);
      }
      if endpoint == "" {
        return Some(Gated);
      }
      if !isDeliveryPath {
        return Some(ProtocolMismatch("delivery_endpoint_not_v2"));
      }
      error := VerifyCompatibility();
      if error.Some? {
        return;
      }
      error := PostAll(prepared.value);
    }

    method VerifyCompatibility() returns (error: Option<SinkError>)
      requires Valid()
      modifies this
      ensures Valid()
      ensures old(compatibilityVerified) ==> error == None && log == old(log)
      ensures !old(compatibilityVerified) ==>
                error == HandshakeError(c, c.opener(old(log), Capabilities)) && log == old(log) + [Capabilities]
      ensures compatibilityVerified == (error == None)
    {
      if compatibilityVerified {
        return None;
      }
      error := HandshakeError(c, c.opener(log, Capabilities));
      ghost var before := log;
      log := log + [Capabilities];
      CoverExtends(c, before, Capabilities);
      if error.None? {
        assert log[..|before|] == before && ShookHands(c, log, |before|);
        compatibilityVerified := true;
      }
    }

    method PostAll(prepared: seq<Emission>) returns (error: Option<SinkError>)
      requires Valid() && compatibilityVerified
      modifies this`log
      ensures Valid() && Posted(log, error) == PostFrom(c, old(log), prepared)
    {
      var i := 0;
      while i < |prepared|
        modifies this`log
        invariant i <= |prepared| && Valid()
        invariant PostFrom(c, log, prepared[i..]) == PostFrom(c, old(log), prepared)
      {
        assert prepared[i..][1..] == prepared[i + 1..];
        var payload := c.envelope(prepared[i]);
        if payload.None? {
          return Some(NotSendable);
        }
        var request := Post(payload.value);
        error := PostError(c.opener(log, request));
        ghost var before := log;
        CoverExtends(c, before, request);
        log := log + [request];
        if error.Some? {
          return;
        }
        i := i + 1;
      }
      error := None;
    }
  }

  predicate OneLine(value: string) {
    forall i :: 0 <= i < |value| ==> value[i] != '\r' && value[i] != '\n'
  }

  /** A sink is made exactly when neither the token nor a header value has a line break in it. */
  method NewSink(c: Setup, endpoint: string, isDeliveryPath: bool, values: seq<string>)
    returns (sink: Option<GatewaySink>)
    ensures sink.Some? <==> forall k :: 0 <= k < |values| ==> OneLine(values[k])
    ensures sink.Some? ==> fresh(sink.value) && sink.value.Valid() && sink.value.log == [] && sink.value.c == c
  {
    for k := 0 to |values|
      invariant forall m :: 0 <= m < k ==> OneLine(values[m])
    {
      if !OneLine(values[k]) {
        return None;
      }
    }
    var made := new GatewaySink(c, endpoint, isDeliveryPath);
    sink := Some(made);
  }

  lemma CoverExtends(c: Setup, log: seq<Request>, request: Request)
    requires PostsAreCovered(c, log)
    requires request.Post? ==> exists i :: 0 <= i < |log| && ShookHands(c, log, i)
    ensures PostsAreCovered(c, log + [request])
    ensures (exists i :: 0 <= i < |log| && ShookHands(c, log, i)) ==>
            exists i :: 0 <= i < |log + [request]| && ShookHands(c, log + [request], i)
  {
    var next := log + [request];
    forall i | 0 <= i < |log| ensures ShookHands(c, log, i) <==> ShookHands(c, next, i) {
      assert next[..i] == log[..i];
    }
    forall j | 0 <= j < |next| && next[j].Post? ensures exists i :: 0 <= i < j && ShookHands(c, next, i) {
      if j < |log| {
        var i :| 0 <= i < j && ShookHands(c, log, i);
        assert ShookHands(c, next, i);
      } else {
        var i :| 0 <= i < |log| && ShookHands(c, log, i);
        assert ShookHands(c, next, i);
      }
    }
  }

  // ---------- What is prepared ----------

  /** Preparation succeeds exactly when every emission passes the screen and carries, or gets, a good receipt. */
  lemma {:induction false} PreparedExactly(c: Setup, es: seq<Emission>)
    ensures Prepared(c, es).Ok? <==>
            forall i :: 0 <= i < |es| ==>
              c.screen(es[i]) == None && c.checkReceipt(WithReceipt(c, es[i]).metadata) == None
    ensures Prepared(c, es).Ok? ==> |Prepared(c, es).value| == |es|
    ensures Prepared(c, es).Ok? ==>
            forall i :: 0 <= i < |es| ==> Prepared(c, es).value[i] == WithReceipt(c, es[i])
  {
    ScreenedExactly(c, es);
    ReceiptedExactly(c, es);
  }

  lemma {:induction false} ScreenedExactly(c: Setup, es: seq<Emission>)
    ensures Screened(c, es) == None <==> forall i :: 0 <= i < |es| ==> c.screen(es[i]) == None
  {
    if es != [] {
      ScreenedExactly(c, es[1..]);
      if Screened(c, es) == None {
        forall i | 0 <= i < |es| ensures c.screen(es[i]) == None { if i > 0 { assert es[i] == es[1..][i - 1]; } }
      } else if c.screen(es[0]) == None {
        var i :| 0 <= i < |es[1..]| && c.screen(es[1..][i]) != None;
        assert es[i + 1] == es[1..][i];
      }
    }
  }

  lemma {:induction false} ReceiptedExactly(c: Setup, es: seq<Emission>)
    ensures Receipted(c, es).Ok? <==>
            forall i :: 0 <= i < |es| ==> c.checkReceipt(WithReceipt(c, es[i]).metadata) == None
    ensures Receipted(c, es).Ok? ==> |Receipted(c, es).value| == |es|
    ensures Receipted(c, es).Ok? ==>
            forall i :: 0 <= i < |es| ==> Receipted(c, es).value[i] == WithReceipt(c, es[i])
  {
    if es != [] {
      ReceiptedExactly(c, es[1..]);
      if Receipted(c, es).Ok? {
        forall i | 0 <= i < |es|
          ensures c.checkReceipt(WithReceipt(c, es[i]).metadata) == None
          ensures Receipted(c, es).value[i] == WithReceipt(c, es[i])
        {
          if i > 0 { assert es[i] == es[1..][i - 1]; }
        }
      } else if c.checkReceipt(WithReceipt(c, es[0]).metadata) == None {
        var i :| 0 <= i < |es[1..]| && c.checkReceipt(WithReceipt(c, es[1..][i]).metadata) != None;
        assert es[i + 1] == es[1..][i];
      }
    }
  }
}
