/** What the runtime does with its cursor after a delivery attempt. */
module CursorPolicy {
  import opened Lru
  import opened Strings
  import opened Gateway

  datatype Verdict = Advance | Retry | Quarantine

  datatype TerminalReason = GovernanceVeto | PayloadInvalid | UnknownClientError

  datatype QuarantineReason = SensitiveDataRejected | SchemaDrift

  datatype CursorAction =
    CursorAction(verdict: Verdict, terminal: Option<TerminalReason>, quarantine: Option<QuarantineReason>, status: int)

  const SensitiveReasons: set<string> := {"sensitive_data_rejected", "secret_detected", "phi_detected", "pan_detected"}
  const DriftReasons: set<string> := {"schema_invalid", "schema_drift", "envelope_malformed", "protocol_mismatch"}

  predicate Opaque(reason: string) { Lowered(reason) == "" || Lowered(reason) == "gateway_rejected" }

  predicate IsSensitiveRejection(status: int, reason: string) {
    (exists w :: w in SensitiveReasons && Contains(Lowered(reason), w)) || (status == 422 && Opaque(reason))
  }

  predicate IsSchemaDrift(status: int, reason: string) {
    (exists w :: w in DriftReasons && Contains(Lowered(reason), w)) || (status == 400 && Opaque(reason))
  }

  predicate IsRetryable(status: int) { status == 0 || status == 429 || status >= 500 }

  function Classified(status: int): TerminalReason {
    if status == 400 then PayloadInvalid else if status == 403 then GovernanceVeto else UnknownClientError
  }

  function ResolveCursorAction(status: int, reason: string): CursorAction {
    if status == 201 then CursorAction(Advance, None, None, status)
    else if IsSensitiveRejection(status, reason) then
      CursorAction(Quarantine, None, Some(SensitiveDataRejected), status)
    else if IsSchemaDrift(status, reason) then CursorAction(Quarantine, None, Some(SchemaDrift), status)
    else if IsRetryable(status) then CursorAction(Retry, None, None, status)
    else if 400 <= status < 500 then CursorAction(Advance, Some(Classified(status)), None, status)
    else CursorAction(Retry, None, None, status)
  }

  /** The cursor advances as if the evidence had been ingested. */
  predicate CleanAdvance(a: CursorAction) { a.verdict == Advance && a.terminal == None }

  // ---------- The policy on the sink's errors ----------

  /** A failed post is taken for a success exactly when the opener raised an HTTP error whose code is 201. */
  lemma CleanAdvanceExactly(o: Outcome)
    requires PostError(o).Some?
    ensures PostError(o).value.Transport?
    ensures CleanAdvance(ResolveCursorAction(PostError(o).value.status, PostError(o).value.reason)) <==>
            o == HttpError(201)
  {
  }

  /** A failed handshake never is. */
  lemma HandshakeNeverAdvances(c: Setup, o: Outcome)
    requires HandshakeError(c, o).Some?
    ensures HandshakeError(c, o).value.Transport?
    ensures ResolveCursorAction(HandshakeError(c, o).value.status, HandshakeError(c, o).value.reason).verdict != Advance
  {
  }

  /** The last request of this call is a post, answered by an HTTP error 201. */
  predicate AnsweredBy201(c: Setup, before: seq<Request>, log: seq<Request>) {
    |log| > |before| && log[|log| - 1].Post? && c.opener(log[..|log| - 1], log[|log| - 1]) == HttpError(201)
  }

  lemma FailedPostExactly(c: Setup, log: seq<Request>, es: seq<Emission>)
    requires PostFrom(c, log, es).error.Some? && PostFrom(c, log, es).error.value.Transport?
    ensures var posted := PostFrom(c, log, es);
            var e := posted.error.value;
            CleanAdvance(ResolveCursorAction(e.status, e.reason)) <==> AnsweredBy201(c, log, posted.log)
  {
    var n := PostedIsPrefix(c, log, es);
    var posted := PostFrom(c, log, es).log;
    assert posted[..|posted| - 1] == log + Posts(c, es[..n - 1]);
    CleanAdvanceExactly(Answer(c, log, es, n - 1));
  }

  /** Of the errors of a whole `emit`, those the policy takes for a success are exactly those after an HTTP
      error 201: never a refused handshake, nor any other failure of a post. */
  lemma FailedEmitExactly(c: Setup, endpoint: string, isDeliveryPath: bool, before: Emitted, es: seq<Emission>)
    requires var after := EmitFrom(c, endpoint, isDeliveryPath, before, es);
             after.error.Some? && after.error.value.Transport?
    ensures var after := EmitFrom(c, endpoint, isDeliveryPath, before, es);
            var e := after.error.value;
            CleanAdvance(ResolveCursorAction(e.status, e.reason)) <==> AnsweredBy201(c, before.log, after.log)
  {
    if Prepared(c, es).Ok? && endpoint != "" && isDeliveryPath {
      var answer := c.opener(before.log, Capabilities);
      var greeted := if before.verified then before.log else before.log + [Capabilities];
      if !before.verified && HandshakeError(c, answer).Some? {
        HandshakeNeverAdvances(c, answer);
      } else {
        var n := PostedIsPrefix(c, greeted, Prepared(c, es).value);
        FailedPostExactly(c, greeted, Prepared(c, es).value);
      }
    } else {
      PreparedFails(c, es);
    }
  }

  /** What fails before any request is no failure of the transport. */
  lemma PreparedFails(c: Setup, es: seq<Emission>)
    ensures Prepared(c, es).Fail? ==> !Prepared(c, es).error.Transport?
  {
    ReceiptFails(c, es);
  }

  lemma {:induction false} ReceiptFails(c: Setup, es: seq<Emission>)
    ensures Receipted(c, es).Fail? ==> Receipted(c, es).error.RedactionGated?
  {
    if es != [] { ReceiptFails(c, es[1..]); }
  }

  /** An opener that raises HTTP errors outside 2xx only, as `urllib` does: no failed `emit` ever advances the
      cursor as if it had succeeded. */
  lemma FailedEmitNeverAdvancesCleanly(c: Setup, endpoint: string, isDeliveryPath: bool, before: Emitted,
                                       es: seq<Emission>)
    requires forall seen, request, code :: c.opener(seen, request) == HttpError(code) ==> !(200 <= code < 300)
    requires var after := EmitFrom(c, endpoint, isDeliveryPath, before, es);
             after.error.Some? && after.error.value.Transport?
    ensures var e := EmitFrom(c, endpoint, isDeliveryPath, before, es).error.value;
            !CleanAdvance(ResolveCursorAction(e.status, e.reason))
  {
    FailedEmitExactly(c, endpoint, isDeliveryPath, before, es);
  }

  // ---------- The table for HTTP errors ----------

  lemma Lacks(s: string, w: string, k: nat)
    requires k < |w|
    ensures Contains(s, w) ==> w[k] in s
  {
    if p :| 0 <= p <= |s| && StandsAt(s, p, w) {
      assert s[p..p + |w|][k] == w[k] && s[p + k] in s;
    }
  }

  lemma OpaqueReasonNamesNothing()
    ensures Lowered("gateway_rejected") == "gateway_rejected"
    ensures forall w :: w in SensitiveReasons + DriftReasons ==> !Contains("gateway_rejected", w)
  {
    var s := "gateway_rejected";
    Lacks(s, "sensitive_data_rejected", 0);
    Lacks(s, "secret_detected", 0);
    Lacks(s, "phi_detected", 0);
    Lacks(s, "pan_detected", 0);
    Lacks(s, "schema_invalid", 0);
    Lacks(s, "schema_drift", 0);
    Lacks(s, "envelope_malformed", 1);
    Lacks(s, "protocol_mismatch", 0);
  }

  /** What becomes of a rejection by HTTP status: 422 and 400 are quarantined, 429 and 5xx retried, other
      4xx recorded and passed over. */
  lemma RejectionTable(code: int)
    ensures var a := ResolveCursorAction(code, "gateway_rejected");
            (a.quarantine == Some(SensitiveDataRejected) <==> code == 422) &&
            (a.quarantine == Some(SchemaDrift) <==> code == 400) &&
            (a.terminal.Some? <==> 400 <= code < 500 && code !in {400, 422, 429}) &&
            (a.verdict == Advance <==> code == 201 || a.terminal.Some?) &&
            (a.verdict == Quarantine <==> code == 400 || code == 422)
  {
    OpaqueReasonNamesNothing();
  }

  // ---------- The table for any status and reason ----------

  /** The reason says nothing: it is empty, or the sink's own. */
  ghost predicate SaysNothing(reason: string) {
    reason == "" || (|reason| == 16 && SpelledAt(reason, 0, "gateway_rejected"))
  }

  ghost predicate NamesSensitive(reason: string) {
    Names(reason, "sensitive_data_rejected") || Names(reason, "secret_detected") || Names(reason, "phi_detected") ||
    Names(reason, "pan_detected")
  }

  ghost predicate NamesDrift(reason: string) {
    Names(reason, "schema_invalid") || Names(reason, "schema_drift") || Names(reason, "envelope_malformed") ||
    Names(reason, "protocol_mismatch")
  }

  lemma OpaqueExactly(reason: string)
    ensures Opaque(reason) <==> SaysNothing(reason)
  {
    assert |Lowered(reason)| == |reason|;
    if |reason| == 16 {
      SpelledExactly(reason, 0, "gateway_rejected");
      assert Lowered(reason)[0..16] == Lowered(reason);
    }
  }

  lemma SensitiveWords(reason: string)
    ensures (exists w :: w in SensitiveReasons && Contains(Lowered(reason), w)) <==> NamesSensitive(reason)
  {
    NamesExactly(reason, "sensitive_data_rejected");
    NamesExactly(reason, "secret_detected");
    NamesExactly(reason, "phi_detected");
    NamesExactly(reason, "pan_detected");
    AnyOfFour(Lowered(reason), SensitiveReasons, "sensitive_data_rejected", "secret_detected", "phi_detected",
              "pan_detected");
  }

  lemma DriftWords(reason: string)
    ensures (exists w :: w in DriftReasons && Contains(Lowered(reason), w)) <==> NamesDrift(reason)
  {
    NamesExactly(reason, "schema_invalid");
    NamesExactly(reason, "schema_drift");
    NamesExactly(reason, "envelope_malformed");
    NamesExactly(reason, "protocol_mismatch");
    AnyOfFour(Lowered(reason), DriftReasons, "schema_invalid", "schema_drift", "envelope_malformed",
              "protocol_mismatch");
  }

  lemma AnyOfFour(s: string, words: set<string>, a: string, b: string, c: string, d: string)
    requires words == {a, b, c, d}
    ensures (exists w :: w in words && Contains(s, w)) <==>
            Contains(s, a) || Contains(s, b) || Contains(s, c) || Contains(s, d)
  {
  }

  /** A 422 that says nothing, and whatever names sensitive data. */
  ghost predicate Sensitive(code: int, reason: string) {
    NamesSensitive(reason) || (code == 422 && SaysNothing(reason))
  }

  /** A 400 that says nothing, and whatever names a stale mapping, if it is not sensitive. */
  ghost predicate Drifted(code: int, reason: string) {
    !Sensitive(code, reason) && (NamesDrift(reason) || (code == 400 && SaysNothing(reason)))
  }

  /** What becomes of any answer: 201 advances. Otherwise what names sensitive data is quarantined, then what names
      drift, whatever its status. Of the rest the other client errors but 429 are passed over, 400 as an invalid
      payload and 403 as a veto, and everything else is tried again. */
  lemma VerdictTable(code: int, reason: string)
    ensures var a := ResolveCursorAction(code, reason);
            a.status == code &&
            (a.quarantine == Some(SensitiveDataRejected) <==> code != 201 && Sensitive(code, reason)) &&
            (a.quarantine == Some(SchemaDrift) <==> code != 201 && Drifted(code, reason)) &&
            (a.verdict == Quarantine <==> a.quarantine.Some?) &&
            (a.terminal.Some? <==>
             400 <= code < 500 && code != 429 && !Sensitive(code, reason) && !Drifted(code, reason)) &&
            (a.terminal.Some? ==>
             (a.terminal.value == PayloadInvalid <==> code == 400) &&
             (a.terminal.value == GovernanceVeto <==> code == 403)) &&
            (a.verdict == Advance <==> code == 201 || a.terminal.Some?) &&
            (a.verdict == Retry <==> code != 201 && a.quarantine == None && a.terminal == None)
  {
    SensitiveWords(reason);
    DriftWords(reason);
    OpaqueExactly(reason);
  }
}
