/** Every run of the guarded sanitizer keeps its invariant; what follows for callers and workers. */
module SanitizerWorkerProof {
  import opened Lru
  import opened SanitizerWorker
  import O = Observations
  import Sanitizer

  // ---------- Every step keeps the invariant ----------

  lemma CallStepKeepsLock(s: State, step: Step)
    requires OfCaller(step)
    requires LockInv(s) && CallEnabled(s, step)
    ensures LockInv(NextOfCall(s, step))
  {
  }

  lemma CallStepKeepsLive(s: State, step: Step)
    requires OfCaller(step)
    requires LiveInv(s) && CallEnabled(s, step)
    ensures LiveInv(NextOfCall(s, step))
  {
  }

  lemma CallStepKeepsPipe(answers: Answers, s: State, step: Step)
    requires OfCaller(step)
    requires LockInv(s) && LiveInv(s) && PipeInv(answers, s) && CallEnabled(s, step)
    ensures PipeInv(answers, NextOfCall(s, step))
  {
  }

  lemma CallStepKeepsCalls(answers: Answers, s: State, step: Step)
    requires OfCaller(step)
    requires LockInv(s) && PipeInv(answers, s) && CallsInv(answers, s) && CallEnabled(s, step)
    ensures CallsInv(answers, NextOfCall(s, step))
  {
  }

  lemma OtherStepKeepsLive(answers: Answers, s: State, step: Step)
    requires LockInv(s) && LiveInv(s) && Enabled(answers, s, step) && !OfCaller(step)
    ensures LockInv(Next(answers, s, step)) && LiveInv(Next(answers, s, step))
  {
  }

  lemma OtherStepKeepsPipe(answers: Answers, s: State, step: Step)
    requires LockInv(s) && LiveInv(s) && PipeInv(answers, s) && Enabled(answers, s, step) && !OfCaller(step)
    ensures PipeInv(answers, Next(answers, s, step))
  {
  }

  lemma OtherStepKeepsCalls(answers: Answers, s: State, step: Step)
    requires LockInv(s) && CallsInv(answers, s) && Enabled(answers, s, step) && !OfCaller(step)
    ensures CallsInv(answers, Next(answers, s, step))
  {
  }

  lemma StepKeepsInv(answers: Answers, s: State, step: Step)
    requires Inv(answers, s) && Enabled(answers, s, step)
    ensures Inv(answers, Next(answers, s, step))
  {
    if OfCaller(step) {
      CallStepKeepsLock(s, step);
      CallStepKeepsLive(s, step);
      CallStepKeepsPipe(answers, s, step);
      CallStepKeepsCalls(answers, s, step);
    } else {
      OtherStepKeepsLive(answers, s, step);
      OtherStepKeepsPipe(answers, s, step);
      OtherStepKeepsCalls(answers, s, step);
    }
  }

  lemma {:induction false} RunKeepsInv(answers: Answers, states: seq<State>, steps: seq<Step>, i: nat)
    requires Run(answers, states, steps) && i < |states|
    ensures Inv(answers, states[i])
  {
    if i > 0 {
      RunKeepsInv(answers, states, steps, i - 1);
      StepKeepsInv(answers, states[i - 1], steps[i - 1]);
    }
  }

  // ---------- What callers can rely on ----------

  /** What a caller receives is the worker's answer to that caller's own request. */
  lemma ReceivedIsOwn(answers: Answers, states: seq<State>, steps: seq<Step>, i: nat, c: CallId)
    requires Run(answers, states, steps) && i < |states| && c in states[i].calls
    requires states[i].calls[c].phase.Done? && states[i].calls[c].phase.outcome.Received?
    ensures var note := states[i].calls[c].phase.outcome.note;
            note.call == c && answers(states[i].calls[c].request, note.answer)
  {
    RunKeepsInv(answers, states, steps, i);
  }

  /** The answers of the real worker loop: the sanitizer's, at some reading of the clock, or an engine crash. */
  ghost predicate LoopAnswers(c: O.Setup, m: Request, a: Answer) {
    exists clock: string ::
      var r := O.SanitizedObservation(c, m.observation, m.completedAt, clock);
      match a
      case Answered(reply) => r == Sanitizer.Ok(reply)
      case Refused(reason) => r == Sanitizer.Failure(reason) || reason == "engine_unavailable"
  }

  /** With that worker, whatever a caller gets back is its own observation, sanitized. */
  lemma ReplyIsSanitized(c: O.Setup, states: seq<State>, steps: seq<Step>, i: nat, call: CallId)
    requires Run((m, a) => LoopAnswers(c, m, a), states, steps) && i < |states| && call in states[i].calls
    requires var phase := states[i].calls[call].phase; phase.Done? && phase.outcome.Received?
    requires states[i].calls[call].phase.outcome.note.answer.Answered?
    ensures var request := states[i].calls[call].request;
            exists clock: string ::
              O.SanitizedObservation(c, request.observation, request.completedAt, clock)
              == Sanitizer.Ok(states[i].calls[call].phase.outcome.note.answer.reply)
  {
    ReceivedIsOwn((m, a) => LoopAnswers(c, m, a), states, steps, i, call);
  }

  /** While the lock is free, nothing is on its way in the current pipe, and no worker is busy. */
  lemma FreeLockIsQuiet(answers: Answers, states: seq<State>, steps: seq<Step>, i: nat, p: ProcessId)
    requires Run(answers, states, steps) && i < |states| && states[i].lock == None
    requires p in states[i].processes && (states[i].processes[p].alive || states[i].current == Some(p))
    ensures Clean(states[i].processes[p])
  {
    RunKeepsInv(answers, states, steps, i);
    assert states[i].current == Some(p);
  }

  /** At most one worker process is alive. */
  lemma OneWorker(answers: Answers, states: seq<State>, steps: seq<Step>, i: nat, p: ProcessId, q: ProcessId)
    requires Run(answers, states, steps) && i < |states|
    requires p in states[i].processes && states[i].processes[p].alive
    requires q in states[i].processes && states[i].processes[q].alive
    ensures p == q
  {
    RunKeepsInv(answers, states, steps, i);
  }

  /** A call that has ended, in time or not, leaves no work with a live worker. */
  lemma NoLateWork(answers: Answers, states: seq<State>, steps: seq<Step>, i: nat, c: CallId, p: ProcessId)
    requires Run(answers, states, steps) && i < |states|
    requires c in states[i].calls && states[i].calls[c].phase.Done?
    requires p in states[i].processes && states[i].processes[p].alive
    ensures var w := states[i].processes[p];
            (w.doing.Some? ==> w.doing.value.call != c) &&
            (forall l :: l in w.inbox ==> l.call != c) && (forall n :: n in w.outbox ==> n.call != c)
  {
    RunKeepsInv(answers, states, steps, i);
    assert states[i].current == Some(p);
  }

  /** However many callers queue: a call has ended once its budget and two join graces have passed,
      and ends within the documented tolerance. */
  lemma EndsInTime(answers: Answers, states: seq<State>, steps: seq<Step>, i: nat, c: CallId)
    requires Run(answers, states, steps) && i < |states| && c in states[i].calls
    ensures var s, call := states[i], states[i].calls[c];
            var latest := call.started + Max(0.0, call.deadline - call.started) + 2.0 * JOIN_GRACE;
            (s.now > latest ==> call.phase.Done?) && (call.phase.Done? ==> call.phase.at <= latest) &&
            latest <= call.started + Max(0.0, call.deadline - call.started) + CLEANUP_TOLERANCE
  {
    RunKeepsInv(answers, states, steps, i);
  }

  // ---------- Outcomes are final ----------

  lemma StepKeepsOutcome(answers: Answers, s: State, step: Step, c: CallId)
    requires Enabled(answers, s, step) && c in s.calls
    ensures var s' := Next(answers, s, step);
            c in s'.calls && s'.calls[c].request == s.calls[c].request && s'.calls[c].deadline == s.calls[c].deadline &&
            (s.calls[c].phase.Done? ==> s'.calls[c] == s.calls[c])
  {
  }

  lemma {:induction false} OutcomeIsFinal(answers: Answers, states: seq<State>, steps: seq<Step>, i: nat, j: nat,
                                          c: CallId)
    requires Run(answers, states, steps) && i <= j < |states| && c in states[i].calls
    ensures c in states[j].calls && states[j].calls[c].request == states[i].calls[c].request
    ensures states[i].calls[c].phase.Done? ==> states[j].calls[c] == states[i].calls[c]
    decreases j
  {
    if i < j {
      OutcomeIsFinal(answers, states, steps, i, j - 1, c);
      StepKeepsOutcome(answers, states[j - 1], steps[j - 1], c);
    }
  }

  // ---------- Time is never stuck ----------

  ghost predicate Settled(s: State) {
    forall c :: c in s.calls ==> MayWaitMore(s.calls[c], s.now)
  }

  predicate MayWaitMore(call: Call, now: real) {
    match call.phase
    case Done(_, _) => true
    case Waiting => now < call.deadline
    case Sent(_) => now < call.deadline
    case Joining(until, _) => now < until
    case Killed(until, _) => now < until
    case _ => false
  }

  function Unfinished(s: State): set<CallId> {
    set c | c in s.calls && !s.calls[c].phase.Done?
  }

  function Rank(phase: Phase): nat {
    match phase
    case Holding => 5
    case Checked => 4
    case Sent(_) => 3
    case Joining(_, _) => 2
    case Killed(_, _) => 1
    case _ => 0
  }

  function HolderRank(s: State): nat {
    if s.lock.Some? && s.lock.value in s.calls then Rank(s.calls[s.lock.value].phase) else 0
  }

  /** A step that is due now. */
  lemma DueStep(answers: Answers, s: State, c: CallId) returns (step: Step)
    requires Inv(answers, s) && c in s.calls && !MayWaitMore(s.calls[c], s.now)
    requires s.calls[c].phase.Killed? ==> !Alive(s)
    ensures OfCaller(step) && step.c == c && Enabled(answers, s, step)
    ensures !step.Acquire? && !step.PollReady? && !step.SendFails?
  {
    var p := Unused(s.processes.Keys);
    match s.calls[c].phase
    case Waiting => step := Refuse(c);
    case Holding => step := if Alive(s) then Reuse(c) else Respawn(c, p);
    case Checked => step := Send(c);
    case Sent(_) => step := PollTimesOut(c);
    case Ready => step := if Current(s).outbox != [] then Receive(c) else ReceiveFails(c);
    case Joining(_, _) => step := if Alive(s) then Escalate(c) else Reap(c);
    case Killed(_, _) => step := Reap(c);
  }

  lemma {:induction false} Unused(used: set<nat>) returns (p: nat)
    ensures forall q :: q in used ==> q < p
    decreases |used|
  {
    p := 0;
    if used != {} {
      var q :| q in used;
      p := Unused(used - {q});
      p := if q < p then p else q + 1;
      assert forall x :: x in used ==> x == q || x in used - {q};
    }
  }

  /** A due step ends a call, or brings the lock holder closer to its end. */
  lemma DueStepDescends(answers: Answers, s: State, step: Step)
    requires Inv(answers, s) && OfCaller(step) && Enabled(answers, s, step)
    requires !step.Acquire? && !step.PollReady? && !step.SendFails?
    ensures var s' := Next(answers, s, step);
            Unfinished(s') < Unfinished(s) || (Unfinished(s') == Unfinished(s) && HolderRank(s') < HolderRank(s))
  {
    var s' := Next(answers, s, step);
    assert step.c in Unfinished(s);
    forall c | c != step.c ensures c in Unfinished(s) <==> c in Unfinished(s') {}
    if step.c in Unfinished(s') { assert Unfinished(s') == Unfinished(s); }
  }

  lemma DeathChangesNoCall(answers: Answers, s: State)
    requires Inv(answers, s) && Alive(s)
    ensures Enabled(answers, s, WorkerDies(s.current.value))
    ensures var s' := Next(answers, s, WorkerDies(s.current.value));
            s'.calls == s.calls && s'.lock == s.lock && s'.current == s.current && s'.now == s.now && !Alive(s')
  {
  }

  /** While a call is due, some step brings the state closer to one where none is. */
  lemma Descend(answers: Answers, s: State, c: CallId) returns (step: Step)
    requires Inv(answers, s) && c in s.calls && !MayWaitMore(s.calls[c], s.now)
    ensures Immediate(step) && Enabled(answers, s, step)
    ensures Closer(Next(answers, s, step), s)
  {
    if s.calls[c].phase.Killed? && Alive(s) {
      step := WorkerDies(s.current.value);
      DeathChangesNoCall(answers, s);
    } else {
      step := DueStep(answers, s, c);
      DueStepDescends(answers, s, step);
    }
  }

  ghost predicate Closer(t: State, s: State) {
    || Unfinished(t) < Unfinished(s)
    || (Unfinished(t) == Unfinished(s) &&
        (HolderRank(t) < HolderRank(s) || (HolderRank(t) == HolderRank(s) && !Alive(t) && Alive(s))))
  }

  lemma Prepend(answers: Answers, s: State, step: Step, states: seq<State>, steps: seq<Step>)
    requires Connected(answers, states, steps) && Enabled(answers, s, step) && states[0] == Next(answers, s, step)
    ensures Connected(answers, [s] + states, [step] + steps)
  {
    forall i | 0 <= i < |steps| + 1
      ensures Enabled(answers, ([s] + states)[i], ([step] + steps)[i]) &&
              ([s] + states)[i + 1] == Next(answers, ([s] + states)[i], ([step] + steps)[i])
    {
      if i > 0 { assert ([s] + states)[i] == states[i - 1] && ([step] + steps)[i] == steps[i - 1]; }
    }
  }

  predicate Immediate(step: Step) {
    !step.Tick? && !step.Start?
  }

  /** From every state, finitely many steps that take no time reach one where every call may wait. */
  lemma {:induction false} Settle(answers: Answers, s: State) returns (states: seq<State>, steps: seq<Step>)
    requires Inv(answers, s)
    ensures Connected(answers, states, steps) && states[0] == s && Settled(states[|steps|])
    ensures forall step :: step in steps ==> Immediate(step)
    decreases Unfinished(s), HolderRank(s), Alive(s)
  {
    if c :| c in s.calls && !MayWaitMore(s.calls[c], s.now) {
      var step := Descend(answers, s, c);
      StepKeepsInv(answers, s, step);
      states, steps := Settle(answers, Next(answers, s, step));
      Prepend(answers, s, step, states, steps);
      states, steps := [s] + states, [step] + steps;
    } else {
      states, steps := [s], [];
    }
  }

  lemma {:induction false} Slack(s: State, ids: set<CallId>) returns (d: real)
    requires Settled(s) && ids <= s.calls.Keys
    ensures d > 0.0 && forall c :: c in ids ==> MayWait(s.calls[c], s.now + d)
    decreases |ids|
  {
    d := 1.0;
    if ids != {} {
      var c :| c in ids;
      var e := Slack(s, ids - {c});
      var own := OwnSlack(s.calls[c], s.now);
      d := if own < e then own else e;
      forall x | x in ids ensures MayWait(s.calls[x], s.now + d) {
        if x != c { assert x in ids - {c}; }
      }
    }
  }

  lemma OwnSlack(call: Call, now: real) returns (d: real)
    requires MayWaitMore(call, now)
    ensures d > 0.0 && MayWait(call, now + d)
  {
    d := match call.phase
      case Waiting => call.deadline - now
      case Sent(_) => call.deadline - now
      case Joining(until, _) => until - now
      case Killed(until, _) => until - now
      case _ => 1.0;
  }

  /** Time is never stuck: every reachable state can go on, in no time, to one where time passes. */
  lemma TimePasses(answers: Answers, run: seq<State>, taken: seq<Step>)
      returns (states: seq<State>, steps: seq<Step>, d: real)
    requires Run(answers, run, taken)
    ensures Connected(answers, states, steps) && states[0] == run[|taken|]
    ensures forall step :: step in steps ==> Immediate(step)
    ensures Enabled(answers, states[|steps|], Tick(d))
  {
    RunKeepsInv(answers, run, taken, |taken|);
    states, steps := Settle(answers, run[|taken|]);
    d := Slack(states[|steps|], states[|steps|].calls.Keys);
  }

  // ---------- A healthy call succeeds ----------

  ghost predicate TwoSteps(answers: Answers, s: State, x: Step, y: Step, t: State) {
    Enabled(answers, s, x) && Enabled(answers, Next(answers, s, x), y) && t == Next(answers, Next(answers, s, x), y)
  }

  lemma PrependTwo(answers: Answers, s: State, x: Step, y: Step, states: seq<State>, steps: seq<Step>)
      returns (states': seq<State>, steps': seq<Step>)
    requires Connected(answers, states, steps) && TwoSteps(answers, s, x, y, states[0])
    ensures Connected(answers, states', steps') && states'[0] == s && states'[|steps'|] == states[|steps|]
    ensures steps' == [x, y] + steps
  {
    var m := Next(answers, s, x);
    Prepend(answers, m, y, states, steps);
    Prepend(answers, s, x, [m] + states, [y] + steps);
    states', steps' := [s] + ([m] + states), [x] + ([y] + steps);
  }

  /** The call, in that phase and with its deadline ahead, and the worker it uses. */
  ghost predicate Served(s: State, c: CallId, request: Request, w: Option<Process>) {
    c in s.calls && s.calls[c].request == request && s.now < s.calls[c].deadline && s.calls[c].started == s.now &&
    (w.Some? ==> Alive(s) && Current(s) == w.value)
  }

  lemma GetsLock(answers: Answers, s: State, c: CallId, request: Request, budget: real) returns (t: State)
    requires s.lock == None && c !in s.calls && budget > 0.0
    ensures TwoSteps(answers, s, Start(c, request, budget), Acquire(c), t)
    ensures Served(t, c, request, None) && t.calls[c].phase == Holding && t.now == s.now
    ensures t.processes == s.processes && t.current == s.current
  {
    t := Next(answers, Next(answers, s, Start(c, request, budget)), Acquire(c));
  }

  lemma SendsRequest(answers: Answers, s: State, c: CallId, request: Request) returns (x: Step, t: State)
    requires Served(s, c, request, None) && s.calls[c].phase == Holding && (Alive(s) ==> Clean(Current(s)))
    ensures TwoSteps(answers, s, x, Send(c), t) && (x == Reuse(c) || x.Respawn?)
    ensures Served(t, c, request, Some(Process(true, [Letter(c, request)], None, []))) &&
            t.calls[c].phase == Sent(t.now)
    ensures t.now == s.now
  {
    var p := Unused(s.processes.Keys);
    x := if Alive(s) then Reuse(c) else Respawn(c, p);
    t := Next(answers, Next(answers, s, x), Send(c));
  }

  lemma WorkerServes(answers: Answers, s: State, c: CallId, request: Request, answer: Answer) returns (t: State)
    requires Served(s, c, request, Some(Process(true, [Letter(c, request)], None, []))) && answers(request, answer)
    ensures TwoSteps(answers, s, WorkerTakes(s.current.value), WorkerReplies(s.current.value, answer), t)
    ensures Served(t, c, request, Some(Process(true, [], None, [Note(c, answer)]))) && t.calls == s.calls &&
            t.now == s.now
  {
    t := Next(answers, Next(answers, s, WorkerTakes(s.current.value)), WorkerReplies(s.current.value, answer));
  }

  lemma TakesReply(answers: Answers, s: State, c: CallId, request: Request, answer: Answer) returns (t: State)
    requires Served(s, c, request, Some(Process(true, [], None, [Note(c, answer)]))) && s.calls[c].phase == Sent(s.now)
    ensures TwoSteps(answers, s, PollReady(c), Receive(c), t)
    ensures c in t.calls && t.calls[c].phase == Done(Received(Note(c, answer)), s.now)
  {
    t := Next(answers, Next(answers, s, PollReady(c)), Receive(c));
  }

  /** Whatever crashed, hung or was killed before: once the lock is free, a call with any budget left
      can have its answer. */
  lemma HealthyCall(answers: Answers, s: State, c: CallId, request: Request, budget: real, answer: Answer)
      returns (states: seq<State>, steps: seq<Step>)
    requires Inv(answers, s) && s.lock == None && c !in s.calls && budget > 0.0 && answers(request, answer)
    ensures Connected(answers, states, steps) && states[0] == s
    ensures var t := states[|steps|];
            c in t.calls && t.calls[c].phase == Done(Received(Note(c, answer)), s.now)
  {
    var s2 := GetsLock(answers, s, c, request, budget);
    assert Alive(s2) ==> CurrentProcess(s2) == CurrentProcess(s);
    var x, s4 := SendsRequest(answers, s2, c, request);
    var s6 := WorkerServes(answers, s4, c, request, answer);
    var s8 := TakesReply(answers, s6, c, request, answer);
    states, steps := [s8], [];
    states, steps := PrependTwo(answers, s6, PollReady(c), Receive(c), states, steps);
    states, steps := PrependTwo(answers, s4, WorkerTakes(s4.current.value), WorkerReplies(s4.current.value, answer),
                                states, steps);
    states, steps := PrependTwo(answers, s2, x, Send(c), states, steps);
    states, steps := PrependTwo(answers, s, Start(c, request, budget), Acquire(c), states, steps);
  }
}
