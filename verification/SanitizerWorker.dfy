/**
 The guarded sanitizer: any number of callers share one lock and one child process, which may hang,
 crash or be killed at any moment. A caller's thread and the worker are interleaved step by step;
 spawning, sending and receiving take no time, waiting does.
 */
module SanitizerWorker {
  import opened Lru
  import opened Observations

  type CallId = nat
  type ProcessId = nat

  datatype Request = Request(observation: Observation, completedAt: Option<string>)

  datatype Answer = Answered(reply: (Observation, Receipts.Receipt)) | Refused(reason: string)

  import Receipts

  /** What travels on a pipe. The call a message belongs to is not sent: it is a label for the proof. */
  datatype Letter = Letter(call: CallId, request: Request)
  datatype Note = Note(call: CallId, answer: Answer)

  /** A worker process with its pipe: what it has still to read, what it works on, what it wrote. */
  datatype Process = Process(alive: bool, inbox: seq<Letter>, doing: Option<Letter>, outbox: seq<Note>)

  datatype Outcome = Received(note: Note) | Failed(reason: string)

  datatype Phase =
    | Waiting                                  // for the lock
    | Holding                                  // has the lock
    | Checked                                  // has found or spawned a worker
    | Sent(since: real)                        // polls for the reply
    | Ready                                    // is about to receive
    | Joining(until: real, reason: string)     // has terminated the worker
    | Killed(until: real, reason: string)      // has killed the worker
    | Done(outcome: Outcome, at: real)

  datatype Call = Call(request: Request, started: real, deadline: real, phase: Phase)

  datatype State = State(
    now: real, lock: Option<CallId>, calls: map<CallId, Call>,
    processes: map<ProcessId, Process>, current: Option<ProcessId>)

  const JOIN_GRACE := 2.0
  const CLEANUP_TOLERANCE := 5.0

  /** The answers a worker may give to a request. */
  type Answers = (Request, Answer) -> bool

  datatype Step =
    | Tick(d: real)
    | Start(c: CallId, request: Request, budget: real)
    | Refuse(c: CallId)
    | Acquire(c: CallId)
    | Reuse(c: CallId)
    | Respawn(c: CallId, p: ProcessId)
    | Send(c: CallId)
    | SendFails(c: CallId)
    | PollReady(c: CallId)
    | PollTimesOut(c: CallId)
    | Receive(c: CallId)
    | ReceiveFails(c: CallId)
    | Escalate(c: CallId)
    | Reap(c: CallId)
    | WorkerTakes(p: ProcessId)
    | WorkerReplies(p: ProcessId, answer: Answer)
    | WorkerDies(p: ProcessId)

  // ---------- When a step can be taken ----------

  predicate Alive(s: State) {
    s.current.Some? && s.current.value in s.processes && s.processes[s.current.value].alive
  }

  predicate In(s: State, c: CallId, phase: Phase -> bool) {
    c in s.calls && phase(s.calls[c].phase)
  }

  /** Time may pass to `t` without this call missing its turn. */
  predicate MayWait(call: Call, t: real) {
    match call.phase
    case Done(_, _) => true
    case Waiting => t <= call.deadline
    case Sent(_) => t <= call.deadline
    case Joining(until, _) => t <= until
    case Killed(until, _) => t <= until
    case _ => false
  }

  predicate HasCurrent(s: State) {
    s.current.Some? && s.current.value in s.processes
  }

  function Current(s: State): Process
    requires HasCurrent(s)
  {
    s.processes[s.current.value]
  }

  /** A step of a caller's thread. */
  predicate OfCaller(step: Step) {
    !step.Tick? && !step.Start? && !step.WorkerTakes? && !step.WorkerReplies? && !step.WorkerDies?
  }

  predicate CallEnabled(s: State, step: Step)
    requires OfCaller(step)
  {
    step.c in s.calls &&
    var call := s.calls[step.c];
    match step
    case Refuse(_) => call.phase.Waiting? && s.now >= call.deadline
    case Acquire(_) => call.phase.Waiting? && s.lock == None && s.now <= call.deadline && call.started < call.deadline
    case Reuse(_) => call.phase.Holding? && Alive(s)
    case Respawn(_, p) => call.phase.Holding? && !Alive(s) && p !in s.processes
    case Send(_) => call.phase.Checked? && HasCurrent(s)
    case SendFails(_) => call.phase.Checked?
    case PollReady(_) =>
      call.phase.Sent? && call.phase.since < call.deadline && s.now <= call.deadline &&
      HasCurrent(s) && (Current(s).outbox != [] || !Current(s).alive)
    case PollTimesOut(_) => call.phase.Sent? && s.now >= call.deadline
    case Receive(_) => call.phase.Ready? && HasCurrent(s) && Current(s).outbox != []
    case ReceiveFails(_) => call.phase.Ready? && HasCurrent(s) && Current(s).outbox == [] && !Current(s).alive
    case Escalate(_) => call.phase.Joining? && s.now >= call.phase.until && Alive(s)
    case Reap(_) => (call.phase.Joining? || call.phase.Killed?) && !Alive(s)
  }

  predicate Enabled(answers: Answers, s: State, step: Step) {
    match step
    case Tick(d) => d > 0.0 && forall c :: c in s.calls ==> MayWait(s.calls[c], s.now + d)
    case Start(c, _, _) => c !in s.calls
    case WorkerTakes(p) =>
      p in s.processes && s.processes[p].alive && s.processes[p].doing == None && s.processes[p].inbox != []
    case WorkerReplies(p, answer) =>
      p in s.processes && s.processes[p].alive && s.processes[p].doing.Some? &&
      answers(s.processes[p].doing.value.request, answer)
    case WorkerDies(p) => p in s.processes && s.processes[p].alive
    case _ => CallEnabled(s, step)
  }

  // ---------- What a step does ----------

  function Enter(s: State, c: CallId, phase: Phase): State
    requires c in s.calls
  {
    s.(calls := s.calls[c := s.calls[c].(phase := phase)])
  }

  /** The call ends and its `finally` releases the lock. */
  function Finish(s: State, c: CallId, outcome: Outcome): State
    requires c in s.calls
  {
    Enter(s, c, Done(outcome, s.now)).(lock := None)
  }

  /** `_kill`, then raise: a live process is terminated and joined, a dead one only forgotten. */
  function StartKill(s: State, c: CallId, reason: string): State
    requires c in s.calls
  {
    if Alive(s) then Enter(s, c, Joining(s.now + JOIN_GRACE, reason))
    else Finish(s, c, Failed(reason)).(current := None)
  }

  function Store(s: State, p: ProcessId, x: Process): State {
    s.(processes := s.processes[p := x])
  }

  function NextOfCall(s: State, step: Step): State
    requires OfCaller(step)
    requires CallEnabled(s, step)
  {
    var call := s.calls[step.c];
    match step
    case Refuse(c) => Enter(s, c, Done(Failed("timeout"), s.now))
    case Acquire(c) => Enter(s, c, Holding).(lock := Some(c))
    case Reuse(c) => Enter(s, c, Checked)
    case Respawn(c, p) => Store(Enter(s, c, Checked), p, Process(true, [], None, [])).(current := Some(p))
    case Send(c) =>
      var w := Current(s);
      Store(Enter(s, c, Sent(s.now)), s.current.value, w.(inbox := w.inbox + [Letter(c, call.request)]))
    case SendFails(c) => StartKill(s, c, "unsupported_payload")
    case PollReady(c) => Enter(s, c, Ready)
    case PollTimesOut(c) => StartKill(s, c, "timeout")
    case Receive(c) =>
      var w := Current(s);
      Store(Finish(s, c, Received(w.outbox[0])), s.current.value, w.(outbox := w.outbox[1..]))
    case ReceiveFails(c) => StartKill(s, c, "engine_unavailable")
    case Escalate(c) => Enter(s, c, Killed(s.now + JOIN_GRACE, call.phase.reason))
    case Reap(c) => Finish(s, c, Failed(call.phase.reason)).(current := None)
  }

  function Next(answers: Answers, s: State, step: Step): State
    requires Enabled(answers, s, step)
  {
    match step
    case Tick(d) => s.(now := s.now + d)
    case Start(c, request, budget) => s.(calls := s.calls[c := Call(request, s.now, s.now + budget, Waiting)])
    case WorkerTakes(p) =>
      var w := s.processes[p];
      Store(s, p, w.(inbox := w.inbox[1..], doing := Some(w.inbox[0])))
    case WorkerReplies(p, answer) =>
      var w := s.processes[p];
      Store(s, p, w.(doing := None, outbox := w.outbox + [Note(w.doing.value.call, answer)]))
    case WorkerDies(p) => Store(s, p, s.processes[p].(alive := false, doing := None))
    case _ => NextOfCall(s, step)
  }

  /** Before the first call there is no worker. */
  predicate Initial(s: State) {
    s.lock == None && s.calls == map[] && s.processes == map[] && s.current == None
  }

  ghost predicate Run(answers: Answers, states: seq<State>, steps: seq<Step>) {
    |states| == |steps| + 1 && Initial(states[0]) && Connected(answers, states, steps)
  }

  ghost predicate Connected(answers: Answers, states: seq<State>, steps: seq<Step>) {
    |states| == |steps| + 1 &&
    forall i {:trigger steps[i]} :: 0 <= i < |steps| ==>
      Enabled(answers, states[i], steps[i]) && states[i + 1] == Next(answers, states[i], steps[i])
  }

  // ---------- The invariant ----------

  predicate HoldsLock(phase: Phase) {
    !phase.Waiting? && !phase.Done?
  }

  ghost predicate LockInv(s: State) {
    (s.lock.Some? ==> s.lock.value in s.calls) &&
    forall c :: c in s.calls ==> (HoldsLock(s.calls[c].phase) <==> s.lock == Some(c))
  }

  /** Only the current process can be alive. */
  ghost predicate LiveInv(s: State) {
    (s.current.Some? ==> s.current.value in s.processes) &&
    forall p :: p in s.processes && s.processes[p].alive ==> s.current == Some(p)
  }

  predicate Clean(w: Process) {
    w.inbox == [] && w.doing == None && w.outbox == []
  }

  /** The request of call `c` is somewhere on its way, or lost in a crash. */
  predicate Outstanding(answers: Answers, w: Process, c: CallId, request: Request) {
    || (w.inbox == [Letter(c, request)] && w.doing == None && w.outbox == [])
    || (w.inbox == [] && w.doing == Some(Letter(c, request)) && w.outbox == [])
    || (w.inbox == [] && w.doing == None && |w.outbox| == 1 && w.outbox[0].call == c &&
        answers(request, w.outbox[0].answer))
    || (Clean(w) && !w.alive)
  }

  /** What the current pipe carries while call `c` holds the lock. */
  predicate PipeOf(answers: Answers, call: Call, c: CallId, current: Option<Process>) {
    match call.phase
    case Holding => current.Some? ==> Clean(current.value)
    case Checked => current.Some? && Clean(current.value)
    case Sent(_) => current.Some? && Outstanding(answers, current.value, c, call.request)
    case Ready =>
      current.Some? && Outstanding(answers, current.value, c, call.request) &&
      (current.value.outbox != [] || !current.value.alive)
    case _ => current.Some? && (Clean(current.value) || Outstanding(answers, current.value, c, call.request))
  }

  function CurrentProcess(s: State): Option<Process> {
    if HasCurrent(s) then Some(Current(s)) else None
  }

  /** A free lock means no outstanding request or reply on the current pipe. */
  predicate PipeInv(answers: Answers, s: State) {
    if s.lock.Some? && s.lock.value in s.calls then
      PipeOf(answers, s.calls[s.lock.value], s.lock.value, CurrentProcess(s))
    else CurrentProcess(s).Some? ==> Clean(CurrentProcess(s).value)
  }

  predicate Matched(answers: Answers, call: Call, c: CallId) {
    call.phase.Done? && call.phase.outcome.Received? ==>
      call.phase.outcome.note.call == c && answers(call.request, call.phase.outcome.note.answer)
  }

  function Max(a: real, b: real): real { if a <= b then b else a }

  /** Where the call may be at time `now`, given its deadline. */
  predicate OnTime(call: Call, now: real) {
    call.started <= now &&
    match call.phase
    case Waiting => now <= Max(call.started, call.deadline)
    case Done(_, at) => at <= now && at <= Max(call.started, call.deadline) + 2.0 * JOIN_GRACE
    case Joining(until, _) => now <= until <= call.deadline + JOIN_GRACE
    case Killed(until, _) => now <= until <= call.deadline + 2.0 * JOIN_GRACE
    case Sent(since) => since <= now <= call.deadline
    case _ => now <= call.deadline
  }

  ghost predicate CallsInv(answers: Answers, s: State) {
    forall c :: c in s.calls ==> Matched(answers, s.calls[c], c) && OnTime(s.calls[c], s.now)
  }

  ghost predicate Inv(answers: Answers, s: State) {
    LockInv(s) && LiveInv(s) && PipeInv(answers, s) && CallsInv(answers, s)
  }
}
