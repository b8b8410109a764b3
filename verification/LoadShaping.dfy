/** Fleet-wide load shaping of OPC UA operations as an interleaving of atomic steps.

    Callers and queue workers share the global and per-session in-flight counters, the brownout flag
    and three bounded queues. Every atomic load, add, channel operation and function call is a
    step of its own, so a caller decides on a count that may have changed since it was loaded.
    What callers cannot control is part of the step: whether a breaker is found open, whether
    the pool is found closed and when a context expires. Loading the brownout flag and storing it
    count as one step, as storing the value that is there changes nothing. */
module LoadShaping {
  import opened Domain

  type OpId = nat
  type SessionId = nat

  /** `threshold` is the brownout threshold as a count. A per-endpoint limit of 0 means none. */
  datatype Config = Config(maxGlobal: int, threshold: int, maxPerEndpoint: int, queueSize: nat)

  datatype Caller =
    | Entered | CtxChecked | BreakerChecked | BrownoutChecked | EndpointChecked
    | Loaded
    | WillQueue | QueueGlobalAdded | QueueBothAdded | SendFailed | SendGlobalUndone
    | Waiting
    | WillRun | RunGlobalAdded | RunBothAdded | RunReady | Ran | RanGlobalDone
    | Returned

  datatype Request =
    | NoRequest | InQueue | Taken | DeadlineOk | Cleared | HasOutcome | Answered | GlobalDone | Finished

  /** One call. `loaded` is the global count it has loaded; the counters below `expired` only record what
      happened to it. */
  datatype Op = Op(
    session: Option<SessionId>, priority: nat, caller: Caller, loaded: int, req: Request, expired: bool,
    refused: bool, runs: nat, results: nat, globalAdds: nat, globalSubs: nat, sessionAdds: nat, sessionSubs: nat)

  /** `monitor` is the count the health monitor has loaded, if it is about to act on one. */
  datatype State = State(
    global: int, monitor: Option<int>, inFlight: map<SessionId, int>, brownout: bool, queues: seq<seq<OpId>>, ops: map<OpId, Op>)

  datatype Step =
    | Call(o: OpId, session: Option<SessionId>, priority: nat)
    | Expire(o: OpId)
    | MonitorLoad | MonitorSet
    | CheckCtx(o: OpId) | CheckBreaker(o: OpId, open: bool) | CheckBrownout(o: OpId) | CheckEndpoint(o: OpId)
    | LoadGlobal(o: OpId) | Decide(o: OpId, closed: bool)
    | AddGlobal(o: OpId) | AddSession(o: OpId) | TrySend(o: OpId) | UndoGlobal(o: OpId) | UndoSession(o: OpId)
    | TakeResult(o: OpId) | GiveUp(o: OpId)
    | LeaveBrownout(o: OpId) | RunInline(o: OpId) | DoneGlobal(o: OpId) | DoneSession(o: OpId)
    | Receive(o: OpId) | WorkerDeadline(o: OpId) | WorkerBreaker(o: OpId, open: bool) | WorkerRun(o: OpId)
    | WorkerAnswer(o: OpId) | WorkerGlobal(o: OpId) | WorkerSession(o: OpId)

  ghost predicate Init(s: State) {
    && s.global == 0 && s.monitor == None && (forall k :: k in s.inFlight ==> s.inFlight[k] == 0)
    && s.queues == [[], [], []] && s.ops == map[]
  }

  // ----- what a step does to its own operation -----

  function Refuse(op: Op): Op { op.(caller := Returned, refused := true) }

  /** Whether the operation is at the point the step takes it from. */
  predicate Ready(cfg: Config, s: State, step: Step, op: Op) {
    match step
    case Call(_, _, _) => false
    case Expire(_) => true
    case MonitorLoad | MonitorSet => false
    case CheckCtx(_) => op.caller == Entered
    case CheckBreaker(_, open) => op.caller == CtxChecked && (open ==> op.session.Some?)
    case CheckBrownout(_) => op.caller == BreakerChecked
    case CheckEndpoint(_) => op.caller == BrownoutChecked
    case LoadGlobal(_) => op.caller == EndpointChecked
    case Decide(_, _) => op.caller.Loaded?
    case AddGlobal(_) => op.caller == WillQueue || op.caller == WillRun
    case AddSession(_) => op.caller == QueueGlobalAdded || op.caller == RunGlobalAdded
    case TrySend(_) => op.caller == QueueBothAdded && op.priority < |s.queues|
    case UndoGlobal(_) => op.caller == SendFailed
    case UndoSession(_) => op.caller == SendGlobalUndone
    case TakeResult(_) => op.caller == Waiting && op.results > 0
    case GiveUp(_) => op.caller == Waiting && op.expired
    case LeaveBrownout(_) => op.caller == RunBothAdded
    case RunInline(_) => op.caller == RunReady
    case DoneGlobal(_) => op.caller == Ran
    case DoneSession(_) => op.caller == RanGlobalDone
    case Receive(o) => op.priority < |s.queues| && s.queues[op.priority] != [] && s.queues[op.priority][0] == o
    case WorkerDeadline(_) => op.req == Taken
    case WorkerBreaker(_, open) => op.req == DeadlineOk && (open ==> op.session.Some?)
    case WorkerRun(_) => op.req == Cleared
    case WorkerAnswer(_) => op.req == HasOutcome
    case WorkerGlobal(_) => op.req == Answered
    case WorkerSession(_) => op.req == GlobalDone
  }

  predicate EndpointFull(cfg: Config, s: State, op: Op) {
    op.session.Some? && cfg.maxPerEndpoint > 0 && op.session.value in s.inFlight
    && s.inFlight[op.session.value] >= cfg.maxPerEndpoint
  }

  function QueueLength(s: State, p: nat): nat {
    if p < |s.queues| then |s.queues[p]| else 0
  }

  /** The operation after the step. */
  function Moved(cfg: Config, s: State, step: Step, op: Op): Op
    requires Ready(cfg, s, step, op)
  {
    var counted := if op.session.Some? then 1 else 0;
    match step
    case Expire(_) => op.(expired := true)
    case CheckCtx(_) => if op.expired then Refuse(op) else op.(caller := CtxChecked)
    case CheckBreaker(_, open) => if open then Refuse(op) else op.(caller := BreakerChecked)
    case CheckBrownout(_) => if s.brownout && op.priority == 0 then Refuse(op) else op.(caller := BrownoutChecked)
    case CheckEndpoint(_) => if EndpointFull(cfg, s, op) && op.priority == 0 then Refuse(op) else op.(caller := EndpointChecked)
    case LoadGlobal(_) => op.(caller := Loaded, loaded := s.global)
    case Decide(_, closed) =>
      if op.loaded >= cfg.threshold && op.priority == 0 then Refuse(op)
      else if op.loaded >= cfg.maxGlobal then (if closed then Refuse(op) else op.(caller := WillQueue))
      else op.(caller := WillRun)
    case AddGlobal(_) =>
      op.(caller := if op.caller == WillQueue then QueueGlobalAdded else RunGlobalAdded, globalAdds := op.globalAdds + 1)
    case AddSession(_) =>
      op.(caller := if op.caller == QueueGlobalAdded then QueueBothAdded else RunBothAdded,
          sessionAdds := op.sessionAdds + counted)
    case TrySend(_) =>
      if QueueLength(s, op.priority) < cfg.queueSize then op.(caller := Waiting, req := InQueue) else op.(caller := SendFailed)
    case UndoGlobal(_) => op.(caller := SendGlobalUndone, globalSubs := op.globalSubs + 1)
    case UndoSession(_) => Refuse(op).(sessionSubs := op.sessionSubs + counted)
    case TakeResult(_) => op.(caller := Returned)
    case GiveUp(_) => op.(caller := Returned)
    case LeaveBrownout(_) => op.(caller := RunReady)
    case RunInline(_) => op.(caller := Ran, runs := op.runs + 1)
    case DoneGlobal(_) => op.(caller := RanGlobalDone, globalSubs := op.globalSubs + 1)
    case DoneSession(_) => op.(caller := Returned, sessionSubs := op.sessionSubs + counted)
    case Receive(_) => op.(req := Taken)
    case WorkerDeadline(_) => if op.expired then op.(req := HasOutcome, refused := true) else op.(req := DeadlineOk)
    case WorkerBreaker(_, open) => if open then op.(req := HasOutcome, refused := true) else op.(req := Cleared)
    case WorkerRun(_) => op.(req := HasOutcome, runs := op.runs + 1)
    case WorkerAnswer(_) => op.(req := Answered, results := op.results + 1)
    case WorkerGlobal(_) => op.(req := GlobalDone, globalSubs := op.globalSubs + 1)
    case WorkerSession(_) => op.(req := Finished, sessionSubs := op.sessionSubs + counted)
  }

  // ----- what a step does to the shared state -----

  function GlobalDelta(step: Step): int {
    match step
    case AddGlobal(_) => 1
    case UndoGlobal(_) | DoneGlobal(_) | WorkerGlobal(_) => -1
    case _ => 0
  }

  function SessionDelta(step: Step): int {
    match step
    case AddSession(_) => 1
    case UndoSession(_) | DoneSession(_) | WorkerSession(_) => -1
    case _ => 0
  }

  function InFlightAfter(s: State, step: Step, op: Op): map<SessionId, int> {
    if op.session.Some? && op.session.value in s.inFlight
    then s.inFlight[op.session.value := s.inFlight[op.session.value] + SessionDelta(step)]
    else s.inFlight
  }

  function QueuesAfter(cfg: Config, s: State, step: Step, op: Op): seq<seq<OpId>>
    requires Ready(cfg, s, step, op)
  {
    match step
    case TrySend(o) =>
      if |s.queues[op.priority]| < cfg.queueSize then s.queues[op.priority := s.queues[op.priority] + [o]] else s.queues
    case Receive(_) => s.queues[op.priority := s.queues[op.priority][1..]]
    case _ => s.queues
  }

  /** Half the threshold, cut towards zero. */
  function Half(threshold: int): int { if threshold >= 0 then threshold / 2 else -(-threshold / 2) }

  /** Entering brownout on the way out of a refused telemetry call, and leaving it before running inline. */
  predicate BrownoutAfter(cfg: Config, s: State, step: Step, op: Op) {
    if step.Decide? && op.loaded >= cfg.threshold && op.priority == 0 then true
    else if step.LeaveBrownout? && op.loaded < Half(cfg.threshold) then false
    else s.brownout
  }

  /** What the health monitor makes of the count it has loaded. */
  predicate MonitoredBrownout(cfg: Config, current: int, brownout: bool) {
    if current >= cfg.threshold then true else if current < Half(cfg.threshold) then false else brownout
  }

  function NewOp(session: Option<SessionId>, priority: nat): Op {
    Op(session, priority, Entered, 0, NoRequest, false, false, 0, 0, 0, 0, 0, 0)
  }

  predicate Enabled(cfg: Config, s: State, step: Step) {
    match step
    case Call(o, session, priority) =>
      o !in s.ops && priority < 3 && (session.Some? ==> session.value in s.inFlight)
    case MonitorLoad => true
    case MonitorSet => s.monitor.Some?
    case _ => step.o in s.ops && Ready(cfg, s, step, s.ops[step.o])
  }

  predicate OfMonitor(step: Step) { step.MonitorLoad? || step.MonitorSet? }

  function Apply(cfg: Config, s: State, step: Step): State
    requires Enabled(cfg, s, step)
  {
    match step
    case Call(o, session, priority) => s.(ops := s.ops[o := NewOp(session, priority)])
    case MonitorLoad => s.(monitor := Some(s.global))
    case MonitorSet => s.(brownout := MonitoredBrownout(cfg, s.monitor.value, s.brownout), monitor := None)
    case _ =>
      var op := s.ops[step.o];
      State(s.global + GlobalDelta(step), s.monitor, InFlightAfter(s, step, op), BrownoutAfter(cfg, s, step, op),
            QueuesAfter(cfg, s, step, op), s.ops[step.o := Moved(cfg, s, step, op)])
  }

  // ----- admitted and not yet finished -----

  predicate RequestAlive(r: Request) { !r.NoRequest? && !r.GlobalDone? && !r.Finished? }

  predicate CallerHoldsGlobal(c: Caller) {
    match c
    case QueueGlobalAdded | QueueBothAdded | SendFailed | RunGlobalAdded | RunBothAdded | RunReady | Ran => true
    case _ => false
  }

  predicate CallerHoldsSession(c: Caller) {
    match c
    case QueueBothAdded | SendFailed | SendGlobalUndone | RunBothAdded | RunReady | Ran | RanGlobalDone => true
    case _ => false
  }

  /** The operation counts towards the global load: about to be queued, queued, held by a worker,
      or running inline. */
  predicate HoldsGlobal(op: Op) { CallerHoldsGlobal(op.caller) || RequestAlive(op.req) }

  predicate HoldsSession(op: Op) {
    op.session.Some? && (CallerHoldsSession(op.caller) || RequestAlive(op.req) || op.req.GlobalDone?)
  }

  ghost function GlobalHolders(ops: map<OpId, Op>): set<OpId> {
    set o | o in ops && HoldsGlobal(ops[o])
  }

  ghost function SessionHolders(ops: map<OpId, Op>, k: SessionId): set<OpId> {
    set o | o in ops && HoldsSession(ops[o]) && ops[o].session == Some(k)
  }

  function One(b: bool): int { if b then 1 else 0 }

  /** No counter was touched for the operation yet. */
  predicate Early(c: Caller) {
    match c
    case Entered | CtxChecked | BreakerChecked | BrownoutChecked | EndpointChecked | Loaded | WillQueue | WillRun => true
    case _ => false
  }

  predicate RequestDecided(r: Request) { r.HasOutcome? || r.Answered? || r.GlobalDone? || r.Finished? }

  /** The call or its request has come to where the function has run, unless it was refused. */
  predicate Past(op: Op) {
    op.caller.Ran? || op.caller.RanGlobalDone? || (op.caller.Returned? && op.req.NoRequest?) || RequestDecided(op.req)
  }

  /** The function ran exactly once if it was not refused, and not at all otherwise; a request is
      decided in the same way. */
  predicate RunInv(op: Op) {
    && (!op.req.NoRequest? ==> op.caller.Waiting? || op.caller.Returned?)
    && (op.caller.Waiting? ==> !op.req.NoRequest?)
    && op.runs == One(!op.refused && Past(op))
    && (op.refused ==> RequestDecided(op.req) || (op.caller.Returned? && op.req.NoRequest?))
    && op.results == One(op.req.Answered? || op.req.GlobalDone? || op.req.Finished?)
  }

  /** Each counter was incremented at most once for the operation and is decremented exactly once. */
  predicate TokenInv(op: Op) {
    && op.globalAdds <= 1 && op.globalAdds - op.globalSubs == One(HoldsGlobal(op))
    && op.sessionAdds <= 1 && op.sessionAdds - op.sessionSubs == One(HoldsSession(op))
    && (Early(op.caller) ==> op.globalAdds == 0)
    && (Early(op.caller) || op.caller.QueueGlobalAdded? || op.caller.RunGlobalAdded? ==> op.sessionAdds == 0)
  }

  predicate OnQueuePath(c: Caller) {
    match c
    case WillQueue | QueueGlobalAdded | QueueBothAdded | SendFailed | SendGlobalUndone => true
    case _ => false
  }

  predicate TelemetryInv(cfg: Config, op: Op) {
    cfg.threshold <= cfg.maxGlobal && op.priority == 0 ==> op.req.NoRequest? && !OnQueuePath(op.caller)
  }

  predicate BeforeSession(c: Caller) { Early(c) || c.QueueGlobalAdded? || c.RunGlobalAdded? }

  /** The operation was admitted: the call is past taking the global counter, or has a request or has run. */
  predicate Admitted(op: Op) {
    (!Early(op.caller) && !op.caller.Returned?) || !op.req.NoRequest? || op.runs > 0
  }

  /** An admitted operation took the global counter, and with it, unless it is just about to, its session's. */
  predicate AdmittedInv(op: Op) {
    && (Admitted(op) ==> op.globalAdds == 1)
    && (!BeforeSession(op.caller) ==> op.sessionAdds == if op.session.Some? then op.globalAdds else 0)
  }

  /** What holds of every operation on its own. */
  predicate OpInv(cfg: Config, op: Op) {
    op.priority < 3 && RunInv(op) && TokenInv(op) && AdmittedInv(op) && TelemetryInv(cfg, op)
  }

  /** The queues hold exactly the queued operations, each once, at its priority. */
  ghost predicate QueueInv(cfg: Config, queues: seq<seq<OpId>>, ops: map<OpId, Op>) {
    && |queues| == 3
    && (forall p :: 0 <= p < 3 ==> |queues[p]| <= cfg.queueSize)
    && (forall p, i :: 0 <= p < 3 && 0 <= i < |queues[p]| ==>
          queues[p][i] in ops && ops[queues[p][i]].req == InQueue && ops[queues[p][i]].priority == p)
    && (forall p, i, j :: 0 <= p < 3 && 0 <= i < j < |queues[p]| ==> queues[p][i] != queues[p][j])
    && (forall o :: o in ops && ops[o].req == InQueue ==> ops[o].priority < 3 && o in queues[ops[o].priority])
  }

  ghost predicate CountInv(s: State) {
    && s.global == |GlobalHolders(s.ops)|
    && (forall o :: o in s.ops && s.ops[o].session.Some? ==> s.ops[o].session.value in s.inFlight)
    && forall k :: k in s.inFlight ==> s.inFlight[k] == |SessionHolders(s.ops, k)|
  }

  ghost predicate Inv(cfg: Config, s: State) {
    && (forall o :: o in s.ops ==> OpInv(cfg, s.ops[o]))
    && QueueInv(cfg, s.queues, s.ops)
    && CountInv(s)
  }

  // ----- every step keeps the invariant -----

  lemma RunInvKept(cfg: Config, s: State, step: Step, op: Op)
    requires RunInv(op) && Ready(cfg, s, step, op) && (step.Receive? ==> op.req == InQueue)
    ensures RunInv(Moved(cfg, s, step, op))
  {
    if OfWorker(step) {
      WorkerRunInv(cfg, s, step, op);
    } else {
      CallerRunInv(cfg, s, step, op);
    }
  }

  predicate OfWorker(step: Step) {
    match step
    case Receive(_) | WorkerDeadline(_) | WorkerRun(_) | WorkerAnswer(_) | WorkerGlobal(_) | WorkerSession(_) => true
    case WorkerBreaker(_, _) => true
    case _ => false
  }

  lemma WorkerRunInv(cfg: Config, s: State, step: Step, op: Op)
    requires RunInv(op) && Ready(cfg, s, step, op) && OfWorker(step) && (step.Receive? ==> op.req == InQueue)
    ensures RunInv(Moved(cfg, s, step, op))
  {
  }

  lemma CallerRunInv(cfg: Config, s: State, step: Step, op: Op)
    requires RunInv(op) && Ready(cfg, s, step, op) && !OfWorker(step)
    ensures RunInv(Moved(cfg, s, step, op))
  {
  }

  lemma TelemetryInvKept(cfg: Config, s: State, step: Step, op: Op)
    requires RunInv(op) && TelemetryInv(cfg, op) && Ready(cfg, s, step, op) && (step.Receive? ==> op.req == InQueue)
    ensures TelemetryInv(cfg, Moved(cfg, s, step, op))
  {
  }

  lemma GlobalHoldFollows(cfg: Config, s: State, step: Step, op: Op)
    requires RunInv(op) && Ready(cfg, s, step, op) && (step.Receive? ==> op.req == InQueue)
    ensures One(HoldsGlobal(Moved(cfg, s, step, op))) == One(HoldsGlobal(op)) + GlobalDelta(step)
  {
    if OfWorker(step) {
      WorkerGlobalHoldFollows(cfg, s, step, op);
    } else {
      CallerGlobalHoldFollows(cfg, s, step, op);
    }
  }

  lemma WorkerGlobalHoldFollows(cfg: Config, s: State, step: Step, op: Op)
    requires RunInv(op) && Ready(cfg, s, step, op) && OfWorker(step) && (step.Receive? ==> op.req == InQueue)
    ensures One(HoldsGlobal(Moved(cfg, s, step, op))) == One(HoldsGlobal(op)) + GlobalDelta(step)
  {
  }

  lemma CallerGlobalHoldFollows(cfg: Config, s: State, step: Step, op: Op)
    requires RunInv(op) && Ready(cfg, s, step, op) && !OfWorker(step)
    ensures One(HoldsGlobal(Moved(cfg, s, step, op))) == One(HoldsGlobal(op)) + GlobalDelta(step)
  {
  }

  lemma SessionHoldFollows(cfg: Config, s: State, step: Step, op: Op)
    requires RunInv(op) && Ready(cfg, s, step, op) && (step.Receive? ==> op.req == InQueue) && op.session.Some?
    ensures One(HoldsSession(Moved(cfg, s, step, op))) == One(HoldsSession(op)) + SessionDelta(step)
  {
    if OfWorker(step) {
      WorkerSessionHoldFollows(cfg, s, step, op);
    } else {
      CallerSessionHoldFollows(cfg, s, step, op);
    }
  }

  lemma WorkerSessionHoldFollows(cfg: Config, s: State, step: Step, op: Op)
    requires RunInv(op) && Ready(cfg, s, step, op) && OfWorker(step) && (step.Receive? ==> op.req == InQueue) && op.session.Some?
    ensures One(HoldsSession(Moved(cfg, s, step, op))) == One(HoldsSession(op)) + SessionDelta(step)
  {
  }

  lemma CallerSessionHoldFollows(cfg: Config, s: State, step: Step, op: Op)
    requires RunInv(op) && Ready(cfg, s, step, op) && !OfWorker(step) && op.session.Some?
    ensures One(HoldsSession(Moved(cfg, s, step, op))) == One(HoldsSession(op)) + SessionDelta(step)
  {
  }

  /** A step changes an operation's hold on a counter by exactly what it does to the counter. */
  lemma HoldsFollow(cfg: Config, s: State, step: Step, op: Op)
    requires RunInv(op) && Ready(cfg, s, step, op) && (step.Receive? ==> op.req == InQueue)
    ensures var after := Moved(cfg, s, step, op);
            && after.session == op.session && after.priority == op.priority
            && One(HoldsGlobal(after)) == One(HoldsGlobal(op)) + GlobalDelta(step)
            && (op.session.Some? ==> One(HoldsSession(after)) == One(HoldsSession(op)) + SessionDelta(step))
  {
    GlobalHoldFollows(cfg, s, step, op);
    if op.session.Some? {
      SessionHoldFollows(cfg, s, step, op);
    }
  }

  /** The recorded additions and subtractions are those the step makes. */
  lemma TokensFollow(cfg: Config, s: State, step: Step, op: Op)
    requires Ready(cfg, s, step, op)
    ensures var after := Moved(cfg, s, step, op);
            && after.globalAdds == op.globalAdds + One(step.AddGlobal?)
            && after.sessionAdds == op.sessionAdds + One(step.AddSession? && op.session.Some?)
            && after.globalAdds - after.globalSubs == op.globalAdds - op.globalSubs + GlobalDelta(step)
            && after.sessionAdds - after.sessionSubs == op.sessionAdds - op.sessionSubs + if op.session.Some? then SessionDelta(step) else 0
  {
  }

  /** An operation leaves the early part of a call only by taking a counter, and never comes back. */
  lemma EarlyFollows(cfg: Config, s: State, step: Step, op: Op)
    requires Ready(cfg, s, step, op)
    ensures var after := Moved(cfg, s, step, op).caller;
            && (Early(after) ==> Early(op.caller) && !step.AddGlobal?)
            && (BeforeSession(after) ==> BeforeSession(op.caller) && !step.AddSession?)
            && (step.AddGlobal? ==> Early(op.caller)) && (step.AddSession? ==> BeforeSession(op.caller))
  {
  }

  lemma TokenInvKept(cfg: Config, s: State, step: Step, op: Op)
    requires RunInv(op) && TokenInv(op) && Ready(cfg, s, step, op) && (step.Receive? ==> op.req == InQueue)
    ensures TokenInv(Moved(cfg, s, step, op))
  {
    HoldsFollow(cfg, s, step, op);
    TokensFollow(cfg, s, step, op);
    EarlyFollows(cfg, s, step, op);
    NoSessionNoHold(Moved(cfg, s, step, op));
    NoSessionNoHold(op);
    assert BeforeSession(Moved(cfg, s, step, op).caller) ==> BeforeSession(op.caller);
    hide Moved, Ready, HoldsGlobal, HoldsSession, Early, RunInv, GlobalDelta, SessionDelta;
  }

  /** An operation is admitted only by taking the global counter, and an operation that returns early
      has taken none. */
  lemma AdmissionFollows(cfg: Config, s: State, step: Step, op: Op)
    requires Ready(cfg, s, step, op) && RunInv(op) && (step.Receive? ==> op.req == InQueue)
    ensures var after := Moved(cfg, s, step, op);
            && (Admitted(after) ==> Admitted(op) || step.AddGlobal?)
            && (!BeforeSession(after.caller) ==> !BeforeSession(op.caller) || Early(op.caller) || step.AddSession?)
            && (step.AddSession? ==> op.caller.QueueGlobalAdded? || op.caller.RunGlobalAdded?)
            && (step.AddGlobal? ==> BeforeSession(after.caller))
  {
    if OfWorker(step) {
      WorkerAdmission(cfg, s, step, op);
    } else {
      CallerAdmission(cfg, s, step, op);
    }
  }

  lemma WorkerAdmission(cfg: Config, s: State, step: Step, op: Op)
    requires Ready(cfg, s, step, op) && RunInv(op) && OfWorker(step) && (step.Receive? ==> op.req == InQueue)
    ensures Admitted(op) && Moved(cfg, s, step, op).caller == op.caller
  {
  }

  lemma CallerAdmission(cfg: Config, s: State, step: Step, op: Op)
    requires Ready(cfg, s, step, op) && RunInv(op) && !OfWorker(step)
    ensures var after := Moved(cfg, s, step, op);
            && (Admitted(after) ==> Admitted(op) || step.AddGlobal?)
            && (!BeforeSession(after.caller) ==> !BeforeSession(op.caller) || Early(op.caller) || step.AddSession?)
            && (step.AddSession? ==> op.caller.QueueGlobalAdded? || op.caller.RunGlobalAdded?)
            && (step.AddGlobal? ==> BeforeSession(after.caller))
  {
  }

  lemma AdmittedInvKept(cfg: Config, s: State, step: Step, op: Op)
    requires RunInv(op) && TokenInv(op) && AdmittedInv(op) && Ready(cfg, s, step, op) && (step.Receive? ==> op.req == InQueue)
    ensures AdmittedInv(Moved(cfg, s, step, op))
  {
    TokensFollow(cfg, s, step, op);
    EarlyFollows(cfg, s, step, op);
    AdmissionFollows(cfg, s, step, op);
    HoldsFollow(cfg, s, step, op);
    assert op.caller.QueueGlobalAdded? || op.caller.RunGlobalAdded? ==> Admitted(op);
    hide Moved, Ready, HoldsGlobal, HoldsSession, Early, RunInv, GlobalDelta, SessionDelta, Admitted;
  }

  lemma NoSessionNoHold(op: Op)
    ensures op.session.None? ==> !HoldsSession(op)
  {
  }

  // ----- counting holders -----

  /** Two sets that agree except perhaps on one element. */
  lemma DifferAtOne(a: set<OpId>, b: set<OpId>, o: OpId)
    requires forall x :: x != o ==> (x in a <==> x in b)
    ensures |b| == |a| + One(o in b) - One(o in a)
  {
    assert a - {o} == b - {o};
    assert o in a ==> a == (a - {o}) + {o};
    assert o in b ==> b == (b - {o}) + {o};
    assert o !in a ==> a == a - {o};
    assert o !in b ==> b == b - {o};
  }

  lemma GlobalCount(ops: map<OpId, Op>, o: OpId, after: Op)
    ensures |GlobalHolders(ops[o := after])| ==
            |GlobalHolders(ops)| + One(HoldsGlobal(after)) - One(o in ops && HoldsGlobal(ops[o]))
  {
    DifferAtOne(GlobalHolders(ops), GlobalHolders(ops[o := after]), o);
  }

  lemma SessionCount(ops: map<OpId, Op>, o: OpId, after: Op, k: SessionId)
    ensures |SessionHolders(ops[o := after], k)| ==
            |SessionHolders(ops, k)| + One(HoldsSession(after) && after.session == Some(k))
            - One(o in ops && HoldsSession(ops[o]) && ops[o].session == Some(k))
  {
    DifferAtOne(SessionHolders(ops, k), SessionHolders(ops[o := after], k), o);
  }

  lemma CountInvKept(cfg: Config, s: State, step: Step)
    requires CountInv(s) && Enabled(cfg, s, step) && !OfMonitor(step) && !step.Call?
    requires var op := s.ops[step.o]; RunInv(op) && (step.Receive? ==> op.req == InQueue)
    ensures CountInv(Apply(cfg, s, step))
  {
    hide QueuesAfter, BrownoutAfter, Moved, Ready, HoldsGlobal, HoldsSession, RunInv, GlobalHolders, SessionHolders;
    var op := s.ops[step.o];
    var after := Moved(cfg, s, step, op);
    HoldsFollow(cfg, s, step, op);
    GlobalCount(s.ops, step.o, after);
    var s' := Apply(cfg, s, step);
    forall k | k in s'.inFlight ensures s'.inFlight[k] == |SessionHolders(s'.ops, k)| {
      SessionCount(s.ops, step.o, after, k);
    }
  }

  lemma CallKeepsCounts(s: State, o: OpId, op: Op)
    requires CountInv(s) && o !in s.ops && !HoldsGlobal(op) && !HoldsSession(op)
    requires op.session.Some? ==> op.session.value in s.inFlight
    ensures CountInv(s.(ops := s.ops[o := op]))
  {
    GlobalCount(s.ops, o, op);
    forall k | k in s.inFlight ensures s.inFlight[k] == |SessionHolders(s.ops[o := op], k)| {
      SessionCount(s.ops, o, op, k);
    }
  }

  // ----- the queues -----

  /** Sending appends an operation that was not queued. */
  lemma QueueInvSend(cfg: Config, queues: seq<seq<OpId>>, ops: map<OpId, Op>, o: OpId, after: Op)
    requires QueueInv(cfg, queues, ops) && o in ops && ops[o].req != InQueue && after.req == InQueue
    requires after.priority < 3 && |queues[after.priority]| < cfg.queueSize
    ensures QueueInv(cfg, queues[after.priority := queues[after.priority] + [o]], ops[o := after])
  {
    var q := queues[after.priority];
    forall x | x in ops && ops[x].req == InQueue ensures x != o { }
    assert forall i :: 0 <= i < |q| ==> q[i] != o;
  }

  /** Receiving removes the head of a queue, which was queued only there. */
  lemma QueueInvReceive(cfg: Config, queues: seq<seq<OpId>>, ops: map<OpId, Op>, o: OpId, after: Op)
    requires QueueInv(cfg, queues, ops) && o in ops && after.req != InQueue && after.priority == ops[o].priority < 3
    requires queues[after.priority] != [] && queues[after.priority][0] == o
    ensures QueueInv(cfg, queues[after.priority := queues[after.priority][1..]], ops[o := after])
  {
    var p := after.priority;
    var queues', ops' := queues[p := queues[p][1..]], ops[o := after];
    assert forall i :: 0 <= i < |queues'[p]| ==> queues'[p][i] == queues[p][i + 1];
    forall x | x in ops' && ops'[x].req == InQueue ensures ops'[x].priority < 3 && x in queues'[ops'[x].priority] {
      if ops[x].priority == p {
        var i :| 0 <= i < |queues[p]| && queues[p][i] == x;
        assert queues'[p][i - 1] == x;
      }
    }
  }

  /** Nothing else touches queued operations. */
  lemma QueueInvOther(cfg: Config, queues: seq<seq<OpId>>, ops: map<OpId, Op>, o: OpId, after: Op)
    requires QueueInv(cfg, queues, ops) && (after.req == InQueue <==> o in ops && ops[o].req == InQueue)
    requires o in ops ==> after.priority == ops[o].priority
    ensures QueueInv(cfg, queues, ops[o := after])
  {
  }

  lemma HeadIsQueued(cfg: Config, s: State, step: Step)
    requires QueueInv(cfg, s.queues, s.ops) && step.Receive? && Enabled(cfg, s, step)
    ensures s.ops[step.o].req == InQueue
  {
    assert s.queues[s.ops[step.o].priority][0] == step.o;
  }

  lemma InvKept(cfg: Config, s: State, step: Step)
    requires Inv(cfg, s) && Enabled(cfg, s, step)
    ensures Inv(cfg, Apply(cfg, s, step))
  {
    if OfMonitor(step) {
      assert CountInv(Apply(cfg, s, step));
    } else if step.Call? {
      CallKept(cfg, s, step);
    } else {
      hide Inv, Apply, Enabled;
      OpStepKept(cfg, s, step);
    }
  }

  lemma CallKept(cfg: Config, s: State, step: Step)
    requires Inv(cfg, s) && Enabled(cfg, s, step) && step.Call?
    ensures Inv(cfg, Apply(cfg, s, step))
  {
    var op := NewOp(step.session, step.priority);
    CallKeepsCounts(s, step.o, op);
    QueueInvOther(cfg, s.queues, s.ops, step.o, op);
    assert OpInv(cfg, op);
    hide OpInv, CountInv, QueueInv;
  }

  lemma OpStepKept(cfg: Config, s: State, step: Step)
    requires Inv(cfg, s) && Enabled(cfg, s, step) && !OfMonitor(step) && !step.Call?
    ensures Inv(cfg, Apply(cfg, s, step))
  {
    if step.Receive? {
      HeadIsQueued(cfg, s, step);
    }
    assert OpInv(cfg, s.ops[step.o]);
    MovedKeepsOpInv(cfg, s, step, s.ops[step.o]);
    CountInvKept(cfg, s, step);
    QueueStepKept(cfg, s, step);
    hide CountInv, QueueInv, OpInv, Moved, Ready, QueuesAfter, InFlightAfter, BrownoutAfter;
  }

  lemma MovedKeepsOpInv(cfg: Config, s: State, step: Step, op: Op)
    requires OpInv(cfg, op) && Ready(cfg, s, step, op) && (step.Receive? ==> op.req == InQueue)
    ensures OpInv(cfg, Moved(cfg, s, step, op))
  {
    RunInvKept(cfg, s, step, op);
    TokenInvKept(cfg, s, step, op);
    AdmittedInvKept(cfg, s, step, op);
    TelemetryInvKept(cfg, s, step, op);
    HoldsFollow(cfg, s, step, op);
  }

  lemma QueueStepKept(cfg: Config, s: State, step: Step)
    requires QueueInv(cfg, s.queues, s.ops) && Enabled(cfg, s, step) && !OfMonitor(step) && !step.Call?
    requires RunInv(s.ops[step.o]) && s.ops[step.o].priority < 3
    ensures QueueInv(cfg, QueuesAfter(cfg, s, step, s.ops[step.o]), s.ops[step.o := Moved(cfg, s, step, s.ops[step.o])])
  {
    var op := s.ops[step.o];
    var after := Moved(cfg, s, step, op);
    PriorityStays(cfg, s, step, op);
    if step.TrySend? && QueueLength(s, op.priority) < cfg.queueSize {
      QueueInvSend(cfg, s.queues, s.ops, step.o, after);
    } else if step.Receive? {
      QueueInvReceive(cfg, s.queues, s.ops, step.o, after);
    } else {
      hide QueueInv;
      StaysOffQueue(cfg, s, step, op);
      hide Moved, Ready, QueuesAfter, RunInv;
      QueueInvOther(cfg, s.queues, s.ops, step.o, after);
    }
  }

  lemma StaysOffQueue(cfg: Config, s: State, step: Step, op: Op)
    requires RunInv(op) && Ready(cfg, s, step, op) && !step.Receive?
    requires step.TrySend? ==> QueueLength(s, op.priority) >= cfg.queueSize
    ensures var after := Moved(cfg, s, step, op);
            (after.req == InQueue <==> op.req == InQueue) && after.priority == op.priority
    ensures QueuesAfter(cfg, s, step, op) == s.queues
  {
    PriorityStays(cfg, s, step, op);
    SameQueues(cfg, s, step, op);
    RequestStays(cfg, s, step, op);
    hide Moved, Ready, QueuesAfter, RunInv;
  }

  lemma SameQueues(cfg: Config, s: State, step: Step, op: Op)
    requires Ready(cfg, s, step, op) && !step.Receive? && (step.TrySend? ==> QueueLength(s, op.priority) >= cfg.queueSize)
    ensures QueuesAfter(cfg, s, step, op) == s.queues
  {
  }

  lemma RequestStays(cfg: Config, s: State, step: Step, op: Op)
    requires RunInv(op) && Ready(cfg, s, step, op) && !step.Receive?
    requires step.TrySend? ==> QueueLength(s, op.priority) >= cfg.queueSize
    ensures Moved(cfg, s, step, op).req == InQueue <==> op.req == InQueue
  {
  }

  // ----- whole runs -----

  /** The states of a run from an initial state, one step after the other. */
  ghost predicate Run(cfg: Config, states: seq<State>, steps: seq<Step>) {
    && |states| == |steps| + 1 && Init(states[0])
    && forall i :: 0 <= i < |steps| ==> Enabled(cfg, states[i], steps[i]) && states[i + 1] == Apply(cfg, states[i], steps[i])
  }

  lemma {:induction false} InvAlways(cfg: Config, states: seq<State>, steps: seq<Step>, i: nat)
    requires Run(cfg, states, steps) && i < |states|
    ensures Inv(cfg, states[i])
  {
    if i == 0 {
      assert GlobalHolders(states[0].ops) == {};
      forall k | k in states[0].inFlight ensures |SessionHolders(states[0].ops, k)| == 0 {
        assert SessionHolders(states[0].ops, k) == {};
      }
    } else {
      InvAlways(cfg, states, steps, i - 1);
      InvKept(cfg, states[i - 1], steps[i - 1]);
    }
  }

  /** In every state of every interleaving the global counter is the number of admitted operations
      that are not finished, every session counter is that number for its session, and no
      counter is negative. */
  lemma CountersAreExact(cfg: Config, states: seq<State>, steps: seq<Step>, i: nat)
    requires Run(cfg, states, steps) && i < |states|
    ensures states[i].global == |GlobalHolders(states[i].ops)| && states[i].global >= 0
    ensures forall k :: k in states[i].inFlight ==>
              states[i].inFlight[k] == |SessionHolders(states[i].ops, k)| && states[i].inFlight[k] >= 0
  {
    InvAlways(cfg, states, steps, i);
  }

  lemma OpInvAlways(cfg: Config, states: seq<State>, steps: seq<Step>, i: nat, o: OpId)
    requires Run(cfg, states, steps) && i < |states| && o in states[i].ops
    ensures OpInv(cfg, states[i].ops[o])
  {
    InvAlways(cfg, states, steps, i);
  }

  /** The call has returned and no request of it is left. */
  predicate Over(op: Op) { op.caller == Returned && (op.req == NoRequest || op.req == Finished) }

  /** An operation that ran or was answered was added once to the global counter and, if it has a session,
      once to that session's, and by the time it is over it was taken off each again exactly once. Any
      other operation has by then given back exactly what it took, on both counters alike. */
  lemma DecrementedExactlyOnce(cfg: Config, states: seq<State>, steps: seq<Step>, i: nat, o: OpId)
    requires Run(cfg, states, steps) && i < |states| && o in states[i].ops && Over(states[i].ops[o])
    ensures var op := states[i].ops[o];
            && op.globalSubs == op.globalAdds <= 1
            && op.sessionSubs == op.sessionAdds == (if op.session.Some? then op.globalSubs else 0)
            && (op.runs == 1 || op.req == Finished ==> op.globalSubs == 1)
  {
    OpInvAlways(cfg, states, steps, i, o);
  }

  /** An operation's function runs at most once, and exactly once by the time the operation is over
      unless it was refused. */
  lemma RunsAtMostOnce(cfg: Config, states: seq<State>, steps: seq<Step>, i: nat, o: OpId)
    requires Run(cfg, states, steps) && i < |states| && o in states[i].ops
    ensures var op := states[i].ops[o];
            op.runs <= 1 && (Over(op) ==> (op.runs == 1 <==> !op.refused))
  {
    OpInvAlways(cfg, states, steps, i, o);
  }

  lemma MovedKeepsRefusal(cfg: Config, s: State, step: Step, op: Op)
    requires Ready(cfg, s, step, op) && op.refused
    ensures Moved(cfg, s, step, op).refused
  {
  }

  lemma RefusalStands(cfg: Config, s: State, step: Step, o: OpId)
    requires Enabled(cfg, s, step) && o in s.ops && s.ops[o].refused
    ensures var ops := Apply(cfg, s, step).ops; o in ops && ops[o].refused
  {
    if !OfMonitor(step) && !step.Call? {
      if step.o == o {
        MovedKeepsRefusal(cfg, s, step, s.ops[o]);
      }
    }
  }

  lemma {:induction false} RefusedForGood(cfg: Config, states: seq<State>, steps: seq<Step>, i: nat, j: nat, o: OpId)
    requires Run(cfg, states, steps) && i <= j < |states|
    requires o in states[i].ops && states[i].ops[o].refused
    ensures o in states[j].ops && states[j].ops[o].refused
  {
    if i < j {
      RefusedForGood(cfg, states, steps, i, j - 1, o);
      RefusalStands(cfg, states[j - 1], steps[j - 1], o);
    }
  }

  /** Once an operation was refused, or failed a deadline or breaker check, its function never runs. */
  lemma RefusedNeverRuns(cfg: Config, states: seq<State>, steps: seq<Step>, i: nat, j: nat, o: OpId)
    requires Run(cfg, states, steps) && i <= j < |states|
    requires o in states[i].ops && states[i].ops[o].refused
    ensures o in states[j].ops && states[j].ops[o].runs == 0
  {
    RefusedForGood(cfg, states, steps, i, j, o);
    OpInvAlways(cfg, states, steps, j, o);
  }

  /** The step refuses the operation for a reason other than load. */
  predicate Excuses(s: State, step: Step, o: OpId)
    requires o in s.ops
  {
    match step
    case CheckCtx(x) => x == o && s.ops[o].expired
    case CheckBreaker(x, open) => x == o && open
    case Decide(x, closed) => x == o && closed
    case UndoSession(x) => x == o && s.ops[o].caller == SendGlobalUndone
    case WorkerDeadline(x) => x == o && s.ops[o].expired
    case WorkerBreaker(x, open) => x == o && open
    case _ => false
  }

  lemma RefusedNow(cfg: Config, s: State, step: Step, op: Op)
    requires Ready(cfg, s, step, op) && !op.refused && op.priority != 0 && Moved(cfg, s, step, op).refused
    ensures match step
            case CheckCtx(_) | WorkerDeadline(_) => op.expired
            case CheckBreaker(_, open) => open
            case WorkerBreaker(_, open) => open
            case Decide(_, closed) => closed
            case UndoSession(_) => true
            case _ => false
  {
  }

  lemma PriorityStays(cfg: Config, s: State, step: Step, op: Op)
    requires Ready(cfg, s, step, op)
    ensures Moved(cfg, s, step, op).priority == op.priority
  {
  }

  /** A state with an operation in it follows from the one before. */
  lemma FromBefore(cfg: Config, states: seq<State>, steps: seq<Step>, i: nat, o: OpId)
    requires Run(cfg, states, steps) && i < |states| && o in states[i].ops
    ensures 0 < i <= |steps| && |states| == |steps| + 1
    ensures Enabled(cfg, states[i - 1], steps[i - 1]) && states[i] == Apply(cfg, states[i - 1], steps[i - 1])
  {
    hide Apply, Enabled;
  }

  predicate Rejected(op: Op) { op.caller == SendFailed || op.caller == SendGlobalUndone }

  /** The step found the operation's queue full. */
  predicate FoundFull(cfg: Config, s: State, step: Step, o: OpId) {
    step == TrySend(o) && o in s.ops && QueueLength(s, s.ops[o].priority) >= cfg.queueSize
  }

  lemma RejectedBefore(cfg: Config, s: State, step: Step, o: OpId)
    requires Enabled(cfg, s, step) && o in Apply(cfg, s, step).ops && Rejected(Apply(cfg, s, step).ops[o])
    ensures o in s.ops && (Rejected(s.ops[o]) || FoundFull(cfg, s, step, o))
  {
    hide QueuesAfter, InFlightAfter, BrownoutAfter;
    if !OfMonitor(step) && !step.Call? {
      if step.o == o && !Rejected(s.ops[o]) {
        RejectedMove(cfg, s, step, s.ops[o]);
      }
    }
  }

  lemma RejectedMove(cfg: Config, s: State, step: Step, op: Op)
    requires Ready(cfg, s, step, op) && Rejected(Moved(cfg, s, step, op)) && !Rejected(op)
    ensures step.TrySend? && QueueLength(s, op.priority) >= cfg.queueSize
  {
  }

  /** A send is only ever taken back after the queue was found full. */
  lemma {:induction false} QueueWasFull(cfg: Config, states: seq<State>, steps: seq<Step>, i: nat, o: OpId) returns (j: nat)
    requires Run(cfg, states, steps) && i < |states| && o in states[i].ops && Rejected(states[i].ops[o])
    ensures j < i && FoundFull(cfg, states[j], steps[j], o)
  {
    hide Run, Apply, Enabled;
    FromBefore(cfg, states, steps, i, o);
    var s, step := states[i - 1], steps[i - 1];
    RejectedBefore(cfg, s, step, o);
    if Rejected(s.ops[o]) {
      j := QueueWasFull(cfg, states, steps, i - 1, o);
    } else {
      j := i - 1;
    }
  }

  /** An operation above telemetry is never refused because of load: only for an expired context, an
      open breaker, a closed pool, or because its queue was found full when it was sent there. */
  lemma {:induction false} OnlyTelemetryIsShed(cfg: Config, states: seq<State>, steps: seq<Step>, i: nat, o: OpId)
    returns (k: nat, j: nat)
    requires Run(cfg, states, steps) && i < |states| && o in states[i].ops
    requires states[i].ops[o].refused && states[i].ops[o].priority != 0
    ensures k < i && o in states[k].ops && !states[k].ops[o].refused && Excuses(states[k], steps[k], o)
    ensures steps[k].UndoSession? ==> j < k && FoundFull(cfg, states[j], steps[j], o)
  {
    hide Run, Apply, Enabled;
    FromBefore(cfg, states, steps, i, o);
    var s, step := states[i - 1], steps[i - 1];
    WasThere(cfg, s, step, o);
    if s.ops[o].refused {
      k, j := OnlyTelemetryIsShed(cfg, states, steps, i - 1, o);
    } else {
      k, j := i - 1, 0;
      if step.UndoSession? {
        j := QueueWasFull(cfg, states, steps, i - 1, o);
      }
    }
  }

  lemma WasThere(cfg: Config, s: State, step: Step, o: OpId)
    requires Enabled(cfg, s, step) && o in Apply(cfg, s, step).ops
    requires var op := Apply(cfg, s, step).ops[o]; op.refused && op.priority != 0
    ensures o in s.ops && s.ops[o].priority != 0
    ensures !s.ops[o].refused ==> Excuses(s, step, o)
  {
    if step.Call? || OfMonitor(step) {
    } else if step.o == o {
      PriorityStays(cfg, s, step, s.ops[o]);
      if !s.ops[o].refused {
        RefusedNow(cfg, s, step, s.ops[o]);
      }
    }
  }

  /** When a worker is about to answer, the one-place result channel has never been used, so the
      send does not block. */
  lemma AnswerNeverBlocks(cfg: Config, states: seq<State>, steps: seq<Step>, i: nat, o: OpId)
    requires Run(cfg, states, steps) && i < |states| && o in states[i].ops && states[i].ops[o].req == HasOutcome
    ensures states[i].ops[o].results == 0
  {
    OpInvAlways(cfg, states, steps, i, o);
  }

  /** `int64(float64(maxGlobalInFlight) * brownoutThreshold)`. */
  function Threshold(maxGlobal: int, fraction: real): (t: int)
    ensures t as real <= maxGlobal as real * fraction < (t + 1) as real
  {
    (maxGlobal as real * fraction).Floor
  }

  lemma ThresholdWithinLimit(maxGlobal: int, fraction: real)
    requires 0 <= maxGlobal && 0.0 < fraction <= 1.0
    ensures 0 <= Threshold(maxGlobal, fraction) <= maxGlobal
  {
    var m := maxGlobal as real;
    assert 0.0 <= m * fraction <= m;
  }

  lemma QueuedIsNotTelemetry(cfg: Config, s: State, p: nat)
    requires Inv(cfg, s) && cfg.threshold <= cfg.maxGlobal && p < 3 && s.queues[p] != []
    ensures p != 0
  {
    var o := s.queues[p][0];
    assert OpInv(cfg, s.ops[o]);
  }

  /** With a brownout fraction of at most one, no telemetry operation is ever queued. */
  lemma TelemetryNeverQueued(cfg: Config, fraction: real, states: seq<State>, steps: seq<Step>, i: nat)
    requires 0 <= cfg.maxGlobal && 0.0 < fraction <= 1.0 && cfg.threshold == Threshold(cfg.maxGlobal, fraction)
    requires Run(cfg, states, steps) && i < |states|
    ensures |states[i].queues| == 3 && states[i].queues[0] == []
  {
    ThresholdWithinLimit(cfg.maxGlobal, fraction);
    InvAlways(cfg, states, steps, i);
    if states[i].queues[0] != [] {
      QueuedIsNotTelemetry(cfg, states[i], 0);
    }
  }
}
