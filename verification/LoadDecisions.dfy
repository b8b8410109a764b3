/** What load shaping decides, over whole runs and in terms of what an operation met on its way: which
    checks it passed before its function ran, when it was queued rather than run at once, why it
    was refused, when the brownout flag changed, and in what order the queues were served. */
module LoadDecisions {
  import opened Domain
  import opened LoadShaping

  // ----- checks passed -----

  /** How many of the caller's checks - context, breaker, brownout, endpoint, in this order - are behind it. */
  function Level(op: Op): nat {
    match op.caller
    case Entered => 0
    case CtxChecked => 1
    case BreakerChecked => 2
    case BrownoutChecked => 3
    case Returned => if op.runs > 0 || !op.req.NoRequest? then 4 else 0
    case _ => 4
  }

  /** Its session has as many operations in flight as an endpoint may have. */
  predicate AtEndpointLimit(cfg: Config, s: State, o: OpId) {
    && o in s.ops && s.ops[o].session.Some? && s.ops[o].session.value in s.inFlight
    && cfg.maxPerEndpoint > 0 && s.inFlight[s.ops[o].session.value] >= cfg.maxPerEndpoint
  }

  /** The step is check g of the operation, which it passes. */
  predicate Passes(cfg: Config, s: State, step: Step, o: OpId, g: nat) {
    && o in s.ops
    && match step
       case CheckCtx(x) => x == o && g == 1 && !s.ops[o].expired
       case CheckBreaker(x, open) => x == o && g == 2 && !open
       case CheckBrownout(x) => x == o && g == 3 && !(s.brownout && s.ops[o].priority == 0)
       case CheckEndpoint(x) => x == o && g == 4 && !(AtEndpointLimit(cfg, s, o) && s.ops[o].priority == 0)
       case _ => false
  }

  lemma LevelMoves(cfg: Config, s: State, step: Step, op: Op, g: nat)
    requires RunInv(op) && Ready(cfg, s, step, op) && (step.Receive? ==> op.req == InQueue)
    requires 1 <= g <= 4 && Level(Moved(cfg, s, step, op)) >= g && Level(op) < g
    ensures (step.CheckCtx? && g == 1 && !op.expired) || (step.CheckBreaker? && g == 2 && !step.open)
            || (step.CheckBrownout? && g == 3 && !(s.brownout && op.priority == 0))
            || (step.CheckEndpoint? && g == 4 && !(EndpointFull(cfg, s, op) && op.priority == 0))
  {
    if OfWorker(step) {
      WorkerStays(cfg, s, step, op);
    }
  }

  lemma WorkerStays(cfg: Config, s: State, step: Step, op: Op)
    requires RunInv(op) && Ready(cfg, s, step, op) && OfWorker(step) && (step.Receive? ==> op.req == InQueue)
    ensures Level(Moved(cfg, s, step, op)) == Level(op) == 4
  {
  }

  lemma LevelBefore(cfg: Config, s: State, step: Step, o: OpId, g: nat)
    requires Inv(cfg, s) && Enabled(cfg, s, step) && o in Apply(cfg, s, step).ops
    requires 1 <= g <= 4 && Level(Apply(cfg, s, step).ops[o]) >= g
    ensures o in s.ops && (Level(s.ops[o]) >= g || Passes(cfg, s, step, o, g))
  {
    if OfMonitor(step) || step.Call? {
    } else if step.o == o && Level(s.ops[o]) < g {
      assert OpInv(cfg, s.ops[o]);
      if step.Receive? {
        HeadIsQueued(cfg, s, step);
      }
      LevelMoves(cfg, s, step, s.ops[o], g);
    }
  }

  /** Whoever is past a check passed it: an operation that got as far as being admitted was live when it came,
      did not find its breaker open, and, if it is telemetry, neither met brownout nor a full endpoint. */
  lemma {:induction false} PassedEveryCheck(cfg: Config, states: seq<State>, steps: seq<Step>, i: nat, o: OpId, g: nat) returns (k: nat)
    requires Run(cfg, states, steps) && i < |states| && o in states[i].ops && 1 <= g <= Level(states[i].ops[o])
    ensures k < i && Passes(cfg, states[k], steps[k], o, g)
  {
    hide Run, Inv, Level, Passes, Apply, Enabled;
    LevelBounded(states[i].ops[o]);
    FromBefore(cfg, states, steps, i, o);
    InvAlways(cfg, states, steps, i - 1);
    LevelBefore(cfg, states[i - 1], steps[i - 1], o, g);
    if Passes(cfg, states[i - 1], steps[i - 1], o, g) {
      k := i - 1;
    } else {
      k := PassedEveryCheck(cfg, states, steps, i - 1, o, g);
    }
  }

  lemma LevelBounded(op: Op)
    ensures Level(op) <= 4
  {
  }

  // ----- queued or run at once -----

  predicate OnRunPath(op: Op) {
    match op.caller
    case WillRun | RunGlobalAdded | RunBothAdded | RunReady | Ran | RanGlobalDone => true
    case Returned => op.runs > 0 && op.req.NoRequest?
    case _ => false
  }

  predicate OnQueuePath(op: Op) {
    match op.caller
    case WillQueue | QueueGlobalAdded | QueueBothAdded | SendFailed | SendGlobalUndone | Waiting => true
    case Returned => !op.req.NoRequest?
    case _ => false
  }

  lemma LoadedBefore(cfg: Config, s: State, step: Step, o: OpId)
    requires Enabled(cfg, s, step) && o in Apply(cfg, s, step).ops && Apply(cfg, s, step).ops[o].caller.Loaded?
    ensures o in s.ops
    ensures if step == LoadGlobal(o) then Apply(cfg, s, step).ops[o].loaded == s.global
            else s.ops[o].caller.Loaded? && Apply(cfg, s, step).ops[o].loaded == s.ops[o].loaded
  {
    hide QueuesAfter, InFlightAfter, BrownoutAfter;
    if !OfMonitor(step) && !step.Call? && step.o == o {
      LoadedMove(cfg, s, step, s.ops[o]);
      hide Moved;
    }
  }

  lemma LoadedMove(cfg: Config, s: State, step: Step, op: Op)
    requires Ready(cfg, s, step, op) && Moved(cfg, s, step, op).caller.Loaded?
    ensures if step.LoadGlobal? then Moved(cfg, s, step, op).loaded == s.global
            else op.caller.Loaded? && Moved(cfg, s, step, op).loaded == op.loaded
  {
  }

  /** The count an operation decides on is the global count at its last load. */
  lemma {:induction false} LoadedThen(cfg: Config, states: seq<State>, steps: seq<Step>, i: nat, o: OpId) returns (j: nat)
    requires Run(cfg, states, steps) && i < |states| && o in states[i].ops && states[i].ops[o].caller.Loaded?
    ensures j < i && steps[j] == LoadGlobal(o) && states[i].ops[o].loaded == states[j].global
    ensures forall m :: j < m < i ==> steps[m] != LoadGlobal(o)
  {
    hide Run, Apply, Enabled;
    FromBefore(cfg, states, steps, i, o);
    LoadedBefore(cfg, states[i - 1], steps[i - 1], o);
    if steps[i - 1] == LoadGlobal(o) {
      j := i - 1;
    } else {
      j := LoadedThen(cfg, states, steps, i - 1, o);
    }
  }

  /** The step is the operation's decision, on count c, to run at once or to queue. */
  predicate DecidesToRun(cfg: Config, step: Step, o: OpId, c: int, priority: nat) {
    step.Decide? && step.o == o && c < cfg.maxGlobal && (priority == 0 ==> c < cfg.threshold)
  }

  predicate DecidesToQueue(cfg: Config, step: Step, o: OpId, c: int, priority: nat) {
    step == Decide(o, false) && c >= cfg.maxGlobal && (priority == 0 ==> c < cfg.threshold)
  }

  lemma RunPathMoves(cfg: Config, s: State, step: Step, op: Op)
    requires RunInv(op) && Ready(cfg, s, step, op) && (step.Receive? ==> op.req == InQueue)
    requires OnRunPath(Moved(cfg, s, step, op)) && !OnRunPath(op)
    ensures step.Decide? && op.caller.Loaded? && op.loaded < cfg.maxGlobal && (op.priority == 0 ==> op.loaded < cfg.threshold)
  {
  }

  lemma QueuePathMoves(cfg: Config, s: State, step: Step, op: Op)
    requires RunInv(op) && Ready(cfg, s, step, op) && (step.Receive? ==> op.req == InQueue)
    requires OnQueuePath(Moved(cfg, s, step, op)) && !OnQueuePath(op)
    ensures step.Decide? && !step.closed && op.caller.Loaded?
    ensures op.loaded >= cfg.maxGlobal && (op.priority == 0 ==> op.loaded < cfg.threshold)
  {
  }

  lemma PathBefore(cfg: Config, s: State, step: Step, o: OpId)
    requires Inv(cfg, s) && Enabled(cfg, s, step) && o in Apply(cfg, s, step).ops
    ensures OnRunPath(Apply(cfg, s, step).ops[o]) ==>
              o in s.ops && s.ops[o].priority == Apply(cfg, s, step).ops[o].priority
              && (OnRunPath(s.ops[o])
                  || (s.ops[o].caller.Loaded? && DecidesToRun(cfg, step, o, s.ops[o].loaded, s.ops[o].priority)))
    ensures OnQueuePath(Apply(cfg, s, step).ops[o]) ==>
              o in s.ops && s.ops[o].priority == Apply(cfg, s, step).ops[o].priority
              && (OnQueuePath(s.ops[o])
                  || (s.ops[o].caller.Loaded? && DecidesToQueue(cfg, step, o, s.ops[o].loaded, s.ops[o].priority)))
  {
    if !OfMonitor(step) && !step.Call? && step.o == o {
      assert OpInv(cfg, s.ops[o]);
      if step.Receive? {
        HeadIsQueued(cfg, s, step);
      }
      PathMoves(cfg, s, step, s.ops[o]);
      hide Moved, Ready, OpInv, OnRunPath, OnQueuePath;
    }
  }

  lemma PathMoves(cfg: Config, s: State, step: Step, op: Op)
    requires RunInv(op) && Ready(cfg, s, step, op) && (step.Receive? ==> op.req == InQueue)
    ensures var after := Moved(cfg, s, step, op);
            && after.priority == op.priority
            && (OnRunPath(after) && !OnRunPath(op) ==> op.caller.Loaded? && DecidesToRun(cfg, step, step.o, op.loaded, op.priority))
            && (OnQueuePath(after) && !OnQueuePath(op) ==> op.caller.Loaded? && DecidesToQueue(cfg, step, step.o, op.loaded, op.priority))
  {
    hide OnRunPath, OnQueuePath, Moved, Ready;
    PriorityStays(cfg, s, step, op);
    if OnRunPath(Moved(cfg, s, step, op)) && !OnRunPath(op) {
      RunPathMoves(cfg, s, step, op);
    }
    if OnQueuePath(Moved(cfg, s, step, op)) && !OnQueuePath(op) {
      QueuePathMoves(cfg, s, step, op);
    }
  }

  /** An operation that runs at once decided so because its last load of the global count found less than the
      hard limit and, for telemetry, less than the threshold. */
  lemma {:induction false} RunsAtOnceBelowLimit(cfg: Config, states: seq<State>, steps: seq<Step>, i: nat, o: OpId)
    returns (j: nat, k: nat)
    requires Run(cfg, states, steps) && i < |states| && o in states[i].ops && OnRunPath(states[i].ops[o])
    ensures j < k < i && steps[j] == LoadGlobal(o) && (forall m :: j < m < k ==> steps[m] != LoadGlobal(o))
    ensures DecidesToRun(cfg, steps[k], o, states[j].global, states[i].ops[o].priority)
  {
    hide Run, Inv, Apply, Enabled, OnRunPath, OnQueuePath;
    FromBefore(cfg, states, steps, i, o);
    InvAlways(cfg, states, steps, i - 1);
    PathBefore(cfg, states[i - 1], steps[i - 1], o);
    if OnRunPath(states[i - 1].ops[o]) {
      j, k := RunsAtOnceBelowLimit(cfg, states, steps, i - 1, o);
    } else {
      j := LoadedThen(cfg, states, steps, i - 1, o);
      k := i - 1;
    }
  }

  /** An operation is queued because its last load found at least the hard limit, in a pool not closed. */
  lemma {:induction false} QueuedAtLimit(cfg: Config, states: seq<State>, steps: seq<Step>, i: nat, o: OpId) returns (j: nat, k: nat)
    requires Run(cfg, states, steps) && i < |states| && o in states[i].ops && OnQueuePath(states[i].ops[o])
    ensures j < k < i && steps[j] == LoadGlobal(o) && (forall m :: j < m < k ==> steps[m] != LoadGlobal(o))
    ensures DecidesToQueue(cfg, steps[k], o, states[j].global, states[i].ops[o].priority)
  {
    hide Run, Inv, Apply, Enabled, OnRunPath, OnQueuePath;
    FromBefore(cfg, states, steps, i, o);
    InvAlways(cfg, states, steps, i - 1);
    PathBefore(cfg, states[i - 1], steps[i - 1], o);
    if OnQueuePath(states[i - 1].ops[o]) {
      j, k := QueuedAtLimit(cfg, states, steps, i - 1, o);
    } else {
      j := LoadedThen(cfg, states, steps, i - 1, o);
      k := i - 1;
    }
  }

  // ----- refusal -----

  /** The step refuses the operation for what it meets there. */
  predicate Refuses(cfg: Config, s: State, step: Step, o: OpId) {
    && o in s.ops
    && match step
       case CheckCtx(x) => x == o && s.ops[o].expired
       case CheckBreaker(x, open) => x == o && open
       case CheckBrownout(x) => x == o && s.brownout && s.ops[o].priority == 0
       case CheckEndpoint(x) => x == o && AtEndpointLimit(cfg, s, o) && s.ops[o].priority == 0
       case Decide(x, closed) =>
         x == o && ((s.ops[o].loaded >= cfg.threshold && s.ops[o].priority == 0) || (s.ops[o].loaded >= cfg.maxGlobal && closed))
       case UndoSession(x) => x == o
       case WorkerDeadline(x) => x == o && s.ops[o].expired
       case WorkerBreaker(x, open) => x == o && open
       case _ => false
  }

  lemma RefusedMoves(cfg: Config, s: State, step: Step, op: Op)
    requires Ready(cfg, s, step, op) && !op.refused
    ensures Moved(cfg, s, step, op).refused <==>
            match step
            case CheckCtx(_) => op.expired
            case CheckBreaker(_, open) => open
            case CheckBrownout(_) => s.brownout && op.priority == 0
            case CheckEndpoint(_) => EndpointFull(cfg, s, op) && op.priority == 0
            case Decide(_, closed) =>
              (op.loaded >= cfg.threshold && op.priority == 0) || (op.loaded >= cfg.maxGlobal && closed)
            case UndoSession(_) => true
            case WorkerDeadline(_) => op.expired
            case WorkerBreaker(_, open) => open
            case _ => false
  {
  }

  lemma EndpointLimitIs(cfg: Config, s: State, o: OpId)
    requires o in s.ops
    ensures AtEndpointLimit(cfg, s, o) <==> EndpointFull(cfg, s, s.ops[o])
  {
  }

  /** A step makes an operation refused exactly if it meets one of these reasons: its context expired, its breaker
      is open, telemetry meets brownout, a full endpoint or, at its decision, a loaded count at or above the
      threshold, the pool is closed at the hard limit, or its send to a full queue was undone. */
  lemma RefusedExactly(cfg: Config, states: seq<State>, steps: seq<Step>, i: nat, o: OpId)
    requires Run(cfg, states, steps) && i < |steps| && o in states[i].ops && !states[i].ops[o].refused
    ensures o in states[i + 1].ops && (states[i + 1].ops[o].refused <==> Refuses(cfg, states[i], steps[i], o))
  {
    var s, step := states[i], steps[i];
    assert Enabled(cfg, s, step) && states[i + 1] == Apply(cfg, s, step);
    if !OfMonitor(step) && !step.Call? && step.o == o {
      RefusedMoves(cfg, s, step, s.ops[o]);
      EndpointLimitIs(cfg, s, o);
      hide Moved;
    }
  }

  /** Every refused operation was refused by one such step, and the count it met at a decision is that of its last
      load. For telemetry refused because of load this means: it found brownout on, its session at the endpoint
      limit, or a global count at or above the threshold. */
  lemma {:induction false} WhyRefused(cfg: Config, states: seq<State>, steps: seq<Step>, i: nat, o: OpId) returns (k: nat, j: nat)
    requires Run(cfg, states, steps) && i < |states| && o in states[i].ops && states[i].ops[o].refused
    ensures k < i && Refuses(cfg, states[k], steps[k], o)
    ensures steps[k].Decide? ==>
              j < k && steps[j] == LoadGlobal(o) && states[k].ops[o].loaded == states[j].global
              && forall m :: j < m < k ==> steps[m] != LoadGlobal(o)
    ensures steps[k].UndoSession? ==> j < k && FoundFull(cfg, states[j], steps[j], o)
  {
    hide Run, Apply, Enabled;
    FromBefore(cfg, states, steps, i, o);
    RefusedComes(cfg, states[i - 1], steps[i - 1], o);
    if states[i - 1].ops[o].refused {
      k, j := WhyRefused(cfg, states, steps, i - 1, o);
    } else {
      RefusedExactly(cfg, states, steps, i - 1, o);
      k, j := i - 1, 0;
      RefusedFrom(cfg, states, steps, k, o);
      if steps[k].Decide? {
        j := LoadedThen(cfg, states, steps, k, o);
      } else if steps[k].UndoSession? {
        j := QueueWasFull(cfg, states, steps, k, o);
      }
    }
  }

  /** Where an operation is when a step of it may be taken. */
  lemma RefusedFrom(cfg: Config, states: seq<State>, steps: seq<Step>, k: nat, o: OpId)
    requires Run(cfg, states, steps) && k < |steps| && o in states[k].ops
    ensures steps[k].Decide? && steps[k].o == o ==> states[k].ops[o].caller.Loaded?
    ensures steps[k] == UndoSession(o) ==> Rejected(states[k].ops[o])
  {
    assert Enabled(cfg, states[k], steps[k]);
  }

  lemma RefusedComes(cfg: Config, s: State, step: Step, o: OpId)
    requires Enabled(cfg, s, step) && o in Apply(cfg, s, step).ops && Apply(cfg, s, step).ops[o].refused
    ensures o in s.ops
  {
  }

  // ----- what a worker checks -----

  function WorkerPassed(op: Op): nat {
    match op.req
    case DeadlineOk => 1
    case Cleared => 2
    case HasOutcome | Answered | GlobalDone | Finished => if op.runs > 0 then 2 else 0
    case _ => 0
  }

  predicate WorkerPasses(s: State, step: Step, o: OpId, g: nat) {
    && o in s.ops
    && match step
       case WorkerDeadline(x) => x == o && g == 1 && !s.ops[o].expired
       case WorkerBreaker(x, open) => x == o && g == 2 && !open
       case _ => false
  }

  lemma WorkerCheckBefore(cfg: Config, s: State, step: Step, o: OpId, g: nat)
    requires Inv(cfg, s) && Enabled(cfg, s, step) && o in Apply(cfg, s, step).ops
    requires 1 <= g <= 2 && WorkerPassed(Apply(cfg, s, step).ops[o]) >= g
    ensures o in s.ops && (WorkerPassed(s.ops[o]) >= g || WorkerPasses(s, step, o, g))
  {
    if OfMonitor(step) || step.Call? {
    } else if step.o == o {
      assert OpInv(cfg, s.ops[o]);
      if step.Receive? {
        HeadIsQueued(cfg, s, step);
      }
      if WorkerPassed(Moved(cfg, s, step, s.ops[o])) >= g && WorkerPassed(s.ops[o]) < g {
        WorkerCheckMoves(cfg, s, step, s.ops[o], g);
      }
      hide Moved, Ready, OpInv;
    }
  }

  lemma WorkerCheckMoves(cfg: Config, s: State, step: Step, op: Op, g: nat)
    requires RunInv(op) && Ready(cfg, s, step, op) && (step.Receive? ==> op.req == InQueue)
    requires 1 <= g <= 2 && WorkerPassed(Moved(cfg, s, step, op)) >= g && WorkerPassed(op) < g
    ensures (step.WorkerDeadline? && g == 1 && !op.expired) || (step.WorkerBreaker? && g == 2 && !step.open)
  {
  }

  /** A worker runs a queued operation only after it found its context live and its breaker not open. */
  lemma {:induction false} WorkerChecked(cfg: Config, states: seq<State>, steps: seq<Step>, i: nat, o: OpId, g: nat) returns (k: nat)
    requires Run(cfg, states, steps) && i < |states| && o in states[i].ops
    requires 1 <= g <= 2 && !states[i].ops[o].req.NoRequest? && states[i].ops[o].runs > 0
    ensures k < i && WorkerPasses(states[k], steps[k], o, g)
  {
    OpInvAlways(cfg, states, steps, i, o);
    k := WorkerCheckedTo(cfg, states, steps, i, o, g);
  }

  lemma {:induction false} WorkerCheckedTo(cfg: Config, states: seq<State>, steps: seq<Step>, i: nat, o: OpId, g: nat) returns (k: nat)
    requires Run(cfg, states, steps) && i < |states| && o in states[i].ops && 1 <= g <= 2 && WorkerPassed(states[i].ops[o]) >= g
    ensures k < i && WorkerPasses(states[k], steps[k], o, g)
  {
    hide Run, Inv, WorkerPassed, WorkerPasses, Apply, Enabled;
    FromBefore(cfg, states, steps, i, o);
    InvAlways(cfg, states, steps, i - 1);
    WorkerCheckBefore(cfg, states[i - 1], steps[i - 1], o, g);
    if WorkerPasses(states[i - 1], steps[i - 1], o, g) {
      k := i - 1;
    } else {
      k := WorkerCheckedTo(cfg, states, steps, i - 1, o, g);
    }
  }

  // ----- brownout -----

  /** The flag goes on exactly with telemetry refused at the threshold or the monitor having loaded as much, and
      off exactly with an inline operation or the monitor having loaded less than half of it. */
  lemma BrownoutExactly(cfg: Config, states: seq<State>, steps: seq<Step>, i: nat)
    requires Run(cfg, states, steps) && i < |steps|
    ensures var s, now := states[i], states[i + 1].brownout;
            var half := if cfg.threshold >= 0 then cfg.threshold / 2 else -(-cfg.threshold / 2);
            match steps[i]
            case Decide(o, _) =>
              o in s.ops && (now <==> s.brownout || (s.ops[o].loaded >= cfg.threshold && s.ops[o].priority == 0))
            case LeaveBrownout(o) => o in s.ops && (now <==> s.brownout && !(s.ops[o].loaded < half))
            case MonitorSet =>
              s.monitor.Some? && (now <==> s.monitor.value >= cfg.threshold
                                           || (s.brownout && !(s.monitor.value < half)))
            case _ => now == s.brownout
  {
    assert Enabled(cfg, states[i], steps[i]) && states[i + 1] == Apply(cfg, states[i], steps[i]);
    hide Moved, QueuesAfter, InFlightAfter;
  }

  // ----- the order of service -----

  /** The operations sent to queue p by the first i steps, and those received from it. */
  ghost function Sent(cfg: Config, states: seq<State>, steps: seq<Step>, i: nat, p: nat): seq<OpId>
    requires i <= |steps| < |states|
  {
    if i == 0 then []
    else
      var s, step := states[i - 1], steps[i - 1];
      Sent(cfg, states, steps, i - 1, p)
      + if step.TrySend? && step.o in s.ops && s.ops[step.o].priority == p && p < |s.queues| && |s.queues[p]| < cfg.queueSize
        then [step.o] else []
  }

  ghost function Received(states: seq<State>, steps: seq<Step>, i: nat, p: nat): seq<OpId>
    requires i <= |steps| < |states|
  {
    if i == 0 then []
    else
      var s, step := states[i - 1], steps[i - 1];
      Received(states, steps, i - 1, p)
      + if step.Receive? && step.o in s.ops && s.ops[step.o].priority == p then [step.o] else []
  }

  lemma RunShape(cfg: Config, states: seq<State>, steps: seq<Step>)
    requires Run(cfg, states, steps)
    ensures |states| == |steps| + 1 && states[0].queues == [[], [], []]
  {
    hide Apply, Enabled;
  }

  lemma StepTaken(cfg: Config, states: seq<State>, steps: seq<Step>, i: nat)
    requires Run(cfg, states, steps) && i < |steps|
    ensures |states| == |steps| + 1 && Enabled(cfg, states[i], steps[i]) && states[i + 1] == Apply(cfg, states[i], steps[i])
    ensures steps[i].TrySend? || steps[i].Receive? ==> steps[i].o in states[i].ops
  {
    hide Apply;
  }

  lemma QueueMoves(cfg: Config, s: State, step: Step, p: nat)
    requires Enabled(cfg, s, step) && |s.queues| == 3 && p < 3
    ensures |Apply(cfg, s, step).queues| == 3
    ensures var q := s.queues[p];
            Apply(cfg, s, step).queues[p] ==
            if step.TrySend? && s.ops[step.o].priority == p && |q| < cfg.queueSize then q + [step.o]
            else if step.Receive? && s.ops[step.o].priority == p && q != [] then q[1..] else q
    ensures step.Receive? && s.ops[step.o].priority == p ==> s.queues[p] != [] && s.queues[p][0] == step.o
  {
    hide Moved, InFlightAfter;
  }

  /** Each queue is served first in, first out, and a send fails exactly when the queue is full. */
  lemma {:induction false} ServedInOrder(cfg: Config, states: seq<State>, steps: seq<Step>, i: nat, p: nat)
    requires Run(cfg, states, steps) && i < |states| && p < 3
    ensures |states[i].queues| == 3
    ensures Sent(cfg, states, steps, i, p) == Received(states, steps, i, p) + states[i].queues[p]
  {
    hide Run, Apply, Enabled;
    RunShape(cfg, states, steps);
    if i > 0 {
      ServedInOrder(cfg, states, steps, i - 1, p);
      var s, step := states[i - 1], steps[i - 1];
      StepTaken(cfg, states, steps, i - 1);
      QueueMoves(cfg, s, step, p);
      if step.Receive? && s.ops[step.o].priority == p {
        assert s.queues[p] == [step.o] + s.queues[p][1..];
      }
    }
  }
}
