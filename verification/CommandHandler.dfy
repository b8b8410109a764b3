/** Write commands from receipt to response, as an interleaving of atomic steps.

    Message callbacks parse and enqueue commands concurrently; one processor, started once, takes them
    from the bounded queue and writes them to devices under a write semaphore. Every counter
    update, channel operation and response is a step of its own. What a payload parses to, what
    the registry says about a tag and whether a write succeeds are part of the steps. */
module CommandHandler {
  import opened Domain

  type CommandId = nat

  /** A size of 0 or less means the default. */
  datatype Config = Config(queueSize: int, maxConcurrentWrites: int, acknowledge: bool)

  function QueueCapacity(cfg: Config): nat { if cfg.queueSize <= 0 then 1000 else cfg.queueSize }

  function WriteSlots(cfg: Config): (n: nat)
    ensures n == if cfg.maxConcurrentWrites <= 0 then 50 else cfg.maxConcurrentWrites
  {
    if cfg.maxConcurrentWrites <= 0 then 50 else cfg.maxConcurrentWrites
  }

  datatype Kind = WriteTopic | SetTopic

  /** The number of topic levels, and whether the payload is JSON of the expected shape. */
  datatype Message = Message(kind: Kind, levels: nat, parses: bool)

  /** A payload that is not JSON is a raw string for the topic of a single tag. */
  predicate Malformed(m: Message) {
    match m.kind
    case WriteTopic => m.levels < 3 || !m.parses
    case SetTopic => m.levels < 4
  }

  datatype Outcome = Succeeded | Failed | ShutDown | RateLimited

  /** Where a command is: in its callback, enqueued, or counted. */
  datatype Stage =
    | Received | Unparsable | Parsed | FoundFull | FullAnswered
    | Enqueued
    | Discarded | TurnedAway | Done(outcome: Outcome)

  datatype Found = NoDevice | NoTag | ReadOnly | Writable

  /** `responses` are the responses published for the command, by whether they report success, `found` what
      the registry said about its tag, and `writes` the writes to the device, by whether they succeeded. */
  datatype Command = Command(message: Message, stage: Stage, responses: seq<bool>, found: Option<Found>, writes: seq<bool>)

  datatype Processor =
    | Off | Selecting | Acquiring | Finding | Writing
    | Answering(outcome: Outcome) | Counting(outcome: Outcome) | Releasing

  datatype Counters = Counters(received: nat, succeeded: nat, failed: nat, rejected: nat)

  /** `order` lists all commands ever enqueued and `taken` those taken from the queue. */
  datatype State = State(
    commands: map<CommandId, Command>, queue: seq<CommandId>, order: seq<CommandId>, taken: seq<CommandId>,
    counts: Counters, writing: int, cancelled: bool, started: bool, processor: Processor, draining: bool, hand: Option<CommandId>)

  datatype Step =
    | Receive(c: CommandId, message: Message)
    | Parse(c: CommandId) | Enqueue(c: CommandId) | AnswerFull(c: CommandId) | CountRejected(c: CommandId)
    | Start | Stop | StartDrain | StopDrain
    | Take | Acquire | SeeShutDown | SeeFull | Find(found: Found) | Write(ok: bool) | Answer | CountOutcome | Release

  const Initial := State(map[], [], [], [], Counters(0, 0, 0, 0), 0, false, false, Off, false, None)

  predicate At(s: State, c: CommandId, stage: Stage) { c in s.commands && s.commands[c].stage == stage }

  predicate Holding(s: State, p: Processor) { s.processor == p && s.hand.Some? && s.hand.value in s.commands }

  predicate Enabled(cfg: Config, s: State, step: Step) {
    match step
    case Receive(c, _) => c !in s.commands
    case Parse(c) => At(s, c, Received)
    case Enqueue(c) => At(s, c, Parsed)
    case AnswerFull(c) => At(s, c, FoundFull)
    case CountRejected(c) => At(s, c, Unparsable) || At(s, c, FullAnswered)
    case Start => !s.started
    case Stop => s.started
    case StartDrain => s.processor == Selecting && s.cancelled && !s.draining
    case StopDrain => s.processor == Selecting && s.draining
    case Take => s.processor == Selecting && s.queue != [] && s.queue[0] in s.commands
    case Acquire => Holding(s, Acquiring) && s.writing < WriteSlots(cfg)
    case SeeShutDown => Holding(s, Acquiring) && s.cancelled
    case SeeFull => Holding(s, Acquiring) && s.writing >= WriteSlots(cfg) && !s.cancelled
    case Find(_) => Holding(s, Finding)
    case Write(_) => Holding(s, Writing)
    case Answer => s.processor.Answering? && Holding(s, s.processor)
    case CountOutcome => s.processor.Counting? && Holding(s, s.processor)
    case Release => s.processor == Releasing && s.writing > 0
  }

  /** Between acquiring and releasing a write slot. */
  predicate HasSlot(p: Processor) {
    match p
    case Finding | Writing | Releasing => true
    case Answering(outcome) => KeepsSlot(outcome)
    case Counting(outcome) => KeepsSlot(outcome)
    case _ => false
  }

  predicate KeepsSlot(outcome: Outcome) { outcome == Succeeded || outcome == Failed }

  function Respond(cfg: Config, c: Command, success: bool): Command {
    if cfg.acknowledge then c.(responses := c.responses + [success]) else c
  }

  /** The command a step deals with, if any. */
  function Moves(s: State, step: Step): Option<CommandId> {
    match step
    case Receive(c, _) => Some(c)
    case Parse(c) => Some(c)
    case Enqueue(c) => Some(c)
    case AnswerFull(c) => Some(c)
    case CountRejected(c) => Some(c)
    case Take => if s.queue != [] then Some(s.queue[0]) else None
    case Acquire | SeeShutDown | SeeFull | Find(_) | Write(_) | Answer | CountOutcome => s.hand
    case _ => None
  }

  predicate HasRoom(cfg: Config, s: State) { |s.queue| < QueueCapacity(cfg) }

  function CommandAfter(cfg: Config, s: State, step: Step, c: CommandId): Command
    requires step.Receive? || c in s.commands
    requires step.Answer? ==> s.processor.Answering?
    requires step.CountOutcome? ==> s.processor.Counting?
  {
    match step
    case Receive(_, message) => Command(message, Received, [], None, [])
    case Parse(_) => s.commands[c].(stage := if Malformed(s.commands[c].message) then Unparsable else Parsed)
    case Enqueue(_) => s.commands[c].(stage := if HasRoom(cfg, s) then Enqueued else FoundFull)
    case AnswerFull(_) => Respond(cfg, s.commands[c], false).(stage := FullAnswered)
    case CountRejected(_) =>
      s.commands[c].(stage := if s.commands[c].stage == Unparsable then Discarded else TurnedAway)
    case Find(found) => s.commands[c].(found := Some(found))
    case Write(ok) => s.commands[c].(writes := s.commands[c].writes + [ok])
    case Answer => Respond(cfg, s.commands[c], s.processor.outcome == Succeeded)
    case CountOutcome => s.commands[c].(stage := Done(s.processor.outcome))
    case _ => s.commands[c]
  }

  function CommandsAfter(cfg: Config, s: State, step: Step): map<CommandId, Command>
    requires Enabled(cfg, s, step)
  {
    match Moves(s, step)
    case Some(c) => s.commands[c := CommandAfter(cfg, s, step, c)]
    case None => s.commands
  }

  function QueueAfter(cfg: Config, s: State, step: Step): seq<CommandId>
    requires Enabled(cfg, s, step)
  {
    match step
    case Enqueue(c) => if HasRoom(cfg, s) then s.queue + [c] else s.queue
    case Take => s.queue[1..]
    case _ => s.queue
  }

  function OrderAfter(cfg: Config, s: State, step: Step): seq<CommandId> {
    if step.Enqueue? && HasRoom(cfg, s) then s.order + [step.c] else s.order
  }

  function TakenAfter(s: State, step: Step): seq<CommandId> {
    if step.Take? && s.queue != [] then s.taken + [s.queue[0]] else s.taken
  }

  function CountsAfter(s: State, step: Step): Counters {
    match step
    case Receive(_, _) => s.counts.(received := s.counts.received + 1)
    case CountRejected(_) => s.counts.(rejected := s.counts.rejected + 1)
    case CountOutcome =>
      if !s.processor.Counting? then s.counts
      else if s.processor.outcome == Succeeded then s.counts.(succeeded := s.counts.succeeded + 1)
      else if s.processor.outcome == Failed then s.counts.(failed := s.counts.failed + 1)
      else s.counts.(rejected := s.counts.rejected + 1)
    case _ => s.counts
  }

  function HandAfter(s: State, step: Step): Option<CommandId> {
    if step.Take? && s.queue != [] then Some(s.queue[0]) else if step.CountOutcome? then None else s.hand
  }

  function WritingAfter(s: State, step: Step): int {
    s.writing + if step.Acquire? then 1 else if step.Release? then -1 else 0
  }

  function ProcessorAfter(s: State, step: Step): Processor {
    match step
    case Start => Selecting
    case StopDrain => Off
    case Take => Acquiring
    case Acquire => Finding
    case SeeShutDown => Answering(ShutDown)
    case SeeFull => Answering(RateLimited)
    case Find(found) => if found == Writable then Writing else Answering(Failed)
    case Write(ok) => Answering(if ok then Succeeded else Failed)
    case Answer => if s.processor.Answering? then Counting(s.processor.outcome) else s.processor
    case CountOutcome => if HasSlot(s.processor) then Releasing else Selecting
    case Release => Selecting
    case _ => s.processor
  }

  function Apply(cfg: Config, s: State, step: Step): State
    requires Enabled(cfg, s, step)
  {
    State(CommandsAfter(cfg, s, step), QueueAfter(cfg, s, step), OrderAfter(cfg, s, step), TakenAfter(s, step),
          CountsAfter(s, step), WritingAfter(s, step), s.cancelled || step.Stop?, s.started || step.Start?,
          ProcessorAfter(s, step), s.draining || step.StartDrain?, HandAfter(s, step))
  }

  // ----- order and the processor -----

  ghost predicate NoDuplicates(s: seq<CommandId>) { forall i, j :: 0 <= i < j < |s| ==> s[i] != s[j] }

  /** Commands are taken in the order in which they were enqueued, each once. */
  ghost predicate OrderInv(s: State) {
    && s.order == s.taken + s.queue && NoDuplicates(s.order)
    && (forall c :: c in s.order ==> c in s.commands && (s.commands[c].stage == Enqueued || s.commands[c].stage.Done?))
    && (forall c :: c in s.queue ==> c in s.commands && s.commands[c].stage == Enqueued)
    && (s.hand.Some? ==> s.taken != [] && s.taken[|s.taken| - 1] == s.hand.value && At(s, s.hand.value, Enqueued))
  }

  /** All but the command in hand of those taken are done. */
  ghost predicate TakenInv(s: State) {
    forall i :: 0 <= i < |s.taken| - (if s.hand.Some? then 1 else 0) ==>
      s.taken[i] in s.commands && s.commands[s.taken[i]].stage.Done?
  }

  /** The one processor holds at most one write slot. */
  predicate ProcessorInv(s: State) {
    && (s.hand.Some? <==> !s.processor.Off? && !s.processor.Selecting? && !s.processor.Releasing?)
    && s.writing == (if HasSlot(s.processor) then 1 else 0)
    && (s.processor != Off ==> s.started)
    && s.processor != Answering(RateLimited) && s.processor != Counting(RateLimited)
  }

  function Sent(cfg: Config, success: bool): seq<bool> { if cfg.acknowledge then [success] else [] }

  /** What has been published for the command. */
  predicate ResponsesOk(cfg: Config, s: State, c: CommandId)
    requires c in s.commands
  {
    CommandOk(cfg, s.commands[c], PhaseOf(s.processor, s.hand, c))
  }

  /** What the processor is doing with the command, if it has it in hand. */
  function PhaseOf(p: Processor, hand: Option<CommandId>, c: CommandId): Option<Processor> {
    if hand == Some(c) then Some(p) else None
  }

  predicate CommandOk(cfg: Config, command: Command, phase: Option<Processor>) {
    RespondedOk(cfg, command, phase) && WrittenOk(command, phase)
  }

  predicate RespondedOk(cfg: Config, command: Command, phase: Option<Processor>) {
    match command.stage
    case Received | Unparsable | Parsed | FoundFull | Discarded => command.responses == []
    case FullAnswered | TurnedAway => command.responses == Sent(cfg, false)
    case Enqueued =>
      command.responses ==
        if phase.Some? && phase.value.Counting? then Sent(cfg, phase.value.outcome == Succeeded) else []
    case Done(outcome) => command.responses == Sent(cfg, outcome == Succeeded) && outcome != RateLimited
  }

  predicate Untouched(command: Command) { command.found == None && command.writes == [] }

  /** The device was written at most once, only for a writable tag, and the outcome says how that went. */
  predicate Explains(outcome: Outcome, command: Command) {
    match outcome
    case Succeeded => command.found == Some(Writable) && command.writes == [true]
    case Failed =>
      || (command.found == Some(Writable) && command.writes == [false])
      || (command.found.Some? && command.found != Some(Writable) && command.writes == [])
    case ShutDown | RateLimited => Untouched(command)
  }

  predicate WrittenOk(command: Command, phase: Option<Processor>) {
    match command.stage
    case Done(outcome) => Explains(outcome, command)
    case Enqueued =>
      if phase.None? then Untouched(command)
      else (match phase.value
            case Writing => command.found == Some(Writable) && command.writes == []
            case Answering(outcome) => Explains(outcome, command)
            case Counting(outcome) => Explains(outcome, command)
            case _ => Untouched(command))
    case _ => Untouched(command)
  }

  ghost predicate ResponseInv(cfg: Config, s: State) {
    forall c :: c in s.commands ==> ResponsesOk(cfg, s, c)
  }

  // ----- counting -----

  datatype Account = InCallback | Waiting | CountedSucceeded | CountedFailed | CountedRejected

  function AccountOf(stage: Stage): Account {
    match stage
    case Received | Unparsable | Parsed | FoundFull | FullAnswered => InCallback
    case Enqueued => Waiting
    case Discarded | TurnedAway => CountedRejected
    case Done(outcome) =>
      match outcome
      case Succeeded => CountedSucceeded
      case Failed => CountedFailed
      case ShutDown | RateLimited => CountedRejected
  }

  ghost function In(commands: map<CommandId, Command>, account: Account): set<CommandId> {
    set c | c in commands && AccountOf(commands[c].stage) == account
  }

  function InProcess(s: State): nat { if s.hand.Some? then 1 else 0 }

  ghost predicate CountInv(s: State) {
    |s.commands| == s.counts.received && forall account :: account != InCallback ==> Agrees(s, account)
  }

  /** What the handler itself keeps of each account. */
  function Tally(s: State, account: Account): int {
    match account
    case InCallback => 0
    case Waiting => |s.queue| + InProcess(s)
    case CountedSucceeded => s.counts.succeeded
    case CountedFailed => s.counts.failed
    case CountedRejected => s.counts.rejected
  }

  ghost predicate Agrees(s: State, account: Account) { |In(s.commands, account)| == Tally(s, account) }

  ghost predicate Inv(cfg: Config, s: State) {
    ProcessorInv(s) && OrderInv(s) && TakenInv(s) && ResponseInv(cfg, s) && CountInv(s) && |s.queue| <= QueueCapacity(cfg)
  }

  function Is(b: bool): int { if b then 1 else 0 }

  lemma InAfter(commands: map<CommandId, Command>, c: CommandId, after: Command, account: Account)
    ensures |In(commands[c := after], account)| ==
            |In(commands, account)| + Is(AccountOf(after.stage) == account)
            - Is(c in commands && AccountOf(commands[c].stage) == account)
  {
    hide AccountOf;
    var was, now := In(commands, account), In(commands[c := after], account);
    assert now == if AccountOf(after.stage) == account then was + {c} else was - {c};
  }

  lemma SizeAfter(commands: map<CommandId, Command>, c: CommandId, after: Command)
    ensures |commands[c := after]| == |commands| + Is(c !in commands)
  {
    assert commands[c := after].Keys == commands.Keys + {c};
    assert |commands[c := after]| == |commands[c := after].Keys| && |commands| == |commands.Keys|;
  }

  /** How the step's command changes the account. */
  function Change(cfg: Config, s: State, step: Step, account: Account): int
    requires Enabled(cfg, s, step)
  {
    match Moves(s, step)
    case Some(c) =>
      Is(AccountOf(CommandAfter(cfg, s, step, c).stage) == account)
      - Is(c in s.commands && AccountOf(s.commands[c].stage) == account)
    case None => 0
  }

  lemma WaitingFollows(cfg: Config, s: State, step: Step)
    requires Enabled(cfg, s, step) && ProcessorInv(s) && (s.hand.Some? ==> At(s, s.hand.value, Enqueued))
    ensures |QueueAfter(cfg, s, step)| + (if HandAfter(s, step).Some? then 1 else 0) ==
            Tally(s, Waiting) + Change(cfg, s, step, Waiting)
  {
  }

  /** What the step's command is counted as, if it is counted. */
  function CountedAs(s: State, step: Step): Option<Account> {
    match step
    case CountRejected(_) => Some(CountedRejected)
    case CountOutcome => if s.processor.Counting? then Some(AccountOf(Done(s.processor.outcome))) else None
    case _ => None
  }

  lemma CountersMove(s: State, step: Step)
    ensures var counts, account := CountsAfter(s, step), CountedAs(s, step);
            && counts.succeeded == s.counts.succeeded + Is(account == Some(CountedSucceeded))
            && counts.failed == s.counts.failed + Is(account == Some(CountedFailed))
            && counts.rejected == s.counts.rejected + Is(account == Some(CountedRejected))
  {
  }

  /** A command enters one of the counted accounts exactly when it is counted. */
  lemma ChangeIsCounted(cfg: Config, s: State, step: Step, account: Account)
    requires Enabled(cfg, s, step) && (s.hand.Some? ==> At(s, s.hand.value, Enqueued))
    requires account != InCallback && account != Waiting
    ensures Change(cfg, s, step, account) == Is(CountedAs(s, step) == Some(account))
  {
  }

  lemma CountersFollow(cfg: Config, s: State, step: Step)
    requires Enabled(cfg, s, step) && (s.hand.Some? ==> At(s, s.hand.value, Enqueued))
    ensures CountsAfter(s, step).succeeded == s.counts.succeeded + Change(cfg, s, step, CountedSucceeded)
    ensures CountsAfter(s, step).failed == s.counts.failed + Change(cfg, s, step, CountedFailed)
    ensures CountsAfter(s, step).rejected == s.counts.rejected + Change(cfg, s, step, CountedRejected)
  {
    hide Change, CountsAfter, CountedAs, Enabled;
    CountersMove(s, step);
    ChangeIsCounted(cfg, s, step, CountedSucceeded);
    ChangeIsCounted(cfg, s, step, CountedFailed);
    ChangeIsCounted(cfg, s, step, CountedRejected);
  }

  lemma TallyFollows(cfg: Config, s: State, step: Step, account: Account)
    requires Enabled(cfg, s, step) && ProcessorInv(s) && account != InCallback
    requires s.hand.Some? ==> At(s, s.hand.value, Enqueued)
    ensures Tally(Apply(cfg, s, step), account) == Tally(s, account) + Change(cfg, s, step, account)
  {
    WaitingFollows(cfg, s, step);
    CountersFollow(cfg, s, step);
    hide Change, CountsAfter, QueueAfter, HandAfter, ProcessorInv, Enabled;
  }

  lemma AccountFollows(cfg: Config, s: State, step: Step, account: Account)
    requires Enabled(cfg, s, step)
    ensures |In(CommandsAfter(cfg, s, step), account)| == |In(s.commands, account)| + Change(cfg, s, step, account)
  {
    hide In, AccountOf, CommandAfter;
    match Moves(s, step)
    case Some(c) => InAfter(s.commands, c, CommandAfter(cfg, s, step, c), account);
    case None =>
  }

  lemma ReceivedFollows(cfg: Config, s: State, step: Step)
    requires Enabled(cfg, s, step)
    ensures |CommandsAfter(cfg, s, step)| - CountsAfter(s, step).received == |s.commands| - s.counts.received
  {
    hide CommandAfter;
    match Moves(s, step)
    case Some(c) => SizeAfter(s.commands, c, CommandAfter(cfg, s, step, c));
    case None =>
  }

  lemma CountInvKept(cfg: Config, s: State, step: Step)
    requires CountInv(s) && Enabled(cfg, s, step) && ProcessorInv(s) && OrderInv(s)
    ensures CountInv(Apply(cfg, s, step))
  {
    hide In, Tally, Change, Enabled, ProcessorInv, CommandsAfter, QueueAfter, CountsAfter, ProcessorAfter, HandAfter;
    var s' := Apply(cfg, s, step);
    ReceivedFollows(cfg, s, step);
    forall account | account != InCallback ensures Agrees(s', account) {
      assert Agrees(s, account);
      TallyFollows(cfg, s, step, account);
      AccountFollows(cfg, s, step, account);
    }
  }

  lemma ProcessorInvKept(cfg: Config, s: State, step: Step)
    requires ProcessorInv(s) && Enabled(cfg, s, step)
    ensures ProcessorInv(Apply(cfg, s, step))
  {
    hide CommandsAfter, QueueAfter, OrderAfter, TakenAfter, CountsAfter;
  }

  lemma OwnCommand(cfg: Config, s: State, step: Step, c: CommandId)
    requires Enabled(cfg, s, step) && Moves(s, step) == Some(c) && ProcessorInv(s)
    requires c in s.commands ==> CommandOk(cfg, s.commands[c], PhaseOf(s.processor, s.hand, c))
    requires s.hand.Some? ==> At(s, s.hand.value, Enqueued)
    requires step.Take? ==> At(s, c, Enqueued)
    ensures CommandOk(cfg, CommandAfter(cfg, s, step, c), PhaseOf(ProcessorAfter(s, step), HandAfter(s, step), c))
  {
  }

  lemma OtherCommands(cfg: Config, s: State, step: Step, c: CommandId)
    requires Enabled(cfg, s, step) && Moves(s, step) != Some(c) && ProcessorInv(s)
    ensures PhaseOf(ProcessorAfter(s, step), HandAfter(s, step), c) == PhaseOf(s.processor, s.hand, c)
  {
  }

  lemma ResponseInvKept(cfg: Config, s: State, step: Step)
    requires ResponseInv(cfg, s) && ProcessorInv(s) && OrderInv(s) && Enabled(cfg, s, step)
    ensures ResponseInv(cfg, Apply(cfg, s, step))
  {
    hide CommandOk, PhaseOf, CommandAfter, QueueAfter, ProcessorAfter, HandAfter, Enabled, ProcessorInv, CountsAfter;
    var s' := Apply(cfg, s, step);
    HeadIsEnqueued(cfg, s, step);
    forall c | c in s'.commands ensures ResponsesOk(cfg, s', c) {
      assert c in s.commands ==> ResponsesOk(cfg, s, c);
      if Moves(s, step) == Some(c) {
        OwnCommand(cfg, s, step, c);
      } else {
        OtherCommands(cfg, s, step, c);
      }
    }
  }

  lemma HeadIsEnqueued(cfg: Config, s: State, step: Step)
    requires Enabled(cfg, s, step) && OrderInv(s)
    ensures step.Take? ==> s.queue != [] && At(s, s.queue[0], Enqueued)
  {
  }

  lemma EnqueueKeepsOrder(s: State, c: CommandId, s': State)
    requires OrderInv(s) && TakenInv(s) && At(s, c, Parsed)
    requires s'.commands == s.commands[c := s.commands[c].(stage := Enqueued)]
    requires s'.queue == s.queue + [c] && s'.order == s.order + [c] && s'.taken == s.taken && s'.hand == s.hand
    ensures OrderInv(s') && TakenInv(s')
  {
    assert c !in s.order;
    assert s'.order == s'.taken + s'.queue;
  }

  lemma TakeKeepsOrder(s: State, s': State)
    requires OrderInv(s) && TakenInv(s) && s.queue != [] && s.hand.None?
    requires s'.commands == s.commands && s'.queue == s.queue[1..] && s'.order == s.order
    requires s'.hand == Some(s.queue[0]) && s'.taken == s.taken + [s.queue[0]]
    ensures OrderInv(s') && TakenInv(s')
  {
    assert s.taken + [s.queue[0]] + s.queue[1..] == s.taken + s.queue;
  }

  /** Steps that leave queue and order alone, and enqueued commands except the one in hand. */
  lemma OrderStays(s: State, s': State)
    requires OrderInv(s) && TakenInv(s)
    requires s'.order == s.order && s'.queue == s.queue && s'.taken == s.taken && (s'.hand == s.hand || s'.hand == None)
    requires forall c :: c in s.order ==> c in s'.commands && StageMay(s, s', c)
    requires s.hand.Some? && s'.hand == None ==> s.hand.value in s'.commands && s'.commands[s.hand.value].stage.Done?
    ensures OrderInv(s') && TakenInv(s')
  {
    forall c | c in s.queue ensures s.hand != Some(c) && At(s', c, Enqueued) {
      QueuedIsNotInHand(s, c);
    }
    forall i | 0 <= i < |s.taken| - (if s'.hand.Some? then 1 else 0)
      ensures s.taken[i] in s'.commands && s'.commands[s.taken[i]].stage.Done?
    {
      assert s.taken[i] in s.order && StageMay(s, s', s.taken[i]);
    }
    forall c | c in s'.order ensures c in s'.commands && (s'.commands[c].stage == Enqueued || s'.commands[c].stage.Done?) {
      assert StageMay(s, s', c);
    }
  }

  lemma QueuedIsNotInHand(s: State, c: CommandId)
    requires OrderInv(s) && c in s.queue
    ensures c in s.order && s.hand != Some(c)
  {
    var k :| 0 <= k < |s.queue| && s.queue[k] == c;
    assert s.order[|s.taken| + k] == c;
    if s.hand.Some? {
      assert s.order[|s.taken| - 1] == s.hand.value;
    }
  }

  ghost predicate StageMay(s: State, s': State, c: CommandId)
    requires c in s'.commands
  {
    || (c in s.commands && s'.commands[c].stage == s.commands[c].stage)
    || (s.hand == Some(c) && s'.hand == None && s'.commands[c].stage.Done?)
  }

  /** Among the commands enqueued before, a step changes the stage of the one in hand only. */
  lemma StageFollows(cfg: Config, s: State, step: Step, c: CommandId)
    requires Enabled(cfg, s, step) && c in s.commands && (s.commands[c].stage == Enqueued || s.commands[c].stage.Done?)
    ensures c in CommandsAfter(cfg, s, step)
    ensures CommandsAfter(cfg, s, step)[c].stage ==
            if step.CountOutcome? && s.hand == Some(c) then Done(s.processor.outcome) else s.commands[c].stage
  {
  }

  lemma OtherStepsKeepOrder(cfg: Config, s: State, step: Step)
    requires OrderInv(s) && TakenInv(s) && Enabled(cfg, s, step) && !step.Take? && (step.Enqueue? ==> !HasRoom(cfg, s))
    ensures OrderInv(Apply(cfg, s, step)) && TakenInv(Apply(cfg, s, step))
  {
    hide CommandsAfter, CountsAfter, ProcessorAfter, NoDuplicates;
    var s' := Apply(cfg, s, step);
    forall c | c in s.order ensures c in s'.commands && StageMay(s, s', c) {
      StageFollows(cfg, s, step, c);
    }
    if s.hand.Some? {
      StageFollows(cfg, s, step, s.hand.value);
    }
    hide OrderInv, TakenInv;
    OrderStays(s, s');
  }

  lemma OrderInvKept(cfg: Config, s: State, step: Step)
    requires OrderInv(s) && TakenInv(s) && ProcessorInv(s) && Enabled(cfg, s, step)
    ensures OrderInv(Apply(cfg, s, step)) && TakenInv(Apply(cfg, s, step))
  {
    hide OrderInv, TakenInv, CountsAfter, ProcessorAfter;
    if step.Take? {
      TakeKeepsOrder(s, Apply(cfg, s, step));
    } else if step.Enqueue? && HasRoom(cfg, s) {
      EnqueueKeepsOrder(s, step.c, Apply(cfg, s, step));
    } else {
      OtherStepsKeepOrder(cfg, s, step);
    }
  }

  lemma InvKept(cfg: Config, s: State, step: Step)
    requires Inv(cfg, s) && Enabled(cfg, s, step)
    ensures Inv(cfg, Apply(cfg, s, step))
  {
    hide ProcessorInv, OrderInv, TakenInv, ResponseInv, CountInv;
    ProcessorInvKept(cfg, s, step);
    OrderInvKept(cfg, s, step);
    ResponseInvKept(cfg, s, step);
    CountInvKept(cfg, s, step);
    hide CommandsAfter, CountsAfter, ProcessorAfter;
  }

  // ----- whole runs -----

  ghost predicate Run(cfg: Config, states: seq<State>, steps: seq<Step>) {
    && |states| == |steps| + 1 && states[0] == Initial
    && forall i :: 0 <= i < |steps| ==> Follows(cfg, states[i], steps[i], states[i + 1])
  }

  ghost predicate Follows(cfg: Config, s: State, step: Step, s': State) {
    Enabled(cfg, s, step) && s' == Apply(cfg, s, step)
  }

  lemma InitialInv(cfg: Config)
    ensures Inv(cfg, Initial)
  {
    assert forall account :: In(Initial.commands, account) == {};
  }

  lemma {:induction false} InvAlways(cfg: Config, states: seq<State>, steps: seq<Step>, i: nat)
    requires Run(cfg, states, steps) && i < |states|
    ensures Inv(cfg, states[i])
  {
    hide Inv;
    if i == 0 {
      InitialInv(cfg);
    } else {
      InvAlways(cfg, states, steps, i - 1);
      assert Follows(cfg, states[i - 1], steps[i - 1], states[i]);
      InvKept(cfg, states[i - 1], steps[i - 1]);
    }
  }

  lemma Partition(commands: map<CommandId, Command>)
    ensures |commands| == |In(commands, InCallback)| + |In(commands, Waiting)| + |In(commands, CountedSucceeded)|
                          + |In(commands, CountedFailed)| + |In(commands, CountedRejected)|
  {
    hide AccountOf;
    var a, b := In(commands, InCallback), In(commands, Waiting);
    var c, d, e := In(commands, CountedSucceeded), In(commands, CountedFailed), In(commands, CountedRejected);
    assert |commands| == |commands.Keys|;
    assert commands.Keys == a + b + c + d + e;
  }

  /** In every state of every run with one Start, the commands received are those that succeeded, failed
      or were rejected, those queued, the one in process and those still in their callbacks. */
  lemma Conservation(cfg: Config, states: seq<State>, steps: seq<Step>, i: nat)
    requires Run(cfg, states, steps) && i < |states|
    ensures var s := states[i];
            s.counts.received == s.counts.succeeded + s.counts.failed + s.counts.rejected
                                 + |s.queue| + InProcess(s) + |In(s.commands, InCallback)|
    ensures |states[i].queue| <= QueueCapacity(cfg)
  {
    InvAlways(cfg, states, steps, i);
    Partition(states[i].commands);
    var s := states[i];
    assert Agrees(s, Waiting) && Agrees(s, CountedSucceeded) && Agrees(s, CountedFailed) && Agrees(s, CountedRejected);
  }

  /** Commands are processed one at a time in the order in which they were enqueued, each once: those taken
      are the first ones enqueued, and all of them but the one in hand are done. */
  lemma ProcessedInOrder(cfg: Config, states: seq<State>, steps: seq<Step>, i: nat)
    requires Run(cfg, states, steps) && i < |states|
    ensures states[i].order == states[i].taken + states[i].queue && NoDuplicates(states[i].order)
    ensures TakenInv(states[i])
  {
    InvAlways(cfg, states, steps, i);
  }

  /** With acknowledgement on, a command that was processed or turned away by a full queue has exactly one
      response, which reports success exactly if the command succeeded; a discarded one has none. */
  lemma OneResponseEach(cfg: Config, states: seq<State>, steps: seq<Step>, i: nat, c: CommandId)
    requires Run(cfg, states, steps) && i < |states| && c in states[i].commands && cfg.acknowledge
    ensures var command := states[i].commands[c];
            && (command.stage.Done? ==> command.responses == [command.stage.outcome == Succeeded])
            && (command.stage == TurnedAway ==> command.responses == [false])
            && (command.stage == Discarded ==> command.responses == [])
            && |command.responses| <= 1
  {
    InvAlways(cfg, states, steps, i);
    assert ResponsesOk(cfg, states[i], c);
  }

  lemma NoResponsesWithoutAcknowledgement(cfg: Config, states: seq<State>, steps: seq<Step>, i: nat, c: CommandId)
    requires Run(cfg, states, steps) && i < |states| && c in states[i].commands && !cfg.acknowledge
    ensures states[i].commands[c].responses == []
  {
    InvAlways(cfg, states, steps, i);
    assert ResponsesOk(cfg, states[i], c);
  }

  /** A command is put aside as unparsable exactly if its topic has too few levels - three for a write topic, four for a
      set topic - or a write payload does not parse. */
  lemma DiscardedExactly(cfg: Config, states: seq<State>, steps: seq<Step>, i: nat, c: CommandId)
    requires Run(cfg, states, steps) && i < |steps| && steps[i] == Parse(c)
    ensures At(states[i], c, Received)
    ensures var m := states[i].commands[c].message;
            At(states[i + 1], c,
               if (m.kind == WriteTopic && (m.levels < 3 || !m.parses)) || (m.kind == SetTopic && m.levels < 4)
               then Unparsable else Parsed)
  {
    assert Follows(cfg, states[i], steps[i], states[i + 1]);
  }

  /** A parsed command is queued exactly if the queue holds less than it may - 1000 commands unless configured - and
      goes to its end; otherwise it is turned away. */
  lemma QueuedExactly(cfg: Config, states: seq<State>, steps: seq<Step>, i: nat, c: CommandId)
    requires Run(cfg, states, steps) && i < |steps| && steps[i] == Enqueue(c)
    ensures var s, s', capacity := states[i], states[i + 1], if cfg.queueSize <= 0 then 1000 else cfg.queueSize;
            if |s.queue| < capacity then At(s', c, Enqueued) && s'.queue == s.queue + [c]
            else At(s', c, FoundFull) && s'.queue == s.queue
  {
    assert Follows(cfg, states[i], steps[i], states[i + 1]);
  }

  predicate TurnedDown(stage: Stage) { stage == FoundFull || stage == FullAnswered || stage == TurnedAway }

  lemma TurnedDownBefore(cfg: Config, s: State, step: Step, c: CommandId)
    requires Enabled(cfg, s, step) && c in Apply(cfg, s, step).commands && TurnedDown(Apply(cfg, s, step).commands[c].stage)
    requires s.hand.Some? ==> At(s, s.hand.value, Enqueued)
    ensures c in s.commands && (TurnedDown(s.commands[c].stage) || (step == Enqueue(c) && |s.queue| >= QueueCapacity(cfg)))
  {
    hide QueueAfter, OrderAfter, TakenAfter, CountsAfter, ProcessorAfter, HandAfter;
  }

  /** Whoever was turned away met a full queue. */
  lemma {:induction false} TurnedAwayAtCapacity(cfg: Config, states: seq<State>, steps: seq<Step>, i: nat, c: CommandId) returns (k: nat)
    requires Run(cfg, states, steps) && i < |states| && c in states[i].commands && TurnedDown(states[i].commands[c].stage)
    ensures k < i && steps[k] == Enqueue(c) && |states[k].queue| >= if cfg.queueSize <= 0 then 1000 else cfg.queueSize
  {
    assert i > 0;
    assert Follows(cfg, states[i - 1], steps[i - 1], states[i]);
    InvAlways(cfg, states, steps, i - 1);
    hide Run, Apply, Enabled, CountInv, ResponseInv, TakenInv, NoDuplicates;
    TurnedDownBefore(cfg, states[i - 1], steps[i - 1], c);
    if TurnedDown(states[i - 1].commands[c].stage) {
      k := TurnedAwayAtCapacity(cfg, states, steps, i - 1, c);
    } else {
      k := i - 1;
    }
  }

  /** The counters are the numbers of commands that ended so. */
  lemma CountersAreExact(cfg: Config, states: seq<State>, steps: seq<Step>, i: nat)
    requires Run(cfg, states, steps) && i < |states|
    ensures var s := states[i];
            && s.counts.received == |s.commands|
            && s.counts.succeeded == |set c | c in s.commands && s.commands[c].stage == Done(Succeeded)|
            && s.counts.failed == |set c | c in s.commands && s.commands[c].stage == Done(Failed)|
            && s.counts.rejected == |set c | c in s.commands && (s.commands[c].stage == Discarded || s.commands[c].stage == TurnedAway
                                        || s.commands[c].stage == Done(ShutDown) || s.commands[c].stage == Done(RateLimited))|
  {
    InvAlways(cfg, states, steps, i);
    CountsMean(states[i]);
    hide Inv, Run;
  }

  lemma CountsMean(s: State)
    requires CountInv(s)
    ensures && s.counts.received == |s.commands|
            && s.counts.succeeded == |set c | c in s.commands && s.commands[c].stage == Done(Succeeded)|
            && s.counts.failed == |set c | c in s.commands && s.commands[c].stage == Done(Failed)|
            && s.counts.rejected == |set c | c in s.commands && (s.commands[c].stage == Discarded || s.commands[c].stage == TurnedAway
                                        || s.commands[c].stage == Done(ShutDown) || s.commands[c].stage == Done(RateLimited))|
  {
    assert Agrees(s, CountedSucceeded) && Agrees(s, CountedFailed) && Agrees(s, CountedRejected);
    hide CountInv;
    EndedMeans(s.commands);
    hide In;
  }

  lemma EndedMeans(commands: map<CommandId, Command>)
    ensures In(commands, CountedSucceeded) == set c | c in commands && commands[c].stage == Done(Succeeded)
    ensures In(commands, CountedFailed) == set c | c in commands && commands[c].stage == Done(Failed)
    ensures In(commands, CountedRejected) ==
            set c | c in commands && (commands[c].stage == Discarded || commands[c].stage == TurnedAway
                                      || commands[c].stage == Done(ShutDown) || commands[c].stage == Done(RateLimited))
  {
  }

  predicate ShuttingDown(s: State) {
    || s.processor == Answering(ShutDown) || s.processor == Counting(ShutDown) || s.draining
    || exists c :: c in s.commands && s.commands[c].stage == Done(ShutDown)
  }

  lemma ShutDownBefore(cfg: Config, s: State, step: Step)
    requires Enabled(cfg, s, step) && ShuttingDown(Apply(cfg, s, step))
    ensures ShuttingDown(s) || s.cancelled
  {
    hide QueueAfter, OrderAfter, TakenAfter, CountsAfter, HandAfter;
    var s' := Apply(cfg, s, step);
    if c :| c in s'.commands && s'.commands[c].stage == Done(ShutDown) {
      ShutDownCommand(cfg, s, step, c);
    }
    hide CommandsAfter;
  }

  lemma ShutDownCommand(cfg: Config, s: State, step: Step, c: CommandId)
    requires Enabled(cfg, s, step) && c in CommandsAfter(cfg, s, step) && CommandsAfter(cfg, s, step)[c].stage == Done(ShutDown)
    ensures s.processor == Counting(ShutDown) || (c in s.commands && s.commands[c].stage == Done(ShutDown))
  {
  }

  /** Commands are refused for shutting down, and the queue is drained, only after a Stop. */
  lemma {:induction false} ShutDownOnlyAfterStop(cfg: Config, states: seq<State>, steps: seq<Step>, i: nat) returns (k: nat)
    requires Run(cfg, states, steps) && i < |states| && (ShuttingDown(states[i]) || states[i].cancelled)
    ensures k < i && steps[k] == Stop
  {
    assert !ShuttingDown(Initial) && states[0] == Initial;
    assert i > 0;
    assert Follows(cfg, states[i - 1], steps[i - 1], states[i]);
    if steps[i - 1] == Stop {
      k := i - 1;
    } else {
      if ShuttingDown(states[i]) {
        ShutDownBefore(cfg, states[i - 1], steps[i - 1]);
      }
      k := ShutDownOnlyAfterStop(cfg, states, steps, i - 1);
    }
  }

  /** A device is written only for a command whose tag was found writable, at most once, and the command
      counts as succeeded exactly if that write succeeded. */
  lemma OneWriteEach(cfg: Config, states: seq<State>, steps: seq<Step>, i: nat, c: CommandId)
    requires Run(cfg, states, steps) && i < |states| && c in states[i].commands
    ensures var command := states[i].commands[c];
            && |command.writes| <= 1 && (command.writes != [] ==> command.found == Some(Writable))
            && (command.stage.Done? ==> Explains(command.stage.outcome, command))
            && (command.stage == Discarded || command.stage == TurnedAway ==> Untouched(command))
  {
    InvAlways(cfg, states, steps, i);
    assert ResponsesOk(cfg, states[i], c);
  }

  /** A single processor always finds a free write slot, whatever the configured number. */
  lemma NeverRateLimited(cfg: Config, states: seq<State>, steps: seq<Step>, i: nat)
    requires Run(cfg, states, steps) && i < |states|
    ensures !Enabled(cfg, states[i], SeeFull)
    ensures forall c :: c in states[i].commands ==> states[i].commands[c].stage != Done(RateLimited)
  {
    InvAlways(cfg, states, steps, i);
    forall c | c in states[i].commands ensures states[i].commands[c].stage != Done(RateLimited) {
      assert ResponsesOk(cfg, states[i], c);
    }
  }
}
