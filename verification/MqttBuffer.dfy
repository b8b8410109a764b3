/** The publisher's buffer of messages waiting for a connection, as an interleaving of atomic steps.

    Any number of producers place messages in a bounded channel that drops its oldest message when it
    is full; one consumer takes them out, hands them on while connected and puts them back while not.
    Every channel operation, the load of the connection flag and the counter update are steps of
    their own. Whether the connection is up is part of the step that looks. */
module MqttBuffer {
  import opened Domain

  // Messages are only ever moved; a number tells them apart.
  type Message = nat

  /** How far the producer of a message has come. */
  datatype Offer = Placing | FoundFull | Retrying | Placed | Counted | Refused

  /** Where the buffer processor is; it is off before Connect and after it returned. */
  datatype Consumer = Off | Selecting | Looking | HandingOn | PuttingBack | Resting | Draining | DrainLooking | DrainHandingOn

  /** Messages are `abandoned` when the drain at shutdown finds no connection. `entered` lists what was
      ever put into the buffer, by producers and by putting back, in that order. */
  datatype State = State(
    buffer: seq<Message>, offers: map<Message, Offer>, counter: nat, done: bool,
    consumer: Consumer, hand: Option<Message>, handedOn: seq<Message>, dropped: seq<Message>,
    abandoned: seq<Message>, entered: seq<Message>)

  datatype Step =
    | Call(m: Message) | TrySend(m: Message) | DropOldest(m: Message) | SendAgain(m: Message) | Count(m: Message)
    | Connect | Disconnect
    | Take | Look(connected: bool) | HandOn | PutBack | Wake | StopResting
    | StartDrain | StopDraining

  /** A buffer size of 0 means the default. */
  function Capacity(bufferSize: nat): (b: nat)
    ensures b == if bufferSize == 0 then 10000 else bufferSize
  {
    if bufferSize == 0 then 10000 else bufferSize
  }

  const Start := State([], map[], 0, false, Off, None, [], [], [], [])

  predicate At(s: State, m: Message, offer: Offer) { m in s.offers && s.offers[m] == offer }

  predicate Enabled(s: State, step: Step) {
    match step
    case Call(m) => m !in s.offers
    case TrySend(m) => At(s, m, Placing)
    case DropOldest(m) => At(s, m, FoundFull)
    case SendAgain(m) => At(s, m, Retrying)
    case Count(m) => At(s, m, Placed)
    case Connect => s.consumer == Off
    case Disconnect => true
    case Take => (s.consumer == Selecting || s.consumer == Draining) && s.buffer != []
    case Look(_) => (s.consumer == Looking || s.consumer == DrainLooking) && s.hand.Some?
    case HandOn => (s.consumer == HandingOn || s.consumer == DrainHandingOn) && s.hand.Some?
    case PutBack => s.consumer == PuttingBack && s.hand.Some?
    case Wake => s.consumer == Resting
    case StopResting => s.consumer == Resting && s.done
    case StartDrain => s.consumer == Selecting && s.done
    case StopDraining => s.consumer == Draining
  }

  function Drop(s: State, m: Message): State { s.(dropped := s.dropped + [m]) }

  /** A send that does not block: it succeeds exactly when there is room. */
  function Send(b: nat, s: State, m: Message, otherwise: Offer): State {
    if |s.buffer| < b then s.(buffer := s.buffer + [m], entered := s.entered + [m], offers := s.offers[m := Placed])
    else s.(offers := s.offers[m := otherwise])
  }

  function Held(s: State): seq<Message> { if s.hand.Some? then [s.hand.value] else [] }

  predicate HasMessage(c: Consumer) {
    match c
    case Looking | HandingOn | PuttingBack | DrainLooking | DrainHandingOn => true
    case _ => false
  }

  /** The hand is full exactly while the consumer has a message to deal with. */
  predicate HandMatches(s: State) {
    s.hand.Some? <==> HasMessage(s.consumer)
  }

  function Apply(b: nat, s: State, step: Step): State
    requires Enabled(s, step)
  {
    match step
    case Call(m) => s.(offers := s.offers[m := Placing])
    case TrySend(m) => Send(b, s, m, FoundFull)
    case DropOldest(m) =>
      var after := s.(offers := s.offers[m := Retrying]);
      if s.buffer == [] then after else Drop(after.(buffer := s.buffer[1..]), s.buffer[0])
    case SendAgain(m) => Send(b, s, m, Refused)
    case Count(m) => s.(offers := s.offers[m := Counted], counter := s.counter + 1)
    case Connect => s.(consumer := Selecting, done := false)
    case Disconnect => s.(done := true)
    case Take =>
      s.(buffer := s.buffer[1..], hand := Some(s.buffer[0]),
         consumer := if s.consumer == Draining then DrainLooking else Looking)
    case Look(connected) =>
      if s.consumer == Looking then s.(consumer := if connected then HandingOn else PuttingBack)
      else if connected then s.(consumer := DrainHandingOn)
      else s.(abandoned := s.abandoned + [s.hand.value], hand := None, consumer := Draining)
    case HandOn =>
      s.(handedOn := s.handedOn + [s.hand.value], hand := None,
         consumer := if s.consumer == HandingOn then Selecting else Draining)
    case PutBack =>
      if |s.buffer| < b then
        s.(buffer := s.buffer + [s.hand.value], entered := s.entered + [s.hand.value], hand := None, consumer := Resting)
      else Drop(s, s.hand.value).(hand := None, consumer := Resting)
    case Wake => s.(consumer := Selecting)
    case StopResting => s.(consumer := Off)
    case StartDrain => s.(consumer := Draining)
    case StopDraining => s.(consumer := Off)
  }

  // ----- conservation -----

  /** bufferMessage reported success, or is about to. */
  predicate Accepted(s: State, m: Message) { At(s, m, Placed) || At(s, m, Counted) }

  /** In how many places the message is. */
  function Copies(s: State, m: Message): nat {
    Occurs(s.buffer, m) + Occurs(Held(s), m) + Occurs(s.handedOn, m) + Occurs(s.dropped, m) + Occurs(s.abandoned, m)
  }

  function Occurs(s: seq<Message>, m: Message): nat { multiset(s)[m] }

  function Total(s: State): nat { |s.buffer| + |Held(s)| + |s.handedOn| + |s.dropped| + |s.abandoned| }

  /** Placed by a producer that has not updated the counter yet. */
  ghost function Uncounted(s: State): set<Message> { set m | m in s.offers && s.offers[m] == Placed }

  /** Neither placed nor refused yet. */
  ghost function Trying(s: State): set<Message> {
    set m | m in s.offers && s.offers[m] in {Placing, FoundFull, Retrying}
  }

  ghost predicate EachOnce(s: State) { forall m :: Copies(s, m) == if Accepted(s, m) then 1 else 0 }

  ghost predicate Inv(b: nat, s: State) {
    && HandMatches(s) && |s.buffer| <= b
    && EachOnce(s)
    && Total(s) == s.counter + |Uncounted(s)|
  }

  lemma OccursAppend(s: seq<Message>, m: Message, x: Message)
    ensures Occurs(s + [m], x) == Occurs(s, x) + if x == m then 1 else 0
  {
  }

  lemma OccursFirst(s: seq<Message>, x: Message)
    requires s != []
    ensures Occurs(s, x) == Occurs(s[1..], x) + if x == s[0] then 1 else 0
  {
    assert s == [s[0]] + s[1..];
  }

  lemma OccursHeld(m: Message, x: Message)
    ensures Occurs([m], x) == (if x == m then 1 else 0) && Occurs([], x) == 0
  {
  }

  lemma OccursIn(s: seq<Message>, m: Message)
    ensures m in s <==> Occurs(s, m) > 0
  {
  }

  /** A producer's step places its own message or no message, and moves messages otherwise. */
  lemma ProducerMoves(b: nat, s: State, step: Step, x: Message)
    requires Enabled(s, step) && HandMatches(s) && (step.TrySend? || step.SendAgain? || step.DropOldest?)
    ensures var s' := Apply(b, s, step);
            Copies(s', x) == Copies(s, x) + if Accepted(s', x) && !Accepted(s, x) then 1 else 0
  {
    hide Occurs;
    if step.DropOldest? {
      if s.buffer != [] {
        OccursFirst(s.buffer, x);
        OccursAppend(s.dropped, s.buffer[0], x);
      }
    } else {
      OccursAppend(s.buffer, step.m, x);
    }
  }

  lemma ConsumerMoves(b: nat, s: State, step: Step, x: Message)
    requires Enabled(s, step) && HandMatches(s) && (step.Take? || step.Look? || step.HandOn? || step.PutBack?)
    ensures Copies(Apply(b, s, step), x) == Copies(s, x)
  {
    hide Occurs;
    OccursHeld(if step.Take? then s.buffer[0] else s.hand.value, x);
    match step
    case Take => OccursFirst(s.buffer, x);
    case Look(_) => OccursAppend(s.abandoned, s.hand.value, x);
    case HandOn => OccursAppend(s.handedOn, s.hand.value, x);
    case PutBack =>
      OccursAppend(s.buffer, s.hand.value, x);
      OccursAppend(s.dropped, s.hand.value, x);
  }

  lemma CopiesMove(b: nat, s: State, step: Step, x: Message)
    requires Enabled(s, step) && HandMatches(s)
    ensures var s' := Apply(b, s, step);
            Copies(s', x) == Copies(s, x) + if Accepted(s', x) && !Accepted(s, x) then 1 else 0
    ensures Accepted(s, x) ==> Accepted(Apply(b, s, step), x)
  {
    hide Occurs;
    match step
    case TrySend(_) | SendAgain(_) | DropOldest(_) => ProducerMoves(b, s, step, x);
    case Take | Look(_) | HandOn | PutBack => ConsumerMoves(b, s, step, x);
    case _ =>
  }

  lemma EachOnceKept(b: nat, s: State, step: Step)
    requires Inv(b, s) && Enabled(s, step)
    ensures EachOnce(Apply(b, s, step))
  {
    var s' := Apply(b, s, step);
    forall x ensures Copies(s', x) == if Accepted(s', x) then 1 else 0 {
      CopiesMove(b, s, step, x);
      assert Copies(s, x) == if Accepted(s, x) then 1 else 0;
    }
  }

  lemma TotalKept(b: nat, s: State, step: Step)
    requires Inv(b, s) && Enabled(s, step)
    ensures var s' := Apply(b, s, step); Total(s') == s'.counter + |Uncounted(s')|
  {
    var s' := Apply(b, s, step);
    UncountedMoves(b, s, step);
    hide Uncounted, EachOnce;
  }

  lemma UncountedWith(s: State, m: Message, offer: Offer)
    ensures var was := if At(s, m, Placed) then 1 else 0;
            |Uncounted(s.(offers := s.offers[m := offer]))| == |Uncounted(s)| - was + if offer == Placed then 1 else 0
  {
    var s' := s.(offers := s.offers[m := offer]);
    if offer == Placed {
      assert Uncounted(s') == Uncounted(s) + {m};
    } else {
      assert Uncounted(s') == Uncounted(s) - {m};
    }
  }

  lemma UncountedMoves(b: nat, s: State, step: Step)
    requires HandMatches(s) && Enabled(s, step)
    ensures |Uncounted(Apply(b, s, step))| == |Uncounted(s)| +
              if (step.TrySend? || step.SendAgain?) && |s.buffer| < b then 1 else if step.Count? then -1 else 0
  {
    hide Uncounted;
    var s' := Apply(b, s, step);
    if step.Call? || step.TrySend? || step.DropOldest? || step.SendAgain? || step.Count? {
      UncountedWith(s, step.m, s'.offers[step.m]);
      SameUncounted(s', s.(offers := s.offers[step.m := s'.offers[step.m]]));
    } else {
      SameUncounted(s', s);
    }
  }

  lemma SameUncounted(s: State, t: State)
    requires s.offers == t.offers
    ensures Uncounted(s) == Uncounted(t)
  {
  }

  lemma InvKept(b: nat, s: State, step: Step)
    requires Inv(b, s) && Enabled(s, step)
    ensures Inv(b, Apply(b, s, step))
  {
    EachOnceKept(b, s, step);
    TotalKept(b, s, step);
  }

  /** The states of a run, one step after the other. */
  ghost predicate Run(b: nat, states: seq<State>, steps: seq<Step>) {
    && |states| == |steps| + 1 && states[0] == Start
    && forall i :: 0 <= i < |steps| ==> Follows(b, states[i], steps[i], states[i + 1])
  }

  ghost predicate Follows(b: nat, s: State, step: Step, s': State) {
    Enabled(s, step) && s' == Apply(b, s, step)
  }

  lemma {:induction false} InvAlways(b: nat, states: seq<State>, steps: seq<Step>, i: nat)
    requires Run(b, states, steps) && i < |states|
    ensures Inv(b, states[i])
  {
    if i == 0 {
      assert Uncounted(Start) == {};
    } else {
      InvAlways(b, states, steps, i - 1);
      assert Follows(b, states[i - 1], steps[i - 1], states[i]);
      InvKept(b, states[i - 1], steps[i - 1]);
    }
  }

  /** In every state of every run a message is in exactly one place if it was accepted - waiting, held
      by the consumer, handed on, dropped or abandoned - and nowhere otherwise; the buffer is within its
      bound; and the counter accounts for all messages but those just placed. */
  lemma Conservation(b: nat, states: seq<State>, steps: seq<Step>, i: nat, m: Message)
    requires Run(b, states, steps) && i < |states|
    ensures Copies(states[i], m) == if Accepted(states[i], m) then 1 else 0
    ensures |states[i].buffer| <= b
    ensures Total(states[i]) == states[i].counter + |Uncounted(states[i])|
  {
    InvAlways(b, states, steps, i);
  }

  /** A message is handed on at most once, only if accepted, and never if it was dropped or abandoned. */
  lemma HandedOnOnce(b: nat, states: seq<State>, steps: seq<Step>, i: nat, m: Message)
    requires Run(b, states, steps) && i < |states| && m in states[i].handedOn
    ensures Occurs(states[i].handedOn, m) == 1 && m !in states[i].dropped + states[i].abandoned + states[i].buffer
    ensures Accepted(states[i], m)
  {
    InvAlways(b, states, steps, i);
    var s := states[i];
    assert Copies(s, m) == if Accepted(s, m) then 1 else 0;
    OccursIn(s.handedOn, m);
    OccursIn(s.dropped, m);
    OccursIn(s.abandoned, m);
    OccursIn(s.buffer, m);
  }

  // ----- order -----

  /** The buffer holds what entered it last, in order. */
  ghost predicate Fifo(s: State) {
    |s.buffer| <= |s.entered| && s.buffer == s.entered[|s.entered| - |s.buffer|..]
  }

  /** What has left the buffer again. */
  ghost function Left(s: State): seq<Message>
    requires Fifo(s)
  {
    s.entered[..|s.entered| - |s.buffer|]
  }

  lemma FifoKept(b: nat, s: State, step: Step)
    requires Fifo(s) && Enabled(s, step)
    ensures Fifo(Apply(b, s, step))
    ensures Left(Apply(b, s, step)) == if TakesOne(s, step) then Left(s) + [s.buffer[0]] else Left(s)
  {
    var s' := Apply(b, s, step);
    BufferMoves(b, s, step);
    hide Apply;
    if TakesOne(s, step) {
      assert s.entered[|Left(s)|] == s.buffer[0];
    } else if s'.buffer != s.buffer {
      assert s'.entered[..|Left(s)|] == Left(s);
    }
  }

  /** What a step takes from the front of the buffer or adds at its end. */
  lemma BufferMoves(b: nat, s: State, step: Step)
    requires Enabled(s, step)
    ensures var s' := Apply(b, s, step);
            if TakesOne(s, step) then s'.buffer == s.buffer[1..] && s'.entered == s.entered
            else
              || (s'.buffer == s.buffer && s'.entered == s.entered)
              || exists m :: s'.buffer == s.buffer + [m] && s'.entered == s.entered + [m]
  {
  }

  predicate TakesOne(s: State, step: Step) { (step.Take? || step.DropOldest?) && s.buffer != [] }

  lemma {:induction false} FifoAlways(b: nat, states: seq<State>, steps: seq<Step>, i: nat)
    requires Run(b, states, steps) && i < |states|
    ensures Fifo(states[i])
  {
    if i > 0 {
      FifoAlways(b, states, steps, i - 1);
      assert Follows(b, states[i - 1], steps[i - 1], states[i]);
      FifoKept(b, states[i - 1], steps[i - 1]);
    }
  }

  /** The message that the processor takes or a producer drops entered before all that stay. */
  lemma OldestLeaves(b: nat, states: seq<State>, steps: seq<Step>, i: nat)
    requires Run(b, states, steps) && i < |steps| && TakesOne(states[i], steps[i])
    ensures Fifo(states[i])
    ensures var s, s', k := states[i], states[i + 1], |Left(states[i])|;
            && s'.buffer == s.entered[k + 1..]
            && (steps[i].Take? ==> s'.hand == Some(s.entered[k]))
            && (steps[i].DropOldest? ==> s'.dropped == s.dropped + [s.entered[k]])
  {
    FifoAlways(b, states, steps, i);
    assert Follows(b, states[i], steps[i], states[i + 1]);
  }

  /** a arises from b by leaving elements out. */
  ghost predicate Subsequence(a: seq<Message>, b: seq<Message>) {
    || a == []
    || (b != [] && (Subsequence(a, b[..|b| - 1])
                    || (a[|a| - 1] == b[|b| - 1] && Subsequence(a[..|a| - 1], b[..|b| - 1]))))
  }

  lemma {:induction false} SubsequenceShorter(a: seq<Message>, b: seq<Message>)
    requires a != [] && Subsequence(a, b)
    ensures Subsequence(a[..|a| - 1], b)
  {
    if Subsequence(a, b[..|b| - 1]) {
      SubsequenceShorter(a, b[..|b| - 1]);
    }
  }

  lemma SubsequenceLonger(a: seq<Message>, b: seq<Message>, x: Message)
    requires Subsequence(a, b)
    ensures Subsequence(a, b + [x]) && Subsequence(a + [x], b + [x])
  {
    assert (a + [x])[..|a|] == a && (b + [x])[..|b|] == b;
  }

  ghost predicate InOrder(s: State) { Fifo(s) && Subsequence(Out(s), Left(s)) }

  ghost function Out(s: State): seq<Message> { s.handedOn + Held(s) }

  /** What the step does to the messages that were handed on or are about to be. */
  lemma OutMoves(b: nat, s: State, step: Step)
    requires HandMatches(s) && Enabled(s, step) && !step.PutBack?
    ensures var out := Out(Apply(b, s, step));
            if step.Take? then out == Out(s) + [s.buffer[0]]
            else out == Out(s) || (s.hand.Some? && out == s.handedOn && !TakesOne(s, step))
  {
    var s' := Apply(b, s, step);
    if step.HandOn? {
      assert s'.handedOn + [] == s'.handedOn;
    } else if step.Look? && s'.hand.None? {
      assert s'.handedOn + [] == s.handedOn;
    }
  }

  lemma InOrderKept(b: nat, s: State, step: Step)
    requires InOrder(s) && HandMatches(s) && Enabled(s, step) && !step.PutBack?
    ensures InOrder(Apply(b, s, step))
  {
    FifoKept(b, s, step);
    OutMoves(b, s, step);
    var s' := Apply(b, s, step);
    assert step.Take? ==> TakesOne(s, step);
    hide Apply, Enabled, Fifo, Left, Subsequence;
    if TakesOne(s, step) {
      SubsequenceLonger(Out(s), Left(s), s.buffer[0]);
    } else if Out(s') != Out(s) {
      SubsequenceShorter(Out(s), Left(s));
      assert Out(s)[..|Out(s)| - 1] == s.handedOn;
    }
  }

  /** As long as nothing had to be put back, messages are handed on in the order in which the buffer
      accepted them. */
  lemma {:induction false} HandedOnInOrder(b: nat, states: seq<State>, steps: seq<Step>, i: nat)
    requires Run(b, states, steps) && i < |states|
    requires forall j :: 0 <= j < i ==> !steps[j].PutBack?
    ensures InOrder(states[i])
  {
    if i == 0 {
      assert Out(Start) == [] && Fifo(Start);
    } else {
      assert Follows(b, states[i - 1], steps[i - 1], states[i]);
      hide InOrder, Inv, Apply, Enabled, Run;
      HandedOnInOrder(b, states, steps, i - 1);
      HandAlwaysMatches(b, states, steps, i - 1);
      InOrderKept(b, states[i - 1], steps[i - 1]);
    }
  }

  lemma HandAlwaysMatches(b: nat, states: seq<State>, steps: seq<Step>, i: nat)
    requires Run(b, states, steps) && i < |states|
    ensures HandMatches(states[i])
  {
    InvAlways(b, states, steps, i);
  }

  /** Where a message goes at each step that ends its stay in the consumer's hand, and that no other step hands on
      or abandons anything: handing on hands it on; the drain abandons it exactly if the look found no connection;
      putting back drops it exactly if the buffer is full. */
  lemma WhereItGoes(b: nat, states: seq<State>, steps: seq<Step>, i: nat)
    requires Run(b, states, steps) && i < |steps|
    ensures var s, s' := states[i], states[i + 1];
            && s'.handedOn == s.handedOn + (if steps[i].HandOn? then Held(s) else [])
            && s'.abandoned == s.abandoned + (if steps[i] == Look(false) && s.consumer == DrainLooking then Held(s) else [])
            && (steps[i].HandOn? || (steps[i] == Look(false) && s.consumer == DrainLooking) || steps[i].PutBack? ==>
                  |Held(s)| == 1 && s'.hand == None)
            && (steps[i].PutBack? ==>
                  if |s.buffer| < b then s'.buffer == s.buffer + Held(s) && s'.dropped == s.dropped
                  else s'.buffer == s.buffer && s'.dropped == s.dropped + Held(s))
  {
    InvAlways(b, states, steps, i);
    assert Follows(b, states[i], steps[i], states[i + 1]);
    hide Inv;
    assert states[i].abandoned + [] == states[i].abandoned && states[i].handedOn + [] == states[i].handedOn;
  }

  /** A message is put back only if the last look at the connection found it down. */
  lemma {:induction false} PutBackWhenDown(b: nat, states: seq<State>, steps: seq<Step>, i: nat) returns (k: nat)
    requires Run(b, states, steps) && i < |states| && states[i].consumer == PuttingBack
    ensures k < i && steps[k] == Look(false) && states[k].hand == states[i].hand && states[k].consumer == Looking
    ensures forall j :: k < j < i ==> !steps[j].Look?
  {
    assert i > 0;
    assert Follows(b, states[i - 1], steps[i - 1], states[i]);
    if steps[i - 1].Look? {
      k := i - 1;
    } else {
      k := PutBackWhenDown(b, states, steps, i - 1);
    }
  }

  predicate InDrain(c: Consumer) { c == Draining || c == DrainLooking || c == DrainHandingOn }

  /** The buffer is drained only after a disconnect. */
  lemma {:induction false} DrainsAfterDisconnect(b: nat, states: seq<State>, steps: seq<Step>, i: nat) returns (k: nat)
    requires Run(b, states, steps) && i < |states| && (InDrain(states[i].consumer) || states[i].done)
    ensures k < i && steps[k] == Disconnect
    ensures states[i].done ==> forall j :: k < j < i ==> steps[j] != Connect
  {
    assert i > 0;
    assert Follows(b, states[i - 1], steps[i - 1], states[i]);
    if steps[i - 1] == Disconnect {
      k := i - 1;
    } else {
      k := DrainsAfterDisconnect(b, states, steps, i - 1);
    }
  }

  /** A producer's send succeeds exactly if there is room; it drops the oldest message only after it found the buffer
      full, and gives up only if its second send finds it full as well. */
  lemma ProducersExactly(b: nat, states: seq<State>, steps: seq<Step>, i: nat, m: Message)
    requires Run(b, states, steps) && i < |steps|
    ensures var s, s' := states[i], states[i + 1];
            && (steps[i] == TrySend(m) ==> At(s, m, Placing) && At(s', m, if |s.buffer| < b then Placed else FoundFull))
            && (steps[i] == DropOldest(m) ==>
                  At(s, m, FoundFull) && At(s', m, Retrying) && s'.buffer == if s.buffer == [] then [] else s.buffer[1..])
            && (steps[i] == SendAgain(m) ==> At(s, m, Retrying) && At(s', m, if |s.buffer| < b then Placed else Refused))
            && (steps[i] == Count(m) ==> At(s, m, Placed) && s'.counter == s.counter + 1)
            && (!steps[i].Count? ==> s'.counter == s.counter)
  {
    assert Follows(b, states[i], steps[i], states[i + 1]);
  }

  predicate AboutToHandOn(s: State) { s.consumer == HandingOn || s.consumer == DrainHandingOn }

  /** A message is only handed on if the last look at the connection found it up. */
  lemma {:induction false} HandedOnWhenConnected(b: nat, states: seq<State>, steps: seq<Step>, i: nat) returns (k: nat)
    requires Run(b, states, steps) && i < |states| && AboutToHandOn(states[i])
    ensures k < i && steps[k] == Look(true) && states[k].hand == states[i].hand
    ensures forall j :: k < j < i ==> !steps[j].Look?
  {
    assert i > 0;
    assert Follows(b, states[i - 1], steps[i - 1], states[i]);
    if steps[i - 1].Look? {
      k := i - 1;
    } else {
      k := HandedOnWhenConnected(b, states, steps, i - 1);
    }
  }

  // ----- when messages are lost -----

  predicate Lossless(s: State) { s.dropped == [] && forall m :: m in s.offers ==> s.offers[m] != Refused }

  /** Messages waiting, held, and on their way into the buffer. */
  ghost function Load(s: State): nat { |s.buffer| + |Held(s)| + |Trying(s)| }

  /** Exactly the steps that drop a message: dropping the oldest of a non-empty buffer, putting back
      into a full buffer. */
  predicate Drops(b: nat, s: State, step: Step) {
    match step
    case DropOldest(_) => s.buffer != []
    case PutBack => |s.buffer| >= b
    case _ => false
  }

  lemma DropsExactly(b: nat, s: State, step: Step)
    requires Inv(b, s) && Enabled(s, step)
    ensures |Apply(b, s, step).dropped| == |s.dropped| + if Drops(b, s, step) then 1 else 0
    ensures Apply(b, s, step).dropped == s.dropped <==> !Drops(b, s, step)
    ensures step.PutBack? ==> (Drops(b, s, step) <==> |s.buffer| + |Held(s)| > b)
  {
  }

  /** No producer found the buffer full. */
  ghost predicate Smooth(s: State) {
    Lossless(s) && forall m :: m in s.offers ==> s.offers[m] !in {FoundFull, Retrying}
  }

  lemma OneTrying(s: State, m: Message)
    requires At(s, m, Placing)
    ensures |Trying(s)| >= 1
  {
    assert m in Trying(s);
  }

  /** While the load fits the buffer, nothing is dropped or refused. */
  lemma SmoothKept(b: nat, s: State, step: Step)
    requires HandMatches(s) && Smooth(s) && Enabled(s, step) && Load(s) <= b
    ensures Smooth(Apply(b, s, step))
  {
    if step.TrySend? {
      OneTrying(s, step.m);
    }
  }

  /** The load never exceeds `load`. */
  ghost predicate Moderate(states: seq<State>, load: nat) {
    forall i :: 0 <= i < |states| ==> Load(states[i]) <= load
  }

  lemma {:induction false} NothingLostWithinCapacity(b: nat, states: seq<State>, steps: seq<Step>, i: nat)
    requires Run(b, states, steps) && Moderate(states, b) && i < |states|
    ensures Smooth(states[i])
  {
    if i > 0 {
      NothingLostWithinCapacity(b, states, steps, i - 1);
      InvAlways(b, states, steps, i - 1);
      assert Follows(b, states[i - 1], steps[i - 1], states[i]);
      SmoothKept(b, states[i - 1], steps[i - 1]);
    }
  }

  // ----- the bound is tight -----

  /** n accepted messages, nothing else going on. */
  function Filled(n: nat): State {
    var all: seq<Message> := seq(n, i => i);
    State(all, map m | m in all :: Placed, 0, false, Off, None, [], [], [], all)
  }

  lemma FillOne(b: nat, n: nat)
    requires n < b
    ensures var called := Apply(b, Filled(n), Call(n));
            Enabled(called, TrySend(n)) && Apply(b, called, TrySend(n)) == Filled(n + 1)
  {
    var called := Apply(b, Filled(n), Call(n));
    var sent := Apply(b, called, TrySend(n));
    assert sent.buffer == Filled(n + 1).buffer;
    assert sent.offers == Filled(n + 1).offers;
  }

  lemma TryingOne(s: State, m: Message)
    requires m in s.offers && s.offers[m] in {Placing, FoundFull, Retrying}
    requires forall x :: x in s.offers && x != m ==> s.offers[x] == Placed
    ensures Trying(s) == {m}
  {
  }

  lemma NoneTrying(n: nat)
    ensures Trying(Filled(n)) == {}
  {
  }

  lemma ModerateLonger(states: seq<State>, load: nat, s: State, load': nat)
    requires Moderate(states, load) && load <= load' && Load(s) <= load'
    ensures Moderate(states + [s], load')
  {
    hide Load;
  }

  lemma FilledLoads(b: nat, n: nat)
    requires n < b
    ensures Enabled(Filled(n), Call(n))
    ensures var called := Apply(b, Filled(n), Call(n)); Load(called) == n + 1 && Load(Filled(n + 1)) == n + 1
  {
    TryingOne(Apply(b, Filled(n), Call(n)), n);
    NoneTrying(n + 1);
  }

  /** A run that fills the buffer without ever exceeding it. */
  lemma {:induction false} FillUp(b: nat, n: nat) returns (states: seq<State>, steps: seq<Step>)
    requires n <= b
    ensures Run(b, states, steps) && Moderate(states, n) && states[|steps|] == Filled(n)
  {
    if n == 0 {
      states, steps := [Start], [];
      assert Filled(0).offers == map[];
      NoneTrying(0);
    } else {
      hide Moderate, Load, Apply, Enabled, Run, Filled;
      states, steps := FillUp(b, n - 1);
      FilledLoads(b, n - 1);
      FillOne(b, n - 1);
      var called := Apply(b, Filled(n - 1), Call(n - 1));
      LastState(b, states, steps);
      ExtendRun(b, states, steps, Call(n - 1));
      ModerateLonger(states, n - 1, called, n);
      states, steps := states + [called], steps + [Call(n - 1)];
      ExtendRun(b, states, steps, TrySend(n - 1));
      ModerateLonger(states, n, Filled(n), n);
      states, steps := states + [Filled(n)], steps + [TrySend(n - 1)];
    }
  }

  lemma LastState(b: nat, states: seq<State>, steps: seq<Step>)
    requires Run(b, states, steps)
    ensures |states| == |steps| + 1
  {
  }

  lemma ExtendRun(b: nat, states: seq<State>, steps: seq<Step>, step: Step)
    requires Run(b, states, steps) && Enabled(states[|steps|], step)
    ensures Run(b, states + [Apply(b, states[|steps|], step)], steps + [step])
  {
    var states', steps' := states + [Apply(b, states[|steps|], step)], steps + [step];
    forall i | 0 <= i < |steps'| ensures Follows(b, states'[i], steps'[i], states'[i + 1]) {
      if i < |steps| {
        assert Follows(b, states[i], steps[i], states[i + 1]);
      }
    }
  }

  /** One message more than the buffer holds costs the oldest one. No state of this run has more than
      `b` messages waiting or held, so those alone do not bound the loss. */
  lemma OneTooMany(b: nat) returns (states: seq<State>, steps: seq<Step>)
    requires b > 0
    ensures Run(b, states, steps) && Moderate(states, b + 1) && states[|steps|].dropped == [0]
    ensures forall i :: 0 <= i < |states| ==> |states[i].buffer| + |Held(states[i])| <= b
  {
    states, steps := FillUp(b, b);
    var full := Filled(b);
    var called := Apply(b, full, Call(b));
    var refused := Apply(b, called, TrySend(b));
    var dropped := Apply(b, refused, DropOldest(b));
    TryingOne(called, b);
    TryingOne(refused, b);
    TryingOne(dropped, b);
    ExtendRun(b, states, steps, Call(b));
    states, steps := states + [called], steps + [Call(b)];
    ExtendRun(b, states, steps, TrySend(b));
    states, steps := states + [refused], steps + [TrySend(b)];
    ExtendRun(b, states, steps, DropOldest(b));
    states, steps := states + [dropped], steps + [DropOldest(b)];
  }

  /** No run within the load loses a message. */
  ghost predicate Safe(b: nat, load: nat) {
    forall states, steps :: Run(b, states, steps) && Moderate(states, load) ==> Lossless(states[|steps|])
  }

  /** The loads under which nothing is ever dropped or refused are exactly those
      up to the buffer size; what the drain abandons at shutdown is not counted as dropped. */
  lemma SafeLoads(bufferSize: nat, load: nat)
    ensures Safe(Capacity(bufferSize), load) <==> load <= Capacity(bufferSize)
  {
    var b := Capacity(bufferSize);
    if load <= b {
      forall states, steps | Run(b, states, steps) && Moderate(states, load) ensures Lossless(states[|steps|]) {
        NothingLostWithinCapacity(b, states, steps, |steps|);
      }
    } else {
      var states, steps := OneTooMany(b);
    }
  }
}
