/**
 Graceful shutdown: subscriptions drain their bus channels, the flush loop waits for them,
 drains the delta channel and flushes once more, and the manager waits for the consumers.
 */
module Shutdown {
  import opened Prelude
  import opened CountConsumer

  // ---- The helpers the consumers share -----------------------------------------------------

  class Channel<T> {
    var items: seq<T>

    constructor (items: seq<T>)
      ensures this.items == items
    {
      this.items := items;
    }

    /** A receive with a default branch. */
    method Poll() returns (item: Option<T>)
      modifies this
      ensures old(items) == [] ==> item == None && items == []
      ensures old(items) != [] ==> item == Some(old(items)[0]) && items == old(items)[1..]
    {
      if items == [] {
        return None;
      }
      item, items := Some(items[0]), items[1..];
    }
  }

  /** Hands over everything that is buffered, oldest first, and stops at the first empty poll. */
  method DrainChan<T>(ch: Channel<T>) returns (handed: seq<T>)
    modifies ch
    ensures ch.items == [] && handed == old(ch.items)
  {
    handed := [];
    while true
      invariant handed + ch.items == old(ch.items)
      decreases |ch.items|
    {
      var item := ch.Poll();
      if item.None? {
        break;
      }
      handed := handed + [item.value];
    }
  }

  /** The consumers by name; `running` are the goroutines whose Start has not returned. */
  class ConsumerManager {
    var consumers: seq<string>
    var cancelSet: bool
    var cancelled: bool
    var wg: nat
    ghost var running: multiset<string>

    ghost predicate Valid()
      reads this
    {
      wg == |running| && (!cancelSet ==> running == multiset{})
    }

    constructor ()
      ensures Valid() && consumers == [] && !cancelSet
    {
      consumers, cancelSet, cancelled, wg, running := [], false, false, 0, multiset{};
    }

    method Register(c: string)
      requires Valid()
      modifies this
      ensures Valid() && consumers == old(consumers) + [c]
      ensures running == old(running) && cancelSet == old(cancelSet) && cancelled == old(cancelled)
    {
      consumers := consumers + [c];
    }

    /** One goroutine per consumer, under a fresh context. */
    method StartAll()
      requires Valid()
      modifies this
      ensures Valid() && cancelSet && !cancelled && consumers == old(consumers)
      ensures running == old(running) + multiset(consumers)
    {
      cancelSet, cancelled := true, false;
      var i := 0;
      while i < |consumers|
        invariant 0 <= i <= |consumers| && Valid() && cancelSet && !cancelled && consumers == old(consumers)
        invariant running == old(running) + multiset(consumers[..i])
      {
        wg, running := wg + 1, running + multiset{consumers[i]};
        assert consumers[..i + 1] == consumers[..i] + [consumers[i]];
        i := i + 1;
      }
      assert consumers[..i] == consumers;
    }

    /** The deferred Done of a consumer's goroutine. */
    method Returned(c: string)
      requires Valid() && c in running
      modifies this
      ensures Valid() && running == old(running) - multiset{c}
      ensures consumers == old(consumers) && cancelSet == old(cancelSet) && cancelled == old(cancelled)
    {
      wg, running := wg - 1, running - multiset{c};
    }

    /**
     Cancels, then waits: `returning` are the consumers that return meanwhile, and `expired`
     says that the deadline passed and its case of the select was taken.
     */
    method Shutdown(returning: seq<string>, expired: bool) returns (ok: bool)
      requires Valid() && multiset(returning) <= running
      modifies this
      ensures Valid() && cancelled == (old(cancelSet) || old(cancelled))
      ensures running == old(running) - multiset(returning)
      ensures ok ==> running == multiset{}
      ensures (running == multiset{} && !expired) || !old(cancelSet) ==> ok
    {
      if !cancelSet {
        return true;
      }
      cancelled := true;
      var i := 0;
      while i < |returning|
        invariant 0 <= i <= |returning| && Valid() && cancelSet && cancelled
        invariant running == old(running) - multiset(returning[..i])
      {
        TakeNext(old(running), returning, i);
        Returned(returning[i]);
        i := i + 1;
      }
      assert returning[..i] == returning;
      ok := wg == 0 && !expired;
    }
  }

  lemma TakeNext<T>(all: multiset<T>, s: seq<T>, i: nat)
    requires i < |s| && multiset(s) <= all
    ensures s[i] in all - multiset(s[..i])
    ensures all - multiset(s[..i + 1]) == all - multiset(s[..i]) - multiset{s[i]}
  {
    assert s[..i + 1] == s[..i] + [s[i]];
    assert s == s[..i + 1] + s[i + 1..];
    assert multiset(s) == multiset(s[..i + 1]) + multiset(s[i + 1..]);
  }

  // ---- One consumer -------------------------------------------------------------------------

  /** A message stands for the deltas its handler sends: none for a duplicate, two for a follow. */
  type Message = seq<CountDelta>

  /** Leaving: the drain has found the channel empty, but the channel is still in the bus's list. */
  datatype Phase = Receiving | Draining | Leaving | Exited

  /**
   A subscription: bus channel, deltas the running handler has yet to send, and its history;
   `late` are the messages accepted while it was leaving.
   */
  datatype Sub = Sub(
    queue: seq<Message>,
    hand: seq<CountDelta>,
    phase: Phase,
    accepted: seq<Message>,
    handled: seq<Message>,
    passed: seq<CountDelta>,
    late: seq<Message>)

  datatype Loop = Looping | Waiting | Emptying | Returned

  /** `entered` and `dropped` are the deltas that went into the channel and those given up on cancellation. */
  datatype State = State(
    subs: seq<Sub>,
    ch: seq<CountDelta>,
    cancelled: bool,
    loop: Loop,
    buf: seq<CountDelta>,
    flushed: seq<seq<CountDelta>>,
    entered: seq<CountDelta>,
    dropped: seq<CountDelta>)

  datatype Config = Config(bufSize: nat, chSize: nat, batchSize: nat)

  datatype Step =
    | Publish(i: nat, m: Message)
    | Cancel
    | Receive(i: nat)
    | Send(i: nat)
    | GiveUp(i: nat)
    | StartDrain(i: nat)
    | Exit(i: nat)
    | Unregister(i: nat)
    | Take
    | Tick
    | Stop
    | Join
    | Empty
    | Finish

  /** The steps of one subscription's goroutine. */
  predicate OfSub(step: Step) {
    step.Publish? || step.Receive? || step.Send? || step.GiveUp? || step.StartDrain? || step.Exit? || step.Unregister?
  }

  predicate SubEnabled(c: Config, s: State, step: Step)
    requires OfSub(step)
  {
    step.i < |s.subs| &&
    var u := s.subs[step.i];
    match step
    case Publish(_, _) => u.phase != Exited && |u.queue| < c.bufSize
    case Receive(_) => (u.phase == Receiving || u.phase == Draining) && u.hand == [] && u.queue != []
    case Send(_) => u.hand != [] && |s.ch| < c.chSize
    case GiveUp(_) => u.hand != [] && s.cancelled
    case StartDrain(_) => u.phase == Receiving && u.hand == [] && s.cancelled
    case Exit(_) => u.phase == Draining && u.hand == [] && u.queue == []
    case Unregister(_) => u.phase == Leaving
  }

  /** A select with several ready cases may take any of them. */
  predicate Enabled(c: Config, s: State, step: Step) {
    match step
    case Cancel => true
    case Take => s.loop == Looping && s.ch != []
    case Tick => s.loop == Looping
    case Stop => s.loop == Looping && s.cancelled
    case Join => s.loop == Waiting && forall i :: 0 <= i < |s.subs| ==> s.subs[i].phase == Exited
    case Empty => s.loop == Emptying && s.ch != []
    case Finish => s.loop == Emptying && s.ch == []
    case _ => SubEnabled(c, s, step)
  }

  function FlushBuf(s: State): State {
    if s.buf == [] then s else s.(flushed := s.flushed + [s.buf], buf := [])
  }

  function Moved(s: State): State
    requires s.ch != []
  {
    s.(ch := s.ch[1..], buf := s.buf + [s.ch[0]])
  }

  function Do(c: Config, s: State, step: Step): State
    requires Enabled(c, s, step)
  {
    match step
    case Publish(i, m) => s.(subs := s.subs[i := Queued(s.subs[i], m)])
    case Cancel => s.(cancelled := true)
    case Receive(i) => s.(subs := s.subs[i := Fetched(s.subs[i])])
    case Send(i) =>
      var u := s.subs[i];
      s.(subs := s.subs[i := Passed(u)], ch := s.ch + [u.hand[0]], entered := s.entered + [u.hand[0]])
    case GiveUp(i) =>
      var u := s.subs[i];
      s.(subs := s.subs[i := Passed(u)], dropped := s.dropped + [u.hand[0]])
    case StartDrain(i) => s.(subs := s.subs[i := s.subs[i].(phase := Draining)])
    case Exit(i) => s.(subs := s.subs[i := s.subs[i].(phase := Leaving)])
    case Unregister(i) => s.(subs := s.subs[i := s.subs[i].(phase := Exited)])
    case Take =>
      var s' := Moved(s);
      if |s'.buf| >= c.batchSize then FlushBuf(s') else s'
    case Tick => FlushBuf(s)
    case Stop => s.(loop := Waiting)
    case Join => s.(loop := Emptying)
    case Empty => Moved(s)
    case Finish => FlushBuf(s).(loop := Returned)
  }

  function Queued(u: Sub, m: Message): Sub {
    u.(queue := u.queue + [m], accepted := u.accepted + [m], late := if u.phase.Leaving? then u.late + [m] else u.late)
  }

  function Fetched(u: Sub): Sub
    requires u.queue != []
  {
    u.(queue := u.queue[1..], hand := u.queue[0], handled := u.handled + [u.queue[0]])
  }

  function Passed(u: Sub): Sub
    requires u.hand != []
  {
    u.(hand := u.hand[1..], passed := u.passed + [u.hand[0]])
  }

  predicate ValidSteps(c: Config, s: State, steps: seq<Step>)
    decreases steps
  {
    steps == [] || (Enabled(c, s, steps[0]) && ValidSteps(c, Do(c, s, steps[0]), steps[1..]))
  }

  function Exec(c: Config, s: State, steps: seq<Step>): State
    requires ValidSteps(c, s, steps)
    decreases steps
  {
    if steps == [] then s else Exec(c, Do(c, s, steps[0]), steps[1..])
  }

  ghost predicate Initial(s: State) {
    && (forall i :: 0 <= i < |s.subs| ==> s.subs[i] == Sub([], [], Receiving, [], [], [], []))
    && s == State(s.subs, [], false, Looping, [], [], [], [])
  }

  // ---- Invariants -----------------------------------------------------------------------------

  /** Accepted messages are handled or queued, and the deltas of the handled ones are let go or in hand. */
  ghost predicate SubFlow(u: Sub) {
    u.accepted == u.handled + u.queue && Flatten(u.handled) == u.passed + u.hand
  }

  ghost predicate SubOk(s: State, u: Sub) {
    && SubFlow(u)
    && (if u.phase == Leaving || u.phase == Exited then u.queue == u.late && u.hand == [] else u.late == [])
    && (u.phase != Receiving ==> s.cancelled)
  }

  /** The channel is FIFO: what entered it is flushed, buffered or still inside, in this order. */
  ghost predicate Flow(s: State) {
    s.entered == Flatten(s.flushed) + s.buf + s.ch
  }

  ghost predicate LoopOk(s: State) {
    && (s.loop != Looping ==> s.cancelled)
    && (s.loop == Emptying || s.loop == Returned ==> forall i :: 0 <= i < |s.subs| ==> s.subs[i].phase == Exited)
    && (s.loop == Returned ==> s.buf == [] && s.ch == [])
    && (s.dropped != [] ==> s.cancelled)
  }

  /** Every delta a handler has let go of. */
  function AllPassed(subs: seq<Sub>): multiset<CountDelta> {
    if subs == [] then multiset{} else AllPassed(subs[..|subs| - 1]) + multiset(subs[|subs| - 1].passed)
  }

  /** They went into the channel or were given up; nothing else happens to them. */
  ghost predicate Conserved(s: State) {
    AllPassed(s.subs) == multiset(s.entered) + multiset(s.dropped)
  }

  ghost predicate SubsOk(s: State) {
    forall i :: 0 <= i < |s.subs| ==> SubOk(s, s.subs[i])
  }

  ghost predicate Inv(s: State) {
    && SubsOk(s)
    && Flow(s) && LoopOk(s)
    && Conserved(s)
  }

  lemma FlattenLast<T>(groups: seq<seq<T>>, last: seq<T>)
    ensures Flatten(groups + [last]) == Flatten(groups) + last
  {
    assert (groups + [last])[..|groups|] == groups;
  }

  lemma QueuedKeepsFlow(u: Sub, m: Message)
    requires SubFlow(u)
    ensures SubFlow(Queued(u, m))
  {
    Assoc(u.handled, u.queue, [m]);
  }

  lemma FetchedKeepsFlow(u: Sub)
    requires SubFlow(u) && u.queue != [] && u.hand == []
    ensures SubFlow(Fetched(u))
  {
    MoveHead(u.handled, u.queue);
    FlattenLast(u.handled, u.queue[0]);
    assert u.passed + u.hand == u.passed;
  }

  lemma PassedKeepsFlow(u: Sub)
    requires SubFlow(u) && u.hand != []
    ensures SubFlow(Passed(u))
  {
    MoveHead(u.passed, u.hand);
  }

  lemma SubStepKeepsSub(c: Config, s: State, step: Step)
    requires OfSub(step) && Enabled(c, s, step) && SubOk(s, s.subs[step.i])
    ensures SubOk(Do(c, s, step), Do(c, s, step).subs[step.i])
  {
    var u := s.subs[step.i];
    match step
    case Publish(_, m) => QueuedKeepsFlow(u, m);
    case Receive(_) => FetchedKeepsFlow(u);
    case Send(_) => PassedKeepsFlow(u);
    case GiveUp(_) => PassedKeepsFlow(u);
    case StartDrain(_) =>
    case Exit(_) =>
    case Unregister(_) =>
  }

  lemma {:induction false} AllPassedUpdate(subs: seq<Sub>, i: nat, u: Sub, more: seq<CountDelta>)
    requires i < |subs| && u.passed == subs[i].passed + more
    ensures AllPassed(subs[i := u]) == AllPassed(subs) + multiset(more)
  {
    var n := |subs| - 1;
    var init, last := subs[..n], subs[n];
    UpdatedAsAppend(subs, i, u);
    AllPassedLast(init, last);
    if i < n {
      AllPassedUpdate(init, i, u, more);
      AllPassedLast(init[i := u], last);
    } else {
      AllPassedLast(init, u);
    }
  }

  lemma AllPassedLast(init: seq<Sub>, u: Sub)
    ensures AllPassed(init + [u]) == AllPassed(init) + multiset(u.passed)
  {
    assert (init + [u])[..|init|] == init;
  }

  lemma UpdatedAsAppend<T>(s: seq<T>, i: nat, x: T)
    requires i < |s|
    ensures var n := |s| - 1;
      s == s[..n] + [s[n]] && s[i := x] == if i == n then s[..n] + [x] else s[..n][i := x] + [s[n]]
  {
  }

  lemma SubStepConserves(c: Config, s: State, step: Step)
    requires OfSub(step)
    requires Enabled(c, s, step) && Conserved(s)
    ensures Conserved(Do(c, s, step))
  {
    var u, u' := s.subs[step.i], Do(c, s, step).subs[step.i];
    if step.Send? || step.GiveUp? {
      AllPassedUpdate(s.subs, step.i, u', [u.hand[0]]);
    } else {
      assert u'.passed == u.passed + [];
      AllPassedUpdate(s.subs, step.i, u', []);
    }
  }

  lemma SubStepKeepsSubs(c: Config, s: State, step: Step)
    requires OfSub(step) && SubsOk(s) && Enabled(c, s, step)
    ensures SubsOk(Do(c, s, step))
  {
    var s' := Do(c, s, step);
    SubStepKeepsSub(c, s, step);
    assert |s'.subs| == |s.subs| && s'.cancelled == s.cancelled;
    forall j | 0 <= j < |s'.subs|
      ensures SubOk(s', s'.subs[j])
    {
      assert j != step.i ==> SubOk(s, s.subs[j]) && s'.subs[j] == s.subs[j];
    }
  }

  lemma SubStepKeepsLoop(c: Config, s: State, step: Step)
    requires OfSub(step) && SubsOk(s) && LoopOk(s) && Enabled(c, s, step)
    ensures LoopOk(Do(c, s, step))
  {
    assert SubOk(s, s.subs[step.i]);
  }

  lemma SubStepKeepsFlow(c: Config, s: State, step: Step)
    requires OfSub(step) && Flow(s) && Enabled(c, s, step)
    ensures Flow(Do(c, s, step))
  {
    if step.Send? {
      Assoc(Flatten(s.flushed) + s.buf, s.ch, [s.subs[step.i].hand[0]]);
    }
  }

  lemma LoopStepKeepsSubs(c: Config, s: State, step: Step)
    requires !OfSub(step) && SubsOk(s) && Enabled(c, s, step)
    ensures SubsOk(Do(c, s, step)) && Do(c, s, step).subs == s.subs
  {
    var s' := Do(c, s, step);
    assert s'.subs == s.subs;
    forall i | 0 <= i < |s.subs|
      ensures SubOk(s', s.subs[i])
    {
      assert SubOk(s, s.subs[i]);
    }
  }

  lemma FlushKeepsFlow(s: State)
    requires Flow(s)
    ensures Flow(FlushBuf(s))
  {
    FlattenLast(s.flushed, s.buf);
    assert Flatten(s.flushed) + s.buf + [] == Flatten(s.flushed) + s.buf;
  }

  lemma MovedKeepsFlow(s: State)
    requires Flow(s) && s.ch != []
    ensures Flow(Moved(s))
  {
    MoveHead(Flatten(s.flushed) + s.buf, s.ch);
    Assoc(Flatten(s.flushed), s.buf, [s.ch[0]]);
  }

  lemma LoopStepKeepsFlow(c: Config, s: State, step: Step)
    requires !OfSub(step) && Flow(s) && Enabled(c, s, step)
    ensures Flow(Do(c, s, step))
  {
    if step.Take? || step.Empty? {
      MovedKeepsFlow(s);
      FlushKeepsFlow(Moved(s));
    } else {
      FlushKeepsFlow(s);
    }
  }

  lemma LoopStepKeepsLoop(c: Config, s: State, step: Step)
    requires !OfSub(step) && LoopOk(s) && Enabled(c, s, step)
    ensures LoopOk(Do(c, s, step))
  {
  }

  lemma LoopStepConserves(c: Config, s: State, step: Step)
    requires !OfSub(step) && Enabled(c, s, step) && Conserved(s)
    ensures Conserved(Do(c, s, step))
  {
  }

  lemma StepKeepsInv(c: Config, s: State, step: Step)
    requires Inv(s) && Enabled(c, s, step)
    ensures Inv(Do(c, s, step))
  {
    if OfSub(step) {
      SubStepKeepsSubs(c, s, step);
      SubStepKeepsLoop(c, s, step);
      SubStepKeepsFlow(c, s, step);
      SubStepConserves(c, s, step);
    } else {
      LoopStepKeepsSubs(c, s, step);
      LoopStepKeepsLoop(c, s, step);
      LoopStepKeepsFlow(c, s, step);
      LoopStepConserves(c, s, step);
    }
  }

  lemma {:induction false} RunKeepsInv(c: Config, s: State, steps: seq<Step>)
    requires Inv(s) && ValidSteps(c, s, steps)
    ensures Inv(Exec(c, s, steps))
    decreases steps
  {
    if steps != [] {
      StepKeepsInv(c, s, steps[0]);
      RunKeepsInv(c, Do(c, s, steps[0]), steps[1..]);
    }
  }

  lemma {:induction false} NothingPassed(subs: seq<Sub>)
    requires forall i :: 0 <= i < |subs| ==> subs[i].passed == []
    ensures AllPassed(subs) == multiset{}
  {
    if subs != [] {
      NothingPassed(subs[..|subs| - 1]);
    }
  }

  lemma InitialInv(s: State)
    requires Initial(s)
    ensures Inv(s)
  {
    NothingPassed(s.subs);
  }

  // ---- Main results -----------------------------------------------------------------------------

  /**
   When Start has returned, every message a subscription accepted before its drain ended has
   reached its handler, every delta that entered the channel is in exactly one flush and in
   order, and the handlers' deltas are those flushed plus those given up.
   */
  lemma NothingLeftBehind(c: Config, s: State, steps: seq<Step>)
    requires Initial(s) && ValidSteps(c, s, steps) && Exec(c, s, steps).loop == Returned
    ensures var t := Exec(c, s, steps);
      && (forall i :: 0 <= i < |t.subs| ==> t.subs[i].accepted == t.subs[i].handled + t.subs[i].late)
      && (forall i :: 0 <= i < |t.subs| ==> t.subs[i].passed == Flatten(t.subs[i].handled))
      && t.entered == Flatten(t.flushed)
      && AllPassed(t.subs) == multiset(Flatten(t.flushed)) + multiset(t.dropped)
  {
    var t := Exec(c, s, steps);
    InitialInv(s);
    RunKeepsInv(c, s, steps);
    forall i | 0 <= i < |t.subs|
      ensures t.subs[i].accepted == t.subs[i].handled + t.subs[i].late && t.subs[i].passed == Flatten(t.subs[i].handled)
    {
      assert SubOk(t, t.subs[i]);
    }
  }

  /** The publishes that a subscription accepts while it is leaving. */
  ghost predicate PublishesLate(c: Config, s: State, steps: seq<Step>, i: nat)
    requires ValidSteps(c, s, steps)
    decreases steps
  {
    steps != [] && (
      || (steps[0].Publish? && steps[0].i == i && s.subs[i].phase == Leaving)
      || PublishesLate(c, Do(c, s, steps[0]), steps[1..], i))
  }

  lemma StepLate(c: Config, s: State, step: Step, i: nat)
    requires Enabled(c, s, step) && i < |s.subs|
    ensures |Do(c, s, step).subs| == |s.subs|
    ensures Do(c, s, step).subs[i].late ==
      if step.Publish? && step.i == i && s.subs[i].phase == Leaving then s.subs[i].late + [step.m] else s.subs[i].late
  {
  }

  lemma {:induction false} LateIff(c: Config, s: State, steps: seq<Step>, i: nat)
    requires ValidSteps(c, s, steps) && i < |s.subs|
    ensures i < |Exec(c, s, steps).subs| && |Exec(c, s, steps).subs[i].late| >= |s.subs[i].late|
    ensures |Exec(c, s, steps).subs[i].late| == |s.subs[i].late| <==> !PublishesLate(c, s, steps, i)
    decreases steps
  {
    if steps != [] {
      StepLate(c, s, steps[0], i);
      LateIff(c, Do(c, s, steps[0]), steps[1..], i);
    }
  }

  /**
   The drain is complete for a subscription if and only if nothing is published to it between
   the empty poll that ends its drain and its removal from the bus.
   */
  lemma AllHandledIff(c: Config, s: State, steps: seq<Step>, i: nat)
    requires Initial(s) && ValidSteps(c, s, steps) && Exec(c, s, steps).loop == Returned && i < |s.subs|
    ensures var t := Exec(c, s, steps);
      i < |t.subs| && (t.subs[i].handled == t.subs[i].accepted <==> !PublishesLate(c, s, steps, i))
  {
    var t := Exec(c, s, steps);
    NothingLeftBehind(c, s, steps);
    LateIff(c, s, steps, i);
    assert t.subs[i].accepted == t.subs[i].handled + t.subs[i].late;
    assert s.subs[i].late == [];
    if t.subs[i].late == [] {
      assert t.subs[i].accepted == t.subs[i].handled;
    }
  }

  /** The server has stopped taking requests before it cancels the consumers. */
  ghost predicate QuietOnceCancelled(c: Config, s: State, steps: seq<Step>)
    requires ValidSteps(c, s, steps)
    decreases steps
  {
    steps == [] || ((steps[0].Publish? ==> !s.cancelled) && QuietOnceCancelled(c, Do(c, s, steps[0]), steps[1..]))
  }

  /** Then nothing is late, and every accepted message is handled. */
  lemma {:induction false} QuietMeansNoneLate(c: Config, s: State, steps: seq<Step>, i: nat)
    requires Inv(s) && ValidSteps(c, s, steps) && QuietOnceCancelled(c, s, steps)
    ensures !PublishesLate(c, s, steps, i)
    decreases steps
  {
    if steps != [] {
      assert steps[0].Publish? ==> SubOk(s, s.subs[steps[0].i]);
      StepKeepsInv(c, s, steps[0]);
      QuietMeansNoneLate(c, Do(c, s, steps[0]), steps[1..], i);
    }
  }

  /** Before the cancellation nothing is given up. */
  lemma {:induction false} NothingGivenUp(c: Config, s: State, steps: seq<Step>)
    requires ValidSteps(c, s, steps) && !s.cancelled && s.dropped == []
    requires forall j :: 0 <= j < |steps| ==> !steps[j].Cancel?
    ensures Exec(c, s, steps).dropped == [] && !Exec(c, s, steps).cancelled
    decreases steps
  {
    if steps != [] {
      assert forall j :: 0 <= j < |steps[1..]| ==> steps[1..][j] == steps[j + 1];
      NothingGivenUp(c, Do(c, s, steps[0]), steps[1..]);
    }
  }

  /** The running loop buffers fewer deltas than the cap and flushes no more than the cap at once. */
  ghost predicate WithinCap(c: Config, s: State) {
    && (s.buf == [] || |s.buf| < c.batchSize)
    && forall i :: 0 <= i < |s.flushed| ==> 0 < |s.flushed[i]| <= if c.batchSize == 0 then 1 else c.batchSize
  }

  lemma {:induction false} LoopFlushesAtCap(c: Config, s: State, steps: seq<Step>)
    requires ValidSteps(c, s, steps) && s.loop == Looping && WithinCap(c, s)
    requires Exec(c, s, steps).loop == Looping
    ensures WithinCap(c, Exec(c, s, steps))
    decreases steps
  {
    if steps != [] {
      if steps[0].Stop? {
        StaysStopped(c, Do(c, s, steps[0]), steps[1..]);
      }
      LoopFlushesAtCap(c, Do(c, s, steps[0]), steps[1..]);
    }
  }

  lemma {:induction false} StaysStopped(c: Config, s: State, steps: seq<Step>)
    requires ValidSteps(c, s, steps) && s.loop != Looping
    ensures Exec(c, s, steps).loop != Looping
    decreases steps
  {
    if steps != [] {
      StaysStopped(c, Do(c, s, steps[0]), steps[1..]);
    }
  }

  function QueueWork(queue: seq<Message>): nat {
    if queue == [] then 0 else MessageWork(queue[0]) + QueueWork(queue[1..])
  }

  function PhaseWork(p: Phase): nat {
    match p
    case Receiving => 3
    case Draining => 2
    case Leaving => 1
    case Exited => 0
  }

  function MessageWork(m: Message): nat {
    1 + 3 * |m|
  }

  lemma {:induction false} QueueWorkLast(queue: seq<Message>, m: Message)
    ensures QueueWork(queue + [m]) == QueueWork(queue) + MessageWork(m)
  {
    if queue == [] {
      assert (queue + [m])[1..] == [];
    } else {
      QueueWorkLast(queue[1..], m);
      assert (queue + [m])[1..] == queue[1..] + [m];
    }
  }

  /** What is accepted too late is nobody's work. */
  function SubWork(u: Sub): nat {
    (if u.phase == Receiving || u.phase == Draining then QueueWork(u.queue) else 0) + 3 * |u.hand| + PhaseWork(u.phase)
  }

  function SubsWork(subs: seq<Sub>): nat {
    if subs == [] then 0 else SubsWork(subs[..|subs| - 1]) + SubWork(subs[|subs| - 1])
  }

  function LoopWork(l: Loop): nat {
    match l
    case Looping => 3
    case Waiting => 2
    case Emptying => 1
    case Returned => 0
  }

  /** What is left to do until Start returns. */
  function Work(s: State): nat {
    SubsWork(s.subs) + |s.ch| + LoopWork(s.loop)
  }

  lemma {:induction false} SubsWorkUpdate(subs: seq<Sub>, i: nat, u: Sub)
    requires i < |subs|
    ensures SubsWork(subs[i := u]) == SubsWork(subs) - SubWork(subs[i]) + SubWork(u)
  {
    var n := |subs| - 1;
    if i == n {
      assert subs[i := u][..n] == subs[..n];
    } else {
      SubsWorkUpdate(subs[..n], i, u);
      assert subs[i := u][..n] == subs[..n][i := u];
    }
  }

  /** Steps of the consumer itself, other than a tick that finds nothing new. */
  predicate Working(step: Step) {
    !step.Tick? && !step.Cancel? && !step.Publish?
  }

  /** After the cancellation every working step brings the end nearer, and a publish puts it off by its own message only. */
  lemma StepWorks(c: Config, s: State, step: Step)
    requires s.cancelled && Enabled(c, s, step)
    ensures Do(c, s, step).cancelled
    ensures Working(step) ==> Work(Do(c, s, step)) < Work(s)
    ensures step.Tick? || step.Cancel? ==> Work(Do(c, s, step)) == Work(s)
    ensures step.Publish? ==> Work(Do(c, s, step)) <= Work(s) + MessageWork(step.m)
  {
    if step.Publish? {
      PublishAddsWork(c, s, step.i, step.m);
    } else if OfSub(step) {
      SubStepWorks(c, s, step);
    }
  }

  lemma SubStepWorks(c: Config, s: State, step: Step)
    requires OfSub(step) && !step.Publish? && Enabled(c, s, step)
    ensures Work(Do(c, s, step)) < Work(s)
  {
    SubsWorkUpdate(s.subs, step.i, Do(c, s, step).subs[step.i]);
  }

  lemma PublishAddsWork(c: Config, s: State, i: nat, m: Message)
    requires Enabled(c, s, Publish(i, m))
    ensures Work(Do(c, s, Publish(i, m))) <= Work(s) + MessageWork(m)
  {
    SubsWorkUpdate(s.subs, i, Queued(s.subs[i], m));
    QueueWorkLast(s.subs[i].queue, m);
  }

  /** Until Start returns there is always such a step: neither a handler nor the loop waits forever. */
  lemma NeverStuck(c: Config, s: State) returns (step: Step)
    requires Inv(s) && s.cancelled && s.loop != Returned
    ensures Enabled(c, s, step) && Working(step)
  {
    match s.loop {
      case Looping => step := Stop;
      case Emptying => step := if s.ch == [] then Finish else Empty;
      case Waiting =>
        if i :| 0 <= i < |s.subs| && s.subs[i].phase != Exited {
          var u := s.subs[i];
          assert SubOk(s, u);
          if u.phase == Leaving {
            step := Unregister(i);
          } else if u.hand != [] {
            step := GiveUp(i);
          } else if u.queue != [] {
            step := Receive(i);
          } else {
            step := if u.phase == Receiving then StartDrain(i) else Exit(i);
          }
        } else {
          step := Join;
        }
    }
  }

  /** While the loop runs nothing that a live subscription holds is stuck either, and a tick flushes what is buffered. */
  lemma LoopKeepsGoing(c: Config, s: State, i: nat) returns (step: Step)
    requires Inv(s) && s.loop == Looping && c.chSize > 0 && i < |s.subs|
    requires s.ch != [] || (s.subs[i].phase == Receiving && (s.subs[i].hand != [] || s.subs[i].queue != []))
    ensures Enabled(c, s, step) && Working(step) && Work(Do(c, s, step)) < Work(s) && Do(c, s, step).loop == Looping
    ensures Do(c, s, step).dropped == s.dropped
    ensures Enabled(c, s, Tick) && Do(c, s, Tick).buf == []
  {
    if s.ch != [] {
      step := Take;
    } else {
      step := if s.subs[i].hand != [] then Send(i) else Receive(i);
      SubStepWorks(c, s, step);
    }
  }

  /** No channel ever holds more than its capacity. */
  ghost predicate WithinCapacity(c: Config, s: State) {
    |s.ch| <= c.chSize && forall i :: 0 <= i < |s.subs| ==> |s.subs[i].queue| <= c.bufSize
  }

  lemma StepKeepsCapacity(c: Config, s: State, step: Step)
    requires Enabled(c, s, step) && WithinCapacity(c, s)
    ensures WithinCapacity(c, Do(c, s, step))
  {
    if OfSub(step) {
      assert |Do(c, s, step).subs[step.i].queue| <= c.bufSize;
    }
  }

  lemma {:induction false} CapacitiesHold(c: Config, s: State, steps: seq<Step>)
    requires ValidSteps(c, s, steps) && WithinCapacity(c, s)
    ensures WithinCapacity(c, Exec(c, s, steps))
    decreases steps
  {
    if steps != [] {
      StepKeepsCapacity(c, s, steps[0]);
      CapacitiesHold(c, Do(c, s, steps[0]), steps[1..]);
    }
  }

  function Effective(steps: seq<Step>): nat {
    if steps == [] then 0 else (if Working(steps[0]) then 1 else 0) + Effective(steps[1..])
  }

  /** The work that publishes bring in. */
  function Added(steps: seq<Step>): nat {
    if steps == [] then 0 else (if steps[0].Publish? then MessageWork(steps[0].m) else 0) + Added(steps[1..])
  }

  /**
   A run after the cancellation makes at most as many working steps as there was and came in
   work, and has none left to make exactly when Start has returned.
   */
  lemma {:induction false} ShutdownTerminates(c: Config, s: State, steps: seq<Step>)
    requires Inv(s) && s.cancelled && ValidSteps(c, s, steps)
    ensures Effective(steps) + Work(Exec(c, s, steps)) <= Work(s) + Added(steps)
    ensures var t := Exec(c, s, steps);
      (forall step :: Enabled(c, t, step) ==> !Working(step)) <==> t.loop == Returned
    decreases steps
  {
    if steps == [] {
      if s.loop != Returned {
        var step := NeverStuck(c, s);
      } else {
        ReturnedIsFinal(c, s);
      }
    } else {
      StepWorks(c, s, steps[0]);
      StepKeepsInv(c, s, steps[0]);
      ShutdownTerminates(c, Do(c, s, steps[0]), steps[1..]);
    }
  }

  lemma ReturnedIsFinal(c: Config, s: State)
    requires Inv(s) && s.loop == Returned
    ensures forall step :: Enabled(c, s, step) ==> !Working(step)
  {
    forall step | Enabled(c, s, step)
      ensures !Working(step)
    {
      if OfSub(step) {
        assert SubOk(s, s.subs[step.i]);
      }
    }
  }
}
