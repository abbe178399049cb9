/**
 Overlapping calls of the like service on the Redis set: a call probes the set, flips it in a
 later step and publishes in a third one, whether or not its flip changed anything.
 */
module LikeRaces {
  import opened Prelude
  import opened LikeConsumer

  /** A call past its probe, that has yet to flip the set; or past its flip, that has yet to publish. */
  datatype Call = Trying(e: Event) | Owing(e: Event)

  /** `hits` and `misses` record the flips that changed the set and those that found it as they wanted it. */
  datatype State = State(
    members: set<Pair>,
    calls: map<nat, Call>,
    published: seq<Event>,
    hits: multiset<Event>,
    misses: multiset<Event>)

  datatype Step = Probe(id: nat, e: Event) | Flip(id: nat) | Publish(id: nat)

  /** The set is already as the event would leave it. */
  predicate Settled(members: set<Pair>, e: Event) {
    e.Like? <==> e.pair in members
  }

  function Applied(members: set<Pair>, e: Event): set<Pair> {
    if e.Like? then members + {e.pair} else members - {e.pair}
  }

  predicate Enabled(s: State, step: Step) {
    match step
    case Probe(id, _) => id !in s.calls
    case Flip(id) => id in s.calls && s.calls[id].Trying?
    case Publish(id) => id in s.calls && s.calls[id].Owing?
  }

  /** A probe that finds the set settled ends its call; a flip always owes its event. */
  function Do(s: State, step: Step): State
    requires Enabled(s, step)
  {
    match step
    case Probe(id, e) => if Settled(s.members, e) then s else s.(calls := s.calls[id := Trying(e)])
    case Flip(id) =>
      var e := s.calls[id].e;
      var s' := s.(members := Applied(s.members, e), calls := s.calls[id := Owing(e)]);
      if Settled(s.members, e) then s'.(misses := s.misses + multiset{e}) else s'.(hits := s.hits + multiset{e})
    case Publish(id) => s.(calls := s.calls - {id}, published := s.published + [s.calls[id].e])
  }

  predicate ValidSteps(s: State, steps: seq<Step>)
    decreases steps
  {
    steps == [] || (Enabled(s, steps[0]) && ValidSteps(Do(s, steps[0]), steps[1..]))
  }

  function Exec(s: State, steps: seq<Step>): State
    requires ValidSteps(s, steps)
    decreases steps
  {
    if steps == [] then s else Exec(Do(s, steps[0]), steps[1..])
  }

  function Initial(members: set<Pair>): State {
    State(members, map[], [], multiset{}, multiset{})
  }

  /** The calls about this very change that have probed and not yet flipped. */
  function TryingOn(s: State, e: Event): set<nat> {
    set id | id in s.calls && s.calls[id] == Trying(e)
  }

  function OwedOn(s: State, e: Event): set<nat> {
    set id | id in s.calls && s.calls[id] == Owing(e)
  }

  /** How often the event is published or about to be. */
  function Issued(s: State, e: Event): nat {
    |OwedOn(s, e)| + multiset(s.published)[e]
  }

  /** No state of the run has more than k such calls. */
  ghost predicate AtMost(s: State, steps: seq<Step>, e: Event, k: nat)
    requires ValidSteps(s, steps)
    decreases steps
  {
    |TryingOn(s, e)| <= k && (steps != [] ==> AtMost(Do(s, steps[0]), steps[1..], e, k))
  }

  /** What the three steps of a call do: it goes on if its change is still to be made, makes it, and announces it. */
  lemma CallSteps(s: State, id: nat, q: Pair)
    requires id !in s.calls
    ensures Do(s, Probe(id, Like(q))) == if q in s.members then s else s.(calls := s.calls[id := Trying(Like(q))])
    ensures Do(s, Probe(id, Unlike(q))) == if q in s.members then s.(calls := s.calls[id := Trying(Unlike(q))]) else s
  {
  }

  /** One call at a time: each change is made and announced exactly once. */
  lemma CallAlone(s: State, id: nat, e: Event)
    requires id !in s.calls && (e.Like? <==> e.pair !in s.members)
    ensures ValidSteps(s, [Probe(id, e), Flip(id), Publish(id)])
    ensures var t := Exec(s, [Probe(id, e), Flip(id), Publish(id)]);
      && t.members == (if e.Like? then s.members + {e.pair} else s.members - {e.pair})
      && t.calls == s.calls && t.published == s.published + [e]
      && t.hits == s.hits + multiset{e} && t.misses == s.misses
  {
    var s1, steps := Do(s, Probe(id, e)), [Probe(id, e), Flip(id), Publish(id)];
    var s2 := Do(s1, Flip(id));
    var s3 := Do(s2, Publish(id));
    assert steps[1..] == [Flip(id), Publish(id)] && steps[1..][1..] == [Publish(id)] && [Publish(id)][1..] == [];
    assert ValidSteps(s2, [Publish(id)]) && Exec(s2, [Publish(id)]) == s3;
    assert ValidSteps(s1, steps[1..]) && Exec(s1, steps[1..]) == s3;
    assert s3.calls == s.calls;
  }

  // ---- Every flip is answered by one event ---------------------------------------------------

  lemma SizeWithout<T>(s: set<T>, t: set<T>, x: T)
    requires s - {x} == t - {x}
    ensures |t| == |s| + (if x in t then 1 else 0) - (if x in s then 1 else 0)
  {
    assert s == (s - {x}) + if x in s then {x} else {};
    assert t == (t - {x}) + if x in t then {x} else {};
  }

  lemma TryingStep(s: State, step: Step, e: Event)
    requires Enabled(s, step)
    ensures |TryingOn(Do(s, step), e)| == |TryingOn(s, e)|
      + (if step.Probe? && step.e == e && !Settled(s.members, e) then 1 else 0)
      - (if step.Flip? && s.calls[step.id].e == e then 1 else 0)
  {
    var t, t' := TryingOn(s, e), TryingOn(Do(s, step), e);
    assert forall id :: id != step.id ==> (id in t <==> id in t');
    SizeWithout(t, t', step.id);
  }

  lemma OwedStep(s: State, step: Step, e: Event)
    requires Enabled(s, step)
    ensures |OwedOn(Do(s, step), e)| == |OwedOn(s, e)|
      + (if step.Flip? && s.calls[step.id].e == e then 1 else 0)
      - (if step.Publish? && s.calls[step.id].e == e then 1 else 0)
  {
    var t, t' := OwedOn(s, e), OwedOn(Do(s, step), e);
    assert forall id :: id != step.id ==> (id in t <==> id in t');
    SizeWithout(t, t', step.id);
  }

  /** Published or owed: one event for every flip, hit or miss. */
  ghost predicate Accounted(s: State, e: Event) {
    Issued(s, e) == s.hits[e] + s.misses[e]
  }

  lemma StepAccounts(s: State, step: Step, e: Event)
    requires Enabled(s, step) && Accounted(s, e)
    ensures Accounted(Do(s, step), e)
  {
    OwedStep(s, step, e);
  }

  function Present(members: set<Pair>, q: Pair): int {
    if q in members then 1 else 0
  }

  /** The hits alone tell what became of a pair. */
  ghost predicate Tracked(s: State, start: set<Pair>, q: Pair) {
    Present(s.members, q) + s.hits[Unlike(q)] == Present(start, q) + s.hits[Like(q)]
  }

  lemma StepTracks(s: State, step: Step, start: set<Pair>, q: Pair)
    requires Enabled(s, step) && Tracked(s, start, q)
    ensures Tracked(Do(s, step), start, q)
  {
  }

  // ---- How many misses there can be -----------------------------------------------------------

  /** Calls whose flip will miss if nothing changes before it. */
  function Stale(s: State, e: Event): nat {
    if Settled(s.members, e) then |TryingOn(s, e)| else 0
  }

  ghost predicate MissesBounded(s: State, e: Event, k: nat) {
    s.misses[e] + Stale(s, e) <= (k - 1) * s.hits[e]
  }

  lemma OneMoreHit(k: nat, hits: nat)
    requires k > 0
    ensures (k - 1) * (hits + 1) == (k - 1) * hits + (k - 1)
  {
  }

  lemma StepBoundsMisses(s: State, step: Step, e: Event, k: nat)
    requires k > 0 && Enabled(s, step) && |TryingOn(s, e)| <= k && MissesBounded(s, e, k)
    ensures MissesBounded(Do(s, step), e, k)
  {
    TryingStep(s, step, e);
    OneMoreHit(k, s.hits[e]);
  }

  // ---- Main results -----------------------------------------------------------------------------

  lemma {:induction false} RunKeeps(s: State, steps: seq<Step>, start: set<Pair>, e: Event, k: nat)
    requires k > 0 && ValidSteps(s, steps) && AtMost(s, steps, e, k)
    requires Accounted(s, e) && Tracked(s, start, e.pair) && MissesBounded(s, e, k)
    ensures Accounted(Exec(s, steps), e) && Tracked(Exec(s, steps), start, e.pair) && MissesBounded(Exec(s, steps), e, k)
    decreases steps
  {
    if steps != [] {
      StepAccounts(s, steps[0], e);
      StepTracks(s, steps[0], start, e.pair);
      StepBoundsMisses(s, steps[0], e, k);
      RunKeeps(Do(s, steps[0]), steps[1..], start, e, k);
    }
  }

  lemma {:induction false} OpenCalls(s: State, steps: seq<Step>, e: Event) returns (k: nat)
    requires ValidSteps(s, steps)
    ensures k > 0 && AtMost(s, steps, e, k)
    decreases steps
  {
    k := |TryingOn(s, e)| + 1;
    if steps != [] {
      var n := OpenCalls(Do(s, steps[0]), steps[1..], e);
      if n > k {
        k := n;
      }
      AtMostMonotone(Do(s, steps[0]), steps[1..], e, n, k);
    }
  }

  lemma {:induction false} AtMostMonotone(s: State, steps: seq<Step>, e: Event, n: nat, k: nat)
    requires ValidSteps(s, steps) && AtMost(s, steps, e, n) && n <= k
    ensures AtMost(s, steps, e, k)
    decreases steps
  {
    if steps != [] {
      AtMostMonotone(Do(s, steps[0]), steps[1..], e, n, k);
    }
  }

  /**
   The ledger of a pair in every interleaving: likes issued minus unlikes issued are the
   change of its membership, plus the likes that missed, minus the unlikes that missed.
   */
  lemma EventLedger(start: set<Pair>, steps: seq<Step>, q: Pair)
    requires ValidSteps(Initial(start), steps)
    ensures var s := Exec(Initial(start), steps);
      Issued(s, Like(q)) - Issued(s, Unlike(q))
        == Present(s.members, q) - Present(start, q) + s.misses[Like(q)] - s.misses[Unlike(q)]
  {
    var k := OpenCalls(Initial(start), steps, Like(q));
    var n := OpenCalls(Initial(start), steps, Unlike(q));
    RunKeeps(Initial(start), steps, start, Like(q), k);
    RunKeeps(Initial(start), steps, start, Unlike(q), n);
  }

  /**
   With at most k overlapping calls for the same change, the changes that happened are
   announced at least once and at most k times each on average; one at a time, exactly once.
   */
  lemma SurplusBound(start: set<Pair>, steps: seq<Step>, e: Event, k: nat)
    requires k > 0 && ValidSteps(Initial(start), steps) && AtMost(Initial(start), steps, e, k)
    ensures var s := Exec(Initial(start), steps);
      s.hits[e] <= Issued(s, e) <= k * s.hits[e]
  {
    RunKeeps(Initial(start), steps, start, e, k);
    var s := Exec(Initial(start), steps);
    assert k * s.hits[e] == (k - 1) * s.hits[e] + s.hits[e];
  }

  // ---- The bound is reached ----------------------------------------------------------------------

  ghost predicate EndsWith(s: State, steps: seq<Step>, e: Event, k: nat, issued: nat, hits: nat) {
    && ValidSteps(s, steps) && AtMost(s, steps, e, k)
    && Issued(Exec(s, steps), e) == issued && Exec(s, steps).hits[e] == hits
  }

  lemma StartWith(s: State, step: Step, rest: seq<Step>, e: Event, k: nat, issued: nat, hits: nat)
    requires Enabled(s, step) && |TryingOn(s, e)| <= k && EndsWith(Do(s, step), rest, e, k, issued, hits)
    ensures EndsWith(s, [step] + rest, e, k, issued, hits)
  {
    assert ([step] + rest)[1..] == rest;
  }

  /** The calls from `j` up to k have probed, and the set is as they want it: each flip misses. */
  lemma {:induction false} FlipRest(s: State, e: Event, j: nat, k: nat) returns (steps: seq<Step>)
    requires j <= k && Settled(s.members, e) && forall id: nat :: id in s.calls && s.calls[id] == Trying(e) <==> j <= id < k
    requires |TryingOn(s, e)| == k - j
    ensures EndsWith(s, steps, e, k, Issued(s, e) + k - j, s.hits[e])
    decreases k - j
  {
    steps := [];
    if j < k {
      var s' := Do(s, Flip(j));
      TryingStep(s, Flip(j), e);
      OwedStep(s, Flip(j), e);
      steps := FlipRest(s', e, j + 1, k);
      StartWith(s, Flip(j), steps, e, k, Issued(s, e) + k - j, s.hits[e]);
      steps := [Flip(j)] + steps;
    }
  }

  /** Calls 0 to j have probed before any flipped. */
  lemma {:induction false} ProbeRest(s: State, e: Event, j: nat, k: nat) returns (steps: seq<Step>)
    requires 0 < k && j <= k && !Settled(s.members, e)
    requires forall id: nat :: id in s.calls <==> id < j
    requires forall id: nat :: id < j ==> s.calls[id] == Trying(e)
    requires |TryingOn(s, e)| == j && Issued(s, e) == 0 && s.hits[e] == 0
    ensures EndsWith(s, steps, e, k, k, 1)
    decreases k - j
  {
    if j < k {
      var s' := Do(s, Probe(j, e));
      TryingStep(s, Probe(j, e), e);
      OwedStep(s, Probe(j, e), e);
      steps := ProbeRest(s', e, j + 1, k);
      StartWith(s, Probe(j, e), steps, e, k, k, 1);
      steps := [Probe(j, e)] + steps;
    } else {
      var s' := Do(s, Flip(0));
      TryingStep(s, Flip(0), e);
      OwedStep(s, Flip(0), e);
      steps := FlipRest(s', e, 1, k);
      StartWith(s, Flip(0), steps, e, k, k, 1);
      steps := [Flip(0)] + steps;
    }
  }

  /** For every change and every k some run of k overlapping calls announces one change k times. */
  lemma SurplusIsTight(start: set<Pair>, e: Event, k: nat) returns (steps: seq<Step>)
    requires k > 0 && !Settled(start, e)
    ensures EndsWith(Initial(start), steps, e, k, k, 1)
  {
    assert TryingOn(Initial(start), e) == {} && OwedOn(Initial(start), e) == {};
    steps := ProbeRest(Initial(start), e, 0, k);
  }
}
