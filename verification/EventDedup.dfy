/**
 The duplicate-delivery guard of the consumers: an atomic check-and-mark per event id, and
 what it makes of an at-least-once delivery when many handlers run at the same time.
 */
module EventDedup {
  import opened Prelude
  import opened CountConsumer

  function DedupKey(topic: string, eventID: string): string {
    "dedup:" + topic + ":" + eventID
  }

  /** The topics guarded by the cache. */
  const Topics: set<string> :=
    {"event.pv", "event.post", "event.post.deleted", "event.like", "event.unlike", "event.follow", "event.unfollow"}

  ghost predicate NoColon(topic: string) {
    forall i :: 0 <= i < |topic| ==> topic[i] != ':'
  }

  lemma TopicsHaveNoColon(topic: string)
    requires topic in Topics
    ensures NoColon(topic)
  {
  }

  /** Ids of different topics never share a key. */
  lemma KeyInjective(t1: string, id1: string, t2: string, id2: string)
    requires NoColon(t1) && NoColon(t2) && DedupKey(t1, id1) == DedupKey(t2, id2)
    ensures t1 == t2 && id1 == id2
  {
    var n, k1, k2 := |"dedup:"|, DedupKey(t1, id1), DedupKey(t2, id2);
    assert k1 == "dedup:" + (t1 + ":" + id1) && k2 == "dedup:" + (t2 + ":" + id2);
    assert k1[n..] == t1 + ":" + id1 && k2[n..] == t2 + ":" + id2;
    assert (t1 + ":" + id1)[|t1|] == ':' && (t2 + ":" + id2)[|t2|] == ':';
    SameSplit(t1 + ":" + id1, t1, id1, t2, id2);
  }

  lemma SameSplit(s: string, t1: string, id1: string, t2: string, id2: string)
    requires NoColon(t1) && NoColon(t2) && s == t1 + ":" + id1 && s == t2 + ":" + id2
    ensures t1 == t2 && id1 == id2
  {
    assert |t1| == |t2| by {
      assert s[|t1|] == ':' && s[|t2|] == ':';
    }
    assert t1 == s[..|t1|] && t2 == s[..|t2|];
    assert id1 == s[|t1| + 1..] && id2 == s[|t2| + 1..];
  }

  class EventDedupCache {
    var keys: set<string>

    constructor ()
      ensures keys == {}
    {
      keys := {};
    }

    /** SETNX: only the first caller for an id is told to go on; an empty id is never marked. */
    method SeenOrMark(topic: string, eventID: string) returns (alreadySeen: bool)
      modifies this
      ensures alreadySeen <==> IsSeen(old(keys), topic, eventID)
      ensures keys == Mark(old(keys), topic, eventID)
      ensures alreadySeen <==> eventID != "" && "dedup:" + topic + ":" + eventID in old(keys)
      ensures keys == if eventID == "" then old(keys) else old(keys) + {"dedup:" + topic + ":" + eventID}
    {
      if eventID == "" {
        return false;
      }
      var key := DedupKey(topic, eventID);
      alreadySeen := key in keys;
      keys := keys + {key};
    }
  }

  predicate IsSeen(keys: set<string>, topic: string, eventID: string) {
    eventID != "" && DedupKey(topic, eventID) in keys
  }

  function Mark(keys: set<string>, topic: string, eventID: string): set<string> {
    if eventID == "" then keys else keys + {DedupKey(topic, eventID)}
  }

  // ---- Deliveries and handlers ----------------------------------------------------------

  /** What a handler turns the event into: a viewed post, or one or two counter deltas. */
  datatype Body = View(postID: int) | Deltas(deltas: seq<CountDelta>)

  /** A message as a handler reads it; a redelivery repeats all three parts. */
  datatype Delivery = Delivery(topic: string, eventID: string, body: Body)

  predicate SameID(d: Delivery, e: Delivery) {
    d.topic == e.topic && d.eventID == e.eventID
  }

  /** One id is one event. */
  ghost predicate Coherent(ds: seq<Delivery>) {
    && (forall d :: d in ds ==> d.topic in Topics)
    && forall d, e :: d in ds && e in ds && d.eventID != "" && SameID(d, e) ==> d == e
  }

  /** The trace with every id kept once; without an id nothing can be recognised as a repeat. */
  ghost function Once(ds: seq<Delivery>): seq<Delivery> {
    if ds == [] then []
    else
      var init, d := ds[..|ds| - 1], ds[|ds| - 1];
      if d.eventID != "" && exists e :: e in init && SameID(e, d) then Once(init) else Once(init) + [d]
  }

  ghost function OnceCount(ds: seq<Delivery>, d: Delivery): nat {
    if d.eventID == "" then multiset(ds)[d] else if d in ds then 1 else 0
  }

  lemma {:induction false} OnceCounts(ds: seq<Delivery>, d: Delivery)
    requires Coherent(ds)
    ensures multiset(Once(ds))[d] == OnceCount(ds, d)
  {
    if ds != [] {
      var init, last := ds[..|ds| - 1], ds[|ds| - 1];
      assert ds == init + [last];
      OnceCounts(init, d);
    }
  }

  /**
   Handlers running side by side. `waiting` holds the deliveries not yet checked, `passed`
   those whose check let them through but whose send has not happened, and `sent` what
   reached the flush loop's channel, in order.
   */
  datatype State = State(
    keys: set<string>,
    delivered: seq<Delivery>,
    waiting: multiset<Delivery>,
    passed: multiset<Delivery>,
    sent: seq<Delivery>)

  datatype Step = Deliver(d: Delivery) | Check(d: Delivery) | Send(d: Delivery)

  /** A delivery may be new or a repeat, at any moment. */
  ghost predicate Enabled(s: State, step: Step) {
    match step
    case Deliver(d) => Coherent(s.delivered + [d])
    case Check(d) => d in s.waiting
    case Send(d) => d in s.passed
  }

  ghost function Do(s: State, step: Step): State
    requires Enabled(s, step)
  {
    match step
    case Deliver(d) => s.(delivered := s.delivered + [d], waiting := s.waiting + multiset{d})
    case Check(d) =>
      var s' := s.(keys := Mark(s.keys, d.topic, d.eventID), waiting := s.waiting - multiset{d});
      if IsSeen(s.keys, d.topic, d.eventID) then s' else s'.(passed := s.passed + multiset{d})
    case Send(d) => s.(passed := s.passed - multiset{d}, sent := s.sent + [d])
  }

  ghost predicate ValidSteps(s: State, steps: seq<Step>)
    decreases steps
  {
    steps == [] || (Enabled(s, steps[0]) && ValidSteps(Do(s, steps[0]), steps[1..]))
  }

  ghost function Exec(s: State, steps: seq<Step>): State
    requires ValidSteps(s, steps)
    decreases steps
  {
    if steps == [] then s else Exec(Do(s, steps[0]), steps[1..])
  }

  function Initial(): State {
    State({}, [], multiset{}, multiset{}, [])
  }

  // ---- Invariant --------------------------------------------------------------------------

  /** How often a delivery has got past its check. */
  ghost function Through(s: State, d: Delivery): nat {
    multiset(s.sent)[d] + s.passed[d]
  }

  ghost predicate Marked(s: State, d: Delivery) {
    DedupKey(d.topic, d.eventID) in s.keys
  }

  ghost predicate CountOk(s: State, d: Delivery) {
    && s.waiting[d] <= multiset(s.delivered)[d]
    && if d.eventID == "" then Through(s, d) + s.waiting[d] == multiset(s.delivered)[d]
       else Through(s, d) == (if d in s.delivered && Marked(s, d) then 1 else 0)
            && (d in s.delivered ==> Marked(s, d) || d in s.waiting)
  }

  /** Every mark was left by a delivery that carried that very id. */
  ghost predicate KeysOk(s: State) {
    forall k :: k in s.keys ==> exists e :: e in s.delivered && e.eventID != "" && DedupKey(e.topic, e.eventID) == k
  }

  ghost predicate Inv(s: State) {
    && Coherent(s.delivered)
    && KeysOk(s)
    && forall d :: CountOk(s, d)
  }

  /** A mark can only have been left by the very same event. */
  lemma MarkedMeansDelivered(s: State, d: Delivery)
    requires Coherent(s.delivered + [d]) && KeysOk(s) && Marked(s, d) && d.eventID != ""
    ensures d in s.delivered
  {
    var e :| e in s.delivered && e.eventID != "" && DedupKey(e.topic, e.eventID) == DedupKey(d.topic, d.eventID);
    var all := s.delivered + [d];
    assert e in all && d in all;
    TopicsHaveNoColon(d.topic);
    TopicsHaveNoColon(e.topic);
    KeyInjective(e.topic, e.eventID, d.topic, d.eventID);
  }

  lemma DeliverKeepsInv(s: State, d: Delivery)
    requires Inv(s) && Enabled(s, Deliver(d))
    ensures Inv(Do(s, Deliver(d)))
  {
    var s' := Do(s, Deliver(d));
    assert forall e :: e in s.delivered ==> e in s'.delivered;
    if d.eventID != "" && Marked(s, d) {
      MarkedMeansDelivered(s, d);
    }
    forall e
      ensures CountOk(s', e)
    {
      assert CountOk(s, e);
      assert e in s'.delivered <==> e in s.delivered || e == d;
    }
  }

  /** Two deliveries that share a key are the same event. */
  lemma SameKeySameEvent(s: State, d: Delivery, e: Delivery)
    requires Coherent(s.delivered) && d in s.delivered && e in s.delivered && d.eventID != ""
    requires DedupKey(d.topic, d.eventID) == DedupKey(e.topic, e.eventID)
    ensures d == e
  {
    TopicsHaveNoColon(d.topic);
    TopicsHaveNoColon(e.topic);
    KeyInjective(d.topic, d.eventID, e.topic, e.eventID);
  }

  lemma CheckKeepsCount(s: State, d: Delivery, e: Delivery)
    requires Inv(s) && Enabled(s, Check(d))
    ensures CountOk(Do(s, Check(d)), e)
  {
    assert CountOk(s, d) && CountOk(s, e);
    assert d in s.delivered;
    if d == e {
      CheckCountsItself(s, d);
    } else {
      if d.eventID != "" && e in s.delivered && DedupKey(d.topic, d.eventID) == DedupKey(e.topic, e.eventID) {
        SameKeySameEvent(s, d, e);
      }
      CheckCountsOther(s, d, e);
    }
  }

  lemma CheckCountsItself(s: State, d: Delivery)
    requires Enabled(s, Check(d)) && d in s.delivered && CountOk(s, d)
    ensures CountOk(Do(s, Check(d)), d)
  {
  }

  lemma CheckCountsOther(s: State, d: Delivery, e: Delivery)
    requires Enabled(s, Check(d)) && CountOk(s, e) && d != e
    requires d.eventID != "" && e in s.delivered ==> DedupKey(d.topic, d.eventID) != DedupKey(e.topic, e.eventID)
    ensures CountOk(Do(s, Check(d)), e)
  {
  }

  lemma CheckKeepsInv(s: State, d: Delivery)
    requires Inv(s) && Enabled(s, Check(d))
    ensures Inv(Do(s, Check(d)))
  {
    var s' := Do(s, Check(d));
    assert CountOk(s, d);
    assert d in s.delivered;
    forall k | k in s'.keys
      ensures exists e :: e in s'.delivered && e.eventID != "" && DedupKey(e.topic, e.eventID) == k
    {
      if k !in s.keys {
        assert d in s'.delivered && DedupKey(d.topic, d.eventID) == k;
      }
    }
    forall e
      ensures CountOk(s', e)
    {
      CheckKeepsCount(s, d, e);
    }
  }

  lemma SendKeepsInv(s: State, d: Delivery)
    requires Inv(s) && Enabled(s, Send(d))
    ensures Inv(Do(s, Send(d)))
  {
    forall e
      ensures CountOk(Do(s, Send(d)), e)
    {
      assert CountOk(s, e);
    }
  }

  lemma {:induction false} RunKeepsInv(s: State, steps: seq<Step>)
    requires Inv(s) && ValidSteps(s, steps)
    ensures Inv(Exec(s, steps))
    decreases steps
  {
    if steps != [] {
      match steps[0] {
        case Deliver(d) => DeliverKeepsInv(s, d);
        case Check(d) => CheckKeepsInv(s, d);
        case Send(d) => SendKeepsInv(s, d);
      }
      RunKeepsInv(Do(s, steps[0]), steps[1..]);
    }
  }

  /** What is waiting can be checked, and what has passed can be sent, whatever else was delivered. */
  lemma HandlersFinish(s: State) returns (steps: seq<Step>)
    ensures ValidSteps(s, steps) && Exec(s, steps).delivered == s.delivered
    ensures Exec(s, steps).waiting == multiset{} && Exec(s, steps).passed == multiset{}
  {
    steps := CheckAll(s);
  }

  lemma OneLess<T>(m: multiset<T>, x: T)
    requires x in m
    ensures |m - multiset{x}| == |m| - 1
  {
    assert m == (m - multiset{x}) + multiset{x};
  }

  lemma {:induction false} CheckAll(s: State) returns (steps: seq<Step>)
    ensures ValidSteps(s, steps) && Exec(s, steps).delivered == s.delivered
    ensures Exec(s, steps).waiting == multiset{} && Exec(s, steps).passed == multiset{}
    decreases |s.waiting|
  {
    if s.waiting == multiset{} {
      steps := SendAll(s);
    } else {
      var d :| d in s.waiting;
      OneLess(s.waiting, d);
      var rest := CheckAll(Do(s, Check(d)));
      steps := [Check(d)] + rest;
      assert steps[1..] == rest;
    }
  }

  lemma {:induction false} SendAll(s: State) returns (steps: seq<Step>)
    requires s.waiting == multiset{}
    ensures ValidSteps(s, steps) && Exec(s, steps).delivered == s.delivered
    ensures Exec(s, steps).waiting == multiset{} && Exec(s, steps).passed == multiset{}
    decreases |s.passed|
  {
    steps := [];
    if s.passed != multiset{} {
      var d :| d in s.passed;
      OneLess(s.passed, d);
      var rest := SendAll(Do(s, Send(d)));
      steps := [Send(d)] + rest;
      assert steps[1..] == rest;
    }
  }

  // ---- Main result ------------------------------------------------------------------------

  /** However handlers and redeliveries interleave, once all have finished each id has got through once. */
  lemma AtLeastOnceToOnce(steps: seq<Step>)
    requires ValidSteps(Initial(), steps)
    requires Exec(Initial(), steps).waiting == multiset{} && Exec(Initial(), steps).passed == multiset{}
    ensures multiset(Exec(Initial(), steps).sent) == multiset(Once(Exec(Initial(), steps).delivered))
  {
    var s0: State := Initial();
    RunKeepsInv(s0, steps);
    var s := Exec(s0, steps);
    forall d
      ensures multiset(s.sent)[d] == multiset(Once(s.delivered))[d]
    {
      assert CountOk(s, d);
      OnceCounts(s.delivered, d);
    }
  }

  /** With ids present, what was sent has no repeats and is exactly the set of events delivered. */
  lemma SentIsTheEventSet(steps: seq<Step>)
    requires ValidSteps(Initial(), steps)
    requires Exec(Initial(), steps).waiting == multiset{} && Exec(Initial(), steps).passed == multiset{}
    requires forall d :: d in Exec(Initial(), steps).delivered ==> d.eventID != ""
    ensures var s := Exec(Initial(), steps);
      && (forall d :: d in s.sent <==> d in s.delivered)
      && forall i, j :: 0 <= i < j < |s.sent| ==> s.sent[i] != s.sent[j]
  {
    var s0: State := Initial();
    var s := Exec(s0, steps);
    RunKeepsInv(s0, steps);
    forall d
      ensures multiset(s.sent)[d] == if d in s.delivered then 1 else 0
    {
      assert CountOk(s, d);
      assert multiset(s.delivered)[d] > 0 <==> d in s.delivered;
    }
    forall d
      ensures d in s.sent <==> d in s.delivered
    {
      assert multiset(s.sent)[d] > 0 <==> d in s.sent;
    }
    NoRepeats(s.sent);
  }

  lemma NoRepeats<T(!new)>(s: seq<T>)
    requires forall x :: multiset(s)[x] <= 1
    ensures forall i, j :: 0 <= i < j < |s| ==> s[i] != s[j]
  {
    forall i, j | 0 <= i < j < |s|
      ensures s[i] != s[j]
    {
      assert s == s[..j] + s[j..];
      assert multiset(s) == multiset(s[..j]) + multiset(s[j..]);
      assert s[i] in s[..j] && s[j] == s[j..][0] && s[j] in s[j..];
      assert multiset(s)[s[i]] <= 1;
    }
  }

  // ---- What the counters receive -----------------------------------------------------------

  /** The deltas of the given events, in order. */
  function Emitted(ds: seq<Delivery>): seq<CountDelta> {
    if ds == [] then []
    else Emitted(ds[..|ds| - 1]) + if ds[|ds| - 1].body.Deltas? then ds[|ds| - 1].body.deltas else []
  }

  /** Every delta of an event comes behind those of the earlier events; a page view has none. */
  lemma EmittedNext(ds: seq<Delivery>, topic: string, id: string, deltas: seq<CountDelta>, post: int)
    ensures Emitted([]) == []
    ensures Emitted(ds + [Delivery(topic, id, Deltas(deltas))]) == Emitted(ds) + deltas
    ensures Emitted(ds + [Delivery(topic, id, View(post))]) == Emitted(ds)
  {
    assert (ds + [Delivery(topic, id, Deltas(deltas))])[..|ds|] == ds;
    assert (ds + [Delivery(topic, id, View(post))])[..|ds|] == ds;
  }

  /** One event's share of one user's column. */
  function NetOf(d: Delivery, u: int, col: Column): int {
    if d.body.Deltas? then Net(d.body.deltas, u, col) else 0
  }

  lemma NetLast(init: seq<Delivery>, d: Delivery, u: int, col: Column)
    ensures Net(Emitted(init + [d]), u, col) == Net(Emitted(init), u, col) + NetOf(d, u, col)
  {
    assert (init + [d])[..|init|] == init;
    NetAppend(Emitted(init), if d.body.Deltas? then d.body.deltas else [], u, col);
  }

  /** Any event may be taken out first. */
  lemma {:induction false} NetTakeOut(ds: seq<Delivery>, i: nat, u: int, col: Column)
    requires i < |ds|
    ensures Net(Emitted(ds), u, col) == Net(Emitted(Cut(ds, i)), u, col) + NetOf(ds[i], u, col)
  {
    var n := |ds| - 1;
    var init := ds[..n];
    NetLast(init, ds[n], u, col);
    assert ds == init + [ds[n]];
    CutLast(ds, i);
    if i < n {
      NetTakeOut(init, i, u, col);
      NetLast(Cut(init, i), ds[n], u, col);
    }
  }

  function Cut<T>(s: seq<T>, i: nat): seq<T>
    requires i < |s|
  {
    s[..i] + s[i + 1..]
  }

  lemma CutLast<T>(s: seq<T>, i: nat)
    requires i < |s|
    ensures var n := |s| - 1; Cut(s, i) == if i == n then s[..n] else Cut(s[..n], i) + [s[n]]
  {
  }

  lemma CutMultiset<T>(s: seq<T>, i: nat)
    requires i < |s|
    ensures multiset(s) == multiset(Cut(s, i)) + multiset{s[i]}
  {
    assert s == s[..i] + [s[i]] + s[i + 1..];
  }

  lemma Matching<T>(a: seq<T>, b: seq<T>) returns (i: nat)
    requires a != [] && multiset(a) == multiset(b)
    ensures i < |b| && b[i] == a[0]
    ensures multiset(Cut(a, 0)) == multiset(Cut(b, i))
  {
    assert a[0] in multiset(b);
    i :| 0 <= i < |b| && b[i] == a[0];
    CutMultiset(a, 0);
    CutMultiset(b, i);
    assert multiset(Cut(a, 0)) == multiset(a) - multiset{a[0]};
  }

  /** What the events do to a counter does not depend on their order. */
  lemma {:induction false} NetOfMultiset(a: seq<Delivery>, b: seq<Delivery>, u: int, col: Column)
    requires multiset(a) == multiset(b)
    ensures Net(Emitted(a), u, col) == Net(Emitted(b), u, col)
    decreases |a|
  {
    assert |a| == |multiset(a)| && |b| == |multiset(b)|;
    if a != [] {
      var i := Matching(a, b);
      NetTakeOut(a, 0, u, col);
      NetTakeOut(b, i, u, col);
      NetOfMultiset(Cut(a, 0), Cut(b, i), u, col);
    }
  }

  /** Every user's every column receives what it would have received had each event been delivered once. */
  lemma CountersSeeEachEventOnce(steps: seq<Step>, u: int, col: Column)
    requires ValidSteps(Initial(), steps)
    requires Exec(Initial(), steps).waiting == multiset{} && Exec(Initial(), steps).passed == multiset{}
    ensures var s := Exec(Initial(), steps);
      Net(Emitted(s.sent), u, col) == Net(Emitted(Once(s.delivered)), u, col)
  {
    AtLeastOnceToOnce(steps);
    NetOfMultiset(Exec(Initial(), steps).sent, Once(Exec(Initial(), steps).delivered), u, col);
  }
}
