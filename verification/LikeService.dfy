/**
 The like cache in Redis (the `like:set:*` sets and the `like:cnt:*` counters) and the
 like service on top of it, which flips the cache and publishes an event.
 */
module LikeService {
  import opened Prelude
  import opened LikeConsumer

  /** All the sets as one set of (user, post) pairs, and the counters that exist. */
  datatype Cache = Cache(members: set<Pair>, counts: map<int, int>)

  // ---- What the Redis scripts do ------------------------------------------------------

  /** addLikeScript: INCR only when SADD inserted. */
  function Added(c: Cache, q: Pair): Cache {
    if q in c.members then c
    else Cache(c.members + {q}, c.counts[q.post := At(c.counts, q.post) + 1])
  }

  /** The first half of RemoveLike: SREM. */
  function MemberRemoved(c: Cache, q: Pair): Cache {
    c.(members := c.members - {q})
  }

  /** The second half: decrClampScript; a missing or non-positive counter is set to 0. */
  function DecrClamped(c: Cache, post: int): Cache {
    c.(counts := c.counts[post := Max0(At(c.counts, post) - 1)])
  }

  class LikeCache {
    var members: set<Pair>
    var counts: map<int, int>

    ghost function C(): Cache
      reads this
    {
      Cache(members, counts)
    }

    constructor ()
      ensures C() == Cache({}, map[])
    {
      members, counts := {}, map[];
    }

    method HasLiked(q: Pair) returns (liked: bool)
      ensures liked <==> q in members
    {
      liked := q in members;
    }

    method GetLikeCount(post: int) returns (n: nat)
      ensures n == Max0(At(counts, post))
    {
      n := if post in counts && counts[post] >= 0 then counts[post] else 0;
    }

    method AddLike(q: Pair) returns (n: nat)
      modifies this
      ensures C() == Added(old(C()), q)
      ensures members == old(members) + {q}
      ensures At(counts, q.post) == At(old(counts), q.post) + if q in old(members) then 0 else 1
      ensures forall p :: p != q.post ==> At(counts, p) == At(old(counts), p)
      ensures n == Max0(At(counts, q.post))
    {
      var v := if q.post in counts then counts[q.post] else 0;
      if q !in members {
        members := members + {q};
        v := v + 1;
        counts := counts[q.post := v];
      }
      n := Max0(v);
    }

    method RemoveLike(q: Pair) returns (n: nat)
      modifies this
      ensures C() == DecrClamped(MemberRemoved(old(C()), q), q.post)
      ensures members == old(members) - {q}
      ensures At(counts, q.post) == if At(old(counts), q.post) > 0 then At(old(counts), q.post) - 1 else 0
      ensures forall p :: p != q.post ==> At(counts, p) == At(old(counts), p)
      ensures n == At(counts, q.post)
    {
      members := members - {q};
      if q.post !in counts || counts[q.post] <= 0 {
        counts := counts[q.post := 0];
      } else {
        counts := counts[q.post := counts[q.post] - 1];
      }
      n := counts[q.post];
    }
  }

  // ---- The service, one call at a time ------------------------------------------------

  datatype Response = PostNotFound | LikeResp(liked: bool, count: nat)

  /** Every published event changed the state it found. */
  ghost predicate AllEffective(b: seq<Event>) {
    forall i :: 0 <= i < |b| ==> (b[i].Like? <==> b[i].pair !in Replay({}, b[..i]))
  }

  ghost predicate Counted(c: Cache) {
    forall p :: At(c.counts, p) == |PostRows(c.members, p)|
  }

  class Service {
    const posts: set<int>
    const cache: LikeCache
    var published: seq<Event>

    /** The counters count the sets, and replaying the published events yields the sets. */
    ghost predicate Valid()
      reads this, cache
    {
      && Counted(cache.C())
      && Replay({}, published) == cache.members
      && AllEffective(published)
    }

    constructor (posts: set<int>)
      ensures Valid() && published == [] && this.posts == posts && fresh(cache) && cache.C() == Cache({}, map[])
    {
      this.posts := posts;
      cache := new LikeCache();
      published := [];
    }

    method Like(user: int, post: int) returns (r: Response)
      requires Valid()
      modifies this, cache
      ensures Valid()
      ensures post !in posts ==> r == PostNotFound && cache.C() == old(cache.C()) && published == old(published)
      ensures post in posts ==> r == LikeResp(true, |PostRows(cache.members, post)|)
      ensures post in posts ==> cache.C() == Added(old(cache.C()), Pair(user, post))
      ensures published == old(published) +
        if post in posts && Pair(user, post) !in old(cache.members) then [Event.Like(Pair(user, post))] else []
    {
      if post !in posts {
        return PostNotFound;
      }
      var q := Pair(user, post);
      var already := cache.HasLiked(q);
      if already {
        var n := cache.GetLikeCount(post);
        return LikeResp(true, n);
      }
      AddKeepsCounted(cache.C(), q);
      var n := cache.AddLike(q);
      PublishedEffective(published, Event.Like(q));
      published := published + [Event.Like(q)];
      r := LikeResp(true, n);
    }

    method Unlike(user: int, post: int) returns (r: Response)
      requires Valid()
      modifies this, cache
      ensures Valid()
      ensures post !in posts ==> r == PostNotFound && cache.C() == old(cache.C()) && published == old(published)
      ensures post in posts ==> r == LikeResp(false, |PostRows(cache.members, post)|)
      ensures post in posts ==> cache.members == old(cache.members) - {Pair(user, post)}
      ensures published == old(published) +
        if post in posts && Pair(user, post) in old(cache.members) then [Event.Unlike(Pair(user, post))] else []
    {
      if post !in posts {
        return PostNotFound;
      }
      var q := Pair(user, post);
      var already := cache.HasLiked(q);
      if !already {
        var n := cache.GetLikeCount(post);
        return LikeResp(false, n);
      }
      RemoveKeepsCounted(cache.C(), q);
      var n := cache.RemoveLike(q);
      PublishedEffective(published, Event.Unlike(q));
      published := published + [Event.Unlike(q)];
      r := LikeResp(false, n);
    }
  }

  lemma RowsMinus(members: set<Pair>, q: Pair, p: int)
    requires q in members
    ensures |PostRows(members - {q}, p)| == |PostRows(members, p)| - if q.post == p then 1 else 0
  {
    OneMoreRow(members - {q}, q, p);
    assert members - {q} + {q} == members;
  }

  lemma AddKeepsCounted(c: Cache, q: Pair)
    requires Counted(c) && q !in c.members
    ensures Counted(Added(c, q))
  {
    forall p
      ensures At(Added(c, q).counts, p) == |PostRows(Added(c, q).members, p)|
    {
      OneMoreRow(c.members, q, p);
    }
  }

  lemma RemoveKeepsCounted(c: Cache, q: Pair)
    requires Counted(c) && q in c.members
    ensures Counted(DecrClamped(MemberRemoved(c, q), q.post))
  {
    var c' := DecrClamped(MemberRemoved(c, q), q.post);
    forall p
      ensures At(c'.counts, p) == |PostRows(c'.members, p)|
    {
      RowsMinus(c.members, q, p);
    }
  }

  lemma PublishedEffective(b: seq<Event>, e: Event)
    requires AllEffective(b) && (e.Like? <==> e.pair !in Replay({}, b))
    ensures AllEffective(b + [e])
    ensures Replay({}, b + [e]) == if e.Like? then Replay({}, b) + {e.pair} else Replay({}, b) - {e.pair}
  {
    var b' := b + [e];
    assert b'[..|b|] == b;
    forall i | 0 <= i < |b'|
      ensures b'[i].Like? <==> b'[i].pair !in Replay({}, b'[..i])
    {
      if i < |b| {
        assert b'[..i] == b[..i];
      }
    }
  }

  /**
   What the consumer can rely on: the events of each (user, post) pair alternate, and the
   first of them is a like.
   */
  lemma EventsAlternate(b: seq<Event>, j: nat)
    requires AllEffective(b) && j < |b|
    ensures (forall i :: 0 <= i < j ==> b[i].pair != b[j].pair) ==> b[j].Like?
    ensures forall i :: 0 <= i < j && b[i].pair == b[j].pair && (forall k :: i < k < j ==> b[k].pair != b[j].pair) ==>
      (b[i].Like? <==> b[j].Unlike?)
  {
    var p := b[j].pair;
    ReplayByLast({}, b[..j], p);
    var last := LastOf(b[..j], p);
    forall i | 0 <= i < j && b[i].pair == p && forall k :: i < k < j ==> b[k].pair != p
      ensures b[i].Like? <==> b[j].Unlike?
    {
      assert b[..j][i].pair == p;
      assert last == i;
    }
    if forall i :: 0 <= i < j ==> b[i].pair != p {
      assert last < 0;
    }
  }

  // ---- Interleaved AddLike and two-step RemoveLike ------------------------------------

  /** A remove between its two steps; `took` says whether its SREM removed a member. */
  datatype Pending = Pending(post: int, took: bool)

  datatype State = State(cache: Cache, pending: seq<Pending>)

  datatype Step = Add(q: Pair) | Srem(q: Pair) | Decr(k: nat)

  predicate Enabled(s: State, step: Step) {
    step.Decr? ==> step.k < |s.pending|
  }

  function Do(s: State, step: Step): State
    requires Enabled(s, step)
  {
    match step
    case Add(q) => s.(cache := Added(s.cache, q))
    case Srem(q) => State(MemberRemoved(s.cache, q), s.pending + [Pending(q.post, q in s.cache.members)])
    case Decr(k) => State(DecrClamped(s.cache, s.pending[k].post), s.pending[..k] + s.pending[k + 1..])
  }

  predicate ValidSteps(s: State, steps: seq<Step>)
    decreases steps
  {
    steps == [] || (Enabled(s, steps[0]) && ValidSteps(Do(s, steps[0]), steps[1..]))
  }

  function Exec(s: State, steps: seq<Step>): State
    requires ValidSteps(s, steps)
    decreases steps
  {
    if steps == [] then s else Exec(Do(s, steps[0]), steps[1..])
  }

  function Owing(pending: seq<Pending>, p: int): nat {
    if pending == [] then 0
    else Owing(pending[..|pending| - 1], p) + if pending[|pending| - 1] == Pending(p, true) then 1 else 0
  }

  lemma {:induction false} OwingWithout(pending: seq<Pending>, k: nat, p: int)
    requires k < |pending|
    ensures Owing(pending[..k] + pending[k + 1..], p) == Owing(pending, p) - if pending[k] == Pending(p, true) then 1 else 0
  {
    var n := |pending| - 1;
    var rest := pending[..k] + pending[k + 1..];
    if k == n {
      assert rest == pending[..n];
    } else {
      OwingWithout(pending[..n], k, p);
      assert rest[..n - 1] == pending[..n][..k] + pending[..n][k + 1..];
      assert rest[n - 1] == pending[n];
    }
  }

  ghost predicate Bounded(s: State) {
    forall p :: 0 <= At(s.cache.counts, p) <= |PostRows(s.cache.members, p)| + Owing(s.pending, p)
  }

  ghost predicate Balanced(s: State) {
    forall p :: Gap(s, p) == 0
  }

  /** How far the counter is below the members plus the decrements still owed. */
  function Gap(s: State, p: int): int {
    |PostRows(s.cache.members, p)| + Owing(s.pending, p) - At(s.cache.counts, p)
  }

  /** A decrement for a remove that took nothing, and that hits: it takes away somebody else's like. */
  predicate Vain(s: State, step: Step) {
    step.Decr? && step.k < |s.pending| && !s.pending[step.k].took && At(s.cache.counts, s.pending[step.k].post) > 0
  }

  /** A decrement that is owed, but finds the counter at zero: the clamp drops it. */
  predicate Spared(s: State, step: Step) {
    step.Decr? && step.k < |s.pending| && s.pending[step.k].took && At(s.cache.counts, s.pending[step.k].post) <= 0
  }

  lemma StepBounds(s: State, step: Step, p: int)
    requires Enabled(s, step)
    requires 0 <= At(s.cache.counts, p) <= |PostRows(s.cache.members, p)| + Owing(s.pending, p)
    ensures var s' := Do(s, step);
      0 <= At(s'.cache.counts, p) <= |PostRows(s'.cache.members, p)| + Owing(s'.pending, p)
  {
    match step
    case Add(q) =>
      if q !in s.cache.members {
        OneMoreRow(s.cache.members, q, p);
      }
    case Srem(q) =>
      var e := Pending(q.post, q in s.cache.members);
      assert (s.pending + [e])[..|s.pending|] == s.pending;
      if q in s.cache.members {
        RowsMinus(s.cache.members, q, p);
      } else {
        assert s.cache.members - {q} == s.cache.members;
      }
    case Decr(k) =>
      OwingWithout(s.pending, k, p);
  }

  lemma StepLedger(s: State, step: Step, p: int)
    requires Enabled(s, step) && At(s.cache.counts, p) >= 0
    ensures Gap(Do(s, step), p) == Gap(s, p)
      + (if Vain(s, step) && s.pending[step.k].post == p then 1 else 0)
      - (if Spared(s, step) && s.pending[step.k].post == p then 1 else 0)
  {
    match step
    case Add(q) =>
      if q !in s.cache.members {
        OneMoreRow(s.cache.members, q, p);
      }
    case Srem(q) =>
      assert (s.pending + [Pending(q.post, q in s.cache.members)])[..|s.pending|] == s.pending;
      if q in s.cache.members {
        RowsMinus(s.cache.members, q, p);
      } else {
        assert s.cache.members - {q} == s.cache.members;
      }
    case Decr(k) =>
      OwingWithout(s.pending, k, p);
  }

  /**
   In every interleaving the counter is never negative and never above the size of the
   set by more than the removes that took a member and have yet to decrement.
   */
  lemma {:induction false} CounterBounds(s: State, steps: seq<Step>)
    requires Bounded(s) && ValidSteps(s, steps)
    ensures Bounded(Exec(s, steps))
    decreases steps
  {
    if steps != [] {
      BoundedStep(s, steps[0]);
      CounterBounds(Do(s, steps[0]), steps[1..]);
    }
  }

  predicate NoVain(s: State, steps: seq<Step>)
    requires ValidSteps(s, steps)
    decreases steps
  {
    steps == [] || (!Vain(s, steps[0]) && NoVain(Do(s, steps[0]), steps[1..]))
  }

  ghost predicate BalancedThroughout(s: State, steps: seq<Step>)
    requires ValidSteps(s, steps)
    decreases steps
  {
    Balanced(s) && (steps != [] ==> BalancedThroughout(Do(s, steps[0]), steps[1..]))
  }

  function Stolen(s: State, steps: seq<Step>, p: int): nat
    requires ValidSteps(s, steps)
    decreases steps
  {
    if steps == [] then 0
    else (if Vain(s, steps[0]) && s.pending[steps[0].k].post == p then 1 else 0) + Stolen(Do(s, steps[0]), steps[1..], p)
  }

  function SparedIn(s: State, steps: seq<Step>, p: int): nat
    requires ValidSteps(s, steps)
    decreases steps
  {
    if steps == [] then 0
    else (if Spared(s, steps[0]) && s.pending[steps[0].k].post == p then 1 else 0) + SparedIn(Do(s, steps[0]), steps[1..], p)
  }

  /** The counter of a run to the last unit: every vain decrement lowers it, every dropped one leaves it high. */
  lemma {:induction false} CounterLedger(s: State, steps: seq<Step>, p: int)
    requires Bounded(s) && ValidSteps(s, steps)
    ensures Gap(Exec(s, steps), p) == Gap(s, p) + Stolen(s, steps, p) - SparedIn(s, steps, p)
    decreases steps
  {
    if steps != [] {
      assert 0 <= At(s.cache.counts, p);
      StepLedger(s, steps[0], p);
      BoundedStep(s, steps[0]);
      CounterLedger(Do(s, steps[0]), steps[1..], p);
    }
  }

  lemma BoundedStep(s: State, step: Step)
    requires Bounded(s) && Enabled(s, step)
    ensures Bounded(Do(s, step))
  {
    forall p
      ensures var s' := Do(s, step);
        0 <= At(s'.cache.counts, p) <= |PostRows(s'.cache.members, p)| + Owing(s'.pending, p)
    {
      assert 0 <= At(s.cache.counts, p) <= |PostRows(s.cache.members, p)| + Owing(s.pending, p);
      StepBounds(s, step, p);
    }
  }

  lemma BalancedStep(s: State, step: Step)
    requires Bounded(s) && Balanced(s) && Enabled(s, step)
    ensures Balanced(Do(s, step)) <==> !Vain(s, step)
  {
    forall p
      ensures Gap(Do(s, step), p) == if Vain(s, step) && s.pending[step.k].post == p then 1 else 0
    {
      assert Gap(s, p) == 0 && 0 <= At(s.cache.counts, p);
      StepLedger(s, step, p);
      if step.Decr? {
        OwingWithout(s.pending, step.k, p);
      }
    }
    if Vain(s, step) {
      assert Gap(Do(s, step), s.pending[step.k].post) == 1;
    }
  }

  /**
   The counter equals members plus owed decrements in every state of a run if and only if no
   decrement of the run is vain: no remove that took nothing finds a positive counter.
   */
  lemma {:induction false} CounterExact(s: State, steps: seq<Step>)
    requires Bounded(s) && Balanced(s) && ValidSteps(s, steps)
    ensures BalancedThroughout(s, steps) <==> NoVain(s, steps)
    decreases steps
  {
    if steps != [] {
      BalancedStep(s, steps[0]);
      BoundedStep(s, steps[0]);
      if !Vain(s, steps[0]) {
        CounterExact(Do(s, steps[0]), steps[1..]);
      }
    }
  }

  /** Two concurrent removes of one like make the counter lose a like of another user. */
  lemma CounterCanLag()
    ensures var steps := [Add(Pair(1, 7)), Srem(Pair(1, 7)), Srem(Pair(1, 7)), Add(Pair(2, 7)), Decr(0), Decr(0)];
      var s := State(Cache({}, map[]), []);
      && ValidSteps(s, steps)
      && Exec(s, steps) == State(Cache({Pair(2, 7)}, map[7 := 0]), [])
  {
    var steps := [Add(Pair(1, 7)), Srem(Pair(1, 7)), Srem(Pair(1, 7)), Add(Pair(2, 7)), Decr(0), Decr(0)];
    var s0 := State(Cache({}, map[]), []);
    var s1 := Do(s0, steps[0]);
    var s2 := Do(s1, steps[1]);
    var s3 := Do(s2, steps[2]);
    var s4 := Do(s3, steps[3]);
    var s5 := Do(s4, steps[4]);
    var s6 := Do(s5, steps[5]);
    assert steps[5..] == [Decr(0)] && steps[5..][1..] == [];
    assert ValidSteps(s5, steps[5..]) && Exec(s5, steps[5..]) == s6;
    assert steps[4..][1..] == steps[5..];
    assert steps[3..][1..] == steps[4..];
    assert ValidSteps(s3, steps[3..]) && Exec(s3, steps[3..]) == s6;
    assert steps[2..][1..] == steps[3..];
    assert steps[1..][1..] == steps[2..];
    assert ValidSteps(s1, steps[1..]) && Exec(s1, steps[1..]) == s6;
    assert s6.cache.members == {Pair(2, 7)};
    assert s6.pending == [];
  }
}
