/**
 When the pipeline behind the user counters loses nothing: which steps lose, which runs do not,
 that every state can come to rest without a loss, and what the counters then are.
 */
module HealthyCounters {
  import opened Prelude
  import opened CountConsumer
  import opened UserCounters
  import LikeConsumer

  // ---- Single steps ---------------------------------------------------------------------------

  /** Each of the six topics has a lane of its own. */
  lemma OneLanePerTopic(m: Msg, m': Msg)
    ensures LaneFor(m) < 6
    ensures LaneFor(m) == LaneFor(m') <==>
      || (m.Posted? && m'.Posted?) || (m.PostDeleted? && m'.PostDeleted?)
      || (m.Liked? && m'.Liked?) || (m.Unliked? && m'.Unliked?)
      || (m.Followed? && m'.Followed?) || (m.Unfollowed? && m'.Unfollowed?)
  {
  }

  /**
   A publish loses nothing if and only if the bus is open, the topic is subscribed and its
   channel has room; then exactly that channel gains the message, behind the earlier ones.
   */
  lemma PublishDeliversIff(c: Config, s: State, k: nat)
    requires Enabled(c, s, Publish(k))
    ensures var m, s' := s.owed[k], Do(c, s, Publish(k));
      var i, rest := LaneFor(m), s.owed[..k] + s.owed[k + 1..];
      && (s'.lost == s.lost <==> !s.busClosed && i < |s.lanes| && s.lanes[i].subscribed && |s.lanes[i].queue| < c.bufSize)
      && (s'.lost == s.lost ==>
            s' == s.(owed := rest, lanes := s.lanes[i := s.lanes[i].(queue := s.lanes[i].queue + [m])]))
      && (s'.lost != s.lost ==> s' == s.(owed := rest, lost := s.lost + DeltasOf(m)))
  {
    assert |DeltasOf(s.owed[k])| > 0;
  }

  /** What a step may lose: an undelivered publish, a delta given up, a failed update. */
  ghost predicate Loses(c: Config, s: State, step: Step)
    requires Enabled(c, s, step)
  {
    match step
    case Publish(k) =>
      var i := LaneFor(s.owed[k]);
      s.busClosed || i >= |s.lanes| || !s.lanes[i].subscribed || |s.lanes[i].queue| >= c.bufSize
    case Discard(_) => true
    case UpdateUser(u, succeeds) => u in s.users && !succeeds
    case _ => false
  }

  lemma StepLosesIff(c: Config, s: State, step: Step)
    requires Enabled(c, s, step)
    ensures var lost := Do(c, s, step).lost; if Loses(c, s, step) then |lost| > |s.lost| else lost == s.lost
    ensures step.Discard? ==> s.cancelled
  {
    if step.Publish? {
      PublishDeliversIff(c, s, step.k);
    }
  }

  /** Only a change of the rows or of the like set touches them, and it does what it says. */
  lemma StepTables(c: Config, s: State, step: Step, p: int, q: LikeConsumer.Pair, e: Edge)
    requires Enabled(c, s, step)
    ensures var t, t' := s.tables, Do(c, s, step).tables;
      && (p in t'.posts <==> step == Commit(CreatePost(p)) || (p in t.posts && step != Commit(DeletePost(p))))
      && (q in t'.likes <==> step == Commit(FlipLike(q)) || (q in t.likes && step != Commit(FlipUnlike(q))))
      && (e in t'.follows <==> step == Commit(Follow(e)) || (e in t.follows && step != Commit(Unfollow(e))))
  {
    if !step.Commit? {
      OtherStepsKeepTables(c, s, step);
    }
  }

  lemma OtherStepsKeepTables(c: Config, s: State, step: Step)
    requires Enabled(c, s, step) && !step.Commit?
    ensures Do(c, s, step).tables == s.tables
    ensures Do(c, s, step).extra == s.extra
  {
  }

  /** A post can be created or else deleted, a row inserted or else removed, and the like set flipped either way, at any time. */
  lemma ChangesGoThrough(c: Config, s: State, p: int, q: LikeConsumer.Pair, e: Edge)
    ensures Enabled(c, s, Commit(CreatePost(p))) <==> p !in s.tables.posts
    ensures Enabled(c, s, Commit(DeletePost(p))) <==> p in s.tables.posts
    ensures Enabled(c, s, Commit(FlipLike(q))) && Enabled(c, s, Commit(FlipUnlike(q)))
    ensures e.follower != e.following ==> (Enabled(c, s, Commit(Follow(e))) <==> e !in s.tables.follows)
    ensures Enabled(c, s, Commit(Unfollow(e))) <==> e in s.tables.follows
  {
  }

  /** No channel ever holds more than its capacity. */
  ghost predicate WithinCapacity(c: Config, s: State) {
    |s.eventCh| <= c.eventCap && forall i :: 0 <= i < |s.lanes| ==> |s.lanes[i].queue| <= c.bufSize
  }

  lemma StepKeepsCapacity(c: Config, s: State, step: Step)
    requires Enabled(c, s, step) && WithinCapacity(c, s)
    ensures WithinCapacity(c, Do(c, s, step))
  {
    if step.Publish? {
      PublishDeliversIff(c, s, step.k);
    }
  }

  /** A shutdown can begin at any time, and neither the bus nor the cancellation comes back from it. */
  lemma {:induction false} ShutdownIsFinal(c: Config, s: State, steps: seq<Step>)
    requires ValidSteps(c, s, steps)
    ensures Enabled(c, s, CloseBus) && Do(c, s, CloseBus).busClosed && Enabled(c, s, Cancel) && Do(c, s, Cancel).cancelled
    ensures s.busClosed ==> Exec(c, s, steps).busClosed
    ensures s.cancelled ==> Exec(c, s, steps).cancelled
    ensures WithinCapacity(c, s) ==> WithinCapacity(c, Exec(c, s, steps))
    decreases steps
  {
    if steps != [] {
      SwitchesStay(c, s, steps[0]);
      if WithinCapacity(c, s) {
        StepKeepsCapacity(c, s, steps[0]);
      }
      ShutdownIsFinal(c, Do(c, s, steps[0]), steps[1..]);
    }
  }

  lemma SwitchesStay(c: Config, s: State, step: Step)
    requires Enabled(c, s, step)
    ensures s.busClosed ==> Do(c, s, step).busClosed
    ensures s.cancelled ==> Do(c, s, step).cancelled
  {
  }

  /** A successful update adds the user's deltas of the flush to each column and stops at zero. */
  lemma UpdateIsClamped(c: Config, s: State, u: int, v: int, col: Column)
    requires Enabled(c, s, UpdateUser(u, true)) && u in s.users && v in s.users
    ensures var s', was := Do(c, s, UpdateUser(u, true)), Value(s.users[v], col);
      var sum := was + if u == v then Net(s.flush.value.ds, u, col) else 0;
      && v in s'.users && Value(s'.users[v], col) == (if sum < 0 then 0 else sum)
      && At(s'.clampLoss, (v, col)) == At(s.clampLoss, (v, col)) + if sum < 0 then -sum else 0
  {
    var m := BufferedMaps(s.flush.value.ds);
    BufferedNet(s.flush.value.ds, u, col);
    ClampsAt(s.clampLoss, u, s.users[u], m, v, col);
    UpdatedValue(s.users[u], m, u, col);
    assert DeltaMap(m, col) == Buffered(s.flush.value.ds, col);
  }

  // ---- Runs that lose nothing -----------------------------------------------------------------

  ghost predicate LossFree(c: Config, s: State, steps: seq<Step>)
    requires ValidSteps(c, s, steps)
    decreases steps
  {
    steps == [] || (!Loses(c, s, steps[0]) && LossFree(c, Do(c, s, steps[0]), steps[1..]))
  }

  /** A run loses nothing if and only if none of its steps does. */
  lemma {:induction false} RunLosesIff(c: Config, s: State, steps: seq<Step>)
    requires ValidSteps(c, s, steps)
    ensures |Exec(c, s, steps).lost| >= |s.lost|
    ensures Exec(c, s, steps).lost == s.lost <==> LossFree(c, s, steps)
    decreases steps
  {
    if steps != [] {
      StepLosesIff(c, s, steps[0]);
      RunLosesIff(c, Do(c, s, steps[0]), steps[1..]);
    }
  }

  /** The bus is open, all six topics are subscribed, and nobody has asked for a shutdown. */
  ghost predicate Up(s: State) {
    !s.busClosed && !s.cancelled && |s.lanes| == 6 && forall i :: 0 <= i < 6 ==> s.lanes[i].subscribed
  }

  /** Nothing is shut down, every update succeeds, and a publish finds room in its topic's channel. */
  ghost predicate Harmless(c: Config, s: State, step: Step)
    requires Enabled(c, s, step)
  {
    && !step.CloseBus? && !step.Unsubscribe? && !step.Cancel?
    && (step.UpdateUser? ==> step.succeeds)
    && (step.Publish? && LaneFor(s.owed[step.k]) < |s.lanes| ==> |s.lanes[LaneFor(s.owed[step.k])].queue| < c.bufSize)
  }

  ghost predicate Healthy(c: Config, s: State, steps: seq<Step>)
    requires ValidSteps(c, s, steps)
    decreases steps
  {
    steps == [] || (Harmless(c, s, steps[0]) && Healthy(c, Do(c, s, steps[0]), steps[1..]))
  }

  lemma HarmlessStep(c: Config, s: State, step: Step)
    requires Enabled(c, s, step) && Up(s) && Harmless(c, s, step)
    ensures Up(Do(c, s, step)) && !Loses(c, s, step)
  {
    if step.Publish? {
      PublishDeliversIff(c, s, step.k);
    }
  }

  /** With everything up, room at every publish and no failed update, no run loses anything. */
  lemma {:induction false} HealthyRunLosesNothing(c: Config, s: State, steps: seq<Step>)
    requires ValidSteps(c, s, steps) && Up(s) && Healthy(c, s, steps)
    ensures Exec(c, s, steps).lost == s.lost && Up(Exec(c, s, steps))
    decreases steps
  {
    if steps != [] {
      HarmlessStep(c, s, steps[0]);
      StepLosesIff(c, s, steps[0]);
      HealthyRunLosesNothing(c, Do(c, s, steps[0]), steps[1..]);
    }
  }

  // ---- Likes announced in vain, and clamps ---------------------------------------------------

  /** One more for a like of a pair that was liked, one less for an unlike of one that was not. */
  ghost function VainOf(c: Config, s: State, step: Step, u: int): int {
    match step
    case Commit(FlipLike(q)) => if q in s.tables.likes && c.authorOf(q.post) == u then 1 else 0
    case Commit(FlipUnlike(q)) => if q !in s.tables.likes && c.authorOf(q.post) == u then -1 else 0
    case _ => 0
  }

  ghost function Vain(c: Config, s: State, steps: seq<Step>, u: int): int
    requires ValidSteps(c, s, steps)
    decreases steps
  {
    if steps == [] then 0 else VainOf(c, s, steps[0], u) + Vain(c, Do(c, s, steps[0]), steps[1..], u)
  }

  lemma StepIsVain(c: Config, s: State, step: Step, u: int, col: Column)
    requires Enabled(c, s, step)
    ensures Net(Do(c, s, step).extra, u, col) == Net(s.extra, u, col) + if col.TotalLikes? then VainOf(c, s, step, u) else 0
  {
    if !step.Commit? {
      OtherStepsKeepTables(c, s, step);
    } else if Idle(s.tables, step.ch) {
      NetAppend(s.extra, DeltasOf(MsgFor(c, step.ch)), u, col);
      MsgNetValue(MsgFor(c, step.ch), u, col);
    }
  }

  lemma {:induction false} RunIsVain(c: Config, s: State, steps: seq<Step>, u: int, col: Column)
    requires ValidSteps(c, s, steps)
    ensures Net(Exec(c, s, steps).extra, u, col) == Net(s.extra, u, col) + if col.TotalLikes? then Vain(c, s, steps, u) else 0
    decreases steps
  {
    if steps != [] {
      StepIsVain(c, s, steps[0], u, col);
      RunIsVain(c, Do(c, s, steps[0]), steps[1..], u, col);
    }
  }

  /** No update of the user takes the column below zero. */
  ghost predicate StaysPositive(c: Config, s: State, steps: seq<Step>, u: int, col: Column)
    requires ValidSteps(c, s, steps)
    decreases steps
  {
    steps == [] || (
      && (steps[0] == UpdateUser(u, true) && u in s.users ==> Value(s.users[u], col) + Net(s.flush.value.ds, u, col) >= 0)
      && StaysPositive(c, Do(c, s, steps[0]), steps[1..], u, col))
  }

  lemma StepClampsIff(c: Config, s: State, step: Step, u: int, col: Column)
    requires Enabled(c, s, step)
    ensures At(Do(c, s, step).clampLoss, (u, col)) >= At(s.clampLoss, (u, col))
    ensures At(Do(c, s, step).clampLoss, (u, col)) == At(s.clampLoss, (u, col)) <==>
      (step == UpdateUser(u, true) && u in s.users ==> Value(s.users[u], col) + Net(s.flush.value.ds, u, col) >= 0)
  {
    if step == UpdateUser(u, true) && u in s.users {
      UpdateIsClamped(c, s, u, u, col);
    } else if step.UpdateUser? && step.u in s.users {
      ClampsAt(s.clampLoss, step.u, s.users[step.u], BufferedMaps(s.flush.value.ds), u, col);
    }
  }

  lemma {:induction false} RunClampsIff(c: Config, s: State, steps: seq<Step>, u: int, col: Column)
    requires ValidSteps(c, s, steps)
    ensures At(Exec(c, s, steps).clampLoss, (u, col)) >= At(s.clampLoss, (u, col))
    ensures At(Exec(c, s, steps).clampLoss, (u, col)) == At(s.clampLoss, (u, col)) <==> StaysPositive(c, s, steps, u, col)
    decreases steps
  {
    if steps != [] {
      StepClampsIff(c, s, steps[0], u, col);
      RunClampsIff(c, Do(c, s, steps[0]), steps[1..], u, col);
    }
  }

  // ---- What the counters are at rest ------------------------------------------------------------

  /** Each column by name, with the amount its clamps added and the likes announced in vain. */
  ghost predicate Accurate(c: Config, s: State, u: int, vain: int) {
    && u in s.users
    && s.users[u].postCount == |set p | p in s.tables.posts && c.authorOf(p) == u| + At(s.clampLoss, (u, PostCount))
    && s.users[u].totalLikes
         == |set q | q in s.tables.likes && c.authorOf(q.post) == u| + vain + At(s.clampLoss, (u, TotalLikes))
    && s.users[u].followerCount == |set e | e in s.tables.follows && e.following == u| + At(s.clampLoss, (u, FollowerCount))
    && s.users[u].followingCount == |set e | e in s.tables.follows && e.follower == u| + At(s.clampLoss, (u, FollowingCount))
  }

  ghost predicate ColumnAccurate(c: Config, s: State, u: int, col: Column, vain: int) {
    && u in s.users
    && Value(s.users[u], col) == RowCount(c, s.tables, u, col) + At(s.clampLoss, (u, col)) + if col.TotalLikes? then vain else 0
  }

  lemma ColumnsByName(c: Config, s: State, u: int, vain: int)
    requires forall col :: ColumnAccurate(c, s, u, col, vain)
    ensures Accurate(c, s, u, vain)
  {
    assert ColumnAccurate(c, s, u, PostCount, vain) && ColumnAccurate(c, s, u, TotalLikes, vain);
    assert ColumnAccurate(c, s, u, FollowerCount, vain) && ColumnAccurate(c, s, u, FollowingCount, vain);
    assert Value(s.users[u], PostCount) == s.users[u].postCount;
    assert Value(s.users[u], TotalLikes) == s.users[u].totalLikes;
    assert Value(s.users[u], FollowerCount) == s.users[u].followerCount;
    assert Value(s.users[u], FollowingCount) == s.users[u].followingCount;
    assert PostsOf(c, s.tables.posts, u) == set p | p in s.tables.posts && c.authorOf(p) == u;
    assert LikesFor(c, s.tables.likes, u) == set q | q in s.tables.likes && c.authorOf(q.post) == u;
    assert FollowersOf(s.tables.follows, u) == set e | e in s.tables.follows && e.following == u;
    assert FollowedBy(s.tables.follows, u) == set e | e in s.tables.follows && e.follower == u;
  }

  /**
   A healthy run from agreement that has come to rest: each counter is what it counts, but for
   clamps and, in `total_likes`, vain announcements; and a column has a clamp in it if and only
   if some update of the user would have taken it below zero.
   */
  lemma HealthyAtRest(c: Config, s: State, steps: seq<Step>, u: int)
    requires Initial(c, s) && Up(s) && ValidSteps(c, s, steps) && Healthy(c, s, steps) && u in s.users
    requires Quiescent(Exec(c, s, steps))
    ensures Accurate(c, Exec(c, s, steps), u, Vain(c, s, steps, u))
    ensures forall col :: At(Exec(c, s, steps).clampLoss, (u, col)) == 0 <==> StaysPositive(c, s, steps, u, col)
  {
    var s' := Exec(c, s, steps);
    forall col
      ensures ColumnAccurate(c, s', u, col, Vain(c, s, steps, u))
      ensures At(s'.clampLoss, (u, col)) == 0 <==> StaysPositive(c, s, steps, u, col)
    {
      CountersAtRest(c, s, steps, u, col);
      HealthyRunLosesNothing(c, s, steps);
      RunIsVain(c, s, steps, u, col);
      RunClampsIff(c, s, steps, u, col);
    }
    ColumnsByName(c, s', u, Vain(c, s, steps, u));
  }

  // ---- Coming to rest -----------------------------------------------------------------------------

  function InQueue(lanes: seq<Lane>): nat {
    if lanes == [] then 0 else InQueue(lanes[..|lanes| - 1]) + |lanes[|lanes| - 1].queue|
  }

  function InHand(lanes: seq<Lane>): nat {
    if lanes == [] then 0 else InHand(lanes[..|lanes| - 1]) + |lanes[|lanes| - 1].hand|
  }

  lemma {:induction false} LaneReplaced(lanes: seq<Lane>, i: nat, l: Lane)
    requires i < |lanes|
    ensures InQueue(lanes[i := l]) == InQueue(lanes) - |lanes[i].queue| + |l.queue|
    ensures InHand(lanes[i := l]) == InHand(lanes) - |lanes[i].hand| + |l.hand|
  {
    var n := |lanes| - 1;
    if i == n {
      assert lanes[i := l][..n] == lanes[..n];
    } else {
      LaneReplaced(lanes[..n], i, l);
      assert lanes[i := l][..n] == lanes[..n][i := l];
    }
  }

  function FlushLeft(f: Option<Flush>): nat {
    if f.None? then 0 else |f.value.left| + 1
  }

  /** Something the pipeline itself can do next without a loss, nearest to the table first. */
  lemma NextStep(c: Config, s: State) returns (step: Step)
    requires Up(s) && c.bufSize > 0 && c.eventCap > 0 && !Quiescent(s)
    ensures Enabled(c, s, step) && !step.Commit? && Harmless(c, s, step)
    ensures step.Take? || step.Send? || step.Publish? || step.Receive? || step.BeginFlush? || step.UpdateUser? || step.EndFlush?
  {
    if s.flush.Some? {
      if s.flush.value.left == {} {
        step := EndFlush;
      } else {
        step := UpdateUser(Any(s.flush.value.left), true);
      }
    } else if s.eventCh != [] {
      step := Receive;
    } else if i :| 0 <= i < |s.lanes| && s.lanes[i].hand != [] {
      step := Send(i);
    } else if i :| 0 <= i < |s.lanes| && s.lanes[i].queue != [] {
      step := Take(i);
    } else if s.owed != [] {
      step := Publish(0);
      OneLanePerTopic(s.owed[0], s.owed[0]);
    } else {
      step := BeginFlush;
    }
  }

  /** What is left to do, owed first: each of the pipeline's own steps takes from it. */
  ghost predicate Less(s': State, s: State) {
    || |s'.owed| < |s.owed|
    || (|s'.owed| == |s.owed| &&
        (InQueue(s'.lanes) < InQueue(s.lanes)
         || (InQueue(s'.lanes) == InQueue(s.lanes) &&
             (InHand(s'.lanes) < InHand(s.lanes)
              || (InHand(s'.lanes) == InHand(s.lanes) &&
                  (|s'.eventCh| < |s.eventCh|
                   || (|s'.eventCh| == |s.eventCh| &&
                       (|s'.batch| < |s.batch|
                        || (|s'.batch| == |s.batch| && FlushLeft(s'.flush) < FlushLeft(s.flush))))))))))
  }

  lemma OwnStepIsLess(c: Config, s: State, step: Step)
    requires Enabled(c, s, step) && (step.Publish? || step.Receive? || step.BeginFlush? || step.UpdateUser? || step.EndFlush?)
    ensures Less(Do(c, s, step), s)
  {
    if step.UpdateUser? {
      UpdateIsLess(c, s, step.u, step.succeeds);
    }
  }

  lemma UpdateIsLess(c: Config, s: State, u: int, succeeds: bool)
    requires Enabled(c, s, UpdateUser(u, succeeds))
    ensures Less(Do(c, s, UpdateUser(u, succeeds)), s)
  {
    var s' := Do(c, s, UpdateUser(u, succeeds));
    assert s'.owed == s.owed && s'.lanes == s.lanes && s'.eventCh == s.eventCh && s'.batch == s.batch;
  }

  lemma LaneStepIsLess(c: Config, s: State, step: Step)
    requires Enabled(c, s, step) && (step.Take? || step.Send?)
    ensures Less(Do(c, s, step), s)
  {
    LaneReplaced(s.lanes, step.i, if step.Take? then Taken(s.lanes[step.i]) else Popped(s.lanes[step.i]));
  }

  /**
   From every state with everything up, some healthy run without a further change comes to
   rest: nothing in the pipeline can block it for good.
   */
  lemma {:induction false} CanComeToRest(c: Config, s: State) returns (steps: seq<Step>)
    requires Up(s) && c.bufSize > 0 && c.eventCap > 0
    ensures ValidSteps(c, s, steps) && Healthy(c, s, steps)
    ensures Quiescent(Exec(c, s, steps)) && Exec(c, s, steps).tables == s.tables
    decreases |s.owed|, InQueue(s.lanes), InHand(s.lanes), |s.eventCh|, |s.batch|, FlushLeft(s.flush)
  {
    steps := [];
    if !Quiescent(s) {
      var step := NextStep(c, s);
      HarmlessStep(c, s, step);
      OtherStepsKeepTables(c, s, step);
      if step.Take? || step.Send? {
        LaneStepIsLess(c, s, step);
      } else {
        OwnStepIsLess(c, s, step);
      }
      var rest := CanComeToRest(c, Do(c, s, step));
      steps := [step] + rest;
      StartsWith(c, s, step, rest);
    }
  }

  lemma HeadAgain<T>(a: seq<T>, b: seq<T>)
    requires a != []
    ensures [a[0]] + (a[1..] + b) == a + b
  {
  }

  lemma StartsWith(c: Config, s: State, step: Step, rest: seq<Step>)
    requires Enabled(c, s, step) && Harmless(c, s, step)
    requires ValidSteps(c, Do(c, s, step), rest) && Healthy(c, Do(c, s, step), rest)
    ensures ValidSteps(c, s, [step] + rest) && Healthy(c, s, [step] + rest)
    ensures Exec(c, s, [step] + rest) == Exec(c, Do(c, s, step), rest)
  {
    assert ([step] + rest)[0] == step && ([step] + rest)[1..] == rest;
  }

  lemma {:induction false} RunOn(c: Config, s: State, steps: seq<Step>, rest: seq<Step>)
    requires ValidSteps(c, s, steps) && Healthy(c, s, steps)
    requires ValidSteps(c, Exec(c, s, steps), rest) && Healthy(c, Exec(c, s, steps), rest)
    ensures ValidSteps(c, s, steps + rest) && Healthy(c, s, steps + rest)
    ensures Exec(c, s, steps + rest) == Exec(c, Exec(c, s, steps), rest)
    decreases steps
  {
    if steps == [] {
      assert steps + rest == rest;
    } else {
      RunOn(c, Do(c, s, steps[0]), steps[1..], rest);
      StartsWith(c, s, steps[0], steps[1..] + rest);
      HeadAgain(steps, rest);
    }
  }

  /**
   Eventual agreement: after any healthy run from agreement, some further healthy steps that
   change neither rows nor likes make every counter what it counts, but for clamps and vain
   announcements.
   */
  lemma CountersCatchUp(c: Config, s: State, steps: seq<Step>) returns (rest: seq<Step>)
    requires Initial(c, s) && Up(s) && ValidSteps(c, s, steps) && Healthy(c, s, steps)
    requires c.bufSize > 0 && c.eventCap > 0
    ensures ValidSteps(c, s, steps + rest) && Healthy(c, s, steps + rest)
    ensures var s' := Exec(c, s, steps + rest);
      && Quiescent(s') && s'.tables == Exec(c, s, steps).tables
      && forall u :: u in s.users ==> Accurate(c, s', u, Vain(c, s, steps + rest, u))
  {
    HealthyRunLosesNothing(c, s, steps);
    rest := CanComeToRest(c, Exec(c, s, steps));
    RunOn(c, s, steps, rest);
    forall u | u in s.users
      ensures Accurate(c, Exec(c, s, steps + rest), u, Vain(c, s, steps + rest, u))
    {
      HealthyAtRest(c, s, steps + rest, u);
    }
  }
}
