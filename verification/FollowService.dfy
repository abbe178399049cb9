/**
 Follow and Unfollow: the calls themselves, and the interleavings of their separate
 statements (exists check, cap check, insert or delete, publish).
 */
module FollowService {
  import opened Prelude
  import opened UserCounters

  datatype Outcome = Following(following: bool) | CannotFollowSelf | UserNotFound | FollowLimitExceeded | FollowNotFound

  // ---- One call at a time -----------------------------------------------------------------

  class Service {
    const users: set<int>
    const maxFollowing: nat
    var follows: set<Edge>
    /** Users whose write marker was stamped, and messages handed to the bus, in order. */
    var marked: seq<int>
    var published: seq<Msg>

    ghost predicate CapHolds()
      reads this
    {
      forall u :: |FollowedBy(follows, u)| <= maxFollowing
    }

    ghost predicate Valid()
      reads this
    {
      KnownTargets(users, follows)
    }

    constructor (users: set<int>, maxFollowing: nat)
      ensures this.users == users && this.maxFollowing == maxFollowing
      ensures follows == {} && marked == [] && published == [] && CapHolds() && Valid()
    {
      this.users, this.maxFollowing := users, maxFollowing;
      follows, marked, published := {}, [], [];
    }

    method Follow(followerID: int, targetID: int) returns (r: Outcome)
      modifies this
      ensures r == CannotFollowSelf <==> followerID == targetID
      ensures r == UserNotFound <==> followerID != targetID && targetID !in users
      ensures r == FollowLimitExceeded <==>
        && followerID != targetID && targetID in users && Edge(followerID, targetID) !in old(follows)
        && |set e | e in old(follows) && e.follower == followerID| >= maxFollowing
      ensures r == Following(true) <==>
        && followerID != targetID && targetID in users
        && (Edge(followerID, targetID) in old(follows) || |set e | e in old(follows) && e.follower == followerID| < maxFollowing)
      ensures r == Following(true) ==> follows == old(follows) + {Edge(followerID, targetID)}
      ensures r != Following(true) ==> follows == old(follows)
      ensures old(CapHolds()) ==> CapHolds()
      ensures old(Valid()) ==> Valid()
      ensures marked == old(marked) + if follows == old(follows) then [] else [followerID, targetID]
      ensures published == old(published) +
        if follows == old(follows) then [] else [Followed(Edge(followerID, targetID))]
    {
      var e := Edge(followerID, targetID);
      assert FollowedBy(follows, followerID) == set x | x in follows && x.follower == followerID;
      if followerID == targetID {
        return CannotFollowSelf;
      }
      if targetID !in users {
        return UserNotFound;
      }
      var already := e in follows;
      if already {
        assert follows + {e} == follows;
        return Following(true);
      }
      var cnt := |FollowedBy(follows, followerID)|;
      if cnt >= maxFollowing {
        return FollowLimitExceeded;
      }
      forall u
        ensures |FollowedBy(follows + {e}, u)| == |FollowedBy(follows, u)| + if u == followerID then 1 else 0
      {
        FollowingCounts(follows, e, u);
      }
      follows := follows + {e};
      marked := marked + [followerID, targetID];
      published := published + [Followed(e)];
      r := Following(true);
    }

    method Unfollow(followerID: int, targetID: int) returns (r: Outcome)
      modifies this
      ensures r == if Edge(followerID, targetID) in old(follows) then Following(false) else FollowNotFound
      ensures follows == old(follows) - {Edge(followerID, targetID)}
      ensures old(CapHolds()) ==> CapHolds()
      ensures old(Valid()) ==> Valid()
      ensures marked == old(marked) + if follows == old(follows) then [] else [followerID, targetID]
      ensures published == old(published) +
        if follows == old(follows) then [] else [Unfollowed(Edge(followerID, targetID))]
    {
      var e := Edge(followerID, targetID);
      var deleted := e in follows;
      forall u
        ensures |FollowedBy(follows - {e}, u)| <= |FollowedBy(follows, u)|
      {
        SubsetSize(FollowedBy(follows - {e}, u), FollowedBy(follows, u));
      }
      follows := follows - {e};
      if !deleted {
        return FollowNotFound;
      }
      marked := marked + [followerID, targetID];
      published := published + [Unfollowed(e)];
      r := Following(false);
    }
  }

  /** Every row leads to a user that exists, and nobody follows themselves. */
  ghost predicate KnownTargets(users: set<int>, follows: set<Edge>) {
    forall e :: e in follows ==> e.following in users && e.follower != e.following
  }

  // ---- Calls in flight ---------------------------------------------------------------------

  /** Where a call is: before its exists check, its cap check, its insert, or its publish. */
  datatype Call = Begun(e: Edge) | Absent(e: Edge) | Admitted(e: Edge) | Owing(m: Msg)

  datatype Calls = Calls(follows: set<Edge>, running: map<nat, Call>, published: seq<Msg>)

  datatype Action =
    | Begin(id: nat, e: Edge)
    | CheckExists(id: nat)
    | CheckCap(id: nat)
    | Insert(id: nat)
    | Delete(id: nat, e: Edge)
    | Emit(id: nat)

  predicate May(users: set<int>, s: Calls, a: Action) {
    match a
    case Begin(id, e) => id !in s.running && e.follower != e.following && e.following in users
    case CheckExists(id) => id in s.running && s.running[id].Begun?
    case CheckCap(id) => id in s.running && s.running[id].Absent?
    case Insert(id) => id in s.running && s.running[id].Admitted?
    case Delete(id, _) => id !in s.running
    case Emit(id) => id in s.running && s.running[id].Owing?
  }

  function Act(users: set<int>, max: nat, s: Calls, a: Action): Calls
    requires May(users, s, a)
  {
    match a
    case Begin(id, e) => s.(running := s.running[id := Begun(e)])
    case CheckExists(id) =>
      var e := s.running[id].e;
      s.(running := if e in s.follows then s.running - {id} else s.running[id := Absent(e)])
    case CheckCap(id) =>
      var e := s.running[id].e;
      s.(running := if |FollowedBy(s.follows, e.follower)| >= max then s.running - {id} else s.running[id := Admitted(e)])
    case Insert(id) =>
      var e := s.running[id].e;
      if e in s.follows then s.(running := s.running - {id})
      else s.(follows := s.follows + {e}, running := s.running[id := Owing(Followed(e))])
    case Delete(id, e) =>
      if e !in s.follows then s
      else s.(follows := s.follows - {e}, running := s.running[id := Owing(Unfollowed(e))])
    case Emit(id) => s.(running := s.running - {id}, published := s.published + [s.running[id].m])
  }

  predicate MayAll(users: set<int>, max: nat, s: Calls, run: seq<Action>)
    decreases run
  {
    run == [] || (May(users, s, run[0]) && MayAll(users, max, Act(users, max, s, run[0]), run[1..]))
  }

  function ActAll(users: set<int>, max: nat, s: Calls, run: seq<Action>): Calls
    requires MayAll(users, max, s, run)
    decreases run
  {
    if run == [] then s else ActAll(users, max, Act(users, max, s, run[0]), run[1..])
  }

  // ---- What a call does on its own ---------------------------------------------------------------

  /** A Follow of a row that is there ends at the first check. */
  lemma FollowAgain(users: set<int>, max: nat, s: Calls, id: nat, e: Edge)
    requires id !in s.running && e.follower != e.following && e.following in users && e in s.follows
    ensures MayAll(users, max, s, [Begin(id, e), CheckExists(id)])
    ensures ActAll(users, max, s, [Begin(id, e), CheckExists(id)]) == s
  {
    var s1 := s.(running := s.running[id := Begun(e)]);
    assert s.running[id := Begun(e)] - {id} == s.running;
    Two(users, max, s, s1, s, Begin(id, e), CheckExists(id));
  }

  lemma Two(users: set<int>, max: nat, s: Calls, s1: Calls, s2: Calls, a: Action, b: Action)
    requires May(users, s, a) && Act(users, max, s, a) == s1 && May(users, s1, b) && Act(users, max, s1, b) == s2
    ensures MayAll(users, max, s, [a, b]) && ActAll(users, max, s, [a, b]) == s2
  {
    assert [a, b][1..] == [b] && [b][1..] == [];
    assert MayAll(users, max, s1, [b]) && ActAll(users, max, s1, [b]) == s2;
  }

  /** One at the cap ends at the second. */
  lemma FollowAtCap(users: set<int>, max: nat, s: Calls, id: nat, e: Edge)
    requires id !in s.running && e.follower != e.following && e.following in users && e !in s.follows
    requires |set x | x in s.follows && x.follower == e.follower| >= max
    ensures MayAll(users, max, s, [Begin(id, e), CheckExists(id), CheckCap(id)])
    ensures ActAll(users, max, s, [Begin(id, e), CheckExists(id), CheckCap(id)]) == s
  {
    assert FollowedBy(s.follows, e.follower) == set x | x in s.follows && x.follower == e.follower;
    var s1, s2 := s.(running := s.running[id := Begun(e)]), s.(running := s.running[id := Absent(e)]);
    assert s.running[id := Begun(e)][id := Absent(e)] == s.running[id := Absent(e)];
    assert s.running[id := Absent(e)] - {id} == s.running;
    Two(users, max, s1, s2, s, CheckExists(id), CheckCap(id));
    assert [Begin(id, e), CheckExists(id), CheckCap(id)][1..] == [CheckExists(id), CheckCap(id)];
  }

  /** One below the cap inserts its row and publishes it. */
  lemma FollowAnew(users: set<int>, max: nat, s: Calls, id: nat, e: Edge)
    requires id !in s.running && e.follower != e.following && e.following in users && e !in s.follows
    requires |set x | x in s.follows && x.follower == e.follower| < max
    ensures MayAll(users, max, s, [Begin(id, e), CheckExists(id), CheckCap(id), Insert(id), Emit(id)])
    ensures ActAll(users, max, s, [Begin(id, e), CheckExists(id), CheckCap(id), Insert(id), Emit(id)])
      == Calls(s.follows + {e}, s.running, s.published + [Followed(e)])
  {
    assert FollowedBy(s.follows, e.follower) == set x | x in s.follows && x.follower == e.follower;
    var s1, s2, s3 := AdmitOne(users, max, s, id, e);
    var s4 := s3.(follows := s.follows + {e}, running := s.running[id := Owing(Followed(e))]);
    var s5 := Calls(s.follows + {e}, s.running, s.published + [Followed(e)]);
    assert s3.running[id := Owing(Followed(e))] == s.running[id := Owing(Followed(e))];
    assert s.running[id := Owing(Followed(e))] - {id} == s.running;
    Two(users, max, s3, s4, s5, Insert(id), Emit(id));
    Before(users, max, s2, s3, s5, CheckCap(id), [Insert(id), Emit(id)]);
    Before(users, max, s1, s2, s5, CheckExists(id), [CheckCap(id), Insert(id), Emit(id)]);
    Before(users, max, s, s1, s5, Begin(id, e), [CheckExists(id), CheckCap(id), Insert(id), Emit(id)]);
    assert [CheckCap(id)] + [Insert(id), Emit(id)] == [CheckCap(id), Insert(id), Emit(id)];
    assert [CheckExists(id)] + [CheckCap(id), Insert(id), Emit(id)] == [CheckExists(id), CheckCap(id), Insert(id), Emit(id)];
    assert [Begin(id, e)] + [CheckExists(id), CheckCap(id), Insert(id), Emit(id)]
      == [Begin(id, e), CheckExists(id), CheckCap(id), Insert(id), Emit(id)];
  }

  lemma Before(users: set<int>, max: nat, s: Calls, s1: Calls, t: Calls, a: Action, rest: seq<Action>)
    requires May(users, s, a) && Act(users, max, s, a) == s1
    requires MayAll(users, max, s1, rest) && ActAll(users, max, s1, rest) == t
    ensures MayAll(users, max, s, [a] + rest) && ActAll(users, max, s, [a] + rest) == t
  {
    assert ([a] + rest)[0] == a && ([a] + rest)[1..] == rest;
  }

  /** An Unfollow removes a row that is there and publishes it, and does nothing else. */
  lemma UnfollowAlone(users: set<int>, max: nat, s: Calls, id: nat, e: Edge)
    requires id !in s.running
    ensures e !in s.follows ==> May(users, s, Delete(id, e)) && Act(users, max, s, Delete(id, e)) == s
    ensures e in s.follows ==>
      && MayAll(users, max, s, [Delete(id, e), Emit(id)])
      && ActAll(users, max, s, [Delete(id, e), Emit(id)]) == Calls(s.follows - {e}, s.running, s.published + [Unfollowed(e)])
  {
    if e in s.follows {
      var s1 := Calls(s.follows - {e}, s.running[id := Owing(Unfollowed(e))], s.published);
      var s2 := Calls(s.follows - {e}, s.running, s.published + [Unfollowed(e)]);
      assert s.running[id := Owing(Unfollowed(e))] - {id} == s.running;
      Two(users, max, s, s1, s2, Delete(id, e), Emit(id));
    }
  }

  /** Rows and open Follow calls lead to known users only. */
  ghost predicate KnownCalls(users: set<int>, s: Calls) {
    && KnownTargets(users, s.follows)
    && forall id :: id in s.running && !s.running[id].Owing? ==>
         s.running[id].e.following in users && s.running[id].e.follower != s.running[id].e.following
  }

  /** However calls interleave, no row leads to an unknown user or back to its owner. */
  lemma {:induction false} TargetsStayKnown(users: set<int>, max: nat, s: Calls, run: seq<Action>)
    requires MayAll(users, max, s, run) && KnownCalls(users, s)
    ensures KnownCalls(users, ActAll(users, max, s, run))
    decreases run
  {
    if run != [] {
      TargetsStayKnown(users, max, Act(users, max, s, run[0]), run[1..]);
    }
  }

  /** The Follow calls of a user that have begun and not yet inserted. */
  function Open(s: Calls, u: int): set<nat> {
    set id | id in s.running && !s.running[id].Owing? && s.running[id].e.follower == u
  }

  /** Those of them that have passed the cap check. */
  function Passed(s: Calls, u: int): set<nat> {
    set id | id in s.running && s.running[id].Admitted? && s.running[id].e.follower == u
  }

  /** No state of the run has more than `k` open Follow calls of the user. */
  ghost predicate AtMost(users: set<int>, max: nat, s: Calls, run: seq<Action>, u: int, k: nat)
    requires MayAll(users, max, s, run)
    decreases run
  {
    |Open(s, u)| <= k && (run != [] ==> AtMost(users, max, Act(users, max, s, run[0]), run[1..], u, k))
  }

  ghost predicate WithinCap(max: nat, s: Calls, u: int, k: nat) {
    |FollowedBy(s.follows, u)| + |Passed(s, u)| <= max + k - 1
  }

  lemma CapCheckStep(users: set<int>, max: nat, s: Calls, id: nat, u: int, k: nat)
    requires k > 0 && May(users, s, CheckCap(id)) && WithinCap(max, s, u, k)
    requires |Open(Act(users, max, s, CheckCap(id)), u)| <= k
    ensures WithinCap(max, Act(users, max, s, CheckCap(id)), u, k)
  {
    var s' := Act(users, max, s, CheckCap(id));
    SubsetSize(Passed(s', u), Open(s', u));
    if s.running[id].e.follower != u || |FollowedBy(s.follows, u)| >= max {
      assert Passed(s', u) == Passed(s, u);
    }
  }

  lemma InsertStep(users: set<int>, max: nat, s: Calls, id: nat, u: int, k: nat)
    requires May(users, s, Insert(id)) && WithinCap(max, s, u, k)
    ensures WithinCap(max, Act(users, max, s, Insert(id)), u, k)
  {
    var s' := Act(users, max, s, Insert(id));
    var e := s.running[id].e;
    assert Passed(s', u) == Passed(s, u) - {id};
    if e !in s.follows {
      FollowingCounts(s.follows, e, u);
      assert e.follower == u ==> id in Passed(s, u);
    }
  }

  lemma OtherStep(users: set<int>, max: nat, s: Calls, a: Action, u: int, k: nat)
    requires May(users, s, a) && WithinCap(max, s, u, k) && !a.CheckCap? && !a.Insert?
    ensures WithinCap(max, Act(users, max, s, a), u, k)
  {
    var s' := Act(users, max, s, a);
    assert Passed(s', u) == Passed(s, u);
    assert FollowedBy(s'.follows, u) <= FollowedBy(s.follows, u);
    SubsetSize(FollowedBy(s'.follows, u), FollowedBy(s.follows, u));
  }

  lemma CapStep(users: set<int>, max: nat, s: Calls, a: Action, u: int, k: nat)
    requires k > 0 && May(users, s, a) && WithinCap(max, s, u, k)
    requires |Open(Act(users, max, s, a), u)| <= k
    ensures WithinCap(max, Act(users, max, s, a), u, k)
  {
    if a.CheckCap? {
      CapCheckStep(users, max, s, a.id, u, k);
    } else if a.Insert? {
      InsertStep(users, max, s, a.id, u, k);
    } else {
      OtherStep(users, max, s, a, u, k);
    }
  }

  /**
   With at most k Follow calls of a user in flight, a user who starts within the cap never
   has more than maxFollowing + k - 1 rows, however checks and inserts interleave.
   */
  lemma {:induction false} CapUnderConcurrency(users: set<int>, max: nat, s: Calls, run: seq<Action>, u: int, k: nat)
    requires k > 0 && MayAll(users, max, s, run) && AtMost(users, max, s, run, u, k)
    requires WithinCap(max, s, u, k)
    ensures |FollowedBy(ActAll(users, max, s, run).follows, u)| <= max + k - 1
    decreases run
  {
    if run != [] {
      CapStep(users, max, s, run[0], u, k);
      CapUnderConcurrency(users, max, Act(users, max, s, run[0]), run[1..], u, k);
    }
  }

  // ---- The bound is reached -------------------------------------------------------------------

  /** A run that keeps to k open calls and ends with the given number of rows. */
  ghost predicate EndsWith(users: set<int>, max: nat, s: Calls, run: seq<Action>, u: int, k: nat, rows: int) {
    && MayAll(users, max, s, run) && AtMost(users, max, s, run, u, k)
    && |FollowedBy(ActAll(users, max, s, run).follows, u)| == rows
  }

  lemma StartWith(users: set<int>, max: nat, s: Calls, a: Action, rest: seq<Action>, u: int, k: nat, rows: int)
    requires May(users, s, a) && |Open(s, u)| <= k
    requires EndsWith(users, max, Act(users, max, s, a), rest, u, k, rows)
    ensures EndsWith(users, max, s, [a] + rest, u, k, rows)
  {
    assert ([a] + rest)[1..] == rest;
  }

  lemma OpenBound(s: Calls, u: int, k: nat)
    requires |s.running| <= k
    ensures |Open(s, u)| <= k
  {
    SubsetSize(Open(s, u), s.running.Keys);
  }

  /** Whom the overlapping calls are about: different users, none of them followed yet. */
  ghost predicate Fresh(users: set<int>, follows: set<Edge>, u: int, targets: seq<int>) {
    && (forall i :: 0 <= i < |targets| ==> targets[i] in users && targets[i] != u && Edge(u, targets[i]) !in follows)
    && forall i, j :: 0 <= i < j < |targets| ==> targets[i] != targets[j]
  }

  /** The calls from `j` on have passed both checks. */
  ghost predicate AllAdmitted(s: Calls, u: int, targets: seq<int>, from: nat, to: nat) {
    forall i: nat :: from <= i < to <= |targets| ==> i in s.running && s.running[i] == Admitted(Edge(u, targets[i]))
  }

  /** From here every insert goes through. */
  lemma {:induction false} InsertRest(users: set<int>, max: nat, s: Calls, u: int, targets: seq<int>, j: nat)
      returns (run: seq<Action>)
    requires j <= |targets| && AllAdmitted(s, u, targets, j, |targets|) && |s.running| <= |targets|
    requires Fresh(users, s.follows, u, targets[j..])
    ensures EndsWith(users, max, s, run, u, |targets|, |FollowedBy(s.follows, u)| + |targets| - j)
    decreases |targets| - j
  {
    OpenBound(s, u, |targets|);
    run := [];
    if j < |targets| {
      var s' := Act(users, max, s, Insert(j));
      assert targets[j..][0] == targets[j];
      FollowingCounts(s.follows, Edge(u, targets[j]), u);
      assert s'.running.Keys == s.running.Keys;
      assert targets[j + 1..] == targets[j..][1..];
      run := InsertRest(users, max, s', u, targets, j + 1);
      StartWith(users, max, s, Insert(j), run, u, |targets|, |FollowedBy(s.follows, u)| + |targets| - j);
      run := [Insert(j)] + run;
    }
  }

  /** The three checks of one more call, none of which the earlier ones can be seen by. */
  lemma AdmitOne(users: set<int>, max: nat, s: Calls, id: nat, e: Edge) returns (s1: Calls, s2: Calls, s3: Calls)
    requires id !in s.running && e !in s.follows && e.follower != e.following && e.following in users
    requires |FollowedBy(s.follows, e.follower)| < max
    ensures May(users, s, Begin(id, e)) && s1 == Act(users, max, s, Begin(id, e))
    ensures May(users, s1, CheckExists(id)) && s2 == Act(users, max, s1, CheckExists(id))
    ensures May(users, s2, CheckCap(id)) && s3 == Act(users, max, s2, CheckCap(id))
    ensures s3 == s.(running := s.running[id := Admitted(e)])
    ensures |s1.running| == |s2.running| == |s3.running| == |s.running| + 1
  {
    s1 := Act(users, max, s, Begin(id, e));
    s2 := Act(users, max, s1, CheckExists(id));
    s3 := Act(users, max, s2, CheckCap(id));
    assert s3.running == s.running[id := Admitted(e)];
  }

  lemma {:induction false} AdmitRest(users: set<int>, max: nat, s: Calls, u: int, targets: seq<int>, j: nat)
      returns (run: seq<Action>)
    requires j <= |targets| && AllAdmitted(s, u, targets, 0, j) && |s.running| == j
    requires forall id :: id in s.running ==> id < j
    requires Fresh(users, s.follows, u, targets) && |FollowedBy(s.follows, u)| < max
    ensures EndsWith(users, max, s, run, u, |targets|, |FollowedBy(s.follows, u)| + |targets|)
    decreases |targets| - j
  {
    if j == |targets| {
      assert targets[0..] == targets;
      run := InsertRest(users, max, s, u, targets, 0);
    } else {
      var k, e, rows := |targets|, Edge(u, targets[j]), |FollowedBy(s.follows, u)| + |targets|;
      var s1, s2, s3 := AdmitOne(users, max, s, j, e);
      AdmittedNext(s, s3, u, targets, j);
      run := AdmitRest(users, max, s3, u, targets, j + 1);
      StartWithChecks(users, max, s, s1, s2, s3, j, e, run, u, k, rows);
      run := [Begin(j, e)] + ([CheckExists(j)] + ([CheckCap(j)] + run));
    }
  }

  lemma AdmittedNext(s: Calls, s3: Calls, u: int, targets: seq<int>, j: nat)
    requires j < |targets| && AllAdmitted(s, u, targets, 0, j) && forall id :: id in s.running ==> id < j
    requires s3 == s.(running := s.running[j := Admitted(Edge(u, targets[j]))])
    ensures AllAdmitted(s3, u, targets, 0, j + 1) && forall id :: id in s3.running ==> id < j + 1
  {
  }

  lemma StartWithChecks(users: set<int>, max: nat, s: Calls, s1: Calls, s2: Calls, s3: Calls, id: nat, e: Edge,
                        rest: seq<Action>, u: int, k: nat, rows: int)
    requires May(users, s, Begin(id, e)) && s1 == Act(users, max, s, Begin(id, e))
    requires May(users, s1, CheckExists(id)) && s2 == Act(users, max, s1, CheckExists(id))
    requires May(users, s2, CheckCap(id)) && s3 == Act(users, max, s2, CheckCap(id))
    requires |s.running| <= k && |s1.running| <= k && |s2.running| <= k && rows >= 0
    requires EndsWith(users, max, s3, rest, u, k, rows)
    ensures EndsWith(users, max, s, [Begin(id, e)] + ([CheckExists(id)] + ([CheckCap(id)] + rest)), u, k, rows)
  {
    OpenBound(s2, u, k);
    StartWith(users, max, s2, CheckCap(id), rest, u, k, rows);
    OpenBound(s1, u, k);
    StartWith(users, max, s1, CheckExists(id), [CheckCap(id)] + rest, u, k, rows);
    OpenBound(s, u, k);
    StartWith(users, max, s, Begin(id, e), [CheckExists(id)] + ([CheckCap(id)] + rest), u, k, rows);
  }

  /**
   The bound of `CapUnderConcurrency` is met for every cap and every k: a user one row below
   the cap can end with maxFollowing + k - 1 rows after k overlapping calls.
   */
  lemma CapIsTight(users: set<int>, max: nat, follows: set<Edge>, u: int, targets: seq<int>) returns (run: seq<Action>)
    requires Fresh(users, follows, u, targets) && targets != [] && |FollowedBy(follows, u)| == max - 1
    ensures EndsWith(users, max, Calls(follows, map[], []), run, u, |targets|, max + |targets| - 1)
  {
    run := AdmitRest(users, max, Calls(follows, map[], []), u, targets, 0);
  }

  // ---- The ledger of events ------------------------------------------------------------------

  function OwedBy(s: Calls, m: Msg): set<nat> {
    set id | id in s.running && s.running[id] == Owing(m)
  }

  /** How often a message is owed or published. */
  function Issued(s: Calls, m: Msg): nat {
    |OwedBy(s, m)| + multiset(s.published)[m]
  }

  function Balance(s: Calls, e: Edge): int {
    Issued(s, Followed(e)) - Issued(s, Unfollowed(e))
  }

  function Present(follows: set<Edge>, e: Edge): int {
    if e in follows then 1 else 0
  }

  lemma OwedStep(users: set<int>, max: nat, s: Calls, a: Action, m: Msg)
    requires May(users, s, a)
    ensures var s' := Act(users, max, s, a);
      |OwedBy(s', m)| == |OwedBy(s, m)| +
        (if a.Emit? && s.running[a.id].m == m then -1
         else if a.Insert? && s.running[a.id].e !in s.follows && m == Followed(s.running[a.id].e) then 1
         else if a.Delete? && a.e in s.follows && m == Unfollowed(a.e) then 1
         else 0)
  {
    var s' := Act(users, max, s, a);
    if s'.running != s.running {
      OwedAfter(s, s', a.id, m);
    }
  }

  /** Only the call that moved can change who owes a message. */
  lemma OwedAfter(s: Calls, s': Calls, id: nat, m: Msg)
    requires forall k :: k != id ==> (k in s.running <==> k in s'.running)
    requires forall k :: k != id && k in s.running ==> s.running[k] == s'.running[k]
    ensures |OwedBy(s', m)| == |OwedBy(s, m)| + (if id in OwedBy(s', m) then 1 else 0) - (if id in OwedBy(s, m) then 1 else 0)
  {
    var a, b := OwedBy(s, m), OwedBy(s', m);
    assert forall k :: k != id ==> (k in a <==> k in b);
    assert b - {id} == a - {id};
    SizeWithout(b, id);
    SizeWithout(a, id);
  }

  lemma SizeWithout<T>(s: set<T>, x: T)
    ensures |s| == |s - {x}| + if x in s then 1 else 0
  {
    if x in s {
      assert s == s - {x} + {x};
    } else {
      assert s == s - {x};
    }
  }

  lemma PublishedStep(users: set<int>, max: nat, s: Calls, a: Action, m: Msg)
    requires May(users, s, a)
    ensures multiset(Act(users, max, s, a).published)[m]
      == multiset(s.published)[m] + if a.Emit? && s.running[a.id].m == m then 1 else 0
  {
  }

  lemma IssuedStep(users: set<int>, max: nat, s: Calls, a: Action, m: Msg)
    requires May(users, s, a)
    ensures var s' := Act(users, max, s, a);
      Issued(s', m) == Issued(s, m) +
        (if a.Insert? && s.running[a.id].e !in s.follows && m == Followed(s.running[a.id].e) then 1
         else if a.Delete? && a.e in s.follows && m == Unfollowed(a.e) then 1
         else 0)
  {
    OwedStep(users, max, s, a, m);
    PublishedStep(users, max, s, a, m);
  }

  lemma LedgerStep(users: set<int>, max: nat, s: Calls, a: Action, e: Edge)
    requires May(users, s, a)
    ensures var s' := Act(users, max, s, a);
      Balance(s', e) - Balance(s, e) == Present(s'.follows, e) - Present(s.follows, e)
  {
    IssuedStep(users, max, s, a, Followed(e));
    IssuedStep(users, max, s, a, Unfollowed(e));
  }

  /**
   For each pair, follow events minus unfollow events, owed or published, always equal the
   change of the row since the run began: every effective write gets exactly one event.
   */
  lemma {:induction false} EventLedger(users: set<int>, max: nat, s: Calls, run: seq<Action>, e: Edge)
    requires MayAll(users, max, s, run)
    ensures var s' := ActAll(users, max, s, run);
      Present(s'.follows, e) == Present(s.follows, e) + Balance(s', e) - Balance(s, e)
    decreases run
  {
    if run != [] {
      LedgerStep(users, max, s, run[0], e);
      EventLedger(users, max, Act(users, max, s, run[0]), run[1..], e);
    }
  }
}
