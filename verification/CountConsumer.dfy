/**
 The count consumer: events become signed deltas, deltas are folded into four maps, and a
 flush adds each map to a column of the `users` table, clamped at zero.
 */
module CountConsumer {
  import opened Prelude
  import opened FlushInputs

  datatype Column = PostCount | TotalLikes | FollowerCount | FollowingCount

  /** The redundant counters of one `users` row; all four columns are unsigned. */
  datatype Counters = Counters(postCount: nat, totalLikes: nat, followerCount: nat, followingCount: nat)

  datatype CountDelta = CountDelta(userID: int, postCount: int, totalLikes: int, followerCount: int, followingCount: int)

  function Value(c: Counters, col: Column): nat {
    match col
    case PostCount => c.postCount
    case TotalLikes => c.totalLikes
    case FollowerCount => c.followerCount
    case FollowingCount => c.followingCount
  }

  function Delta(d: CountDelta, col: Column): int {
    match col
    case PostCount => d.postCount
    case TotalLikes => d.totalLikes
    case FollowerCount => d.followerCount
    case FollowingCount => d.followingCount
  }

  // ---- What the maps and the statements do ---------------------------------------------

  /** The delta map of one column after the given deltas. */
  function Buffered(ds: seq<CountDelta>, col: Column): map<int, int> {
    if ds == [] then map[]
    else
      var m, d := Buffered(ds[..|ds| - 1], col), ds[|ds| - 1];
      if Delta(d, col) == 0 then m else m[d.userID := At(m, d.userID) + Delta(d, col)]
  }

  /** The four delta maps. */
  datatype Maps = Maps(posts: map<int, int>, likes: map<int, int>, followers: map<int, int>, following: map<int, int>)

  function BufferedMaps(ds: seq<CountDelta>): Maps {
    Maps(Buffered(ds, PostCount), Buffered(ds, TotalLikes), Buffered(ds, FollowerCount), Buffered(ds, FollowingCount))
  }

  function Updated(c: Counters, m: Maps, u: int): Counters {
    Counters(Max0(c.postCount + At(m.posts, u)), Max0(c.totalLikes + At(m.likes, u)),
             Max0(c.followerCount + At(m.followers, u)), Max0(c.followingCount + At(m.following, u)))
  }

  /** A whole flush: every row, every column, max(0, value + delta). */
  function Flushed(users: map<int, Counters>, m: Maps): map<int, Counters> {
    map u | u in users :: Updated(users[u], m, u)
  }

  function Abs(x: int): nat {
    if x < 0 then -x else x
  }

  /** What one user adds to the number of handled events the consumer logs. */
  function Handled(m: Maps, u: int): nat {
    Abs(At(m.posts, u)) + Abs(At(m.likes, u)) + Abs(At(m.followers, u)) + Abs(At(m.following, u))
  }

  function Touched(m: Maps): set<int> {
    m.posts.Keys + m.likes.Keys + m.followers.Keys + m.following.Keys
  }

  function HandledBy(m: Maps, us: set<int>): map<int, int> {
    map u | u in us :: Handled(m, u)
  }

  class Consumer {
    var users: map<int, Counters>
    var postDeltas: map<int, int>
    var likeDeltas: map<int, int>
    var followerDeltas: map<int, int>
    var followingDeltas: map<int, int>
    var bufCount: nat
    const batchSize: nat
    /** The deltas taken from the channel since the last flush. */
    ghost var batch: seq<CountDelta>

    ghost function M(): Maps
      reads this
    {
      Maps(postDeltas, likeDeltas, followerDeltas, followingDeltas)
    }

    ghost predicate Valid()
      reads this
    {
      M() == BufferedMaps(batch) && bufCount == |batch|
    }

    constructor (users: map<int, Counters>, batchSize: nat)
      ensures Valid() && batch == [] && this.users == users && this.batchSize == batchSize
    {
      this.users, this.batchSize := users, batchSize;
      postDeltas, likeDeltas, followerDeltas, followingDeltas := map[], map[], map[], map[];
      bufCount, batch := 0, [];
    }

    static function Bumped(m: map<int, int>, u: int, delta: int): map<int, int> {
      if delta != 0 then m[u := At(m, u) + delta] else m
    }

    method Apply(d: CountDelta)
      requires Valid()
      modifies this
      ensures Valid() && batch == old(batch) + [d] && users == old(users)
    {
      postDeltas := Bumped(postDeltas, d.userID, d.postCount);
      likeDeltas := Bumped(likeDeltas, d.userID, d.totalLikes);
      followerDeltas := Bumped(followerDeltas, d.userID, d.followerCount);
      followingDeltas := Bumped(followingDeltas, d.userID, d.followingCount);
      bufCount := bufCount + 1;
      batch := batch + [d];
      BufferedStep(old(batch), d);
    }

    /** The SET clause: only columns with a non-zero delta are in it. */
    static method SetColumns(row: Counters, pd: int, ld: int, fd: int, gd: int) returns (c: Counters)
      ensures c == Counters(Max0(row.postCount + pd), Max0(row.totalLikes + ld),
                            Max0(row.followerCount + fd), Max0(row.followingCount + gd))
    {
      c := row;
      if pd != 0 { c := c.(postCount := Max0(c.postCount + pd)); }
      if ld != 0 { c := c.(totalLikes := Max0(c.totalLikes + ld)); }
      if fd != 0 { c := c.(followerCount := Max0(c.followerCount + fd)); }
      if gd != 0 { c := c.(followingCount := Max0(c.followingCount + gd)); }
    }

    /** One UPDATE setting only the columns that change; an unknown user matches no row. */
    method UpdateUser(u: int) returns (handled: nat)
      modifies this`users
      ensures users == if u in old(users) then old(users)[u := Updated(old(users)[u], M(), u)] else old(users)
      ensures handled == Handled(M(), u)
    {
      var pd, ld := At(postDeltas, u), At(likeDeltas, u);
      var fd, gd := At(followerDeltas, u), At(followingDeltas, u);
      if pd == 0 && ld == 0 && fd == 0 && gd == 0 {
        if u in users {
          NothingChanges(users[u], M(), u);
          assert users == users[u := users[u]];
        }
        return 0;
      }
      if u in users {
        var c := SetColumns(users[u], pd, ld, fd, gd);
        users := users[u := c];
      }
      handled := Abs(pd) + Abs(ld) + Abs(fd) + Abs(gd);
    }

    /** One UPDATE per touched user, in map order. */
    method FlushMaps() returns (total: int)
      modifies this`users
      ensures users == Flushed(old(users), M())
      ensures total == HandledTotal(M(), {})
    {
      var left := postDeltas.Keys + likeDeltas.Keys + followerDeltas.Keys + followingDeltas.Keys;
      ghost var m, before := M(), users;
      AllUpdated(before, m);
      total := 0;
      while left != {}
        invariant left <= Touched(m) && M() == m
        invariant users == FlushedBut(before, m, left)
        invariant total == HandledTotal(m, left)
        decreases |left|
      {
        var u, rest := Pick(left);
        UserDone(before, m, left, u, users);
        var handled := UpdateUser(u);
        total := total + handled;
        left := rest;
      }
    }

    /** The `flush` closure of the loop: nothing happens on an empty buffer. */
    method Flush() returns (total: int)
      requires Valid()
      modifies this
      ensures Valid() && batch == []
      ensures users == Flushed(old(users), BufferedMaps(old(batch)))
      ensures total == HandledTotal(BufferedMaps(old(batch)), {})
    {
      total := 0;
      if bufCount == 0 {
        FlushNothing(users);
        return;
      }
      total := FlushMaps();
      postDeltas, likeDeltas, followerDeltas, followingDeltas := map[], map[], map[], map[];
      bufCount, batch := 0, [];
    }

    /** The receiving case of the flush loop. */
    method OnDelta(d: CountDelta)
      requires Valid()
      modifies this
      ensures Valid()
      ensures |old(batch)| + 1 < batchSize ==> batch == old(batch) + [d] && users == old(users)
      ensures |old(batch)| + 1 >= batchSize ==> batch == [] && users == Flushed(old(users), BufferedMaps(old(batch) + [d]))
    {
      Apply(d);
      if bufCount >= batchSize {
        var total := Flush();
      }
    }

    /** What is left in the channel is folded in without regard to the cap. */
    method Drain(buffered: seq<CountDelta>)
      requires Valid()
      modifies this
      ensures Valid() && users == old(users) && batch == old(batch) + buffered
    {
      var i := 0;
      while i < |buffered|
        invariant 0 <= i <= |buffered| && Valid() && users == old(users)
        invariant batch == old(batch) + buffered[..i]
      {
        Apply(buffered[i]);
        assert buffered[..i + 1] == buffered[..i] + [buffered[i]];
        i := i + 1;
      }
      assert buffered[..i] == buffered;
    }

    /** The loop while it runs: a batch ends when it reaches the cap, or at a tick. */
    method Consume(inputs: seq<Input<CountDelta>>) returns (ghost batches: seq<seq<CountDelta>>)
      requires Valid() && batch == []
      modifies this
      ensures Valid() && Ran(old(users), users, batches, batch, inputs, batchSize)
    {
      batches := [];
      var i := 0;
      while i < |inputs|
        invariant 0 <= i <= |inputs| && Valid()
        invariant Ran(old(users), users, batches, batch, inputs[..i], batchSize)
      {
        ghost var was, before := batch, users;
        var flushed := OnInput(inputs[i]);
        InputTaken(old(users), before, batches, was, inputs, i, batchSize, flushed, users, batch);
        if flushed {
          batches := batches + [was + Carried(inputs[i])];
        }
        i := i + 1;
      }
      assert inputs[..i] == inputs;
    }

    /**
     The whole life of the loop: deltas and ticks in any order, then what is left in the
     channel and a last flush. Every delta is flushed, in order and in exactly one batch.
     */
    method FlushLoop(inputs: seq<Input<CountDelta>>, buffered: seq<CountDelta>) returns (ghost batches: seq<seq<CountDelta>>)
      requires Valid() && batch == []
      modifies this
      ensures Valid() && batch == []
      ensures Flatten(batches) == Arrived(inputs) + buffered && users == Run(old(users), batches)
      ensures batches == AllBatches(inputs, BatchFull(batchSize), buffered)
      ensures forall d :: multiset(Flatten(batches))[d] == |Receptions(inputs, d)| + multiset(buffered)[d]
    {
      batches := Consume(inputs);
      Joins(old(users), users, batches, batch, Arrived(inputs), buffered);
      Drain(buffered);
      ghost var rest, before := batch, users;
      FlushNothing(users);
      var total := Flush();
      if rest != [] {
        Flushes(old(users), before, batches, rest, Arrived(inputs) + buffered);
        batches := batches + [rest];
      }
      AllFlushed(old(users), users, batches, Arrived(inputs) + buffered);
      AllReceived(inputs, buffered);
    }

    method OnInput(input: Input<CountDelta>) returns (flushed: bool)
      requires Valid()
      modifies this
      ensures Valid()
      ensures input.Ticker? ==> (flushed <==> old(batch) != [])
      ensures input.Received? ==> (flushed <==> |old(batch)| + 1 >= batchSize)
      ensures flushed ==> batch == [] && users == Flushed(old(users), BufferedMaps(old(batch) + Carried(input)))
      ensures !flushed ==> batch == old(batch) + Carried(input) && users == old(users)
    {
      match input {
        case Received(d) =>
          flushed := bufCount + 1 >= batchSize;
          OnDelta(d);
        case Ticker =>
          assert batch + [] == batch;
          flushed := bufCount > 0;
          FlushNothing(users);
          var total := Flush();
      }
    }
  }

  function BatchFull(cap: nat): seq<CountDelta> -> bool {
    b => |b| >= cap
  }

  /** The table is that of the flushes so far, and every delta is in a flushed batch or buffered. */
  ghost predicate Accounted(start: map<int, Counters>, users: map<int, Counters>, batches: seq<seq<CountDelta>>,
                            batch: seq<CountDelta>, ds: seq<CountDelta>)
  {
    users == Run(start, batches) && Flatten(batches) + batch == ds
  }

  /** The loop has done so with these inputs. */
  ghost predicate Ran(start: map<int, Counters>, users: map<int, Counters>, batches: seq<seq<CountDelta>>,
                      batch: seq<CountDelta>, inputs: seq<Input<CountDelta>>, cap: nat)
  {
    Accounted(start, users, batches, batch, Arrived(inputs)) && BatchesAfter(inputs, BatchFull(cap)) == Batching(batches, batch)
  }

  lemma InputTaken(start: map<int, Counters>, users: map<int, Counters>, batches: seq<seq<CountDelta>>, batch: seq<CountDelta>,
                   inputs: seq<Input<CountDelta>>, i: nat, cap: nat, flushed: bool, users': map<int, Counters>, batch': seq<CountDelta>)
    requires i < |inputs| && Ran(start, users, batches, batch, inputs[..i], cap)
    requires flushed <==> if inputs[i].Ticker? then batch != [] else |batch| + 1 >= cap
    requires flushed ==> batch' == [] && users' == Flushed(users, BufferedMaps(batch + Carried(inputs[i])))
    requires !flushed ==> batch' == batch + Carried(inputs[i]) && users' == users
    ensures Ran(start, users', if flushed then batches + [batch + Carried(inputs[i])] else batches, batch', inputs[..i + 1], cap)
  {
    var full := batch + Carried(inputs[i]);
    assert inputs[..i + 1][..i] == inputs[..i];
    BatchesNext(inputs, i, BatchFull(cap));
    BatchingStep(Batching(batches, batch), inputs[i], BatchFull(cap), flushed);
    Joins(start, users, batches, batch, Arrived(inputs[..i]), Carried(inputs[i]));
    if flushed {
      Flushes(start, users, batches, full, Arrived(inputs[..i + 1]));
    }
  }

  lemma AllFlushed(start: map<int, Counters>, users: map<int, Counters>, batches: seq<seq<CountDelta>>, ds: seq<CountDelta>)
    requires Accounted(start, users, batches, [], ds)
    ensures Flatten(batches) == ds
  {
    assert Flatten(batches) + [] == Flatten(batches);
  }

  lemma Joins(start: map<int, Counters>, users: map<int, Counters>, batches: seq<seq<CountDelta>>,
              batch: seq<CountDelta>, ds: seq<CountDelta>, more: seq<CountDelta>)
    requires Accounted(start, users, batches, batch, ds)
    ensures Accounted(start, users, batches, batch + more, ds + more)
  {
    assert Flatten(batches) + (batch + more) == Flatten(batches) + batch + more;
  }

  lemma Flushes(start: map<int, Counters>, users: map<int, Counters>, batches: seq<seq<CountDelta>>,
                batch: seq<CountDelta>, ds: seq<CountDelta>)
    requires Accounted(start, users, batches, batch, ds)
    ensures Accounted(start, Flushed(users, BufferedMaps(batch)), batches + [batch], [], ds)
  {
    assert (batches + [batch])[..|batches|] == batches;
    assert Flatten(batches) + batch + [] == Flatten(batches) + batch;
  }

  lemma NothingChanges(c: Counters, m: Maps, u: int)
    requires At(m.posts, u) == 0 && At(m.likes, u) == 0 && At(m.followers, u) == 0 && At(m.following, u) == 0
    ensures Updated(c, m, u) == c
  {
  }

  lemma BufferedStep(ds: seq<CountDelta>, d: CountDelta)
    ensures var m := BufferedMaps(ds);
      BufferedMaps(ds + [d]) == Maps(Consumer.Bumped(m.posts, d.userID, d.postCount), Consumer.Bumped(m.likes, d.userID, d.totalLikes),
                                     Consumer.Bumped(m.followers, d.userID, d.followerCount), Consumer.Bumped(m.following, d.userID, d.followingCount))
  {
    assert (ds + [d])[..|ds|] == ds;
  }

  /** The table in the middle of a flush, with the users `left` still to be updated. */
  ghost function FlushedBut(users: map<int, Counters>, m: Maps, left: set<int>): map<int, Counters> {
    map u | u in users :: if u in Touched(m) && u !in left then Updated(users[u], m, u) else users[u]
  }

  /** The handled events of the users no longer in `left`. */
  ghost function HandledTotal(m: Maps, left: set<int>): int {
    Sum(HandledBy(m, Touched(m) - left))
  }

  lemma UserUpdated(users: map<int, Counters>, m: Maps, left: set<int>, u: int)
    requires u in left && left <= Touched(m)
    ensures var t := FlushedBut(users, m, left);
      FlushedBut(users, m, left - {u}) == if u in t then t[u := Updated(t[u], m, u)] else t
  {
    var t, t' := FlushedBut(users, m, left), FlushedBut(users, m, left - {u});
    forall k | k in users
      ensures k in t && k in t'
      ensures k == u ==> t'[k] == Updated(t[k], m, k)
      ensures k != u ==> t'[k] == t[k]
    {
    }
  }

  /** One user's update, on the table and on the total. */
  lemma UserDone(before: map<int, Counters>, m: Maps, left: set<int>, u: int, users: map<int, Counters>)
    requires u in left && left <= Touched(m) && users == FlushedBut(before, m, left)
    ensures FlushedBut(before, m, left - {u}) == if u in users then users[u := Updated(users[u], m, u)] else users
    ensures HandledTotal(m, left - {u}) == HandledTotal(m, left) + Handled(m, u)
  {
    UserUpdated(before, m, left, u);
    UserCounted(m, left, u);
  }

  lemma UserCounted(m: Maps, left: set<int>, u: int)
    requires u in left && left <= Touched(m)
    ensures HandledTotal(m, left - {u}) == HandledTotal(m, left) + Handled(m, u)
  {
    HandledOneMore(m, Touched(m) - left, u);
    assert Touched(m) - left + {u} == Touched(m) - (left - {u});
  }

  lemma AllUpdated(users: map<int, Counters>, m: Maps)
    ensures FlushedBut(users, m, {}) == Flushed(users, m)
    ensures FlushedBut(users, m, Touched(m)) == users
    ensures HandledTotal(m, Touched(m)) == 0
  {
    var t, f := FlushedBut(users, m, {}), Flushed(users, m);
    forall k | k in users
      ensures k in t && k in f && t[k] == f[k]
    {
    }
    assert forall k :: k in users ==> FlushedBut(users, m, Touched(m))[k] == users[k];
    assert HandledBy(m, Touched(m) - Touched(m)) == map[];
  }

  lemma HandledOneMore(m: Maps, us: set<int>, u: int)
    requires u !in us
    ensures Sum(HandledBy(m, us + {u})) == Sum(HandledBy(m, us)) + Handled(m, u)
  {
    var before, after := HandledBy(m, us), HandledBy(m, us + {u});
    SumInsert(before, u, Handled(m, u));
    forall k
      ensures k in after <==> k in before[u := Handled(m, u)]
    {
    }
    assert after == before[u := Handled(m, u)];
  }

  lemma FlushNothing(users: map<int, Counters>)
    ensures Flushed(users, BufferedMaps([])) == users
    ensures HandledTotal(BufferedMaps([]), {}) == 0
  {
    assert HandledBy(BufferedMaps([]), Touched(BufferedMaps([])) - {}) == map[];
    var f := Flushed(users, BufferedMaps([]));
    assert forall u :: u in f <==> u in users;
    assert forall u :: u in users ==> f[u] == users[u];
  }

  // ---- One counter over a run of flushes -------------------------------------------------

  function Total(ds: seq<int>): int {
    if ds == [] then 0 else Total(ds[..|ds| - 1]) + ds[|ds| - 1]
  }

  /** A counter after flushes of the given net deltas. */
  function Fold(v: nat, ds: seq<int>): nat {
    if ds == [] then v else Max0(Fold(v, ds[..|ds| - 1]) + ds[|ds| - 1])
  }

  /** How far below zero the unclamped counter ever is at a flush. */
  function Deficit(v: nat, ds: seq<int>): nat {
    if ds == [] then 0
    else
      var before, here := Deficit(v, ds[..|ds| - 1]), Max0(-(v + Total(ds)));
      if here > before then here else before
  }

  /** Clamped counting in closed form: the plain sum, raised by the deepest deficit. */
  lemma {:induction false} FoldIsReflectedSum(v: nat, ds: seq<int>)
    ensures Fold(v, ds) == v + Total(ds) + Deficit(v, ds)
  {
    if ds != [] {
      FoldIsReflectedSum(v, ds[..|ds| - 1]);
    }
  }

  /** The running total is nowhere below zero at a flush boundary. */
  ghost predicate NeverNegative(v: nat, ds: seq<int>) {
    forall i :: 0 <= i <= |ds| ==> v + Total(ds[..i]) >= 0
  }

  lemma {:induction false} DeficitZero(v: nat, ds: seq<int>)
    ensures Deficit(v, ds) == 0 <==> NeverNegative(v, ds)
  {
    if ds != [] {
      var init := ds[..|ds| - 1];
      DeficitZero(v, init);
      assert forall i :: 0 <= i <= |init| ==> init[..i] == ds[..i];
      assert ds[..|ds|] == ds;
    }
  }

  /** The counter is exactly start + sum when, and only when, no flush boundary is below zero. */
  lemma ExactWhenNeverNegative(v: nat, ds: seq<int>)
    ensures Fold(v, ds) >= Max0(v + Total(ds))
    ensures Fold(v, ds) == v + Total(ds) <==> NeverNegative(v, ds)
  {
    FoldIsReflectedSum(v, ds);
    DeficitZero(v, ds);
  }

  lemma {:induction false} FoldMonotone(v: nat, w: nat, ds: seq<int>)
    requires v <= w
    ensures Fold(v, ds) <= Fold(w, ds)
  {
    if ds != [] {
      FoldMonotone(v, w, ds[..|ds| - 1]);
    }
  }

  lemma {:induction false} FoldAppend(v: nat, a: seq<int>, b: seq<int>)
    ensures Fold(v, a + b) == Fold(Fold(v, a), b)
    ensures Total(a + b) == Total(a) + Total(b)
  {
    if b == [] {
      assert a + b == a;
    } else {
      FoldAppend(v, a, b[..|b| - 1]);
      assert (a + b)[..|a + b| - 1] == a + b[..|b| - 1];
    }
  }

  function Flatten<T>(groups: seq<seq<T>>): seq<T> {
    if groups == [] then [] else Flatten(groups[..|groups| - 1]) + groups[|groups| - 1]
  }

  function Totals(groups: seq<seq<int>>): seq<int> {
    if groups == [] then [] else Totals(groups[..|groups| - 1]) + [Total(groups[|groups| - 1])]
  }

  /** Merging neighbouring flushes never raises the final counter. */
  lemma {:induction false} CoarserIsLower(v: nat, groups: seq<seq<int>>)
    ensures Fold(v, Totals(groups)) <= Fold(v, Flatten(groups))
    ensures Total(Totals(groups)) == Total(Flatten(groups))
  {
    if groups != [] {
      var init, last := groups[..|groups| - 1], groups[|groups| - 1];
      CoarserIsLower(v, init);
      FoldAppend(v, Flatten(init), last);
      FoldAppend(v, Totals(init), [Total(last)]);
      var c, f := Fold(v, Totals(init)), Fold(v, Flatten(init));
      FoldMonotone(c, f, last);
      ExactWhenNeverNegative(c, last);
      assert Total([Total(last)]) == Total(last);
      assert Fold(c, [Total(last)]) == Max0(c + Total(last));
    }
  }

  // ---- The table over a run of flushes ----------------------------------------------------

  /** The table after flushing the given batches one after the other. */
  function Run(users: map<int, Counters>, batches: seq<seq<CountDelta>>): map<int, Counters> {
    if batches == [] then users
    else Flushed(Run(users, batches[..|batches| - 1]), BufferedMaps(batches[|batches| - 1]))
  }

  function Net(ds: seq<CountDelta>, u: int, col: Column): int {
    if ds == [] then 0
    else Net(ds[..|ds| - 1], u, col) + if ds[|ds| - 1].userID == u then Delta(ds[|ds| - 1], col) else 0
  }

  function Nets(batches: seq<seq<CountDelta>>, u: int, col: Column): seq<int> {
    if batches == [] then [] else Nets(batches[..|batches| - 1], u, col) + [Net(batches[|batches| - 1], u, col)]
  }

  lemma {:induction false} BufferedNet(ds: seq<CountDelta>, u: int, col: Column)
    ensures At(Buffered(ds, col), u) == Net(ds, u, col)
  {
    if ds != [] {
      BufferedNet(ds[..|ds| - 1], u, col);
    }
  }

  lemma FlushedValue(users: map<int, Counters>, ds: seq<CountDelta>, u: int, col: Column)
    requires u in users
    ensures Value(Flushed(users, BufferedMaps(ds))[u], col) == Max0(Value(users[u], col) + Net(ds, u, col))
  {
    BufferedNet(ds, u, col);
  }

  /** Each delta counts for its own user, in the columns it names. */
  lemma NetNext(ds: seq<CountDelta>, d: CountDelta, u: int)
    ensures Net([], u, PostCount) == Net([], u, TotalLikes) == Net([], u, FollowerCount) == Net([], u, FollowingCount) == 0
    ensures Net(ds + [d], u, PostCount) == Net(ds, u, PostCount) + if d.userID == u then d.postCount else 0
    ensures Net(ds + [d], u, TotalLikes) == Net(ds, u, TotalLikes) + if d.userID == u then d.totalLikes else 0
    ensures Net(ds + [d], u, FollowerCount) == Net(ds, u, FollowerCount) + if d.userID == u then d.followerCount else 0
    ensures Net(ds + [d], u, FollowingCount) == Net(ds, u, FollowingCount) + if d.userID == u then d.followingCount else 0
  {
    assert (ds + [d])[..|ds|] == ds;
  }

  /** A flush, column by column and by name. */
  lemma FlushedRow(users: map<int, Counters>, ds: seq<CountDelta>, u: int)
    requires u in users
    ensures Flushed(users, BufferedMaps(ds)).Keys == users.Keys
    ensures Flushed(users, BufferedMaps(ds))[u] == Counters(
              Max0(users[u].postCount + Net(ds, u, PostCount)), Max0(users[u].totalLikes + Net(ds, u, TotalLikes)),
              Max0(users[u].followerCount + Net(ds, u, FollowerCount)), Max0(users[u].followingCount + Net(ds, u, FollowingCount)))
  {
    BufferedNet(ds, u, PostCount);
    BufferedNet(ds, u, TotalLikes);
    BufferedNet(ds, u, FollowerCount);
    BufferedNet(ds, u, FollowingCount);
  }

  /** What a user adds to the handled total is the size of the net delta of each column. */
  lemma HandledIsNet(ds: seq<CountDelta>, u: int)
    ensures var p, l, f, g := Net(ds, u, PostCount), Net(ds, u, TotalLikes), Net(ds, u, FollowerCount), Net(ds, u, FollowingCount);
      Handled(BufferedMaps(ds), u)
        == (if p < 0 then -p else p) + (if l < 0 then -l else l) + (if f < 0 then -f else f) + (if g < 0 then -g else g)
  {
    BufferedNet(ds, u, PostCount);
    BufferedNet(ds, u, TotalLikes);
    BufferedNet(ds, u, FollowerCount);
    BufferedNet(ds, u, FollowingCount);
  }

  /** Each column of each row is folded on its own. */
  lemma {:induction false} RunIsFold(users: map<int, Counters>, batches: seq<seq<CountDelta>>, u: int, col: Column)
    requires u in users
    ensures u in Run(users, batches)
    ensures Value(Run(users, batches)[u], col) == Fold(Value(users[u], col), Nets(batches, u, col))
  {
    if batches != [] {
      var init, last := batches[..|batches| - 1], batches[|batches| - 1];
      RunIsFold(users, init, u, col);
      FlushedValue(Run(users, init), last, u, col);
      var n := Nets(init, u, col);
      assert (n + [Net(last, u, col)])[..|n|] == n;
    }
  }

  lemma {:induction false} NetAppend(a: seq<CountDelta>, b: seq<CountDelta>, u: int, col: Column)
    ensures Net(a + b, u, col) == Net(a, u, col) + Net(b, u, col)
  {
    if b == [] {
      assert a + b == a;
    } else {
      NetAppend(a, b[..|b| - 1], u, col);
      assert (a + b)[..|a + b| - 1] == a + b[..|b| - 1];
    }
  }

  /** Each group of batches flushed as one. */
  function Merged(groups: seq<seq<seq<CountDelta>>>): seq<seq<CountDelta>> {
    if groups == [] then [] else Merged(groups[..|groups| - 1]) + [Flatten(groups[|groups| - 1])]
  }

  function GroupNets(groups: seq<seq<seq<CountDelta>>>, u: int, col: Column): seq<seq<int>> {
    if groups == [] then [] else GroupNets(groups[..|groups| - 1], u, col) + [Nets(groups[|groups| - 1], u, col)]
  }

  lemma {:induction false} NetOfFlatten(batches: seq<seq<CountDelta>>, u: int, col: Column)
    ensures Net(Flatten(batches), u, col) == Total(Nets(batches, u, col))
  {
    if batches != [] {
      var init, last := batches[..|batches| - 1], batches[|batches| - 1];
      NetOfFlatten(init, u, col);
      NetAppend(Flatten(init), last, u, col);
      var n := Nets(init, u, col);
      assert (n + [Net(last, u, col)])[..|n|] == n;
    }
  }

  lemma {:induction false} NetsOfMerged(groups: seq<seq<seq<CountDelta>>>, u: int, col: Column)
    ensures Nets(Merged(groups), u, col) == Totals(GroupNets(groups, u, col))
  {
    if groups != [] {
      var init, last := groups[..|groups| - 1], groups[|groups| - 1];
      NetsOfMerged(init, u, col);
      NetOfFlatten(last, u, col);
      var m, g := Merged(init), GroupNets(init, u, col);
      assert (m + [Flatten(last)])[..|m|] == m;
      assert (g + [Nets(last, u, col)])[..|g|] == g;
    }
  }

  lemma {:induction false} NetsAppend(a: seq<seq<CountDelta>>, b: seq<seq<CountDelta>>, u: int, col: Column)
    ensures Nets(a + b, u, col) == Nets(a, u, col) + Nets(b, u, col)
  {
    if b == [] {
      assert a + b == a;
    } else {
      NetsAppend(a, b[..|b| - 1], u, col);
      assert (a + b)[..|a + b| - 1] == a + b[..|b| - 1];
    }
  }

  lemma {:induction false} NetsOfFlatten(groups: seq<seq<seq<CountDelta>>>, u: int, col: Column)
    ensures Nets(Flatten(groups), u, col) == Flatten(GroupNets(groups, u, col))
  {
    if groups != [] {
      var init, last := groups[..|groups| - 1], groups[|groups| - 1];
      NetsOfFlatten(init, u, col);
      NetsAppend(Flatten(init), last, u, col);
      var g := GroupNets(init, u, col);
      assert (g + [Nets(last, u, col)])[..|g|] == g;
    }
  }

  /** A coarser and a finer partition of the same deltas, `nets` per flush of the finer one, from value v. */
  ghost predicate Compared(v: nat, coarse: nat, fine: nat, nets: seq<int>) {
    && Max0(v + Total(nets)) <= coarse <= fine
    && (fine == v + Total(nets) <==> NeverNegative(v, nets))
  }

  /**
   The same deltas under a coarser and a finer partition into flushes: the coarser one
   ends no higher, neither ends below max(0, start + sum), and both end at start + sum
   when no boundary of the finer partition is below zero.
   */
  lemma BatchingOnlyLowers(users: map<int, Counters>, groups: seq<seq<seq<CountDelta>>>, u: int, col: Column)
    requires u in users
    ensures u in Run(users, Merged(groups)) && u in Run(users, Flatten(groups))
    ensures Compared(Value(users[u], col), Value(Run(users, Merged(groups))[u], col), Value(Run(users, Flatten(groups))[u], col),
                     Nets(Flatten(groups), u, col))
  {
    RunsAreFolds(users, groups, u, col);
    CoarseAndFine(Value(users[u], col), GroupNets(groups, u, col));
  }

  lemma RunsAreFolds(users: map<int, Counters>, groups: seq<seq<seq<CountDelta>>>, u: int, col: Column)
    requires u in users
    ensures u in Run(users, Merged(groups)) && u in Run(users, Flatten(groups))
    ensures var v, nets := Value(users[u], col), GroupNets(groups, u, col);
      && Value(Run(users, Merged(groups))[u], col) == Fold(v, Totals(nets))
      && Value(Run(users, Flatten(groups))[u], col) == Fold(v, Flatten(nets))
      && Nets(Flatten(groups), u, col) == Flatten(nets)
  {
    RunIsFold(users, Merged(groups), u, col);
    RunIsFold(users, Flatten(groups), u, col);
    NetsOfMerged(groups, u, col);
    NetsOfFlatten(groups, u, col);
  }

  lemma CoarseAndFine(v: nat, groups: seq<seq<int>>)
    ensures Compared(v, Fold(v, Totals(groups)), Fold(v, Flatten(groups)), Flatten(groups))
  {
    CoarserIsLower(v, groups);
    ExactWhenNeverNegative(v, Totals(groups));
    ExactWhenNeverNegative(v, Flatten(groups));
  }
}
