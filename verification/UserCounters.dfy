/**
 The pipeline behind the four counters of a user: a request changes rows or the like set and
 owes an event, the bus may drop it, a handler turns it into one or two deltas, the flush
 loop folds them and updates users one at a time. All of it interleaves freely.
 */
module UserCounters {
  import opened Prelude
  import opened CountConsumer
  import ChannelBus
  import LikeConsumer

  // ---- What the counters count --------------------------------------------------------------

  /** The row (follower_id, following_id). */
  datatype Edge = Edge(follower: int, following: int)

  /** The live posts, the Redis like sets, and the `follows` rows. */
  datatype Tables = Tables(posts: set<int>, likes: set<LikeConsumer.Pair>, follows: set<Edge>)

  datatype Change =
    | CreatePost(post: int)
    | DeletePost(post: int)
    | FlipLike(q: LikeConsumer.Pair)
    | FlipUnlike(q: LikeConsumer.Pair)
    | Follow(e: Edge)
    | Unfollow(e: Edge)

  /** An event as far as the counters go. */
  datatype Msg =
    | Posted(author: int)
    | PostDeleted(author: int)
    | Liked(author: int)
    | Unliked(author: int)
    | Followed(e: Edge)
    | Unfollowed(e: Edge)

  /** Rows change and owe an event together; a flip of the like set owes one whether or not it changed anything. */
  predicate MayChange(t: Tables, ch: Change) {
    match ch
    case CreatePost(p) => p !in t.posts
    case DeletePost(p) => p in t.posts
    case FlipLike(_) => true
    case FlipUnlike(_) => true
    case Follow(e) => e !in t.follows && e.follower != e.following
    case Unfollow(e) => e in t.follows
  }

  predicate Idle(t: Tables, ch: Change) {
    (ch.FlipLike? && ch.q in t.likes) || (ch.FlipUnlike? && ch.q !in t.likes)
  }

  function Changed(t: Tables, ch: Change): Tables {
    match ch
    case CreatePost(p) => t.(posts := t.posts + {p})
    case DeletePost(p) => t.(posts := t.posts - {p})
    case FlipLike(q) => t.(likes := t.likes + {q})
    case FlipUnlike(q) => t.(likes := t.likes - {q})
    case Follow(e) => t.(follows := t.follows + {e})
    case Unfollow(e) => t.(follows := t.follows - {e})
  }

  function MsgFor(c: Config, ch: Change): Msg {
    match ch
    case CreatePost(p) => Posted(c.authorOf(p))
    case DeletePost(p) => PostDeleted(c.authorOf(p))
    case FlipLike(q) => Liked(c.authorOf(q.post))
    case FlipUnlike(q) => Unliked(c.authorOf(q.post))
    case Follow(e) => Followed(e)
    case Unfollow(e) => Unfollowed(e)
  }

  /** One follow event touches two users. */
  function DeltasOf(m: Msg): seq<CountDelta> {
    match m
    case Posted(a) => [CountDelta(a, 1, 0, 0, 0)]
    case PostDeleted(a) => [CountDelta(a, -1, 0, 0, 0)]
    case Liked(a) => [CountDelta(a, 0, 1, 0, 0)]
    case Unliked(a) => [CountDelta(a, 0, -1, 0, 0)]
    case Followed(e) => [CountDelta(e.follower, 0, 0, 0, 1), CountDelta(e.following, 0, 0, 1, 0)]
    case Unfollowed(e) => [CountDelta(e.follower, 0, 0, 0, -1), CountDelta(e.following, 0, 0, -1, 0)]
  }

  function PostsOf(c: Config, posts: set<int>, u: int): set<int> {
    set p | p in posts && c.authorOf(p) == u
  }

  function LikesFor(c: Config, likes: set<LikeConsumer.Pair>, u: int): set<LikeConsumer.Pair> {
    set q | q in likes && c.authorOf(q.post) == u
  }

  function FollowersOf(follows: set<Edge>, u: int): set<Edge> {
    set e | e in follows && e.following == u
  }

  function FollowedBy(follows: set<Edge>, u: int): set<Edge> {
    set e | e in follows && e.follower == u
  }

  /** What a user's counter is meant to be. */
  function RowCount(c: Config, t: Tables, u: int, col: Column): nat {
    match col
    case PostCount => |PostsOf(c, t.posts, u)|
    case TotalLikes => |LikesFor(c, t.likes, u)|
    case FollowerCount => |FollowersOf(t.follows, u)|
    case FollowingCount => |FollowedBy(t.follows, u)|
  }

  // ---- The pipeline ----------------------------------------------------------------------------

  /** The capacities of the channels, and the author of each post. */
  datatype Config = Config(bufSize: nat, eventCap: nat, authorOf: int -> int)

  /** The subscription of one topic: its channel, and the deltas its handler has yet to send. */
  datatype Lane = Lane(subscribed: bool, queue: seq<Msg>, hand: seq<CountDelta>)

  /** Each kind of event is a topic of its own. */
  function LaneFor(m: Msg): nat {
    match m
    case Posted(_) => 0
    case PostDeleted(_) => 1
    case Liked(_) => 2
    case Unliked(_) => 3
    case Followed(_) => 4
    case Unfollowed(_) => 5
  }

  /** A flush in progress: its deltas, and the users still to be updated. */
  datatype Flush = Flush(ds: seq<CountDelta>, left: set<int>)

  /** `extra` are the deltas of events that announced no change, `lost` those that never arrived. */
  datatype State = State(
    tables: Tables,
    owed: seq<Msg>,
    busClosed: bool,
    cancelled: bool,
    lanes: seq<Lane>,
    eventCh: seq<CountDelta>,
    batch: seq<CountDelta>,
    flush: Option<Flush>,
    users: map<int, Counters>,
    extra: seq<CountDelta>,
    lost: seq<CountDelta>,
    clampLoss: map<(int, Column), int>)

  datatype Step =
    | Commit(ch: Change)
    | Publish(k: nat)
    | Subscribe(i: nat)
    | Unsubscribe(i: nat)
    | CloseBus
    | Cancel
    | Take(i: nat)
    | Send(i: nat)
    | Discard(i: nat)
    | Receive
    | BeginFlush
    | UpdateUser(u: int, succeeds: bool)
    | EndFlush

  predicate Enabled(c: Config, s: State, step: Step) {
    match step
    case Commit(ch) => MayChange(s.tables, ch)
    case Publish(k) => k < |s.owed|
    case Subscribe(i) => i < |s.lanes| && !s.lanes[i].subscribed
    case Unsubscribe(i) => i < |s.lanes| && s.lanes[i].subscribed
    case CloseBus => true
    case Cancel => true
    case Take(i) => i < |s.lanes| && s.lanes[i].queue != [] && s.lanes[i].hand == []
    case Send(i) => i < |s.lanes| && s.lanes[i].hand != [] && |s.eventCh| < c.eventCap
    case Discard(i) => i < |s.lanes| && s.lanes[i].hand != [] && s.cancelled
    case Receive => s.eventCh != [] && s.flush.None?
    case BeginFlush => s.batch != [] && s.flush.None?
    case UpdateUser(u, _) => s.flush.Some? && u in s.flush.value.left
    case EndFlush => s.flush.Some? && s.flush.value.left == {}
  }

  function Committed(c: Config, s: State, ch: Change): State {
    var m := MsgFor(c, ch);
    s.(tables := Changed(s.tables, ch), owed := s.owed + [m],
       extra := if Idle(s.tables, ch) then s.extra + DeltasOf(m) else s.extra)
  }

  predicate Accepts(c: Config, s: State, m: Msg) {
    var i := LaneFor(m);
    !s.busClosed && i < |s.lanes| && s.lanes[i].subscribed && |s.lanes[i].queue| < c.bufSize
  }

  /** Publish: nothing on a closed bus, nobody without a subscription, a drop on a full channel. */
  function Published(c: Config, s: State, m: Msg): State {
    if Accepts(c, s, m) then
      var l := s.lanes[LaneFor(m)];
      s.(lanes := s.lanes[LaneFor(m) := l.(queue := ChannelBus.Offer(l.queue, c.bufSize, m))])
    else s.(lost := s.lost + DeltasOf(m))
  }

  function Taken(l: Lane): Lane
    requires l.queue != []
  {
    l.(queue := l.queue[1..], hand := DeltasOf(l.queue[0]))
  }

  function Popped(l: Lane): Lane
    requires l.hand != []
  {
    l.(hand := l.hand[1..])
  }

  function DeltaMap(m: Maps, col: Column): map<int, int> {
    match col
    case PostCount => m.posts
    case TotalLikes => m.likes
    case FollowerCount => m.followers
    case FollowingCount => m.following
  }

  function NetDelta(ds: seq<CountDelta>, u: int): CountDelta {
    var m := BufferedMaps(ds);
    CountDelta(u, At(m.posts, u), At(m.likes, u), At(m.followers, u), At(m.following, u))
  }

  /** What the clamp adds to one column when the row is updated. */
  function Kept(v: nat, delta: int): nat {
    Max0(v + delta) - (v + delta)
  }

  function Clamped(loss: map<(int, Column), int>, u: int, c: Counters, m: Maps, col: Column): map<(int, Column), int> {
    loss[(u, col) := At(loss, (u, col)) + Kept(Value(c, col), At(DeltaMap(m, col), u))]
  }

  function ClampsAdded(loss: map<(int, Column), int>, u: int, c: Counters, m: Maps): map<(int, Column), int> {
    Clamped(Clamped(Clamped(Clamped(loss, u, c, m, PostCount), u, c, m, TotalLikes), u, c, m, FollowerCount), u, c, m, FollowingCount)
  }

  function UserUpdated(s: State, f: Flush, u: int, succeeds: bool): State {
    var m := BufferedMaps(f.ds);
    var s' := s.(flush := Some(f.(left := f.left - {u})));
    if u !in s.users then s'
    else if !succeeds then s'.(lost := s.lost + [NetDelta(f.ds, u)])
    else s'.(users := s.users[u := Updated(s.users[u], m, u)], clampLoss := ClampsAdded(s.clampLoss, u, s.users[u], m))
  }

  function Do(c: Config, s: State, step: Step): State
    requires Enabled(c, s, step)
  {
    match step
    case Commit(ch) => Committed(c, s, ch)
    case Publish(k) => Published(c, s.(owed := Without(s.owed, k)), s.owed[k])
    case Subscribe(i) => s.(lanes := s.lanes[i := s.lanes[i].(subscribed := true)])
    case Unsubscribe(i) => s.(lanes := s.lanes[i := s.lanes[i].(subscribed := false)])
    case CloseBus => s.(busClosed := true)
    case Cancel => s.(cancelled := true)
    case Take(i) => s.(lanes := s.lanes[i := Taken(s.lanes[i])])
    case Send(i) => s.(lanes := s.lanes[i := Popped(s.lanes[i])], eventCh := s.eventCh + [s.lanes[i].hand[0]])
    case Discard(i) => s.(lanes := s.lanes[i := Popped(s.lanes[i])], lost := s.lost + [s.lanes[i].hand[0]])
    case Receive => s.(eventCh := s.eventCh[1..], batch := s.batch + [s.eventCh[0]])
    case BeginFlush => s.(flush := Some(Flush(s.batch, Touched(BufferedMaps(s.batch)))), batch := [])
    case UpdateUser(u, succeeds) => UserUpdated(s, s.flush.value, u, succeeds)
    case EndFlush => s.(flush := None)
  }

  predicate ValidSteps(c: Config, s: State, steps: seq<Step>)
    decreases steps
  {
    steps == [] || (Enabled(c, s, steps[0]) && ValidSteps(c, Do(c, s, steps[0]), steps[1..]))
  }

  function Exec(c: Config, s: State, steps: seq<Step>): State
    requires ValidSteps(c, s, steps)
    decreases steps
  {
    if steps == [] then s else Exec(c, Do(c, s, steps[0]), steps[1..])
  }

  // ---- What is where ---------------------------------------------------------------------------

  function MsgNet(m: Msg, u: int, col: Column): int {
    Net(DeltasOf(m), u, col)
  }

  function MsgsNet(ms: seq<Msg>, u: int, col: Column): int {
    if ms == [] then 0 else MsgsNet(ms[..|ms| - 1], u, col) + MsgNet(ms[|ms| - 1], u, col)
  }

  function LaneNet(l: Lane, u: int, col: Column): int {
    MsgsNet(l.queue, u, col) + Net(l.hand, u, col)
  }

  function LanesNet(lanes: seq<Lane>, u: int, col: Column): int {
    if lanes == [] then 0 else LanesNet(lanes[..|lanes| - 1], u, col) + LaneNet(lanes[|lanes| - 1], u, col)
  }

  function FlushNet(f: Option<Flush>, u: int, col: Column): int {
    if f.Some? && u in f.value.left then Net(f.value.ds, u, col) else 0
  }

  /** The deltas of a user still on their way to the table. */
  function Pending(s: State, u: int, col: Column): int {
    MsgsNet(s.owed, u, col) + LanesNet(s.lanes, u, col)
    + Net(s.eventCh, u, col) + Net(s.batch, u, col) + FlushNet(s.flush, u, col)
  }

  ghost predicate Conserved(c: Config, s: State, u: int, col: Column) {
    && u in s.users
    && Value(s.users[u], col) + Pending(s, u, col) + Net(s.lost, u, col)
         == RowCount(c, s.tables, u, col) + Net(s.extra, u, col) + At(s.clampLoss, (u, col))
  }

  // ---- Sums -----------------------------------------------------------------------------------

  lemma NetOne(d: CountDelta, u: int, col: Column)
    ensures Net([d], u, col) == if d.userID == u then Delta(d, col) else 0
  {
    assert [d][..0] == [];
  }

  lemma NetHead(ds: seq<CountDelta>, u: int, col: Column)
    requires ds != []
    ensures Net(ds, u, col) == Net([ds[0]], u, col) + Net(ds[1..], u, col)
  {
    NetAppend([ds[0]], ds[1..], u, col);
    assert [ds[0]] + ds[1..] == ds;
  }

  function Without(ms: seq<Msg>, k: nat): seq<Msg>
    requires k < |ms|
  {
    ms[..k] + ms[k + 1..]
  }

  lemma MsgsNetLast(init: seq<Msg>, m: Msg, u: int, col: Column)
    ensures MsgsNet(init + [m], u, col) == MsgsNet(init, u, col) + MsgNet(m, u, col)
  {
    assert (init + [m])[..|init|] == init;
  }

  /** Taking the k-th message out of a list. */
  lemma {:induction false} MsgsNetWithout(ms: seq<Msg>, k: nat, u: int, col: Column)
    requires k < |ms|
    ensures MsgsNet(ms, u, col) == MsgsNet(Without(ms, k), u, col) + MsgNet(ms[k], u, col)
  {
    var n := |ms| - 1;
    var init, last := ms[..n], ms[n];
    WithoutLast(ms, k);
    MsgsNetLast(init, last, u, col);
    if k < n {
      MsgsNetWithout(init, k, u, col);
      MsgsNetLast(Without(init, k), last, u, col);
    }
  }

  lemma WithoutLast(ms: seq<Msg>, k: nat)
    requires k < |ms|
    ensures var n := |ms| - 1;
      && ms == ms[..n] + [ms[n]]
      && Without(ms, k) == if k == n then ms[..n] else Without(ms[..n], k) + [ms[n]]
  {
  }

  lemma {:induction false} LanesNetUpdate(lanes: seq<Lane>, i: nat, l: Lane, u: int, col: Column)
    requires i < |lanes|
    ensures LanesNet(lanes[i := l], u, col) == LanesNet(lanes, u, col) - LaneNet(lanes[i], u, col) + LaneNet(l, u, col)
  {
    var n := |lanes| - 1;
    if i == n {
      assert lanes[i := l][..n] == lanes[..n];
    } else {
      LanesNetUpdate(lanes[..n], i, l, u, col);
      assert lanes[i := l][..n] == lanes[..n][i := l];
    }
  }

  // ---- Changes -----------------------------------------------------------------------------------

  lemma OneMore<T>(a: set<T>, b: set<T>, x: T)
    requires x !in a && b == a + {x}
    ensures |b| == |a| + 1
  {
  }

  lemma PostCounts(c: Config, posts: set<int>, p: int, u: int)
    requires p !in posts
    ensures |PostsOf(c, posts + {p}, u)| == |PostsOf(c, posts, u)| + if c.authorOf(p) == u then 1 else 0
  {
    var a, b := PostsOf(c, posts, u), PostsOf(c, posts + {p}, u);
    if c.authorOf(p) == u {
      assert forall x :: x in b <==> x in a + {p};
      OneMore(a, b, p);
    } else {
      assert forall x :: x in b <==> x in a;
      assert b == a;
    }
  }

  lemma LikeCounts(c: Config, likes: set<LikeConsumer.Pair>, q: LikeConsumer.Pair, u: int)
    requires q !in likes
    ensures |LikesFor(c, likes + {q}, u)| == |LikesFor(c, likes, u)| + if c.authorOf(q.post) == u then 1 else 0
  {
    var a, b := LikesFor(c, likes, u), LikesFor(c, likes + {q}, u);
    if c.authorOf(q.post) == u {
      assert b == a + {q};
    } else {
      assert b == a;
    }
  }

  lemma FollowerCounts(follows: set<Edge>, e: Edge, u: int)
    requires e !in follows
    ensures |FollowersOf(follows + {e}, u)| == |FollowersOf(follows, u)| + if e.following == u then 1 else 0
  {
    var a, b := FollowersOf(follows, u), FollowersOf(follows + {e}, u);
    if e.following == u {
      assert b == a + {e};
    } else {
      assert b == a;
    }
  }

  lemma FollowingCounts(follows: set<Edge>, e: Edge, u: int)
    requires e !in follows
    ensures |FollowedBy(follows + {e}, u)| == |FollowedBy(follows, u)| + if e.follower == u then 1 else 0
  {
    var a, b := FollowedBy(follows, u), FollowedBy(follows + {e}, u);
    if e.follower == u {
      assert b == a + {e};
    } else {
      assert b == a;
    }
  }

  lemma EdgeCounts(follows: set<Edge>, e: Edge, u: int)
    requires e !in follows
    ensures |FollowersOf(follows + {e}, u)| == |FollowersOf(follows, u)| + if e.following == u then 1 else 0
    ensures |FollowedBy(follows + {e}, u)| == |FollowedBy(follows, u)| + if e.follower == u then 1 else 0
  {
    FollowerCounts(follows, e, u);
    FollowingCounts(follows, e, u);
  }

  lemma MsgNetOfOne(d: CountDelta, m: Msg, u: int, col: Column)
    requires DeltasOf(m) == [d]
    ensures MsgNet(m, u, col) == if d.userID == u then Delta(d, col) else 0
  {
    NetOne(d, u, col);
  }

  lemma MsgNetOfTwo(d: CountDelta, d': CountDelta, m: Msg, u: int, col: Column)
    requires DeltasOf(m) == [d, d']
    ensures MsgNet(m, u, col) == (if d.userID == u then Delta(d, col) else 0) + (if d'.userID == u then Delta(d', col) else 0)
  {
    NetOne(d, u, col);
    NetOne(d', u, col);
    NetAppend([d], [d'], u, col);
    assert [d] + [d'] == [d, d'];
  }

  lemma MsgNetValue(m: Msg, u: int, col: Column)
    ensures MsgNet(m, u, col) ==
      match m
      case Posted(a) => if u == a && col.PostCount? then 1 else 0
      case PostDeleted(a) => if u == a && col.PostCount? then -1 else 0
      case Liked(a) => if u == a && col.TotalLikes? then 1 else 0
      case Unliked(a) => if u == a && col.TotalLikes? then -1 else 0
      case Followed(e) => EdgeShare(e, u, col)
      case Unfollowed(e) => -EdgeShare(e, u, col)
  {
    var ds := DeltasOf(m);
    if m.Followed? || m.Unfollowed? {
      MsgNetOfTwo(ds[0], ds[1], m, u, col);
    } else {
      MsgNetOfOne(ds[0], m, u, col);
    }
  }

  function EdgeShare(e: Edge, u: int, col: Column): int {
    (if u == e.follower && col.FollowingCount? then 1 else 0) + (if u == e.following && col.FollowerCount? then 1 else 0)
  }

  /** A change moves each counted set by what its event announces. */
  lemma ChangeCounts(c: Config, t: Tables, ch: Change, u: int, col: Column)
    requires MayChange(t, ch) && !Idle(t, ch)
    ensures RowCount(c, Changed(t, ch), u, col) == RowCount(c, t, u, col) + MsgNet(MsgFor(c, ch), u, col)
  {
    MsgNetValue(MsgFor(c, ch), u, col);
    match ch
    case CreatePost(p) => PostCounts(c, t.posts, p, u);
    case DeletePost(p) =>
      PostCounts(c, t.posts - {p}, p, u);
      assert t.posts - {p} + {p} == t.posts;
    case FlipLike(q) => LikeCounts(c, t.likes, q, u);
    case FlipUnlike(q) =>
      LikeCounts(c, t.likes - {q}, q, u);
      assert t.likes - {q} + {q} == t.likes;
    case Follow(e) => EdgeCounts(t.follows, e, u);
    case Unfollow(e) =>
      EdgeCounts(t.follows - {e}, e, u);
      assert t.follows - {e} + {e} == t.follows;
  }

  lemma IdleChangesNothing(t: Tables, ch: Change)
    requires Idle(t, ch)
    ensures Changed(t, ch) == t
  {
    if ch.FlipLike? {
      assert t.likes + {ch.q} == t.likes;
    } else {
      assert t.likes - {ch.q} == t.likes;
    }
  }

  // ---- Every step conserves --------------------------------------------------------------------

  lemma CommitConserves(c: Config, s: State, ch: Change, u: int, col: Column)
    requires MayChange(s.tables, ch) && Conserved(c, s, u, col)
    ensures Conserved(c, Committed(c, s, ch), u, col)
  {
    var m := MsgFor(c, ch);
    MsgsNetLast(s.owed, m, u, col);
    if Idle(s.tables, ch) {
      IdleChangesNothing(s.tables, ch);
      NetAppend(s.extra, DeltasOf(m), u, col);
    } else {
      ChangeCounts(c, s.tables, ch, u, col);
    }
  }

  lemma PublishedPending(c: Config, s: State, m: Msg, u: int, col: Column)
    ensures var s' := Published(c, s, m);
      Pending(s', u, col) + Net(s'.lost, u, col) == Pending(s, u, col) + Net(s.lost, u, col) + MsgNet(m, u, col)
  {
    if Accepts(c, s, m) {
      Queued(s.lanes, LaneFor(m), m, u, col);
    } else {
      NetAppend(s.lost, DeltasOf(m), u, col);
    }
  }

  lemma Queued(lanes: seq<Lane>, i: nat, m: Msg, u: int, col: Column)
    requires i < |lanes|
    ensures LanesNet(lanes[i := lanes[i].(queue := lanes[i].queue + [m])], u, col) == LanesNet(lanes, u, col) + MsgNet(m, u, col)
  {
    var l := lanes[i];
    MsgsNetLast(l.queue, m, u, col);
    LanesNetUpdate(lanes, i, l.(queue := l.queue + [m]), u, col);
  }

  lemma PublishedKeepsTables(c: Config, s: State, m: Msg)
    ensures var s' := Published(c, s, m);
      s'.users == s.users && s'.tables == s.tables && s'.extra == s.extra && s'.clampLoss == s.clampLoss
  {
  }

  lemma PublishConserves(c: Config, s: State, k: nat, u: int, col: Column)
    requires k < |s.owed| && Conserved(c, s, u, col)
    ensures Conserved(c, Do(c, s, Publish(k)), u, col)
  {
    var before := s.(owed := Without(s.owed, k));
    MsgsNetWithout(s.owed, k, u, col);
    PublishedKeepsTables(c, before, s.owed[k]);
    PublishedPending(c, before, s.owed[k], u, col);
  }

  lemma TakenNet(l: Lane, u: int, col: Column)
    requires l.queue != [] && l.hand == []
    ensures LaneNet(Taken(l), u, col) == LaneNet(l, u, col)
  {
    MsgsNetWithout(l.queue, 0, u, col);
    assert Without(l.queue, 0) == l.queue[1..];
  }

  lemma PoppedNet(l: Lane, u: int, col: Column)
    requires l.hand != []
    ensures LaneNet(Popped(l), u, col) == LaneNet(l, u, col) - Net([l.hand[0]], u, col)
  {
    NetHead(l.hand, u, col);
  }

  lemma LaneStepConserves(c: Config, s: State, step: Step, u: int, col: Column)
    requires (step.Take? || step.Send? || step.Discard?) && Enabled(c, s, step) && Conserved(c, s, u, col)
    ensures Conserved(c, Do(c, s, step), u, col)
  {
    var l := s.lanes[step.i];
    if step.Take? {
      TakenNet(l, u, col);
      LanesNetUpdate(s.lanes, step.i, Taken(l), u, col);
    } else {
      PoppedNet(l, u, col);
      LanesNetUpdate(s.lanes, step.i, Popped(l), u, col);
      NetAppend(s.eventCh, [l.hand[0]], u, col);
      NetAppend(s.lost, [l.hand[0]], u, col);
    }
  }

  lemma ReceiveConserves(c: Config, s: State, u: int, col: Column)
    requires Enabled(c, s, Receive) && Conserved(c, s, u, col)
    ensures Conserved(c, Do(c, s, Receive), u, col)
  {
    NetHead(s.eventCh, u, col);
    NetAppend(s.batch, [s.eventCh[0]], u, col);
  }

  lemma BeginFlushConserves(c: Config, s: State, u: int, col: Column)
    requires Enabled(c, s, BeginFlush) && Conserved(c, s, u, col)
    ensures Conserved(c, Do(c, s, BeginFlush), u, col)
  {
    BufferedNet(s.batch, u, col);
  }

  lemma SwitchConserves(c: Config, s: State, step: Step, u: int, col: Column)
    requires step.Subscribe? || step.Unsubscribe? || step.CloseBus? || step.Cancel? || step.EndFlush?
    requires Enabled(c, s, step) && Conserved(c, s, u, col)
    ensures Conserved(c, Do(c, s, step), u, col)
  {
    if step.Subscribe? || step.Unsubscribe? {
      LanesNetUpdate(s.lanes, step.i, s.lanes[step.i].(subscribed := step.Subscribe?), u, col);
    }
  }

  lemma NetOfNetDelta(ds: seq<CountDelta>, u: int, v: int, col: Column)
    ensures Net([NetDelta(ds, u)], v, col) == if u == v then Net(ds, u, col) else 0
  {
    BufferedNet(ds, u, col);
    NetOne(NetDelta(ds, u), v, col);
  }

  lemma ClampsAt(loss: map<(int, Column), int>, u: int, c: Counters, m: Maps, v: int, col: Column)
    ensures At(ClampsAdded(loss, u, c, m), (v, col))
      == At(loss, (v, col)) + if u == v then Kept(Value(c, col), At(DeltaMap(m, col), u)) else 0
  {
  }

  lemma UpdatedValue(c: Counters, m: Maps, u: int, col: Column)
    ensures Value(Updated(c, m, u), col) == Max0(Value(c, col) + At(DeltaMap(m, col), u))
  {
  }

  /** A user's row, together with what is pending for it in the flush, is settled by its update. */
  lemma UpdateSettles(s: State, f: Flush, u': int, u: int, col: Column)
    requires u in s.users && u' in s.users && u' in f.left
    ensures var s' := UserUpdated(s, f, u', true);
      && u in s'.users
      && Value(s'.users[u], col) - At(s'.clampLoss, (u, col))
           == Value(s.users[u], col) - At(s.clampLoss, (u, col)) + if u == u' then Net(f.ds, u, col) else 0
  {
    var m := BufferedMaps(f.ds);
    BufferedNet(f.ds, u, col);
    ClampsAt(s.clampLoss, u', s.users[u'], m, u, col);
    UpdatedValue(s.users[u], m, u, col);
    assert DeltaMap(m, col) == Buffered(f.ds, col);
  }

  /** An update takes its user out of what the flush has yet to settle. */
  lemma UpdatePending(s: State, f: Flush, u': int, succeeds: bool, u: int, col: Column)
    requires s.flush == Some(f) && u' in f.left
    ensures Pending(UserUpdated(s, f, u', succeeds), u, col) == Pending(s, u, col) - if u == u' then Net(f.ds, u, col) else 0
  {
  }

  lemma UpdateConserves(c: Config, s: State, u': int, succeeds: bool, u: int, col: Column)
    requires Enabled(c, s, UpdateUser(u', succeeds)) && Conserved(c, s, u, col)
    ensures Conserved(c, Do(c, s, UpdateUser(u', succeeds)), u, col)
  {
    var f := s.flush.value;
    UpdatePending(s, f, u', succeeds, u, col);
    if succeeds && u' in s.users {
      UpdateSettles(s, f, u', u, col);
    } else {
      UpdateLost(s, f, u', u, col);
    }
  }

  /** An update that fails, or of a user that is gone, leaves the row and loses the deltas. */
  lemma UpdateLost(s: State, f: Flush, u': int, u: int, col: Column)
    requires u in s.users
    ensures var s' := UserUpdated(s, f, u', false);
      && s'.users == s.users && s'.clampLoss == s.clampLoss && s'.tables == s.tables && s'.extra == s.extra
      && Net(s'.lost, u, col) == Net(s.lost, u, col) + if u == u' then Net(f.ds, u, col) else 0
    ensures u' !in s.users ==> UserUpdated(s, f, u', true) == UserUpdated(s, f, u', false)
  {
    NetOfNetDelta(f.ds, u', u, col);
    NetAppend(s.lost, [NetDelta(f.ds, u')], u, col);
  }

  lemma StepConserves(c: Config, s: State, step: Step, u: int, col: Column)
    requires Enabled(c, s, step) && Conserved(c, s, u, col)
    ensures Conserved(c, Do(c, s, step), u, col)
  {
    if step.Commit? {
      CommitConserves(c, s, step.ch, u, col);
    } else if step.Publish? {
      PublishConserves(c, s, step.k, u, col);
    } else if step.Take? || step.Send? || step.Discard? {
      LaneStepConserves(c, s, step, u, col);
    } else if step.Receive? {
      ReceiveConserves(c, s, u, col);
    } else if step.BeginFlush? {
      BeginFlushConserves(c, s, u, col);
    } else if step.UpdateUser? {
      UpdateConserves(c, s, step.u, step.succeeds, u, col);
    } else {
      SwitchConserves(c, s, step, u, col);
    }
  }

  /** Clamp losses only ever grow. */
  lemma StepClampGrows(c: Config, s: State, step: Step, u: int, col: Column)
    requires Enabled(c, s, step)
    ensures At(Do(c, s, step).clampLoss, (u, col)) >= At(s.clampLoss, (u, col))
  {
    if step.UpdateUser? && step.u in s.users {
      ClampsAt(s.clampLoss, step.u, s.users[step.u], BufferedMaps(s.flush.value.ds), u, col);
    }
  }

  /** Only flips of the like set announce changes that did not happen. */
  lemma StepExtra(c: Config, s: State, step: Step, u: int, col: Column)
    requires Enabled(c, s, step) && !col.TotalLikes?
    ensures Net(Do(c, s, step).extra, u, col) == Net(s.extra, u, col)
  {
    if step.Commit? && Idle(s.tables, step.ch) {
      var m := MsgFor(c, step.ch);
      NetAppend(s.extra, DeltasOf(m), u, col);
      MsgNetValue(m, u, col);
    }
  }

  // ---- Main results ------------------------------------------------------------------------------

  /**
   In every reachable state, for every user and all four columns: stored counter, plus the
   deltas still on their way, plus the deltas that were lost, is what the column is meant to
   count, plus the likes announced without a change, plus what clamping kept, which never
   decreases. Only `total_likes` has such announcements.
   */
  lemma {:induction false} CounterConservation(c: Config, s: State, steps: seq<Step>, u: int, col: Column)
    requires ValidSteps(c, s, steps) && Conserved(c, s, u, col)
    ensures Conserved(c, Exec(c, s, steps), u, col)
    ensures At(Exec(c, s, steps).clampLoss, (u, col)) >= At(s.clampLoss, (u, col))
    ensures !col.TotalLikes? ==> Net(Exec(c, s, steps).extra, u, col) == Net(s.extra, u, col)
    decreases steps
  {
    if steps != [] {
      StepConserves(c, s, steps[0], u, col);
      StepClampGrows(c, s, steps[0], u, col);
      if !col.TotalLikes? {
        StepExtra(c, s, steps[0], u, col);
      }
      CounterConservation(c, Do(c, s, steps[0]), steps[1..], u, col);
    }
  }

  predicate Quiescent(s: State) {
    && s.owed == [] && s.eventCh == [] && s.batch == [] && s.flush.None?
    && forall i :: 0 <= i < |s.lanes| ==> s.lanes[i].queue == [] && s.lanes[i].hand == []
  }

  lemma {:induction false} EmptyLanes(lanes: seq<Lane>, u: int, col: Column)
    requires forall i :: 0 <= i < |lanes| ==> lanes[i].queue == [] && lanes[i].hand == []
    ensures LanesNet(lanes, u, col) == 0
  {
    if lanes != [] {
      EmptyLanes(lanes[..|lanes| - 1], u, col);
    }
  }

  /** Six subscriptions, everything empty, the counters right, nothing lost yet. */
  ghost predicate Initial(c: Config, s: State) {
    && Quiescent(s) && |s.lanes| == 6 && s.lost == [] && s.extra == [] && s.clampLoss == map[]
    && forall u, col :: u in s.users ==> Value(s.users[u], col) == RowCount(c, s.tables, u, col)
  }

  /**
   When a run started from agreement comes to rest, a counter is off by exactly the deltas
   lost, the amount clamped and the likes announced in vain; with none of them it is right.
   */
  lemma CountersAtRest(c: Config, s: State, steps: seq<Step>, u: int, col: Column)
    requires Initial(c, s) && ValidSteps(c, s, steps) && u in s.users
    ensures var s' := Exec(c, s, steps);
      Quiescent(s') ==>
        && u in s'.users
        && Value(s'.users[u], col) == RowCount(c, s'.tables, u, col)
             + At(s'.clampLoss, (u, col)) + Net(s'.extra, u, col) - Net(s'.lost, u, col)
        && (!col.TotalLikes? ==> Net(s'.extra, u, col) == 0)
  {
    var s' := Exec(c, s, steps);
    EmptyLanes(s.lanes, u, col);
    CounterConservation(c, s, steps, u, col);
    if Quiescent(s') {
      EmptyLanes(s'.lanes, u, col);
    }
  }
}
