/**
 The like pipeline end to end: events published by the service on two topics, delivered to
 the consumer by one goroutine per topic, and flushed in batches into the tables.
 */
module LikePipeline {
  import opened Prelude
  import opened LikeConsumer
  import LikeService

  /** Every event changes the state it finds, as the service publishes them. */
  ghost predicate Effective(likes: set<Pair>, b: seq<Event>) {
    forall i :: 0 <= i < |b| ==> (b[i].Like? <==> b[i].pair !in Replay(likes, b[..i]))
  }

  /** Within the batch no pair is liked after it has been unliked. */
  ghost predicate NoComeback(b: seq<Event>) {
    forall i, j :: 0 <= i < j < |b| && b[i].Unlike? ==> b[j] != Like(b[i].pair)
  }

  // ---- One batch ------------------------------------------------------------------------

  lemma EffectiveInit(likes: set<Pair>, b: seq<Event>)
    requires b != [] && Effective(likes, b)
    ensures Effective(likes, b[..|b| - 1])
    ensures var last := b[|b| - 1]; last.Like? <==> last.pair !in Replay(likes, b[..|b| - 1])
  {
    var init := b[..|b| - 1];
    assert forall i :: 0 <= i < |init| ==> init[i] == b[i] && init[..i] == b[..i];
  }

  lemma NoRelikeWithoutComeback(b: seq<Event>)
    requires NoComeback(b)
    ensures NoRelike(b)
  {
  }

  /** The rows a batch leaves, by what its two halves contain. */
  lemma ReplayByHalves(likes: set<Pair>, b: seq<Event>)
    requires NoComeback(b)
    ensures Replay(likes, b) == likes + Members(LikesOf(b)) - Members(UnlikesOf(b))
  {
    NoRelikeWithoutComeback(b);
    FlushMatchesReplay(Tables(likes, map[]), b, Flush(LikesOf(b), UnlikesOf(b), map[], map[]));
  }

  lemma HalvesLast(init: seq<Event>, e: Event)
    ensures Members(LikesOf(init + [e])) == Members(LikesOf(init)) + if e.Like? then {e.pair} else {}
    ensures Members(UnlikesOf(init + [e])) == Members(UnlikesOf(init)) + if e.Unlike? then {e.pair} else {}
    ensures |LikesOf(init + [e])| == |LikesOf(init)| + if e.Like? then 1 else 0
    ensures |UnlikesOf(init + [e])| == |UnlikesOf(init)| + if e.Unlike? then 1 else 0
  {
    assert (init + [e])[..|init|] == init;
  }

  /** Without a comeback every like of an effective batch lands, and every unlike finds its row. */
  lemma {:induction false} EveryEventLands(likes: set<Pair>, b: seq<Event>)
    requires Effective(likes, b) && NoComeback(b)
    ensures |likes + Members(LikesOf(b))| == |likes| + |LikesOf(b)|
    ensures Members(UnlikesOf(b)) <= likes + Members(LikesOf(b))
    ensures |Members(UnlikesOf(b))| == |UnlikesOf(b)|
  {
    if b == [] {
      assert likes + Members(LikesOf(b)) == likes;
      assert Members(UnlikesOf(b)) == {};
    } else {
      var init, e := b[..|b| - 1], b[|b| - 1];
      assert b == init + [e];
      EffectiveInit(likes, b);
      InitHasNoComeback(init, e);
      EveryEventLands(likes, init);
      ReplayByHalves(likes, init);
      LastLands(likes, init, e);
      OneMoreLands(likes, init, e);
    }
  }

  lemma OneMoreLands(likes: set<Pair>, init: seq<Event>, e: Event)
    requires |likes + Members(LikesOf(init))| == |likes| + |LikesOf(init)|
    requires Members(UnlikesOf(init)) <= likes + Members(LikesOf(init)) && |Members(UnlikesOf(init))| == |UnlikesOf(init)|
    requires e.Like? ==> e.pair !in likes + Members(LikesOf(init))
    requires e.Unlike? ==> e.pair in likes + Members(LikesOf(init)) && e.pair !in Members(UnlikesOf(init))
    ensures var b := init + [e];
      && |likes + Members(LikesOf(b))| == |likes| + |LikesOf(b)|
      && Members(UnlikesOf(b)) <= likes + Members(LikesOf(b))
      && |Members(UnlikesOf(b))| == |UnlikesOf(b)|
  {
    HalvesLast(init, e);
    if e.Like? {
      assert likes + (Members(LikesOf(init)) + {e.pair}) == likes + Members(LikesOf(init)) + {e.pair};
      assert Members(UnlikesOf(init)) + {} == Members(UnlikesOf(init));
    } else {
      assert Members(LikesOf(init)) + {} == Members(LikesOf(init));
    }
  }

  lemma LastLands(likes: set<Pair>, init: seq<Event>, e: Event)
    requires NoComeback(init) && NoComeback(init + [e])
    requires e.Like? <==> e.pair !in likes + Members(LikesOf(init)) - Members(UnlikesOf(init))
    ensures e.Like? ==> e.pair !in likes + Members(LikesOf(init))
    ensures e.Unlike? ==> e.pair in likes + Members(LikesOf(init)) && e.pair !in Members(UnlikesOf(init))
  {
    SplitMembers(init);
    ComebackAtEnd(init, e);
  }

  lemma ComebackAtEnd(init: seq<Event>, e: Event)
    requires NoComeback(init)
    ensures NoComeback(init + [e]) <==> !(e.Like? && Unlike(e.pair) in init)
  {
    var b := init + [e];
    assert forall i :: 0 <= i < |init| ==> b[i] == init[i];
    if e.Like? && Unlike(e.pair) in init {
      var i :| 0 <= i < |init| && init[i] == Unlike(e.pair);
      assert b[i].Unlike? && b[|init|] == Like(b[i].pair);
    }
  }

  lemma InitHasNoComeback(init: seq<Event>, e: Event)
    requires NoComeback(init + [e])
    ensures NoComeback(init)
  {
    assert forall i :: 0 <= i < |init| ==> (init + [e])[i] == init[i];
  }

  /** Some like of the batch finds its row already there. */
  ghost predicate SomeLikeMisses(likes: set<Pair>, b: seq<Event>) {
    |likes + Members(LikesOf(b))| < |likes| + |LikesOf(b)|
  }

  lemma StillMisses(likes: set<Pair>, init: seq<Event>, e: Event)
    requires SomeLikeMisses(likes, init)
    ensures SomeLikeMisses(likes, init + [e])
  {
    HalvesLast(init, e);
    GrowsByOne(likes, Members(LikesOf(init)), e);
  }

  lemma ComebackAdds(likes: set<Pair>, init: seq<Event>, e: Event)
    requires Effective(likes, init) && NoComeback(init) && e.Like? && Unlike(e.pair) in init
    ensures SomeLikeMisses(likes, init + [e])
  {
    HalvesLast(init, e);
    EveryEventLands(likes, init);
    SplitMembers(init);
    assert likes + (Members(LikesOf(init)) + {e.pair}) == likes + Members(LikesOf(init));
  }

  lemma {:induction false} ComebackMisses(likes: set<Pair>, b: seq<Event>)
    requires Effective(likes, b) && !NoComeback(b)
    ensures SomeLikeMisses(likes, b)
  {
    var init, e := b[..|b| - 1], b[|b| - 1];
    assert b == init + [e];
    EffectiveInit(likes, b);
    if NoComeback(init) {
      ComebackAtEnd(init, e);
      ComebackAdds(likes, init, e);
    } else {
      ComebackMisses(likes, init);
      StillMisses(likes, init, e);
    }
  }

  lemma GrowsByOne(likes: set<Pair>, half: set<Pair>, e: Event)
    ensures |likes + (half + if e.Like? then {e.pair} else {})| <= |likes + half| + if e.Like? then 1 else 0
  {
    if e.Like? {
      assert likes + (half + {e.pair}) == likes + half + {e.pair};
    } else {
      assert half + {} == half;
    }
  }

  /** For events as the service publishes them: all likes of a batch land if and only if no pair comes back in it. */
  lemma AllLandIffNoComeback(likes: set<Pair>, b: seq<Event>)
    requires Effective(likes, b)
    ensures |likes + Members(LikesOf(b))| - |likes| == |LikesOf(b)| <==> NoComeback(b)
  {
    if NoComeback(b) {
      EveryEventLands(likes, b);
    } else {
      ComebackMisses(likes, b);
    }
  }

  lemma FlushIsClean(t: Tables, f: Flush, b: seq<Event>)
    requires IsFlushOf(t, f, b) && Effective(t.likes, b) && NoComeback(b)
    ensures CleanFlush(t, f) && AfterFlush(t, f).likes == Replay(t.likes, b)
  {
    EveryEventLands(t.likes, b);
    ReplayByHalves(t.likes, b);
    var mid, gone := AfterLikes(t, f).likes, Members(UnlikesOf(b));
    SubsetSize(gone, mid);
    assert AfterFlush(t, f).likes == mid - gone;
  }

  // ---- The whole stream -------------------------------------------------------------------

  /** A stream of effective events splits into batches of effective events. */
  lemma SplitEffective(likes: set<Pair>, a: seq<Event>, b: seq<Event>)
    requires Effective(likes, a + b)
    ensures Effective(likes, a) && Effective(Replay(likes, a), b)
  {
    var all := a + b;
    assert forall i :: 0 <= i < |a| ==> all[i] == a[i] && all[..i] == a[..i];
    forall j | 0 <= j < |b|
      ensures b[j].Like? <==> b[j].pair !in Replay(Replay(likes, a), b[..j])
    {
      ReplayAppend(likes, a, b[..j]);
      assert all[..|a| + j] == a + b[..j] && all[|a| + j] == b[j];
    }
  }

  // ---- Two lanes -----------------------------------------------------------------------------

  /**
   Likes and unlikes travel on topics of their own, each in order, and meet again only in the
   consumer's channel: what arrives is some merge of the two.
   */
  datatype Lanes = Lanes(published: seq<Event>, likes: seq<Pair>, unlikes: seq<Pair>, arrived: seq<Event>)

  datatype Move = Publish(e: Event) | TakeLike | TakeUnlike

  predicate May(l: Lanes, m: Move) {
    match m
    case Publish(_) => true
    case TakeLike => l.likes != []
    case TakeUnlike => l.unlikes != []
  }

  function Moved(l: Lanes, m: Move): Lanes
    requires May(l, m)
  {
    match m
    case Publish(Like(q)) => l.(published := l.published + [Like(q)], likes := l.likes + [q])
    case Publish(Unlike(q)) => l.(published := l.published + [Unlike(q)], unlikes := l.unlikes + [q])
    case TakeLike => l.(likes := l.likes[1..], arrived := l.arrived + [Like(l.likes[0])])
    case TakeUnlike => l.(unlikes := l.unlikes[1..], arrived := l.arrived + [Unlike(l.unlikes[0])])
  }

  predicate MayAll(l: Lanes, ms: seq<Move>)
    decreases ms
  {
    ms == [] || (May(l, ms[0]) && MayAll(Moved(l, ms[0]), ms[1..]))
  }

  function MovedAll(l: Lanes, ms: seq<Move>): Lanes
    requires MayAll(l, ms)
    decreases ms
  {
    if ms == [] then l else MovedAll(Moved(l, ms[0]), ms[1..])
  }

  /** Each kind of event arrives completely and in its own order. */
  predicate Delivered(published: seq<Event>, arrived: seq<Event>) {
    LikesOf(arrived) == LikesOf(published) && UnlikesOf(arrived) == UnlikesOf(published)
  }

  ghost predicate InLanes(l: Lanes) {
    && LikesOf(l.published) == LikesOf(l.arrived) + l.likes
    && UnlikesOf(l.published) == UnlikesOf(l.arrived) + l.unlikes
  }

  lemma PartsLast(b: seq<Event>, e: Event)
    ensures LikesOf(b + [e]) == LikesOf(b) + if e.Like? then [e.pair] else []
    ensures UnlikesOf(b + [e]) == UnlikesOf(b) + if e.Unlike? then [e.pair] else []
  {
    assert (b + [e])[..|b|] == b;
  }

  lemma MoveKeepsLanes(l: Lanes, m: Move)
    requires May(l, m) && InLanes(l)
    ensures InLanes(Moved(l, m))
  {
    match m
    case Publish(e) => PublishKeepsLanes(l, e);
    case TakeLike => TakeLikeKeepsLanes(l);
    case TakeUnlike => TakeUnlikeKeepsLanes(l);
  }

  lemma PublishKeepsLanes(l: Lanes, e: Event)
    requires InLanes(l)
    ensures InLanes(Moved(l, Publish(e)))
  {
    PartsLast(l.published, e);
    var more := if e.Like? then [e.pair] else [];
    var less := if e.Unlike? then [e.pair] else [];
    Assoc(LikesOf(l.arrived), l.likes, more);
    Assoc(UnlikesOf(l.arrived), l.unlikes, less);
    assert l.likes + [] == l.likes && l.unlikes + [] == l.unlikes;
  }

  lemma TakeLikeKeepsLanes(l: Lanes)
    requires InLanes(l) && l.likes != []
    ensures InLanes(Moved(l, TakeLike))
  {
    PartsLast(l.arrived, Like(l.likes[0]));
    MoveHead(LikesOf(l.arrived), l.likes);
    assert UnlikesOf(l.arrived) + [] == UnlikesOf(l.arrived);
  }

  lemma TakeUnlikeKeepsLanes(l: Lanes)
    requires InLanes(l) && l.unlikes != []
    ensures InLanes(Moved(l, TakeUnlike))
  {
    PartsLast(l.arrived, Unlike(l.unlikes[0]));
    MoveHead(UnlikesOf(l.arrived), l.unlikes);
    assert LikesOf(l.arrived) + [] == LikesOf(l.arrived);
  }

  /** Once both lanes are empty, what arrived is a merge of what was published. */
  lemma {:induction false} LanesDeliver(l: Lanes, ms: seq<Move>)
    requires InLanes(l) && MayAll(l, ms)
    ensures InLanes(MovedAll(l, ms))
    ensures var l' := MovedAll(l, ms); l'.likes == [] && l'.unlikes == [] ==> Delivered(l'.published, l'.arrived)
    decreases ms
  {
    if ms != [] {
      MoveKeepsLanes(l, ms[0]);
      LanesDeliver(Moved(l, ms[0]), ms[1..]);
    }
  }

  lemma {:induction false} MovedAllNext(l: Lanes, ms: seq<Move>, m: Move)
    requires MayAll(l, ms) && May(MovedAll(l, ms), m)
    ensures MayAll(l, ms + [m]) && MovedAll(l, ms + [m]) == Moved(MovedAll(l, ms), m)
    decreases ms
  {
    if ms == [] {
      assert ms + [m] == [m] && [m][1..] == [];
    } else {
      MovedAllNext(Moved(l, ms[0]), ms[1..], m);
      assert (ms + [m])[0] == ms[0] && (ms + [m])[1..] == ms[1..] + [m];
    }
  }

  const NoTraffic := Lanes([], [], [], [])

  predicate Arrives(l: Lanes, ms: seq<Move>, l': Lanes) {
    MayAll(l, ms) && MovedAll(l, ms) == l'
  }

  lemma ArrivesNext(l: Lanes, ms: seq<Move>, m: Move, l': Lanes)
    requires Arrives(l, ms, l') && May(l', m)
    ensures Arrives(l, ms + [m], Moved(l', m))
  {
    MovedAllNext(l, ms, m);
  }

  lemma PublishedOne(init: seq<Event>, e: Event)
    ensures Moved(Lanes(init, LikesOf(init), UnlikesOf(init), []), Publish(e))
      == Lanes(init + [e], LikesOf(init + [e]), UnlikesOf(init + [e]), [])
  {
    PartsLast(init, e);
    assert LikesOf(init) + [] == LikesOf(init) && UnlikesOf(init) + [] == UnlikesOf(init);
  }

  lemma {:induction false} PublishAll(es: seq<Event>) returns (ms: seq<Move>)
    ensures Arrives(NoTraffic, ms, Lanes(es, LikesOf(es), UnlikesOf(es), []))
  {
    ms := [];
    if es != [] {
      var init, e := es[..|es| - 1], es[|es| - 1];
      ms := PublishAll(init);
      PublishedOne(init, e);
      assert es == init + [e];
      ArrivesNext(NoTraffic, ms, Publish(e), Lanes(init, LikesOf(init), UnlikesOf(init), []));
      ms := ms + [Publish(e)];
    }
  }

  lemma {:induction false} PartsAppend(a: seq<Event>, b: seq<Event>)
    ensures LikesOf(a + b) == LikesOf(a) + LikesOf(b) && UnlikesOf(a + b) == UnlikesOf(a) + UnlikesOf(b)
  {
    if b == [] {
      assert a + b == a;
    } else {
      var init, e := b[..|b| - 1], b[|b| - 1];
      PartsAppend(a, init);
      PartsLast(init, e);
      PartsLast(a + init, e);
      assert b == init + [e];
      Assoc(a, init, [e]);
      Assoc(LikesOf(a), LikesOf(init), if e.Like? then [e.pair] else []);
      Assoc(UnlikesOf(a), UnlikesOf(init), if e.Unlike? then [e.pair] else []);
    }
  }

  lemma PartsFirst(todo: seq<Event>)
    requires todo != []
    ensures LikesOf(todo) == (if todo[0].Like? then [todo[0].pair] else []) + LikesOf(todo[1..])
    ensures UnlikesOf(todo) == (if todo[0].Unlike? then [todo[0].pair] else []) + UnlikesOf(todo[1..])
  {
    assert todo == [todo[0]] + todo[1..] && [todo[0]][..0] == [];
    PartsAppend([todo[0]], todo[1..]);
    PartsLast([], todo[0]);
    assert [] + [todo[0]] == [todo[0]];
  }

  lemma TakeOne(published: seq<Event>, done: seq<Event>, todo: seq<Event>, take: Move)
    requires todo != [] && take == if todo[0].Like? then TakeLike else TakeUnlike
    ensures var l, rest := Lanes(published, LikesOf(todo), UnlikesOf(todo), done), todo[1..];
      May(l, take) && Moved(l, take) == Lanes(published, LikesOf(rest), UnlikesOf(rest), done + [todo[0]])
  {
    PartsFirst(todo);
    assert [] + LikesOf(todo[1..]) == LikesOf(todo[1..]) && [] + UnlikesOf(todo[1..]) == UnlikesOf(todo[1..]);
  }

  /** With `todo` still to arrive, the lanes hold exactly its likes and unlikes. */
  lemma {:induction false} TakeAll(published: seq<Event>, done: seq<Event>, todo: seq<Event>, ms: seq<Move>) returns (all: seq<Move>)
    requires Arrives(NoTraffic, ms, Lanes(published, LikesOf(todo), UnlikesOf(todo), done))
    ensures Arrives(NoTraffic, all, Lanes(published, [], [], done + todo))
    decreases |todo|
  {
    if todo == [] {
      assert done + todo == done;
      all := ms;
    } else {
      var e, rest := todo[0], todo[1..];
      var take := if e.Like? then TakeLike else TakeUnlike;
      TakeOne(published, done, todo, take);
      ArrivesNext(NoTraffic, ms, take, Lanes(published, LikesOf(todo), UnlikesOf(todo), done));
      all := TakeAll(published, done + [e], rest, ms + [take]);
      MoveHead(done, todo);
    }
  }

  /** And every merge of what was published can arrive. */
  lemma EveryMergeArrives(published: seq<Event>, arrived: seq<Event>) returns (ms: seq<Move>)
    requires Delivered(published, arrived)
    ensures Arrives(NoTraffic, ms, Lanes(published, [], [], arrived))
  {
    ms := PublishAll(published);
    ms := TakeAll(published, [], arrived, ms);
    assert [] + arrived == arrived;
  }

  // ---- The rows, for any order of arrival ------------------------------------------------------

  lemma {:induction false} MentionedInJoined(batches: seq<seq<Event>>, p: Pair)
    ensures LastBatch(batches, p) >= 0 <==> Mentions(Joined(batches), p)
  {
    if batches != [] {
      MentionedInJoined(batches[1..], p);
    }
  }

  lemma DeliveredMentions(published: seq<Event>, arrived: seq<Event>, p: Pair)
    requires Delivered(published, arrived)
    ensures Mentions(arrived, p) <==> Mentions(published, p)
  {
    SplitMembers(published);
    SplitMembers(arrived);
  }

  /** The last batch about the pair contains an unlike of it exactly when its last published event is one. */
  ghost predicate LastFlushAgrees(published: seq<Event>, batches: seq<seq<Event>>, p: Pair) {
    LastBatch(batches, p) >= 0 ==> (Unlike(p) in batches[LastBatch(batches, p)] <==> !EndsLiked(published, p))
  }

  lemma RowFollowsCache(published: seq<Event>, t: Tables, fs: seq<Flush>, batches: seq<seq<Event>>, p: Pair)
    requires FlushedAs(t, fs, batches) && t.likes == {} && Delivered(published, Joined(batches))
    ensures (p in Run(t, fs).likes <==> p in Replay({}, published)) <==> LastFlushAgrees(published, batches, p)
  {
    RowByLastBatch(t, fs, batches, p);
    ReplayByLast({}, published, p);
    MentionedInJoined(batches, p);
    DeliveredMentions(published, Joined(batches), p);
    LastOfMentioned(published, p);
  }

  /**
   For every merge of the two topics and every partition into flushes: the `likes` rows are
   the Redis sets if and only if, for every pair, the last flush about it contains an unlike
   of it exactly when the last event published about it is an unlike.
   */
  lemma RowsFollowCacheIff(members: set<Pair>, published: seq<Event>, t: Tables, fs: seq<Flush>, batches: seq<seq<Event>>)
    requires Replay({}, published) == members
    requires FlushedAs(t, fs, batches) && t.likes == {} && Delivered(published, Joined(batches))
    ensures Run(t, fs).likes == members <==> forall p :: LastFlushAgrees(published, batches, p)
  {
    forall p
      ensures (p in Run(t, fs).likes <==> p in members) <==> LastFlushAgrees(published, batches, p)
    {
      RowFollowsCache(published, t, fs, batches, p);
    }
  }

  /**
   The tables against the cache, with the service's invariant: the rows agree under exactly
   that condition; and when every flush is clean, `like_count` of a post is its Redis counter
   exactly when as many of its pairs are left behind by their last flush as are missed by it.
   */
  lemma TablesFollowCache(c: LikeService.Cache, published: seq<Event>, t: Tables, fs: seq<Flush>, batches: seq<seq<Event>>)
    requires LikeService.Counted(c) && Replay({}, published) == c.members
    requires t.likes == {} && Exact(t) && ValidRun(t, fs) && CleanRun(t, fs)
    requires FlushedAs(t, fs, batches) && Delivered(published, Joined(batches))
    ensures Run(t, fs).likes == c.members <==> forall p :: LastFlushAgrees(published, batches, p)
    ensures forall p :: p in Run(t, fs).counts ==>
      (Run(t, fs).counts[p] == At(c.counts, p) <==> |LeftBehind(published, batches, p)| == |Missed(published, batches, p)|)
  {
    RowsFollowCacheIff(c.members, published, t, fs, batches);
    PerPostExactness(t, fs);
    forall p | p in Run(t, fs).counts
      ensures Run(t, fs).counts[p] == At(c.counts, p) <==> |LeftBehind(published, batches, p)| == |Missed(published, batches, p)|
    {
      assert Run(t, fs).counts[p] == |PostRows(Run(t, fs).likes, p)| && At(c.counts, p) == |PostRows(c.members, p)|;
      SurplusAgainstMissing(published, t, fs, batches, p);
      SameSizeIff(PostRows(Run(t, fs).likes, p), PostRows(c.members, p));
    }
  }

  /** Pairs of a post whose last flush has no unlike of them, although they were last unliked. */
  ghost function LeftBehind(published: seq<Event>, batches: seq<seq<Event>>, p: int): set<Pair> {
    set e | e in published && e.pair.post == p && LastBatch(batches, e.pair) >= 0
      && Unlike(e.pair) !in batches[LastBatch(batches, e.pair)] && !EndsLiked(published, e.pair) :: e.pair
  }

  /** Pairs of a post whose last flush has an unlike of them, although they were last liked. */
  ghost function Missed(published: seq<Event>, batches: seq<seq<Event>>, p: int): set<Pair> {
    set e | e in published && e.pair.post == p && LastBatch(batches, e.pair) >= 0
      && Unlike(e.pair) in batches[LastBatch(batches, e.pair)] && EndsLiked(published, e.pair) :: e.pair
  }

  lemma SameSizeIff<T>(a: set<T>, b: set<T>)
    ensures |a| == |b| <==> |a - b| == |b - a|
  {
    assert a == (a - b) + a * b && b == (b - a) + a * b;
  }

  lemma SurplusAgainstMissing(published: seq<Event>, t: Tables, fs: seq<Flush>, batches: seq<seq<Event>>, p: int)
    requires FlushedAs(t, fs, batches) && t.likes == {} && Delivered(published, Joined(batches))
    ensures var rows, members := PostRows(Run(t, fs).likes, p), PostRows(Replay({}, published), p);
      rows - members == LeftBehind(published, batches, p) && members - rows == Missed(published, batches, p)
  {
    forall q
      ensures q in PostRows(Run(t, fs).likes, p) - PostRows(Replay({}, published), p) <==> q in LeftBehind(published, batches, p)
      ensures q in PostRows(Replay({}, published), p) - PostRows(Run(t, fs).likes, p) <==> q in Missed(published, batches, p)
    {
      RowAgainstMember(published, t, fs, batches, q);
    }
  }

  lemma RowAgainstMember(published: seq<Event>, t: Tables, fs: seq<Flush>, batches: seq<seq<Event>>, q: Pair)
    requires FlushedAs(t, fs, batches) && t.likes == {} && Delivered(published, Joined(batches))
    ensures q in Run(t, fs).likes <==> LastBatch(batches, q) >= 0 && Unlike(q) !in batches[LastBatch(batches, q)]
    ensures q in Replay({}, published) <==> EndsLiked(published, q)
    ensures LastBatch(batches, q) >= 0 <==> exists e :: e in published && e.pair == q
    ensures EndsLiked(published, q) ==> LastBatch(batches, q) >= 0
  {
    RowByLastBatch(t, fs, batches, q);
    ReplayByLast({}, published, q);
    MentionedInJoined(batches, q);
    DeliveredMentions(published, Joined(batches), q);
    LastOfMentioned(published, q);
    assert forall e :: e in published && e.pair == q ==> e == Like(q) || e == Unlike(q);
  }

  /**
   What the lanes can do: a like and an unlike of it, published in this order, may arrive the
   other way round; flushed apart, the row stays although the set no longer has the member.
   */
  lemma OvertakenUnlike(q: Pair, t: Tables, fs: seq<Flush>, batches: seq<seq<Event>>)
    requires batches == Apart(q) && t.likes == {} && FlushedAs(t, fs, batches)
    ensures var published := [Like(q), Unlike(q)];
      Effective({}, published) && Delivered(published, Joined(batches)) && Replay({}, published) == {}
    ensures Run(t, fs).likes == {q}
  {
    OvertakenStreams(q);
    OvertakenRows(q, t, fs, batches);
  }

  lemma OvertakenRows(q: Pair, t: Tables, fs: seq<Flush>, batches: seq<seq<Event>>)
    requires batches == Apart(q) && t.likes == {} && FlushedAs(t, fs, batches)
    ensures Run(t, fs).likes == {q}
  {
    var rows := Run(t, fs).likes;
    forall p
      ensures p in rows <==> p == q
    {
      OvertakenRow(q, t, fs, batches, p);
    }
    OnlyMember(rows, q);
  }

  lemma OnlyMember<T>(s: set<T>, x: T)
    requires forall y :: y in s <==> y == x
    ensures s == {x}
  {
  }

  lemma OvertakenRow(q: Pair, t: Tables, fs: seq<Flush>, batches: seq<seq<Event>>, p: Pair)
    requires batches == Apart(q) && t.likes == {} && FlushedAs(t, fs, batches)
    ensures p in Run(t, fs).likes <==> p == q
  {
    LastOfTwo(q, p);
    RowOfLast(t, fs, batches, p, LastBatch(batches, p));
  }

  lemma RowOfLast(t: Tables, fs: seq<Flush>, batches: seq<seq<Event>>, p: Pair, i: int)
    requires FlushedAs(t, fs, batches) && i == LastBatch(batches, p)
    ensures p in Run(t, fs).likes <==> if i < 0 then p in t.likes else Unlike(p) !in batches[i]
  {
    RowByLastBatch(t, fs, batches, p);
  }

  /** The unlike in one flush, the like it should have followed in the next. */
  function Apart(q: Pair): seq<seq<Event>> {
    [[Unlike(q)], [Like(q)]]
  }

  lemma LastOfTwo(q: Pair, p: Pair)
    ensures LastBatch(Apart(q), p) == if p == q then 1 else -1
    ensures Unlike(q) !in Apart(q)[1]
  {
    var batches := Apart(q);
    assert batches[1..] == [[Like(q)]];
    assert LastBatch([[Like(q)]], p) == if p == q then 0 else -1;
  }

  lemma OvertakenStreams(q: Pair)
    ensures Joined(Apart(q)) == [Unlike(q), Like(q)]
    ensures Effective({}, [Like(q), Unlike(q)]) && Replay({}, [Like(q), Unlike(q)]) == {}
    ensures Delivered([Like(q), Unlike(q)], [Unlike(q), Like(q)])
  {
    JoinedNext([], [Unlike(q)]);
    JoinedNext([[Unlike(q)]], [Like(q)]);
    assert [] + [[Unlike(q)]] == [[Unlike(q)]] && [[Unlike(q)]] + [[Like(q)]] == [[Unlike(q)], [Like(q)]];
    var published, arrived := [Like(q), Unlike(q)], [Unlike(q), Like(q)];
    assert published[..1] == [Like(q)] && published[..1][..0] == [] && published[..0] == [];
    assert arrived[..1] == [Unlike(q)] && arrived[..1][..0] == [];
  }

  // ---- When each pair's events keep their order ---------------------------------------------------

  /** The events of one pair, in order. */
  function OfPair(b: seq<Event>, p: Pair): seq<Event> {
    if b == [] then []
    else OfPair(b[..|b| - 1], p) + if b[|b| - 1].pair == p then [b[|b| - 1]] else []
  }

  predicate SamePairOrder(a: seq<Event>, b: seq<Event>, p: Pair) {
    OfPair(a, p) == OfPair(b, p)
  }

  /** Likes and unlikes take turns, and the first one changes what was there. */
  predicate Alternates(present: bool, es: seq<Event>) {
    es == [] || (Alternates(present, es[..|es| - 1]) && es[|es| - 1].Like? == WantsLike(present, es[..|es| - 1]))
  }

  /** Whether a like would be the next change. */
  predicate WantsLike(present: bool, es: seq<Event>) {
    if es == [] then !present else es[|es| - 1].Unlike?
  }

  lemma {:induction false} OfPairFacts(b: seq<Event>, p: Pair)
    ensures forall i :: 0 <= i < |OfPair(b, p)| ==> OfPair(b, p)[i].pair == p
    ensures |OfPair(b, p)| == multiset(LikesOf(b))[p] + multiset(UnlikesOf(b))[p]
  {
    if b != [] {
      OfPairFacts(b[..|b| - 1], p);
    }
  }

  lemma {:induction false} ReplayByPair(likes: set<Pair>, b: seq<Event>, p: Pair)
    ensures p in Replay(likes, b) <==>
      var es := OfPair(b, p); if es == [] then p in likes else es[|es| - 1].Like?
  {
    if b != [] {
      ReplayByPair(likes, b[..|b| - 1], p);
    }
  }

  lemma AlternatesNext(present: bool, es: seq<Event>, e: Event)
    ensures Alternates(present, es + [e]) <==> Alternates(present, es) && e.Like? == WantsLike(present, es)
  {
    assert (es + [e])[..|es|] == es;
  }

  lemma EffectiveNext(likes: set<Pair>, init: seq<Event>, e: Event)
    ensures Effective(likes, init + [e]) <==> Effective(likes, init) && (e.Like? <==> e.pair !in Replay(likes, init))
  {
    var b := init + [e];
    assert b[..|init|] == init;
    assert forall i :: 0 <= i < |init| ==> b[i] == init[i] && b[..i] == init[..i];
    if Effective(likes, b) {
      assert b[|init|] == e;
    }
  }

  predicate PairAlternates(likes: set<Pair>, b: seq<Event>, p: Pair) {
    Alternates(p in likes, OfPair(b, p))
  }

  ghost predicate PairsAlternate(likes: set<Pair>, b: seq<Event>) {
    forall p :: PairAlternates(likes, b, p)
  }

  /** A stream is effective exactly when the events of each pair alternate. */
  lemma {:induction false} EffectiveByPair(likes: set<Pair>, b: seq<Event>)
    ensures Effective(likes, b) <==> PairsAlternate(likes, b)
  {
    if b == [] {
      assert forall p :: PairAlternates(likes, b, p);
    } else {
      var init, e := b[..|b| - 1], b[|b| - 1];
      assert b == init + [e];
      EffectiveByPair(likes, init);
      EffectiveNext(likes, init, e);
      ReplayByPair(likes, init, e.pair);
      PairsNext(likes, init, e);
    }
  }

  lemma OfPairNext(init: seq<Event>, e: Event, p: Pair)
    ensures OfPair(init + [e], p) == OfPair(init, p) + if e.pair == p then [e] else []
  {
    assert (init + [e])[..|init|] == init;
  }

  lemma PairNext(likes: set<Pair>, init: seq<Event>, e: Event, p: Pair)
    ensures PairAlternates(likes, init + [e], p) <==>
      PairAlternates(likes, init, p) && (p == e.pair ==> e.Like? == WantsLike(p in likes, OfPair(init, p)))
  {
    OfPairNext(init, e, p);
    AlternatesNext(p in likes, OfPair(init, p), e);
    assert OfPair(init, p) + [] == OfPair(init, p);
  }

  lemma PairsNext(likes: set<Pair>, init: seq<Event>, e: Event)
    ensures PairsAlternate(likes, init + [e]) <==>
      PairsAlternate(likes, init) && e.Like? == WantsLike(e.pair in likes, OfPair(init, e.pair))
  {
    forall p
      ensures PairAlternates(likes, init + [e], p) <==>
        PairAlternates(likes, init, p) && (p == e.pair ==> e.Like? == WantsLike(p in likes, OfPair(init, p)))
    {
      PairNext(likes, init, e, p);
    }
  }

  /** Alternating events of one pair are determined by their number. */
  lemma {:induction false} AlternatingUnique(present: bool, a: seq<Event>, b: seq<Event>, p: Pair)
    requires Alternates(present, a) && Alternates(present, b) && |a| == |b|
    requires forall i :: 0 <= i < |a| ==> a[i].pair == p && b[i].pair == p
    ensures a == b
  {
    if a != [] {
      var n := |a| - 1;
      AlternatingUnique(present, a[..n], b[..n], p);
      assert a == a[..n] + [a[n]] && b == b[..n] + [b[n]];
    }
  }

  /**
   Published events are effective. What arrives over the two lanes is effective too if and
   only if each pair's events arrive in the order in which they were published.
   */
  lemma EffectiveIffPairOrder(likes: set<Pair>, published: seq<Event>, arrived: seq<Event>)
    requires Effective(likes, published) && Delivered(published, arrived)
    ensures Effective(likes, arrived) <==> forall p :: SamePairOrder(published, arrived, p)
  {
    EffectiveByPair(likes, published);
    EffectiveByPair(likes, arrived);
    if Effective(likes, arrived) {
      forall p
        ensures SamePairOrder(published, arrived, p)
      {
        assert PairAlternates(likes, published, p) && PairAlternates(likes, arrived, p);
        OfPairFacts(published, p);
        OfPairFacts(arrived, p);
        AlternatingUnique(p in likes, OfPair(published, p), OfPair(arrived, p), p);
      }
    }
    assert forall p :: PairAlternates(likes, published, p) && SamePairOrder(published, arrived, p) ==>
      PairAlternates(likes, arrived, p);
  }

  lemma SameOrderSameReplay(likes: set<Pair>, a: seq<Event>, b: seq<Event>)
    requires forall p :: SamePairOrder(a, b, p)
    ensures Replay(likes, a) == Replay(likes, b)
  {
    forall p
      ensures p in Replay(likes, a) <==> p in Replay(likes, b)
    {
      assert SamePairOrder(a, b, p);
      ReplayByPair(likes, a, p);
      ReplayByPair(likes, b, p);
    }
  }

  lemma {:induction false} ArrivedExact(t: Tables, fs: seq<Flush>, batches: seq<seq<Event>>)
    requires FlushedAs(t, fs, batches) && ValidRun(t, fs) && Exact(t)
    requires Effective(t.likes, Joined(batches)) && forall i :: 0 <= i < |batches| ==> NoComeback(batches[i])
    ensures Exact(Run(t, fs)) && !RunClamps(t, fs)
    ensures Run(t, fs).likes == Replay(t.likes, Joined(batches))
    decreases fs
  {
    if fs != [] {
      var b, rest := batches[0], Joined(batches[1..]);
      SplitEffective(t.likes, b, rest);
      FlushIsClean(t, fs[0], b);
      FlushKeepsExact(t, fs[0]);
      ArrivedExact(AfterFlush(t, fs[0]), fs[1..], batches[1..]);
      ReplayAppend(t.likes, b, rest);
    }
  }

  /**
   When each pair's events arrive in the order of their publication, and no batch likes a pair
   it has unliked, then after every run the rows are the replay of what was published, every
   post's counter is its number of rows, and no decrement was clamped.
   */
  lemma PipelineExact(t: Tables, published: seq<Event>, fs: seq<Flush>, batches: seq<seq<Event>>)
    requires FlushedAs(t, fs, batches) && ValidRun(t, fs) && Exact(t) && Effective(t.likes, published)
    requires Delivered(published, Joined(batches)) && forall p :: SamePairOrder(published, Joined(batches), p)
    requires forall i :: 0 <= i < |batches| ==> NoComeback(batches[i])
    ensures Exact(Run(t, fs)) && !RunClamps(t, fs)
    ensures Run(t, fs).likes == Replay(t.likes, published)
  {
    EffectiveIffPairOrder(t.likes, published, Joined(batches));
    ArrivedExact(t, fs, batches);
    SameOrderSameReplay(t.likes, published, Joined(batches));
  }
}
