/**
 When `scaleDeltas` can attribute rows to the wrong posts: the batches for which every
 counter stays exact whatever rows the table holds and however the buckets are ordered.
 */
module LikeDrift {
  import opened Prelude
  import opened Scaling
  import opened LikeConsumer

  ghost predicate MayFlush(t: Tables, f: Flush, ls: seq<Pair>, us: seq<Pair>) {
    Exact(t) && KnownPosts(t, f) && ValidFlush(t, f) && f.likes == ls && f.unlikes == us
  }

  /** Every exact table stays exact under every flush the code allows for the batch. */
  ghost predicate AlwaysExact(ls: seq<Pair>, us: seq<Pair>) {
    forall t, f :: MayFlush(t, f, ls, us) ==> Exact(AfterFlush(t, f))
  }

  function CountOn(ps: seq<Pair>, p: int): int {
    At(PerPost(ps), p)
  }

  /**
   The one family in which a mixed batch scales right by luck: one pair is both liked and
   unliked, all other unlikes are about one other post, and there are enough of them.
   */
  ghost predicate Cancels(ls: seq<Pair>, us: seq<Pair>, a: Pair, p: int) {
    && a in ls && a in us && a.post != p
    && (forall q :: q in us ==> q == a || q.post == p)
    && 0 < CountOn(us, a.post) < CountOn(us, p)
    && CountOn(us, a.post) * |PostRows(Members(us), p)| <= CountOn(us, p)
  }

  // ---- Tables to try a batch on --------------------------------------------------------------

  function PostsOf(ps: seq<Pair>): set<int> {
    set q | q in ps :: q.post
  }

  function TableOf(rows: set<Pair>, posts: set<int>): Tables {
    Tables(rows, map p | p in posts :: |PostRows(rows, p)|)
  }

  lemma TableOfFacts(rows: set<Pair>, posts: set<int>)
    ensures Exact(TableOf(rows, posts))
    ensures forall p :: p in posts <==> p in TableOf(rows, posts).counts
  {
  }

  lemma PostInBatch(ps: seq<Pair>, p: int)
    ensures p in PerPost(ps) <==> p in PostsOf(ps)
    ensures p in PostsOf(ps) <==> exists q :: q in ps && q.post == p
    ensures CountOn(ps, p) >= 0 && (CountOn(ps, p) > 0 <==> p in PostsOf(ps))
  {
    PerPostFacts(ps);
    if i :| 0 <= i < |ps| && ps[i].post == p {
      assert ps[i] in ps;
    }
    if q :| q in ps && q.post == p {
      var i :| 0 <= i < |ps| && ps[i] == q;
      assert ps[i].post == p;
    }
  }

  lemma PostRowsSplit(rows: set<Pair>, gone: set<Pair>, p: int)
    requires gone <= rows
    ensures |PostRows(rows - gone, p)| == |PostRows(rows, p)| - |PostRows(gone, p)|
  {
    assert PostRows(rows - gone, p) == PostRows(rows, p) - PostRows(gone, p);
    SubsetSize(PostRows(gone, p), PostRows(rows, p));
  }

  // ---- What always-exactness forces on the unlikes -----------------------------------------------

  /** A batch on a table that has all its likes already, and of its unlikes exactly D. */
  lemma OnlyDeletes(ls: seq<Pair>, us: seq<Pair>, gone: set<Pair>, dec: map<int, int>)
    requires Members(ls) * Members(us) <= gone <= Members(us)
    requires IsScaling(PerPost(us), |us|, |gone|, dec)
    ensures var rows := gone + Members(ls);
      var t, f := TableOf(rows, PostsOf(ls) + PostsOf(us)), Flush(ls, us, map[], dec);
      && MayFlush(t, f, ls, us)
      && AfterFlush(t, f) == Tables(rows - gone, Decremented(t.counts, dec))
  {
    var rows := gone + Members(ls);
    var t, f := TableOf(rows, PostsOf(ls) + PostsOf(us)), Flush(ls, us, map[], dec);
    TableOfFacts(rows, PostsOf(ls) + PostsOf(us));
    assert rows + Members(ls) == rows;
    NothingToUpdate(t.counts);
    assert rows - Members(us) == rows - gone;
    SubsetSize(gone, rows);
    assert Inserted(t, f) == 0 && Deleted(t, f) == |gone|;
    KnownIn(ls, us, t, f);
  }

  lemma KnownIn(ls: seq<Pair>, us: seq<Pair>, t: Tables, f: Flush)
    requires f.likes == ls && f.unlikes == us
    requires forall p :: p in PostsOf(ls) + PostsOf(us) ==> p in t.counts
    ensures KnownPosts(t, f)
  {
    forall i | 0 <= i < |ls|
      ensures ls[i].post in t.counts
    {
      assert ls[i] in ls && ls[i].post in PostsOf(ls);
    }
    forall i | 0 <= i < |us|
      ensures us[i].post in t.counts
    {
      assert us[i] in us && us[i].post in PostsOf(us);
    }
  }

  lemma ScaledFacts(ps: seq<Pair>, landed: int, scaled: map<int, int>)
    requires 0 <= landed <= |ps| && IsScaling(PerPost(ps), |ps|, landed, scaled)
    ensures Positive(scaled) && Sum(scaled) == landed && forall p :: At(scaled, p) >= 0
  {
    PerPostFacts(ps);
    ScalingConservesMass(PerPost(ps), |ps|, landed, scaled);
  }

  lemma GoneFits(us: seq<Pair>, gone: set<Pair>)
    requires gone <= Members(us)
    ensures 0 <= |gone| <= |us|
  {
    SubsetSize(gone, Members(us));
    MembersSize(us);
  }

  /** Each post must lose at least what was deleted from it. */
  lemma DeletedAreCovered(ls: seq<Pair>, us: seq<Pair>, gone: set<Pair>, dec: map<int, int>, p: int)
    requires AlwaysExact(ls, us) && Members(ls) * Members(us) <= gone <= Members(us)
    requires IsScaling(PerPost(us), |us|, |gone|, dec)
    ensures At(dec, p) >= |PostRows(gone, p)|
  {
    GoneFits(us, gone);
    ScaledFacts(us, |gone|, dec);
    if p in PostsOf(us) {
      StaysExact(ls, us, gone, dec);
      ExactCovers(gone + Members(ls), PostsOf(ls) + PostsOf(us), gone, dec, p);
    } else {
      assert PostRows(gone, p) == {};
    }
  }

  lemma StaysExact(ls: seq<Pair>, us: seq<Pair>, gone: set<Pair>, dec: map<int, int>)
    requires AlwaysExact(ls, us) && Members(ls) * Members(us) <= gone <= Members(us)
    requires IsScaling(PerPost(us), |us|, |gone|, dec)
    ensures var rows := gone + Members(ls);
      Exact(Tables(rows - gone, Decremented(TableOf(rows, PostsOf(ls) + PostsOf(us)).counts, dec)))
  {
    OnlyDeletes(ls, us, gone, dec);
  }

  /** A counter that is exact before and after deletions lost at least what was deleted. */
  lemma ExactCovers(rows: set<Pair>, posts: set<int>, gone: set<Pair>, dec: map<int, int>, p: int)
    requires p in posts && gone <= rows && Exact(Tables(rows - gone, Decremented(TableOf(rows, posts).counts, dec)))
    requires At(dec, p) >= 0
    ensures At(dec, p) >= |PostRows(gone, p)|
  {
    var counts := TableOf(rows, posts).counts;
    assert p in counts && counts[p] == |PostRows(rows, p)|;
    assert p in Decremented(counts, dec) && Decremented(counts, dec)[p] == |PostRows(rows - gone, p)|;
    PostRowsSplit(rows, gone, p);
  }

  // ---- The likes must be about one post ------------------------------------------------------------

  lemma TwoOf(m: map<int, int>, p: int, q: int)
    requires p != q && forall k :: At(m, k) >= 0
    ensures At(m, p) + At(m, q) <= Sum(m)
  {
    ThreeOf(m, p, q, q);
  }

  lemma ThreeOf(m: map<int, int>, p: int, q: int, r: int)
    requires p != q && p != r && forall k :: At(m, k) >= 0
    ensures At(m, p) + At(m, q) + (if r == q then 0 else At(m, r)) <= Sum(m)
  {
    var m1 := m - {p};
    var m2 := m1 - {q};
    TakeOut(m, p);
    TakeOut(m1, q);
    TakeOut(m2, r);
    var rest := m2 - {r};
    forall k | k in rest
      ensures rest[k] >= 0
    {
      assert At(m, k) == rest[k];
    }
    SumNonNegative(rest);
  }

  lemma TakeOut(m: map<int, int>, p: int)
    ensures Sum(m) == At(m, p) + Sum(m - {p})
  {
    if p in m {
      SumRemove(m, p);
    } else {
      assert m - {p} == m;
    }
  }

  lemma CountsArePositive(ps: seq<Pair>)
    ensures forall k :: At(PerPost(ps), k) >= 0
  {
    PerPostFacts(ps);
  }

  /** A post beside another one has less than the whole batch. */
  lemma PartOfBatch(ps: seq<Pair>, x: Pair, other: Pair)
    requires x in ps && other in ps && x.post != other.post
    ensures 0 < CountOn(ps, x.post) < |ps|
  {
    PerPostFacts(ps);
    PostInBatch(ps, x.post);
    PostInBatch(ps, other.post);
    CountsArePositive(ps);
    TwoOf(PerPost(ps), x.post, other.post);
  }

  /** With one row landing, every post but the last bucket's gets nothing. */
  lemma OneLanded(ps: seq<Pair>) returns (scaled: map<int, int>, x: Pair)
    requires !OnePost(ps)
    ensures IsScaling(PerPost(ps), |ps|, 1, scaled) && x in ps && At(scaled, x.post) == 0
  {
    var i, j :| 0 <= i < j < |ps| && ps[i].post != ps[j].post;
    PartOfBatch(ps, ps[i], ps[j]);
    PartOfBatch(ps, ps[j], ps[i]);
    PerPostFacts(ps);
    scaled := ScalingExists(PerPost(ps), |ps|, 1);
    var last := ScalingLast(PerPost(ps), |ps|, 1, scaled);
    x := if ps[i].post != last then ps[i] else ps[j];
    PostInBatch(ps, x.post);
    ScaledFacts(ps, 1, scaled);
    FloorOfLess(CountOn(ps, x.post), |ps|, At(scaled, x.post));
  }

  lemma AtLeastOnce(raw: int, share: int)
    requires raw >= 0 && share >= 1
    ensures raw * share >= raw
  {
  }

  lemma FloorOfLess(count: int, raw: int, share: int)
    requires 0 <= count < raw && 0 <= share && 0 <= count - raw * share
    ensures share == 0
  {
    if share >= 1 {
      AtLeastOnce(raw, share);
    }
  }

  lemma {:induction false} FreshUser(rows: set<Pair>) returns (u: int)
    ensures forall q :: q in rows ==> q.user < u
  {
    if rows == {} {
      u := 0;
    } else {
      var q := Any(rows);
      u := FreshUser(rows - {q});
      assert forall r :: r in rows ==> r == q || r in rows - {q};
      if u <= q.user {
        u := q.user + 1;
      }
    }
  }

  /** A table on which a batch with likes of two posts drifts, when the unlikes cover what they delete. */
  lemma DriftingTable(ls: seq<Pair>, us: seq<Pair>, dec: map<int, int>) returns (t: Tables, f: Flush)
    requires !OnePost(ls) && IsScaling(PerPost(us), |us|, |Members(us)|, dec)
    requires forall p :: At(dec, p) >= |PostRows(Members(us), p)|
    ensures MayFlush(t, f, ls, us) && !Exact(AfterFlush(t, f))
  {
    var inc, x := OneLanded(ls);
    var rows := Members(ls) + Members(us);
    var u := FreshUser(rows);
    var pad := Pair(u, x.post);
    var full := rows + {pad};
    t, f := TableOf(full - {x}, PostsOf(ls) + PostsOf(us)), Flush(ls, us, inc, dec);
    OneMissing(ls, us, full, x, inc, dec);
    PostInBatch(ls, x.post);
    assert pad !in Members(us);
    MissedRows(full, Members(us), x, pad);
    StaysBehind(t, f, x.post, |PostRows(full, x.post)|);
  }

  lemma MissedRows(full: set<Pair>, gone: set<Pair>, x: Pair, pad: Pair)
    requires x in full && gone <= full && pad in full && pad !in gone && pad.post == x.post
    ensures |PostRows(full - {x}, x.post)| == |PostRows(full, x.post)| - 1
    ensures |PostRows(full - gone, x.post)| == |PostRows(full, x.post)| - |PostRows(gone, x.post)|
    ensures |PostRows(full - gone, x.post)| >= 1
  {
    PostRowsSplit(full, {x}, x.post);
    assert PostRows({x}, x.post) == {x};
    PostRowsSplit(full, gone, x.post);
    assert pad in PostRows(full - gone, x.post);
  }

  /** All rows there but one of the likes: one row lands, and all unlikes find theirs. */
  lemma OneMissing(ls: seq<Pair>, us: seq<Pair>, full: set<Pair>, x: Pair, inc: map<int, int>, dec: map<int, int>)
    requires x in ls && Members(ls) + Members(us) <= full
    requires IsScaling(PerPost(ls), |ls|, 1, inc) && IsScaling(PerPost(us), |us|, |Members(us)|, dec)
    ensures var t, f := TableOf(full - {x}, PostsOf(ls) + PostsOf(us)), Flush(ls, us, inc, dec);
      MayFlush(t, f, ls, us) && AfterFlush(t, f).likes == full - Members(us)
  {
    var t, f := TableOf(full - {x}, PostsOf(ls) + PostsOf(us)), Flush(ls, us, inc, dec);
    TableOfFacts(full - {x}, PostsOf(ls) + PostsOf(us));
    assert full - {x} + Members(ls) == full;
    assert |full - {x}| == |full| - 1;
    SubsetSize(Members(us), full);
    assert Inserted(t, f) == 1 && Deleted(t, f) == |Members(us)|;
    KnownIn(ls, us, t, f);
  }

  /** A counter one short before the deletions ends short. */
  lemma StaysBehind(t: Tables, f: Flush, p: int, rows: int)
    requires p in t.counts && t.counts[p] == rows - 1 && At(f.inc, p) == 0 && At(f.dec, p) >= 0
    requires |PostRows(AfterFlush(t, f).likes, p)| >= 1
    requires |PostRows(AfterFlush(t, f).likes, p)| >= rows - At(f.dec, p)
    ensures !Exact(AfterFlush(t, f))
  {
    var after := AfterFlush(t, f);
    assert p in after.counts;
    assert after.counts[p] == if At(f.dec, p) > 0 then Max0(rows - 1 - At(f.dec, p)) else rows - 1;
    assert after.counts[p] != |PostRows(after.likes, p)|;
  }

  lemma LikesAreOnePost(ls: seq<Pair>, us: seq<Pair>)
    requires AlwaysExact(ls, us)
    ensures OnePost(ls)
  {
    if !OnePost(ls) {
      PerPostFacts(us);
      var dec := ScalingExists(PerPost(us), |us|, |Members(us)|);
      forall p
        ensures At(dec, p) >= |PostRows(Members(us), p)|
      {
        DeletedAreCovered(ls, us, Members(us), dec, p);
      }
      var t, f := DriftingTable(ls, us, dec);
    }
  }

  // ---- The unlikes: one post, or the one lucky family ----------------------------------------------

  function Both(ls: seq<Pair>, us: seq<Pair>): set<Pair> {
    Members(ls) * Members(us)
  }

  /** Some pair must be liked and unliked in the same batch. */
  lemma SomethingInBoth(ls: seq<Pair>, us: seq<Pair>)
    requires AlwaysExact(ls, us) && !OnePost(us)
    ensures Both(ls, us) != {}
  {
    var dec, x := OneLanded(us);
    assert x in PostRows({x}, x.post);
    if Both(ls, us) == {} {
      DeletedAreCovered(ls, us, {x}, dec, x.post);
    }
  }

  lemma {:induction false} DistinctOn(ps: seq<Pair>, p: int)
    ensures |PostRows(Members(ps), p)| <= CountOn(ps, p)
  {
    if ps == [] {
      assert PostRows(Members(ps), p) == {};
    } else {
      var init, last := ps[..|ps| - 1], ps[|ps| - 1];
      DistinctOn(init, p);
      assert ps == init + [last];
      var before, after := PostRows(Members(init), p), PostRows(Members(ps), p);
      assert after == before + if last.post == p then {last} else {};
    }
  }

  /** All pairs in both halves are about one post, and there are no more of them than unlikes on it. */
  lemma BothOnOnePost(ls: seq<Pair>, us: seq<Pair>, z: int)
    requires OnePost(ls) && exists a :: a in Both(ls, us) && a.post == z
    ensures PostRows(Both(ls, us), z) == Both(ls, us)
    ensures 0 < |Both(ls, us)| <= CountOn(us, z)
  {
    var a :| a in Both(ls, us) && a.post == z;
    OnePostMembers(ls);
    DistinctOn(us, z);
    assert PostRows(Both(ls, us), z) <= PostRows(Members(us), z);
    SubsetSize(PostRows(Both(ls, us), z), PostRows(Members(us), z));
  }

  lemma NotEnough(count: int, d: int, raw: int, share: int)
    requires 0 < count < raw && 0 < d && raw * share <= count * d
    ensures share < d
  {
    if share >= d {
      ProductMonotone(raw, d, share);
      ProductMonotone(d, count + 1, raw);
    }
  }

  lemma ProductMonotone(a: int, b: int, c: int)
    requires a >= 0 && b <= c
    ensures a * b <= a * c && b * a <= c * a
  {
  }

  /** Their post has the smallest bucket, alone. */
  lemma StrictlySmallest(ls: seq<Pair>, us: seq<Pair>, z: int, p: int)
    requires AlwaysExact(ls, us) && OnePost(ls) && p in PostsOf(us) && p != z
    requires exists a :: a in Both(ls, us) && a.post == z
    ensures CountOn(us, z) < CountOn(us, p)
  {
    if CountOn(us, z) >= CountOn(us, p) {
      var last := SmallestBeside(us, z, p);
      LastMustBe(ls, us, z, last);
    }
  }

  /** When some other bucket is no larger, a smallest bucket other than z's exists. */
  lemma SmallestBeside(us: seq<Pair>, z: int, p: int) returns (last: int)
    requires p in PostsOf(us) && p != z && CountOn(us, z) >= CountOn(us, p)
    ensures Smallest(PerPost(us), last) && last != z
  {
    PostInBatch(us, p);
    last := SmallestExists(PerPost(us));
    if last == z {
      last := p;
    }
  }

  /** An order that puts another bucket last would take rows away from it. */
  lemma LastMustBe(ls: seq<Pair>, us: seq<Pair>, z: int, last: int)
    requires AlwaysExact(ls, us) && OnePost(ls) && exists a :: a in Both(ls, us) && a.post == z
    requires Smallest(PerPost(us), last)
    ensures last == z
  {
    var both := Both(ls, us);
    BothOnOnePost(ls, us, z);
    PerPostFacts(us);
    if last != z {
      BesideAnother(us, z, last);
      var dec := ScalingWithLast(PerPost(us), |us|, |both|, last);
      DeletedAreCovered(ls, us, both, dec, z);
      NotEnough(CountOn(us, z), |both|, |us|, At(dec, z));
    }
  }

  lemma BesideAnother(us: seq<Pair>, z: int, p: int)
    requires z != p && CountOn(us, z) > 0 && p in PerPost(us)
    ensures 0 < CountOn(us, z) < |us| && z in PerPost(us) && CountOn(us, p) > 0
  {
    PerPostFacts(us);
    CountsArePositive(us);
    TwoOf(PerPost(us), z, p);
  }

  /** Every pair that is only unliked is about the same post. */
  lemma OneOtherPost(ls: seq<Pair>, us: seq<Pair>, z: int, y: Pair, y': Pair)
    requires AlwaysExact(ls, us) && OnePost(ls) && exists a :: a in Both(ls, us) && a.post == z
    requires y in us && y !in ls && y.post != z && y' in us && y' !in ls
    ensures y'.post == y.post
  {
    var both := Both(ls, us);
    BothOnOnePost(ls, us, z);
    PerPostFacts(us);
    var dec := ScalingExists(PerPost(us), |us|, |both| + 1);
    OneMoreGone(ls, us, z, y, dec);
    OneMoreGone(ls, us, z, y', dec);
    GoneFits(us, both + {y});
    assert |both + {y}| == |both| + 1;
    ScaledFacts(us, |both| + 1, dec);
    if y'.post != y.post {
      if y'.post == z {
        TwoOf(dec, z, y.post);
      } else {
        ThreeOf(dec, z, y.post, y'.post);
      }
    }
  }

  lemma OneMoreGone(ls: seq<Pair>, us: seq<Pair>, z: int, y: Pair, dec: map<int, int>)
    requires AlwaysExact(ls, us) && OnePost(ls) && exists a :: a in Both(ls, us) && a.post == z
    requires y in us && y !in ls && IsScaling(PerPost(us), |us|, |Both(ls, us)| + 1, dec)
    ensures At(dec, z) >= |Both(ls, us)| + if y.post == z then 1 else 0
    ensures At(dec, y.post) >= 1
  {
    BothOnOnePost(ls, us, z);
    RowsWith(Both(ls, us), y, z);
    OneMoreCovered(ls, us, y, dec, z);
    OneMoreCovered(ls, us, y, dec, y.post);
  }

  lemma OneMoreCovered(ls: seq<Pair>, us: seq<Pair>, y: Pair, dec: map<int, int>, p: int)
    requires AlwaysExact(ls, us) && y in us && y !in ls
    requires IsScaling(PerPost(us), |us|, |Both(ls, us)| + 1, dec)
    ensures At(dec, p) >= |PostRows(Both(ls, us) + {y}, p)|
  {
    assert |Both(ls, us) + {y}| == |Both(ls, us)| + 1;
    DeletedAreCovered(ls, us, Both(ls, us) + {y}, dec, p);
  }

  lemma RowsWith(both: set<Pair>, y: Pair, z: int)
    requires PostRows(both, z) == both && y !in both
    ensures |both + {y}| == |both| + 1
    ensures |PostRows(both + {y}, z)| == |both| + if y.post == z then 1 else 0
    ensures |PostRows(both + {y}, y.post)| >= 1
  {
    if y.post == z {
      assert PostRows(both + {y}, z) == both + {y};
    } else {
      assert PostRows(both + {y}, z) == both;
    }
    assert y in PostRows(both + {y}, y.post);
  }

  // ---- The exact condition ---------------------------------------------------------------------------

  /** A batch about two posts is the sum of the two counts. */
  lemma {:induction false} TwoPosts(us: seq<Pair>, z: int, p: int)
    requires z != p && forall q :: q in us ==> q.post == z || q.post == p
    ensures |us| == CountOn(us, z) + CountOn(us, p)
  {
    if us != [] {
      var init, last := us[..|us| - 1], us[|us| - 1];
      assert us == init + [last];
      TwoPosts(init, z, p);
    }
  }

  /** Only one pair can be in both halves: two would make the other post's share too large. */
  lemma OnlyOneBoth(ls: seq<Pair>, us: seq<Pair>, z: int, p: int)
    requires AlwaysExact(ls, us) && OnePost(ls) && exists a :: a in Both(ls, us) && a.post == z
    requires p in PostsOf(us) && p != z && forall q :: q in us ==> q.post == z || q.post == p
    ensures |Both(ls, us)| == 1
  {
    var both, raw := Both(ls, us), |us|;
    BothOnOnePost(ls, us, z);
    StrictlySmallest(ls, us, z, p);
    TwoPosts(us, z, p);
    PerPostFacts(us);
    PostInBatch(us, p);
    PostInBatch(us, z);
    SmallestOfTwo(us, z, p);
    var dec := ScalingWithLast(PerPost(us), raw, |both|, z);
    DeletedAreCovered(ls, us, both, dec, z);
    GoneFits(us, both);
    ScaledFacts(us, |both|, dec);
    TwoOf(dec, z, p);
    assert CountOn(us, p) * |both| < raw;
    if |both| >= 2 {
      ProductMonotone(CountOn(us, p), 2, |both|);
    }
  }

  lemma SmallestOfTwo(us: seq<Pair>, z: int, p: int)
    requires 0 < CountOn(us, z) < CountOn(us, p) && forall q :: q in us ==> q.post == z || q.post == p
    ensures Smallest(PerPost(us), z)
  {
    PerPostFacts(us);
    forall k | k in PerPost(us)
      ensures k == z || k == p
    {
      var i :| 0 <= i < |us| && us[i].post == k;
      assert us[i] in us;
    }
  }

  /** With every unlike finding its row, the small bucket must not take from the large one. */
  lemma LargeEnough(ls: seq<Pair>, us: seq<Pair>, a: Pair, p: int)
    requires AlwaysExact(ls, us) && a in us && a.post != p && p in PostsOf(us)
    requires forall q :: q in us ==> q == a || q.post == p
    requires 0 < CountOn(us, a.post) < CountOn(us, p)
    ensures CountOn(us, a.post) * |PostRows(Members(us), p)| <= CountOn(us, p)
  {
    var z, d := a.post, 1 + |PostRows(Members(us), p)|;
    TwoPosts(us, z, p);
    DistinctOn(us, p);
    AllButOne(us, a, p);
    if d < |us| {
      var share := CoveringShare(ls, us, z, p, d);
      EnoughFor(CountOn(us, z), CountOn(us, p), d - 1, share);
    } else {
      OneIsEnough(CountOn(us, z), CountOn(us, p), d - 1);
    }
  }

  /** With every unlike finding its row and z last, p's share covers what p loses. */
  lemma CoveringShare(ls: seq<Pair>, us: seq<Pair>, z: int, p: int, d: int) returns (share: int)
    requires AlwaysExact(ls, us) && z != p && p in PostsOf(us) && forall q :: q in us ==> q.post == z || q.post == p
    requires 0 < CountOn(us, z) < CountOn(us, p) && |us| == CountOn(us, z) + CountOn(us, p)
    requires d == |Members(us)| && 0 < d < |us|
    ensures share >= |PostRows(Members(us), p)|
    ensures CountOn(us, p) * d - (CountOn(us, z) + CountOn(us, p)) * share >= 0
  {
    SmallestOfTwo(us, z, p);
    PerPostFacts(us);
    var dec := ScalingWithLast(PerPost(us), |us|, d, z);
    DeletedAreCovered(ls, us, Members(us), dec, p);
    SecondShare(us, z, p, d, dec);
    share := At(dec, p);
  }

  lemma SecondShare(us: seq<Pair>, z: int, p: int, d: int, dec: map<int, int>)
    requires z != p && p in PostsOf(us) && |us| == CountOn(us, z) + CountOn(us, p)
    requires SharesBut(PerPost(us), |us|, d, dec, z)
    ensures CountOn(us, p) * d - (CountOn(us, z) + CountOn(us, p)) * At(dec, p) >= 0
  {
    PostInBatch(us, p);
  }

  lemma OneIsEnough(z: int, p: int, d: int)
    requires 0 < z && d <= p && z + p <= 1 + d
    ensures z * d <= p
  {
    assert z == 1;
  }

  lemma EnoughFor(z: int, p: int, d: int, share: int)
    requires 0 <= z && 0 <= p && d <= share && p * (1 + d) - (z + p) * share >= 0
    ensures z * d <= p
  {
    ProductMonotone(z + p, d, share);
    assert (z + p) * d == z * d + p * d && p * (1 + d) == p + p * d;
  }

  lemma AllButOne(us: seq<Pair>, a: Pair, p: int)
    requires a in us && a.post != p && forall q :: q in us ==> q == a || q.post == p
    ensures |Members(us)| == 1 + |PostRows(Members(us), p)|
    ensures Members(us) == {a} + PostRows(Members(us), p)
  {
    assert Members(us) == {a} + PostRows(Members(us), p);
  }

  lemma UnlikesAreOnePostOrCancel(ls: seq<Pair>, us: seq<Pair>) returns (a: Pair, p: int)
    requires AlwaysExact(ls, us) && OnePost(ls) && !OnePost(us)
    ensures Cancels(ls, us, a, p)
  {
    SomethingInBoth(ls, us);
    a := Any(Both(ls, us));
    var z := a.post;
    BothOnOnePost(ls, us, z);
    var y := OnlyUnliked(ls, us, z);
    p := y.post;
    forall q | q in us && q !in Both(ls, us)
      ensures q.post == p
    {
      OneOtherPost(ls, us, z, y, q);
    }
    forall q | q in us
      ensures q.post == z || q.post == p
    {
      if q in Both(ls, us) {
        assert q in PostRows(Both(ls, us), z);
      }
    }
    OnlyOneBoth(ls, us, z, p);
    OnlyMember(Both(ls, us), a);
    StrictlySmallest(ls, us, z, p);
    LargeEnough(ls, us, a, p);
  }

  lemma OnlyMember<T>(s: set<T>, a: T)
    requires a in s && |s| == 1
    ensures s == {a}
  {
    SubsetSize({a}, s);
    assert s == {a} + (s - {a});
  }

  /** Unlikes about more than one post have one about another post than the shared pairs. */
  lemma OnlyUnliked(ls: seq<Pair>, us: seq<Pair>, z: int) returns (y: Pair)
    requires OnePost(ls) && !OnePost(us) && exists a :: a in Both(ls, us) && a.post == z
    ensures y in us && y !in ls && y.post != z
  {
    var i, j :| 0 <= i < j < |us| && us[i].post != us[j].post;
    y := if us[i].post != z then us[i] else us[j];
    OnePostMembers(ls);
  }

  /** In the lucky family each post loses exactly what was deleted from it. */
  lemma CancelScaling(ls: seq<Pair>, us: seq<Pair>, a: Pair, p: int, gone: set<Pair>, dec: map<int, int>, q: int)
    requires Cancels(ls, us, a, p) && a in gone && gone <= Members(us)
    requires IsScaling(PerPost(us), |us|, |gone|, dec)
    ensures At(dec, q) == |PostRows(gone, q)|
  {
    CancelRows(us, a, p, gone, q);
    CancelTotals(us, a.post, p, |PostRows(gone, p)|, dec);
    OnOtherPosts(us, a.post, p, q);
  }

  /** One row of the small bucket and s of the large one are attributed as they were deleted. */
  lemma CancelTotals(us: seq<Pair>, z: int, p: int, s: int, dec: map<int, int>)
    requires z != p && 0 < CountOn(us, z) < CountOn(us, p) && forall x :: x in us ==> x.post == z || x.post == p
    requires 0 <= s <= |PostRows(Members(us), p)| && CountOn(us, z) * |PostRows(Members(us), p)| <= CountOn(us, p)
    requires IsScaling(PerPost(us), |us|, 1 + s, dec)
    ensures At(dec, z) == 1 && At(dec, p) == s && dec.Keys <= PerPost(us).Keys
  {
    DistinctOn(us, p);
    TwoPosts(us, z, p);
    PerPostFacts(us);
    if 1 + s < |us| {
      ScalingConservesMass(PerPost(us), |us|, 1 + s, dec);
      CancelShare(us, z, p, s, dec);
      TwoKeys(us, dec, z, p);
    } else {
      assert dec == PerPost(us);
    }
  }

  lemma CancelShare(us: seq<Pair>, z: int, p: int, s: int, dec: map<int, int>)
    requires 0 < CountOn(us, z) < CountOn(us, p) && forall x :: x in us ==> x.post == z || x.post == p
    requires 0 <= s <= |PostRows(Members(us), p)| && CountOn(us, z) * |PostRows(Members(us), p)| <= CountOn(us, p)
    requires 1 + s < |us| && IsScaling(PerPost(us), |us|, 1 + s, dec)
    ensures At(dec, p) == s
  {
    PerPostFacts(us);
    var last := ScalingLast(PerPost(us), |us|, 1 + s, dec);
    PostInBatch(us, p);
    PostInBatch(us, z);
    TwoPosts(us, z, p);
    ProductMonotone(CountOn(us, z), s, |PostRows(Members(us), p)|);
    ExactShare(CountOn(us, z), CountOn(us, p), s, At(dec, p));
  }

  lemma OnOtherPosts(us: seq<Pair>, z: int, p: int, q: int)
    requires forall x :: x in us ==> x.post == z || x.post == p
    ensures q != z && q != p ==> q !in PerPost(us)
  {
    PostInBatch(us, q);
  }

  lemma CancelRows(us: seq<Pair>, a: Pair, p: int, gone: set<Pair>, q: int)
    requires a in gone && gone <= Members(us) && a.post != p && forall x :: x in us ==> x == a || x.post == p
    ensures |gone| == 1 + |PostRows(gone, p)| && |PostRows(gone, p)| <= |PostRows(Members(us), p)|
    ensures |PostRows(gone, a.post)| == 1
    ensures q != a.post && q != p ==> |PostRows(gone, q)| == 0
  {
    assert gone == {a} + PostRows(gone, p);
    assert PostRows(gone, a.post) == {a};
    SubsetSize(PostRows(gone, p), PostRows(Members(us), p));
    if q != a.post && q != p {
      assert PostRows(gone, q) == {};
    }
  }

  /** floor(p * (1 + s) / (z + p)) is s as long as s * z <= p. */
  lemma ExactShare(z: int, p: int, s: int, share: int)
    requires 0 < z && 0 < p && 0 <= s && z * s <= p
    requires 0 <= p * (1 + s) - (z + p) * share < z + p
    ensures share == s
  {
    var raw := z + p;
    assert raw * s == z * s + p * s && p * (1 + s) == p + p * s;
    assert raw * (s + 1) == raw * s + raw && z * s >= 0;
    assert raw * (share + 1) == raw * share + raw;
    if share < s {
      ProductMonotone(raw, share + 1, s);
    } else if share > s {
      ProductMonotone(raw, s + 1, share);
    }
  }

  lemma TwoKeys(us: seq<Pair>, dec: map<int, int>, z: int, p: int)
    requires z != p && dec.Keys <= PerPost(us).Keys && forall x :: x in us ==> x.post == z || x.post == p
    ensures Sum(dec) == At(dec, z) + At(dec, p)
  {
    TakeOut(dec, z);
    TakeOut(dec - {z}, p);
    forall k | k in dec - {z} - {p}
      ensures false
    {
      OnOtherPosts(us, z, p, k);
    }
    assert dec - {z} - {p} == map[];
  }

  /** Counters that move by the rows their post gained and lost stay exact. */
  lemma AttributedFlush(t: Tables, f: Flush, gone: set<Pair>, p: int)
    requires p in t.counts && t.counts[p] == |PostRows(t.likes, p)|
    requires At(f.inc, p) == |PostRows(AfterLikes(t, f).likes, p)| - |PostRows(t.likes, p)| && At(f.inc, p) >= 0
    requires gone == AfterLikes(t, f).likes * Members(f.unlikes) && At(f.dec, p) == |PostRows(gone, p)|
    ensures AfterFlush(t, f).counts[p] == |PostRows(AfterFlush(t, f).likes, p)|
  {
    var mid := AfterLikes(t, f);
    assert mid.counts[p] == |PostRows(mid.likes, p)|;
    assert mid.likes - Members(f.unlikes) == mid.likes - gone;
    PostRowsSplit(mid.likes, gone, p);
  }

  lemma CancelsIsExact(ls: seq<Pair>, us: seq<Pair>, a: Pair, p: int, t: Tables, f: Flush)
    requires OnePost(ls) && Cancels(ls, us, a, p) && MayFlush(t, f, ls, us)
    ensures Exact(AfterFlush(t, f))
  {
    forall q | q in AfterFlush(t, f).counts
      ensures AfterFlush(t, f).counts[q] == |PostRows(AfterFlush(t, f).likes, q)|
    {
      CancelsExactAt(ls, us, a, p, t, f, q);
    }
  }

  lemma CancelsExactAt(ls: seq<Pair>, us: seq<Pair>, a: Pair, p: int, t: Tables, f: Flush, q: int)
    requires OnePost(ls) && Cancels(ls, us, a, p) && MayFlush(t, f, ls, us) && q in t.counts
    ensures AfterFlush(t, f).counts[q] == |PostRows(AfterFlush(t, f).likes, q)|
  {
    InsertsAttributed(t, f, q);
    DeletesAttributed(ls, us, a, p, t, f, q);
    AttributedFlush(t, f, AfterLikes(t, f).likes * Members(us), q);
  }

  lemma InsertsAttributed(t: Tables, f: Flush, q: int)
    requires OnePost(f.likes) && ValidFlush(t, f) && KnownPosts(t, f)
    ensures At(f.inc, q) == |PostRows(AfterLikes(t, f).likes, q)| - |PostRows(t.likes, q)| && At(f.inc, q) >= 0
  {
    LandedAttributed(t.likes, f.likes, f.inc, q);
    GrowthBound(t.likes, f.likes);
    ScaledFacts(f.likes, Inserted(t, f), f.inc);
  }

  lemma DeletesAttributed(ls: seq<Pair>, us: seq<Pair>, a: Pair, p: int, t: Tables, f: Flush, q: int)
    requires Cancels(ls, us, a, p) && ValidFlush(t, f) && f.likes == ls && f.unlikes == us
    ensures At(f.dec, q) == |PostRows(AfterLikes(t, f).likes * Members(us), q)|
  {
    DeletesFound(t, f);
    CancelScaling(ls, us, a, p, AfterLikes(t, f).likes * Members(us), f.dec, q);
  }

  lemma DeletesFound(t: Tables, f: Flush)
    requires ValidFlush(t, f)
    ensures IsScaling(PerPost(f.unlikes), |f.unlikes|, |AfterLikes(t, f).likes * Members(f.unlikes)|, f.dec)
  {
    var mid := AfterLikes(t, f).likes;
    assert mid - Members(f.unlikes) == mid - mid * Members(f.unlikes);
    SubsetSize(mid * Members(f.unlikes), mid);
  }

  /**
   The exact condition on a batch under which no table and no bucket order makes a counter
   drift: the likes are about one post, and so are the unlikes or they are of the lucky family.
   */
  lemma AlwaysExactIff(ls: seq<Pair>, us: seq<Pair>)
    ensures AlwaysExact(ls, us) <==> OnePost(ls) && (OnePost(us) || exists a, p :: Cancels(ls, us, a, p))
  {
    if AlwaysExact(ls, us) {
      LikesAreOnePost(ls, us);
      if !OnePost(us) {
        var a, p := UnlikesAreOnePostOrCancel(ls, us);
      }
    }
    if OnePost(ls) && OnePost(us) {
      forall t, f | MayFlush(t, f, ls, us)
        ensures Exact(AfterFlush(t, f))
      {
        FlushKeepsExact(t, f);
      }
    }
    if a, p :| OnePost(ls) && Cancels(ls, us, a, p) {
      forall t, f | MayFlush(t, f, ls, us)
        ensures Exact(AfterFlush(t, f))
      {
        CancelsIsExact(ls, us, a, p, t, f);
      }
    }
  }

  /** When no pair is both liked and unliked, each half must be about a single post. */
  lemma DisjointHalves(ls: seq<Pair>, us: seq<Pair>)
    requires Both(ls, us) == {}
    ensures AlwaysExact(ls, us) <==> OnePost(ls) && OnePost(us)
  {
    AlwaysExactIff(ls, us);
    assert forall a, p :: Cancels(ls, us, a, p) ==> a in Both(ls, us);
  }

  /** The lucky family is not empty: the unlikes are about two posts, and still nothing can drift. */
  lemma TwoPostsWithoutDrift(u: int, v: int, z: int, p: int)
    requires u != v && z != p
    ensures var ls, us := [Pair(u, z)], [Pair(u, p), Pair(v, p), Pair(u, z)];
      !OnePost(us) && AlwaysExact(ls, us)
  {
    var ls, us := [Pair(u, z)], [Pair(u, p), Pair(v, p), Pair(u, z)];
    assert us[0].post != us[2].post;
    PerPostOfThree(us);
    assert PostRows(Members(us), p) == {Pair(u, p), Pair(v, p)};
    assert Cancels(ls, us, Pair(u, z), p);
    AlwaysExactIff(ls, us);
  }

  lemma PerPostOfThree(us: seq<Pair>)
    requires |us| == 3 && us[0].post == us[1].post != us[2].post
    ensures PerPost(us) == map[us[0].post := 2, us[2].post := 1]
  {
    assert us[..3] == us && us[..0] == [];
    PerPostStep(us, 1);
    PerPostStep(us, 2);
    PerPostStep(us, 3);
  }

  // ---- A batch that drifts -------------------------------------------------------------------------------

  /**
   Without cleanness a post's counter drifts: three deliveries of one like on post 1
   beside three likes of post 2 give each post two, although the rows are 1 and 3.
   */
  lemma UncleanFlushDrifts(f: Flush)
    requires f.unlikes == []
    requires f.likes == [Pair(1, 1), Pair(1, 1), Pair(1, 1), Pair(1, 2), Pair(2, 2), Pair(3, 2)]
    requires ValidFlush(Tables({}, map[1 := 0, 2 := 0]), f)
    ensures var t' := AfterFlush(Tables({}, map[1 := 0, 2 := 0]), f);
      && t'.counts[1] == t'.counts[2] == 2
      && PostRows(t'.likes, 1) == {Pair(1, 1)}
      && PostRows(t'.likes, 2) == {Pair(1, 2), Pair(2, 2), Pair(3, 2)}
  {
    var t := Tables({}, map[1 := 0, 2 := 0]);
    var rows := {Pair(1, 1), Pair(1, 2), Pair(2, 2), Pair(3, 2)};
    DriftRows(f.likes);
    assert AfterLikes(t, f).likes == rows;
    NothingDeleted(t, f);
    DriftBatch(f.likes);
    assert Inserted(t, f) == 4;
    DriftShares(f.inc);
  }

  lemma DriftRows(s: seq<Pair>)
    requires s == [Pair(1, 1), Pair(1, 1), Pair(1, 1), Pair(1, 2), Pair(2, 2), Pair(3, 2)]
    ensures var rows := {Pair(1, 1), Pair(1, 2), Pair(2, 2), Pair(3, 2)};
      && Members(s) == rows && {} + Members(s) == rows
      && PostRows(rows, 1) == {Pair(1, 1)}
      && PostRows(rows, 2) == {Pair(1, 2), Pair(2, 2), Pair(3, 2)}
  {
    assert forall p :: p in s <==> p in [Pair(1, 1), Pair(1, 2), Pair(2, 2), Pair(3, 2)];
  }

  lemma NothingDeleted(t: Tables, f: Flush)
    requires ValidFlush(t, f) && f.unlikes == []
    ensures f.dec == map[] && AfterFlush(t, f) == AfterLikes(t, f)
  {
    assert AfterFlush(t, f).likes == AfterLikes(t, f).likes;
    NothingToUpdate(AfterLikes(t, f).counts);
  }

  lemma DriftBatch(s: seq<Pair>)
    requires s == [Pair(1, 1), Pair(1, 1), Pair(1, 1), Pair(1, 2), Pair(2, 2), Pair(3, 2)]
    ensures PerPost(s) == map[1 := 3, 2 := 3]
  {
    assert s[..6] == s && s[..0] == [];
    PerPostStep(s, 1);
    PerPostStep(s, 2);
    PerPostStep(s, 3);
    assert PerPost(s[..3]) == map[1 := 3];
    PerPostStep(s, 4);
    PerPostStep(s, 5);
    PerPostStep(s, 6);
  }

  lemma DriftShares(inc: map<int, int>)
    requires IsScaling(map[1 := 3, 2 := 3], 6, 4, inc)
    ensures At(inc, 1) == 2 && At(inc, 2) == 2
  {
    var m := map[1 := 3, 2 := 3];
    TwoEntries(m);
    ScalingConservesMass(m, 6, 4, inc);
    ScalingError(m, 6, 4, inc);
    TwoEntries(inc);
  }

  lemma PerPostStep(s: seq<Pair>, n: nat)
    requires 0 < n <= |s|
    ensures PerPost(s[..n]) == PerPost(s[..n - 1])[s[n - 1].post := At(PerPost(s[..n - 1]), s[n - 1].post) + 1]
  {
    assert s[..n][..n - 1] == s[..n - 1];
  }

  lemma TwoEntries(m: map<int, int>)
    requires m.Keys <= {1, 2}
    ensures Sum(m) == At(m, 1) + At(m, 2)
  {
    if 1 in m {
      SumRemove(m, 1);
    } else {
      assert m - {1} == m;
    }
    var rest := m - {1};
    if 2 in rest {
      SumRemove(rest, 2);
    } else {
      assert rest - {2} == rest;
    }
    assert rest - {2} == map[];
  }
}
