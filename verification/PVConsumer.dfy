/** The page-view consumer: views are folded into one increment per post and flushed in batches. */
module PVConsumer {
  import opened Prelude
  import opened EventDedup
  import opened FlushInputs

  /** `view_count` of every post after the given views, had each been an UPDATE of its own. */
  function Viewed(posts: map<int, nat>, views: seq<int>): map<int, nat> {
    map p | p in posts :: posts[p] + multiset(views)[p]
  }

  /** The delta map after the given views. */
  function Tallied(views: seq<int>): map<int, int> {
    if views == [] then map[]
    else
      var m, p := Tallied(views[..|views| - 1]), views[|views| - 1];
      m[p := At(m, p) + 1]
  }

  lemma {:induction false} TalliedIsCount(views: seq<int>, p: int)
    ensures At(Tallied(views), p) == multiset(views)[p]
    ensures p in Tallied(views) <==> p in views
  {
    if views != [] {
      TalliedIsCount(views[..|views| - 1], p);
      assert views == views[..|views| - 1] + [views[|views| - 1]];
    }
  }

  lemma {:induction false} TalliedSum(views: seq<int>)
    ensures Sum(Tallied(views)) == |views|
  {
    if views != [] {
      TalliedSum(views[..|views| - 1]);
      SumBump(Tallied(views[..|views| - 1]), views[|views| - 1], 1);
    }
  }

  /** UPDATE posts SET view_count = view_count + n WHERE id = p. */
  function Incremented(posts: map<int, nat>, p: int, n: nat): map<int, nat> {
    if p in posts then posts[p := posts[p] + n] else posts
  }

  /** The table in the middle of a flush, with the posts `left` still to be updated. */
  ghost function FlushedBut(posts: map<int, nat>, views: seq<int>, left: set<int>): map<int, nat> {
    map p | p in posts :: if p in left then posts[p] else posts[p] + multiset(views)[p]
  }

  lemma FlushedOne(posts: map<int, nat>, views: seq<int>, left: set<int>, p: int)
    requires p in left
    ensures var t := FlushedBut(posts, views, left);
      FlushedBut(posts, views, left - {p}) == Incremented(t, p, multiset(views)[p])
  {
    var t, t' := FlushedBut(posts, views, left), FlushedBut(posts, views, left - {p});
    forall k | k in posts
      ensures k in t && k in t' && t'[k] == if k == p then t[k] + multiset(views)[k] else t[k]
    {
    }
  }

  lemma FlushedEnds(posts: map<int, nat>, views: seq<int>)
    ensures FlushedBut(posts, views, Tallied(views).Keys) == posts
    ensures FlushedBut(posts, views, {}) == Viewed(posts, views)
  {
    var t, v := FlushedBut(posts, views, Tallied(views).Keys), Viewed(posts, views);
    forall k | k in posts
      ensures k in t && t[k] == posts[k]
    {
      TalliedIsCount(views, k);
    }
    assert forall k :: k in posts ==> FlushedBut(posts, views, {})[k] == v[k];
  }

  class Consumer {
    var posts: map<int, nat>
    var deltas: map<int, int>
    var bufCount: nat
    const batchSize: nat
    /** The views taken from the channel since the last flush. */
    ghost var batch: seq<int>

    ghost predicate Valid()
      reads this
    {
      deltas == Tallied(batch) && bufCount == |batch|
    }

    constructor (posts: map<int, nat>, batchSize: nat)
      ensures Valid() && batch == [] && this.posts == posts && this.batchSize == batchSize
    {
      this.posts, this.batchSize, deltas, bufCount, batch := posts, batchSize, map[], 0, [];
    }

    /** One UPDATE; a vanished post matches no row but is still counted as handled. */
    method FlushPost(postID: int) returns (handled: int)
      requires Valid() && postID in deltas
      modifies this`posts
      ensures handled == deltas[postID]
      ensures posts == Incremented(old(posts), postID, multiset(batch)[postID])
    {
      TalliedIsCount(batch, postID);
      var delta := deltas[postID];
      if delta <= 0 {
        return delta;
      }
      if postID in posts {
        posts := posts[postID := posts[postID] + delta];
      }
      handled := delta;
    }

    /** One increment per distinct post, in map order. */
    method Flush() returns (total: int)
      requires Valid()
      modifies this
      ensures Valid() && batch == []
      ensures posts == Viewed(old(posts), old(batch))
      ensures total == |old(batch)|
    {
      var left := deltas.Keys;
      total := 0;
      FlushedEnds(posts, batch);
      while left != {}
        invariant left <= deltas.Keys && deltas == old(deltas) && batch == old(batch) && bufCount == old(bufCount)
        invariant posts == FlushedBut(old(posts), batch, left)
        invariant total == HandledTotal(deltas, left)
        decreases |left|
      {
        var p, rest := Pick(left);
        FlushedOne(old(posts), batch, left, p);
        HandledOne(deltas, left, p);
        var handled := FlushPost(p);
        total := total + handled;
        left := rest;
      }
      TalliedSum(batch);
      deltas, bufCount, batch := map[], 0, [];
    }

    method Apply(postID: int)
      requires Valid()
      modifies this
      ensures Valid() && batch == old(batch) + [postID] && posts == old(posts)
    {
      deltas := deltas[postID := At(deltas, postID) + 1];
      bufCount, batch := bufCount + 1, batch + [postID];
      assert batch[..|batch| - 1] == old(batch);
    }

    /** One receive: the buffer is flushed when it is full, or on a tick when it is not empty. */
    method OnInput(input: Input<int>) returns (processed: int)
      requires Valid()
      modifies this
      ensures Valid()
      ensures Viewed(posts, batch) == Viewed(old(posts), old(batch) + Carried(input))
      ensures input.Ticker? ==> batch == []
      ensures input.Received? ==> batch == if |old(batch)| + 1 >= batchSize then [] else old(batch) + [input.item]
      ensures batch != [] ==> posts == old(posts)
      ensures processed + |batch| == |old(batch)| + |Carried(input)|
    {
      var full := bufCount > 0;
      if input.Received? {
        Apply(input.item);
        full := bufCount >= batchSize;
      }
      assert batch == old(batch) + Carried(input);
      processed := 0;
      if full {
        processed := Flush();
        ViewedNone(posts);
      }
    }

    /** What is left in the channel once its senders have gone. */
    method Drain(buffered: seq<int>)
      requires Valid()
      modifies this
      ensures Valid() && posts == old(posts) && batch == old(batch) + buffered
    {
      var i := 0;
      while i < |buffered|
        invariant 0 <= i <= |buffered| && Valid() && posts == old(posts)
        invariant batch == old(batch) + buffered[..i]
      {
        Apply(buffered[i]);
        assert buffered[..i + 1] == buffered[..i] + [buffered[i]];
        i := i + 1;
      }
      assert buffered[..i] == buffered;
    }

    /** The loop while it runs: what is not yet in the table is the batch that has not ended. */
    method Consume(inputs: seq<Input<int>>) returns (processed: int)
      requires Valid() && batch == []
      modifies this
      ensures Valid() && batch == BatchesAfter(inputs, BatchFull(batchSize)).open
      ensures Viewed(posts, batch) == Viewed(old(posts), Arrived(inputs))
      ensures processed + |batch| == |Arrived(inputs)|
    {
      processed := 0;
      var i := 0;
      while i < |inputs|
        invariant 0 <= i <= |inputs| && Valid()
        invariant batch == BatchesAfter(inputs[..i], BatchFull(batchSize)).open
        invariant Viewed(posts, batch) == Viewed(old(posts), Arrived(inputs[..i]))
        invariant processed + |batch| == |Arrived(inputs[..i])|
      {
        assert inputs[..i + 1][..i] == inputs[..i];
        BatchesNext(inputs, i, BatchFull(batchSize));
        ViewedMore(posts, batch, old(posts), Arrived(inputs[..i]), Carried(inputs[i]));
        var n := OnInput(inputs[i]);
        processed := processed + n;
        i := i + 1;
      }
      assert inputs[..i] == inputs;
    }

    /** The whole life of the loop: views and ticks in any order, then the rest of the channel and a last flush. */
    method FlushLoop(inputs: seq<Input<int>>, buffered: seq<int>) returns (totalProcessed: int)
      requires Valid() && batch == []
      modifies this
      ensures Valid() && batch == []
      ensures posts == Viewed(old(posts), Arrived(inputs) + buffered)
      ensures posts.Keys == old(posts).Keys
      ensures forall p :: p in posts ==> posts[p] == old(posts)[p] + |Receptions(inputs, p)| + multiset(buffered)[p]
      ensures totalProcessed == |Arrived(inputs)| + |buffered|
    {
      totalProcessed := Consume(inputs);
      ViewedMore(posts, batch, old(posts), Arrived(inputs), buffered);
      Drain(buffered);
      if bufCount > 0 {
        var processed := Flush();
        totalProcessed := totalProcessed + processed;
      } else {
        ViewedNone(posts);
      }
      AllReceived(inputs, buffered);
    }
  }

  function BatchFull(cap: nat): seq<int> -> bool {
    b => |b| >= cap
  }

  /** Tables that agree so far agree after the same further views. */
  lemma ViewedMore(posts: map<int, nat>, a: seq<int>, posts': map<int, nat>, a': seq<int>, b: seq<int>)
    requires Viewed(posts, a) == Viewed(posts', a')
    ensures Viewed(posts, a + b) == Viewed(posts', a' + b)
  {
    ViewedTwice(posts, a, b);
    ViewedTwice(posts', a', b);
  }

  ghost function HandledTotal(m: map<int, int>, left: set<int>): (total: int)
    ensures left == {} ==> total == Sum(m)
    ensures left == m.Keys ==> total == 0
  {
    assert m - {} == m && m - m.Keys == map[];
    Sum(m - left)
  }

  lemma HandledOne(m: map<int, int>, left: set<int>, p: int)
    requires p in left && left <= m.Keys
    ensures HandledTotal(m, left - {p}) == HandledTotal(m, left) + m[p]
  {
    SumRemove(m - (left - {p}), p);
    assert m - (left - {p}) - {p} == m - left;
  }

  lemma ViewedNone(posts: map<int, nat>)
    ensures Viewed(posts, []) == posts
  {
    assert forall p :: p in posts ==> Viewed(posts, [])[p] == posts[p];
  }

  /** Flushes compose: where a batch ends makes no difference. */
  lemma ViewedTwice(posts: map<int, nat>, a: seq<int>, b: seq<int>)
    ensures Viewed(Viewed(posts, a), b) == Viewed(posts, a + b)
  {
    var once, twice := Viewed(posts, a + b), Viewed(Viewed(posts, a), b);
    forall p | p in posts
      ensures p in once && p in twice && once[p] == twice[p]
    {
    }
  }

  // ---- Deduplicated views ------------------------------------------------------------------

  /** The posts of the events the handlers let through, in order. */
  function PostsOf(sent: seq<Delivery>): seq<int> {
    if sent == [] then []
    else
      var last := sent[|sent| - 1];
      PostsOf(sent[..|sent| - 1]) + if last.body.View? then [last.body.postID] else []
  }

  ghost function ViewsOf(events: seq<Delivery>, p: int): set<Delivery> {
    set d | d in events && d.body == View(p)
  }

  lemma ViewsOfLast(init: seq<Delivery>, last: Delivery, p: int)
    requires last !in init
    ensures |ViewsOf(init + [last], p)| == |ViewsOf(init, p)| + if last.body == View(p) then 1 else 0
  {
    var before, after := ViewsOf(init, p), ViewsOf(init + [last], p);
    assert last !in before;
    if last.body == View(p) {
      assert after == before + {last};
    } else {
      assert after == before;
    }
  }

  lemma PostsOfLast(init: seq<Delivery>, last: Delivery, p: int)
    ensures multiset(PostsOf(init + [last]))[p] == multiset(PostsOf(init))[p] + if last.body == View(p) then 1 else 0
  {
    assert (init + [last])[..|init|] == init;
  }

  lemma {:induction false} DistinctCount(sent: seq<Delivery>, p: int)
    requires forall i, j :: 0 <= i < j < |sent| ==> sent[i] != sent[j]
    ensures multiset(PostsOf(sent))[p] == |ViewsOf(sent, p)|
  {
    if sent != [] {
      var init, last := sent[..|sent| - 1], sent[|sent| - 1];
      DistinctCount(init, p);
      assert sent == init + [last];
      ViewsOfLast(init, last, p);
      PostsOfLast(init, last, p);
    } else {
      assert ViewsOf(sent, p) == {};
    }
  }

  /**
   End to end: whatever was redelivered and however it was batched, each existing post's
   `view_count` grows by the number of distinct page-view events about it.
   */
  lemma ViewsCountedOnce(steps: seq<Step>, posts: map<int, nat>, p: int)
    requires ValidSteps(Initial(), steps)
    requires Exec(Initial(), steps).waiting == multiset{} && Exec(Initial(), steps).passed == multiset{}
    requires forall d :: d in Exec(Initial(), steps).delivered ==> d.eventID != ""
    requires p in posts
    ensures var s := Exec(Initial(), steps);
      Viewed(posts, PostsOf(s.sent))[p] == posts[p] + |ViewsOf(s.delivered, p)|
  {
    var s := Exec(Initial(), steps);
    SentIsTheEventSet(steps);
    DistinctCount(s.sent, p);
    assert ViewsOf(s.sent, p) == ViewsOf(s.delivered, p);
  }
}
