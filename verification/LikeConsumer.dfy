/**
 The like consumer and its repository: batched inserts and deletes on the `likes` table,
 and the redundant `posts.like_count` derived from the statements' row counts.
 */
module LikeConsumer {
  import opened Prelude
  import opened Scaling
  import opened FlushInputs

  datatype Pair = Pair(user: int, post: int)

  datatype Event = Like(pair: Pair) | Unlike(pair: Pair)

  /** The `likes` rows, and `like_count` of every row of `posts`. */
  datatype Tables = Tables(likes: set<Pair>, counts: map<int, int>)

  // ---- What the statements do -------------------------------------------------------

  function Members(ps: seq<Pair>): set<Pair> {
    set p | p in ps
  }

  /** How many of the pairs fall on each post. */
  function PerPost(ps: seq<Pair>): map<int, int> {
    if ps == [] then map[]
    else
      var m, post := PerPost(ps[..|ps| - 1]), ps[|ps| - 1].post;
      m[post := At(m, post) + 1]
  }

  function Incremented<P>(counts: map<P, int>, deltas: map<P, int>): map<P, int> {
    map p | p in counts :: if At(deltas, p) > 0 then counts[p] + deltas[p] else counts[p]
  }

  function Decremented<P>(counts: map<P, int>, deltas: map<P, int>): map<P, int> {
    map p | p in counts :: if At(deltas, p) > 0 then Max0(counts[p] - deltas[p]) else counts[p]
  }

  lemma NothingToUpdate<P>(counts: map<P, int>)
    ensures Incremented(counts, map[]) == counts == Decremented(counts, map[])
  {
  }

  /** The two tables behind `LikeRepository`. */
  class LikeRepository {
    var likes: set<Pair>
    var counts: map<int, int>

    constructor (likes: set<Pair>, counts: map<int, int>)
      ensures this.likes == likes && this.counts == counts
    {
      this.likes, this.counts := likes, counts;
    }

    ghost function T(): Tables
      reads this
    {
      Tables(likes, counts)
    }

    /** INSERT IGNORE: a row that is there already contributes nothing to RowsAffected. */
    method BatchInsert(rows: seq<Pair>) returns (affected: int)
      modifies this`likes
      ensures likes == old(likes) + Members(rows)
      ensures affected == |likes| - |old(likes)|
    {
      affected := 0;
      var i := 0;
      while i < |rows|
        invariant 0 <= i <= |rows|
        invariant likes == old(likes) + Members(rows[..i])
        invariant affected == |likes| - |old(likes)|
      {
        if rows[i] !in likes {
          affected := affected + 1;
        }
        likes := likes + {rows[i]};
        assert rows[..i + 1] == rows[..i] + [rows[i]];
        i := i + 1;
      }
      assert rows[..i] == rows;
    }

    /** DELETE ... WHERE (user_id, post_id) IN (...): only rows that exist are counted. */
    method BatchDelete(pairs: seq<Pair>) returns (affected: int)
      modifies this`likes
      ensures likes == old(likes) - Members(pairs)
      ensures affected == |old(likes)| - |likes|
    {
      affected := 0;
      var i := 0;
      while i < |pairs|
        invariant 0 <= i <= |pairs|
        invariant likes == old(likes) - Members(pairs[..i])
        invariant affected == |old(likes)| - |likes|
      {
        if pairs[i] in likes {
          affected := affected + 1;
        }
        likes := likes - {pairs[i]};
        assert pairs[..i + 1] == pairs[..i] + [pairs[i]];
        i := i + 1;
      }
      assert pairs[..i] == pairs;
    }

    /** One UPDATE per post, in map order; an unknown post matches no row. */
    method IncrPostLikeCount(deltas: map<int, int>)
      modifies this`counts
      ensures counts == Incremented(old(counts), deltas) && counts.Keys == old(counts).Keys
      ensures forall p :: p in counts && At(deltas, p) > 0 ==> counts[p] == old(counts)[p] + deltas[p]
      ensures forall p :: p in counts && At(deltas, p) <= 0 ==> counts[p] == old(counts)[p]
    {
      var left := deltas.Keys;
      while left != {}
        invariant left <= deltas.Keys
        invariant counts.Keys == old(counts).Keys
        invariant forall p :: p in counts ==>
          counts[p] == if p in deltas && p !in left && deltas[p] > 0 then old(counts)[p] + deltas[p] else old(counts)[p]
        decreases |left|
      {
        var p, rest := Pick(left);
        if deltas[p] > 0 && p in counts {
          counts := counts[p := counts[p] + deltas[p]];
        }
        left := rest;
      }
      assert forall p :: p in counts ==> counts[p] == Incremented(old(counts), deltas)[p];
    }

    /** As above, with GREATEST(0, like_count - delta). */
    method DecrPostLikeCount(deltas: map<int, int>)
      modifies this`counts
      ensures counts == Decremented(old(counts), deltas) && counts.Keys == old(counts).Keys
      ensures forall p :: p in counts && At(deltas, p) > 0 ==>
        counts[p] == if deltas[p] > old(counts)[p] then 0 else old(counts)[p] - deltas[p]
      ensures forall p :: p in counts && At(deltas, p) <= 0 ==> counts[p] == old(counts)[p]
    {
      var left := deltas.Keys;
      while left != {}
        invariant left <= deltas.Keys
        invariant counts.Keys == old(counts).Keys
        invariant forall p :: p in counts ==>
          counts[p] == if p in deltas && p !in left && deltas[p] > 0 then Max0(old(counts)[p] - deltas[p]) else old(counts)[p]
        decreases |left|
      {
        var p, rest := Pick(left);
        if deltas[p] > 0 && p in counts {
          counts := counts[p := Max0(counts[p] - deltas[p])];
        }
        left := rest;
      }
      assert forall p :: p in counts ==> counts[p] == Decremented(old(counts), deltas)[p];
    }
  }

  // ---- One flush --------------------------------------------------------------------

  /** A flush with its inputs and the two scalings its map iterations happened to produce. */
  datatype Flush = Flush(likes: seq<Pair>, unlikes: seq<Pair>, inc: map<int, int>, dec: map<int, int>)

  function AfterLikes(t: Tables, f: Flush): Tables {
    Tables(t.likes + Members(f.likes), Incremented(t.counts, f.inc))
  }

  function AfterFlush(t: Tables, f: Flush): Tables {
    var mid := AfterLikes(t, f);
    Tables(mid.likes - Members(f.unlikes), Decremented(mid.counts, f.dec))
  }

  function Inserted(t: Tables, f: Flush): int {
    |AfterLikes(t, f).likes| - |t.likes|
  }

  function Deleted(t: Tables, f: Flush): int {
    |AfterLikes(t, f).likes| - |AfterFlush(t, f).likes|
  }

  ghost predicate ValidFlush(t: Tables, f: Flush) {
    && IsScaling(PerPost(f.likes), |f.likes|, Inserted(t, f), f.inc)
    && IsScaling(PerPost(f.unlikes), |f.unlikes|, Deleted(t, f), f.dec)
  }

  lemma FlushIsValid(t: Tables, f: Flush, inserts: int, deletes: int)
    requires inserts == Inserted(t, f) && IsScaling(PerPost(f.likes), |f.likes|, inserts, f.inc)
    requires deletes == Deleted(t, f) && IsScaling(PerPost(f.unlikes), |f.unlikes|, deletes, f.dec)
    ensures ValidFlush(t, f)
  {
  }

  lemma {:induction false} PerPostFacts(ps: seq<Pair>)
    ensures Positive(PerPost(ps)) && Sum(PerPost(ps)) == |ps|
    ensures forall p :: p in PerPost(ps) <==> exists i :: 0 <= i < |ps| && ps[i].post == p
  {
    if ps != [] {
      var init, last := ps[..|ps| - 1], ps[|ps| - 1];
      PerPostFacts(init);
      SumBump(PerPost(init), last.post, 1);
      forall p
        ensures p in PerPost(ps) <==> exists i :: 0 <= i < |ps| && ps[i].post == p
      {
        if p in PerPost(init) {
          var i :| 0 <= i < |init| && init[i].post == p;
          assert ps[i].post == p;
        }
        if i :| 0 <= i < |ps| && ps[i].post == p && p != last.post {
          assert init[i].post == p;
        }
      }
    }
  }

  /** Where a post occurs. */
  function PlacesOf(ps: seq<Pair>, p: int): set<int> {
    set i | 0 <= i < |ps| && ps[i].post == p
  }

  lemma PlacesOfLast(init: seq<Pair>, last: Pair, p: int)
    ensures |PlacesOf(init + [last], p)| == |PlacesOf(init, p)| + if last.post == p then 1 else 0
  {
    var before, after := PlacesOf(init, p), PlacesOf(init + [last], p);
    if last.post == p {
      assert after == before + {|init|};
    } else {
      assert after == before;
    }
  }

  lemma {:induction false} PerPostCounts(ps: seq<Pair>, p: int)
    ensures At(PerPost(ps), p) == |PlacesOf(ps, p)|
  {
    if ps != [] {
      var init, last := ps[..|ps| - 1], ps[|ps| - 1];
      assert ps == init + [last];
      PerPostCounts(init, p);
      PlacesOfLast(init, last, p);
    }
  }

  class Consumer {
    const repo: LikeRepository
    const batchSize: nat
    var likeBuf: seq<Pair>
    var unlikeBuf: seq<Pair>
    /** The events taken from the channel since the last flush, in arrival order. */
    ghost var batch: seq<Event>

    ghost predicate Valid()
      reads this
    {
      likeBuf == LikesOf(batch) && unlikeBuf == UnlikesOf(batch)
    }

    constructor (repo: LikeRepository, batchSize: nat)
      ensures Valid() && batch == [] && this.repo == repo && this.batchSize == batchSize
    {
      this.repo, this.batchSize := repo, batchSize;
      likeBuf, unlikeBuf, batch := [], [], [];
    }

    static method Tally(buf: seq<Pair>) returns (perPost: map<int, int>)
      ensures perPost == PerPost(buf)
      ensures forall p :: At(perPost, p) == |PlacesOf(buf, p)|
    {
      perPost := map[];
      var i := 0;
      while i < |buf|
        invariant 0 <= i <= |buf| && perPost == PerPost(buf[..i])
      {
        assert buf[..i + 1][..i] == buf[..i];
        var n := if buf[i].post in perPost then perPost[buf[i].post] else 0;
        perPost := perPost[buf[i].post := n + 1];
        i := i + 1;
      }
      assert buf[..i] == buf;
      forall p ensures At(perPost, p) == |PlacesOf(buf, p)| {
        PerPostCounts(buf, p);
      }
    }

    method FlushLikes() returns (inserts: int, ghost inc: map<int, int>)
      modifies this`likeBuf, repo
      ensures likeBuf == []
      ensures repo.likes == old(repo.likes) + Members(old(likeBuf))
      ensures inserts == |repo.likes| - |old(repo.likes)|
      ensures IsScaling(PerPost(old(likeBuf)), |old(likeBuf)|, inserts, inc)
      ensures repo.counts == Incremented(old(repo.counts), inc)
    {
      inserts, inc := 0, map[];
      NothingToUpdate(repo.counts);
      if |likeBuf| > 0 {
        PerPostFacts(likeBuf);
        var perPost := Tally(likeBuf);
        inserts := repo.BatchInsert(likeBuf);
        var scaled := ScaleDeltas(perPost, |likeBuf|, inserts);
        repo.IncrPostLikeCount(scaled);
        inc := scaled;
        likeBuf := [];
      }
    }

    method FlushUnlikes() returns (deletes: int, ghost dec: map<int, int>)
      modifies this`unlikeBuf, repo
      ensures unlikeBuf == []
      ensures repo.likes == old(repo.likes) - Members(old(unlikeBuf))
      ensures deletes == |old(repo.likes)| - |repo.likes|
      ensures IsScaling(PerPost(old(unlikeBuf)), |old(unlikeBuf)|, deletes, dec)
      ensures repo.counts == Decremented(old(repo.counts), dec)
    {
      deletes, dec := 0, map[];
      NothingToUpdate(repo.counts);
      if |unlikeBuf| > 0 {
        PerPostFacts(unlikeBuf);
        var perPost := Tally(unlikeBuf);
        deletes := repo.BatchDelete(unlikeBuf);
        var scaled := ScaleDeltas(perPost, |unlikeBuf|, deletes);
        repo.DecrPostLikeCount(scaled);
        dec := scaled;
        unlikeBuf := [];
      }
    }

    /** All likes, then all unlikes, then both buffers are empty. */
    method FlushWithCtx() returns (total: int, ghost f: Flush)
      requires Valid()
      modifies this, repo
      ensures Valid() && batch == []
      ensures f.likes == old(likeBuf) && f.unlikes == old(unlikeBuf)
      ensures ValidFlush(old(repo.T()), f)
      ensures repo.T() == AfterFlush(old(repo.T()), f)
      ensures total == Inserted(old(repo.T()), f) + Deleted(old(repo.T()), f)
    {
      var inserts, inc := FlushLikes();
      ghost var mid := repo.T();
      var deletes, dec := FlushUnlikes();
      batch := [];
      total := inserts + deletes;
      f := Flush(old(likeBuf), old(unlikeBuf), inc, dec);
      assert AfterLikes(old(repo.T()), f) == mid;
      assert AfterFlush(old(repo.T()), f) == repo.T();
      FlushIsValid(old(repo.T()), f, inserts, deletes);
    }

    /** The receiving case of the flush loop. */
    method OnEvent(e: Event) returns (flushed: bool, ghost f: Flush)
      requires Valid()
      modifies this, repo
      ensures Valid()
      ensures flushed <==> |LikesOf(old(batch) + [e])| >= batchSize || |UnlikesOf(old(batch) + [e])| >= batchSize
      ensures flushed ==> f.likes == LikesOf(old(batch) + [e]) && f.unlikes == UnlikesOf(old(batch) + [e])
      ensures flushed ==> batch == [] && ValidFlush(old(repo.T()), f) && repo.T() == AfterFlush(old(repo.T()), f)
      ensures !flushed ==> batch == old(batch) + [e] && repo.T() == old(repo.T())
    {
      Buffer(e);
      flushed := |likeBuf| >= batchSize || |unlikeBuf| >= batchSize;
      f := Flush([], [], map[], map[]);
      if flushed {
        var total;
        total, f := FlushWithCtx();
      }
    }

    method Buffer(e: Event)
      requires Valid()
      modifies this
      ensures Valid() && batch == old(batch) + [e]
    {
      assert (batch + [e])[..|batch|] == batch;
      match e {
        case Like(p) => likeBuf := likeBuf + [p];
        case Unlike(p) => unlikeBuf := unlikeBuf + [p];
      }
      batch := batch + [e];
    }

    /** The ticker case: nothing happens when both buffers are empty. */
    method OnTick() returns (flushed: bool, ghost f: Flush)
      requires Valid()
      modifies this, repo
      ensures Valid() && batch == []
      ensures flushed <==> old(batch) != []
      ensures flushed ==> IsFlushOf(old(repo.T()), f, old(batch)) && repo.T() == AfterFlush(old(repo.T()), f)
      ensures !flushed ==> repo.T() == old(repo.T())
    {
      SizeOfParts(batch);
      flushed := |likeBuf| > 0 || |unlikeBuf| > 0;
      f := Flush([], [], map[], map[]);
      if flushed {
        var total;
        total, f := FlushWithCtx();
      }
    }

    method OnInput(input: Input<Event>) returns (flushed: bool, ghost f: Flush)
      requires Valid()
      modifies this, repo
      ensures Valid()
      ensures input.Ticker? ==> (flushed <==> old(batch) != [])
      ensures input.Received? ==> (flushed <==>
        |LikesOf(old(batch) + [input.item])| >= batchSize || |UnlikesOf(old(batch) + [input.item])| >= batchSize)
      ensures flushed ==> batch == [] && repo.T() == AfterFlush(old(repo.T()), f)
      ensures flushed ==> IsFlushOf(old(repo.T()), f, old(batch) + Carried(input))
      ensures !flushed ==> batch == old(batch) + Carried(input) && repo.T() == old(repo.T())
    {
      match input {
        case Received(e) => flushed, f := OnEvent(e);
        case Ticker =>
          assert batch + [] == batch;
          flushed, f := OnTick();
      }
    }

    /** The loop while it runs: a batch ends when either buffer reaches the cap, or at a tick. */
    method Consume(inputs: seq<Input<Event>>) returns (ghost batches: seq<seq<Event>>, ghost fs: seq<Flush>)
      requires Valid() && batch == []
      modifies this, repo
      ensures Valid() && Ran(old(repo.T()), repo.T(), fs, batches, batch, inputs, batchSize)
    {
      ghost var start := repo.T();
      batches, fs := [], [];
      var i := 0;
      while i < |inputs|
        invariant 0 <= i <= |inputs| && Valid()
        invariant Ran(start, repo.T(), fs, batches, batch, inputs[..i], batchSize)
      {
        ghost var was, t := batch, repo.T();
        var flushed, f := OnInput(inputs[i]);
        InputTaken(start, t, fs, batches, was, inputs, i, batchSize, flushed, f, repo.T(), batch);
        if flushed {
          batches, fs := batches + [was + Carried(inputs[i])], fs + [f];
        }
        i := i + 1;
      }
      assert inputs[..i] == inputs;
    }

    /**
     The whole life of the loop: events and ticks in any order, then what is left in the
     channel and a last flush. The events are flushed in order, each in exactly one batch.
     */
    method FlushLoop(inputs: seq<Input<Event>>, buffered: seq<Event>) returns (ghost batches: seq<seq<Event>>, ghost fs: seq<Flush>)
      requires Valid() && batch == []
      modifies this, repo
      ensures Valid() && batch == []
      ensures Joined(batches) == Arrived(inputs) + buffered
      ensures batches == AllBatches(inputs, BatchFull(batchSize), buffered)
      ensures forall e :: multiset(Joined(batches))[e] == |Receptions(inputs, e)| + multiset(buffered)[e]
      ensures FlushedAs(old(repo.T()), fs, batches) && repo.T() == Run(old(repo.T()), fs)
    {
      ghost var start := repo.T();
      batches, fs := Consume(inputs);
      Joins(start, repo.T(), fs, batches, batch, Arrived(inputs), buffered);
      Drain(buffered);
      ghost var rest, t := batch, repo.T();
      var flushed, f := OnTick();
      if flushed {
        Flushes(start, t, fs, batches, rest, Arrived(inputs) + buffered, f);
        batches, fs := batches + [rest], fs + [f];
      }
      AllFlushed(start, repo.T(), fs, batches, Arrived(inputs) + buffered);
      AllReceived(inputs, buffered);
    }

    /** What is left in the channel is buffered without regard to the cap. */
    method Drain(buffered: seq<Event>)
      requires Valid()
      modifies this
      ensures Valid() && batch == old(batch) + buffered
    {
      var i := 0;
      while i < |buffered|
        invariant 0 <= i <= |buffered| && Valid() && batch == old(batch) + buffered[..i]
      {
        Buffer(buffered[i]);
        assert buffered[..i + 1] == buffered[..i] + [buffered[i]];
        i := i + 1;
      }
      assert buffered[..i] == buffered;
    }
  }

  /** Either buffer has reached the cap. */
  function BatchFull(cap: nat): seq<Event> -> bool {
    b => |LikesOf(b)| >= cap || |UnlikesOf(b)| >= cap
  }

  function Joined(batches: seq<seq<Event>>): seq<Event> {
    if batches == [] then [] else batches[0] + Joined(batches[1..])
  }

  ghost predicate IsFlushOf(t: Tables, f: Flush, b: seq<Event>) {
    ValidFlush(t, f) && f.likes == LikesOf(b) && f.unlikes == UnlikesOf(b)
  }

  /** Each flush is a possible one of its batch, on the tables the earlier ones left. */
  ghost predicate FlushedAs(t: Tables, fs: seq<Flush>, batches: seq<seq<Event>>)
    decreases fs
  {
    && |fs| == |batches|
    && (fs != [] ==> IsFlushOf(t, fs[0], batches[0]) && FlushedAs(AfterFlush(t, fs[0]), fs[1..], batches[1..]))
  }

  /** The tables are those of the flushes so far, and every event is in a flushed batch or buffered. */
  ghost predicate Accounted(
    start: Tables, t: Tables, fs: seq<Flush>, batches: seq<seq<Event>>, batch: seq<Event>, events: seq<Event>)
  {
    FlushedAs(start, fs, batches) && t == Run(start, fs) && Joined(batches) + batch == events
  }

  /** The loop has done so with these inputs. */
  ghost predicate Ran(start: Tables, t: Tables, fs: seq<Flush>, batches: seq<seq<Event>>, batch: seq<Event>,
                      inputs: seq<Input<Event>>, cap: nat)
  {
    Accounted(start, t, fs, batches, batch, Arrived(inputs)) && BatchesAfter(inputs, BatchFull(cap)) == Batching(batches, batch)
  }

  lemma InputTaken(start: Tables, t: Tables, fs: seq<Flush>, batches: seq<seq<Event>>, batch: seq<Event>,
                   inputs: seq<Input<Event>>, i: nat, cap: nat, flushed: bool, f: Flush, t': Tables, batch': seq<Event>)
    requires i < |inputs| && Ran(start, t, fs, batches, batch, inputs[..i], cap)
    requires flushed <==> if inputs[i].Ticker? then batch != [] else BatchFull(cap)(batch + [inputs[i].item])
    requires flushed ==> batch' == [] && t' == AfterFlush(t, f) && IsFlushOf(t, f, batch + Carried(inputs[i]))
    requires !flushed ==> batch' == batch + Carried(inputs[i]) && t' == t
    ensures Ran(start, t', if flushed then fs + [f] else fs, if flushed then batches + [batch + Carried(inputs[i])] else batches,
                batch', inputs[..i + 1], cap)
  {
    var full := batch + Carried(inputs[i]);
    assert inputs[..i + 1][..i] == inputs[..i];
    BatchesNext(inputs, i, BatchFull(cap));
    BatchingStep(Batching(batches, batch), inputs[i], BatchFull(cap), flushed);
    Joins(start, t, fs, batches, batch, Arrived(inputs[..i]), Carried(inputs[i]));
    if flushed {
      Flushes(start, t, fs, batches, full, Arrived(inputs[..i + 1]), f);
    }
  }

  lemma AllFlushed(start: Tables, t: Tables, fs: seq<Flush>, batches: seq<seq<Event>>, events: seq<Event>)
    requires Accounted(start, t, fs, batches, [], events)
    ensures Joined(batches) == events
  {
    assert Joined(batches) + [] == Joined(batches);
  }

  /** More events join the buffer. */
  lemma Joins(start: Tables, t: Tables, fs: seq<Flush>, batches: seq<seq<Event>>, batch: seq<Event>, events: seq<Event>, more: seq<Event>)
    requires Accounted(start, t, fs, batches, batch, events)
    ensures Accounted(start, t, fs, batches, batch + more, events + more)
  {
    assert Joined(batches) + (batch + more) == Joined(batches) + batch + more;
  }

  /** The whole buffer is flushed. */
  lemma Flushes(start: Tables, t: Tables, fs: seq<Flush>, batches: seq<seq<Event>>, batch: seq<Event>, events: seq<Event>, f: Flush)
    requires Accounted(start, t, fs, batches, batch, events) && IsFlushOf(t, f, batch)
    ensures Accounted(start, AfterFlush(t, f), fs + [f], batches + [batch], [], events)
  {
    FlushNext(start, fs, batches, f, batch);
    assert Joined(batches + [batch]) + [] == Joined(batches + [batch]);
  }

  lemma {:induction false} SizeOfParts(b: seq<Event>)
    ensures |LikesOf(b)| + |UnlikesOf(b)| == |b|
  {
    if b != [] {
      SizeOfParts(b[..|b| - 1]);
    }
  }

  lemma {:induction false} JoinedNext(batches: seq<seq<Event>>, b: seq<Event>)
    ensures Joined(batches + [b]) == Joined(batches) + b
  {
    if batches == [] {
      assert [b][1..] == [];
    } else {
      JoinedNext(batches[1..], b);
      assert (batches + [b])[1..] == batches[1..] + [b];
    }
  }

  lemma {:induction false} RunNext(t: Tables, fs: seq<Flush>, batches: seq<seq<Event>>, f: Flush, b: seq<Event>)
    requires FlushedAs(t, fs, batches) && IsFlushOf(Run(t, fs), f, b)
    ensures FlushedAs(t, fs + [f], batches + [b]) && Run(t, fs + [f]) == AfterFlush(Run(t, fs), f)
    decreases fs
  {
    if fs == [] {
      assert [f][1..] == [] && [b][1..] == [];
    } else {
      RunNext(AfterFlush(t, fs[0]), fs[1..], batches[1..], f, b);
      TailOfAppend(fs, f);
      TailOfAppend(batches, b);
    }
  }

  lemma TailOfAppend<T>(s: seq<T>, x: T)
    requires s != []
    ensures (s + [x])[0] == s[0] && (s + [x])[1..] == s[1..] + [x]
  {
  }

  lemma FlushNext(t: Tables, fs: seq<Flush>, batches: seq<seq<Event>>, f: Flush, b: seq<Event>)
    requires FlushedAs(t, fs, batches) && IsFlushOf(Run(t, fs), f, b)
    ensures FlushedAs(t, fs + [f], batches + [b]) && Run(t, fs + [f]) == AfterFlush(Run(t, fs), f)
    ensures Joined(batches + [b]) == Joined(batches) + b
  {
    RunNext(t, fs, batches, f, b);
    JoinedNext(batches, b);
  }

  // ---- Flushing against replaying ---------------------------------------------------

  function LikesOf(b: seq<Event>): seq<Pair> {
    if b == [] then []
    else if b[|b| - 1].Like? then LikesOf(b[..|b| - 1]) + [b[|b| - 1].pair] else LikesOf(b[..|b| - 1])
  }

  function UnlikesOf(b: seq<Event>): seq<Pair> {
    if b == [] then []
    else if b[|b| - 1].Unlike? then UnlikesOf(b[..|b| - 1]) + [b[|b| - 1].pair] else UnlikesOf(b[..|b| - 1])
  }

  /** An event joins its own half, behind the earlier ones. */
  lemma HalvesNext(b: seq<Event>, p: Pair)
    ensures LikesOf([]) == UnlikesOf([]) == []
    ensures LikesOf(b + [Like(p)]) == LikesOf(b) + [p] && UnlikesOf(b + [Like(p)]) == UnlikesOf(b)
    ensures LikesOf(b + [Unlike(p)]) == LikesOf(b) && UnlikesOf(b + [Unlike(p)]) == UnlikesOf(b) + [p]
  {
    assert (b + [Like(p)])[..|b|] == b && (b + [Unlike(p)])[..|b|] == b;
  }

  /** The events applied one at a time, in arrival order. */
  function Replay(likes: set<Pair>, b: seq<Event>): set<Pair> {
    if b == [] then likes
    else
      var before, e := Replay(likes, b[..|b| - 1]), b[|b| - 1];
      if e.Like? then before + {e.pair} else before - {e.pair}
  }

  /** No pair is liked again after its last unlike in the batch. */
  ghost predicate NoRelike(b: seq<Event>) {
    forall i, j :: 0 <= i < j < |b| && b[i].Unlike? && b[j] == Like(b[i].pair) ==>
      exists k :: j < k < |b| && b[k] == b[i]
  }

  lemma {:induction false} SplitMembers(b: seq<Event>)
    ensures forall p :: p in Members(LikesOf(b)) <==> Like(p) in b
    ensures forall p :: p in Members(UnlikesOf(b)) <==> Unlike(p) in b
  {
    if b != [] {
      var init, e := b[..|b| - 1], b[|b| - 1];
      SplitMembers(init);
      assert b == init + [e];
      forall p
        ensures p in Members(LikesOf(b)) <==> Like(p) in b
        ensures p in Members(UnlikesOf(b)) <==> Unlike(p) in b
      {
        assert p in Members(LikesOf(init)) <==> Like(p) in init;
        assert p in Members(UnlikesOf(init)) <==> Unlike(p) in init;
      }
    }
  }

  /** Position of the last event of a pair, -1 if there is none. */
  ghost function LastOf(b: seq<Event>, p: Pair): (i: int)
    ensures -1 <= i < |b|
    ensures i >= 0 ==> b[i].pair == p
    ensures forall j :: i < j < |b| ==> b[j].pair != p
  {
    if b == [] then -1
    else if b[|b| - 1].pair == p then |b| - 1
    else
      var init := b[..|b| - 1];
      var i := LastOf(init, p);
      assert forall j :: i < j < |init| ==> b[j] == init[j];
      i
  }

  lemma {:induction false} ReplayByLast(likes: set<Pair>, b: seq<Event>, p: Pair)
    ensures p in Replay(likes, b) <==> var i := LastOf(b, p); if i < 0 then p in likes else b[i].Like?
  {
    if b != [] {
      ReplayByLast(likes, b[..|b| - 1], p);
    }
  }

  /**
   Writing all likes before all unlikes leaves the table that replaying the batch in
   arrival order leaves, whatever the table was, exactly when no pair is liked again
   after its last unlike.
   */
  lemma FlushMatchesReplay(t: Tables, b: seq<Event>, f: Flush)
    requires f.likes == LikesOf(b) && f.unlikes == UnlikesOf(b)
    ensures AfterFlush(t, f).likes == Replay(t.likes, b) <==> NoRelike(b)
  {
    SplitMembers(b);
    var flushed, replayed := AfterFlush(t, f).likes, Replay(t.likes, b);
    if NoRelike(b) {
      forall p
        ensures p in flushed <==> p in replayed
      {
        ReplayByLast(t.likes, b, p);
        if Unlike(p) in b {
          LastIsUnlike(b, p);
        }
      }
    } else {
      var p := RelikedPair(b);
      ReplayByLast(t.likes, b, p);
      assert p in replayed && p !in flushed;
    }
  }

  /** Some pair is liked after its last unlike. */
  lemma RelikedPair(b: seq<Event>) returns (p: Pair)
    requires !NoRelike(b)
    ensures Unlike(p) in b && LastOf(b, p) >= 0 && b[LastOf(b, p)].Like?
  {
    var i, j :| 0 <= i < j < |b| && b[i].Unlike? && b[j] == Like(b[i].pair) &&
      !exists k :: j < k < |b| && b[k] == b[i];
    p := b[i].pair;
    var last := LastOf(b, p);
    assert last >= j;
    assert b[last] != Unlike(p);
  }

  lemma LastIsUnlike(b: seq<Event>, p: Pair)
    requires NoRelike(b) && Unlike(p) in b
    ensures LastOf(b, p) >= 0 && b[LastOf(b, p)].Unlike?
  {
    var i :| 0 <= i < |b| && b[i] == Unlike(p);
    var last := LastOf(b, p);
    assert last >= i;
    assert b[last] != Like(p);
  }

  lemma {:induction false} ReplayAppend(likes: set<Pair>, a: seq<Event>, b: seq<Event>)
    ensures Replay(likes, a + b) == Replay(Replay(likes, a), b)
  {
    if b == [] {
      assert a + b == a;
    } else {
      ReplayAppend(likes, a, b[..|b| - 1]);
      assert (a + b)[..|a + b| - 1] == a + b[..|b| - 1];
    }
  }

  predicate Mentions(b: seq<Event>, p: Pair) {
    Like(p) in b || Unlike(p) in b
  }

  /** The last batch with an event of the pair, or -1. */
  function LastBatch(batches: seq<seq<Event>>, p: Pair): (i: int)
    ensures -1 <= i < |batches|
    ensures i >= 0 ==> Mentions(batches[i], p)
    ensures forall j :: i < j < |batches| ==> !Mentions(batches[j], p)
  {
    if batches == [] then -1
    else
      var i := LastBatch(batches[1..], p);
      if i >= 0 then i + 1 else if Mentions(batches[0], p) then 0 else -1
  }

  /** A pair has its row after a run exactly as the last batch that mentions it leaves it. */
  lemma {:induction false} RowByLastBatch(t: Tables, fs: seq<Flush>, batches: seq<seq<Event>>, p: Pair)
    requires FlushedAs(t, fs, batches)
    ensures p in Run(t, fs).likes <==>
      var i := LastBatch(batches, p); if i < 0 then p in t.likes else Unlike(p) !in batches[i]
    decreases fs
  {
    if fs != [] {
      SplitMembers(batches[0]);
      RowByLastBatch(AfterFlush(t, fs[0]), fs[1..], batches[1..], p);
    }
  }

  lemma LastOfMentioned(b: seq<Event>, p: Pair)
    ensures LastOf(b, p) >= 0 <==> Mentions(b, p)
  {
    if Mentions(b, p) {
      var i :| 0 <= i < |b| && (b[i] == Like(p) || b[i] == Unlike(p));
      assert b[i].pair == p;
    }
    if LastOf(b, p) >= 0 {
      assert b[LastOf(b, p)] in b;
    }
  }

  lemma {:induction false} ReplayByLastBatch(likes: set<Pair>, batches: seq<seq<Event>>, p: Pair)
    ensures p in Replay(likes, Joined(batches)) <==>
      var i := LastBatch(batches, p); if i < 0 then p in likes else EndsLiked(batches[i], p)
    decreases batches
  {
    if batches != [] {
      ReplayAppend(likes, batches[0], Joined(batches[1..]));
      ReplayByLast(likes, batches[0], p);
      LastOfMentioned(batches[0], p);
      ReplayByLastBatch(Replay(likes, batches[0]), batches[1..], p);
    }
  }

  ghost predicate EndsLiked(b: seq<Event>, p: Pair) {
    LastOf(b, p) >= 0 && b[LastOf(b, p)].Like?
  }

  /** Within the batch the pair is unliked, and liked again after its last unlike. */
  ghost predicate Relikes(b: seq<Event>, p: Pair) {
    Unlike(p) in b && EndsLiked(b, p)
  }

  lemma EndsUnliked(b: seq<Event>, p: Pair)
    requires Mentions(b, p) && !EndsLiked(b, p)
    ensures Unlike(p) in b
  {
    LastOfMentioned(b, p);
    assert b[LastOf(b, p)] in b;
  }

  /**
   The table follows the whole event stream, wherever the flushes fell, if and only if no
   pair is liked after its last unlike in the last batch that mentions it.
   */
  lemma RunMatchesReplay(t: Tables, fs: seq<Flush>, batches: seq<seq<Event>>)
    requires FlushedAs(t, fs, batches)
    ensures Run(t, fs).likes == Replay(t.likes, Joined(batches)) <==> forall p :: !RelikedLast(batches, p)
  {
    forall p
      ensures (p in Run(t, fs).likes <==> p in Replay(t.likes, Joined(batches))) <==> !RelikedLast(batches, p)
    {
      RowMatchesReplay(t, fs, batches, p);
    }
  }

  ghost predicate RelikedLast(batches: seq<seq<Event>>, p: Pair) {
    LastBatch(batches, p) >= 0 && Relikes(batches[LastBatch(batches, p)], p)
  }

  lemma RowMatchesReplay(t: Tables, fs: seq<Flush>, batches: seq<seq<Event>>, p: Pair)
    requires FlushedAs(t, fs, batches)
    ensures (p in Run(t, fs).likes <==> p in Replay(t.likes, Joined(batches))) <==> !RelikedLast(batches, p)
  {
    RowByLastBatch(t, fs, batches, p);
    ReplayByLastBatch(t.likes, batches, p);
    if LastBatch(batches, p) >= 0 && !EndsLiked(batches[LastBatch(batches, p)], p) {
      EndsUnliked(batches[LastBatch(batches, p)], p);
    }
  }

  /** "Last event wins" fails: an unlike followed by a like in one batch loses the like. */
  lemma RelikeIsLost(u: int, p: int)
    ensures var b := [Unlike(Pair(u, p)), Like(Pair(u, p))];
      && !NoRelike(b)
      && Replay({}, b) == {Pair(u, p)}
      && forall f: Flush :: f.likes == LikesOf(b) && f.unlikes == UnlikesOf(b) ==>
           AfterFlush(Tables({}, map[p := 0]), f).likes == {}
  {
    var b := [Unlike(Pair(u, p)), Like(Pair(u, p))];
    var i, j := 0, 1;
    assert b[i].Unlike? && b[j] == Like(b[i].pair);
    assert b[..1] == [b[0]] && b[..1][..0] == [];
    assert Replay({}, b[..1]) == {};
    SplitMembers(b);
  }

  // ---- The sum of like_count over a run -----------------------------------------------

  /** Every event of the flush is about a post that has a row. */
  ghost predicate KnownPosts(t: Tables, f: Flush) {
    && (forall i :: 0 <= i < |f.likes| ==> f.likes[i].post in t.counts)
    && (forall i :: 0 <= i < |f.unlikes| ==> f.unlikes[i].post in t.counts)
  }

  /** What GREATEST(0, ...) keeps, post by post. */
  function Lost<P>(counts: map<P, int>, dec: map<P, int>): map<P, int> {
    map p | p in dec && p in counts :: Max0(dec[p] - counts[p])
  }

  function ClampMap(t: Tables, f: Flush): map<int, int> {
    Lost(AfterLikes(t, f).counts, f.dec)
  }

  ghost function ClampLoss(t: Tables, f: Flush): int {
    Sum(ClampMap(t, f))
  }

  ghost predicate Clamps(t: Tables, f: Flush) {
    exists p :: p in ClampMap(t, f) && ClampMap(t, f)[p] > 0
  }

  lemma IncrementedSum<P(!new)>(counts: map<P, int>, inc: map<P, int>)
    requires Positive(inc) && inc.Keys <= counts.Keys
    ensures Sum(Incremented(counts, inc)) == Sum(counts) + Sum(inc)
  {
    IncrementedIsPlus(counts, inc);
    SumPlus(counts, inc);
  }

  lemma IncrementedIsPlus<P(!new)>(counts: map<P, int>, inc: map<P, int>)
    requires Positive(inc)
    ensures Incremented(counts, inc) == Plus(counts, inc)
  {
    forall p | p in counts
      ensures Incremented(counts, inc)[p] == Plus(counts, inc)[p]
    {
    }
  }

  lemma DecrementedSum<P(!new)>(counts: map<P, int>, dec: map<P, int>)
    requires Positive(dec) && dec.Keys <= counts.Keys
    ensures Sum(Decremented(counts, dec)) == Sum(counts) - Sum(dec) + Sum(Lost(counts, dec))
  {
    var e := Effect(counts, dec);
    EffectIsDifference(counts, dec);
    SumPlus(counts, e);
    SumPlus(dec, e);
  }

  /** The signed change a clamped decrement makes to each counter. */
  function Effect<P>(counts: map<P, int>, dec: map<P, int>): map<P, int> {
    map p | p in dec && p in counts :: Max0(dec[p] - counts[p]) - dec[p]
  }

  lemma EffectIsDifference<P(!new)>(counts: map<P, int>, dec: map<P, int>)
    requires Positive(dec) && dec.Keys <= counts.Keys
    ensures Decremented(counts, dec) == Plus(counts, Effect(counts, dec))
    ensures Lost(counts, dec) == Plus(dec, Effect(counts, dec))
    ensures Effect(counts, dec).Keys == dec.Keys
  {
  }

  lemma LostNonNegative<P>(counts: map<P, int>, dec: map<P, int>)
    ensures forall p :: p in Lost(counts, dec) ==> Lost(counts, dec)[p] >= 0
  {
  }

  lemma LossNonNegative(t: Tables, f: Flush)
    ensures ClampLoss(t, f) >= 0
    ensures ClampLoss(t, f) == 0 <==> !Clamps(t, f)
  {
    LostNonNegative(AfterLikes(t, f).counts, f.dec);
    SumNonNegative(ClampMap(t, f));
    if !Clamps(t, f) {
      AllZero(ClampMap(t, f));
    }
  }

  lemma {:induction false} AllZero(m: map<int, int>)
    requires forall p :: p in m ==> m[p] == 0
    ensures Sum(m) == 0
    decreases |m|
  {
    if m.Keys != {} {
      var p := Any(m.Keys);
      SumRemove(m, p);
      AllZero(m - {p});
    } else {
      assert m == map[];
    }
  }

  lemma {:induction false} MembersSize(ps: seq<Pair>)
    ensures |Members(ps)| <= |ps|
  {
    if ps != [] {
      MembersSize(ps[..|ps| - 1]);
      assert ps == ps[..|ps| - 1] + [ps[|ps| - 1]];
      assert Members(ps) == Members(ps[..|ps| - 1]) + {ps[|ps| - 1]};
    }
  }

  lemma GrowthBound(s: set<Pair>, ps: seq<Pair>)
    ensures 0 <= |s + Members(ps)| - |s| <= |ps|
  {
    MembersSize(ps);
    SubsetSize(s, s + Members(ps));
    SubsetSize((s + Members(ps)) - s, Members(ps));
  }

  lemma ShrinkBound(s: set<Pair>, ps: seq<Pair>)
    ensures 0 <= |s| - |s - Members(ps)| <= |ps|
  {
    MembersSize(ps);
    SubsetSize(s - Members(ps), s);
    SubsetSize(s - (s - Members(ps)), Members(ps));
  }

  lemma HalfScaling(ps: seq<Pair>, changed: int, scaled: map<int, int>, posts: set<int>)
    requires 0 <= changed <= |ps| && IsScaling(PerPost(ps), |ps|, changed, scaled)
    requires forall i :: 0 <= i < |ps| ==> ps[i].post in posts
    ensures Positive(scaled) && scaled.Keys <= posts && Sum(scaled) == changed
  {
    PerPostFacts(ps);
    ScalingConservesMass(PerPost(ps), |ps|, changed, scaled);
    forall p | p in scaled
      ensures p in posts
    {
      assert p in PerPost(ps);
    }
  }

  /** What a flush adds to the scaled maps is what the statements changed. */
  lemma FlushScalings(t: Tables, f: Flush)
    requires ValidFlush(t, f) && KnownPosts(t, f)
    ensures Positive(f.inc) && f.inc.Keys <= t.counts.Keys && Sum(f.inc) == Inserted(t, f)
    ensures Positive(f.dec) && f.dec.Keys <= t.counts.Keys && Sum(f.dec) == Deleted(t, f)
  {
    GrowthBound(t.likes, f.likes);
    ShrinkBound(AfterLikes(t, f).likes, f.unlikes);
    HalfScaling(f.likes, Inserted(t, f), f.inc, t.counts.Keys);
    HalfScaling(f.unlikes, Deleted(t, f), f.dec, t.counts.Keys);
  }

  /** One flush: the counters move with the rows, but for what a clamp keeps. */
  lemma FlushKeepsSum(t: Tables, f: Flush)
    requires ValidFlush(t, f) && KnownPosts(t, f)
    ensures var t' := AfterFlush(t, f);
      && t'.counts.Keys == t.counts.Keys
      && Sum(t'.counts) - |t'.likes| == Sum(t.counts) - |t.likes| + ClampLoss(t, f)
  {
    FlushScalings(t, f);
    IncrementedSum(t.counts, f.inc);
    DecrementedSum(AfterLikes(t, f).counts, f.dec);
  }

  ghost predicate ValidRun(t: Tables, fs: seq<Flush>)
    decreases fs
  {
    fs == [] || (ValidFlush(t, fs[0]) && KnownPosts(t, fs[0]) && ValidRun(AfterFlush(t, fs[0]), fs[1..]))
  }

  ghost function Run(t: Tables, fs: seq<Flush>): Tables
    decreases fs
  {
    if fs == [] then t else Run(AfterFlush(t, fs[0]), fs[1..])
  }

  ghost predicate RunClamps(t: Tables, fs: seq<Flush>)
    decreases fs
  {
    fs != [] && (Clamps(t, fs[0]) || RunClamps(AfterFlush(t, fs[0]), fs[1..]))
  }

  /**
   Over every run of flushes: the sum of `like_count` never falls behind the number of
   `likes` rows, and the two stay equal exactly as long as no decrement clamps.
   */
  lemma {:induction false} AggregateInvariant(t: Tables, fs: seq<Flush>)
    requires ValidRun(t, fs) && Sum(t.counts) >= |t.likes|
    ensures var t' := Run(t, fs);
      && Sum(t'.counts) >= |t'.likes|
      && (Sum(t'.counts) == |t'.likes| <==> Sum(t.counts) == |t.likes| && !RunClamps(t, fs))
    decreases fs
  {
    if fs != [] {
      FlushKeepsSum(t, fs[0]);
      LossNonNegative(t, fs[0]);
      AggregateInvariant(AfterFlush(t, fs[0]), fs[1..]);
    }
  }

  // ---- Exactness post by post ---------------------------------------------------------

  function PostRows(likes: set<Pair>, p: int): set<Pair> {
    set q | q in likes && q.post == p
  }

  ghost predicate Exact(t: Tables) {
    forall p :: p in t.counts ==> t.counts[p] == |PostRows(t.likes, p)|
  }

  ghost predicate OnePost(ps: seq<Pair>) {
    forall i, j :: 0 <= i < j < |ps| ==> ps[i].post == ps[j].post
  }

  /** Each half of the flush has only effective events, or touches a single post. */
  ghost predicate CleanFlush(t: Tables, f: Flush) {
    && (Inserted(t, f) == |f.likes| || OnePost(f.likes))
    && (Deleted(t, f) == |f.unlikes| || OnePost(f.unlikes))
  }

  predicate NoRepeats(ps: seq<Pair>) {
    forall i, j :: 0 <= i < j < |ps| ==> ps[i] != ps[j]
  }

  lemma {:induction false} DistinctIff(ps: seq<Pair>)
    ensures |Members(ps)| == |ps| <==> NoRepeats(ps)
  {
    if ps != [] {
      var init, last := ps[..|ps| - 1], ps[|ps| - 1];
      assert ps == init + [last];
      DistinctIff(init);
      MembersSize(init);
      assert Members(ps) == Members(init) + {last};
      assert NoRepeats(ps) <==> NoRepeats(init) && last !in init;
    }
  }

  lemma OverlapSize(a: set<Pair>, b: set<Pair>)
    ensures |a * b| <= |b| && (|a * b| == |b| <==> b <= a)
    ensures |a + b| == |a| + |b| - |a * b| && |a - b| == |a| - |a * b|
  {
    SubsetSize(a * b, b);
    SubsetSize(a * b, a);
    assert a - b == a - a * b;
    if |a * b| == |b| {
      SameSize(a * b, b);
    }
    if b <= a {
      assert a * b == b;
    }
  }

  /**
   When a half has no ineffective event, for any batch and table: exactly when its pairs are
   distinct and, for likes, none has a row, for unlikes, each has one by then.
   */
  lemma FlushLandsIff(t: Tables, f: Flush)
    ensures Inserted(t, f) == |f.likes| <==> NoRepeats(f.likes) && Members(f.likes) * t.likes == {}
    ensures Deleted(t, f) == |f.unlikes| <==> NoRepeats(f.unlikes) && Members(f.unlikes) <= t.likes + Members(f.likes)
  {
    DistinctIff(f.likes);
    MembersSize(f.likes);
    OverlapSize(t.likes, Members(f.likes));
    assert t.likes * Members(f.likes) == Members(f.likes) * t.likes;
    DistinctIff(f.unlikes);
    MembersSize(f.unlikes);
    OverlapSize(t.likes + Members(f.likes), Members(f.unlikes));
  }

  lemma {:induction false} EffectiveInserts(s: set<Pair>, ps: seq<Pair>, p: int)
    requires |s + Members(ps)| - |s| == |ps|
    ensures |PostRows(s + Members(ps), p)| == |PostRows(s, p)| + At(PerPost(ps), p)
  {
    if ps == [] {
      assert s + Members(ps) == s;
    } else {
      var init, last := ps[..|ps| - 1], ps[|ps| - 1];
      assert ps == init + [last];
      var before, after := s + Members(init), s + Members(ps);
      assert after == before + {last};
      GrowthBound(s, init);
      assert last !in before;
      EffectiveInserts(s, init, p);
      OneMoreRow(before, last, p);
    }
  }

  lemma OneMoreRow(rows: set<Pair>, q: Pair, p: int)
    requires q !in rows
    ensures |PostRows(rows + {q}, p)| == |PostRows(rows, p)| + if q.post == p then 1 else 0
  {
    if q.post == p {
      assert PostRows(rows + {q}, p) == PostRows(rows, p) + {q};
    } else {
      assert PostRows(rows + {q}, p) == PostRows(rows, p);
    }
  }

  lemma {:induction false} OnePostCounts(ps: seq<Pair>)
    requires OnePost(ps) && ps != []
    ensures PerPost(ps) == map[ps[0].post := |ps|]
  {
    if |ps| > 1 {
      OnePostCounts(ps[..|ps| - 1]);
    }
  }

  /** When all that separates two tables lies on one post, that post's rows tell the difference. */
  lemma OnePostRows(small: set<Pair>, big: set<Pair>, q: int, p: int)
    requires small <= big && forall x :: x in big - small ==> x.post == q
    ensures |PostRows(big, p)| - |PostRows(small, p)| == if p == q then |big| - |small| else 0
  {
    SubsetSize(small, big);
    assert PostRows(small, p) <= PostRows(big, p);
    SubsetSize(PostRows(small, p), PostRows(big, p));
    if p == q {
      assert PostRows(big, p) - PostRows(small, p) == big - small;
    } else {
      assert PostRows(big, p) == PostRows(small, p);
    }
  }

  lemma EffectiveScaling(small: set<Pair>, big: set<Pair>, ps: seq<Pair>, p: int)
    requires small <= big && big - small <= Members(ps) && |big| - |small| == |ps|
    ensures At(PerPost(ps), p) == |PostRows(big, p)| - |PostRows(small, p)|
  {
    SubsetSize(small, big);
    MembersSize(ps);
    SameSize(big - small, Members(ps));
    assert big == small + Members(ps);
    EffectiveInserts(small, ps, p);
  }

  lemma OnePostScaling(small: set<Pair>, big: set<Pair>, ps: seq<Pair>, scaled: map<int, int>, p: int)
    requires small <= big && big - small <= Members(ps) && 0 <= |big| - |small| <= |ps|
    requires IsScaling(PerPost(ps), |ps|, |big| - |small|, scaled)
    requires OnePost(ps) && ps != []
    ensures At(scaled, p) == |PostRows(big, p)| - |PostRows(small, p)|
  {
    OnePostScaled(ps, |big| - |small|, scaled);
    OnePostMembers(ps);
    OnePostRows(small, big, ps[0].post, p);
  }

  lemma OnePostScaled(ps: seq<Pair>, landed: int, scaled: map<int, int>)
    requires OnePost(ps) && ps != [] && 0 <= landed <= |ps| && IsScaling(PerPost(ps), |ps|, landed, scaled)
    ensures scaled == if landed == 0 then map[] else map[ps[0].post := landed]
  {
    OnePostCounts(ps);
    SinglePost(ps[0].post, |ps|, landed, scaled);
  }

  lemma OnePostMembers(ps: seq<Pair>)
    requires OnePost(ps) && ps != []
    ensures forall x :: x in Members(ps) ==> x.post == ps[0].post
  {
  }

  /** A clean half attributes its rows to the right posts. */
  lemma CleanScaling(small: set<Pair>, big: set<Pair>, ps: seq<Pair>, scaled: map<int, int>, p: int)
    requires small <= big && big - small <= Members(ps)
    requires IsScaling(PerPost(ps), |ps|, |big| - |small|, scaled)
    requires |big| - |small| == |ps| || OnePost(ps)
    ensures At(scaled, p) == |PostRows(big, p)| - |PostRows(small, p)|
  {
    SubsetSize(small, big);
    MembersSize(ps);
    SubsetSize(big - small, Members(ps));
    if ps == [] {
      assert big == small && scaled == map[];
    } else if OnePost(ps) {
      OnePostScaling(small, big, ps, scaled, p);
    } else {
      EffectiveScaling(small, big, ps, p);
      assert scaled == PerPost(ps);
    }
  }

  lemma SameSize(a: set<Pair>, b: set<Pair>)
    requires a <= b && |a| >= |b|
    ensures a == b
  {
    SubsetSize(a, b);
    assert b == a + (b - a);
  }

  lemma ExactInsert(t: Tables, f: Flush, p: int)
    requires ValidFlush(t, f) && CleanFlush(t, f) && Positive(f.inc)
    requires p in t.counts && t.counts[p] == |PostRows(t.likes, p)|
    ensures AfterLikes(t, f).counts[p] == |PostRows(AfterLikes(t, f).likes, p)|
  {
    LandedAttributed(t.likes, f.likes, f.inc, p);
    CountInserted(t, f, p);
  }

  lemma LandedAttributed(rows: set<Pair>, ls: seq<Pair>, inc: map<int, int>, p: int)
    requires IsScaling(PerPost(ls), |ls|, |rows + Members(ls)| - |rows|, inc)
    requires |rows + Members(ls)| - |rows| == |ls| || OnePost(ls)
    ensures At(inc, p) == |PostRows(rows + Members(ls), p)| - |PostRows(rows, p)|
  {
    assert rows + Members(ls) - rows <= Members(ls);
    CleanScaling(rows, rows + Members(ls), ls, inc, p);
  }

  lemma ExactDelete(t: Tables, f: Flush, p: int)
    requires ValidFlush(t, f) && CleanFlush(t, f) && Positive(f.dec)
    requires p in t.counts && AfterLikes(t, f).counts[p] == |PostRows(AfterLikes(t, f).likes, p)|
    ensures At(f.dec, p) <= AfterLikes(t, f).counts[p]
    ensures AfterFlush(t, f).counts[p] == |PostRows(AfterFlush(t, f).likes, p)|
  {
    GoneAttributed(AfterFlush(t, f).likes, AfterLikes(t, f).likes, f.unlikes, f.dec, p);
    CountDeleted(t, f, p);
  }

  lemma CountDeleted(t: Tables, f: Flush, p: int)
    requires p in t.counts && AfterLikes(t, f).counts[p] == |PostRows(AfterLikes(t, f).likes, p)|
    requires At(f.dec, p) >= 0
    requires At(f.dec, p) == |PostRows(AfterLikes(t, f).likes, p)| - |PostRows(AfterFlush(t, f).likes, p)|
    ensures At(f.dec, p) <= AfterLikes(t, f).counts[p]
    ensures AfterFlush(t, f).counts[p] == |PostRows(AfterFlush(t, f).likes, p)|
  {
  }

  lemma CountInserted(t: Tables, f: Flush, p: int)
    requires p in t.counts && t.counts[p] == |PostRows(t.likes, p)|
    requires At(f.inc, p) == |PostRows(AfterLikes(t, f).likes, p)| - |PostRows(t.likes, p)| && At(f.inc, p) >= 0
    ensures AfterLikes(t, f).counts[p] == |PostRows(AfterLikes(t, f).likes, p)|
  {
  }

  lemma GoneAttributed(left: set<Pair>, rows: set<Pair>, us: seq<Pair>, dec: map<int, int>, p: int)
    requires left == rows - Members(us)
    requires IsScaling(PerPost(us), |us|, |rows| - |left|, dec) && (|rows| - |left| == |us| || OnePost(us))
    ensures At(dec, p) == |PostRows(rows, p)| - |PostRows(left, p)|
  {
    Remainder(left, rows, Members(us));
    CleanScaling(left, rows, us, dec, p);
  }

  lemma Remainder<T>(left: set<T>, all: set<T>, gone: set<T>)
    requires left == all - gone
    ensures left <= all && all - left <= gone
  {
  }

  lemma ExactAt(t: Tables, f: Flush, p: int)
    requires ValidFlush(t, f) && CleanFlush(t, f) && Positive(f.inc) && Positive(f.dec)
    requires p in t.counts && t.counts[p] == |PostRows(t.likes, p)|
    ensures p in ClampMap(t, f) ==> ClampMap(t, f)[p] == 0
    ensures AfterFlush(t, f).counts[p] == |PostRows(AfterFlush(t, f).likes, p)|
  {
    ExactInsert(t, f, p);
    ExactDelete(t, f, p);
  }

  lemma FlushKeepsExact(t: Tables, f: Flush)
    requires ValidFlush(t, f) && KnownPosts(t, f) && Exact(t) && CleanFlush(t, f)
    ensures Exact(AfterFlush(t, f)) && !Clamps(t, f)
  {
    assert Positive(f.inc) && Positive(f.dec) by {
      FlushScalings(t, f);
    }
    var after := AfterFlush(t, f);
    forall p | p in after.counts
      ensures after.counts[p] == |PostRows(after.likes, p)|
    {
      ExactAt(t, f, p);
    }
    forall p | p in ClampMap(t, f)
      ensures ClampMap(t, f)[p] == 0
    {
      ExactAt(t, f, p);
    }
  }

  ghost predicate CleanRun(t: Tables, fs: seq<Flush>)
    decreases fs
  {
    fs == [] || (CleanFlush(t, fs[0]) && CleanRun(AfterFlush(t, fs[0]), fs[1..]))
  }

  /** Over every run of clean flushes each post's counter is its number of rows, and nothing clamps. */
  lemma {:induction false} PerPostExactness(t: Tables, fs: seq<Flush>)
    requires ValidRun(t, fs) && CleanRun(t, fs) && Exact(t)
    ensures Exact(Run(t, fs)) && !RunClamps(t, fs)
    decreases fs
  {
    if fs != [] {
      FlushKeepsExact(t, fs[0]);
      PerPostExactness(AfterFlush(t, fs[0]), fs[1..]);
    }
  }
}
