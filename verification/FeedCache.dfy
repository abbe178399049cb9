/**
 The version-keyed feed cache: pages are stored under (scene, version, cursor), every write
 to the posts table is followed by an INCR of the version, and readers interleave with both.
 */
module FeedCache {
  import opened Prelude
  import opened Cursors
  import opened FeedPaging

  /** `feed:s{scene}:v{ver}:c{cursorMs}`; 0 stands for the first page. Page size is not part of it. */
  datatype Key = Key(scene: int, version: nat, cursorMs: int)

  datatype FeedResp = FeedResp(ids: seq<int>, nextCursor: string, hasMore: bool)

  function FeedCacheKey(scene: int, version: nat, cursor: Option<int>): Key {
    Key(scene, version, if cursor.Some? then cursor.value else 0)
  }

  function CursorOf(k: Key): Option<int> {
    if k.cursorMs == 0 then None else Some(k.cursorMs)
  }

  function NormaliseSize(size: int): nat {
    if size <= 0 then 20 else if size > 50 then 50 else size
  }

  /** assembleFeed, as far as post ids go. */
  function Response(t: Table, ids: seq<int>, size: nat): FeedResp
    requires NewestFirst(t, ids)
  {
    FeedResp(ids, NextCursor(t, ids, size), |ids| >= size)
  }

  /** `r` answers the uncached query on table `t` at page size `size`. */
  ghost predicate Answers(t: Table, scene: int, cursor: Option<int>, size: nat, r: FeedResp) {
    IsPage(t, Scene(scene), cursor, size, r.ids) && r == Response(t, r.ids, size)
  }

  /**
   What a response means, in terms of the table alone: the newest posts of the scene below the
   cursor, as many as fit; more may follow, and the last post's time is handed on, exactly
   when there are at least as many as were asked for.
   */
  ghost predicate Means(t: Table, scene: int, cursor: Option<int>, size: nat, r: FeedResp) {
    var n := |set id | id in t && InScene(t[id], scene, cursor)|;
    && |r.ids| == (if n < size then n else size) && NoRepeats(r.ids) && NewestFirst(t, r.ids)
    && (forall i :: 0 <= i < |r.ids| ==> InScene(t[r.ids[i]], scene, cursor))
    && (forall x, i :: x in t && InScene(t[x], scene, cursor) && x !in r.ids && 0 <= i < |r.ids| ==>
          t[x].createdAt <= t[r.ids[i]].createdAt)
    && (r.hasMore <==> n >= size)
    && (r.hasMore <==> r.nextCursor != "")
    && (r.hasMore ==> r.ids != [] && r.nextCursor == FormatInt(t[r.ids[|r.ids| - 1]].createdAt))
  }

  lemma AnswersMean(t: Table, scene: int, cursor: Option<int>, size: nat, r: FeedResp)
    requires size > 0 && ValidTimes(t)
    ensures Answers(t, scene, cursor, size, r) <==> Means(t, scene, cursor, size, r)
  {
    var e, all := Eligible(t, Scene(scene), cursor), set id | id in t && InScene(t[id], scene, cursor);
    SameEligible(t, scene, cursor, e, all);
    if NewestFirst(t, r.ids) && r.ids != [] {
      var id := r.ids[|r.ids| - 1];
      assert id in t && 0 < t[id].createdAt <= MaxInt64;
      CursorRoundTrip(t[id].createdAt);
    }
  }

  lemma SameEligible(t: Table, scene: int, cursor: Option<int>, e: set<int>, all: set<int>)
    requires e == Eligible(t, Scene(scene), cursor) && all == set id | id in t && InScene(t[id], scene, cursor)
    ensures e == all
    ensures forall x :: x in e <==> x in t && InScene(t[x], scene, cursor)
  {
    assert forall x :: x in e <==> x in t && InScene(t[x], scene, cursor);
    assert forall x :: x in all <==> x in t && InScene(t[x], scene, cursor);
  }

  /** Two requests share a page exactly when they agree in scene, version and cursor. */
  lemma KeyInjective(scene: int, ver: nat, cursor: Option<int>, scene': int, ver': nat, cursor': Option<int>)
    requires (cursor.Some? ==> cursor.value > 0) && (cursor'.Some? ==> cursor'.value > 0)
    ensures FeedCacheKey(scene, ver, cursor) == FeedCacheKey(scene', ver', cursor') <==>
      scene == scene' && ver == ver' && cursor == cursor'
  {
  }

  // ---- The cache and the post service, one call at a time ------------------------------------

  class Cache {
    /** feed:ver; a missing key reads as 0, and INCR creates it. */
    var version: Option<nat>
    var pages: map<Key, FeedResp>

    ghost function Version(): nat
      reads this
    {
      if version.Some? then version.value else 0
    }

    constructor ()
      ensures version == None && pages == map[]
    {
      version, pages := None, map[];
    }

    method GetFeedVersion() returns (v: nat)
      ensures v == Version()
    {
      match version {
        case None => v := 0;
        case Some(n) => v := n;
      }
    }

    method BumpFeedVersion() returns (v: nat)
      modifies this`version
      ensures v == Version() == old(Version()) + 1
    {
      match version {
        case None => v := 1;
        case Some(n) => v := n + 1;
      }
      version := Some(v);
    }

    method GetFeed(scene: int, v: nat, cursor: Option<int>) returns (r: Option<FeedResp>)
      ensures r == if FeedCacheKey(scene, v, cursor) in pages then Some(pages[FeedCacheKey(scene, v, cursor)]) else None
    {
      var k := FeedCacheKey(scene, v, cursor);
      r := if k in pages then Some(pages[k]) else None;
    }

    method SetFeed(scene: int, v: nat, cursor: Option<int>, r: FeedResp)
      modifies this`pages
      ensures pages == old(pages)[FeedCacheKey(scene, v, cursor) := r]
    {
      pages := pages[FeedCacheKey(scene, v, cursor) := r];
    }
  }

  datatype ListOutcome = CursorInvalid | Listed(resp: FeedResp)

  datatype DeleteOutcome = Deleted | PostNotFound | PostForbidden

  class PostService {
    const cache: Cache
    /** Page size of all callers, after normalising. */
    const size: nat
    var table: Table

    /** Pages of the current version answer the query on the current table; none is from a later version. */
    ghost predicate Valid()
      reads this, cache
    {
      && ValidTimes(table) && 1 <= size <= 50
      && (forall k :: k in cache.pages ==> k.version <= cache.Version())
      && (forall k :: k in cache.pages && k.version == cache.Version() ==>
            Answers(table, k.scene, CursorOf(k), size, cache.pages[k]))
    }

    constructor (rawSize: int)
      ensures Valid() && table == map[] && fresh(cache)
      ensures size == if rawSize <= 0 then 20 else if rawSize > 50 then 50 else rawSize
    {
      size := NormaliseSize(rawSize);
      table := map[];
      cache := new Cache();
    }

    /** `answer` is what the database returns if it is asked. */
    method ListFeed(scene: int, cursor: string, answer: seq<int>) returns (r: ListOutcome)
      requires Valid()
      requires ParseFeedCursor(cursor).Some? ==>
        IsPage(table, Scene(scene), ParseFeedCursor(cursor).value, size, answer)
      modifies cache
      ensures Valid() && cache.Version() == old(cache.Version())
      ensures ParseFeedCursor(cursor).None? ==> r == CursorInvalid && cache.pages == old(cache.pages)
      ensures ParseFeedCursor(cursor).Some? ==>
        r.Listed? && Answers(table, scene, ParseFeedCursor(cursor).value, size, r.resp)
      ensures ParseFeedCursor(cursor).Some? ==> Means(table, scene, ParseFeedCursor(cursor).value, size, r.resp)
      ensures ParseFeedCursor(cursor).Some? ==>
        var k := FeedCacheKey(scene, cache.Version(), ParseFeedCursor(cursor).value);
        && cache.pages == old(cache.pages)[k := r.resp]
        && r.resp == if k in old(cache.pages) then old(cache.pages)[k] else Response(table, answer, size)
    {
      var parsed := ParseFeedCursor(cursor);
      if parsed.None? {
        return CursorInvalid;
      }
      var cursorTime := parsed.value;
      var ver := cache.GetFeedVersion();
      var cached := cache.GetFeed(scene, ver, cursorTime);
      assert CursorOf(FeedCacheKey(scene, ver, cursorTime)) == cursorTime;
      if cached.Some? {
        AnswersMean(table, scene, cursorTime, size, cached.value);
        return Listed(cached.value);
      }
      var resp := Response(table, answer, size);
      AnswersMean(table, scene, cursorTime, size, resp);
      cache.SetFeed(scene, ver, cursorTime, resp);
      r := Listed(resp);
    }

    /** A new post starts invisible; the version moves on all the same. */
    method Create(postID: int, userID: int, scene: int, now: int)
      requires Valid() && postID !in table && 0 < now <= MaxInt64
      modifies this, cache
      ensures Valid() && table == old(table)[postID := Post(userID, scene, false, false, now)]
      ensures cache.Version() == old(cache.Version()) + 1 && cache.pages == old(cache.pages)
    {
      table := table[postID := Post(userID, scene, false, false, now)];
      var ver := cache.BumpFeedVersion();
    }

    /**
     One verdict. The version moves on only when the post becomes visible; a verdict that takes
     a visible post back leaves every current page right except those that list it.
     */
    method Audit(postID: int, pass: bool)
      requires Valid()
      modifies this, cache
      ensures postID !in old(table) || old(table)[postID].deleted ==>
        table == old(table) && cache.Version() == old(cache.Version())
      ensures postID in old(table) && !old(table)[postID].deleted ==>
        && table == old(table)[postID := old(table)[postID].(visible := pass)]
        && cache.Version() == old(cache.Version()) + if pass then 1 else 0
      ensures cache.pages == old(cache.pages)
      ensures Valid() <==>
        forall k :: k in cache.pages && k.version == cache.Version() && postID in cache.pages[k].ids ==>
          postID in table && table[postID].visible
    {
      if postID !in table || table[postID].deleted {
        Undisturbed(table, table, cache.pages, cache.Version(), size, postID);
        return;
      }
      ghost var before := table;
      table := table[postID := table[postID].(visible := pass)];
      if pass {
        var ver := cache.BumpFeedVersion();
      } else {
        Undisturbed(before, table, cache.pages, cache.Version(), size, postID);
      }
    }

    method Delete(userID: int, postID: int) returns (r: DeleteOutcome)
      requires Valid()
      modifies this, cache
      ensures Valid()
      ensures r == if postID !in old(table) || old(table)[postID].deleted then PostNotFound
                   else if old(table)[postID].author != userID then PostForbidden else Deleted
      ensures r.Deleted? ==> table == old(table)[postID := old(table)[postID].(deleted := true)]
      ensures r.Deleted? ==> cache.Version() == old(cache.Version()) + 1
      ensures !r.Deleted? ==> table == old(table) && cache.Version() == old(cache.Version())
      ensures cache.pages == old(cache.pages)
    {
      if postID !in table || table[postID].deleted {
        return PostNotFound;
      }
      if table[postID].author != userID {
        return PostForbidden;
      }
      table := table[postID := table[postID].(deleted := true)];
      var ver := cache.BumpFeedVersion();
      r := Deleted;
    }
  }

  /** Taking a post out of sight leaves a page right exactly when the page does not list it. */
  lemma HiddenPost(t: Table, t': Table, scene: int, cursor: Option<int>, size: nat, r: FeedResp, post: int)
    requires Answers(t, scene, cursor, size, r) && post in t && !t[post].deleted && t' == t[post := t[post].(visible := false)]
    ensures Answers(t', scene, cursor, size, r) <==> post !in r.ids
  {
    HiddenEligible(t, t', scene, cursor, size, r.ids, post);
    if post !in r.ids {
      assert forall i :: 0 <= i < |r.ids| ==> t'[r.ids[i]].createdAt == t[r.ids[i]].createdAt;
    }
  }

  lemma HiddenEligible(t: Table, t': Table, scene: int, cursor: Option<int>, size: nat, ids: seq<int>, post: int)
    requires IsPage(t, Scene(scene), cursor, size, ids)
    requires post in t && !t[post].deleted && t' == t[post := t[post].(visible := false)]
    ensures forall x :: x in Eligible(t', Scene(scene), cursor) <==> x in Eligible(t, Scene(scene), cursor) && x != post
    ensures post !in ids ==> |ids| == if size < |Eligible(t', Scene(scene), cursor)| then size else |Eligible(t', Scene(scene), cursor)|
  {
    var e, e' := Eligible(t, Scene(scene), cursor), Eligible(t', Scene(scene), cursor);
    assert forall x :: x in e' <==> x in e && x != post;
    SubsetSize(e', e);
    if post in e {
      assert e - e' == {post};
      if post !in ids {
        UsesUp(ids + [post], e, {});
      }
    } else {
      assert e' == e;
    }
  }

  lemma Undisturbed(t: Table, t': Table, pages: map<Key, FeedResp>, version: nat, size: nat, post: int)
    requires forall k :: k in pages && k.version == version ==> Answers(t, k.scene, CursorOf(k), size, pages[k])
    requires if post in t && !t[post].deleted then t' == t[post := t[post].(visible := false)] else t' == t
    ensures (forall k :: k in pages && k.version == version ==> Answers(t', k.scene, CursorOf(k), size, pages[k])) <==>
      (forall k :: k in pages && k.version == version && post in pages[k].ids ==> post in t' && t'[post].visible)
  {
    forall k | k in pages && k.version == version
      ensures Answers(t', k.scene, CursorOf(k), size, pages[k]) <==> (post in pages[k].ids ==> post in t' && t'[post].visible)
    {
      if post in t && !t[post].deleted {
        HiddenPost(t, t', k.scene, CursorOf(k), size, pages[k], post);
      }
    }
  }

  // ---- Readers, writers and expiries interleaved ----------------------------------------------

  datatype Request = Request(scene: int, cursor: Option<int>, size: nat)

  /** A ListFeed call; `floor` is the DB state of the last bump completed when it began. */
  datatype Reader =
    | Called(q: Request, floor: nat)
    | Versioned(q: Request, floor: nat, ver: nat)
    | Fetching(q: Request, floor: nat, store: Option<nat>)
    | Storing(q: Request, floor: nat, ver: nat, resp: FeedResp)
    | Returned(q: Request, floor: nat, resp: FeedResp)

  /** `tables` is the history of the posts table, `bumpAt[v]` its last index when the version became v. */
  datatype State = State(tables: seq<Table>, bumpAt: seq<nat>, pages: map<Key, FeedResp>, readers: map<nat, Reader>)

  datatype Step =
    | Write(t: Table)
    | Bump
    | Call(id: nat, q: Request)
    | ReadVersion(id: nat)
    | VersionFails(id: nat)
    | Hit(id: nat)
    | Miss(id: nat)
    | Query(id: nat, ids: seq<int>)
    | Store(id: nat, succeeds: bool)
    | Expire(k: Key)

  function Current(s: State): nat {
    if s.tables == [] then 0 else |s.tables| - 1
  }

  ghost predicate Enabled(s: State, step: Step) {
    match step
    case Write(t) => ValidTimes(t)
    case Bump => s.tables != []
    case Call(id, q) => id !in s.readers && s.bumpAt != [] && (q.cursor.Some? ==> q.cursor.value > 0)
    case ReadVersion(id) => id in s.readers && s.readers[id].Called? && s.bumpAt != []
    case VersionFails(id) => id in s.readers && s.readers[id].Called?
    case Hit(id) => id in s.readers && s.readers[id].Versioned? && KeyOf(s.readers[id]) in s.pages
    case Miss(id) => id in s.readers && s.readers[id].Versioned?
    case Query(id, ids) => id in s.readers && s.readers[id].Fetching? && s.tables != []
      && var q := s.readers[id].q; IsPage(s.tables[Current(s)], Scene(q.scene), q.cursor, q.size, ids)
    case Store(id, _) => id in s.readers && s.readers[id].Storing?
    case Expire(_) => true
  }

  function KeyOf(r: Reader): Key
    requires r.Versioned? || r.Storing?
  {
    FeedCacheKey(r.q.scene, r.ver, r.q.cursor)
  }

  ghost function Fetched(s: State, r: Reader, ids: seq<int>): Reader
    requires r.Fetching? && s.tables != [] && NewestFirst(s.tables[Current(s)], ids)
  {
    var resp := Response(s.tables[Current(s)], ids, r.q.size);
    if r.store.Some? then Storing(r.q, r.floor, r.store.value, resp) else Returned(r.q, r.floor, resp)
  }

  ghost function Do(s: State, step: Step): State
    requires Enabled(s, step)
  {
    match step
    case Write(t) => s.(tables := s.tables + [t])
    case Bump => s.(bumpAt := s.bumpAt + [Current(s)])
    case Call(id, q) => s.(readers := s.readers[id := Called(q, s.bumpAt[|s.bumpAt| - 1])])
    case ReadVersion(id) =>
      var r := s.readers[id];
      s.(readers := s.readers[id := Versioned(r.q, r.floor, |s.bumpAt| - 1)])
    case VersionFails(id) =>
      var r := s.readers[id];
      s.(readers := s.readers[id := Fetching(r.q, r.floor, None)])
    case Hit(id) =>
      var r := s.readers[id];
      s.(readers := s.readers[id := Returned(r.q, r.floor, s.pages[KeyOf(r)])])
    case Miss(id) =>
      var r := s.readers[id];
      s.(readers := s.readers[id := Fetching(r.q, r.floor, Some(r.ver))])
    case Query(id, ids) => s.(readers := s.readers[id := Fetched(s, s.readers[id], ids)])
    case Store(id, succeeds) =>
      var r := s.readers[id];
      State(s.tables, s.bumpAt, if succeeds then s.pages[KeyOf(r) := r.resp] else s.pages,
            s.readers[id := Returned(r.q, r.floor, r.resp)])
    case Expire(k) => s.(pages := s.pages - {k})
  }

  ghost predicate ValidSteps(s: State, steps: seq<Step>)
    decreases steps
  {
    steps == [] || (Enabled(s, steps[0]) && ValidSteps(Do(s, steps[0]), steps[1..]))
  }

  ghost function Exec(s: State, steps: seq<Step>): State
    requires ValidSteps(s, steps)
    decreases steps
  {
    if steps == [] then s else Exec(Do(s, steps[0]), steps[1..])
  }

  /** The uncached answer at some table state from `floor` on, at one of the page sizes in use. */
  ghost predicate FreshFrom(tables: seq<Table>, floor: nat, scene: int, cursor: Option<int>, sizes: set<nat>, r: FeedResp) {
    exists i, n :: floor <= i < |tables| && n in sizes && Answers(tables[i], scene, cursor, n, r)
  }

  ghost predicate ReaderOk(s: State, sizes: set<nat>, r: Reader) {
    && r.q.size in sizes && (r.q.cursor.Some? ==> r.q.cursor.value > 0)
    && match r
       case Called(q, floor) => s.bumpAt != [] && floor <= s.bumpAt[|s.bumpAt| - 1]
       case Versioned(q, floor, ver) => ver < |s.bumpAt| && floor <= s.bumpAt[ver]
       case Fetching(q, floor, store) =>
         floor <= Current(s) && (store.Some? ==> store.value < |s.bumpAt|)
       case Storing(q, floor, ver, resp) =>
         ver < |s.bumpAt| && FreshFrom(s.tables, floor, q.scene, q.cursor, sizes, resp)
         && FreshFrom(s.tables, s.bumpAt[ver], q.scene, q.cursor, sizes, resp)
       case Returned(q, floor, resp) => FreshFrom(s.tables, floor, q.scene, q.cursor, sizes, resp)
  }

  ghost predicate PageOk(s: State, sizes: set<nat>, k: Key) {
    k in s.pages ==> k.version < |s.bumpAt| && FreshFrom(s.tables, s.bumpAt[k.version], k.scene, CursorOf(k), sizes, s.pages[k])
  }

  ghost predicate Inv(s: State, sizes: set<nat>) {
    && s.tables != [] && s.bumpAt != []
    && (forall v :: 0 <= v < |s.bumpAt| ==> s.bumpAt[v] < |s.tables|)
    && (forall v, w :: 0 <= v < w < |s.bumpAt| ==> s.bumpAt[v] <= s.bumpAt[w])
    && (forall k :: PageOk(s, sizes, k))
    && (forall id :: id in s.readers ==> ReaderOk(s, sizes, s.readers[id]))
  }

  /** Later tables and later bumps invalidate nothing. */
  lemma Later(s: State, s': State, sizes: set<nat>)
    requires s.tables <= s'.tables && s.bumpAt <= s'.bumpAt && s.tables != []
    requires s'.bumpAt != [] && s.bumpAt != [] ==> s.bumpAt[|s.bumpAt| - 1] <= s'.bumpAt[|s'.bumpAt| - 1]
    ensures forall k :: PageOk(s, sizes, k) && (k in s'.pages ==> k in s.pages && s.pages[k] == s'.pages[k]) ==> PageOk(s', sizes, k)
    ensures forall r :: ReaderOk(s, sizes, r) ==> ReaderOk(s', sizes, r)
  {
    forall floor: nat, scene, cursor, r | FreshFrom(s.tables, floor, scene, cursor, sizes, r)
      ensures FreshFrom(s'.tables, floor, scene, cursor, sizes, r)
    {
      var i, n :| floor <= i < |s.tables| && n in sizes && Answers(s.tables[i], scene, cursor, n, r);
      assert s'.tables[i] == s.tables[i];
    }
  }

  lemma QueryIsFresh(s: State, sizes: set<nat>, r: Reader, ids: seq<int>)
    requires Inv(s, sizes) && r.Fetching? && ReaderOk(s, sizes, r)
    requires IsPage(s.tables[Current(s)], Scene(r.q.scene), r.q.cursor, r.q.size, ids)
    ensures ReaderOk(s, sizes, Fetched(s, r, ids))
  {
    var resp := Response(s.tables[Current(s)], ids, r.q.size);
    assert Answers(s.tables[Current(s)], r.q.scene, r.q.cursor, r.q.size, resp);
  }

  ghost predicate SizesIn(step: Step, sizes: set<nat>) {
    step.Call? ==> step.q.size in sizes
  }

  lemma ReaderStep(s: State, step: Step, sizes: set<nat>, id: nat)
    requires Inv(s, sizes) && Enabled(s, step) && SizesIn(step, sizes)
    requires step.Call? || step.ReadVersion? || step.VersionFails? || step.Hit? || step.Miss? || step.Query?
    requires id == step.id
    ensures id in Do(s, step).readers && ReaderOk(s, sizes, Do(s, step).readers[id])
  {
    match step
    case Hit(_) => HitIsFresh(s, sizes, s.readers[id]);
    case Query(_, ids) => QueryIsFresh(s, sizes, s.readers[id], ids);
    case _ =>
  }

  lemma HitIsFresh(s: State, sizes: set<nat>, r: Reader)
    requires Inv(s, sizes) && r.Versioned? && ReaderOk(s, sizes, r) && KeyOf(r) in s.pages
    ensures ReaderOk(s, sizes, Returned(r.q, r.floor, s.pages[KeyOf(r)]))
  {
    assert PageOk(s, sizes, KeyOf(r));
    assert CursorOf(KeyOf(r)) == r.q.cursor;
    FreshWeaken(s.tables, s.bumpAt[r.ver], r.floor, r.q.scene, r.q.cursor, sizes, s.pages[KeyOf(r)]);
  }

  lemma FreshWeaken(tables: seq<Table>, high: nat, low: nat, scene: int, cursor: Option<int>, sizes: set<nat>, r: FeedResp)
    requires low <= high && FreshFrom(tables, high, scene, cursor, sizes, r)
    ensures FreshFrom(tables, low, scene, cursor, sizes, r)
  {
    var i, n :| high <= i < |tables| && n in sizes && Answers(tables[i], scene, cursor, n, r);
  }

  lemma StepKeepsInv(s: State, step: Step, sizes: set<nat>)
    requires Inv(s, sizes) && Enabled(s, step) && SizesIn(step, sizes)
    ensures Inv(Do(s, step), sizes)
  {
    if step.Write? || step.Bump? || step.Expire? {
      SharedStepKeepsInv(s, step, sizes);
    } else if step.Store? {
      StoreKeepsInv(s, step.id, step.succeeds, sizes);
    } else {
      ReaderStepKeepsInv(s, step, sizes);
    }
  }

  lemma SharedStepKeepsInv(s: State, step: Step, sizes: set<nat>)
    requires Inv(s, sizes) && Enabled(s, step) && (step.Write? || step.Bump? || step.Expire?)
    ensures Inv(Do(s, step), sizes)
  {
    Later(s, Do(s, step), sizes);
  }

  lemma ReaderStepKeepsInv(s: State, step: Step, sizes: set<nat>)
    requires Inv(s, sizes) && Enabled(s, step) && SizesIn(step, sizes)
    requires step.Call? || step.ReadVersion? || step.VersionFails? || step.Hit? || step.Miss? || step.Query?
    ensures Inv(Do(s, step), sizes)
  {
    var s' := Do(s, step);
    ReaderStep(s, step, sizes, step.id);
    Later(s, s', sizes);
    forall i | i in s'.readers
      ensures ReaderOk(s', sizes, s'.readers[i])
    {
      if i != step.id {
        assert ReaderOk(s, sizes, s.readers[i]);
      }
    }
  }

  /** A page is stored under the version its reader looked up, and is fresh for that version. */
  lemma StoreKeepsPages(s: State, id: nat, succeeds: bool, sizes: set<nat>, k: Key)
    requires Enabled(s, Store(id, succeeds)) && ReaderOk(s, sizes, s.readers[id]) && PageOk(s, sizes, k)
    ensures PageOk(Do(s, Store(id, succeeds)), sizes, k)
  {
    var r := s.readers[id];
    assert CursorOf(KeyOf(r)) == r.q.cursor;
  }

  lemma StoreKeepsReader(s: State, id: nat, succeeds: bool, sizes: set<nat>, i: nat)
    requires Enabled(s, Store(id, succeeds)) && i in s.readers
    requires ReaderOk(s, sizes, s.readers[id]) && ReaderOk(s, sizes, s.readers[i])
    ensures ReaderOk(Do(s, Store(id, succeeds)), sizes, Do(s, Store(id, succeeds)).readers[i])
  {
  }

  lemma StoreKeepsInv(s: State, id: nat, succeeds: bool, sizes: set<nat>)
    requires Inv(s, sizes) && Enabled(s, Store(id, succeeds))
    ensures Inv(Do(s, Store(id, succeeds)), sizes)
  {
    var s' := Do(s, Store(id, succeeds));
    forall k
      ensures PageOk(s', sizes, k)
    {
      StoreKeepsPages(s, id, succeeds, sizes, k);
    }
    forall i | i in s'.readers
      ensures ReaderOk(s', sizes, s'.readers[i])
    {
      StoreKeepsReader(s, id, succeeds, sizes, i);
    }
  }

  ghost predicate Initial(s: State) {
    |s.tables| == 1 && s.bumpAt == [0] && s.pages == map[] && s.readers == map[]
  }

  /**
   In every interleaving, a ListFeed call returns what the uncached query answers at some
   state of the table no older than the last bump completed before the call began. The page
   size is that of some call of the run: with a single size in use it is the caller's own.
   */
  lemma {:induction false} CacheRefinesQuery(s: State, steps: seq<Step>, sizes: set<nat>)
    requires Inv(s, sizes) && ValidSteps(s, steps)
    requires forall i :: 0 <= i < |steps| ==> SizesIn(steps[i], sizes)
    ensures Inv(Exec(s, steps), sizes)
    ensures var s' := Exec(s, steps);
      forall id :: id in s'.readers && s'.readers[id].Returned? ==>
        var r := s'.readers[id];
        FreshFrom(s'.tables, r.floor, r.q.scene, r.q.cursor, sizes, r.resp)
    decreases steps
  {
    if steps != [] {
      assert SizesIn(steps[0], sizes);
      StepKeepsInv(s, steps[0], sizes);
      CacheRefinesQuery(Do(s, steps[0]), steps[1..], sizes);
    }
  }

  /** The same in terms of the tables alone, for every call that has returned. */
  ghost predicate MeansFrom(tables: seq<Table>, floor: nat, q: Request, sizes: set<nat>, r: FeedResp) {
    exists i, n :: floor <= i < |tables| && n in sizes && Means(tables[i], q.scene, q.cursor, n, r)
  }

  ghost predicate AllValidTimes(tables: seq<Table>) {
    forall i :: 0 <= i < |tables| ==> ValidTimes(tables[i])
  }

  lemma {:induction false} TimesStayValid(s: State, steps: seq<Step>)
    requires ValidSteps(s, steps) && AllValidTimes(s.tables)
    ensures AllValidTimes(Exec(s, steps).tables)
    decreases steps
  {
    if steps != [] {
      assert AllValidTimes(Do(s, steps[0]).tables);
      TimesStayValid(Do(s, steps[0]), steps[1..]);
    }
  }

  /** What every returned response means; and it says that more follows exactly when it hands on a cursor. */
  lemma ReturnedMeans(s: State, steps: seq<Step>, sizes: set<nat>, id: nat)
    requires Inv(s, sizes) && AllValidTimes(s.tables) && ValidSteps(s, steps) && AllSizesIn(steps, sizes) && 0 !in sizes
    requires id in Exec(s, steps).readers && Exec(s, steps).readers[id].Returned?
    ensures var s' := Exec(s, steps);
      && MeansFrom(s'.tables, s'.readers[id].floor, s'.readers[id].q, sizes, s'.readers[id].resp)
      && (s'.readers[id].resp.hasMore <==> s'.readers[id].resp.nextCursor != "")
  {
    CacheRefinesQuery(s, steps, sizes);
    TimesStayValid(s, steps);
    var tables, r := Exec(s, steps).tables, Exec(s, steps).readers[id];
    assert FreshFrom(tables, r.floor, r.q.scene, r.q.cursor, sizes, r.resp);
    FreshMeans(tables, r.floor, r.q, sizes, r.resp);
  }

  lemma FreshMeans(tables: seq<Table>, floor: nat, q: Request, sizes: set<nat>, r: FeedResp)
    requires AllValidTimes(tables) && 0 !in sizes && FreshFrom(tables, floor, q.scene, q.cursor, sizes, r)
    ensures MeansFrom(tables, floor, q, sizes, r)
    ensures r.hasMore <==> r.nextCursor != ""
  {
    var i, n :| floor <= i < |tables| && n in sizes && Answers(tables[i], q.scene, q.cursor, n, r);
    assert ValidTimes(tables[i]) && n != 0;
    AnswersMean(tables[i], q.scene, q.cursor, n, r);
  }

  lemma InitialInv(s: State, sizes: set<nat>)
    requires Initial(s)
    ensures Inv(s, sizes)
  {
  }

  /** A deletion is never undone. */
  ghost predicate DeletesAreFinal(tables: seq<Table>) {
    forall i, j, id :: 0 <= i <= j < |tables| && id in tables[i] && tables[i][id].deleted ==>
      id in tables[j] && tables[j][id].deleted
  }

  lemma FreshOmitsDeleted(tables: seq<Table>, floor: nat, w: nat, q: Request, sizes: set<nat>, r: FeedResp, post: int)
    requires FreshFrom(tables, floor, q.scene, q.cursor, sizes, r) && DeletesAreFinal(tables)
    requires w < |tables| && w <= floor && post in tables[w] && tables[w][post].deleted
    ensures post !in r.ids
  {
    var i, n :| floor <= i < |tables| && n in sizes && Answers(tables[i], q.scene, q.cursor, n, r);
    assert post in tables[i] && tables[i][post].deleted;
  }

  /** Table state w is past, and holds the deletion. */
  ghost predicate DeletedAt(s: State, w: nat, post: int) {
    w < |s.tables| && post in s.tables[w] && s.tables[w][post].deleted
  }

  ghost predicate BumpedSince(s: State, w: nat) {
    s.bumpAt != [] && w <= s.bumpAt[|s.bumpAt| - 1]
  }

  ghost predicate CalledSince(s: State, id: nat, w: nat) {
    id in s.readers && w <= s.readers[id].floor
  }

  lemma StepKeepsPast(s: State, step: Step, w: nat, post: int, id: nat)
    requires Enabled(s, step) && DeletedAt(s, w, post)
    ensures DeletedAt(Do(s, step), w, post)
    ensures BumpedSince(s, w) ==> BumpedSince(Do(s, step), w)
    ensures CalledSince(s, id, w) ==> CalledSince(Do(s, step), id, w)
  {
  }

  lemma {:induction false} RunKeepsPast(s: State, steps: seq<Step>, w: nat, post: int, id: nat)
    requires ValidSteps(s, steps) && DeletedAt(s, w, post)
    ensures DeletedAt(Exec(s, steps), w, post)
    ensures BumpedSince(s, w) ==> BumpedSince(Exec(s, steps), w)
    ensures CalledSince(s, id, w) ==> CalledSince(Exec(s, steps), id, w)
    decreases steps
  {
    if steps != [] {
      StepKeepsPast(s, steps[0], w, post, id);
      RunKeepsPast(Do(s, steps[0]), steps[1..], w, post, id);
    }
  }

  /** Only page sizes in use occur in the steps. */
  ghost predicate AllSizesIn(steps: seq<Step>, sizes: set<nat>) {
    forall i :: 0 <= i < |steps| ==> SizesIn(steps[i], sizes)
  }

  /**
   Once a deletion has been written and a bump has followed, no call that begins later lists
   the post, whatever happens in between: write, any steps, bump, any steps, call, any steps.
   */
  lemma DeletedNeverListed(s: State, t: Table, post: int, toBump: seq<Step>, toCall: seq<Step>, id: nat, q: Request,
                           toReturn: seq<Step>, sizes: set<nat>)
    requires Inv(s, sizes) && ValidTimes(t) && post in t && t[post].deleted
    requires AllSizesIn(toBump, sizes) && AllSizesIn(toCall, sizes) && AllSizesIn(toReturn, sizes) && q.size in sizes
    requires ValidSteps(Do(s, Write(t)), toBump)
    requires var s1 := Exec(Do(s, Write(t)), toBump); Enabled(s1, Bump) && ValidSteps(Do(s1, Bump), toCall)
    requires var s2 := Exec(Do(Exec(Do(s, Write(t)), toBump), Bump), toCall);
      Enabled(s2, Call(id, q)) && ValidSteps(Do(s2, Call(id, q)), toReturn)
    ensures var s2 := Exec(Do(Exec(Do(s, Write(t)), toBump), Bump), toCall);
      var s3 := Exec(Do(s2, Call(id, q)), toReturn);
      id in s3.readers && (s3.readers[id].Returned? && DeletesAreFinal(s3.tables) ==> post !in s3.readers[id].resp.ids)
  {
    var w := |s.tables|;
    StepKeepsInv(s, Write(t), sizes);
    RunKeepsAll(Do(s, Write(t)), toBump, w, post, id, sizes);
    var s1 := Exec(Do(s, Write(t)), toBump);
    BumpSettles(s1, w, post, sizes);
    RunKeepsAll(Do(s1, Bump), toCall, w, post, id, sizes);
    var s2 := Exec(Do(s1, Bump), toCall);
    CallSettles(s2, id, q, w, post, sizes);
    ReturnsWithout(Do(s2, Call(id, q)), toReturn, w, post, id, sizes);
  }

  lemma RunKeepsAll(s: State, steps: seq<Step>, w: nat, post: int, id: nat, sizes: set<nat>)
    requires Inv(s, sizes) && ValidSteps(s, steps) && AllSizesIn(steps, sizes) && DeletedAt(s, w, post)
    ensures Inv(Exec(s, steps), sizes) && DeletedAt(Exec(s, steps), w, post)
    ensures BumpedSince(s, w) ==> BumpedSince(Exec(s, steps), w)
  {
    CacheRefinesQuery(s, steps, sizes);
    RunKeepsPast(s, steps, w, post, id);
  }

  lemma BumpSettles(s: State, w: nat, post: int, sizes: set<nat>)
    requires Inv(s, sizes) && DeletedAt(s, w, post)
    ensures Inv(Do(s, Bump), sizes) && DeletedAt(Do(s, Bump), w, post) && BumpedSince(Do(s, Bump), w)
  {
    StepKeepsInv(s, Bump, sizes);
  }

  lemma CallSettles(s: State, id: nat, q: Request, w: nat, post: int, sizes: set<nat>)
    requires Inv(s, sizes) && DeletedAt(s, w, post) && BumpedSince(s, w) && Enabled(s, Call(id, q)) && q.size in sizes
    ensures var s' := Do(s, Call(id, q)); Inv(s', sizes) && DeletedAt(s', w, post) && CalledSince(s', id, w)
  {
    StepKeepsInv(s, Call(id, q), sizes);
  }

  lemma ReturnsWithout(s: State, steps: seq<Step>, w: nat, post: int, id: nat, sizes: set<nat>)
    requires Inv(s, sizes) && ValidSteps(s, steps) && AllSizesIn(steps, sizes)
    requires DeletedAt(s, w, post) && CalledSince(s, id, w)
    ensures var s' := Exec(s, steps);
      id in s'.readers && (s'.readers[id].Returned? && DeletesAreFinal(s'.tables) ==> post !in s'.readers[id].resp.ids)
  {
    CacheRefinesQuery(s, steps, sizes);
    RunKeepsPast(s, steps, w, post, id);
    var s' := Exec(s, steps);
    if s'.readers[id].Returned? && DeletesAreFinal(s'.tables) {
      var r := s'.readers[id];
      FreshOmitsDeleted(s'.tables, r.floor, w, r.q, sizes, r.resp, post);
    }
  }

  // ---- Sizes ------------------------------------------------------------------------------

  /**
   What the missing page size costs: the response cached for one size is the response for
   another exactly when the sizes agree or all eligible posts fall short of both.
   */
  lemma PageSizeConfusion(t: Table, scene: int, cursor: Option<int>, m: nat, n: nat, r: FeedResp)
    requires m > 0 && n > 0 && Answers(t, scene, cursor, m, r)
    ensures Answers(t, scene, cursor, n, r) <==>
      m == n || (|Eligible(t, Scene(scene), cursor)| < m && |Eligible(t, Scene(scene), cursor)| < n)
  {
    if |r.ids| == n && n < m {
      assert !r.hasMore;
    }
  }

  ghost predicate Reaches(s: State, t: State) {
    exists steps :: ValidSteps(s, steps) && Exec(s, steps) == t
  }

  lemma {:induction false} ExecAppend(s: State, steps: seq<Step>, last: Step)
    requires ValidSteps(s, steps) && Enabled(Exec(s, steps), last)
    ensures ValidSteps(s, steps + [last]) && Exec(s, steps + [last]) == Do(Exec(s, steps), last)
    decreases steps
  {
    if steps == [] {
      assert steps + [last] == [last] && [last][1..] == [];
    } else {
      ExecAppend(Do(s, steps[0]), steps[1..], last);
      assert (steps + [last])[0] == steps[0] && (steps + [last])[1..] == steps[1..] + [last];
    }
  }

  lemma Then(s: State, t: State, last: Step)
    requires Reaches(s, t) && Enabled(t, last)
    ensures Reaches(s, Do(t, last))
  {
    var steps :| ValidSteps(s, steps) && Exec(s, steps) == t;
    ExecAppend(s, steps, last);
  }

  function Fresh(t: Table): State {
    State([t], [0], map[], map[])
  }

  /** One caller of size m looks in vain, asks the database and stores its page. */
  lemma FirstCallerStores(t: Table, q: Request, ids: seq<int>) returns (s: State)
    requires (q.cursor.Some? ==> q.cursor.value > 0) && IsPage(t, Scene(q.scene), q.cursor, q.size, ids)
    ensures Reaches(Fresh(t), s)
    ensures s == State([t], [0], map[FeedCacheKey(q.scene, 0, q.cursor) := Response(t, ids, q.size)],
                       map[0 := Returned(q, 0, Response(t, ids, q.size))])
  {
    var resp := Response(t, ids, q.size);
    var s0 := Fresh(t);
    var s1 := s0.(readers := map[0 := Called(q, 0)]);
    var s2 := s0.(readers := map[0 := Versioned(q, 0, 0)]);
    var s3 := s0.(readers := map[0 := Fetching(q, 0, Some(0))]);
    var s4 := s0.(readers := map[0 := Storing(q, 0, 0, resp)]);
    assert ValidSteps(s0, []) && Exec(s0, []) == s0;
    assert Do(s0, Call(0, q)) == s1;
    Then(s0, s0, Call(0, q));
    assert Do(s1, ReadVersion(0)) == s2;
    Then(s0, s1, ReadVersion(0));
    assert Do(s2, Miss(0)) == s3;
    Then(s0, s2, Miss(0));
    AskedBy(s3, q, t, ids);
    Then(s0, s3, Query(0, ids));
    StoredBy(s4, q, resp);
    s := Do(s4, Store(0, true));
    Then(s0, s4, Store(0, true));
  }

  lemma AskedBy(s: State, q: Request, t: Table, ids: seq<int>)
    requires s.tables == [t] && s.readers == map[0 := Fetching(q, 0, Some(0))]
    requires IsPage(t, Scene(q.scene), q.cursor, q.size, ids)
    ensures Enabled(s, Query(0, ids))
    ensures Do(s, Query(0, ids)) == s.(readers := map[0 := Storing(q, 0, 0, Response(t, ids, q.size))])
  {
  }

  lemma StoredBy(s: State, q: Request, resp: FeedResp)
    requires s.bumpAt == [0] && s.pages == map[] && s.readers == map[0 := Storing(q, 0, 0, resp)]
    ensures Do(s, Store(0, true)) == State(s.tables, [0], map[FeedCacheKey(q.scene, 0, q.cursor) := resp], map[0 := Returned(q, 0, resp)])
  {
  }

  /** Any later caller with the same scene and cursor is served that page. */
  lemma SecondCallerHits(start: State, s: State, q: Request) returns (s': State)
    requires Reaches(start, s) && 1 !in s.readers && s.bumpAt == [0] && (q.cursor.Some? ==> q.cursor.value > 0)
    requires FeedCacheKey(q.scene, 0, q.cursor) in s.pages
    ensures Reaches(start, s') && s'.tables == s.tables
    ensures 1 in s'.readers && s'.readers[1] == Returned(q, 0, s.pages[FeedCacheKey(q.scene, 0, q.cursor)])
  {
    var s1, s2 := Do(s, Call(1, q)), s.(readers := s.readers[1 := Versioned(q, 0, 0)]);
    Then(start, s, Call(1, q));
    assert Do(s1, ReadVersion(1)) == s2;
    Then(start, s1, ReadVersion(1));
    s' := Do(s2, Hit(1));
    Then(start, s2, Hit(1));
  }

  /**
   For any two sizes and any table with enough posts for the smaller, whatever page the
   database gave the first caller, the second one is served what no table answers at its size.
   */
  lemma WrongSizeServed(t: Table, scene: int, cursor: Option<int>, m: nat, n: nat, ids: seq<int>) returns (s: State)
    requires m > 0 && n > 0 && m != n && (cursor.Some? ==> cursor.value > 0)
    requires |Eligible(t, Scene(scene), cursor)| >= if m < n then m else n
    requires IsPage(t, Scene(scene), cursor, m, ids)
    ensures Initial(Fresh(t)) && Reaches(Fresh(t), s) && s.tables == [t]
    ensures 1 in s.readers && s.readers[1] == Returned(Request(scene, cursor, n), 0, Response(t, ids, m))
    ensures !Answers(t, scene, cursor, n, Response(t, ids, m))
  {
    s := FirstCallerStores(t, Request(scene, cursor, m), ids);
    s := SecondCallerHits(Fresh(t), s, Request(scene, cursor, n));
    PageSizeConfusion(t, scene, cursor, m, n, Response(t, ids, m));
  }
}
