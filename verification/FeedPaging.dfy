/**
 The feed and author-page queries: visible posts, newest first, below a created_at cursor;
 and a client following `next_cursor`. The order among equal timestamps is the database's.
 */
module FeedPaging {
  import opened Prelude
  import opened Cursors

  datatype Post = Post(author: int, scene: int, visible: bool, deleted: bool, createdAt: int)

  type Table = map<int, Post>

  /** Scene 0 is the home feed; Author lists one author's visible posts. */
  datatype Filter = Scene(scene: int) | Author(author: int)

  predicate Matches(p: Post, f: Filter) {
    p.visible && !p.deleted &&
    match f
    case Scene(scene) => scene != 0 ==> p.scene == scene
    case Author(author) => p.author == author
  }

  /** The posts the WHERE clause lets through. */
  function Eligible(t: Table, f: Filter, cursor: Option<int>): set<int> {
    set id | id in t && Matches(t[id], f) && (cursor.Some? ==> t[id].createdAt < cursor.value)
  }

  predicate NewestFirst(t: Table, ids: seq<int>) {
    && (forall i :: 0 <= i < |ids| ==> ids[i] in t)
    && (forall i, j :: 0 <= i < j < |ids| ==> t[ids[i]].createdAt >= t[ids[j]].createdAt)
  }

  predicate NoRepeats(ids: seq<int>) {
    forall i, j :: 0 <= i < j < |ids| ==> ids[i] != ids[j]
  }

  /** A possible answer of the query: ORDER BY created_at DESC LIMIT size, ties in any order. */
  ghost predicate IsPage(t: Table, f: Filter, cursor: Option<int>, size: nat, ids: seq<int>) {
    var e := Eligible(t, f, cursor);
    && |ids| == (if size < |e| then size else |e|)
    && NoRepeats(ids) && NewestFirst(t, ids)
    && (forall i :: 0 <= i < |ids| ==> ids[i] in e)
    && (forall x, i :: x in e && x !in ids && 0 <= i < |ids| ==> t[x].createdAt <= t[ids[i]].createdAt)
  }

  predicate InScene(p: Post, scene: int, cursor: Option<int>) {
    p.visible && !p.deleted && (scene == 0 || p.scene == scene) && (cursor.Some? ==> p.createdAt < cursor.value)
  }

  predicate ByAuthor(p: Post, author: int, cursor: Option<int>) {
    p.visible && !p.deleted && p.author == author && (cursor.Some? ==> p.createdAt < cursor.value)
  }

  /** A feed page lists posts of the scene below the cursor, and omits such a post only when full of posts as new. */
  lemma ScenePage(t: Table, scene: int, cursor: Option<int>, size: nat, ids: seq<int>)
    requires IsPage(t, Scene(scene), cursor, size, ids)
    ensures forall i :: 0 <= i < |ids| ==> ids[i] in t && InScene(t[ids[i]], scene, cursor)
    ensures forall x :: x in t && InScene(t[x], scene, cursor) && x !in ids ==>
      |ids| == size && forall i :: 0 <= i < |ids| ==> t[x].createdAt <= t[ids[i]].createdAt
  {
    PageLeavesOut(t, Scene(scene), cursor, size, ids);
    forall x
      ensures x in Eligible(t, Scene(scene), cursor) <==> x in t && InScene(t[x], scene, cursor)
    {
    }
    forall i | 0 <= i < |ids|
      ensures ids[i] in t && InScene(t[ids[i]], scene, cursor)
    {
      assert ids[i] in Eligible(t, Scene(scene), cursor);
    }
  }

  /** The same for the page of an author. */
  lemma AuthorPage(t: Table, author: int, cursor: Option<int>, size: nat, ids: seq<int>)
    requires IsPage(t, Author(author), cursor, size, ids)
    ensures forall i :: 0 <= i < |ids| ==> ids[i] in t && ByAuthor(t[ids[i]], author, cursor)
    ensures forall x :: x in t && ByAuthor(t[x], author, cursor) && x !in ids ==>
      |ids| == size && forall i :: 0 <= i < |ids| ==> t[x].createdAt <= t[ids[i]].createdAt
  {
    PageLeavesOut(t, Author(author), cursor, size, ids);
    forall x
      ensures x in Eligible(t, Author(author), cursor) <==> x in t && ByAuthor(t[x], author, cursor)
    {
    }
    forall i | 0 <= i < |ids|
      ensures ids[i] in t && ByAuthor(t[ids[i]], author, cursor)
    {
      assert ids[i] in Eligible(t, Author(author), cursor);
    }
  }

  lemma PageLeavesOut(t: Table, f: Filter, cursor: Option<int>, size: nat, ids: seq<int>)
    requires IsPage(t, f, cursor, size, ids)
    ensures forall x :: x in Eligible(t, f, cursor) && x !in ids ==> |ids| == size
  {
    forall x | x in Eligible(t, f, cursor) && x !in ids
      ensures |ids| == size
    {
      if |ids| < size {
        ShortPageIsAll(t, f, cursor, size, ids, x);
      }
    }
  }

  /** nextCursorOf: empty after a short page, else the last row's timestamp. */
  function NextCursor(t: Table, ids: seq<int>, size: nat): string
    requires NewestFirst(t, ids)
  {
    if |ids| < size || ids == [] then "" else FormatInt(t[ids[|ids| - 1]].createdAt)
  }

  predicate ValidTimes(t: Table) {
    forall id :: id in t ==> 0 < t[id].createdAt <= MaxInt64
  }

  // ---- Following the cursor ----------------------------------------------------------------

  /**
   A client's pages so far: each is an answer for its cursor, and every page but the last
   was full and handed on a cursor.
   */
  ghost predicate IsWalk(t: Table, f: Filter, cursor: string, size: nat, pages: seq<seq<int>>)
    decreases pages
  {
    && pages != [] && ParseFeedCursor(cursor).Some?
    && IsPage(t, f, ParseFeedCursor(cursor).value, size, pages[0])
    && (|pages| > 1 ==>
          NextCursor(t, pages[0], size) != "" && IsWalk(t, f, NextCursor(t, pages[0], size), size, pages[1..]))
  }

  /** The last page has no next cursor. */
  ghost predicate Finished(t: Table, size: nat, pages: seq<seq<int>>) {
    pages != [] && NewestFirst(t, pages[|pages| - 1]) && NextCursor(t, pages[|pages| - 1], size) == ""
  }

  function Concat(pages: seq<seq<int>>): seq<int> {
    if pages == [] then [] else pages[0] + Concat(pages[1..])
  }

  // ---- Pages and walks exist ------------------------------------------------------------------

  lemma {:induction false} NewestOf(t: Table, e: set<int>) returns (m: int)
    requires e != {} && forall x :: x in e ==> x in t
    ensures m in e && forall x :: x in e ==> t[x].createdAt <= t[m].createdAt
    decreases |e|
  {
    m := Any(e);
    if e != {m} {
      var y := NewestOf(t, e - {m});
      assert forall z :: z in e ==> z == m || z in e - {m};
      if t[m].createdAt < t[y].createdAt {
        m := y;
      }
    }
  }

  /** `ids` are the newest of the posts `e`, as many as fit. */
  ghost predicate Newest(t: Table, e: set<int>, size: nat, ids: seq<int>) {
    && (forall x :: x in e ==> x in t)
    && |ids| == (if size < |e| then size else |e|)
    && NoRepeats(ids) && NewestFirst(t, ids)
    && (forall i :: 0 <= i < |ids| ==> ids[i] in e)
    && (forall x, i :: x in e && x !in ids && 0 <= i < |ids| ==> t[x].createdAt <= t[ids[i]].createdAt)
  }

  lemma {:induction false} NewestExist(t: Table, e: set<int>, size: nat) returns (ids: seq<int>)
    requires forall x :: x in e ==> x in t
    ensures Newest(t, e, size, ids)
    decreases size
  {
    ids := [];
    if size > 0 && e != {} {
      var m := NewestOf(t, e);
      var rest := NewestExist(t, e - {m}, size - 1);
      NewestBefore(t, e, size, m, rest);
      ids := [m] + rest;
    }
  }

  lemma NewestBefore(t: Table, e: set<int>, size: nat, m: int, rest: seq<int>)
    requires m in e && m in t && size > 0 && (forall x :: x in e ==> x in t && t[x].createdAt <= t[m].createdAt)
    requires Newest(t, e - {m}, size - 1, rest)
    ensures Newest(t, e, size, [m] + rest)
  {
    var ids := [m] + rest;
    assert |e - {m}| == |e| - 1;
    forall i | 0 <= i < |rest|
      ensures ids[i + 1] == rest[i] && rest[i] in e && rest[i] != m
    {
      assert rest[i] in e - {m};
    }
    HeadFirst(t, m, rest);
    forall x, i | x in e && x !in ids && 0 <= i < |ids|
      ensures t[x].createdAt <= t[ids[i]].createdAt
    {
      assert x in e - {m} && x !in rest;
    }
  }

  lemma HeadFirst(t: Table, m: int, rest: seq<int>)
    requires m in t && NoRepeats(rest) && NewestFirst(t, rest)
    requires forall i :: 0 <= i < |rest| ==> rest[i] != m && t[rest[i]].createdAt <= t[m].createdAt
    ensures NoRepeats([m] + rest) && NewestFirst(t, [m] + rest)
  {
  }

  /** The query always has an answer. */
  lemma PageExists(t: Table, f: Filter, cursor: Option<int>, size: nat) returns (ids: seq<int>)
    ensures IsPage(t, f, cursor, size, ids)
  {
    ids := NewestExist(t, Eligible(t, f, cursor), size);
  }

  /** And a client that follows the cursors gets to the end. */
  lemma {:induction false} WalkExists(t: Table, f: Filter, cursor: string, size: nat) returns (pages: seq<seq<int>>)
    requires size > 0 && ValidTimes(t) && ParseFeedCursor(cursor).Some?
    ensures IsWalk(t, f, cursor, size, pages) && Finished(t, size, pages)
    decreases |Eligible(t, f, ParseFeedCursor(cursor).value)|
  {
    var e := Eligible(t, f, ParseFeedCursor(cursor).value);
    var page := PageExists(t, f, ParseFeedCursor(cursor).value, size);
    pages := [page];
    if |page| == size {
      var c := CursorTime(t, page);
      var id := page[size - 1];
      assert id in e && id in t && 0 < t[id].createdAt <= MaxInt64;
      CursorRoundTrip(c);
      SubsetSize(Eligible(t, f, Some(c)), e - {id});
      var rest := WalkExists(t, f, NextCursor(t, page, size), size);
      pages := [page] + rest;
      assert pages[1..] == rest && pages[|pages| - 1] == rest[|rest| - 1];
    }
  }

  /** The timestamp a full page hands on. */
  function CursorTime(t: Table, page: seq<int>): int
    requires page != [] && NewestFirst(t, page)
  {
    t[page[|page| - 1]].createdAt
  }

  /** From a page with a next cursor on, everything is strictly older than its last row. */
  lemma NextPage(t: Table, f: Filter, cursor: string, size: nat, pages: seq<seq<int>>) returns (c: int)
    requires size > 0 && ValidTimes(t) && IsWalk(t, f, cursor, size, pages) && |pages| > 1
    ensures |pages[0]| == size && c == CursorTime(t, pages[0])
    ensures ParseFeedCursor(NextCursor(t, pages[0], size)) == Some(Some(c))
    ensures forall i :: 0 <= i < |pages[0]| ==> pages[0][i] in t && t[pages[0][i]].createdAt >= c
    ensures forall x :: x in Eligible(t, f, Some(c)) <==>
      x in Eligible(t, f, ParseFeedCursor(cursor).value) && t[x].createdAt < c
  {
    c := CursorTime(t, pages[0]);
    var id := pages[0][|pages[0]| - 1];
    assert id in t && 0 < t[id].createdAt <= MaxInt64;
    CursorRoundTrip(c);
  }

  /** No post twice, newest first, and only posts the first query could return. */
  lemma {:induction false} WalkOrder(t: Table, f: Filter, cursor: string, size: nat, pages: seq<seq<int>>)
    requires size > 0 && ValidTimes(t) && IsWalk(t, f, cursor, size, pages)
    ensures NoRepeats(Concat(pages)) && NewestFirst(t, Concat(pages))
    ensures forall i :: 0 <= i < |Concat(pages)| ==> Concat(pages)[i] in Eligible(t, f, ParseFeedCursor(cursor).value)
    decreases pages
  {
    if |pages| == 1 {
      assert pages[1..] == [];
      assert Concat(pages) == pages[0];
    } else {
      var c := NextPage(t, f, cursor, size, pages);
      WalkOrder(t, f, NextCursor(t, pages[0], size), size, pages[1..]);
      JoinOlder(t, pages[0], Concat(pages[1..]), c);
    }
  }

  lemma JoinOlder(t: Table, a: seq<int>, b: seq<int>, c: int)
    requires NoRepeats(a) && NewestFirst(t, a) && NoRepeats(b) && NewestFirst(t, b)
    requires forall i :: 0 <= i < |a| ==> t[a[i]].createdAt >= c
    requires forall i :: 0 <= i < |b| ==> t[b[i]].createdAt < c
    ensures NoRepeats(a + b) && NewestFirst(t, a + b)
  {
  }

  /** A page's last timestamp, when the page handed on a cursor. */
  ghost predicate Boundary(t: Table, size: nat, page: seq<int>, time: int) {
    |page| == size && page != [] && NewestFirst(t, page) && CursorTime(t, page) == time
  }

  /**
   A finished traversal omits an eligible post exactly when some page ended on the post's
   own timestamp without containing it.
   */
  lemma {:induction false} WalkOmits(t: Table, f: Filter, cursor: string, size: nat, pages: seq<seq<int>>, x: int)
    requires size > 0 && ValidTimes(t) && IsWalk(t, f, cursor, size, pages) && Finished(t, size, pages)
    requires x in Eligible(t, f, ParseFeedCursor(cursor).value)
    ensures x !in Concat(pages) <==>
      exists i :: 0 <= i < |pages| && Boundary(t, size, pages[i], t[x].createdAt) && x !in pages[i]
    decreases pages
  {
    if |pages| == 1 {
      assert pages[1..] == [];
      assert Concat(pages) == pages[0];
      ShortPageIsAll(t, f, ParseFeedCursor(cursor).value, size, pages[0], x);
    } else {
      var c := NextPage(t, f, cursor, size, pages);
      var next, rest := NextCursor(t, pages[0], size), pages[1..];
      var time := t[x].createdAt;
      assert rest[|rest| - 1] == pages[|pages| - 1];
      WalkOrder(t, f, next, size, rest);
      if time < c {
        WalkOmits(t, f, next, size, rest, x);
        assert x !in pages[0];
        assert !Boundary(t, size, pages[0], time);
        if i :| 0 <= i < |rest| && Boundary(t, size, rest[i], time) && x !in rest[i] {
          assert rest[i] == pages[i + 1];
        }
        if i :| 0 <= i < |pages| && Boundary(t, size, pages[i], time) && x !in pages[i] {
          assert pages[i] == rest[i - 1];
        }
      } else {
        NoLaterBoundary(t, f, next, size, rest, time, c);
        assert forall i :: 0 < i < |pages| ==> pages[i] == rest[i - 1];
        assert x !in Concat(rest);
        if x !in pages[0] {
          assert time <= c;
          assert Boundary(t, size, pages[0], time);
        }
      }
    }
  }

  lemma ShortPageIsAll(t: Table, f: Filter, cursor: Option<int>, size: nat, page: seq<int>, x: int)
    requires IsPage(t, f, cursor, size, page) && |page| < size && x in Eligible(t, f, cursor)
    ensures x in page
  {
    AllListed(page, Eligible(t, f, cursor), x);
  }

  lemma {:induction false} AllListed(ids: seq<int>, s: set<int>, x: int)
    requires NoRepeats(ids) && (forall i :: 0 <= i < |ids| ==> ids[i] in s) && |ids| == |s| && x in s
    ensures x in ids
  {
    if ids != [] && ids[0] != x {
      AllListed(ids[1..], s - {ids[0]}, x);
    }
  }

  /** Later pages end strictly before the cursor. */
  lemma {:induction false} NoLaterBoundary(t: Table, f: Filter, cursor: string, size: nat, pages: seq<seq<int>>, time: int, c: int)
    requires size > 0 && ValidTimes(t) && IsWalk(t, f, cursor, size, pages)
    requires ParseFeedCursor(cursor).value == Some(c) && time >= c
    ensures forall i :: 0 <= i < |pages| ==> !Boundary(t, size, pages[i], time)
    decreases pages
  {
    if |pages| > 1 {
      var c' := NextPage(t, f, cursor, size, pages);
      assert pages[0][|pages[0]| - 1] in Eligible(t, f, Some(c));
      NoLaterBoundary(t, f, NextCursor(t, pages[0], size), size, pages[1..], time, c');
      assert forall i :: 0 < i < |pages| ==> pages[i] == pages[1..][i - 1];
    }
  }

  /** Every full page uses up `size` eligible posts. */
  lemma {:induction false} WalkLength(t: Table, f: Filter, cursor: string, size: nat, pages: seq<seq<int>>)
    requires size > 0 && ValidTimes(t) && IsWalk(t, f, cursor, size, pages)
    ensures (|pages| - 1) * size <= |Eligible(t, f, ParseFeedCursor(cursor).value)|
    decreases pages
  {
    if |pages| > 1 {
      var c := NextPage(t, f, cursor, size, pages);
      var e, e' := Eligible(t, f, ParseFeedCursor(cursor).value), Eligible(t, f, Some(c));
      WalkLength(t, f, NextCursor(t, pages[0], size), size, pages[1..]);
      UsesUp(pages[0], e, e');
      OneMorePage(|pages[1..]|, size, |e|, |e'|);
    }
  }

  lemma OneMorePage(k: nat, size: nat, n: nat, n': nat)
    requires (k - 1) * size <= n' && n' + size <= n
    ensures k * size <= n
  {
    assert k * size == (k - 1) * size + size;
  }

  lemma {:induction false} UsesUp(ids: seq<int>, e: set<int>, e': set<int>)
    requires NoRepeats(ids) && e' <= e && (forall i :: 0 <= i < |ids| ==> ids[i] in e && ids[i] !in e')
    ensures |ids| + |e'| <= |e|
  {
    if ids == [] {
      SubsetSize(e', e);
    } else {
      UsesUp(ids[1..], e - {ids[0]}, e');
    }
  }

  /**
   The traversal from the first page over a fixed table: it ends within
   floor(n / size) + 1 pages, never repeats a post, runs from newest to oldest, lists the
   whole feed exactly when no page boundary splits a group of equal timestamps, and misses
   a given post exactly when a page ends on that post's timestamp without containing it.
   */
  lemma Traversal(t: Table, f: Filter, size: nat, pages: seq<seq<int>>)
    requires size > 0 && ValidTimes(t) && IsWalk(t, f, "", size, pages)
    ensures (|pages| - 1) * size <= |Eligible(t, f, None)|
    ensures NoRepeats(Concat(pages)) && NewestFirst(t, Concat(pages))
    ensures forall i :: 0 <= i < |Concat(pages)| ==> Concat(pages)[i] in Eligible(t, f, None)
    ensures Finished(t, size, pages) ==>
      (Covers(t, f, None, pages) <==> !exists m: nat, time :: m >= 1 && SplitTie(t, f, size, m, time))
    ensures Finished(t, size, pages) ==> forall x :: x in Eligible(t, f, None) ==>
      (x !in Concat(pages) <==>
        exists i :: 0 <= i < |pages| && Boundary(t, size, pages[i], t[x].createdAt) && x !in pages[i])
  {
    WalkLength(t, f, "", size, pages);
    WalkOrder(t, f, "", size, pages);
    if Finished(t, size, pages) {
      CompleteIffNoSplitTie(t, f, size, pages);
      forall x | x in Eligible(t, f, None)
        ensures x !in Concat(pages) <==>
          exists i :: 0 <= i < |pages| && Boundary(t, size, pages[i], t[x].createdAt) && x !in pages[i]
      {
        WalkOmits(t, f, "", size, pages, x);
      }
    }
  }

  ghost predicate DistinctTimes(t: Table, f: Filter) {
    forall x, y :: x in Eligible(t, f, None) && y in Eligible(t, f, None) && x != y ==> t[x].createdAt != t[y].createdAt
  }

  /** With distinct timestamps a finished traversal is the whole feed, strictly in order. */
  lemma DistinctTimesCoverAll(t: Table, f: Filter, size: nat, pages: seq<seq<int>>)
    requires size > 0 && ValidTimes(t) && IsWalk(t, f, "", size, pages) && Finished(t, size, pages)
    requires DistinctTimes(t, f)
    ensures forall x :: x in Concat(pages) <==> x in Eligible(t, f, None)
    ensures forall i, j :: 0 <= i < j < |Concat(pages)| ==>
      Concat(pages)[i] in t && Concat(pages)[j] in t && t[Concat(pages)[i]].createdAt > t[Concat(pages)[j]].createdAt
  {
    WalkOrder(t, f, "", size, pages);
    CompleteIffNoSplitTie(t, f, size, pages);
    forall m: nat, time | m >= 1
      ensures !SplitTie(t, f, size, m, time)
    {
      DistinctTimesDoNotSplit(t, f, time);
    }
  }

  /** A group of one post has no inside. */
  lemma DistinctTimesDoNotSplit(t: Table, f: Filter, time: int)
    requires DistinctTimes(t, f)
    ensures |NotOlder(t, f, time)| <= |Newer(t, f, time)| + 1
  {
    var g, n := NotOlder(t, f, time), Newer(t, f, time);
    SubsetSize(n, g);
    if g - n != {} {
      var x := Any(g - n);
      assert forall y :: y in g - n ==> y == x;
      assert g - n == {x};
    }
  }

  // ---- When the feed is complete ------------------------------------------------------------

  function Newer(t: Table, f: Filter, time: int): set<int> {
    set x | x in Eligible(t, f, None) && t[x].createdAt > time
  }

  function NotOlder(t: Table, f: Filter, time: int): set<int> {
    set x | x in Eligible(t, f, None) && t[x].createdAt >= time
  }

  /** The m-th page boundary falls inside the group of posts with one timestamp. */
  predicate SplitTie(t: Table, f: Filter, size: nat, m: nat, time: int) {
    |Newer(t, f, time)| < m * size < |NotOlder(t, f, time)|
  }

  ghost predicate Covers(t: Table, f: Filter, cursor: Option<int>, pages: seq<seq<int>>) {
    forall x :: x in Eligible(t, f, cursor) ==> x in Concat(pages)
  }

  ghost predicate NoSplitBeyond(t: Table, f: Filter, size: nat, k: nat) {
    forall m: nat, time :: m > k ==> !SplitTie(t, f, size, m, time)
  }

  ghost predicate SplitsNone(t: Table, f: Filter, size: nat, m: nat) {
    forall j: nat, time :: j == m ==> !SplitTie(t, f, size, j, time)
  }

  function Ids(ids: seq<int>): set<int> {
    set x | x in ids
  }

  lemma {:induction false} IdsSize(ids: seq<int>)
    ensures |Ids(ids)| <= |ids|
  {
    if ids == [] {
      assert Ids(ids) == {};
    } else {
      IdsSize(ids[1..]);
      assert Ids(ids) == {ids[0]} + Ids(ids[1..]);
    }
  }

  /** How far a walk is: `before` is what lies above its cursor. */
  ghost predicate Passed(t: Table, f: Filter, cursor: Option<int>, k: nat, size: nat) {
    |Eligible(t, f, None) - Eligible(t, f, cursor)| == k * size
  }

  lemma Successor(k: nat, size: nat)
    ensures (k + 1) * size == k * size + size
  {
  }

  lemma AtLeast(m: nat, k: nat, size: nat)
    requires m > k
    ensures m * size >= (k + 1) * size
  {
  }

  /** A page that ends inside a group of equal timestamps splits it. */
  lemma EndsInTie(t: Table, f: Filter, cursor: Option<int>, size: nat, page: seq<int>, k: nat, y: int)
    requires size > 0 && IsPage(t, f, cursor, size, page) && |page| == size && Passed(t, f, cursor, k, size)
    requires y in Eligible(t, f, cursor) && y !in page && t[y].createdAt == CursorTime(t, page)
    ensures SplitTie(t, f, size, k + 1, CursorTime(t, page))
  {
    Successor(k, size);
    NewerThanEnd(t, f, cursor, size, page);
    NotOlderThanEnd(t, f, cursor, size, page, y);
  }

  /** Newer than a page's last row are only rows above the page and rows before the last. */
  lemma NewerThanEnd(t: Table, f: Filter, cursor: Option<int>, size: nat, page: seq<int>)
    requires size > 0 && IsPage(t, f, cursor, size, page) && |page| == size
    ensures |Newer(t, f, CursorTime(t, page))| < |Eligible(t, f, None) - Eligible(t, f, cursor)| + size
  {
    var time, above, full := CursorTime(t, page), Eligible(t, f, None) - Eligible(t, f, cursor), page[..size - 1];
    assert page == full + [page[size - 1]];
    assert forall x :: x in Newer(t, f, time) && x in Eligible(t, f, cursor) ==> x in page;
    assert forall x :: x in Newer(t, f, time) ==> x in above + Ids(full);
    SubsetSize(Newer(t, f, time), above + Ids(full));
    IdsSize(full);
  }

  /** At least as new are the rows above the page, the page, and every row that ties with its last. */
  lemma NotOlderThanEnd(t: Table, f: Filter, cursor: Option<int>, size: nat, page: seq<int>, y: int)
    requires size > 0 && IsPage(t, f, cursor, size, page) && |page| == size
    requires y in Eligible(t, f, cursor) && y !in page && t[y].createdAt == CursorTime(t, page)
    ensures |NotOlder(t, f, CursorTime(t, page))| > |Eligible(t, f, None) - Eligible(t, f, cursor)| + size
  {
    assert page[size - 1] in Eligible(t, f, cursor);
    UsesUp(page + [y], NotOlder(t, f, CursorTime(t, page)), Eligible(t, f, None) - Eligible(t, f, cursor));
  }

  /** A full page that ends between two groups leaves exactly the strictly older posts. */
  lemma EndsBetween(t: Table, f: Filter, cursor: Option<int>, size: nat, page: seq<int>, k: nat)
    requires size > 0 && IsPage(t, f, cursor, size, page) && |page| == size && Passed(t, f, cursor, k, size)
    requires forall y :: y in Eligible(t, f, cursor) && t[y].createdAt == CursorTime(t, page) ==> y in page
    ensures Passed(t, f, Some(CursorTime(t, page)), k + 1, size)
    ensures |NotOlder(t, f, CursorTime(t, page))| == (k + 1) * size
  {
    var end := CursorTime(t, page);
    var above, listed := Eligible(t, f, None) - Eligible(t, f, cursor), Eligible(t, f, None) - Eligible(t, f, Some(end));
    BetweenIsUnion(t, f, cursor, size, page);
    UsesUp(page, listed, above);
    IdsSize(page);
    Successor(k, size);
    assert listed == NotOlder(t, f, end);
  }

  lemma BetweenIsUnion(t: Table, f: Filter, cursor: Option<int>, size: nat, page: seq<int>)
    requires size > 0 && IsPage(t, f, cursor, size, page) && |page| == size
    requires forall y :: y in Eligible(t, f, cursor) && t[y].createdAt == CursorTime(t, page) ==> y in page
    ensures var all := Eligible(t, f, None);
      all - Eligible(t, f, Some(CursorTime(t, page))) == (all - Eligible(t, f, cursor)) + Ids(page)
  {
    var end := CursorTime(t, page);
    assert page[size - 1] in Eligible(t, f, cursor);
    assert forall i :: 0 <= i < |page| ==> t[page[i]].createdAt >= end;
    forall x
      ensures x in Eligible(t, f, None) - Eligible(t, f, Some(end))
        <==> x in (Eligible(t, f, None) - Eligible(t, f, cursor)) + Ids(page)
    {
      if x in Eligible(t, f, cursor) && x !in page {
        assert t[x].createdAt <= end;
      }
    }
  }

  /** A boundary between groups lies inside none. */
  lemma BetweenSplitsNone(t: Table, f: Filter, size: nat, m: nat, end: int)
    requires |NotOlder(t, f, end)| == m * size
    ensures SplitsNone(t, f, size, m)
  {
    forall j: nat, time | j == m
      ensures !SplitTie(t, f, size, j, time)
    {
      if time < end {
        SubsetSize(NotOlder(t, f, end), Newer(t, f, time));
      } else {
        SubsetSize(NotOlder(t, f, time), NotOlder(t, f, end));
      }
    }
  }

  /** Behind a short page there is nothing left to split. */
  lemma EndsShort(t: Table, f: Filter, cursor: Option<int>, size: nat, page: seq<int>, k: nat)
    requires IsPage(t, f, cursor, size, page) && |page| < size && Passed(t, f, cursor, k, size)
    ensures NoSplitBeyond(t, f, size, k)
  {
    var all, left := Eligible(t, f, None), Eligible(t, f, cursor);
    SubsetSize(left, all);
    forall m: nat, time | m > k
      ensures !SplitTie(t, f, size, m, time)
    {
      SubsetSize(NotOlder(t, f, time), all);
      AtLeast(m, k, size);
      Successor(k, size);
    }
  }

  lemma {:induction false} CoversIff(t: Table, f: Filter, cursor: string, size: nat, pages: seq<seq<int>>, k: nat)
    requires size > 0 && ValidTimes(t) && IsWalk(t, f, cursor, size, pages) && Finished(t, size, pages)
    requires Passed(t, f, ParseFeedCursor(cursor).value, k, size)
    ensures Covers(t, f, ParseFeedCursor(cursor).value, pages) <==> NoSplitBeyond(t, f, size, k)
    decreases pages
  {
    var from := ParseFeedCursor(cursor).value;
    if |pages| == 1 {
      EndsShort(t, f, from, size, pages[0], k);
      LastPageCovers(t, f, from, size, pages);
    } else {
      var c := NextPage(t, f, cursor, size, pages);
      var next, rest := NextCursor(t, pages[0], size), pages[1..];
      assert rest[|rest| - 1] == pages[|pages| - 1];
      WalkOrder(t, f, next, size, rest);
      if y :| y in Eligible(t, f, from) && y !in pages[0] && t[y].createdAt == c {
        EndsInTie(t, f, from, size, pages[0], k, y);
        assert y !in Concat(rest);
      } else {
        EndsBetween(t, f, from, size, pages[0], k);
        BetweenSplitsNone(t, f, size, k + 1, c);
        CoversIff(t, f, next, size, rest, k + 1);
        CoversBySteps(t, f, from, c, pages);
        NoSplitBySteps(t, f, size, k);
      }
    }
  }

  lemma LastPageCovers(t: Table, f: Filter, from: Option<int>, size: nat, pages: seq<seq<int>>)
    requires |pages| == 1 && IsPage(t, f, from, size, pages[0]) && |pages[0]| < size
    ensures Covers(t, f, from, pages)
  {
    assert pages[1..] == [] && Concat(pages) == pages[0];
    forall x | x in Eligible(t, f, from)
      ensures x in Concat(pages)
    {
      ShortPageIsAll(t, f, from, size, pages[0], x);
    }
  }

  lemma CoversBySteps(t: Table, f: Filter, from: Option<int>, c: int, pages: seq<seq<int>>)
    requires pages != []
    requires forall x :: x in Eligible(t, f, from) && t[x].createdAt >= c ==> x in pages[0]
    requires forall i :: 0 <= i < |pages[0]| ==> pages[0][i] in t && t[pages[0][i]].createdAt >= c
    requires forall x :: x in Eligible(t, f, Some(c)) <==> x in Eligible(t, f, from) && t[x].createdAt < c
    ensures Covers(t, f, from, pages) <==> Covers(t, f, Some(c), pages[1..])
  {
    assert forall x :: x in Concat(pages) <==> x in pages[0] || x in Concat(pages[1..]);
    assert forall x :: x in Eligible(t, f, Some(c)) ==> x !in pages[0];
  }

  lemma NoSplitBySteps(t: Table, f: Filter, size: nat, k: nat)
    requires SplitsNone(t, f, size, k + 1)
    ensures NoSplitBeyond(t, f, size, k) <==> NoSplitBeyond(t, f, size, k + 1)
  {
    assert forall m: nat, time :: m > k && SplitTie(t, f, size, m, time) ==> m > k + 1;
  }

  /**
   What the table must look like: a finished traversal lists the whole feed if and only if
   no page boundary falls inside a group of equal timestamps. Where one does, every
   traversal omits a post, whatever order the database gives the group.
   */
  lemma CompleteIffNoSplitTie(t: Table, f: Filter, size: nat, pages: seq<seq<int>>)
    requires size > 0 && ValidTimes(t) && IsWalk(t, f, "", size, pages) && Finished(t, size, pages)
    ensures Covers(t, f, None, pages) <==>
      !exists m: nat, time :: m >= 1 && SplitTie(t, f, size, m, time)
  {
    assert Eligible(t, f, None) - Eligible(t, f, None) == {};
    CoversIff(t, f, "", size, pages, 0);
  }

  /** When the whole feed shares one timestamp only the first page is ever seen: all the rest is skipped. */
  lemma SameTimeSkips(t: Table, f: Filter, size: nat, pages: seq<seq<int>>, time: int)
    requires size > 0 && ValidTimes(t) && IsWalk(t, f, "", size, pages) && Finished(t, size, pages)
    requires forall x :: x in Eligible(t, f, None) ==> t[x].createdAt == time
    ensures |Concat(pages)| == if size < |Eligible(t, f, None)| then size else |Eligible(t, f, None)|
  {
    if |pages| == 1 {
      assert pages[1..] == [] && Concat(pages) == pages[0];
    } else {
      var c := NextPage(t, f, "", size, pages);
      assert pages[0][0] in Eligible(t, f, None) && pages[0][|pages[0]| - 1] in Eligible(t, f, None);
      var y := pages[0][|pages[0]| - 1];
      assert y in Eligible(t, f, None) && c == t[y].createdAt;
      assert forall x :: x in Eligible(t, f, Some(c)) ==> x in Eligible(t, f, None);
      assert forall x :: x !in Eligible(t, f, Some(c));
      assert |Eligible(t, f, Some(c))| == 0;
      var rest := pages[1..];
      assert rest[0] == [];
      assert rest[1..] == [] && Concat(rest) == [];
      assert Concat(pages) == pages[0];
    }
  }

  /** Three posts of one millisecond, one to a page: every traversal shows one and skips two. */
  lemma TieSkipsTwo(pages: seq<seq<int>>)
    requires var t := map[1 := Post(7, 1, true, false, 5), 2 := Post(7, 1, true, false, 5), 3 := Post(7, 1, true, false, 5)];
      IsWalk(t, Scene(0), "", 1, pages) && Finished(t, 1, pages)
    ensures |Concat(pages)| == 1
  {
    var t := map[1 := Post(7, 1, true, false, 5), 2 := Post(7, 1, true, false, 5), 3 := Post(7, 1, true, false, 5)];
    assert Eligible(t, Scene(0), None) == {1, 2, 3};
    SameTimeSkips(t, Scene(0), 1, pages, 5);
  }
}
