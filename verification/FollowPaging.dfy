/**
 The follower and following lists: a keyset query on `follows.id` joined with `users`, a
 page built from an over-fetch by one, and a client following `next_cursor` while rows
 come and go.
 */
module FollowPaging {
  import opened Prelude
  import opened Cursors
  import opened OrderedIds

  datatype Follow = Follow(follower: int, following: int)

  /** The `follows` rows by id, and for each `users` row whether it is soft-deleted. */
  datatype Db = Db(follows: map<int, Follow>, deleted: map<int, bool>)

  datatype Direction = Followers | Following

  /** A joined row: the user on the far side of the edge, and the row id. */
  datatype FollowUser = FollowUser(userID: int, followID: int)

  datatype FollowListResp = FollowListResp(users: seq<int>, nextCursor: string, hasMore: bool)

  // ---- The query -----------------------------------------------------------------------

  function PivotOf(f: Follow, dir: Direction): int {
    if dir.Followers? then f.following else f.follower
  }

  function JoinedOf(f: Follow, dir: Direction): int {
    if dir.Followers? then f.follower else f.following
  }

  /** The row ids the query can return: the pivot's edges to users that are not deleted. */
  function Eligible(db: Db, dir: Direction, pivot: int): set<int> {
    set id | id in db.follows && PivotOf(db.follows[id], dir) == pivot
      && JoinedOf(db.follows[id], dir) in db.deleted && !db.deleted[JoinedOf(db.follows[id], dir)]
  }

  /** f.id < cursor, unless the cursor is 0. */
  function Below(ids: set<int>, cursor: int): set<int> {
    if cursor > 0 then set id | id in ids && id < cursor else ids
  }

  ghost function ListJoin(db: Db, dir: Direction, pivot: int, cursor: int, limit: nat): seq<FollowUser> {
    var ids := Top(Below(Eligible(db, dir, pivot), cursor), limit);
    seq(|ids|, i requires 0 <= i < |ids| =>
      FollowUser(if ids[i] in db.follows then JoinedOf(db.follows[ids[i]], dir) else 0, ids[i]))
  }

  // ---- The page ------------------------------------------------------------------------

  function Kept(rows: seq<FollowUser>, size: nat): seq<FollowUser> {
    if |rows| > size then rows[..size] else rows
  }

  function UserIDs(rows: seq<FollowUser>): seq<int> {
    seq(|rows|, i requires 0 <= i < |rows| => rows[i].userID)
  }

  function NextCursor(rows: seq<FollowUser>, size: nat): string {
    if |rows| > size > 0 then FormatInt(rows[size - 1].followID) else ""
  }

  function RespOf(rows: seq<FollowUser>, size: nat): FollowListResp {
    FollowListResp(UserIDs(Kept(rows, size)), NextCursor(rows, size), |rows| > size)
  }

  /** Trims the over-fetch and renders the page. */
  method BuildFollowListResp(rows: seq<FollowUser>, size: nat) returns (resp: FollowListResp)
    ensures resp == RespOf(rows, size)
    ensures resp.hasMore <==> |rows| > size
    ensures |resp.users| == (if |rows| > size then size else |rows|) && forall i :: 0 <= i < |resp.users| ==> resp.users[i] == rows[i].userID
    ensures resp.nextCursor == if |rows| > size > 0 then FormatInt(rows[size - 1].followID) else ""
  {
    var hasMore := |rows| > size;
    var kept := rows;
    if hasMore {
      kept := rows[..size];
    }
    var users: seq<int> := [];
    var i := 0;
    while i < |kept|
      invariant 0 <= i <= |kept| && users == UserIDs(kept[..i])
    {
      users := users + [kept[i].userID];
      i := i + 1;
    }
    assert kept[..i] == kept;
    var nextCursor := "";
    if hasMore && |kept| > 0 {
      nextCursor := FormatInt(kept[|kept| - 1].followID);
    }
    resp := FollowListResp(users, nextCursor, hasMore);
  }

  // ---- The traversal -------------------------------------------------------------------

  /** The row ids of the page served from `db`. */
  ghost function PageIDs(db: Db, dir: Direction, pivot: int, cursor: int, size: nat): seq<int> {
    var rows := Kept(ListJoin(db, dir, pivot, cursor, size + 1), size);
    seq(|rows|, i requires 0 <= i < |rows| => rows[i].followID)
  }

  ghost function PageCursor(db: Db, dir: Direction, pivot: int, cursor: int, size: nat): string {
    NextCursor(ListJoin(db, dir, pivot, cursor, size + 1), size)
  }

  /**
   The pages a client receives that starts at `cursor` and follows `next_cursor`, when
   page i is read from dbs[i]; it stops early at an empty cursor.
   */
  ghost function Walk(dbs: seq<Db>, dir: Direction, pivot: int, cursor: string, size: nat): seq<seq<int>>
    decreases dbs
  {
    if dbs == [] then []
    else
      match ParseFollowCursor(cursor)
      case None => []
      case Some(c) =>
        var next := PageCursor(dbs[0], dir, pivot, c, size);
        [PageIDs(dbs[0], dir, pivot, c, size)]
        + if next == "" then [] else Walk(dbs[1..], dir, pivot, next, size)
  }

  /** The client reached a page without a next cursor. */
  ghost predicate Finishes(dbs: seq<Db>, dir: Direction, pivot: int, cursor: string, size: nat)
    decreases dbs
  {
    dbs != [] && ParseFollowCursor(cursor).Some? &&
    var next := PageCursor(dbs[0], dir, pivot, ParseFollowCursor(cursor).value, size);
    next == "" || Finishes(dbs[1..], dir, pivot, next, size)
  }

  ghost predicate ValidIDs(db: Db) {
    forall id :: id in db.follows ==> 0 < id <= MaxInt64
  }

  /**
   How the tables may change between page reads: a row that is eligible later was eligible
   before, or has an id above every id present before (AUTO_INCREMENT).
   */
  ghost predicate Evolves(dbs: seq<Db>, dir: Direction, pivot: int) {
    && (forall i :: 0 <= i < |dbs| ==> ValidIDs(dbs[i]))
    && (forall i, j, id :: 0 <= i < j < |dbs| && id in Eligible(dbs[j], dir, pivot) ==>
          id in Eligible(dbs[i], dir, pivot) || forall x :: x in dbs[i].follows ==> x < id)
  }

  function Concat(pages: seq<seq<int>>): seq<int> {
    if pages == [] then [] else pages[0] + Concat(pages[1..])
  }

  lemma PageFacts(db: Db, dir: Direction, pivot: int, cursor: int, size: nat)
    requires size > 0 && ValidIDs(db)
    ensures var b, ids := Below(Eligible(db, dir, pivot), cursor), PageIDs(db, dir, pivot, cursor, size);
      && |ids| == (if size < |b| then size else |b|)
      && Descends(ids)
      && (forall x :: x in ids ==> x in b)
      && (forall x, y :: x in b && x !in ids && y in ids ==> x < y)
      && PageCursor(db, dir, pivot, cursor, size) == if |b| > size then FormatInt(ids[size - 1]) else ""
  {
    var b := Below(Eligible(db, dir, pivot), cursor);
    TopPrefix(b, size);
    TopFacts(b, size);
    TopFacts(b, size + 1);
    assert PageIDs(db, dir, pivot, cursor, size) == Top(b, size);
  }

  // ---- What a page means -----------------------------------------------------------------

  /** What ListFollowers and ListFollowing answer: an over-fetch by one, trimmed. */
  ghost function ListResp(db: Db, dir: Direction, pivot: int, cursor: int, size: nat): FollowListResp {
    RespOf(ListJoin(db, dir, pivot, cursor, size + 1), size)
  }

  predicate Live(db: Db, u: int) {
    u in db.deleted && !db.deleted[u]
  }

  /** The rows below the cursor in which a live user follows u. */
  function FollowerRows(db: Db, u: int, cursor: int): set<int> {
    set id | id in db.follows && db.follows[id].following == u && Live(db, db.follows[id].follower) && (cursor > 0 ==> id < cursor)
  }

  /** Those in which u follows a live user. */
  function FollowingRows(db: Db, u: int, cursor: int): set<int> {
    set id | id in db.follows && db.follows[id].follower == u && Live(db, db.follows[id].following) && (cursor > 0 ==> id < cursor)
  }

  /** `ids` are the latest of `rows`, as many as fit, and the response says whether more follow and from where. */
  ghost predicate LatestOf(rows: set<int>, size: nat, ids: seq<int>, r: FollowListResp) {
    && |ids| == |r.users| == (if |rows| > size then size else |rows|)
    && Descends(ids) && (forall x :: x in ids ==> x in rows)
    && (forall x, y :: x in rows && x !in ids && y in ids ==> x < y)
    && (r.hasMore <==> |rows| > size)
    && r.nextCursor == if |rows| > size > 0 then FormatInt(ids[size - 1]) else ""
  }

  lemma PageIsLatest(db: Db, dir: Direction, pivot: int, cursor: int, size: nat)
    requires size > 0 && ValidIDs(db)
    ensures LatestOf(Below(Eligible(db, dir, pivot), cursor), size, PageIDs(db, dir, pivot, cursor, size), ListResp(db, dir, pivot, cursor, size))
  {
    PageFacts(db, dir, pivot, cursor, size);
    TopFacts(Below(Eligible(db, dir, pivot), cursor), size + 1);
  }

  lemma ListedUser(db: Db, dir: Direction, pivot: int, cursor: int, size: nat, i: nat)
    requires size > 0 && ValidIDs(db) && i < |PageIDs(db, dir, pivot, cursor, size)|
    ensures var ids, r := PageIDs(db, dir, pivot, cursor, size), ListResp(db, dir, pivot, cursor, size);
      && |r.users| == |ids| && ids[i] in db.follows
      && r.users[i] == (if dir.Followers? then db.follows[ids[i]].follower else db.follows[ids[i]].following)
  {
    PageIsLatest(db, dir, pivot, cursor, size);
    var ids := PageIDs(db, dir, pivot, cursor, size);
    assert ids[i] in ids;
    assert ids[i] in Below(Eligible(db, dir, pivot), cursor);
    assert ids[i] in Eligible(db, dir, pivot);
  }

  /** The follower page of u lists the followers of its latest rows below the cursor, in that order. */
  lemma FollowerPage(db: Db, u: int, cursor: int, size: nat)
    requires size > 0 && ValidIDs(db)
    ensures var ids, r := PageIDs(db, Followers, u, cursor, size), ListResp(db, Followers, u, cursor, size);
      && LatestOf(FollowerRows(db, u, cursor), size, ids, r)
      && forall i :: 0 <= i < |ids| ==> ids[i] in db.follows && db.follows[ids[i]] == Follow(r.users[i], u)
  {
    var ids := PageIDs(db, Followers, u, cursor, size);
    var b, rows := Below(Eligible(db, Followers, u), cursor), FollowerRows(db, u, cursor);
    assert forall x :: x in b <==> x in rows;
    SameMembers(b, rows);
    PageIsLatest(db, Followers, u, cursor, size);
    forall i: nat | 0 <= i < |ids|
      ensures ids[i] in rows && ids[i] in db.follows && db.follows[ids[i]].follower == ListResp(db, Followers, u, cursor, size).users[i]
    {
      ListedUser(db, Followers, u, cursor, size, i);
      assert ids[i] in ids;
    }
  }

  lemma SameMembers<T>(a: set<T>, b: set<T>)
    requires forall x :: x in a <==> x in b
    ensures a == b
  {
  }

  /** The following page of u lists those whom u follows in its latest rows below the cursor. */
  lemma FollowingPage(db: Db, u: int, cursor: int, size: nat)
    requires size > 0 && ValidIDs(db)
    ensures var ids, r := PageIDs(db, Following, u, cursor, size), ListResp(db, Following, u, cursor, size);
      && LatestOf(FollowingRows(db, u, cursor), size, ids, r)
      && forall i :: 0 <= i < |ids| ==> ids[i] in db.follows && db.follows[ids[i]] == Follow(u, r.users[i])
  {
    var ids := PageIDs(db, Following, u, cursor, size);
    var b, rows := Below(Eligible(db, Following, u), cursor), FollowingRows(db, u, cursor);
    assert forall x :: x in b <==> x in rows;
    SameMembers(b, rows);
    PageIsLatest(db, Following, u, cursor, size);
    forall i: nat | 0 <= i < |ids|
      ensures ids[i] in rows && ids[i] in db.follows && db.follows[ids[i]].following == ListResp(db, Following, u, cursor, size).users[i]
    {
      ListedUser(db, Following, u, cursor, size, i);
      assert ids[i] in ids;
    }
  }

  /** From a full page on, the walk continues below its last id. */
  lemma NextPage(dbs: seq<Db>, dir: Direction, pivot: int, cursor: string, size: nat) returns (c: int, last: int)
    requires size > 0 && Evolves(dbs, dir, pivot) && dbs != [] && ParseFollowCursor(cursor).Some?
    requires PageCursor(dbs[0], dir, pivot, ParseFollowCursor(cursor).value, size) != ""
    ensures c == ParseFollowCursor(cursor).value && c >= 0
    ensures var next, ids := PageCursor(dbs[0], dir, pivot, c, size), PageIDs(dbs[0], dir, pivot, c, size);
      && |ids| == size && last == ids[size - 1] && last in Eligible(dbs[0], dir, pivot)
      && (c > 0 ==> last < c)
      && ParseFollowCursor(next) == Some(last)
      && last > 0
      && Walk(dbs, dir, pivot, cursor, size) == [ids] + Walk(dbs[1..], dir, pivot, next, size)
    ensures Evolves(dbs[1..], dir, pivot)
    ensures |dbs| > 1 ==> Below(Eligible(dbs[1], dir, pivot), last) <= Below(Eligible(dbs[0], dir, pivot), last)
  {
    c := ParseFollowCursor(cursor).value;
    PageFacts(dbs[0], dir, pivot, c, size);
    var ids := PageIDs(dbs[0], dir, pivot, c, size);
    last := ids[size - 1];
    assert last in ids;
    CursorRoundTrip(last);
  }

  /** Everything a walk returns lies below its cursor. */
  lemma {:induction false} WalkBelow(dbs: seq<Db>, dir: Direction, pivot: int, cursor: string, size: nat)
    requires size > 0 && Evolves(dbs, dir, pivot)
    requires ParseFollowCursor(cursor).Some? && ParseFollowCursor(cursor).value > 0
    ensures forall x :: x in Concat(Walk(dbs, dir, pivot, cursor, size)) ==> x < ParseFollowCursor(cursor).value
    decreases dbs
  {
    if dbs != [] {
      var c := ParseFollowCursor(cursor).value;
      PageFacts(dbs[0], dir, pivot, c, size);
      var w, next := Walk(dbs, dir, pivot, cursor, size), PageCursor(dbs[0], dir, pivot, c, size);
      if next == "" {
        assert w[1..] == [];
      } else {
        var c', last := NextPage(dbs, dir, pivot, cursor, size);
        WalkBelow(dbs[1..], dir, pivot, next, size);
        assert w[1..] == Walk(dbs[1..], dir, pivot, next, size);
      }
    }
  }

  /** Pages are disjoint and run downward: no row twice, newest first. */
  lemma {:induction false} WalkDescends(dbs: seq<Db>, dir: Direction, pivot: int, cursor: string, size: nat)
    requires size > 0 && Evolves(dbs, dir, pivot)
    ensures Descends(Concat(Walk(dbs, dir, pivot, cursor, size)))
    decreases dbs
  {
    if dbs != [] && ParseFollowCursor(cursor).Some? {
      var c := ParseFollowCursor(cursor).value;
      PageFacts(dbs[0], dir, pivot, c, size);
      var w, next := Walk(dbs, dir, pivot, cursor, size), PageCursor(dbs[0], dir, pivot, c, size);
      if next == "" {
        assert w[1..] == [];
        assert Concat(w) == w[0];
      } else {
        var c', last := NextPage(dbs, dir, pivot, cursor, size);
        var rest := Walk(dbs[1..], dir, pivot, next, size);
        WalkDescends(dbs[1..], dir, pivot, next, size);
        WalkBelow(dbs[1..], dir, pivot, next, size);
        assert w[1..] == rest;
        JoinDescends(w[0], Concat(rest), last);
      }
    }
  }

  lemma JoinDescends(a: seq<int>, b: seq<int>, last: int)
    requires Descends(a) && Descends(b) && a != [] && a[|a| - 1] == last
    requires forall x :: x in b ==> x < last
    ensures Descends(a + b)
  {
    assert forall i :: 0 <= i < |b| ==> b[i] in b;
  }

  /** A row that is eligible at every page read below the cursor is returned. */
  lemma {:induction false} WalkCovers(dbs: seq<Db>, dir: Direction, pivot: int, cursor: string, size: nat, id: int)
    requires size > 0 && Evolves(dbs, dir, pivot) && Finishes(dbs, dir, pivot, cursor, size)
    requires forall i :: 0 <= i < |dbs| ==> id in Eligible(dbs[i], dir, pivot)
    requires ParseFollowCursor(cursor).value > 0 ==> id < ParseFollowCursor(cursor).value
    ensures id in Concat(Walk(dbs, dir, pivot, cursor, size))
    decreases dbs
  {
    var w := Walk(dbs, dir, pivot, cursor, size);
    var c := ParseFollowCursor(cursor).value;
    PageFacts(dbs[0], dir, pivot, c, size);
    var ids := PageIDs(dbs[0], dir, pivot, c, size);
    var next := PageCursor(dbs[0], dir, pivot, c, size);
    assert id in Below(Eligible(dbs[0], dir, pivot), c);
    assert w[0] == ids;
    if id !in ids {
      if next == "" {
        AllTaken(Below(Eligible(dbs[0], dir, pivot), c), ids, id);
      }
      var c', last := NextPage(dbs, dir, pivot, cursor, size);
      assert last in ids;
      WalkCovers(dbs[1..], dir, pivot, next, size, id);
      assert w[1..] == Walk(dbs[1..], dir, pivot, next, size);
    }
  }

  lemma {:induction false} AllTaken(s: set<int>, ids: seq<int>, id: int)
    requires Descends(ids) && (forall x :: x in ids ==> x in s) && |ids| == |s| && id in s
    ensures id in ids
    decreases |ids|
  {
    if ids != [] && ids[0] != id {
      assert forall i :: 0 <= i < |ids[1..]| ==> ids[1..][i] != ids[0];
      assert forall x :: x in ids[1..] ==> x in ids;
      AllTaken(s - {ids[0]}, ids[1..], id);
    }
  }

  /** The rows below the cursor at the first of the remaining reads. */
  ghost function Remaining(dbs: seq<Db>, dir: Direction, pivot: int, cursor: string): nat
    requires dbs != [] && ParseFollowCursor(cursor).Some?
  {
    |Below(Eligible(dbs[0], dir, pivot), ParseFollowCursor(cursor).value)|
  }

  /** A page has a next cursor exactly when it leaves rows behind. */
  lemma CursorWhenMore(dbs: seq<Db>, dir: Direction, pivot: int, cursor: string, size: nat)
    requires size > 0 && dbs != [] && ValidIDs(dbs[0]) && ParseFollowCursor(cursor).Some?
    ensures PageCursor(dbs[0], dir, pivot, ParseFollowCursor(cursor).value, size) != ""
      <==> Remaining(dbs, dir, pivot, cursor) > size
  {
    var c := ParseFollowCursor(cursor).value;
    PageFacts(dbs[0], dir, pivot, c, size);
    if Remaining(dbs, dir, pivot, cursor) > size {
      var ids := PageIDs(dbs[0], dir, pivot, c, size);
      assert ids[size - 1] in ids;
      CursorRoundTrip(ids[size - 1]);
    }
  }

  /** Each full page uses up `size` of the rows that were there at the first read. */
  lemma PageUsesUp(dbs: seq<Db>, dir: Direction, pivot: int, cursor: string, size: nat)
    requires size > 0 && Evolves(dbs, dir, pivot) && |dbs| > 1 && ParseFollowCursor(cursor).Some?
    requires PageCursor(dbs[0], dir, pivot, ParseFollowCursor(cursor).value, size) != ""
    ensures var next := PageCursor(dbs[0], dir, pivot, ParseFollowCursor(cursor).value, size);
      && ParseFollowCursor(next).Some? && Evolves(dbs[1..], dir, pivot)
      && Remaining(dbs[1..], dir, pivot, next) + size <= Remaining(dbs, dir, pivot, cursor)
      && Remaining(dbs, dir, pivot, cursor) > size
      && |Walk(dbs, dir, pivot, cursor, size)| == 1 + |Walk(dbs[1..], dir, pivot, next, size)|
  {
    var c, last := NextPage(dbs, dir, pivot, cursor, size);
    CursorWhenMore(dbs, dir, pivot, cursor, size);
    PageFacts(dbs[0], dir, pivot, c, size);
    Shrinks(Below(Eligible(dbs[0], dir, pivot), c), Below(Eligible(dbs[1], dir, pivot), last),
            PageIDs(dbs[0], dir, pivot, c, size), last);
  }

  lemma FewerReads(served: nat, size: nat, n: nat, n': nat)
    requires served * size >= n && n > size && n' + size <= n
    ensures served > 1 && (served - 1) * size >= n'
  {
    assert served * size == (served - 1) * size + size;
    assert (served - 1) * size > 0;
  }

  /** At most ceil(n / size) pages, and at most one when there are no rows. */
  predicate PagesFit(pages: nat, size: nat, n: nat) {
    (pages - 1) * size <= if n == 0 then 0 else n - 1
  }

  lemma FewerPages(rest: nat, size: nat, n: nat, n': nat)
    requires n > size && n' + size <= n
    requires PagesFit(rest, size, n')
    ensures PagesFit(rest + 1, size, n)
  {
    assert rest * size == (rest - 1) * size + size;
  }

  lemma {:induction false} WalkFinishes(dbs: seq<Db>, dir: Direction, pivot: int, cursor: string, size: nat)
    requires size > 0 && Evolves(dbs, dir, pivot) && dbs != [] && ParseFollowCursor(cursor).Some?
    requires |dbs| * size >= Remaining(dbs, dir, pivot, cursor)
    ensures Finishes(dbs, dir, pivot, cursor, size)
    decreases dbs
  {
    CursorWhenMore(dbs, dir, pivot, cursor, size);
    var next := PageCursor(dbs[0], dir, pivot, ParseFollowCursor(cursor).value, size);
    if next != "" {
      FewerReads(|dbs|, size, Remaining(dbs, dir, pivot, cursor), 0);
      PageUsesUp(dbs, dir, pivot, cursor, size);
      FewerReads(|dbs|, size, Remaining(dbs, dir, pivot, cursor), Remaining(dbs[1..], dir, pivot, next));
      assert |dbs[1..]| == |dbs| - 1;
      WalkFinishes(dbs[1..], dir, pivot, next, size);
    }
  }

  lemma OnlyPage(dbs: seq<Db>, dir: Direction, pivot: int, cursor: string, size: nat)
    requires dbs != [] && ParseFollowCursor(cursor).Some?
    requires PageCursor(dbs[0], dir, pivot, ParseFollowCursor(cursor).value, size) == "" || |dbs| == 1
    ensures PagesFit(|Walk(dbs, dir, pivot, cursor, size)|, size, Remaining(dbs, dir, pivot, cursor))
  {
    assert |Walk(dbs, dir, pivot, cursor, size)| == 1;
  }

  lemma {:induction false} WalkLength(dbs: seq<Db>, dir: Direction, pivot: int, cursor: string, size: nat)
    requires size > 0 && Evolves(dbs, dir, pivot) && dbs != [] && ParseFollowCursor(cursor).Some?
    ensures PagesFit(|Walk(dbs, dir, pivot, cursor, size)|, size, Remaining(dbs, dir, pivot, cursor))
    decreases dbs
  {
    var next := PageCursor(dbs[0], dir, pivot, ParseFollowCursor(cursor).value, size);
    if next == "" || |dbs| == 1 {
      OnlyPage(dbs, dir, pivot, cursor, size);
    } else {
      PageUsesUp(dbs, dir, pivot, cursor, size);
      WalkLength(dbs[1..], dir, pivot, next, size);
      FewerPages(|Walk(dbs[1..], dir, pivot, next, size)|, size,
        Remaining(dbs, dir, pivot, cursor), Remaining(dbs[1..], dir, pivot, next));
    }
  }

  /** What lies below the last id of a page has lost the whole page. */
  lemma {:induction false} Shrinks(b: set<int>, b': set<int>, ids: seq<int>, last: int)
    requires Descends(ids) && ids != [] && ids[|ids| - 1] == last
    requires forall x :: x in ids ==> x in b
    requires forall x :: x in b' ==> x in b && x < last
    ensures |b'| + |ids| <= |b|
    decreases |ids|
  {
    assert ids[0] in ids;
    if |ids| == 1 {
      forall x | x in b'
        ensures x in b - {last}
      {
      }
      SubsetSize(b', b - {last});
    } else {
      var rest := ids[1..];
      assert forall i :: 0 <= i < |rest| ==> rest[i] == ids[i + 1];
      assert forall x :: x in rest ==> x in ids && x != ids[0];
      assert ids[0] > last;
      Shrinks(b - {ids[0]}, b', rest, last);
    }
  }

  /**
   The whole traversal from the first page, while other requests insert rows with fresh
   larger ids and delete rows or users: no row is returned twice, ids run downward, every
   row eligible throughout is returned, and ceil(n / size) page reads (at least one) are
   always enough, n being the eligible rows at the first read.
   */
  lemma Traversal(dbs: seq<Db>, dir: Direction, pivot: int, size: nat)
    requires size > 0 && Evolves(dbs, dir, pivot) && dbs != []
    ensures var w, n := Walk(dbs, dir, pivot, "", size), |Eligible(dbs[0], dir, pivot)|;
      && Descends(Concat(w))
      && (Finishes(dbs, dir, pivot, "", size) ==>
            forall id :: (forall i :: 0 <= i < |dbs| ==> id in Eligible(dbs[i], dir, pivot)) ==> id in Concat(w))
      && (|dbs| * size >= n ==> Finishes(dbs, dir, pivot, "", size))
      && PagesFit(|w|, size, n)
  {
    WalkDescends(dbs, dir, pivot, "", size);
    WalkLength(dbs, dir, pivot, "", size);
    assert Remaining(dbs, dir, pivot, "") == |Eligible(dbs[0], dir, pivot)|;
    if |dbs| * size >= |Eligible(dbs[0], dir, pivot)| {
      WalkFinishes(dbs, dir, pivot, "", size);
    }
    if Finishes(dbs, dir, pivot, "", size) {
      forall id | forall i :: 0 <= i < |dbs| ==> id in Eligible(dbs[i], dir, pivot)
        ensures id in Concat(Walk(dbs, dir, pivot, "", size))
      {
        WalkCovers(dbs, dir, pivot, "", size, id);
      }
    }
  }
}
