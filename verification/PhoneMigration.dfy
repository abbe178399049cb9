/**
 The phone-encryption migration: every live user row, batch by batch in id order, has its
 phone sealed and its hash refreshed when they are not already. A run may be killed between
 rows or lose single updates; a later run picks up the rest.
 */
module PhoneMigration {
  import opened Prelude
  import opened OrderedIds

  datatype Row = Row(phoneEncrypted: string, phoneHash: string, deleted: bool)

  /** The cipher and the hash; the number is the random nonce of one encryption. */
  datatype Crypto = Crypto(
    seal: (string, string, nat) -> Option<string>,
    open: (string, string) -> Option<string>,
    hash: (string, string) -> string)

  datatype Config = Config(crypto: Crypto, keyHex: string, pepper: string)

  function EncryptPhone(c: Config, plain: string, nonce: nat): Option<string> {
    if c.keyHex == "" then None else c.crypto.seal(plain, c.keyHex, nonce)
  }

  function DecryptPhone(c: Config, stored: string): Option<string> {
    if c.keyHex == "" then None else c.crypto.open(stored, c.keyHex)
  }

  function HashPhone(c: Config, plain: string): string {
    c.crypto.hash(plain, c.pepper)
  }

  /** Opening what was sealed under the same key gives it back. */
  ghost predicate Sound(c: Config) {
    forall plain, nonce :: var sealed := EncryptPhone(c, plain, nonce);
      sealed.Some? ==> DecryptPhone(c, sealed.value) == Some(plain)
  }

  // ---- One row --------------------------------------------------------------------------

  datatype Updates = Updates(phoneEncrypted: Option<string>, phoneHash: Option<string>)

  /** None when the encryption fails. */
  function ComputeUpdates(c: Config, u: Row, nonce: nat): Option<Updates> {
    var decrypted := DecryptPhone(c, u.phoneEncrypted);
    var plain := if decrypted.Some? then decrypted.value else u.phoneEncrypted;
    var newHash := HashPhone(c, plain);
    var hash := if newHash != u.phoneHash then Some(newHash) else None;
    if c.keyHex != "" && decrypted.None? then
      var sealed := EncryptPhone(c, plain, nonce);
      if sealed.None? then None else Some(Updates(sealed, hash))
    else Some(Updates(None, hash))
  }

  function Updated(u: Row, up: Updates): Row {
    var u' := if up.phoneEncrypted.Some? then u.(phoneEncrypted := up.phoneEncrypted.value) else u;
    if up.phoneHash.Some? then u'.(phoneHash := up.phoneHash.value) else u'
  }

  /** The row stands for this phone: still as plain text, which does not open, or sealed. */
  ghost predicate Holds(c: Config, u: Row, phone: string) {
    (u.phoneEncrypted == phone && DecryptPhone(c, phone).None?) || DecryptPhone(c, u.phoneEncrypted) == Some(phone)
  }

  /** What the migration is for. */
  ghost predicate Migrated(c: Config, u: Row, phone: string) {
    DecryptPhone(c, u.phoneEncrypted) == Some(phone) && u.phoneHash == HashPhone(c, phone)
  }

  lemma UpdateMigrates(c: Config, u: Row, phone: string, nonce: nat)
    requires Sound(c) && c.keyHex != "" && Holds(c, u, phone) && ComputeUpdates(c, u, nonce).Some?
    ensures Migrated(c, Updated(u, ComputeUpdates(c, u, nonce).value), phone)
  {
  }

  /** Nothing to do is recognised exactly on migrated rows. */
  lemma NoUpdatesIffMigrated(c: Config, u: Row, phone: string, nonce: nat)
    requires Holds(c, u, phone) && c.keyHex != ""
    ensures ComputeUpdates(c, u, nonce) == Some(Updates(None, None)) <==> Migrated(c, u, phone)
  {
  }

  // ---- A run, row by row ------------------------------------------------------------------

  datatype Stats = Stats(processed: nat, encrypted: nat, rehashed: nat, skipped: nat, errors: nat)

  datatype Outcome = Outcome(users: map<int, Row>, nonce: nat, stats: Stats)

  /** A dry run, or a real one in which the UPDATEs of some ids fail. */
  datatype Mode = Mode(dryRun: bool, failing: set<int>)

  const Zero := Stats(0, 0, 0, 0, 0)

  function Counted(s: Stats, up: Updates): Stats {
    s.(encrypted := s.encrypted + if up.phoneEncrypted.Some? then 1 else 0,
       rehashed := s.rehashed + if up.phoneHash.Some? then 1 else 0)
  }

  /** The body of the inner loop; an id without a row is never fetched. */
  function Visit(c: Config, m: Mode, o: Outcome, id: int): Outcome {
    if id in o.users then VisitFound(c, m, o, id) else o
  }

  function VisitFound(c: Config, m: Mode, o: Outcome, id: int): Outcome
    requires id in o.users
  {
    var seen := o.stats.(processed := o.stats.processed + 1);
    var updates := ComputeUpdates(c, o.users[id], o.nonce);
    var o' := o.(nonce := o.nonce + 1);
    if updates.None? then o'.(stats := seen.(errors := seen.errors + 1))
    else
      var up := updates.value;
      if up == Updates(None, None) then o'.(stats := seen.(skipped := seen.skipped + 1))
      else if m.dryRun then o'.(stats := Counted(seen, up))
      else if id in m.failing then o'.(stats := seen.(errors := seen.errors + 1))
      else o'.(users := o.users[id := Updated(o.users[id], up)], stats := Counted(seen, up))
  }

  ghost predicate Known(ids: seq<int>, users: map<int, Row>) {
    forall i :: 0 <= i < |ids| ==> ids[i] in users
  }

  function VisitAll(c: Config, m: Mode, o: Outcome, ids: seq<int>): (r: Outcome)
    ensures r.users.Keys == o.users.Keys
  {
    if ids == [] then o else Visit(c, m, VisitAll(c, m, o, ids[..|ids| - 1]), ids[|ids| - 1])
  }

  function Live(users: map<int, Row>): set<int> {
    set id | id in users && id > 0 && !users[id].deleted
  }

  /** All live ids in ascending order: what an unbatched loop would visit. */
  ghost function Order(users: map<int, Row>): seq<int> {
    Bottom(Live(users), |Live(users)|)
  }

  /** A whole run, or one killed after `budget` rows. */
  ghost function Run(c: Config, m: Mode, users: map<int, Row>, nonce: nat, budget: nat): Outcome {
    VisitAll(c, m, Outcome(users, nonce, Zero), Cut(Order(users), budget))
  }

  function Cut<T>(s: seq<T>, n: nat): seq<T> {
    if n < |s| then s[..n] else s
  }

  lemma OrderKnown(users: map<int, Row>, budget: nat)
    ensures Known(Cut(Order(users), budget), users)
  {
    OrderMembers(users);
    var all := Order(users);
    assert forall i :: 0 <= i < |all| ==> all[i] in all;
  }

  // ---- The cursor loop ---------------------------------------------------------------------

  lemma OrderMembers(users: map<int, Row>)
    ensures Ascends(Order(users)) && |Order(users)| == |Live(users)|
    ensures forall id :: id in Order(users) <==> id in Live(users)
  {
    var live := Live(users);
    BottomFacts(live, |live|);
    BottomAll(live);
  }

  lemma {:induction false} BottomAll(s: set<int>)
    ensures forall x :: x in Bottom(s, |s|) <==> x in s
  {
    if s != {} {
      var m := MinOf(s);
      BottomAll(s - {m});
      assert forall x :: x in s <==> x == m || x in s - {m};
    }
  }

  lemma {:induction false} BottomPrefix(s: set<int>, n: nat)
    ensures Bottom(s, n) == Cut(Bottom(s, |s|), n)
  {
    if n > 0 && s != {} {
      BottomPrefix(s - {MinOf(s)}, n - 1);
    }
    BottomFacts(s, |s|);
  }

  /** An ascending list is determined by its members. */
  lemma {:induction false} AscendingUnique(a: seq<int>, b: seq<int>)
    requires Ascends(a) && Ascends(b) && forall x :: x in a <==> x in b
    ensures a == b
  {
    assert forall i :: 0 <= i < |a| ==> a[i] in a;
    assert b != [] ==> b[0] in b;
    if a != [] {
      var i :| 0 <= i < |b| && b[i] == a[0];
      var j :| 0 <= j < |a| && a[j] == b[0];
      assert a[0] == b[0];
      forall x
        ensures x in a[1..] <==> x in b[1..]
      {
        TailMembers(a, x);
        TailMembers(b, x);
      }
      AscendingUnique(a[1..], b[1..]);
    }
  }

  lemma TailMembers(a: seq<int>, x: int)
    requires a != [] && Ascends(a)
    ensures x in a[1..] <==> x in a && x != a[0]
  {
    if x in a && x != a[0] {
      var i :| 0 <= i < |a| && a[i] == x;
      assert a[1..][i - 1] == x;
    }
  }

  function Beyond(live: set<int>, lastID: int): set<int> {
    set id | id in live && id > lastID
  }

  ghost function Page(users: map<int, Row>, lastID: int, n: nat): seq<int> {
    Bottom(Beyond(Live(users), lastID), n)
  }

  lemma PageFacts(users: map<int, Row>, lastID: int, n: nat)
    requires lastID >= 0
    ensures var batch := Page(users, lastID, n);
      && Ascends(batch)
      && (forall id :: id in batch ==> id in users && id > lastID && !users[id].deleted)
      && (forall id :: id in users && id > lastID && !users[id].deleted && id !in batch ==>
            |batch| == n && forall x :: x in batch ==> x < id)
  {
    var all, batch := Beyond(Live(users), lastID), Page(users, lastID, n);
    assert forall id :: id in all <==> id in users && id > lastID && !users[id].deleted;
    BottomFacts(all, n);
    if |batch| < n {
      BottomAll(all);
      BottomPrefix(all, n);
    }
  }

  /** The cursor stands after the first k rows. */
  ghost predicate CursorAt(all: seq<int>, k: nat, lastID: int) {
    k <= |all| && lastID == if k == 0 then 0 else all[k - 1]
  }

  /** A keyset batch is the next slice of the order. */
  lemma BatchIsSlice(users: map<int, Row>, k: nat, lastID: int, n: nat)
    requires CursorAt(Order(users), k, lastID)
    ensures Page(users, lastID, n) == Cut(Order(users)[k..], n)
  {
    var all, rest := Order(users), Beyond(Live(users), lastID);
    OrderMembers(users);
    BottomFacts(rest, |rest|);
    forall x
      ensures x in all[k..] <==> x in Bottom(rest, |rest|)
    {
      BottomAll(rest);
      SliceMembers(all, k, lastID, x);
    }
    AscendingUnique(all[k..], Bottom(rest, |rest|));
    BottomPrefix(rest, n);
  }

  lemma SliceMembers(all: seq<int>, k: nat, lastID: int, x: int)
    requires Ascends(all) && CursorAt(all, k, lastID) && forall y :: y in all ==> y > 0
    ensures x in all[k..] <==> x in all && x > lastID
  {
    if x in all {
      var i :| 0 <= i < |all| && all[i] == x;
      if i >= k {
        assert all[k..][i - k] == x;
      }
    }
    if x in all[k..] {
      var i :| k <= i < |all| && all[i] == x;
    }
  }

  class Migration {
    const config: Config
    var users: map<int, Row>
    /** Numbers the encryptions, so that each has a nonce of its own. */
    var nonce: nat

    constructor (config: Config, users: map<int, Row>)
      ensures this.config == config && this.users == users
    {
      this.config, this.users, nonce := config, users, 0;
    }

    /** WHERE id > lastID AND deleted_at IS NULL ORDER BY id LIMIT n. */
    method FetchBatch(lastID: int, n: nat) returns (batch: seq<int>)
      requires lastID >= 0
      ensures batch == Page(users, lastID, n) && Ascends(batch)
      ensures forall id :: id in batch ==> id in users && id > lastID && !users[id].deleted
      ensures forall id :: id in users && id > lastID && !users[id].deleted && id !in batch ==>
        |batch| == n && forall x :: x in batch ==> x < id
    {
      var left := set id | id in users && id > lastID && !users[id].deleted;
      assert left == Beyond(Live(users), lastID);
      ghost var all := left;
      batch := [];
      assert n - |batch| == n;
      while |batch| < n && left != {}
        invariant |batch| <= n
        invariant Bottom(all, n) == batch + Bottom(left, n - |batch|)
        decreases n - |batch|
      {
        var m := Least(left);
        batch, left := batch + [m], left - {m};
      }
      PageFacts(users, lastID, n);
    }

    /** The inner loop's work on one fetched row. */
    method VisitRow(id: int, u: Row, m: Mode, s: Stats) returns (s': Stats)
      requires id in users && users[id] == u
      modifies this
      ensures Outcome(users, nonce, s') == Visit(config, m, Outcome(old(users), old(nonce), s), id)
    {
      s' := s.(processed := s.processed + 1);
      var updates := ComputeUpdates(config, u, nonce);
      nonce := nonce + 1;
      if updates.None? {
        s' := s'.(errors := s'.errors + 1);
        return;
      }
      var up := updates.value;
      if up.phoneEncrypted.None? && up.phoneHash.None? {
        s' := s'.(skipped := s'.skipped + 1);
        return;
      }
      if !m.dryRun {
        if id in m.failing {
          s' := s'.(errors := s'.errors + 1);
          return;
        }
        users := users[id := Updated(u, up)];
      }
      s' := Counted(s', up);
    }

    /** The inner loop over a batch of fetched copies, killed when `budget` runs out. */
    method VisitBatch(batch: seq<int>, m: Mode, s: Stats, budget: nat) returns (s': Stats, visited: nat)
      requires Known(batch, users) && Ascends(batch)
      modifies this
      ensures SameLife(old(users), users)
      ensures visited == |Cut(batch, budget)| && Known(Cut(batch, budget), old(users))
      ensures Outcome(users, nonce, s') == VisitAll(config, m, Outcome(old(users), old(nonce), s), Cut(batch, budget))
    {
      var fetched := users;
      s', visited := s, 0;
      while visited < |batch| && visited < budget
        invariant visited <= |batch| && visited <= budget
        invariant Outcome(users, nonce, s') == VisitAll(config, m, Outcome(fetched, old(nonce), s), batch[..visited])
        invariant SameLife(fetched, users)
        invariant forall i :: visited <= i < |batch| ==> users[batch[i]] == fetched[batch[i]]
      {
        var id := batch[visited];
        assert batch[..visited + 1][..visited] == batch[..visited];
        VisitKeepsLife(config, m, Outcome(users, nonce, s'), id);
        s' := VisitRow(id, fetched[id], m, s');
        visited := visited + 1;
      }
      assert batch[..visited] == Cut(batch, budget);
    }

    /** One round of the outer loop: fetch behind the cursor, work through the batch, move the cursor. */
    method NextBatch(m: Mode, n: nat, ghost start: Outcome, k: nat, lastID: int, s: Stats, budget: nat)
      returns (s': Stats, k': nat, lastID': int, more: bool)
      requires n > 0 && start.stats == Zero && k <= budget
      requires Progress(config, m, start, k, lastID, Outcome(users, nonce, s))
      modifies this
      ensures k <= k' <= budget && (more ==> k < k')
      ensures Round(config, m, start, budget, k', lastID', more, Outcome(users, nonce, s'))
    {
      ghost var o := Outcome(users, nonce, s);
      PageReady(config, m, start, k, lastID, o, n, budget);
      var batch := FetchBatch(lastID, n);
      s', k', lastID', more := s, k, lastID, false;
      if |batch| > 0 {
        var last, left := batch[|batch| - 1], budget - k;
        var visited;
        s', visited := VisitBatch(batch, m, s, left);
        k' := k + visited;
        if visited == |batch| {
          lastID', more := last, |batch| == n;
        }
        RoundEnds(config, m, start, budget, k, lastID, o, n, batch, Outcome(users, nonce, s'), k', lastID', more);
      }
    }

    /** Batch after batch behind a cursor on the last id, until a short one. */
    method Migrate(m: Mode, batchSize: nat, budget: nat) returns (s: Stats)
      requires batchSize > 0
      modifies this
      ensures Outcome(users, nonce, s) == Run(config, m, old(users), old(nonce), budget)
    {
      ghost var start := Outcome(users, nonce, Zero);
      var k, lastID, more := 0, 0, true;
      s := Zero;
      Begins(config, m, start);
      while more
        invariant k <= budget
        invariant Round(config, m, start, budget, k, lastID, more, Outcome(users, nonce, s))
        decreases budget - k, more
      {
        s, k, lastID, more := NextBatch(m, batchSize, start, k, lastID, s, budget);
      }
    }
  }

  /** Between batches: the first k rows of the order are done and the cursor stands behind them. */
  ghost predicate Progress(c: Config, m: Mode, start: Outcome, k: nat, lastID: int, o: Outcome) {
    var all := Order(start.users);
    && CursorAt(all, k, lastID)
    && o == VisitAll(c, m, start, all[..k])
    && SameLife(start.users, o.users)
  }

  /** After a round: ready for the next batch, or at the end of the run. */
  ghost predicate Round(c: Config, m: Mode, start: Outcome, budget: nat, k: nat, lastID: int, more: bool, o: Outcome) {
    if more then Progress(c, m, start, k, lastID, o) else o == Run(c, m, start.users, start.nonce, budget)
  }

  lemma Begins(c: Config, m: Mode, start: Outcome)
    ensures Progress(c, m, start, 0, 0, start)
  {
    assert Order(start.users)[..0] == [];
  }

  lemma Ends(c: Config, m: Mode, start: Outcome, k: nat, lastID: int, o: Outcome, budget: nat)
    requires Progress(c, m, start, k, lastID, o) && |Order(start.users)| == k <= budget && start.stats == Zero
    ensures o == Run(c, m, start.users, start.nonce, budget)
  {
    var all := Order(start.users);
    assert all[..k] == Cut(all, budget);
  }

  /** The next `n` rows of the order, fewer at its end. */
  ghost function Slice(start: Outcome, k: nat, n: nat): seq<int>
    requires k <= |Order(start.users)|
  {
    Cut(Order(start.users)[k..], n)
  }

  lemma BatchFacts(c: Config, m: Mode, start: Outcome, k: nat, lastID: int, o: Outcome, n: nat)
    requires n > 0 && Progress(c, m, start, k, lastID, o)
    ensures lastID >= 0
    ensures k <= |Order(start.users)| && Page(o.users, lastID, n) == Slice(start, k, n)
    ensures var batch := Slice(start, k, n);
      && Ascends(batch) && Known(batch, o.users)
      && if |batch| < n then k + |batch| == |Order(start.users)| else k + n <= |Order(start.users)|
  {
    CursorNonNegative(start.users, k, lastID);
    LiveKept(start.users, o.users);
    BatchIsSlice(start.users, k, lastID, n);
    SliceFacts(start.users, k, n);
  }

  lemma SliceJoins(all: seq<int>, k: nat, n: nat)
    requires k <= |all|
    ensures all[..k] + Cut(all[k..], n) == all[..k + |Cut(all[k..], n)|]
    ensures Cut(all[k..], n) != [] ==> var batch := Cut(all[k..], n); batch[|batch| - 1] == all[k + |batch| - 1]
  {
  }

  lemma WholeBatch(c: Config, m: Mode, start: Outcome, k: nat, lastID: int, o: Outcome, n: nat)
    requires Progress(c, m, start, k, lastID, o) && Slice(start, k, n) != []
    ensures var batch := Slice(start, k, n);
      Progress(c, m, start, k + |batch|, batch[|batch| - 1], VisitAll(c, m, o, batch))
  {
    var all, batch := Order(start.users), Slice(start, k, n);
    SliceJoins(all, k, n);
    VisitAllAppend(c, m, start, all[..k], batch);
    VisitAllKeepsLife(c, m, o, batch);
  }

  lemma KilledInside(c: Config, m: Mode, start: Outcome, k: nat, lastID: int, o: Outcome, n: nat, budget: nat)
    requires Progress(c, m, start, k, lastID, o) && start.stats == Zero
    requires k <= budget < k + |Slice(start, k, n)|
    ensures var part := Cut(Slice(start, k, n), budget - k);
      VisitAll(c, m, o, part) == Run(c, m, start.users, start.nonce, budget)
  {
    var all, part := Order(start.users), Cut(Slice(start, k, n), budget - k);
    assert all[..k] + part == Cut(all, budget);
    VisitAllAppend(c, m, start, all[..k], part);
  }

  /** How a non-empty batch leaves the run: killed inside it, past it, or at the end. */
  lemma RestOfBatch(c: Config, m: Mode, start: Outcome, budget: nat, k: nat, lastID: int, o: Outcome, n: nat, batch: seq<int>,
                    o': Outcome, k': nat, lastID': int, more: bool)
    requires Progress(c, m, start, k, lastID, o) && start.stats == Zero && k <= budget
    requires batch == Slice(start, k, n) && batch != [] && o' == VisitAll(c, m, o, Cut(batch, budget - k))
    requires |batch| < n ==> k + |batch| == |Order(start.users)|
    requires k' == k + |Cut(batch, budget - k)| && more == (|batch| <= budget - k && |batch| == n)
    requires lastID' == if |batch| <= budget - k then batch[|batch| - 1] else lastID
    ensures Round(c, m, start, budget, k', lastID', more, o')
  {
    if budget - k < |batch| {
      KilledInside(c, m, start, k, lastID, o, n, budget);
    } else {
      assert Cut(batch, budget - k) == batch;
      WholeBatch(c, m, start, k, lastID, o, n);
      if |batch| < n {
        Ends(c, m, start, k', lastID', o', budget);
      }
    }
  }

  /** The next page can be fetched and visited; an empty one ends the run. */
  lemma PageReady(c: Config, m: Mode, start: Outcome, k: nat, lastID: int, o: Outcome, n: nat, budget: nat)
    requires n > 0 && Progress(c, m, start, k, lastID, o) && start.stats == Zero && k <= budget
    ensures lastID >= 0
    ensures var batch := Page(o.users, lastID, n);
      && Ascends(batch) && Known(batch, o.users)
      && (batch == [] ==> Round(c, m, start, budget, k, lastID, false, o))
  {
    BatchFacts(c, m, start, k, lastID, o, n);
    if Slice(start, k, n) == [] {
      Ends(c, m, start, k, lastID, o, budget);
    }
  }

  /** What a worked-through batch makes of the round. */
  lemma RoundEnds(c: Config, m: Mode, start: Outcome, budget: nat, k: nat, lastID: int, o: Outcome, n: nat, batch: seq<int>,
                  o': Outcome, k': nat, lastID': int, more: bool)
    requires n > 0 && Progress(c, m, start, k, lastID, o) && start.stats == Zero && k <= budget
    requires batch != [] && batch == Page(o.users, lastID, n) && o' == VisitAll(c, m, o, Cut(batch, budget - k))
    requires k' == k + |Cut(batch, budget - k)| && more == (|batch| <= budget - k && |batch| == n)
    requires lastID' == if |batch| <= budget - k then batch[|batch| - 1] else lastID
    ensures Round(c, m, start, budget, k', lastID', more, o') && k <= k' <= budget && (more ==> k < k')
  {
    BatchFacts(c, m, start, k, lastID, o, n);
    RestOfBatch(c, m, start, budget, k, lastID, o, n, batch, o', k', lastID', more);
  }

  lemma {:induction false} VisitAllKeepsLife(c: Config, m: Mode, o: Outcome, ids: seq<int>)
    ensures SameLife(o.users, VisitAll(c, m, o, ids).users)
  {
    if ids != [] {
      VisitAllKeepsLife(c, m, o, ids[..|ids| - 1]);
      VisitKeepsLife(c, m, VisitAll(c, m, o, ids[..|ids| - 1]), ids[|ids| - 1]);
    }
  }

  lemma SliceFacts(users: map<int, Row>, k: nat, n: nat)
    requires k <= |Order(users)|
    ensures var batch := Cut(Order(users)[k..], n); Ascends(batch) && Known(batch, users)
  {
    OrderMembers(users);
    OrderKnown(users, |Order(users)|);
    SliceOf(Order(users), k, n, users);
  }

  lemma SliceOf(all: seq<int>, k: nat, n: nat, users: map<int, Row>)
    requires k <= |all| && Ascends(all) && Known(all, users)
    ensures var batch := Cut(all[k..], n); Ascends(batch) && Known(batch, users)
  {
    var batch := Cut(all[k..], n);
    assert forall i :: 0 <= i < |batch| ==> batch[i] == all[k + i];
  }

  lemma {:induction false} VisitAllAppend(c: Config, m: Mode, o: Outcome, a: seq<int>, b: seq<int>)
    ensures VisitAll(c, m, o, a + b) == VisitAll(c, m, VisitAll(c, m, o, a), b)
  {
    if b == [] {
      assert a + b == a;
    } else {
      var init := b[..|b| - 1];
      VisitAllAppend(c, m, o, a, init);
      assert (a + b)[..|a + b| - 1] == a + init;
    }
  }

  /** The rows exist as before, and the same ones are deleted. */
  ghost predicate SameLife(before: map<int, Row>, after: map<int, Row>) {
    before.Keys == after.Keys && forall id :: id in before ==> after[id].deleted == before[id].deleted
  }

  lemma LiveKept(before: map<int, Row>, after: map<int, Row>)
    requires SameLife(before, after)
    ensures Live(after) == Live(before)
  {
  }

  lemma VisitKeepsLife(c: Config, m: Mode, o: Outcome, id: int)
    ensures SameLife(o.users, Visit(c, m, o, id).users)
    ensures forall other :: other in o.users && other != id ==> Visit(c, m, o, id).users[other] == o.users[other]
  {
  }

  lemma CursorNonNegative(users: map<int, Row>, k: nat, lastID: int)
    requires CursorAt(Order(users), k, lastID)
    ensures lastID >= 0
  {
    OrderMembers(users);
    if k > 0 {
      assert Order(users)[k - 1] in Order(users);
    }
  }

  method Least(s: set<int>) returns (m: int)
    requires s != {}
    ensures m == MinOf(s)
  {
    var left: set<int>;
    m, left := Pick(s);
    while left != {}
      invariant left <= s && m in s
      invariant forall x :: x in s && x !in left ==> m <= x
      decreases |left|
    {
      var x, rest := Pick(left);
      if x < m { m := x; }
      left := rest;
    }
  }

  // ---- What any run keeps -------------------------------------------------------------------

  /** Every live row stands for the phone its user registered with. */
  ghost predicate AllHold(c: Config, users: map<int, Row>, phones: map<int, string>) {
    forall id :: id in Live(users) ==> id in phones && Holds(c, users[id], phones[id])
  }

  ghost predicate AllMigrated(c: Config, users: map<int, Row>, phones: map<int, string>) {
    forall id :: id in Live(users) ==> id in phones && Migrated(c, users[id], phones[id])
  }

  lemma VisitKeepsPhones(c: Config, m: Mode, o: Outcome, id: int, phones: map<int, string>)
    requires Sound(c) && AllHold(c, o.users, phones) && id in Live(o.users)
    ensures AllHold(c, Visit(c, m, o, id).users, phones)
  {
    var o' := Visit(c, m, o, id);
    VisitKeepsLife(c, m, o, id);
    LiveKept(o.users, o'.users);
    assert Holds(c, o.users[id], phones[id]);
    assert Holds(c, o'.users[id], phones[id]);
    forall k | k in Live(o'.users)
      ensures k in phones && Holds(c, o'.users[k], phones[k])
    {
      assert k != id ==> Holds(c, o.users[k], phones[k]);
    }
  }

  ghost predicate AllLive(ids: seq<int>, users: map<int, Row>) {
    forall i :: 0 <= i < |ids| ==> ids[i] in Live(users)
  }

  lemma {:induction false} VisitAllKeepsPhones(c: Config, m: Mode, o: Outcome, ids: seq<int>, phones: map<int, string>)
    requires Sound(c) && AllHold(c, o.users, phones) && AllLive(ids, o.users)
    ensures AllHold(c, VisitAll(c, m, o, ids).users, phones)
  {
    if ids != [] {
      var before := VisitAll(c, m, o, ids[..|ids| - 1]);
      VisitAllKeepsPhones(c, m, o, ids[..|ids| - 1], phones);
      VisitAllKeepsLife(c, m, o, ids[..|ids| - 1]);
      LiveKept(o.users, before.users);
      VisitKeepsPhones(c, m, before, ids[|ids| - 1], phones);
    }
  }

  /** Rows outside the list stay as they are. */
  lemma {:induction false} VisitAllTouchesOnly(c: Config, m: Mode, o: Outcome, ids: seq<int>, id: int)
    requires id in o.users && id !in ids
    ensures VisitAll(c, m, o, ids).users[id] == o.users[id]
  {
    if ids != [] {
      var init := ids[..|ids| - 1];
      VisitAllTouchesOnly(c, m, o, init, id);
      VisitKeepsLife(c, m, VisitAll(c, m, o, init), ids[|ids| - 1]);
    }
  }

  /** Errors are never taken back, and without a new one the visited row is migrated. */
  lemma VisitMigrates(c: Config, m: Mode, o: Outcome, id: int, phone: string)
    requires Sound(c) && c.keyHex != "" && !m.dryRun && id in o.users && Holds(c, o.users[id], phone)
    ensures Visit(c, m, o, id).stats.errors >= o.stats.errors
    ensures Visit(c, m, o, id).stats.errors == o.stats.errors ==> Migrated(c, Visit(c, m, o, id).users[id], phone)
  {
    NoUpdatesIffMigrated(c, o.users[id], phone, o.nonce);
    if ComputeUpdates(c, o.users[id], o.nonce).Some? {
      UpdateMigrates(c, o.users[id], phone, o.nonce);
    }
  }

  lemma {:induction false} VisitAllMigrates(c: Config, m: Mode, o: Outcome, ids: seq<int>, phones: map<int, string>)
    requires Sound(c) && c.keyHex != "" && !m.dryRun && AllHold(c, o.users, phones)
    requires AllLive(ids, o.users) && Ascends(ids)
    ensures VisitAll(c, m, o, ids).stats.errors >= o.stats.errors
    ensures VisitAll(c, m, o, ids).stats.errors == o.stats.errors ==>
      forall id :: id in ids ==> id in phones && Migrated(c, VisitAll(c, m, o, ids).users[id], phones[id])
  {
    if ids != [] {
      var init, last := ids[..|ids| - 1], ids[|ids| - 1];
      var before, after := VisitAll(c, m, o, init), VisitAll(c, m, o, ids);
      VisitAllMigrates(c, m, o, init, phones);
      VisitAllTouchesOnly(c, m, o, init, last);
      VisitMigrates(c, m, before, last, phones[last]);
      if after.stats.errors == o.stats.errors {
        forall id | id in ids
          ensures id in phones && Migrated(c, after.users[id], phones[id])
        {
          assert id in init || id == last;
          VisitKeepsLife(c, m, before, last);
          assert id in o.users;
          assert id != last ==> after.users[id] == before.users[id];
        }
      }
    }
  }

  // ---- Main results -------------------------------------------------------------------------

  /** A whole run, or one that was killed. */
  datatype Attempt = Attempt(mode: Mode, budget: nat)

  /** Table and nonce after a history of runs. */
  ghost function After(c: Config, users: map<int, Row>, nonce: nat, attempts: seq<Attempt>): Outcome {
    if attempts == [] then Outcome(users, nonce, Zero)
    else
      var o, a := After(c, users, nonce, attempts[..|attempts| - 1]), attempts[|attempts| - 1];
      Run(c, a.mode, o.users, o.nonce, a.budget)
  }

  lemma PlanFacts(users: map<int, Row>, budget: nat)
    ensures var plan := Cut(Order(users), budget);
      && AllLive(plan, users) && Ascends(plan)
      && (budget >= |Live(users)| ==> forall id :: id in plan <==> id in Live(users))
  {
    OrderMembers(users);
    OrderKnown(users, budget);
    var all, plan := Order(users), Cut(Order(users), budget);
    forall i | 0 <= i < |plan|
      ensures plan[i] in Live(users)
    {
      assert plan[i] == all[i] && all[i] in all;
    }
  }

  lemma RunKeeps(c: Config, m: Mode, users: map<int, Row>, nonce: nat, budget: nat, phones: map<int, string>)
    requires Sound(c) && AllHold(c, users, phones)
    ensures var o := Run(c, m, users, nonce, budget);
      && SameLife(users, o.users) && AllHold(c, o.users, phones)
      && forall id :: id in users && id !in Live(users) ==> o.users[id] == users[id]
  {
    var plan := Cut(Order(users), budget);
    PlanFacts(users, budget);
    VisitAllKeepsLife(c, m, Outcome(users, nonce, Zero), plan);
    VisitAllKeepsPhones(c, m, Outcome(users, nonce, Zero), plan, phones);
    forall id | id in users && id !in Live(users)
      ensures Run(c, m, users, nonce, budget).users[id] == users[id]
    {
      VisitAllTouchesOnly(c, m, Outcome(users, nonce, Zero), plan, id);
    }
  }

  /** No run, killed or failing, ever loses a phone or touches a deleted row. */
  lemma {:induction false} PhonesSurvive(c: Config, users: map<int, Row>, nonce: nat, attempts: seq<Attempt>, phones: map<int, string>)
    requires Sound(c) && AllHold(c, users, phones)
    ensures var o := After(c, users, nonce, attempts);
      && SameLife(users, o.users) && AllHold(c, o.users, phones)
      && forall id :: id in users && (id <= 0 || users[id].deleted) ==> o.users[id] == users[id]
  {
    if attempts != [] {
      var o, a := After(c, users, nonce, attempts[..|attempts| - 1]), attempts[|attempts| - 1];
      PhonesSurvive(c, users, nonce, attempts[..|attempts| - 1], phones);
      LiveKept(users, o.users);
      RunKeeps(c, a.mode, o.users, o.nonce, a.budget, phones);
    }
  }

  /** After any history of partial runs one complete run without errors migrates every live row. */
  lemma Resumable(c: Config, users: map<int, Row>, nonce: nat, attempts: seq<Attempt>, failing: set<int>, budget: nat,
                  phones: map<int, string>)
    requires Sound(c) && c.keyHex != "" && AllHold(c, users, phones) && budget >= |Live(users)|
    ensures var o := After(c, users, nonce, attempts);
      var final := Run(c, Mode(false, failing), o.users, o.nonce, budget);
      final.stats.errors == 0 ==>
        && Live(final.users) == Live(users) && AllMigrated(c, final.users, phones)
        && forall id :: id in users && id > 0 && !users[id].deleted ==>
             && id in final.users && id in phones && DecryptPhone(c, final.users[id].phoneEncrypted) == Some(phones[id])
             && final.users[id].phoneHash == HashPhone(c, phones[id])
  {
    var o := After(c, users, nonce, attempts);
    PhonesSurvive(c, users, nonce, attempts, phones);
    LiveKept(users, o.users);
    PlanFacts(o.users, budget);
    var m, plan := Mode(false, failing), Cut(Order(o.users), budget);
    RunKeeps(c, m, o.users, o.nonce, budget, phones);
    LiveKept(o.users, Run(c, m, o.users, o.nonce, budget).users);
    VisitAllMigrates(c, m, Outcome(o.users, o.nonce, Zero), plan, phones);
    assert forall id :: id in users && id > 0 && !users[id].deleted ==> id in Live(users);
  }

  /** On a migrated table a run changes nothing and skips every row it visits. */
  lemma Idempotent(c: Config, m: Mode, users: map<int, Row>, nonce: nat, budget: nat, phones: map<int, string>)
    requires c.keyHex != "" && AllMigrated(c, users, phones)
    ensures var o, n := Run(c, m, users, nonce, budget), |Cut(Order(users), budget)|;
      o.users == users && o.stats == Stats(n, 0, 0, n, 0)
  {
    PlanFacts(users, budget);
    SkipsAll(c, m, users, nonce, Cut(Order(users), budget), phones);
  }

  lemma {:induction false} SkipsAll(c: Config, m: Mode, users: map<int, Row>, nonce: nat, ids: seq<int>, phones: map<int, string>)
    requires c.keyHex != "" && AllMigrated(c, users, phones) && AllLive(ids, users)
    ensures VisitAll(c, m, Outcome(users, nonce, Zero), ids) == Outcome(users, nonce + |ids|, Stats(|ids|, 0, 0, |ids|, 0))
  {
    if ids != [] {
      var last := ids[|ids| - 1];
      SkipsAll(c, m, users, nonce, ids[..|ids| - 1], phones);
      assert last in Live(users);
      NoUpdatesIffMigrated(c, users[last], phones[last], nonce + |ids| - 1);
    }
  }

  // ---- What the numbers count -----------------------------------------------------------------

  /** The row is as the migration leaves it, whatever phone it holds. */
  ghost predicate Done(c: Config, u: Row) {
    var phone := DecryptPhone(c, u.phoneEncrypted);
    phone.Some? && u.phoneHash == HashPhone(c, phone.value)
  }

  /** The four ways in which a visited row can count. */
  datatype Kind = Sealed | Rehashed | AlreadyDone | NotDone

  ghost predicate Counts(c: Config, kind: Kind, before: Row, after: Row) {
    match kind
    case Sealed => after.phoneEncrypted != before.phoneEncrypted
    case Rehashed => after.phoneHash != before.phoneHash
    case AlreadyDone => Done(c, before)
    case NotDone => !Done(c, after)
  }

  function Number(kind: Kind, s: Stats): nat {
    match kind
    case Sealed => s.encrypted
    case Rehashed => s.rehashed
    case AlreadyDone => s.skipped
    case NotDone => s.errors
  }

  lemma VisitCounts(c: Config, m: Mode, o: Outcome, id: int, kind: Kind)
    requires Sound(c) && c.keyHex != "" && !m.dryRun && id in o.users
    ensures var o' := Visit(c, m, o, id);
      && id in o'.users
      && Number(kind, o'.stats) == Number(kind, o.stats) + (if Counts(c, kind, o.users[id], o'.users[id]) then 1 else 0)
      && o'.stats.processed == o.stats.processed + 1
  {
  }

  lemma SameMembers<T>(a: set<T>, b: set<T>)
    requires forall x :: x in a <==> x in b
    ensures a == b
  {
  }

  /** `those` are the visited rows that count in this way between the two tables. */
  ghost predicate AreThose(c: Config, kind: Kind, before: map<int, Row>, after: map<int, Row>, ids: seq<int>, those: set<int>) {
    forall id :: id in those <==> id in ids && id in before && id in after && Counts(c, kind, before[id], after[id])
  }

  lemma CountedLast(c: Config, kind: Kind, users: map<int, Row>, before: map<int, Row>, after: map<int, Row>,
                    init: seq<int>, last: int, those: set<int>, those': set<int>)
    requires last !in init && last in users && last in before && before.Keys == after.Keys && before[last] == users[last]
    requires forall id :: id in before && id != last ==> after[id] == before[id]
    requires AreThose(c, kind, users, before, init, those)
    requires those' == if Counts(c, kind, before[last], after[last]) then those + {last} else those
    ensures AreThose(c, kind, users, after, init + [last], those')
    ensures |those'| == |those| + if Counts(c, kind, before[last], after[last]) then 1 else 0
  {
    assert last !in those;
    forall id
      ensures id in those' <==> id in init + [last] && id in users && id in after && Counts(c, kind, users[id], after[id])
    {
      assert id in init + [last] <==> id in init || id == last;
    }
  }

  lemma {:induction false} VisitsCount(c: Config, m: Mode, users: map<int, Row>, nonce: nat, ids: seq<int>, kind: Kind)
      returns (those: set<int>)
    requires Sound(c) && c.keyHex != "" && !m.dryRun && Known(ids, users) && Ascends(ids)
    ensures var o := VisitAll(c, m, Outcome(users, nonce, Zero), ids);
      && AreThose(c, kind, users, o.users, ids, those)
      && Number(kind, o.stats) == |those| && o.stats.processed == |ids|
  {
    those := {};
    if ids != [] {
      var start, init, last := Outcome(users, nonce, Zero), ids[..|ids| - 1], ids[|ids| - 1];
      var before := VisitAll(c, m, start, init);
      var after := Visit(c, m, before, last).users;
      assert ids == init + [last];
      var rest := VisitsCount(c, m, users, nonce, init, kind);
      VisitAllTouchesOnly(c, m, start, init, last);
      VisitCounts(c, m, before, last, kind);
      VisitKeepsLife(c, m, before, last);
      those := if Counts(c, kind, before.users[last], after[last]) then rest + {last} else rest;
      CountedLast(c, kind, users, before.users, after, init, last, rest, those);
    }
  }

  /**
   What a real run reports, by the tables before and after: rows visited, rows whose stored
   phone changed, rows whose hash changed, rows that were done before, rows not done after.
   */
  lemma NumbersMean(c: Config, m: Mode, users: map<int, Row>, nonce: nat, budget: nat)
    requires Sound(c) && c.keyHex != "" && !m.dryRun
    ensures var o, plan := Run(c, m, users, nonce, budget), Cut(Order(users), budget);
      && o.users.Keys == users.Keys && o.stats.processed == |plan|
      && o.stats.encrypted == |set id | id in plan && id in users && o.users[id].phoneEncrypted != users[id].phoneEncrypted|
      && o.stats.rehashed == |set id | id in plan && id in users && o.users[id].phoneHash != users[id].phoneHash|
      && o.stats.skipped == |set id | id in plan && id in users && Done(c, users[id])|
      && o.stats.errors == |set id | id in plan && id in users && !Done(c, o.users[id])|
  {
    var o, plan := Run(c, m, users, nonce, budget), Cut(Order(users), budget);
    PlanFacts(users, budget);
    OrderKnown(users, budget);
    NumberMeans(c, m, users, nonce, plan, Sealed, set id | id in plan && id in users && o.users[id].phoneEncrypted != users[id].phoneEncrypted);
    NumberMeans(c, m, users, nonce, plan, Rehashed, set id | id in plan && id in users && o.users[id].phoneHash != users[id].phoneHash);
    NumberMeans(c, m, users, nonce, plan, AlreadyDone, set id | id in plan && id in users && Done(c, users[id]));
    NumberMeans(c, m, users, nonce, plan, NotDone, set id | id in plan && id in users && !Done(c, o.users[id]));
  }

  lemma NumberMeans(c: Config, m: Mode, users: map<int, Row>, nonce: nat, plan: seq<int>, kind: Kind, those: set<int>)
    requires Sound(c) && c.keyHex != "" && !m.dryRun && Known(plan, users) && Ascends(plan)
    requires AreThose(c, kind, users, VisitAll(c, m, Outcome(users, nonce, Zero), plan).users, plan, those)
    ensures var o := VisitAll(c, m, Outcome(users, nonce, Zero), plan);
      Number(kind, o.stats) == |those| && o.stats.processed == |plan|
  {
    var o := VisitAll(c, m, Outcome(users, nonce, Zero), plan);
    var counted := VisitsCount(c, m, users, nonce, plan, kind);
    forall id
      ensures id in those <==> id in counted
    {
    }
    SameMembers(those, counted);
  }

  /** Without a key a run leaves every stored phone alone and gives it the hash of what is stored. */
  lemma KeylessRun(c: Config, m: Mode, users: map<int, Row>, nonce: nat, budget: nat, id: int)
    requires c.keyHex == "" && !m.dryRun && id in users && id in Cut(Order(users), budget) && id !in m.failing
    ensures Run(c, m, users, nonce, budget).users[id]
      == users[id].(phoneHash := c.crypto.hash(users[id].phoneEncrypted, c.pepper))
  {
    PlanFacts(users, budget);
    KeylessVisits(c, m, users, nonce, Cut(Order(users), budget), id);
  }

  lemma {:induction false} KeylessVisits(c: Config, m: Mode, users: map<int, Row>, nonce: nat, ids: seq<int>, id: int)
    requires c.keyHex == "" && !m.dryRun && id in users && id in ids && id !in m.failing && Ascends(ids)
    ensures VisitAll(c, m, Outcome(users, nonce, Zero), ids).users[id]
      == users[id].(phoneHash := c.crypto.hash(users[id].phoneEncrypted, c.pepper))
  {
    var start, init, last := Outcome(users, nonce, Zero), ids[..|ids| - 1], ids[|ids| - 1];
    assert ids == init + [last];
    if id == last {
      VisitAllTouchesOnly(c, m, start, init, id);
    } else {
      KeylessVisits(c, m, users, nonce, init, id);
      VisitKeepsLife(c, m, VisitAll(c, m, start, init), last);
    }
  }

  /** A dry run writes nothing and reports exactly what a real run without failed UPDATEs does. */
  lemma DryRunForecasts(c: Config, users: map<int, Row>, nonce: nat, budget: nat, failing: set<int>)
    ensures var dry, wet := Run(c, Mode(true, failing), users, nonce, budget), Run(c, Mode(false, {}), users, nonce, budget);
      dry.users == users && dry.stats == wet.stats
  {
    PlanFacts(users, budget);
    SameCounts(c, users, nonce, Cut(Order(users), budget), failing);
  }

  lemma {:induction false} SameCounts(c: Config, users: map<int, Row>, nonce: nat, ids: seq<int>, failing: set<int>)
    requires AllLive(ids, users) && Ascends(ids)
    ensures var start := Outcome(users, nonce, Zero);
      var dry, wet := VisitAll(c, Mode(true, failing), start, ids), VisitAll(c, Mode(false, {}), start, ids);
      dry.users == users && dry.stats == wet.stats && dry.nonce == wet.nonce
  {
    if ids != [] {
      SameCounts(c, users, nonce, ids[..|ids| - 1], failing);
      VisitAllTouchesOnly(c, Mode(false, {}), Outcome(users, nonce, Zero), ids[..|ids| - 1], ids[|ids| - 1]);
    }
  }
}
