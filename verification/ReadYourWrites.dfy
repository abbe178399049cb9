/**
 Read-after-write routing: a write stamps a short-lived marker for the users it concerns,
 and a read that finds the marker is forced to the master instead of a lagging replica.
 */
module ReadYourWrites {
  import opened Prelude

  // ---- The marker and the routing hint --------------------------------------------------

  class WriteMarker {
    const ttl: nat
    /** `write:user:{id}` keys with their expiry instants. */
    var expiry: map<int, nat>

    constructor (ttl: nat)
      ensures this.ttl == ttl && expiry == map[]
    {
      this.ttl, expiry := ttl, map[];
    }

    method Mark(userID: int, now: nat)
      modifies this
      ensures expiry == Stamped(old(expiry), userID, now + ttl)
    {
      expiry := expiry[userID := now + ttl];
    }

    method Has(userID: int, now: nat) returns (isFresh: bool)
      ensures isFresh <==> Marked(expiry, userID, now)
    {
      isFresh := userID in expiry && now < expiry[userID];
    }
  }

  /** SET with a TTL replaces the key and its expiry. */
  function Stamped(expiry: map<int, nat>, userID: int, until: nat): map<int, nat> {
    expiry[userID := until]
  }

  predicate Marked(expiry: map<int, nat>, userID: int, now: nat) {
    userID in expiry && now < expiry[userID]
  }

  /** The one bit of a request context that matters here. */
  datatype Context = Context(forceMaster: bool)

  datatype Target = Master | Replicas

  function WithForceMaster(ctx: Context): Context {
    ctx.(forceMaster := true)
  }

  function IsForceMaster(ctx: Context): bool {
    ctx.forceMaster
  }

  function Apply(ctx: Context): Target {
    if IsForceMaster(ctx) then Master else Replicas
  }

  // ---- The replicated tables --------------------------------------------------------------

  /** A `follows` row, or a post as its author's page shows it: visible and not deleted. */
  datatype Row = FollowRow(follower: int, following: int) | PostRow(author: int, id: int)

  /** A row appears, a request removes it, or the audit takes a visible post back. */
  datatype Op = Put(row: Row) | Drop(row: Row) | Hide(row: Row)

  datatype Write = Write(time: nat, op: Op)

  /**
   Whose marker a write stamps: both ends of a follow edge, the author of a deleted post, and
   nobody when the audit shows or hides a post.
   */
  function UsersOf(op: Op): seq<int> {
    match op
    case Put(FollowRow(a, b)) => [a, b]
    case Drop(FollowRow(a, b)) => [a, b]
    case Put(PostRow(_, _)) => []
    case Drop(PostRow(a, _)) => [a]
    case Hide(_) => []
  }

  /** Whose lists show a row: those of both ends of a follow edge, or the author's page. */
  predicate Shows(user: int, row: Row) {
    match row
    case FollowRow(a, b) => user == a || user == b
    case PostRow(a, _) => user == a
  }

  /** A follow, an unfollow or a post deletion is a user's call; the audit shows and hides posts on its own. */
  predicate ByCall(op: Op) {
    match op
    case Put(row) => row.FollowRow?
    case Drop(_) => true
    case Hide(_) => false
  }

  /** Follow and Unfollow go on only when they changed a row; Delete also removes posts not yet visible. */
  predicate Effective(log: seq<Write>, op: Op) {
    match op
    case Put(row) => row !in RowsAfter(log)
    case Drop(row) => row.PostRow? || row in RowsAfter(log)
    case Hide(row) => row.PostRow? && row in RowsAfter(log)
  }

  /** The rows after the first writes of a log. */
  function RowsAfter(log: seq<Write>): set<Row> {
    if log == [] then {}
    else
      var before, op := RowsAfter(log[..|log| - 1]), log[|log| - 1].op;
      if op.Put? then before + {op.row} else before - {op.row}
  }

  /** A call between its statement and its return: the users still to be marked. */
  datatype Writer = Marking(index: nat, todo: seq<int>)

  /** A list request for one user; `before` are the calls that had returned when it began. */
  datatype Reader =
    | Begun(user: int, before: set<nat>)
    | Routed(user: int, before: set<nat>, ctx: Context)
    | Answered(user: int, before: set<nat>, applied: nat)

  datatype Config = Config(ttl: nat, lag: nat)

  datatype State = State(
    clock: nat,
    log: seq<Write>,
    replicas: map<nat, nat>,
    expiry: map<int, nat>,
    writers: map<nat, Writer>,
    returned: set<nat>,
    readers: map<nat, Reader>)

  /** `MarkOnly` is the mark of a call that touches no listed row, a new post or a changed profile. */
  datatype Step =
    | Tick
    | Commit(w: nat, op: Op)
    | Mark(w: nat)
    | Return(w: nat)
    | MarkOnly(user: int)
    | Replicate(r: nat)
    | Begin(id: nat, user: int)
    | Check(id: nat)
    | Read(id: nat, r: nat)

  /** Every replica holds every write at least `lag` old. */
  predicate LagBounded(c: Config, s: State) {
    forall r, i :: r in s.replicas && 0 <= i < |s.log| && s.log[i].time + c.lag <= s.clock ==> i < s.replicas[r]
  }

  predicate Enabled(c: Config, s: State, step: Step) {
    match step
    case Tick => LagBounded(c, s.(clock := s.clock + 1))
    case Commit(w, op) => w !in s.writers && Effective(s.log, op)
    case Mark(w) => w in s.writers && s.writers[w].todo != []
    case Return(w) => w in s.writers && s.writers[w].todo == []
    case MarkOnly(_) => true
    case Replicate(r) => r in s.replicas && s.replicas[r] < |s.log|
    case Begin(id, _) => id !in s.readers
    case Check(id) => id in s.readers && s.readers[id].Begun?
    case Read(id, r) => id in s.readers && s.readers[id].Routed? && r in s.replicas
  }

  function Do(c: Config, s: State, step: Step): State
    requires Enabled(c, s, step)
  {
    match step
    case Tick => s.(clock := s.clock + 1)
    case Commit(w, op) =>
      var s' := s.(log := s.log + [Write(s.clock, op)]);
      if ByCall(op) then s'.(writers := s.writers[w := Marking(|s.log|, UsersOf(op))]) else s'
    case Mark(w) =>
      var m := s.writers[w];
      s.(expiry := Stamped(s.expiry, m.todo[0], s.clock + c.ttl), writers := s.writers[w := m.(todo := m.todo[1..])])
    case Return(w) => s.(writers := s.writers - {w}, returned := s.returned + {s.writers[w].index})
    case MarkOnly(user) => s.(expiry := Stamped(s.expiry, user, s.clock + c.ttl))
    case Replicate(r) => s.(replicas := s.replicas[r := s.replicas[r] + 1])
    case Begin(id, user) =>
      s.(readers := s.readers[id := Begun(user, s.returned)])
    case Check(id) =>
      var r := s.readers[id];
      var ctx := if Marked(s.expiry, r.user, s.clock) then WithForceMaster(Context(false)) else Context(false);
      s.(readers := s.readers[id := Routed(r.user, r.before, ctx)])
    case Read(id, r) =>
      var q := s.readers[id];
      var n := if Apply(q.ctx).Master? then |s.log| else s.replicas[r];
      s.(readers := s.readers[id := Answered(q.user, q.before, n)])
  }

  predicate ValidSteps(c: Config, s: State, steps: seq<Step>)
    decreases steps
  {
    steps == [] || (Enabled(c, s, steps[0]) && ValidSteps(c, Do(c, s, steps[0]), steps[1..]))
  }

  function Exec(c: Config, s: State, steps: seq<Step>): State
    requires ValidSteps(c, s, steps)
    decreases steps
  {
    if steps == [] then s else Exec(c, Do(c, s, steps[0]), steps[1..])
  }

  // ---- Invariants -----------------------------------------------------------------------

  /** The marker of the user outlives the lag of write i. */
  ghost predicate Covered(c: Config, s: State, i: nat, user: int) {
    i < |s.log| && user in s.expiry && s.log[i].time + c.ttl <= s.expiry[user]
  }

  ghost predicate WriterOk(c: Config, s: State, m: Writer) {
    && m.index < |s.log|
    && forall u :: Shows(u, s.log[m.index].op.row) ==> u in m.todo || Covered(c, s, m.index, u)
  }

  ghost predicate ReturnedOk(c: Config, s: State, i: nat) {
    i < |s.log| && forall u :: Shows(u, s.log[i].op.row) ==> Covered(c, s, i, u)
  }

  /** The call had returned before the request, and the user's list shows its row. */
  ghost predicate Owed(log: seq<Write>, user: int, before: set<nat>, i: nat) {
    i in before && i < |log| && Shows(user, log[i].op.row)
  }

  ghost predicate ReaderOk(s: State, q: Reader) {
    && (forall i :: i in q.before ==> i < |s.log|)
    && match q
       case Begun(_, before) => before <= s.returned
       case Routed(_, _, ctx) => ctx.forceMaster || forall i: nat, r :: Owed(s.log, q.user, q.before, i) && r in s.replicas ==> i < s.replicas[r]
       case Answered(_, _, applied) => applied <= |s.log| && forall i: nat :: Owed(s.log, q.user, q.before, i) ==> i < applied
  }

  ghost predicate ClockOk(c: Config, s: State) {
    && (forall i :: 0 <= i < |s.log| ==> s.log[i].time <= s.clock)
    && (forall u :: u in s.expiry ==> s.expiry[u] <= s.clock + c.ttl)
    && (forall r :: r in s.replicas ==> s.replicas[r] <= |s.log|)
    && LagBounded(c, s)
  }

  ghost predicate Inv(c: Config, s: State) {
    && ClockOk(c, s)
    && (forall w :: w in s.writers ==> WriterOk(c, s, s.writers[w]))
    && (forall i :: i in s.returned ==> ReturnedOk(c, s, i))
    && (forall id :: id in s.readers ==> ReaderOk(s, s.readers[id]))
  }

  lemma TickKeepsInv(c: Config, s: State)
    requires Inv(c, s) && Enabled(c, s, Tick)
    ensures Inv(c, Do(c, s, Tick))
  {
    var s' := Do(c, s, Tick);
    assert forall i, u :: Covered(c, s, i, u) ==> Covered(c, s', i, u);
    ReadersKeep(s, s');
  }

  lemma CommitKeepsClock(c: Config, s: State, w: nat, op: Op)
    requires c.lag > 0 && ClockOk(c, s) && Enabled(c, s, Commit(w, op))
    ensures ClockOk(c, Do(c, s, Commit(w, op)))
  {
  }

  lemma CommitKeepsWriter(c: Config, s: State, w: nat, op: Op, v: nat)
    requires Enabled(c, s, Commit(w, op)) && v in Do(c, s, Commit(w, op)).writers
    requires v in s.writers ==> WriterOk(c, s, s.writers[v])
    ensures WriterOk(c, Do(c, s, Commit(w, op)), Do(c, s, Commit(w, op)).writers[v])
  {
    var s' := Do(c, s, Commit(w, op));
    if v in s.writers {
      assert s'.log[s.writers[v].index] == s.log[s.writers[v].index];
      assert forall u :: Covered(c, s, s.writers[v].index, u) ==> Covered(c, s', s.writers[v].index, u);
    }
  }

  lemma CommitKeepsReturned(c: Config, s: State, w: nat, op: Op, i: nat)
    requires Enabled(c, s, Commit(w, op)) && ReturnedOk(c, s, i)
    ensures ReturnedOk(c, Do(c, s, Commit(w, op)), i)
  {
    var s' := Do(c, s, Commit(w, op));
    assert s'.log[i] == s.log[i];
    assert forall u :: Covered(c, s, i, u) ==> Covered(c, s', i, u);
  }

  lemma CommitKeepsReader(c: Config, s: State, w: nat, op: Op, q: Reader)
    requires Enabled(c, s, Commit(w, op)) && ReaderOk(s, q)
    ensures ReaderOk(Do(c, s, Commit(w, op)), q)
  {
    var log' := Do(c, s, Commit(w, op)).log;
    assert forall i: nat :: i in q.before ==> (Owed(log', q.user, q.before, i) <==> Owed(s.log, q.user, q.before, i));
  }

  lemma CommitKeepsInv(c: Config, s: State, w: nat, op: Op)
    requires c.lag > 0 && Inv(c, s) && Enabled(c, s, Commit(w, op))
    ensures Inv(c, Do(c, s, Commit(w, op)))
  {
    var s' := Do(c, s, Commit(w, op));
    CommitKeepsClock(c, s, w, op);
    forall i | i in s'.returned
      ensures ReturnedOk(c, s', i)
    {
      CommitKeepsReturned(c, s, w, op, i);
    }
    forall v | v in s'.writers
      ensures WriterOk(c, s', s'.writers[v])
    {
      CommitKeepsWriter(c, s, w, op, v);
    }
    forall id | id in s'.readers
      ensures ReaderOk(s', s'.readers[id])
    {
      CommitKeepsReader(c, s, w, op, s.readers[id]);
    }
  }

  lemma MarkCovers(c: Config, s: State, w: nat, i: nat, u: int)
    requires ClockOk(c, s) && Enabled(c, s, Mark(w))
    ensures var s' := Do(c, s, Mark(w));
      && (Covered(c, s, i, u) ==> Covered(c, s', i, u))
      && (u == s.writers[w].todo[0] && i < |s.log| ==> Covered(c, s', i, u))
  {
  }

  lemma MarkKeepsClock(c: Config, s: State, w: nat)
    requires ClockOk(c, s) && Enabled(c, s, Mark(w))
    ensures ClockOk(c, Do(c, s, Mark(w)))
  {
  }

  lemma MarkKeepsWriter(c: Config, s: State, w: nat, v: nat)
    requires ClockOk(c, s) && Enabled(c, s, Mark(w)) && v in Do(c, s, Mark(w)).writers
    requires WriterOk(c, s, s.writers[v])
    ensures WriterOk(c, Do(c, s, Mark(w)), Do(c, s, Mark(w)).writers[v])
  {
    var s', m := Do(c, s, Mark(w)), s.writers[v];
    forall u | Shows(u, s.log[m.index].op.row)
      ensures u in s'.writers[v].todo || Covered(c, s', m.index, u)
    {
      MarkCovers(c, s, w, m.index, u);
    }
  }

  lemma MarkKeepsReturned(c: Config, s: State, w: nat, i: nat)
    requires ClockOk(c, s) && Enabled(c, s, Mark(w)) && ReturnedOk(c, s, i)
    ensures ReturnedOk(c, Do(c, s, Mark(w)), i)
  {
    forall u | Shows(u, s.log[i].op.row)
      ensures Covered(c, Do(c, s, Mark(w)), i, u)
    {
      MarkCovers(c, s, w, i, u);
    }
  }

  /** Steps that leave log, replicas and earlier returns alone do not concern the readers. */
  lemma ReadersKeep(s: State, s': State)
    requires s'.log == s.log && s'.replicas == s.replicas && s'.readers == s.readers && s.returned <= s'.returned
    requires forall id :: id in s.readers ==> ReaderOk(s, s.readers[id])
    ensures forall id :: id in s'.readers ==> ReaderOk(s', s'.readers[id])
  {
    forall id | id in s'.readers
      ensures ReaderOk(s', s'.readers[id])
    {
      assert ReaderOk(s, s.readers[id]);
    }
  }

  lemma MarkKeepsInv(c: Config, s: State, w: nat)
    requires Inv(c, s) && Enabled(c, s, Mark(w))
    ensures Inv(c, Do(c, s, Mark(w)))
  {
    var s' := Do(c, s, Mark(w));
    MarkKeepsClock(c, s, w);
    forall i | i in s'.returned
      ensures ReturnedOk(c, s', i)
    {
      MarkKeepsReturned(c, s, w, i);
    }
    forall v | v in s'.writers
      ensures WriterOk(c, s', s'.writers[v])
    {
      MarkKeepsWriter(c, s, w, v);
    }
    ReadersKeep(s, s');
  }

  lemma ReturnKeepsInv(c: Config, s: State, w: nat)
    requires Inv(c, s) && Enabled(c, s, Return(w))
    ensures Inv(c, Do(c, s, Return(w)))
  {
    var s' := Do(c, s, Return(w));
    assert forall i, u :: Covered(c, s, i, u) ==> Covered(c, s', i, u);
    assert WriterOk(c, s, s.writers[w]);
    forall i | i in s'.returned
      ensures ReturnedOk(c, s', i)
    {
      assert i in s.returned ==> ReturnedOk(c, s, i);
    }
    forall v | v in s'.writers
      ensures WriterOk(c, s', s'.writers[v])
    {
      assert WriterOk(c, s, s.writers[v]);
    }
    ReadersKeep(s, s');
  }

  lemma MarkOnlyKeepsInv(c: Config, s: State, user: int)
    requires Inv(c, s)
    ensures Inv(c, Do(c, s, MarkOnly(user)))
  {
    var s' := Do(c, s, MarkOnly(user));
    assert forall i, u :: Covered(c, s, i, u) ==> Covered(c, s', i, u);
    forall i | i in s'.returned
      ensures ReturnedOk(c, s', i)
    {
      assert ReturnedOk(c, s, i);
    }
    forall v | v in s'.writers
      ensures WriterOk(c, s', s'.writers[v])
    {
      assert WriterOk(c, s, s.writers[v]);
    }
    ReadersKeep(s, s');
  }

  lemma ReplicateKeepsInv(c: Config, s: State, r: nat)
    requires Inv(c, s) && Enabled(c, s, Replicate(r))
    ensures Inv(c, Do(c, s, Replicate(r)))
  {
    var s' := Do(c, s, Replicate(r));
    assert forall i: nat, u :: Covered(c, s, i, u) ==> Covered(c, s', i, u);
    forall id | id in s'.readers
      ensures ReaderOk(s', s'.readers[id])
    {
      assert ReaderOk(s, s.readers[id]);
    }
  }

  /** The heart: with the marker gone, the write is at least `ttl` old and every replica has it. */
  lemma UnmarkedMeansReplicated(c: Config, s: State, user: int, i: nat, r: nat)
    requires Inv(c, s) && c.lag <= c.ttl && !Marked(s.expiry, user, s.clock)
    requires i in s.returned && i < |s.log| && Shows(user, s.log[i].op.row) && r in s.replicas
    ensures i < s.replicas[r]
  {
    assert ReturnedOk(c, s, i);
    assert Covered(c, s, i, user);
  }

  lemma ReaderStepKeepsInv(c: Config, s: State, step: Step)
    requires c.lag <= c.ttl && Inv(c, s) && Enabled(c, s, step) && (step.Begin? || step.Check? || step.Read?)
    ensures Inv(c, Do(c, s, step))
  {
    var s' := Do(c, s, step);
    assert s' == s.(readers := s'.readers);
    forall i | i in s'.returned
      ensures ReturnedOk(c, s', i)
    {
      assert ReturnedOk(c, s, i);
    }
    forall w | w in s'.writers
      ensures WriterOk(c, s', s'.writers[w])
    {
      assert WriterOk(c, s, s.writers[w]);
    }
    MovedReaderOk(c, s, step);
    forall id | id in s'.readers
      ensures ReaderOk(s', s'.readers[id])
    {
      if id != step.id {
        assert ReaderOk(s, s.readers[id]);
      }
    }
  }

  /** The reader that moved; a Check that finds no marker relies on replication. */
  lemma MovedReaderOk(c: Config, s: State, step: Step)
    requires c.lag <= c.ttl && Inv(c, s) && Enabled(c, s, step) && (step.Begin? || step.Check? || step.Read?)
    ensures ReaderOk(Do(c, s, step), Do(c, s, step).readers[step.id])
  {
    if !step.Begin? {
      var q := s.readers[step.id];
      assert ReaderOk(s, q);
      if step.Check? && !Marked(s.expiry, q.user, s.clock) {
        forall i: nat, r | Owed(s.log, q.user, q.before, i) && r in s.replicas
          ensures i < s.replicas[r]
        {
          UnmarkedMeansReplicated(c, s, q.user, i, r);
        }
      }
    }
  }

  lemma StepKeepsInv(c: Config, s: State, step: Step)
    requires 0 < c.lag <= c.ttl && Inv(c, s) && Enabled(c, s, step)
    ensures Inv(c, Do(c, s, step))
  {
    match step
    case Tick => TickKeepsInv(c, s);
    case Commit(w, op) => CommitKeepsInv(c, s, w, op);
    case Mark(w) => MarkKeepsInv(c, s, w);
    case Return(w) => ReturnKeepsInv(c, s, w);
    case MarkOnly(user) => MarkOnlyKeepsInv(c, s, user);
    case Replicate(r) => ReplicateKeepsInv(c, s, r);
    case Begin(_, _) => ReaderStepKeepsInv(c, s, step);
    case Check(_) => ReaderStepKeepsInv(c, s, step);
    case Read(_, _) => ReaderStepKeepsInv(c, s, step);
  }

  // ---- Main results ---------------------------------------------------------------------

  ghost predicate Initial(s: State) {
    s.log == [] && s.expiry == map[] && s.writers == map[] && s.returned == {} && s.readers == map[]
    && forall r :: r in s.replicas ==> s.replicas[r] == 0
  }

  lemma InitialInv(c: Config, s: State)
    requires Initial(s)
    ensures Inv(c, s)
  {
  }

  /**
   If replicas lag by no more than the marker's lifetime, then in every interleaving a list
   request for a user sees every write on that user's rows that had returned before it began.
   */
  lemma {:induction false} ReadsSeeReturnedWrites(c: Config, s: State, steps: seq<Step>)
    requires 0 < c.lag <= c.ttl && Inv(c, s) && ValidSteps(c, s, steps)
    ensures Inv(c, Exec(c, s, steps))
    ensures forall id :: id in Exec(c, s, steps).readers && Exec(c, s, steps).readers[id].Answered? ==>
      var q := Exec(c, s, steps).readers[id];
      q.applied <= |Exec(c, s, steps).log| && forall i: nat :: Owed(Exec(c, s, steps).log, q.user, q.before, i) ==> i < q.applied
    decreases steps
  {
    if steps != [] {
      StepKeepsInv(c, s, steps[0]);
      ReadsSeeReturnedWrites(c, Do(c, s, steps[0]), steps[1..]);
    } else {
      forall id | id in s.readers && s.readers[id].Answered?
        ensures s.readers[id].applied <= |s.log| && forall i: nat :: Owed(s.log, s.readers[id].user, s.readers[id].before, i) ==> i < s.readers[id].applied
      {
        assert ReaderOk(s, s.readers[id]);
      }
    }
  }

  /** What seeing a write means: unless a later write touched the row, the answer reflects it. */
  lemma {:induction false} AnswerReflectsWrite(log: seq<Write>, i: nat, applied: nat)
    requires i < applied <= |log|
    requires forall j :: i < j < applied ==> log[j].op.row != log[i].op.row
    ensures log[i].op.row in RowsAfter(log[..applied]) <==> log[i].op.Put?
  {
    assert log[..applied][..applied - 1] == log[..applied - 1];
    if applied > i + 1 {
      AnswerReflectsWrite(log, i, applied - 1);
    }
  }

  /** The rows the answer lists: those of the user among the rows of the writes it has seen. */
  ghost function Listed(t: State, id: nat): set<Row>
    requires id in t.readers && t.readers[id].Answered? && t.readers[id].applied <= |t.log|
  {
    set row | row in RowsAfter(t.log[..t.readers[id].applied]) && Shows(t.readers[id].user, row)
  }

  ghost predicate LastOnItsRow(log: seq<Write>, i: nat)
    requires i < |log|
  {
    forall j :: i < j < |log| ==> log[j].op.row != log[i].op.row
  }

  ghost predicate Reflects(t: State, id: nat, i: nat)
    requires id in t.readers && t.readers[id].Answered? && i < |t.log|
  {
    && t.readers[id].applied <= |t.log|
    && (t.log[i].op.row in Listed(t, id) <==> t.log[i].op.Put?)
  }

  /**
   Together: whatever a call did to a row that the user's list shows, if it had returned before
   the request and nothing touched the row since, is what the list shows.
   */
  lemma ListsReflectReturnedWrites(c: Config, s: State, steps: seq<Step>, id: nat, i: nat)
    requires 0 < c.lag <= c.ttl && Inv(c, s) && ValidSteps(c, s, steps)
    requires id in Exec(c, s, steps).readers && Exec(c, s, steps).readers[id].Answered?
    requires i in Exec(c, s, steps).readers[id].before && i < |Exec(c, s, steps).log|
    requires Shows(Exec(c, s, steps).readers[id].user, Exec(c, s, steps).log[i].op.row)
    requires LastOnItsRow(Exec(c, s, steps).log, i)
    ensures Reflects(Exec(c, s, steps), id, i)
  {
    ReadsSeeReturnedWrites(c, s, steps);
    var t := Exec(c, s, steps);
    assert Owed(t.log, t.readers[id].user, t.readers[id].before, i);
    AnswerReflectsWrite(t.log, i, t.readers[id].applied);
  }

  // ---- Calls return ----------------------------------------------------------------------

  ghost predicate FullyMarked(c: Config, s: State, user: int) {
    user in s.expiry && s.expiry[user] == s.clock + c.ttl
  }

  /** The marks a call still owes, and its return. */
  lemma {:induction false} MarksThenReturn(c: Config, s: State, w: nat) returns (steps: seq<Step>)
    requires w in s.writers
    ensures ValidSteps(c, s, steps) && Exec(c, s, steps).log == s.log
    ensures Exec(c, s, steps).returned == s.returned + {s.writers[w].index}
    ensures forall u :: u in s.writers[w].todo || FullyMarked(c, s, u) ==> FullyMarked(c, Exec(c, s, steps), u)
    ensures Exec(c, s, steps).clock == s.clock
    decreases |s.writers[w].todo|
  {
    if s.writers[w].todo == [] {
      steps := [Return(w)];
      assert steps[1..] == [];
    } else {
      assert forall u :: FullyMarked(c, s, u) ==> FullyMarked(c, Do(c, s, Mark(w)), u);
      var rest := MarksThenReturn(c, Do(c, s, Mark(w)), w);
      steps := [Mark(w)] + rest;
      assert steps[1..] == rest;
    }
  }

  /**
   Every follow of a row that is not there, unfollow of one that is, and deletion of a post can
   be made at any time, and its call can return: then its write is a returned one, and the
   marker of both ends of the edge, or of the post's author, has its whole lifetime ahead.
   */
  lemma CallsReturn(c: Config, s: State, w: nat, op: Op) returns (steps: seq<Step>)
    requires w !in s.writers
    requires || (op.Put? && op.row.FollowRow? && op.row !in RowsAfter(s.log))
             || (op.Drop? && (op.row.FollowRow? ==> op.row in RowsAfter(s.log)))
    ensures ValidSteps(c, s, [Commit(w, op)] + steps)
    ensures Exec(c, s, [Commit(w, op)] + steps).log == s.log + [Write(s.clock, op)]
    ensures |s.log| in Exec(c, s, [Commit(w, op)] + steps).returned
    ensures var t := Exec(c, s, [Commit(w, op)] + steps);
      && (op.row.FollowRow? ==> FullyMarked(c, t, op.row.follower) && FullyMarked(c, t, op.row.following))
      && (op.row.PostRow? ==> FullyMarked(c, t, op.row.author))
  {
    steps := MarksThenReturn(c, Do(c, s, Commit(w, op)), w);
    assert ([Commit(w, op)] + steps)[1..] == steps;
  }

  // ---- The bound is needed ----------------------------------------------------------------

  ghost predicate Reaches(c: Config, s: State, t: State) {
    exists steps :: ValidSteps(c, s, steps) && Exec(c, s, steps) == t
  }

  lemma ReachesStep(c: Config, s: State, step: Step, t: State)
    requires Enabled(c, s, step) && Reaches(c, Do(c, s, step), t)
    ensures Reaches(c, s, t)
  {
    var steps :| ValidSteps(c, Do(c, s, step), steps) && Exec(c, Do(c, s, step), steps) == t;
    var all := [step] + steps;
    assert all[1..] == steps && ValidSteps(c, s, all) && Exec(c, s, all) == t;
  }

  lemma {:induction false} ReachesTicks(c: Config, s: State, n: nat, t: State)
    requires LagBounded(c, s.(clock := s.clock + n)) && Reaches(c, s.(clock := s.clock + n), t)
    ensures Reaches(c, s, t)
    decreases n
  {
    if n > 0 {
      assert Enabled(c, s, Tick);
      ReachesTicks(c, Do(c, s, Tick), n - 1, t);
      ReachesStep(c, s, Tick, t);
    } else {
      assert s.(clock := s.clock + n) == s;
    }
  }

  /** Every answer shows what each call did that had returned before it, unless the row was touched since. */
  ghost predicate AnswersReflect(t: State) {
    forall id, i: nat :: id in t.readers && t.readers[id].Answered? && i in t.readers[id].before && i < |t.log| ==>
      (Shows(t.readers[id].user, t.log[i].op.row) && LastOnItsRow(t.log, i) ==> Reflects(t, id, i))
  }

  const edge := FollowRow(7, 8)

  function Start(): State {
    State(0, [], map[0 := 0], map[], map[], {}, map[])
  }

  /** `ttl` after user 7 followed user 8, with the one replica still without the row. */
  function Expired(c: Config): State {
    State(c.ttl, [Write(0, Put(edge))], map[0 := 0], map[7 := c.ttl, 8 := c.ttl], map[], {0}, map[])
  }

  function Stale(c: Config): State {
    Expired(c).(readers := map[0 := Answered(8, {0}, 0)])
  }

  lemma ReadAfterExpiry(c: Config)
    ensures Reaches(c, Expired(c), Stale(c))
  {
    var s := Expired(c);
    var begun := s.(readers := map[0 := Begun(8, {0})]);
    var routed := s.(readers := map[0 := Routed(8, {0}, Context(false))]);
    assert Reaches(c, Stale(c), Stale(c)) by {
      assert ValidSteps(c, Stale(c), []) && Exec(c, Stale(c), []) == Stale(c);
    }
    assert Do(c, routed, Read(0, 0)) == Stale(c);
    ReachesStep(c, routed, Read(0, 0), Stale(c));
    assert Do(c, begun, Check(0)) == routed;
    ReachesStep(c, begun, Check(0), Stale(c));
    assert Do(c, s, Begin(0, 8)) == begun;
    ReachesStep(c, s, Begin(0, 8), Stale(c));
  }

  /** For every lag above the lifetime some run answers a follower list without a follow that had returned. */
  lemma StaleBeyondTheLifetime(c: Config)
    requires c.ttl < c.lag
    ensures Initial(Start()) && Reaches(c, Start(), Stale(c)) && !AnswersReflect(Stale(c))
  {
    ReadAfterExpiry(c);
    assert Followed(c).(clock := Followed(c).clock + c.ttl) == Expired(c);
    ReachesTicks(c, Followed(c), c.ttl, Stale(c));
    MarksOf(c);
    ReachesStep(c, Marked2(c), Return(0), Stale(c));
    ReachesStep(c, Marked1(c), Mark(0), Stale(c));
    ReachesStep(c, Committed(c), Mark(0), Stale(c));
    ReachesStep(c, Start(), Commit(0, Put(edge)), Stale(c));
    NotReflected(c);
  }

  /** Right after the statement, after each mark, and when Follow has returned. */
  function Committed(c: Config): State {
    State(0, [Write(0, Put(edge))], map[0 := 0], map[], map[0 := Marking(0, [7, 8])], {}, map[])
  }

  function Marked1(c: Config): State {
    State(0, [Write(0, Put(edge))], map[0 := 0], map[7 := c.ttl], map[0 := Marking(0, [8])], {}, map[])
  }

  function Marked2(c: Config): State {
    State(0, [Write(0, Put(edge))], map[0 := 0], map[7 := c.ttl, 8 := c.ttl], map[0 := Marking(0, [])], {}, map[])
  }

  function Followed(c: Config): State {
    State(0, [Write(0, Put(edge))], map[0 := 0], map[7 := c.ttl, 8 := c.ttl], map[], {0}, map[])
  }

  lemma MarksOf(c: Config)
    ensures Enabled(c, Start(), Commit(0, Put(edge))) && Do(c, Start(), Commit(0, Put(edge))) == Committed(c)
    ensures Enabled(c, Committed(c), Mark(0)) && Do(c, Committed(c), Mark(0)) == Marked1(c)
    ensures Enabled(c, Marked1(c), Mark(0)) && Do(c, Marked1(c), Mark(0)) == Marked2(c)
    ensures Enabled(c, Marked2(c), Return(0)) && Do(c, Marked2(c), Return(0)) == Followed(c)
  {
    assert [7, 8][1..] == [8] && [8][1..] == [];
    assert map[7 := c.ttl][8 := c.ttl] == map[7 := c.ttl, 8 := c.ttl];
  }

  lemma NotReflected(c: Config)
    ensures !AnswersReflect(Stale(c))
  {
    var t := Stale(c);
    assert t.log[..0] == [];
    assert RowsAfter(t.log[..0]) == {};
    assert edge !in Listed(t, 0);
    assert Shows(8, t.log[0].op.row) && LastOnItsRow(t.log, 0) && !Reflects(t, 0, 0);
  }

  lemma RunsReflect(c: Config, s: State, steps: seq<Step>)
    requires 0 < c.lag <= c.ttl && Initial(s) && ValidSteps(c, s, steps)
    ensures AnswersReflect(Exec(c, s, steps))
  {
    var t := Exec(c, s, steps);
    InitialInv(c, s);
    forall id, i: nat | id in t.readers && t.readers[id].Answered? && i in t.readers[id].before && i < |t.log|
      ensures Shows(t.readers[id].user, t.log[i].op.row) && LastOnItsRow(t.log, i) ==> Reflects(t, id, i)
    {
      if Shows(t.readers[id].user, t.log[i].op.row) && LastOnItsRow(t.log, i) {
        ListsReflectReturnedWrites(c, s, steps, id, i);
      }
    }
  }

  ghost predicate RunReflects(c: Config, s: State, steps: seq<Step>)
    requires ValidSteps(c, s, steps)
  {
    AnswersReflect(Exec(c, s, steps))
  }

  /** Reads reflect all returned writes in every run if and only if the lag is within the marker's lifetime. */
  lemma LagWithinLifetimeIsExact(c: Config)
    requires c.lag > 0
    ensures c.lag <= c.ttl <==> forall s, steps :: Initial(s) && ValidSteps(c, s, steps) ==> RunReflects(c, s, steps)
  {
    if c.lag <= c.ttl {
      forall s, steps | Initial(s) && ValidSteps(c, s, steps)
        ensures RunReflects(c, s, steps)
      {
        RunsReflect(c, s, steps);
      }
    } else {
      StaleBeyondTheLifetime(c);
      var steps :| ValidSteps(c, Start(), steps) && Exec(c, Start(), steps) == Stale(c);
      assert !RunReflects(c, Start(), steps);
    }
  }
}
