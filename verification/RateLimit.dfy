/**
 The sliding-window limiter: prune and count in one round trip, record in a second one, with
 a sorted set whose member and score are both the request's millisecond stamp.
 */
module RateLimit {
  import opened Prelude
  import opened OrderedIds

  /** What pruning every score up to `now - window` leaves. */
  function Live(stamps: set<nat>, now: nat, window: nat): set<nat> {
    set x | x in stamps && now < x + window
  }

  /** The stamps in the half-open window of the given length that ends at `t`. */
  function InWindow(stamps: set<nat>, t: nat, window: nat): set<nat> {
    set x | x in stamps && x <= t < x + window
  }

  /** The slack on the key's own expiry, one second. */
  const Slack: nat := 1000

  class SlidingWindow {
    const limit: nat
    const window: nat
    var stamps: set<nat>
    var expiresAt: nat

    constructor (limit: nat, window: nat)
      ensures this.limit == limit && this.window == window && stamps == {} && expiresAt == 0
    {
      this.limit, this.window, stamps, expiresAt := limit, window, {}, 0;
    }

    /** The first pipeline and the decision; a refusal records nothing but still prunes. */
    method Check(now: nat) returns (allowed: bool)
      modifies this`stamps
      ensures stamps == Live(old(stamps), now, window)
      ensures allowed <==> |Live(old(stamps), now, window)| < limit
    {
      stamps := Live(stamps, now, window);
      allowed := |stamps| < limit;
    }

    /** The second pipeline: an equal stamp is the same member, so it is stored once. */
    method Record(stamp: nat, at: nat)
      modifies this
      ensures stamps == old(stamps) + {stamp} && expiresAt == at + window + Slack
    {
      stamps, expiresAt := stamps + {stamp}, at + window + Slack;
    }

    method SlidingWindowAllow(now: nat) returns (allowed: bool)
      modifies this
      ensures allowed <==> |set x | x in old(stamps) && x + window > now| < limit
      ensures forall x :: x in stamps <==> (x in old(stamps) && x + window > now) || (allowed && x == now)
      ensures expiresAt == if allowed then now + window + Slack else old(expiresAt)
    {
      assert Live(stamps, now, window) == set x | x in stamps && x + window > now;
      allowed := Check(now);
      if allowed {
        Record(now, now);
      }
    }
  }

  // ---- Concurrent requests on one key -----------------------------------------------------

  /** `inFlight` bounds the requests that are between their check and their record. */
  datatype Config = Config(limit: nat, window: nat, inFlight: nat)

  /** `allowed` is the history of admitted stamps; nothing in the program reads it. */
  datatype State = State(clock: nat, stamps: set<nat>, expiresAt: nat, pending: map<nat, nat>, allowed: set<nat>)

  datatype Step = Tick | Check(id: nat) | Record(id: nat) | Expire

  predicate Admits(c: Config, s: State) {
    |Live(s.stamps, s.clock, c.window)| < c.limit
  }

  predicate Enabled(c: Config, s: State, step: Step) {
    match step
    case Tick => true
    case Check(id) => id !in s.pending && (Admits(c, s) ==> |s.pending| < c.inFlight)
    case Record(id) => id in s.pending
    case Expire => s.expiresAt <= s.clock
  }

  function Do(c: Config, s: State, step: Step): State
    requires Enabled(c, s, step)
  {
    match step
    case Tick => s.(clock := s.clock + 1)
    case Check(id) =>
      var pruned := s.(stamps := Live(s.stamps, s.clock, c.window));
      if Admits(c, s) then pruned.(pending := s.pending[id := s.clock], allowed := s.allowed + {s.clock}) else pruned
    case Record(id) =>
      s.(stamps := s.stamps + {s.pending[id]}, expiresAt := s.clock + c.window + Slack, pending := s.pending - {id})
    case Expire => s.(stamps := {})
  }

  predicate ValidSteps(c: Config, s: State, steps: seq<Step>)
    decreases steps
  {
    steps == [] || (Enabled(c, s, steps[0]) && ValidSteps(c, Do(c, s, steps[0]), steps[1..]))
  }

  function Exec(c: Config, s: State, steps: seq<Step>): State
    requires ValidSteps(c, s, steps)
    decreases steps
  {
    if steps == [] then s else Exec(c, Do(c, s, steps[0]), steps[1..])
  }

  function Initial(clock: nat): State {
    State(clock, {}, 0, map[], {})
  }

  // ---- Invariant --------------------------------------------------------------------------

  /** An admitted stamp still inside the window is stored, or its record is still to come. */
  ghost predicate Remembered(c: Config, s: State) {
    && (forall x :: x in s.allowed ==> x <= s.clock)
    && (forall x :: x in s.allowed && s.clock < x + c.window ==> x in s.stamps || x in s.pending.Values)
    && s.stamps <= s.allowed && s.pending.Values <= s.allowed
    && (forall x :: x in s.stamps ==> x + c.window < s.expiresAt)
    && |s.pending| <= c.inFlight
  }

  /** The bound, for the windows that end at an admitted stamp. */
  ghost predicate Bounded(c: Config, s: State) {
    forall m :: m in s.allowed ==> |InWindow(s.allowed, m, c.window)| <= c.limit + c.inFlight - 1
  }

  ghost predicate Inv(c: Config, s: State) {
    Remembered(c, s) && Bounded(c, s)
  }

  lemma ValuesInsert<K, V>(m: map<K, V>, k: K, v: V)
    requires k !in m
    ensures m[k := v].Values == m.Values + {v}
  {
    var m' := m[k := v];
    assert m'[k] == v;
    forall x | x in m.Values
      ensures x in m'.Values
    {
      var j :| j in m && m[j] == x;
      assert m'[j] == x;
    }
  }

  lemma ValuesRemove<K, V>(m: map<K, V>, k: K)
    requires k in m
    ensures m.Values == (m - {k}).Values + {m[k]}
  {
    ValuesInsert(m - {k}, k, m[k]);
    assert (m - {k})[k := m[k]] == m;
  }

  lemma {:induction false} ValuesBound<K, V>(m: map<K, V>)
    ensures |m.Values| <= |m|
    decreases |m|
  {
    if m.Keys != {} {
      var k := Any(m.Keys);
      ValuesBound(m - {k});
      ValuesRemove(m, k);
    } else {
      assert m.Values == {};
    }
  }

  /** Everything admitted and still in the window is live in the sorted set or pending. */
  lemma WindowIsRemembered(c: Config, s: State)
    requires Remembered(c, s)
    ensures InWindow(s.allowed, s.clock, c.window) <= Live(s.stamps, s.clock, c.window) + s.pending.Values
    ensures |InWindow(s.allowed, s.clock, c.window)| <= |Live(s.stamps, s.clock, c.window)| + |s.pending|
  {
    var w, live, values := InWindow(s.allowed, s.clock, c.window), Live(s.stamps, s.clock, c.window), s.pending.Values;
    assert w <= live + values;
    SubsetSize(w, live + values);
    ValuesBound(s.pending);
  }

  lemma AdmissionKeepsBound(c: Config, s: State, id: nat)
    requires Inv(c, s) && Enabled(c, s, Check(id)) && Admits(c, s)
    ensures Bounded(c, Do(c, s, Check(id)))
  {
    var s', n := Do(c, s, Check(id)), s.clock;
    WindowIsRemembered(c, s);
    forall m | m in s'.allowed
      ensures |InWindow(s'.allowed, m, c.window)| <= c.limit + c.inFlight - 1
    {
      var before := InWindow(s.allowed, m, c.window);
      if m == n {
        SubsetSize(InWindow(s'.allowed, m, c.window), before + {n});
      } else {
        assert InWindow(s'.allowed, m, c.window) == before;
      }
    }
  }

  lemma CheckKeepsRemembered(c: Config, s: State, id: nat)
    requires Remembered(c, s) && Enabled(c, s, Check(id))
    ensures Remembered(c, Do(c, s, Check(id)))
  {
    if Admits(c, s) {
      ValuesInsert(s.pending, id, s.clock);
    }
  }

  lemma RecordKeepsRemembered(c: Config, s: State, id: nat)
    requires Remembered(c, s) && Enabled(c, s, Record(id))
    ensures Remembered(c, Do(c, s, Record(id)))
  {
    ValuesRemove(s.pending, id);
    assert Do(c, s, Record(id)).pending.Keys == s.pending.Keys - {id};
  }

  lemma StepKeepsInv(c: Config, s: State, step: Step)
    requires Inv(c, s) && Enabled(c, s, step)
    ensures Inv(c, Do(c, s, step))
  {
    match step
    case Tick =>
    case Check(id) =>
      CheckKeepsRemembered(c, s, id);
      if Admits(c, s) {
        AdmissionKeepsBound(c, s, id);
      }
    case Record(id) => RecordKeepsRemembered(c, s, id);
    case Expire =>
  }

  /** A window that ends anywhere holds no more than the one that ends at its latest stamp. */
  lemma AnyWindow(c: Config, s: State, t: nat)
    requires c.inFlight > 0 && Bounded(c, s)
    ensures |InWindow(s.allowed, t, c.window)| <= c.limit + c.inFlight - 1
  {
    var w := InWindow(s.allowed, t, c.window);
    if w != {} {
      var m := MaxOf(w);
      SubsetSize(w, InWindow(s.allowed, m, c.window));
    }
  }

  // ---- Main results -----------------------------------------------------------------------

  lemma {:induction false} RunKeepsInv(c: Config, s: State, steps: seq<Step>)
    requires Inv(c, s) && ValidSteps(c, s, steps)
    ensures Inv(c, Exec(c, s, steps))
    decreases steps
  {
    if steps != [] {
      StepKeepsInv(c, s, steps[0]);
      RunKeepsInv(c, Do(c, s, steps[0]), steps[1..]);
    }
  }

  /**
   With at most `inFlight` requests between check and record, no window of the configured
   length holds more than limit + inFlight - 1 distinct admitted stamps, in any run.
   */
  lemma WindowBound(c: Config, clock: nat, steps: seq<Step>, t: nat)
    requires c.inFlight > 0 && ValidSteps(c, Initial(clock), steps)
    ensures |set x | x in Exec(c, Initial(clock), steps).allowed && x <= t < x + c.window| <= c.limit + c.inFlight - 1
  {
    assert InWindow(Exec(c, Initial(clock), steps).allowed, t, c.window)
      == set x | x in Exec(c, Initial(clock), steps).allowed && x <= t < x + c.window;
    RunKeepsInv(c, Initial(clock), steps);
    AnyWindow(c, Exec(c, Initial(clock), steps), t);
  }

  /**
   One at a time, a request is admitted exactly when fewer than `limit` distinct admitted stamps
   lie in its window, and never more than `limit` do.
   */
  lemma SequentialExact(c: Config, clock: nat, steps: seq<Step>, id: nat)
    requires c.inFlight == 1 && ValidSteps(c, Initial(clock), steps)
    requires Exec(c, Initial(clock), steps).pending == map[]
    ensures var s := Exec(c, Initial(clock), steps);
      && Enabled(c, s, Check(id))
      && |set x | x in s.allowed && x <= s.clock < x + c.window| <= c.limit
      && (id in Do(c, s, Check(id)).pending <==> |set x | x in s.allowed && x <= s.clock < x + c.window| < c.limit)
  {
    var s := Exec(c, Initial(clock), steps);
    RunKeepsInv(c, Initial(clock), steps);
    WindowIsRemembered(c, s);
    assert Live(s.stamps, s.clock, c.window) <= InWindow(s.allowed, s.clock, c.window);
    SubsetSize(Live(s.stamps, s.clock, c.window), InWindow(s.allowed, s.clock, c.window));
    AnyWindow(c, s, s.clock);
    assert InWindow(s.allowed, s.clock, c.window) == set x | x in s.allowed && x <= s.clock < x + c.window;
  }

  // ---- The bound is reached ----------------------------------------------------------------

  ghost predicate Reaches(c: Config, s: State, t: State) {
    exists steps :: ValidSteps(c, s, steps) && Exec(c, s, steps) == t
  }

  lemma {:induction false} ExecAppend(c: Config, s: State, steps: seq<Step>, last: Step)
    requires ValidSteps(c, s, steps) && Enabled(c, Exec(c, s, steps), last)
    ensures ValidSteps(c, s, steps + [last])
    ensures Exec(c, s, steps + [last]) == Do(c, Exec(c, s, steps), last)
    decreases steps
  {
    if steps == [] {
      assert steps + [last] == [last] && [last][1..] == [];
    } else {
      ExecAppend(c, Do(c, s, steps[0]), steps[1..], last);
      assert (steps + [last])[0] == steps[0] && (steps + [last])[1..] == steps[1..] + [last];
    }
  }

  lemma Then(c: Config, s: State, t: State, last: Step)
    requires Reaches(c, s, t) && Enabled(c, t, last)
    ensures Reaches(c, s, Do(c, t, last))
  {
    var steps :| ValidSteps(c, s, steps) && Exec(c, s, steps) == t;
    ExecAppend(c, s, steps, last);
  }

  function Below(n: nat): (r: set<nat>)
    ensures |r| == n
    ensures forall x: nat :: x in r <==> x < n
  {
    if n == 0 then {} else Below(n - 1) + {n - 1}
  }

  /** One request per millisecond: the first `done` recorded, `waiting` more admitted and not recorded. */
  ghost predicate Burst(s: State, done: nat, waiting: nat) {
    && s.clock == done + waiting
    && s.stamps == Below(done) && s.allowed == Below(s.clock)
    && (forall id :: id in s.pending ==> id < waiting) && |s.pending| == waiting
  }

  lemma CheckAdmits(c: Config, s: State, id: nat)
    requires id !in s.pending && |s.pending| < c.inFlight
    requires Live(s.stamps, s.clock, c.window) == s.stamps && |s.stamps| < c.limit
    ensures Enabled(c, s, Check(id))
    ensures Do(c, s, Check(id)) == s.(pending := s.pending[id := s.clock], allowed := s.allowed + {s.clock})
  {
  }

  /** The burst with one more request that is admitted and not recorded, a millisecond later. */
  function OneMore(s: State, id: nat): State {
    s.(clock := s.clock + 1, pending := s.pending[id := s.clock], allowed := s.allowed + {s.clock})
  }

  lemma BurstGrows(s: State, done: nat, waiting: nat)
    requires Burst(s, done, waiting)
    ensures waiting !in s.pending && Burst(OneMore(s, waiting), done, waiting + 1)
  {
    BelowNext(s.clock);
    PendingGrows(s.pending, OneMore(s, waiting).pending, waiting, s.clock);
  }

  lemma PendingGrows(pending: map<nat, nat>, pending': map<nat, nat>, id: nat, stamp: nat)
    requires pending' == pending[id := stamp] && forall k :: k in pending ==> k < id
    ensures id !in pending && |pending'| == |pending| + 1
    ensures forall k :: k in pending' ==> k < id + 1
  {
  }

  lemma AdmitOne(c: Config, s: State, done: nat, waiting: nat)
    requires Burst(s, done, waiting)
    requires done < c.limit && waiting < c.inFlight && done + waiting < c.window
    ensures Enabled(c, s, Check(waiting)) && Do(c, Do(c, s, Check(waiting)), Tick) == OneMore(s, waiting)
    ensures Burst(OneMore(s, waiting), done, waiting + 1)
  {
    NothingPruned(s.stamps, done, s.clock, c.window);
    BurstGrows(s, done, waiting);
    CheckAdmits(c, s, waiting);
  }

  lemma BelowNext(n: nat)
    ensures Below(n + 1) == Below(n) + {n}
  {
  }

  lemma NothingPruned(stamps: set<nat>, done: nat, now: nat, window: nat)
    requires stamps == Below(done) && now < window
    ensures Live(stamps, now, window) == stamps && |stamps| == done
  {
    assert forall x :: x in stamps ==> x in Live(stamps, now, window);
  }

  lemma RecordOne(c: Config, s: State, done: nat)
    requires Burst(s, done, 0) && done < c.limit && 0 < c.inFlight && done < c.window
    ensures Enabled(c, s, Check(0)) && Enabled(c, Do(c, s, Check(0)), Record(0))
    ensures Burst(Do(c, Do(c, Do(c, s, Check(0)), Record(0)), Tick), done + 1, 0)
  {
    AdmitOne(c, s, done, 0);
    var checked := Do(c, s, Check(0));
    assert checked.pending == map[0 := s.clock];
    var recorded := Do(c, checked, Record(0));
    assert recorded.pending.Keys == {};
    assert Below(done + 1) == Below(done) + {done};
  }

  lemma AdmitReached(c: Config, s: State, done: nat, waiting: nat) returns (t: State)
    requires Burst(s, done, waiting) && done < c.limit && waiting < c.inFlight && done + waiting < c.window
    requires Reaches(c, Initial(0), s)
    ensures Reaches(c, Initial(0), t) && Burst(t, done, waiting + 1)
  {
    AdmitOne(c, s, done, waiting);
    var checked := Do(c, s, Check(waiting));
    t := Do(c, checked, Tick);
    Then(c, Initial(0), s, Check(waiting));
    Then(c, Initial(0), checked, Tick);
  }

  lemma RecordReached(c: Config, s: State, done: nat) returns (t: State)
    requires Burst(s, done, 0) && done < c.limit && 0 < c.inFlight && done < c.window
    requires Reaches(c, Initial(0), s)
    ensures Reaches(c, Initial(0), t) && Burst(t, done + 1, 0)
  {
    RecordOne(c, s, done);
    var checked := Do(c, s, Check(0));
    var recorded := Do(c, checked, Record(0));
    t := Do(c, recorded, Tick);
    Then(c, Initial(0), s, Check(0));
    Then(c, Initial(0), checked, Record(0));
    Then(c, Initial(0), recorded, Tick);
  }

  lemma {:induction false} BurstReached(c: Config, done: nat, waiting: nat) returns (s: State)
    requires (waiting > 0 ==> done < c.limit) && done <= c.limit && waiting <= c.inFlight && done + waiting <= c.window
    requires 0 < c.inFlight
    ensures Reaches(c, Initial(0), s) && Burst(s, done, waiting)
    decreases done + waiting
  {
    if waiting > 0 {
      s := BurstReached(c, done, waiting - 1);
      s := AdmitReached(c, s, done, waiting - 1);
    } else if done > 0 {
      s := BurstReached(c, done - 1, 0);
      s := RecordReached(c, s, done - 1);
    } else {
      s := Initial(0);
      assert ValidSteps(c, s, []) && Exec(c, s, []) == s;
    }
  }

  /** Whenever the window is long enough to hold that many stamps, some run puts limit + inFlight - 1 in one window. */
  lemma BoundIsTight(c: Config)
    requires c.limit > 0 && c.inFlight > 0 && c.limit + c.inFlight - 1 <= c.window
    ensures exists steps, t: nat :: Filled(c, steps, t)
  {
    var n := c.limit + c.inFlight - 1;
    var s := BurstReached(c, c.limit - 1, c.inFlight);
    assert InWindow(s.allowed, n - 1, c.window) == Below(n);
    var steps :| ValidSteps(c, Initial(0), steps) && Exec(c, Initial(0), steps) == s;
    assert Filled(c, steps, n - 1);
  }

  /** A run that puts as many stamps into the window ending at `t` as `WindowBound` allows. */
  ghost predicate Filled(c: Config, steps: seq<Step>, t: nat) {
    && ValidSteps(c, Initial(0), steps)
    && |InWindow(Exec(c, Initial(0), steps).allowed, t, c.window)| == c.limit + c.inFlight - 1
  }
}
