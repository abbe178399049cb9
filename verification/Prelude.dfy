/** Shared vocabulary: optional values, clamping at zero, and sums over maps and sequences. */
module Prelude {

  datatype Option<+T> = None | Some(value: T)

  /** MySQL's GREATEST(0, x) on a column that is INT UNSIGNED. */
  function Max0(x: int): nat {
    if x < 0 then 0 else x
  }

  /** The value a map holds for a key, 0 when absent: Go's read of a missing map entry. */
  function At<K>(m: map<K, int>, k: K): int {
    if k in m then m[k] else 0
  }

  /** Some member of a set that has one. */
  ghost function Any<T>(s: set<T>): (x: T)
    requires s != {}
    ensures x in s
  {
    var x :| x in s;
    x
  }

  /** Takes a member out of a set in no particular order: one step of Go's `range` over a map. */
  method Pick<T(==)>(s: set<T>) returns (x: T, rest: set<T>)
    requires s != {}
    ensures x in s && rest == s - {x} && |rest| < |s|
  {
    x :| x in s;
    rest := s - {x};
  }

  /** The sum of all the values of a map. */
  ghost function Sum<K>(m: map<K, int>): int {
    if m == map[] then 0 else
      var k :| k in m;
      m[k] + Sum(m - {k})
  }

  /** Any key may be taken out first. */
  lemma {:induction false} SumRemove<K>(m: map<K, int>, k: K)
    requires k in m
    ensures Sum(m) == m[k] + Sum(m - {k})
  {
    var j :| j in m && Sum(m) == m[j] + Sum(m - {j});
    if j != k {
      SumRemove(m - {j}, k);
      SumRemove(m - {k}, j);
      assert m - {j} - {k} == m - {k} - {j};
    }
  }

  lemma SumInsert<K>(m: map<K, int>, k: K, v: int)
    requires k !in m
    ensures Sum(m[k := v]) == Sum(m) + v
  {
    SumRemove(m[k := v], k);
    assert m[k := v] - {k} == m;
  }

  /** Adding `v` to one entry adds `v` to the sum. */
  lemma SumBump<K>(m: map<K, int>, k: K, v: int)
    ensures Sum(m[k := At(m, k) + v]) == Sum(m) + v
  {
    var m' := m[k := At(m, k) + v];
    SumRemove(m', k);
    assert m' - {k} == m - {k};
    if k in m {
      SumRemove(m, k);
    } else {
      assert m - {k} == m;
    }
  }

  lemma {:induction false} SumNonNegative<K>(m: map<K, int>)
    requires forall k :: k in m ==> m[k] >= 0
    ensures Sum(m) >= 0
    ensures forall k :: k in m ==> m[k] <= Sum(m)
    decreases |m|
  {
    forall k | k in m
      ensures 0 <= m[k] <= Sum(m)
    {
      SumRemove(m, k);
      SumNonNegative(m - {k});
    }
    if m != map[] {
      var k :| k in m;
      assert 0 <= m[k] <= Sum(m);
    }
  }

  /** `base` with every entry of `d` added to it. */
  function Plus<K>(base: map<K, int>, d: map<K, int>): map<K, int> {
    map k | k in base :: base[k] + At(d, k)
  }

  lemma PlusStep<K>(base: map<K, int>, d: map<K, int>, k: K)
    requires k in d && k in base
    ensures Plus(base, d) == Plus(base, d - {k})[k := At(Plus(base, d - {k}), k) + d[k]]
  {
    var rest := Plus(base, d - {k});
    assert rest[k] == base[k];
    forall j | j in base
      ensures Plus(base, d)[j] == rest[k := At(rest, k) + d[k]][j]
    {
      assert j != k ==> At(d - {k}, j) == At(d, j);
    }
  }

  lemma {:induction false} SumPlus<K>(base: map<K, int>, d: map<K, int>)
    requires d.Keys <= base.Keys
    ensures Sum(Plus(base, d)) == Sum(base) + Sum(d)
    decreases |d|
  {
    if d == map[] {
      PlusNothing(base);
    } else {
      var k :| k in d;
      SumRemove(d, k);
      SumPlus(base, d - {k});
      SumPlusOne(base, d, k);
    }
  }

  lemma PlusNothing<K>(base: map<K, int>)
    ensures Plus(base, map[]) == base
  {
  }

  lemma SumPlusOne<K>(base: map<K, int>, d: map<K, int>, k: K)
    requires k in d && k in base
    ensures Sum(Plus(base, d)) == Sum(Plus(base, d - {k})) + d[k]
  {
    PlusStep(base, d, k);
    SumBump(Plus(base, d - {k}), k, d[k]);
  }

  /** A set that is disjoint from another counts beside it. */
  lemma SubsetSize<T>(a: set<T>, b: set<T>)
    requires a <= b
    ensures |a| <= |b|
    ensures |b - a| == |b| - |a|
  {
    assert b == a + (b - a);
  }

  /** Moving the head of `b` to the end of `a` keeps the whole. */
  lemma MoveHead<T>(a: seq<T>, b: seq<T>)
    requires b != []
    ensures a + [b[0]] + b[1..] == a + b
  {
  }

  lemma Assoc<T>(a: seq<T>, b: seq<T>, c: seq<T>)
    ensures a + b + c == a + (b + c)
  {
  }
}
