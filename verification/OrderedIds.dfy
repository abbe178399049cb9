/** ORDER BY id [DESC] LIMIT n over a set of ids. */
module OrderedIds {
  import opened Prelude

  ghost function MaxOf(s: set<int>): (m: int)
    requires s != {}
    ensures m in s && forall x :: x in s ==> x <= m
  {
    var x := Any(s);
    if s == {x} then x
    else
      var y := MaxOf(s - {x});
      assert forall z :: z in s ==> z == x || z in s - {x};
      if x < y then y else x
  }

  ghost function MinOf(s: set<int>): (m: int)
    requires s != {}
    ensures m in s && forall x :: x in s ==> m <= x
  {
    var x := Any(s);
    if s == {x} then x
    else
      var y := MinOf(s - {x});
      assert forall z :: z in s ==> z == x || z in s - {x};
      if x < y then x else y
  }

  /** The `n` largest ids, largest first. */
  ghost function Top(s: set<int>, n: nat): seq<int> {
    if n == 0 || s == {} then [] else [MaxOf(s)] + Top(s - {MaxOf(s)}, n - 1)
  }

  /** The `n` smallest ids, smallest first. */
  ghost function Bottom(s: set<int>, n: nat): seq<int> {
    if n == 0 || s == {} then [] else [MinOf(s)] + Bottom(s - {MinOf(s)}, n - 1)
  }

  ghost predicate Descends(ids: seq<int>) {
    forall i, j :: 0 <= i < j < |ids| ==> ids[i] > ids[j]
  }

  ghost predicate Ascends(ids: seq<int>) {
    forall i, j :: 0 <= i < j < |ids| ==> ids[i] < ids[j]
  }

  lemma {:induction false} TopFacts(s: set<int>, n: nat)
    ensures |Top(s, n)| == if n < |s| then n else |s|
    ensures Descends(Top(s, n))
    ensures forall x :: x in Top(s, n) ==> x in s
    ensures forall x, y :: x in s && x !in Top(s, n) && y in Top(s, n) ==> x < y
  {
    if n > 0 && s != {} {
      var m := MaxOf(s);
      TopFacts(s - {m}, n - 1);
      var rest := Top(s - {m}, n - 1);
      assert forall i :: 0 <= i < |rest| ==> rest[i] in rest;
    }
  }

  lemma {:induction false} BottomFacts(s: set<int>, n: nat)
    ensures |Bottom(s, n)| == if n < |s| then n else |s|
    ensures Ascends(Bottom(s, n))
    ensures forall x :: x in Bottom(s, n) ==> x in s
    ensures forall x, y :: x in s && x !in Bottom(s, n) && y in Bottom(s, n) ==> y < x
  {
    if n > 0 && s != {} {
      var m := MinOf(s);
      BottomFacts(s - {m}, n - 1);
      var rest := Bottom(s - {m}, n - 1);
      assert forall i :: 0 <= i < |rest| ==> rest[i] in rest;
    }
  }

  /** Cutting an over-fetch by one back to `n` is asking for `n`. */
  lemma {:induction false} TopPrefix(s: set<int>, n: nat)
    ensures Top(s, n) == if |Top(s, n + 1)| > n then Top(s, n + 1)[..n] else Top(s, n + 1)
  {
    if n > 0 && s != {} {
      TopPrefix(s - {MaxOf(s)}, n - 1);
    }
  }
}
