/**
 Proportional redistribution of a batch's real row count over the posts the batch
 touched: `scaleDeltas` of the like consumer.
 */
module Scaling {
  import opened Prelude

  datatype Bucket = Bucket(postID: int, count: int)

  // ---- Specification -------------------------------------------------------------

  ghost function Entries(perPost: map<int, int>): set<Bucket> {
    set p | p in perPost :: Bucket(p, perPost[p])
  }

  /** `bs` holds every entry of `perPost` exactly once, in some order. */
  ghost predicate Lists(bs: seq<Bucket>, perPost: map<int, int>) {
    multiset(bs) == multiset(Entries(perPost))
  }

  predicate Positive<P(!new)>(perPost: map<P, int>) {
    forall p :: p in perPost ==> perPost[p] > 0
  }

  predicate SortedDesc(bs: seq<Bucket>) {
    forall i, j :: 0 <= i < j < |bs| ==> bs[i].count >= bs[j].count
  }

  /** A new bucket goes behind every bucket that is at least as large. */
  function InsertDesc(bs: seq<Bucket>, b: Bucket): seq<Bucket> {
    if bs == [] || bs[|bs| - 1].count >= b.count then bs + [b]
    else InsertDesc(bs[..|bs| - 1], b) + [bs[|bs| - 1]]
  }

  /** Stable descending order by count. */
  function SortDesc(bs: seq<Bucket>): (r: seq<Bucket>) {
    if bs == [] then [] else InsertDesc(SortDesc(bs[..|bs| - 1]), bs[|bs| - 1])
  }

  function Total(bs: seq<Bucket>): int {
    if bs == [] then 0 else Total(bs[..|bs| - 1]) + bs[|bs| - 1].count
  }

  /** The integer part of a bucket's proportional share. */
  function Share(b: Bucket, raw: int, landed: int): int
    requires raw > 0
  {
    b.count * landed / raw
  }

  function ShareSum(bs: seq<Bucket>, raw: int, landed: int): int
    requires raw > 0
  {
    if bs == [] then 0 else ShareSum(bs[..|bs| - 1], raw, landed) + Share(bs[|bs| - 1], raw, landed)
  }

  /** What bucket `i` gets: its rounded-down share, or for the last one all that is left. */
  function Allot(bs: seq<Bucket>, raw: int, landed: int, i: nat): int
    requires raw > 0 && i < |bs|
  {
    if i == |bs| - 1 then landed - ShareSum(bs[..i], raw, landed) else Share(bs[i], raw, landed)
  }

  /** The allotments of the first `n` buckets as a map; empty allotments are left out. */
  function Allotted(bs: seq<Bucket>, raw: int, landed: int, n: nat): map<int, int>
    requires raw > 0 && n <= |bs|
  {
    if n == 0 then map[]
    else
      var d := Allot(bs, raw, landed, n - 1);
      var m := Allotted(bs, raw, landed, n - 1);
      if d > 0 then m[bs[n - 1].postID := d] else m
  }

  /** A possible outcome of `scaleDeltas`; the order among equal counts follows the map iteration. */
  ghost predicate IsScaling(perPost: map<int, int>, raw: int, landed: int, scaled: map<int, int>) {
    if landed <= 0 then scaled == map[]
    else if landed >= raw then scaled == perPost
    else exists bs :: Lists(bs, perPost) && SortedDesc(bs) && scaled == Allotted(bs, raw, landed, |bs|)
  }

  // ---- Sorting -------------------------------------------------------------------

  lemma {:induction false} InsertDescProperties(bs: seq<Bucket>, b: Bucket)
    requires SortedDesc(bs)
    ensures SortedDesc(InsertDesc(bs, b))
    ensures multiset(InsertDesc(bs, b)) == multiset(bs) + multiset{b}
  {
    if bs != [] && bs[|bs| - 1].count < b.count {
      var init, last := bs[..|bs| - 1], bs[|bs| - 1];
      assert bs == init + [last];
      InsertDescProperties(init, b);
      AllAtLeast(InsertDesc(init, b), init, b, last.count);
      AppendSmallest(InsertDesc(init, b), last);
    }
  }

  lemma AllAtLeast(r: seq<Bucket>, init: seq<Bucket>, b: Bucket, count: int)
    requires multiset(r) == multiset(init) + multiset{b} && b.count >= count
    requires forall i :: 0 <= i < |init| ==> init[i].count >= count
    ensures forall i :: 0 <= i < |r| ==> r[i].count >= count
  {
    forall i | 0 <= i < |r|
      ensures r[i].count >= count
    {
      assert r[i] in multiset(r);
      if r[i] != b {
        assert r[i] in init;
      }
    }
  }

  lemma AppendSmallest(r: seq<Bucket>, last: Bucket)
    requires SortedDesc(r) && forall i :: 0 <= i < |r| ==> r[i].count >= last.count
    ensures SortedDesc(r + [last]) && multiset(r + [last]) == multiset(r) + multiset{last}
  {
  }

  lemma {:induction false} SortDescProperties(bs: seq<Bucket>)
    ensures SortedDesc(SortDesc(bs))
    ensures multiset(SortDesc(bs)) == multiset(bs)
  {
    if bs != [] {
      var init, last := bs[..|bs| - 1], bs[|bs| - 1];
      SortDescProperties(init);
      InsertDescProperties(SortDesc(init), last);
      LastCounted(bs);
    }
  }

  lemma LastCounted<T>(s: seq<T>)
    requires s != []
    ensures multiset(s) == multiset(s[..|s| - 1]) + multiset{s[|s| - 1]}
  {
    assert s == s[..|s| - 1] + [s[|s| - 1]];
  }

  lemma {:induction false} InsertDescAt(bs: seq<Bucket>, b: Bucket, j: nat)
    requires j <= |bs|
    requires forall k :: j <= k < |bs| ==> bs[k].count < b.count
    requires j > 0 ==> bs[j - 1].count >= b.count
    ensures InsertDesc(bs, b) == bs[..j] + [b] + bs[j..]
  {
    if j == |bs| {
      assert bs[..j] == bs && bs[j..] == [];
    } else {
      var init := bs[..|bs| - 1];
      InsertDescAt(init, b, j);
      assert init[..j] == bs[..j];
      assert init[j..] + [bs[|bs| - 1]] == bs[j..];
    }
  }

  lemma SortStep(bs: seq<Bucket>, i: nat)
    requires i < |bs|
    ensures SortDesc(bs[..i + 1]) == InsertDesc(SortDesc(bs[..i]), bs[i])
    ensures SortedDesc(SortDesc(bs[..i]))
  {
    SortDescProperties(bs[..i]);
    assert bs[..i + 1][..i] == bs[..i];
  }

  /** The prefix with the part behind `j` shifted by one and `b` in the gap is the insertion. */
  lemma Shifted(pre: seq<Bucket>, now: seq<Bucket>, b: Bucket, j: nat)
    requires |now| == |pre| + 1 && j <= |pre| && now[j] == b && (j > 0 ==> b.count <= pre[j - 1].count)
    requires forall k :: 0 <= k < j ==> now[k] == pre[k]
    requires forall k :: j < k < |now| ==> now[k] == pre[k - 1] && now[k].count < b.count
    ensures now == InsertDesc(pre, b)
  {
    forall k | j <= k < |pre|
      ensures pre[k].count < b.count
    {
      assert now[k + 1] == pre[k];
    }
    InsertDescAt(pre, b, j);
    assert now == pre[..j] + [b] + pre[j..];
  }

  /** The insertion sort, swapping neighbours in place. */
  method SortBuckets(a: array<Bucket>)
    modifies a
    ensures a[..] == SortDesc(old(a[..]))
  {
    ghost var was := a[..];
    if a.Length == 0 {
      return;
    }
    SortStep(was, 0);
    assert a[..1] == [was[0]];
    var i := 1;
    while i < a.Length
      invariant 1 <= i <= a.Length
      invariant a[..i] == SortDesc(was[..i])
      invariant a[i..] == was[i..]
    {
      SortStep(was, i);
      assert a[i] == a[i..][0] && was[i] == was[i..][0];
      SinkBucket(a, i);
      assert a[i + 1..] == was[i..][1..];
      i := i + 1;
    }
    assert a[..a.Length] == a[..] && was[..a.Length] == was;
  }

  /** The inner loop: bucket `i` sinks left past every smaller bucket. */
  method SinkBucket(a: array<Bucket>, i: nat)
    requires 0 < i < a.Length && SortedDesc(a[..i])
    modifies a
    ensures a[..i + 1] == InsertDesc(old(a[..i]), old(a[i]))
    ensures a[i + 1..] == old(a[i + 1..])
  {
    ghost var pre, b := a[..i], a[i];
    var j := i;
    while j > 0 && a[j].count > a[j - 1].count
      invariant 0 <= j <= i
      invariant a[j] == b
      invariant forall k :: 0 <= k < j ==> a[k] == pre[k]
      invariant forall k :: j < k <= i ==> a[k] == pre[k - 1] && a[k].count < b.count
      invariant a[i + 1..] == old(a[i + 1..])
    {
      a[j], a[j - 1] := a[j - 1], a[j];
      j := j - 1;
    }
    Shifted(pre, a[..i + 1], b, j);
  }

  // ---- What a listing knows about its map ------------------------------------------

  /** The buckets are entries of the map, each for a post of its own. */
  ghost predicate Covers(bs: seq<Bucket>, perPost: map<int, int>) {
    && (forall i :: 0 <= i < |bs| ==> bs[i].postID in perPost && perPost[bs[i].postID] == bs[i].count)
    && (forall i, j :: 0 <= i < j < |bs| ==> bs[i].postID != bs[j].postID)
  }

  lemma ListsInit(bs: seq<Bucket>, perPost: map<int, int>)
    requires Lists(bs, perPost) && bs != []
    ensures var b := bs[|bs| - 1];
      && b.postID in perPost && perPost[b.postID] == b.count
      && Lists(bs[..|bs| - 1], perPost - {b.postID})
  {
    var init, b := bs[..|bs| - 1], bs[|bs| - 1];
    assert bs == init + [b];
    assert b in multiset(bs);
    assert b in Entries(perPost);
    EntriesMinus(perPost, b.postID);
    assert multiset(init) == multiset(Entries(perPost)) - multiset{b};
    assert multiset(Entries(perPost)) - multiset{b} == multiset(Entries(perPost) - {b});
  }

  lemma EntriesMinus(perPost: map<int, int>, p: int)
    requires p in perPost
    ensures Entries(perPost - {p}) == Entries(perPost) - {Bucket(p, perPost[p])}
  {
    var b, l, r := Bucket(p, perPost[p]), Entries(perPost - {p}), Entries(perPost);
    forall x
      ensures x in l <==> x in r - {b}
    {
      if x in r - {b} {
        assert x == Bucket(x.postID, perPost[x.postID]);
        assert x.postID != p;
        assert x.postID in perPost - {p};
      }
    }
  }

  lemma {:induction false} ListedEntries(bs: seq<Bucket>, perPost: map<int, int>)
    requires Lists(bs, perPost)
    ensures Covers(bs, perPost)
    ensures Total(bs) == Sum(perPost) && |bs| == |perPost|
  {
    if bs == [] {
      if perPost.Keys != {} {
        var p := Any(perPost.Keys);
        ListedAt(bs, perPost, p);
        assert false;
      }
    } else {
      var init, b := bs[..|bs| - 1], bs[|bs| - 1];
      var rest := perPost - {b.postID};
      ListsInit(bs, perPost);
      ListedEntries(init, rest);
      SumRemove(perPost, b.postID);
      CoversOneMore(bs, perPost);
      assert perPost == rest[b.postID := b.count];
    }
  }

  lemma CoversOneMore(bs: seq<Bucket>, perPost: map<int, int>)
    requires bs != [] && bs[|bs| - 1].postID in perPost && perPost[bs[|bs| - 1].postID] == bs[|bs| - 1].count
    requires Covers(bs[..|bs| - 1], perPost - {bs[|bs| - 1].postID})
    ensures Covers(bs, perPost)
  {
    var init, b := bs[..|bs| - 1], bs[|bs| - 1];
    forall i | 0 <= i < |init|
      ensures bs[i].postID in perPost && perPost[bs[i].postID] == bs[i].count && bs[i].postID != b.postID
    {
      assert init[i].postID in perPost - {b.postID};
    }
  }

  lemma ListedAt(bs: seq<Bucket>, perPost: map<int, int>, p: int)
    requires Lists(bs, perPost) && p in perPost
    ensures exists i :: 0 <= i < |bs| && bs[i].postID == p
  {
    assert Bucket(p, perPost[p]) in multiset(Entries(perPost));
    var i :| 0 <= i < |bs| && bs[i] == Bucket(p, perPost[p]);
  }

  // ---- Bounds --------------------------------------------------------------------

  lemma ShareBounds(b: Bucket, raw: int, landed: int)
    requires raw > 0 && landed > 0 && b.count > 0
    ensures 0 <= Share(b, raw, landed)
    ensures raw * Share(b, raw, landed) <= b.count * landed <= raw * Share(b, raw, landed) + (raw - 1)
  {
    var x := b.count * landed;
    assert x == raw * (x / raw) + x % raw;
  }

  lemma BoundsStep(raw: int, landed: int, s: int, t: int, k: int, d: int, c: int)
    requires raw * s <= t * landed <= raw * s + k * (raw - 1)
    requires raw * d <= c * landed <= raw * d + (raw - 1)
    ensures raw * (s + d) <= (t + c) * landed <= raw * (s + d) + (k + 1) * (raw - 1)
  {
    assert raw * (s + d) == raw * s + raw * d;
    assert (t + c) * landed == t * landed + c * landed;
    assert (k + 1) * (raw - 1) == k * (raw - 1) + (raw - 1);
  }

  ghost predicate AllPositive(bs: seq<Bucket>) {
    forall i :: 0 <= i < |bs| ==> bs[i].count > 0
  }

  /** Rounding down loses less than one unit per bucket. */
  lemma {:induction false} ShareSumBounds(bs: seq<Bucket>, raw: int, landed: int)
    requires raw > 0 && landed > 0 && AllPositive(bs)
    ensures 0 <= ShareSum(bs, raw, landed)
    ensures raw * ShareSum(bs, raw, landed) <= Total(bs) * landed
    ensures Total(bs) * landed <= raw * ShareSum(bs, raw, landed) + |bs| * (raw - 1)
  {
    if bs != [] {
      var init, b := bs[..|bs| - 1], bs[|bs| - 1];
      ShareSumBounds(init, raw, landed);
      ShareBounds(b, raw, landed);
      BoundsStep(raw, landed, ShareSum(init, raw, landed), Total(init), |init|, Share(b, raw, landed), b.count);
    }
  }

  lemma {:induction false} TotalMonotone(bs: seq<Bucket>, n: nat)
    requires AllPositive(bs) && n <= |bs|
    ensures 0 <= Total(bs[..n]) <= Total(bs)
  {
    if n == |bs| {
      assert bs[..n] == bs;
      if n > 0 {
        TotalMonotone(bs[..n - 1], n - 1);
        assert bs[..n - 1][..n - 1] == bs[..n - 1];
      }
    } else {
      TotalMonotone(bs[..|bs| - 1], n);
      assert bs[..|bs| - 1][..n] == bs[..n];
    }
  }

  lemma FloorFits(raw: int, landed: int, s: int, t: int)
    requires 0 < raw && 0 < landed && t <= raw && raw * s <= t * landed
    ensures s <= landed
  {
    assert t * landed <= raw * landed;
    assert raw * (s - landed) <= 0;
  }

  /** No prefix of the rounded-down shares exceeds what there is to share out. */
  lemma PrefixFits(bs: seq<Bucket>, raw: int, landed: int, n: nat)
    requires raw > 0 && landed > 0 && AllPositive(bs) && Total(bs) == raw && n <= |bs|
    ensures 0 <= ShareSum(bs[..n], raw, landed) <= landed
  {
    ShareSumBounds(bs[..n], raw, landed);
    TotalMonotone(bs, n);
    FloorFits(raw, landed, ShareSum(bs[..n], raw, landed), Total(bs[..n]));
  }

  lemma AllotNonNegative(bs: seq<Bucket>, raw: int, landed: int, i: nat)
    requires raw > 0 && landed > 0 && AllPositive(bs) && Total(bs) == raw && i < |bs|
    ensures 0 <= Allot(bs, raw, landed, i) <= landed - ShareSum(bs[..i], raw, landed)
  {
    PrefixFits(bs, raw, landed, i);
    PrefixFits(bs, raw, landed, i + 1);
    ShareBounds(bs[i], raw, landed);
    assert bs[..i + 1][..i] == bs[..i];
  }

  // ---- The outcome ---------------------------------------------------------------

  lemma {:induction false} AllottedAt(bs: seq<Bucket>, perPost: map<int, int>, raw: int, landed: int, n: nat)
    requires Covers(bs, perPost) && raw > 0 && n <= |bs|
    ensures var m := Allotted(bs, raw, landed, n);
      && (forall i :: 0 <= i < n ==>
            if Allot(bs, raw, landed, i) > 0 then bs[i].postID in m && m[bs[i].postID] == Allot(bs, raw, landed, i)
            else bs[i].postID !in m)
      && (forall p :: p in m ==> m[p] > 0 && exists i :: 0 <= i < n && p == bs[i].postID)
  {
    if n > 0 {
      AllottedAt(bs, perPost, raw, landed, n - 1);
    }
  }

  lemma {:induction false} AllottedKeys(bs: seq<Bucket>, perPost: map<int, int>, raw: int, landed: int, n: nat)
    requires Covers(bs, perPost) && raw > 0 && n <= |bs|
    ensures Allotted(bs, raw, landed, n).Keys <= perPost.Keys
    ensures Positive(Allotted(bs, raw, landed, n))
  {
    if n > 0 {
      AllottedKeys(bs, perPost, raw, landed, n - 1);
    }
  }

  lemma {:induction false} AllottedSum(bs: seq<Bucket>, perPost: map<int, int>, raw: int, landed: int, n: nat)
    requires Covers(bs, perPost) && AllPositive(bs) && Total(bs) == raw && 0 < landed < raw && n <= |bs|
    ensures Sum(Allotted(bs, raw, landed, n)) == if n == |bs| then landed else ShareSum(bs[..n], raw, landed)
  {
    if n == 0 {
      assert bs != [];
    } else {
      AllottedSum(bs, perPost, raw, landed, n - 1);
      AllotNonNegative(bs, raw, landed, n - 1);
      NotYetAllotted(bs, perPost, raw, landed, n - 1);
      var m := Allotted(bs, raw, landed, n - 1);
      SumInsert(m, bs[n - 1].postID, Allot(bs, raw, landed, n - 1));
      assert bs[..n][..n - 1] == bs[..n - 1];
    }
  }

  lemma NotYetAllotted(bs: seq<Bucket>, perPost: map<int, int>, raw: int, landed: int, n: nat)
    requires Covers(bs, perPost) && raw > 0 && n < |bs|
    ensures bs[n].postID !in Allotted(bs, raw, landed, n)
  {
    AllottedAt(bs, perPost, raw, landed, n);
  }

  /** Once everything is shared out, the buckets that follow get nothing. */
  lemma {:induction false} NothingLeft(bs: seq<Bucket>, raw: int, landed: int, i: nat, n: nat)
    requires raw > 0 && landed > 0 && AllPositive(bs) && Total(bs) == raw && 0 < i <= n <= |bs| && i < |bs|
    requires ShareSum(bs[..i], raw, landed) == landed
    ensures Allotted(bs, raw, landed, n) == Allotted(bs, raw, landed, i)
    ensures n < |bs| ==> ShareSum(bs[..n], raw, landed) == landed
  {
    if n > i {
      NothingLeft(bs, raw, landed, i, n - 1);
      AllotNonNegative(bs, raw, landed, n - 1);
      assert bs[..n][..n - 1] == bs[..n - 1];
    }
  }

  /**
   The whole of `scaleDeltas`. The method keeps the clamp `d > remaining` and the early
   exit of `scaleDeltas`; its postcondition speaks of `Allotted`, which has neither, so
   the clamp never changes a share and the early exit never skips one.
   */
  method ScaleDeltas(perPost: map<int, int>, raw: int, landed: int) returns (scaled: map<int, int>)
    requires Positive(perPost) && Sum(perPost) == raw
    ensures IsScaling(perPost, raw, landed, scaled)
  {
    if landed <= 0 {
      return map[];
    }
    if landed >= raw {
      return perPost;
    }
    var buckets := CollectBuckets(perPost);
    ghost var unsorted := buckets[..];
    SortBuckets(buckets);
    SortDescProperties(unsorted);
    ListedEntries(buckets[..], perPost);
    assert AllPositive(buckets[..]);
    scaled := Distribute(buckets, raw, landed);
  }

  /** The distributing loop, over the sorted buckets. */
  method Distribute(buckets: array<Bucket>, raw: int, landed: int) returns (scaled: map<int, int>)
    requires AllPositive(buckets[..]) && Total(buckets[..]) == raw && 0 < landed < raw
    ensures scaled == Allotted(buckets[..], raw, landed, buckets.Length)
  {
    ghost var bs := buckets[..];
    scaled := map[];
    var remaining := landed;
    var i := 0;
    while i < buckets.Length
      invariant 0 <= i <= buckets.Length
      invariant i < buckets.Length ==> remaining == landed - ShareSum(bs[..i], raw, landed)
      invariant scaled == Allotted(bs, raw, landed, i)
    {
      var b := buckets[i];
      var d;
      AllotNonNegative(bs, raw, landed, i);
      if i == buckets.Length - 1 {
        d := remaining;
      } else {
        d := b.count * landed / raw;
        if d > remaining {
          d := remaining;
        }
      }
      assert d == Allot(bs, raw, landed, i);
      if d > 0 {
        scaled := scaled[b.postID := d];
      }
      remaining := remaining - d;
      assert bs[..i + 1][..i] == bs[..i];
      if remaining <= 0 {
        if i + 1 < buckets.Length {
          NothingLeft(bs, raw, landed, i + 1, |bs|);
        }
        return;
      }
      i := i + 1;
    }
  }

  lemma Collect(s: seq<Bucket>, perPost: map<int, int>, left: set<int>, k: int)
    requires k in left && k in perPost && Lists(s, perPost - left)
    ensures Lists(s + [Bucket(k, perPost[k])], perPost - (left - {k}))
  {
    var done, b := perPost - (left - {k}), Bucket(k, perPost[k]);
    EntriesMinus(done, k);
    assert done - {k} == perPost - left;
    assert b in Entries(done);
    assert multiset(Entries(done)) == multiset(Entries(done) - {b}) + multiset{b};
  }

  /** Iterates over the map in some order and collects its entries. */
  method CollectBuckets(perPost: map<int, int>) returns (buckets: array<Bucket>)
    ensures fresh(buckets) && Lists(buckets[..], perPost)
  {
    var s: seq<Bucket> := [];
    var left := perPost.Keys;
    while left != {}
      invariant left <= perPost.Keys
      invariant Lists(s, perPost - left)
      decreases |left|
    {
      var k, rest := Pick(left);
      Collect(s, perPost, left, k);
      s := s + [Bucket(k, perPost[k])];
      left := rest;
    }
    assert perPost - left == perPost;
    buckets := new Bucket[|s|](i requires 0 <= i < |s| => s[i]);
    assert buckets[..] == s;
  }

  // ---- Main results --------------------------------------------------------------

  /** The sorted listing behind an outcome. */
  lemma ScalingOrder(perPost: map<int, int>, raw: int, landed: int, scaled: map<int, int>) returns (bs: seq<Bucket>)
    requires Positive(perPost) && Sum(perPost) == raw && 0 < landed < raw
    requires IsScaling(perPost, raw, landed, scaled)
    ensures Covers(bs, perPost) && AllPositive(bs) && Total(bs) == raw && |bs| == |perPost| && SortedDesc(bs)
    ensures forall p :: p in perPost ==> exists i :: 0 <= i < |bs| && bs[i].postID == p
    ensures scaled == Allotted(bs, raw, landed, |bs|)
  {
    bs :| Lists(bs, perPost) && SortedDesc(bs) && scaled == Allotted(bs, raw, landed, |bs|);
    ListedEntries(bs, perPost);
    forall p | p in perPost
      ensures exists i :: 0 <= i < |bs| && bs[i].postID == p
    {
      ListedAt(bs, perPost, p);
    }
  }

  lemma ProperScalingConservesMass(perPost: map<int, int>, raw: int, landed: int, scaled: map<int, int>)
    requires Positive(perPost) && Sum(perPost) == raw && 0 < landed < raw
    requires IsScaling(perPost, raw, landed, scaled)
    ensures Sum(scaled) == landed
    ensures scaled.Keys <= perPost.Keys && Positive(scaled)
  {
    var bs := ScalingOrder(perPost, raw, landed, scaled);
    AllottedSum(bs, perPost, raw, landed, |bs|);
    AllottedKeys(bs, perPost, raw, landed, |bs|);
  }

  /** Mass is conserved, and only posts of the batch receive anything. */
  lemma ScalingConservesMass(perPost: map<int, int>, raw: int, landed: int, scaled: map<int, int>)
    requires Positive(perPost) && Sum(perPost) == raw && 0 <= landed <= raw
    requires IsScaling(perPost, raw, landed, scaled)
    ensures Sum(scaled) == landed
    ensures scaled.Keys <= perPost.Keys && Positive(scaled)
  {
    if landed == 0 {
      assert scaled == map[];
    } else if landed == raw {
      assert scaled == perPost;
    } else {
      ProperScalingConservesMass(perPost, raw, landed, scaled);
    }
  }

  /**
   The error against the exact proportional share, in units of 1/raw: every bucket but
   the last gets too little, by less than one; the last, which is a smallest bucket and
   not the largest, gets all that rounding left over, less than k - 1 too much.
   */
  lemma ScalingError(perPost: map<int, int>, raw: int, landed: int, scaled: map<int, int>)
    requires Positive(perPost) && Sum(perPost) == raw && 0 < landed < raw
    requires IsScaling(perPost, raw, landed, scaled)
    ensures exists last ::
      && last in perPost
      && (forall p :: p in perPost ==> perPost[last] <= perPost[p])
      && (forall p :: p in perPost && p != last ==>
            0 <= perPost[p] * landed - raw * At(scaled, p) < raw)
      && 0 <= raw * At(scaled, last) - perPost[last] * landed <= (|perPost| - 1) * (raw - 1)
  {
    var bs := ScalingOrder(perPost, raw, landed, scaled);
    var n := |bs| - 1;
    var last := bs[n].postID;
    forall p | p in perPost
      ensures perPost[last] <= perPost[p]
      ensures p != last ==> 0 <= perPost[p] * landed - raw * At(scaled, p) < raw
    {
      var i :| 0 <= i < |bs| && bs[i].postID == p;
      if i < n {
        ShareError(bs, perPost, raw, landed, i);
      }
    }
    LastError(bs, perPost, raw, landed);
  }

  lemma AllottedValue(bs: seq<Bucket>, perPost: map<int, int>, raw: int, landed: int, i: nat)
    requires Covers(bs, perPost) && AllPositive(bs) && Total(bs) == raw && 0 < landed < raw && i < |bs|
    ensures At(Allotted(bs, raw, landed, |bs|), bs[i].postID) == Allot(bs, raw, landed, i)
  {
    AllottedAt(bs, perPost, raw, landed, |bs|);
    AllotNonNegative(bs, raw, landed, i);
  }

  lemma ShareError(bs: seq<Bucket>, perPost: map<int, int>, raw: int, landed: int, i: nat)
    requires Covers(bs, perPost) && AllPositive(bs) && Total(bs) == raw && 0 < landed < raw && i < |bs| - 1
    ensures 0 <= bs[i].count * landed - raw * At(Allotted(bs, raw, landed, |bs|), bs[i].postID) < raw
  {
    ShareBounds(bs[i], raw, landed);
    AllottedValue(bs, perPost, raw, landed, i);
  }

  lemma LastError(bs: seq<Bucket>, perPost: map<int, int>, raw: int, landed: int)
    requires Covers(bs, perPost) && AllPositive(bs) && Total(bs) == raw && 0 < landed < raw && bs != []
    ensures var b := bs[|bs| - 1];
      0 <= raw * At(Allotted(bs, raw, landed, |bs|), b.postID) - b.count * landed <= (|bs| - 1) * (raw - 1)
  {
    var n := |bs| - 1;
    ShareSumBounds(bs[..n], raw, landed);
    AllottedValue(bs, perPost, raw, landed, n);
    LastExcess(raw, landed, ShareSum(bs[..n], raw, landed), bs[n].count, n);
  }

  lemma LastExcess(raw: int, landed: int, s: int, c: int, k: int)
    requires raw * s <= (raw - c) * landed <= raw * s + k * (raw - 1)
    ensures 0 <= raw * (landed - s) - c * landed <= k * (raw - 1)
  {
    assert raw * (landed - s) == raw * landed - raw * s;
    assert (raw - c) * landed == raw * landed - c * landed;
  }

  /** A batch that touches a single post gives it exactly the real row count. */
  lemma SinglePost(p: int, raw: int, landed: int, scaled: map<int, int>)
    requires raw > 0 && 0 <= landed <= raw
    requires IsScaling(map[p := raw], raw, landed, scaled)
    ensures scaled == if landed == 0 then map[] else map[p := landed]
  {
    var perPost := map[p := raw];
    SumInsert(map[], p, raw);
    assert perPost == (map[])[p := raw];
    ScalingConservesMass(perPost, raw, landed, scaled);
    if p in scaled {
      SumRemove(scaled, p);
      assert scaled - {p} == map[];
      assert scaled == map[p := scaled[p]];
    } else {
      assert scaled == map[];
    }
  }

  // ---- Outcomes exist ---------------------------------------------------------------

  lemma ListsOneMore(bs: seq<Bucket>, perPost: map<int, int>, p: int)
    requires p in perPost && Lists(bs, perPost - {p})
    ensures Lists(bs + [Bucket(p, perPost[p])], perPost)
  {
    var b := Bucket(p, perPost[p]);
    EntriesMinus(perPost, p);
    assert b in Entries(perPost);
    assert Entries(perPost) == Entries(perPost - {p}) + {b};
  }

  lemma {:induction false} ListingExists(perPost: map<int, int>) returns (bs: seq<Bucket>)
    ensures Lists(bs, perPost) && SortedDesc(bs)
    decreases |perPost|
  {
    bs := [];
    if perPost.Keys == {} {
      assert Entries(perPost) == {};
    } else {
      var p := Any(perPost.Keys);
      var rest := ListingExists(perPost - {p});
      ListsOneMore(rest, perPost, p);
      bs := SortDesc(rest + [Bucket(p, perPost[p])]);
      SortDescProperties(rest + [Bucket(p, perPost[p])]);
    }
  }

  ghost predicate Smallest(perPost: map<int, int>, last: int) {
    last in perPost && forall p :: p in perPost ==> perPost[last] <= perPost[p]
  }

  lemma {:induction false} SmallestExists(perPost: map<int, int>) returns (last: int)
    requires perPost.Keys != {}
    ensures Smallest(perPost, last)
    decreases |perPost|
  {
    last := Any(perPost.Keys);
    assert forall p :: p in perPost ==> p == last || p in (perPost - {last}).Keys;
    if (perPost - {last}).Keys != {} {
      var other := SmallestExists(perPost - {last});
      if perPost[other] < perPost[last] {
        last := other;
      }
    }
  }

  /** Every bucket but `last` has its rounded-down share. */
  ghost predicate SharesBut(perPost: map<int, int>, raw: int, landed: int, scaled: map<int, int>, last: int) {
    forall p :: p in perPost && p != last ==> 0 <= perPost[p] * landed - raw * At(scaled, p) < raw
  }

  /** Any smallest bucket may come last. */
  lemma ScalingWithLast(perPost: map<int, int>, raw: int, landed: int, last: int) returns (scaled: map<int, int>)
    requires Positive(perPost) && Sum(perPost) == raw && 0 < landed < raw && Smallest(perPost, last)
    ensures IsScaling(perPost, raw, landed, scaled) && SharesBut(perPost, raw, landed, scaled, last)
  {
    var rest := ListingExists(perPost - {last});
    var bs := rest + [Bucket(last, perPost[last])];
    ListsOneMore(rest, perPost, last);
    ListedEntries(rest, perPost - {last});
    ListedEntries(bs, perPost);
    assert SortedDesc(bs);
    assert AllPositive(bs);
    scaled := Allotted(bs, raw, landed, |bs|);
    forall p | p in perPost && p != last
      ensures 0 <= perPost[p] * landed - raw * At(scaled, p) < raw
    {
      ListedAt(bs, perPost, p);
      var i :| 0 <= i < |bs| && bs[i].postID == p;
      assert i < |rest|;
      ShareError(bs, perPost, raw, landed, i);
    }
  }

  lemma ScalingExists(perPost: map<int, int>, raw: int, landed: int) returns (scaled: map<int, int>)
    requires Positive(perPost) && Sum(perPost) == raw
    ensures IsScaling(perPost, raw, landed, scaled)
  {
    if landed <= 0 {
      scaled := map[];
    } else if landed >= raw {
      scaled := perPost;
    } else {
      assert perPost.Keys == {} ==> perPost == map[];
      var last := SmallestExists(perPost);
      scaled := ScalingWithLast(perPost, raw, landed, last);
    }
  }

  /** The last bucket of an outcome. */
  lemma ScalingLast(perPost: map<int, int>, raw: int, landed: int, scaled: map<int, int>) returns (last: int)
    requires Positive(perPost) && Sum(perPost) == raw && 0 < landed < raw && IsScaling(perPost, raw, landed, scaled)
    ensures Smallest(perPost, last) && SharesBut(perPost, raw, landed, scaled, last)
  {
    var bs := ScalingOrder(perPost, raw, landed, scaled);
    last := bs[|bs| - 1].postID;
    forall p | p in perPost
      ensures perPost[last] <= perPost[p]
      ensures p != last ==> 0 <= perPost[p] * landed - raw * At(scaled, p) < raw
    {
      var i :| 0 <= i < |bs| && bs[i].postID == p;
      if i < |bs| - 1 {
        ShareError(bs, perPost, raw, landed, i);
      }
    }
  }
}
