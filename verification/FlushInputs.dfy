/** What a flush loop selects on while it runs: its channel, and its ticker. */
module FlushInputs {

  datatype Input<+T> = Received(item: T) | Ticker

  function Carried<T>(input: Input<T>): seq<T> {
    if input.Received? then [input.item] else []
  }

  /** What the loop has taken from its channel, in order. */
  function Arrived<T>(inputs: seq<Input<T>>): seq<T> {
    if inputs == [] then []
    else Arrived(inputs[..|inputs| - 1]) + Carried(inputs[|inputs| - 1])
  }

  /** Where an item was received. */
  function Receptions<T(==)>(inputs: seq<Input<T>>, x: T): set<int> {
    set i | 0 <= i < |inputs| && inputs[i] == Received(x)
  }

  /** Every item that is received is taken, behind the earlier ones; a tick takes nothing. */
  lemma ArrivedNext<T>(inputs: seq<Input<T>>, x: T)
    ensures Arrived<T>([]) == []
    ensures Arrived(inputs + [Received(x)]) == Arrived(inputs) + [x]
    ensures Arrived(inputs + [Ticker]) == Arrived(inputs)
  {
    assert (inputs + [Received(x)])[..|inputs|] == inputs;
    assert (inputs + [Ticker])[..|inputs|] == inputs;
  }

  lemma ReceptionsLast<T>(init: seq<Input<T>>, last: Input<T>, x: T)
    ensures |Receptions(init + [last], x)| == |Receptions(init, x)| + if last == Received(x) then 1 else 0
  {
    var before, after := Receptions(init, x), Receptions(init + [last], x);
    if last == Received(x) {
      assert after == before + {|init|};
    } else {
      assert after == before;
    }
  }

  /** An item has arrived as often as it was received. */
  lemma {:induction false} ArrivedCount<T>(inputs: seq<Input<T>>, x: T)
    ensures multiset(Arrived(inputs))[x] == |Receptions(inputs, x)|
  {
    if inputs != [] {
      var init, last := inputs[..|inputs| - 1], inputs[|inputs| - 1];
      assert inputs == init + [last];
      ArrivedCount(init, x);
      ReceptionsLast(init, last, x);
    }
  }

  lemma AllReceived<T(!new)>(inputs: seq<Input<T>>, rest: seq<T>)
    ensures forall x :: multiset(Arrived(inputs) + rest)[x] == |Receptions(inputs, x)| + multiset(rest)[x]
  {
    forall x
      ensures multiset(Arrived(inputs) + rest)[x] == |Receptions(inputs, x)| + multiset(rest)[x]
    {
      ArrivedCount(inputs, x);
    }
  }

  // ---- When a batch ends ----------------------------------------------------------------------

  /** The batches that have ended, and the items taken since. */
  datatype Batching<+T> = Batching(ended: seq<seq<T>>, open: seq<T>)

  /** A batch ends with the item that fills it, or with a tick if it has any item. */
  function BatchesAfter<T>(inputs: seq<Input<T>>, full: seq<T> -> bool): Batching<T> {
    if inputs == [] then Batching([], [])
    else NextBatching(BatchesAfter(inputs[..|inputs| - 1], full), inputs[|inputs| - 1], full)
  }

  function NextBatching<T>(b: Batching<T>, input: Input<T>, full: seq<T> -> bool): Batching<T> {
    var taken := b.open + Carried(input);
    if |taken| > 0 && (input.Ticker? || full(taken)) then Batching(b.ended + [taken], []) else Batching(b.ended, taken)
  }

  /** With the rest of the channel and the last flush. */
  function AllBatches<T>(inputs: seq<Input<T>>, full: seq<T> -> bool, rest: seq<T>): seq<seq<T>> {
    var b := BatchesAfter(inputs, full);
    if |b.open| + |rest| == 0 then b.ended else b.ended + [b.open + rest]
  }

  lemma BatchesNext<T>(inputs: seq<Input<T>>, i: nat, full: seq<T> -> bool)
    requires i < |inputs|
    ensures BatchesAfter(inputs[..i + 1], full) == NextBatching(BatchesAfter(inputs[..i], full), inputs[i], full)
  {
    assert inputs[..i + 1][..i] == inputs[..i];
  }

  lemma BatchingStep<T(!new)>(b: Batching<T>, input: Input<T>, full: seq<T> -> bool, ends: bool)
    requires ends <==> if input.Ticker? then |b.open| > 0 else full(b.open + [input.item])
    ensures NextBatching(b, input, full) ==
      if ends then Batching(b.ended + [b.open + Carried(input)], []) else Batching(b.ended, b.open + Carried(input))
  {
    assert b.open + [] == b.open;
  }

  /** An item ends the batch if and only if it fills it. */
  lemma ReceivedNext<T>(inputs: seq<Input<T>>, full: seq<T> -> bool, x: T)
    ensures var b, b' := BatchesAfter(inputs, full), BatchesAfter(inputs + [Received(x)], full);
      if full(b.open + [x]) then b' == Batching(b.ended + [b.open + [x]], []) else b' == Batching(b.ended, b.open + [x])
  {
    BatchesNext(inputs + [Received(x)], |inputs|, full);
    assert (inputs + [Received(x)])[..|inputs|] == inputs;
    assert (inputs + [Received(x)])[..|inputs| + 1] == inputs + [Received(x)];
  }

  /** After a tick everything taken is in a batch that has ended, and none of them is empty. */
  lemma TickNext<T>(inputs: seq<Input<T>>, full: seq<T> -> bool)
    ensures var b, b' := BatchesAfter(inputs, full), BatchesAfter(inputs + [Ticker], full);
      b' == Batching(b.ended + if |b.open| > 0 then [b.open] else [], [])
  {
    BatchesNext(inputs + [Ticker], |inputs|, full);
    assert (inputs + [Ticker])[..|inputs|] == inputs;
    assert (inputs + [Ticker])[..|inputs| + 1] == inputs + [Ticker];
    var open := BatchesAfter(inputs, full).open;
    assert open + [] == open;
  }

  /** None of the first n prefixes that have an item was full. */
  ghost predicate NotFull<T>(batch: seq<T>, full: seq<T> -> bool, n: nat)
    requires n <= |batch|
  {
    forall j :: 0 < j <= n ==> !full(batch[..j])
  }

  /** The open batch has never been full, and no batch was full before its last item. */
  ghost predicate EndedInTime<T>(b: Batching<T>, full: seq<T> -> bool) {
    && NotFull(b.open, full, |b.open|)
    && forall k :: 0 <= k < |b.ended| ==> |b.ended[k]| > 0 && NotFull(b.ended[k], full, |b.ended[k]| - 1)
  }

  lemma {:induction false} BatchesEndInTime<T>(inputs: seq<Input<T>>, full: seq<T> -> bool)
    ensures EndedInTime(BatchesAfter(inputs, full), full)
  {
    if inputs != [] {
      var n := |inputs| - 1;
      BatchesEndInTime(inputs[..n], full);
      EndsInTime(BatchesAfter(inputs[..n], full), inputs[n], full);
    }
  }

  lemma EndsInTime<T>(b: Batching<T>, input: Input<T>, full: seq<T> -> bool)
    requires EndedInTime(b, full)
    ensures EndedInTime(NextBatching(b, input, full), full)
  {
    var taken := b.open + Carried(input);
    forall j | 0 < j <= |b.open|
      ensures !full(taken[..j])
    {
      assert taken[..j] == b.open[..j];
    }
    assert taken[..|taken|] == taken;
  }
}
