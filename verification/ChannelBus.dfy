/**
 The in-process event bus: one bounded FIFO channel per subscriber, a non-blocking publish
 that drops on a full channel, and a drain after cancellation.
 */
module ChannelBus {
  import opened Prelude

  /** A non-blocking send: a full channel drops the message. */
  function Offer<M>(queue: seq<M>, capacity: nat, m: M): seq<M> {
    if |queue| < capacity then queue + [m] else queue
  }

  function SubscribersOf(subs: map<string, seq<nat>>, topic: string): seq<nat> {
    if topic in subs then subs[topic] else []
  }

  /** Every listed channel is offered the message; all others stay as they are. */
  function Broadcast<M>(chans: map<nat, seq<M>>, ids: seq<nat>, capacity: nat, m: M): map<nat, seq<M>> {
    map id | id in chans :: if id in ids then Offer(chans[id], capacity, m) else chans[id]
  }

  function Without(ids: seq<nat>, id: nat): seq<nat> {
    if ids == [] then []
    else if ids[0] == id then ids[1..]
    else [ids[0]] + Without(ids[1..], id)
  }

  ghost predicate Distinct(ids: seq<nat>) {
    forall i, j :: 0 <= i < j < |ids| ==> ids[i] != ids[j]
  }

  lemma {:induction false} WithoutMembers(ids: seq<nat>, id: nat)
    requires Distinct(ids)
    ensures Distinct(Without(ids, id))
    ensures forall k :: k in Without(ids, id) <==> k in ids && k != id
  {
    if ids != [] {
      WithoutMembers(ids[1..], id);
      if ids[0] == id {
        assert forall k :: k in ids[1..] ==> k != id;
      } else {
        assert ids[0] !in ids[1..];
      }
      assert forall k :: k in ids <==> k == ids[0] || k in ids[1..];
    }
  }

  /** Linear search for the first match, which is cut out of the list. */
  method RemoveFirst(ids: seq<nat>, id: nat) returns (r: seq<nat>)
    ensures r == Without(ids, id)
  {
    var i := 0;
    while i < |ids|
      invariant 0 <= i <= |ids|
      invariant Without(ids, id) == ids[..i] + Without(ids[i..], id)
    {
      assert ids[i..][1..] == ids[i + 1..];
      if ids[i] == id {
        return ids[..i] + ids[i + 1..];
      }
      assert ids[..i] + [ids[i]] == ids[..i + 1];
      i := i + 1;
    }
    r := ids;
  }

  lemma BroadcastNone<M>(chans: map<nat, seq<M>>, capacity: nat, m: M)
    ensures Broadcast(chans, [], capacity, m) == chans
  {
    assert forall id :: id in chans ==> Broadcast(chans, [], capacity, m)[id] == chans[id];
  }

  lemma BroadcastStep<M>(chans: map<nat, seq<M>>, ids: seq<nat>, i: nat, capacity: nat, m: M)
    requires Distinct(ids) && i < |ids| && ids[i] in chans
    ensures var b := Broadcast(chans, ids[..i], capacity, m);
      && ids[i] in b
      && Broadcast(chans, ids[..i + 1], capacity, m) == b[ids[i] := Offer(b[ids[i]], capacity, m)]
  {
    var b, b' := Broadcast(chans, ids[..i], capacity, m), Broadcast(chans, ids[..i + 1], capacity, m);
    assert ids[..i + 1] == ids[..i] + [ids[i]];
    assert ids[i] !in ids[..i];
    forall id | id in chans
      ensures id in b && id in b' && b'[id] == if id == ids[i] then Offer(b[id], capacity, m) else b[id]
    {
    }
  }

  /** Every topic lists existing channels, each once. */
  ghost predicate SubsOk(subs: map<string, seq<nat>>, ids: set<nat>) {
    forall t :: t in subs ==> Distinct(subs[t]) && forall i :: 0 <= i < |subs[t]| ==> subs[t][i] in ids
  }

  /** No channel is overfull, and what one accepted it has handed on or still holds, in order. */
  ghost predicate ChansOk<M>(chans: map<nat, seq<M>>, accepted: map<nat, seq<M>>, received: map<nat, seq<M>>, nextID: nat, bufSize: nat) {
    && (forall id :: id in chans ==> id < nextID && |chans[id]| <= bufSize)
    && accepted.Keys == received.Keys == chans.Keys
    && (forall id :: id in chans ==> accepted[id] == received[id] + chans[id])
  }

  /** One channel changes, the others stay. */
  lemma ChanChanged<M>(chans: map<nat, seq<M>>, accepted: map<nat, seq<M>>, received: map<nat, seq<M>>, nextID: nat, bufSize: nat,
                       id: nat, q: seq<M>, a: seq<M>, r: seq<M>)
    requires ChansOk(chans, accepted, received, nextID, bufSize)
    requires id < nextID && |q| <= bufSize && a == r + q
    ensures ChansOk(chans[id := q], accepted[id := a], received[id := r], nextID, bufSize)
  {
  }

  lemma SubscriptionAdded(subs: map<string, seq<nat>>, ids: set<nat>, topic: string, id: nat)
    requires SubsOk(subs, ids) && id !in ids
    ensures SubsOk(subs[topic := SubscribersOf(subs, topic) + [id]], ids + {id})
  {
    var l := SubscribersOf(subs, topic);
    assert forall i :: 0 <= i < |l| ==> l[i] in ids;
  }

  class Bus<M> {
    var subs: map<string, seq<nat>>
    /** Channel contents by channel identity; a channel outlives its registration. */
    var chans: map<nat, seq<M>>
    var nextID: nat
    var closed: bool
    const bufSize: nat
    /** Everything a channel ever accepted, and everything ever received from it. */
    ghost var accepted: map<nat, seq<M>>
    ghost var received: map<nat, seq<M>>

    ghost predicate Valid()
      reads this
    {
      SubsOk(subs, chans.Keys) && ChansOk(chans, accepted, received, nextID, bufSize)
    }

    constructor (bufSize: nat)
      ensures Valid() && subs == map[] && chans == map[] && !closed && this.bufSize == bufSize
    {
      this.bufSize := bufSize;
      subs, chans, nextID, closed := map[], map[], 0, false;
      accepted, received := map[], map[];
    }

    /** The first lines of Subscribe: a fresh empty channel joins the topic's list. */
    method Register(topic: string) returns (id: nat)
      requires Valid()
      modifies this
      ensures Valid() && closed == old(closed)
      ensures id !in old(chans) && chans == old(chans)[id := []]
      ensures subs == old(subs)[topic := SubscribersOf(old(subs), topic) + [id]]
      ensures topic in subs && subs[topic] == if topic in old(subs) then old(subs)[topic] + [id] else [id]
    {
      id := nextID;
      nextID := nextID + 1;
      SubscriptionAdded(subs, chans.Keys, topic, id);
      ChanChanged(chans, accepted, received, nextID, bufSize, id, [], [], []);
      chans := chans[id := []];
      accepted, received := accepted[id := []], received[id := []];
      subs := subs[topic := SubscribersOf(subs, topic) + [id]];
    }

    /** The deferred removal. */
    method Unregister(topic: string, id: nat)
      requires Valid() && topic in subs
      modifies this`subs
      ensures Valid()
      ensures subs == old(subs)[topic := Without(old(subs)[topic], id)]
      ensures forall k :: k in subs[topic] <==> k in old(subs)[topic] && k != id
    {
      WithoutMembers(subs[topic], id);
      var ids := RemoveFirst(subs[topic], id);
      forall k | 0 <= k < |ids|
        ensures ids[k] in chans
      {
        assert ids[k] in Without(subs[topic], id);
      }
      subs := subs[topic := ids];
    }

    /** A non-blocking send on one channel. */
    method Send(ch: nat, m: M)
      requires Valid() && ch in chans
      modifies this`chans, this`accepted
      ensures Valid()
      ensures chans == old(chans)[ch := Offer(old(chans)[ch], bufSize, m)]
      ensures chans[ch] == if |old(chans)[ch]| < bufSize then old(chans)[ch] + [m] else old(chans)[ch]
    {
      if |chans[ch]| < bufSize {
        Assoc(received[ch], chans[ch], [m]);
        ChanChanged(chans, accepted, received, nextID, bufSize, ch, chans[ch] + [m], accepted[ch] + [m], received[ch]);
        assert received[ch := received[ch]] == received;
        chans := chans[ch := chans[ch] + [m]];
        accepted := accepted[ch := accepted[ch] + [m]];
      } else {
        assert chans == chans[ch := chans[ch]];
      }
    }

    /** Fails exactly on a closed bus; otherwise offers the message to every subscriber. */
    method Publish(topic: string, m: M) returns (ok: bool)
      requires Valid()
      modifies this`chans, this`accepted
      ensures Valid()
      ensures ok <==> !closed
      ensures chans == if ok then Broadcast(old(chans), SubscribersOf(subs, topic), bufSize, m) else old(chans)
      ensures forall id :: id in chans <==> id in old(chans)
      ensures forall id :: id in chans ==>
        chans[id] == if !closed && topic in subs && id in subs[topic] && |old(chans)[id]| < bufSize
          then old(chans)[id] + [m] else old(chans)[id]
    {
      if closed {
        return false;
      }
      var channels := SubscribersOf(subs, topic);
      BroadcastNone(chans, bufSize, m);
      var i := 0;
      while i < |channels|
        invariant 0 <= i <= |channels| && Valid()
        invariant chans == Broadcast(old(chans), channels[..i], bufSize, m)
      {
        BroadcastStep(old(chans), channels, i, bufSize, m);
        Send(channels[i], m);
        i := i + 1;
      }
      assert channels[..i] == channels;
      ok := true;
    }

    /** One receive in the loop of Subscribe: the oldest message, if there is one. */
    method Receive(id: nat) returns (r: Option<M>)
      requires Valid() && id in chans
      modifies this
      ensures Valid() && subs == old(subs) && closed == old(closed) && accepted == old(accepted)
      ensures r == if old(chans)[id] == [] then None else Some(old(chans)[id][0])
      ensures chans == old(chans)[id := if old(chans)[id] == [] then [] else old(chans)[id][1..]]
      ensures received == old(received)[id := old(received)[id] + if r.None? then [] else [r.value]]
    {
      if chans[id] == [] {
        received := received[id := received[id] + []];
        return None;
      }
      r := Some(chans[id][0]);
      MoveHead(received[id], chans[id]);
      ChanChanged(chans, accepted, received, nextID, bufSize, id, chans[id][1..], accepted[id], received[id] + [r.value]);
      assert accepted[id := accepted[id]] == accepted;
      received := received[id := received[id] + [r.value]];
      chans := chans[id := chans[id][1..]];
    }

    /** After cancellation: everything still queued is handled, in order. */
    method Drain(id: nat) returns (handled: seq<M>)
      requires Valid() && id in chans
      modifies this
      ensures Valid() && subs == old(subs) && closed == old(closed) && accepted == old(accepted)
      ensures handled == old(chans)[id] && chans == old(chans)[id := []]
      ensures received[id] == accepted[id]
    {
      handled := [];
      while chans[id] != []
        invariant Valid() && subs == old(subs) && closed == old(closed) && accepted == old(accepted)
        invariant id in chans && old(chans)[id] == handled + chans[id]
        invariant chans == old(chans)[id := chans[id]]
        decreases |chans[id]|
      {
        MoveHead(handled, chans[id]);
        var r := Receive(id);
        handled := handled + [r.value];
      }
    }

    method Close()
      modifies this`closed
      ensures closed
    {
      closed := true;
    }
  }
}
