/** A change signal: one-slot channels that a broadcast fills without ever blocking. */
module Signal {
  import opened Options

  type ChannelId = nat

  /** The bound channels; `true` means that the slot is full. */
  type Channels = map<ChannelId, bool>

  /** A send that does not block: a full slot stays full. */
  function Ring(chs: Channels, ch: ChannelId): Channels
    requires ch in chs
  {
    if chs[ch] then chs else chs[ch := true]
  }

  predicate AllBound(chs: Channels, order: seq<ChannelId>) {
    forall i :: 0 <= i < |order| ==> order[i] in chs
  }

  predicate NoneTwice(order: seq<ChannelId>) {
    forall i, j :: 0 <= i < j < |order| ==> order[i] != order[j]
  }

  /** Ringing one channel after the other. */
  function RingAll(chs: Channels, order: seq<ChannelId>): (rung: Channels)
    requires AllBound(chs, order)
    ensures rung.Keys == chs.Keys
    decreases order
  {
    if order == [] then chs else RingAll(Ring(chs, order[0]), order[1..])
  }

  /** Whatever the order, the channels in it end full and the others keep their state. */
  lemma {:induction false} RingAllFills(chs: Channels, order: seq<ChannelId>, ch: ChannelId)
    requires AllBound(chs, order) && ch in chs
    ensures RingAll(chs, order)[ch] <==> chs[ch] || ch in order
    decreases order
  {
    if order != [] {
      RingAllFills(Ring(chs, order[0]), order[1..], ch);
    }
  }

  function Bound(chs: Channels, ch: ChannelId): Channels {
    chs[ch := false]
  }

  function Unbound(chs: Channels, ch: ChannelId): Channels {
    chs - {ch}
  }

  /** A receive empties its own slot and no other. */
  function Emptied(chs: Channels, ch: ChannelId): (emptied: Channels)
    ensures emptied.Keys == chs.Keys
    ensures forall c :: c in chs ==> (emptied[c] <==> chs[c] && c != ch)
  {
    if ch in chs then chs[ch := false] else chs
  }

  class Signal {
    var chs: Channels

    constructor ()
      ensures chs == map[]
    {
      chs := map[];
    }

    /** Rings every bound channel once, in no particular order. */
    method Broadcast() returns (ghost order: seq<ChannelId>)
      modifies this
      ensures AllBound(old(chs), order) && chs == RingAll(old(chs), order)
      ensures NoneTwice(order) && forall ch :: ch in order <==> ch in old(chs)
      ensures chs.Keys == old(chs).Keys && forall ch :: ch in chs ==> chs[ch]
    {
      order := [];
      var todo := chs.Keys;
      while todo != {}
        invariant todo <= chs.Keys == old(chs).Keys
        invariant NoneTwice(order) && forall ch :: ch in order <==> ch in chs.Keys - todo
        invariant AllBound(old(chs), order) && chs == RingAll(old(chs), order)
        decreases todo
      {
        var ch :| ch in todo;
        RingAllSnoc(old(chs), order, ch);
        assert ch !in order;
        if !chs[ch] {
          chs := chs[ch := true];
        }
        order, todo := order + [ch], todo - {ch};
      }
      forall ch | ch in chs
        ensures chs[ch]
      {
        RingAllFills(old(chs), order, ch);
      }
    }

    /** The new channel is empty and was not bound before; unbinding it undoes the bind. */
    method Bind(unused: ChannelId) returns (ch: ChannelId)
      requires unused !in chs
      modifies this
      ensures ch !in old(chs) && Lookup(chs, ch) == Some(false) && Unbound(chs, ch) == old(chs)
    {
      ch := unused;
      chs := Bound(chs, ch);
    }

    /** No broadcast reaches the channel any more, and the others are as they were. */
    method Unbind(ch: ChannelId)
      modifies this
      ensures ch !in chs && forall other :: other != ch ==> Lookup(chs, other) == Lookup(old(chs), other)
    {
      chs := Unbound(chs, ch);
    }
  }

  lemma {:induction false} RingAllSnoc(chs: Channels, order: seq<ChannelId>, ch: ChannelId)
    requires AllBound(chs, order) && ch in chs
    ensures RingAll(chs, order + [ch]) == Ring(RingAll(chs, order), ch)
    decreases order
  {
    if order == [] {
      assert order + [ch] == [ch] && [ch][1..] == [];
    } else {
      RingAllSnoc(Ring(chs, order[0]), order[1..], ch);
      assert (order + [ch])[0] == order[0] && (order + [ch])[1..] == order[1..] + [ch];
    }
  }
}
