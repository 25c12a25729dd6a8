/** Delivery of one packet to the active consumers of a relay. */
module Relay {
  import opened Wrappers
  import opened PacketBuffer

  // How a send on a consumer's bounded queue comes out: there was room, there was none, or the context was done.
  datatype Choice = Room | Full | Done

  // What happened to a packet offered to one consumer.
  datatype Verdict = Overlap | KeySkip | Sent | Dropped | Cancelled

  // The fields of a consumer that the delivery loop reads and writes.
  datatype Gate = Gate(skipBefore: Option<int>, needsKeyframe: bool, skips: nat)

  // ShouldSkip: overlap with the injected packets, until the first packet that is past them.
  function OverlapSpec(g: Gate, p: Packet): (Gate, bool) {
    if g.skipBefore.None? then (g, false)
    else if p.dts < g.skipBefore.value then (g, true)
    else (g.(skipBefore := None), false)
  }

  // NeedsKeyframeRecovery: after a drop, everything up to the next keyframe.
  function RecoverySpec(g: Gate, p: Packet): (Gate, bool) {
    if !g.needsKeyframe then (g, false)
    else if !p.key then (g.(skips := g.skips + 1), true)
    else (g.(needsKeyframe := false), false)
  }

  // A blocking send waits for room, so it never finds the queue full.
  predicate Possible(single: bool, c: Choice) {
    single ==> !c.Full?
  }

  function OfferSpec(g: Gate, p: Packet, single: bool, c: Choice): (Gate, Verdict)
    requires Possible(single, c)
  {
    var (g1, overlap) := OverlapSpec(g, p);
    if overlap then (g1, Overlap)
    else
      var (g2, skip) := if single then (g1, false) else RecoverySpec(g1, p);
      if skip then (g2, KeySkip)
      else
        match c
        case Room => (g2, Sent)
        case Done => (g2, Cancelled)
        case Full => (g2.(needsKeyframe := true), Dropped)
  }

  class Consumer {
    var skipBefore: int
    var skipBeforeSet: bool
    var needsKeyframe: bool
    var skips: nat
    var packets: seq<Packet>  // everything sent on the queue so far

    function View(): Gate
      reads this
    {
      Gate(if skipBeforeSet then Some(skipBefore) else None, needsKeyframe, skips)
    }

    constructor ()
      ensures View() == Gate(None, false, 0) && packets == []
    {
      skipBefore := 0;
      skipBeforeSet := false;
      needsKeyframe := false;
      skips := 0;
      packets := [];
    }

    method SetSkipBefore(dts: int)
      modifies this`skipBefore, this`skipBeforeSet
      ensures View() == old(View()).(skipBefore := Some(dts))
    {
      skipBefore := dts;
      skipBeforeSet := true;
    }

    method ShouldSkip(p: Packet) returns (skip: bool)
      modifies this`skipBeforeSet
      ensures (View(), skip) == OverlapSpec(old(View()), p)
    {
      if !skipBeforeSet {
        return false;
      }
      if p.dts < skipBefore {
        return true;
      }
      skipBeforeSet := false;
      return false;
    }

    method NeedsKeyframeRecovery(p: Packet) returns (skip: bool)
      modifies this`needsKeyframe, this`skips
      ensures (View(), skip) == RecoverySpec(old(View()), p)
    {
      if !needsKeyframe {
        return false;
      }
      if !p.key {
        skips := skips + 1;
        return true;
      }
      needsKeyframe := false;
      return false;
    }

    // WritePacket and WritePacketLeaky: `c` is what the select statement found.
    method Send(p: Packet, c: Choice) returns (sent: bool)
      modifies this`packets
      ensures sent == c.Room?
      ensures packets == if sent then old(packets) + [p] else old(packets)
    {
      sent := c.Room?;
      if sent {
        packets := packets + [p];
      }
    }

    method Offer(p: Packet, single: bool, c: Choice) returns (v: Verdict)
      requires Possible(single, c)
      modifies this
      ensures (View(), v) == OfferSpec(old(View()), p, single, c)
      ensures packets == if v.Sent? then old(packets) + [p] else old(packets)
    {
      var skip := ShouldSkip(p);
      if skip {
        return Overlap;
      }
      if !single {
        skip := NeedsKeyframeRecovery(p);
        if skip {
          return KeySkip;
        }
      }
      var sent := Send(p, c);
      if sent {
        return Sent;
      }
      if c.Full? {
        needsKeyframe := true;
        return Dropped;
      }
      return Cancelled;
    }
  }

  function CountDropped(vs: seq<Verdict>): nat {
    if vs == [] then 0 else CountDropped(vs[..|vs| - 1]) + if vs[|vs| - 1].Dropped? then 1 else 0
  }

  // One round of the delivery loop: blocking when exactly one consumer is active, leaky otherwise. Gives how
  // much the relay's drop counter grows.
  method Deliver(active: seq<Consumer>, p: Packet, choices: seq<Choice>)
    returns (verdicts: seq<Verdict>, dropped: nat)
    requires |choices| == |active|
    requires forall i, j :: 0 <= i < j < |active| ==> active[i] != active[j]
    requires forall i :: 0 <= i < |choices| ==> Possible(|active| == 1, choices[i])
    modifies active
    ensures |verdicts| == |active|
    ensures forall i :: 0 <= i < |active| ==>
              (active[i].View(), verdicts[i]) == OfferSpec(old(active[i].View()), p, |active| == 1, choices[i])
    ensures forall i :: 0 <= i < |active| ==>
              active[i].packets == if verdicts[i].Sent? then old(active[i].packets) + [p] else old(active[i].packets)
    ensures dropped == CountDropped(verdicts)
  {
    var single := |active| == 1;
    verdicts, dropped := [], 0;
    var i := 0;
    while i < |active|
      invariant 0 <= i <= |active| && |verdicts| == i
      invariant forall k :: i <= k < |active| ==>
                  active[k].View() == old(active[k].View()) && active[k].packets == old(active[k].packets)
      invariant forall k :: 0 <= k < i ==>
                  (active[k].View(), verdicts[k]) == OfferSpec(old(active[k].View()), p, single, choices[k])
      invariant forall k :: 0 <= k < i ==>
                  active[k].packets
                  == if verdicts[k].Sent? then old(active[k].packets) + [p] else old(active[k].packets)
      invariant dropped == CountDropped(verdicts)
    {
      var v := active[i].Offer(p, single, choices[i]);
      if v.Dropped? {
        dropped := dropped + 1;
      }
      assert (verdicts + [v])[..i] == verdicts;
      verdicts := verdicts + [v];
      i := i + 1;
    }
  }

  // AddConsumer's injection of the cached packets before the consumer is published.
  method Inject(c: Consumer, gop: seq<Packet>, choices: seq<Choice>) returns (sent: seq<Packet>)
    requires |choices| == |gop| && forall i :: 0 <= i < |choices| ==> Possible(true, choices[i])
    modifies c
    ensures c.packets == old(c.packets) + sent
    ensures sent == Chosen(gop, choices)
    ensures c.View() == if gop == [] then old(c.View()) else old(c.View()).(skipBefore := Some(gop[|gop| - 1].dts))
  {
    sent := [];
    var i := 0;
    while i < |gop|
      invariant 0 <= i <= |gop|
      invariant c.packets == old(c.packets) + sent && c.View() == old(c.View())
      invariant sent == Chosen(gop[..i], choices[..i])
    {
      assert gop[..i + 1][..i] == gop[..i] && choices[..i + 1][..i] == choices[..i];
      var ok := c.Send(gop[i], choices[i]);
      if ok {
        sent := sent + [gop[i]];
      }
      i := i + 1;
    }
    assert gop[..i] == gop && choices[..i] == choices;
    if |gop| > 0 {
      c.SetSkipBefore(gop[|gop| - 1].dts);
    }
  }

  function Chosen(gop: seq<Packet>, choices: seq<Choice>): seq<Packet>
    requires |choices| == |gop|
  {
    if gop == [] then []
    else
      var n := |gop| - 1;
      var rest := Chosen(gop[..n], choices[..n]);
      if choices[n].Room? then rest + [gop[n]] else rest
  }
}
