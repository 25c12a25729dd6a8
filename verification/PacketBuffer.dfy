/** The sliding-window packet buffer and its replaying readers, one lock section at a time. */
module PacketBuffer {
  import opened Bytes

  // `wall` counts nanoseconds from the zero time, so 0 is an unset wall clock.
  datatype Packet = Packet(wall: int, dts: int, key: bool, video: bool, data: bytes)

  predicate IsVideoKey(p: Packet) {
    p.key && p.video
  }

  // What the mutex guards. A notification channel is named by the order in which it was made.
  datatype Shared = Shared(pkts: seq<Packet>, baseOffset: nat, maxAge: int, notify: nat, nextChannel: nat)

  function Stamped(p: Packet, now: int): Packet {
    if p.wall == 0 then p.(wall := now) else p
  }

  // How many leading packets are older than the cutoff.
  function Expired(pkts: seq<Packet>, cutoff: int): (n: nat)
    ensures n <= |pkts|
    ensures forall i :: 0 <= i < n ==> pkts[i].wall < cutoff
    ensures n < |pkts| ==> pkts[n].wall >= cutoff
  {
    if pkts == [] || pkts[0].wall >= cutoff then 0 else 1 + Expired(pkts[1..], cutoff)
  }

  lemma {:induction false} ExpiredUnique(pkts: seq<Packet>, cutoff: int, n: nat)
    requires n <= |pkts|
    requires forall i :: 0 <= i < n ==> pkts[i].wall < cutoff
    requires n < |pkts| ==> pkts[n].wall >= cutoff
    ensures Expired(pkts, cutoff) == n
  {
    if n > 0 {
      ExpiredUnique(pkts[1..], cutoff, n - 1);
    }
  }

  function PushSpec(b: Shared, p: Packet, now: int, evictNow: int): Shared {
    var all := b.pkts + [Stamped(p, now)];
    var gone := Expired(all, evictNow - b.maxAge);
    Shared(all[gone..], b.baseOffset + gone, b.maxAge, b.nextChannel, b.nextChannel + 1)
  }

  function SwapSpec(b: Shared): Shared {
    b.(notify := b.nextChannel, nextChannel := b.nextChannel + 1)
  }

  // The packets from the last video keyframe on; none when no such keyframe is buffered.
  function LastGopSpec(pkts: seq<Packet>): (gop: seq<Packet>)
    ensures |gop| <= |pkts| && gop == pkts[|pkts| - |gop|..]
  {
    if pkts == [] then []
    else
      var rest := LastGopSpec(pkts[1..]);
      if rest == [] && IsVideoKey(pkts[0]) then pkts else rest
  }

  // A suffix is the last GOP exactly when it starts at a video keyframe and holds no other one, or is
  // empty because there is no video keyframe at all.
  lemma {:induction false} LastGopExact(pkts: seq<Packet>, at: nat)
    requires at <= |pkts|
    ensures LastGopSpec(pkts) == pkts[at..] <==>
            (forall i :: at < i < |pkts| ==> !IsVideoKey(pkts[i]))
            && (if at == |pkts| then forall i :: 0 <= i < |pkts| ==> !IsVideoKey(pkts[i]) else IsVideoKey(pkts[at]))
  {
    LastGopShape(pkts);
    var gop := LastGopSpec(pkts);
    var k := |pkts| - |gop|;
    if gop == pkts[at..] {
      assert k == at;
    } else {
      assert k != at;
      if k < at && at < |pkts| {
        assert !IsVideoKey(pkts[at]);
      } else if k < at {
        assert IsVideoKey(pkts[k]);
      }
    }
  }

  lemma {:induction false} LastGopShape(pkts: seq<Packet>)
    ensures var k := |pkts| - |LastGopSpec(pkts)|;
            && (forall i :: k < i < |pkts| ==> !IsVideoKey(pkts[i]))
            && (k < |pkts| ==> IsVideoKey(pkts[k]))
            && (k == |pkts| ==> forall i :: 0 <= i < |pkts| ==> !IsVideoKey(pkts[i]))
  {
    if pkts != [] {
      LastGopShape(pkts[1..]);
      var rest := LastGopSpec(pkts[1..]);
      forall i | |pkts| - |LastGopSpec(pkts)| < i < |pkts|
        ensures !IsVideoKey(pkts[i])
      {
        assert pkts[i] == pkts[1..][i - 1];
      }
      if rest != [] {
        var k := |pkts| - |rest|;
        assert pkts[k] == pkts[1..][k - 1];
      } else {
        forall i | 0 < i < |pkts|
          ensures !IsVideoKey(pkts[i])
        {
          assert pkts[i] == pkts[1..][i - 1];
        }
      }
    }
  }

  class Buffer {
    var pkts: seq<Packet>
    var maxAge: int
    var closed: bool
    var notify: nat
    var nextChannel: nat
    var baseOffset: nat

    function View(): Shared
      reads this
    {
      Shared(pkts, baseOffset, maxAge, notify, nextChannel)
    }

    constructor (age: int)
      ensures View() == Shared([], 0, age, 0, 1) && !closed
    {
      pkts := [];
      maxAge := age;
      closed := false;
      notify := 0;
      nextChannel := 1;
      baseOffset := 0;
    }

    // The lock section of WritePacket; the caller then closes the returned channel.
    method Push(p: Packet, now: int, evictNow: int) returns (ch: nat)
      modifies this
      ensures View() == PushSpec(old(View()), p, now, evictNow)
      ensures ch == old(notify) && closed == old(closed)
    {
      var stamped := p;
      if stamped.wall == 0 {
        stamped := stamped.(wall := now);
      }
      pkts := pkts + [stamped];
      Evict(evictNow);
      ch := notify;
      notify := nextChannel;
      nextChannel := nextChannel + 1;
    }

    method Evict(now: int)
      modifies this`pkts, this`baseOffset
      ensures pkts == old(pkts)[Expired(old(pkts), now - maxAge)..]
      ensures baseOffset == old(baseOffset) + Expired(old(pkts), now - maxAge)
    {
      var cutoff := now - maxAge;
      var i := 0;
      while i < |pkts| && pkts[i].wall < cutoff
        invariant 0 <= i <= |pkts|
        invariant forall k :: 0 <= k < i ==> pkts[k].wall < cutoff
      {
        i := i + 1;
      }
      ExpiredUnique(pkts, cutoff, i);
      if i > 0 {
        pkts := pkts[i..];
        baseOffset := baseOffset + i;
      }
    }

    // The compare-and-swap that decides which caller closes the buffer.
    method TryClose() returns (won: bool)
      modifies this`closed
      ensures won == !old(closed) && closed
    {
      won := !closed;
      closed := true;
    }

    // The lock section of Close.
    method SwapNotify() returns (ch: nat)
      modifies this`notify, this`nextChannel
      ensures View() == SwapSpec(old(View())) && ch == old(notify)
    {
      ch := notify;
      notify := nextChannel;
      nextChannel := nextChannel + 1;
    }

    method LastGOP() returns (gop: seq<Packet>)
      ensures gop == LastGopSpec(pkts)
    {
      var lastKF := -1;
      var i := |pkts| - 1;
      while i >= 0
        invariant -1 <= i < |pkts|
        invariant lastKF == -1
        invariant forall k :: i < k < |pkts| ==> !IsVideoKey(pkts[k])
      {
        if pkts[i].key && pkts[i].video {
          lastKF := i;
          break;
        }
        i := i - 1;
      }
      if lastKF < 0 {
        LastGopExact(pkts, |pkts|);
        return [];
      }
      LastGopExact(pkts, lastKF);
      gop := pkts[lastKF..];
    }
  }

  // What a reader takes under the read lock, the closed flag loaded last.
  datatype Snapshot = Snapshot(pkts: seq<Packet>, base: nat, notify: nat, closed: bool)

  datatype Cursor = Cursor(since: int, pos: nat, started: bool)

  datatype Outcome = Return(pkt: Packet) | Again | Eof | Wait

  // Where the first scan puts the cursor, and where eviction forces it to be.
  function SettleSpec(c: Cursor, s: Snapshot): nat {
    var first := if c.started then c.pos else s.base + Expired(s.pkts, c.since);
    if first < s.base then s.base else first
  }

  // One pass of the read loop over a snapshot.
  function ProcessSpec(c: Cursor, s: Snapshot): (Cursor, Outcome) {
    var at := SettleSpec(c, s);
    if at - s.base < |s.pkts| then
      var p := s.pkts[at - s.base];
      (Cursor(c.since, at + 1, true), if p.wall < c.since then Again else Return(p))
    else
      (Cursor(c.since, at, true), if s.closed then Eof else Wait)
  }

  class BufDemuxer {
    var since: int
    var cursor: nat
    var started: bool

    function View(): Cursor
      reads this
    {
      Cursor(since, cursor, started)
    }

    constructor (from: int)
      ensures View() == Cursor(from, 0, false)
    {
      since := from;
      cursor := 0;
      started := false;
    }

    method Process(s: Snapshot) returns (r: Outcome)
      modifies this
      ensures (View(), r) == ProcessSpec(old(View()), s)
    {
      if !started {
        cursor := s.base;
        var rel := 0;
        while rel < |s.pkts| && s.pkts[rel].wall < since
          invariant 0 <= rel <= |s.pkts| && cursor == s.base + rel
          invariant since == old(since) && started == old(started)
          invariant forall k :: 0 <= k < rel ==> s.pkts[k].wall < since
        {
          cursor := cursor + 1;
          rel := rel + 1;
        }
        ExpiredUnique(s.pkts, since, rel);
        started := true;
      }
      if cursor < s.base {
        cursor := s.base;
      }
      var rel := cursor - s.base;
      if rel < |s.pkts| {
        var pkt := s.pkts[rel];
        cursor := cursor + 1;
        if pkt.wall < since {
          return Again;
        }
        return Return(pkt);
      }
      if s.closed {
        return Eof;
      }
      return Wait;
    }
  }
}
