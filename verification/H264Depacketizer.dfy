/** Reassembly of H.264 access units from RTP payloads: single NAL units, STAP-A aggregates and FU-A fragments. */
module H264Depacketizer {
  import opened Bytes
  import opened StartCodes
  import opened Wrappers

  const FUA := 28
  const STAPA := 24
  const MAX_SIZE := 4 * 1024 * 1024
  const MAX_NALUS := 512

  type u16 = v: int | 0 <= v < 65536
  type u32 = v: int | 0 <= v < TWO32

  datatype Packet = Packet(seqNum: u16, timestamp: u32, marker: bool, payload: bytes)

  datatype Error =
    | NeedMorePackets
    | PayloadTooShort
    | InvalidFua
    | NonStartingFua
    | PacketLoss
    | TooBig
    | InvalidStapA
    | InvalidStapASize
    | TooManyNalus

  datatype State = State(firstPacketReceived: bool, fragments: seq<bytes>, nextSeqNum: u16,
                         frame: seq<bytes>, frameTimestamp: u32)

  function Total(parts: seq<bytes>): nat {
    |Concat(parts)|
  }

  // ---- start codes ----

  // The units between start codes, which may have three or four bytes.
  function SplitSpec(b: bytes): seq<bytes>
    decreases |b|
  {
    var i := FindCode(b);
    if b == [] then []
    else if i == |b| then [b]
    else if i > 0 && b[i - 1] == 0 then
      if i == 1 then SplitSpec(b[4..]) else [b[..i - 1]] + SplitSpec(b[i + 3..])
    else if i == 0 then SplitSpec(b[3..])
    else [b[..i]] + SplitSpec(b[i + 3..])
  }

  // Splitting gives back its input whole exactly when there is no start code in it.
  lemma SplitWhole(b: bytes)
    requires b != []
    ensures SplitSpec(b) == [b] <==> CodeFree(b)
  {
    var i := FindCode(b);
    if i < |b| {
      SplitStrictly(b);
      assert CodeAt(b, i);
      NotWhole(SplitSpec(b), b);
    } else {
      assert forall k: nat :: k >= |b| ==> !CodeAt(b, k);
    }
  }

  lemma NotWhole(xs: seq<bytes>, b: bytes)
    requires forall k :: 0 <= k < |xs| ==> |xs[k]| < |b|
    ensures xs != [b]
  {
    assert |xs| == 1 ==> xs[0] != b;
  }

  lemma SplitStrictly(b: bytes)
    requires FindCode(b) < |b|
    ensures forall k :: 0 <= k < |SplitSpec(b)| ==> |SplitSpec(b)[k]| < |b|
  {
    hide FindCode, CodeFree;
    var i := FindCode(b);
    SplitShorter(b[i + 3..]);
    if i == 1 && b[0] == 0 {
      SplitShorter(b[4..]);
    }
  }

  // Every unit of a split is non-empty and free of start codes, and no longer than the input.
  lemma {:induction false} SplitShorter(b: bytes)
    ensures forall k :: 0 <= k < |SplitSpec(b)| ==>
              0 < |SplitSpec(b)[k]| <= |b| && CodeFree(SplitSpec(b)[k])
    decreases |b|
  {
    var i := FindCode(b);
    if b != [] {
      PrefixCodeFree(b, i);
      if i == |b| {
        assert b[..i] == b;
      } else if i > 0 && b[i - 1] == 0 {
        if i == 1 {
          SplitShorter(b[4..]);
        } else {
          PrefixCodeFree(b, i - 1);
          SplitShorter(b[i + 3..]);
        }
      } else {
        SplitShorter(b[i + 3..]);
      }
    }
  }

  method IndexOfCode(b: bytes) returns (i: int)
    ensures i == if FindCode(b) == |b| then -1 else FindCode(b)
  {
    i := 0;
    while i + 3 <= |b|
      invariant 0 <= i <= |b|
      invariant forall k: nat :: k < i ==> !CodeAt(b, k)
    {
      if b[i] == 0 && b[i + 1] == 0 && b[i + 2] == 1 {
        assert CodeAt(b, i);
        return;
      }
      i := i + 1;
    }
    assert forall k: nat :: k < |b| ==> !CodeAt(b, k);
    i := -1;
  }

  method SplitNALUs(data: bytes) returns (nalus: seq<bytes>)
    ensures nalus == SplitSpec(data)
  {
    hide FindCode;
    var b := data;
    nalus := [];
    while |b| > 0
      invariant nalus + SplitSpec(b) == SplitSpec(data)
      decreases |b|
    {
      var idx := IndexOfCode(b);
      if idx == -1 {
        nalus := nalus + [b];
        return;
      }
      var sz := 3;
      if idx > 0 && b[idx - 1] == 0 {
        idx := idx - 1;
        sz := sz + 1;
      }
      if idx == 0 {
        b := b[sz..];
        continue;
      }
      assert nalus + ([b[..idx]] + SplitSpec(b[idx + sz..])) == nalus + [b[..idx]] + SplitSpec(b[idx + sz..]);
      nalus := nalus + [b[..idx]];
      b := b[idx + sz..];
    }
  }

  // ---- joining fragments ----

  // copy(ret[n:], part): as much of the part as there is room for.
  method CopyInto(ret: array<byte>, n: nat, part: bytes) returns (m: nat)
    requires n <= ret.Length
    modifies ret
    ensures m == if |part| <= ret.Length - n then |part| else ret.Length - n
    ensures ret[..n] == old(ret[..n]) && ret[n..n + m] == part[..m] && ret[n + m..] == old(ret[n + m..])
  {
    m := 0;
    while m < |part| && n + m < ret.Length
      invariant 0 <= m <= |part| && n + m <= ret.Length
      invariant ret[..n] == old(ret[..n])
      invariant forall k :: 0 <= k < m ==> ret[n + k] == part[k]
      invariant forall k :: n + m <= k < ret.Length ==> ret[k] == old(ret[k])
    {
      ret[n + m] := part[m];
      m := m + 1;
    }
  }

  method JoinFragments(fragments: seq<bytes>, size: nat) returns (joined: bytes)
    requires size == Total(fragments)
    ensures joined == Concat(fragments)
  {
    var ret := new byte[size](i => 0);
    var n := 0;
    var i := 0;
    assert fragments[..|fragments|] == fragments;
    while i < |fragments|
      invariant 0 <= i <= |fragments| && n == Total(fragments[..i]) <= size
      invariant ret[..n] == Concat(fragments[..i])
    {
      PrefixTotal(fragments, i + 1);
      assert fragments[..i + 1] == fragments[..i] + [fragments[i]];
      ConcatSnoc(fragments[..i], fragments[i]);
      var m := CopyInto(ret, n, fragments[i]);
      assert ret[..n + m] == ret[..n] + ret[n..n + m];
      n := n + m;
      i := i + 1;
    }
    joined := ret[..];
    assert ret[..] == ret[..n];
  }

  lemma PrefixTotal(parts: seq<bytes>, n: nat)
    requires n <= |parts|
    ensures Total(parts[..n]) <= Total(parts)
  {
    ConcatAppend(parts[..n], parts[n..]);
    assert parts[..n] + parts[n..] == parts;
  }

  // ---- one payload ----

  function StapSpec(payload: bytes): Result<seq<bytes>, Error>
    decreases |payload|
  {
    if |payload| < 2 then Err(InvalidStapA)
    else
      var size := U16(payload, 0);
      var rest := payload[2..];
      if size == 0 || size > |rest| then Err(InvalidStapASize)
      else if size == |rest| then Ok([rest])
      else
        var more := StapSpec(rest[size..]);
        if more.Err? then more else Ok([rest[..size]] + more.value)
  }

  function Prepend(nalus: seq<bytes>, r: Result<seq<bytes>, Error>): Result<seq<bytes>, Error> {
    if r.Err? then r else Ok(nalus + r.value)
  }

  // One aggregated unit taken off the front.
  lemma StapNext(nalus: seq<bytes>, payload: bytes, size: nat)
    requires |payload| >= 2 && size == U16(payload, 0) && 0 < size <= |payload| - 2
    ensures var rest := payload[2..];
            var more := nalus + [rest[..size]];
            Prepend(nalus, StapSpec(payload))
            == if size == |rest| then Ok(more) else Prepend(more, StapSpec(rest[size..]))
  {
    var rest := payload[2..];
    var more := StapSpec(rest[size..]);
    if size == |rest| {
      assert rest[..size] == rest;
    } else if more.Ok? {
      assert nalus + ([rest[..size]] + more.value) == nalus + [rest[..size]] + more.value;
    }
  }

  method DecodeStapA(data: bytes) returns (r: Result<seq<bytes>, Error>)
    ensures r == StapSpec(data)
  {
    var payload := data;
    var nalus: seq<bytes> := [];
    assert StapSpec(data).Ok? ==> [] + StapSpec(data).value == StapSpec(data).value;
    while true
      invariant StapSpec(data) == Prepend(nalus, StapSpec(payload))
      decreases |payload|
    {
      if |payload| < 2 {
        return Err(InvalidStapA);
      }
      var size := U16(payload, 0);
      if size == 0 || size > |payload| - 2 {
        return Err(InvalidStapASize);
      }
      StapNext(nalus, payload, size);
      payload := payload[2..];
      nalus := nalus + [payload[..size]];
      payload := payload[size..];
      if |payload| == 0 {
        return Ok(nalus);
      }
    }
  }

  function Cleared(s: State): State {
    s.(fragments := [])
  }

  // The header byte of a fragmented unit: the importance bits of the indicator, the type of the FU header.
  function FuaHeader(indicator: byte, fu: byte): byte {
    indicator / 32 % 4 * 32 + fu % 32
  }

  function FuaSpec(s: State, p: Packet): (State, Result<seq<bytes>, Error>)
    requires |p.payload| >= 1
  {
    if |p.payload| < 2 then (Cleared(s), Err(InvalidFua))
    else
      var starts := p.payload[1] / 128 == 1;
      var ends := p.payload[1] / 64 % 2 == 1;
      var part := p.payload[2..];
      if starts then
        var fragments := [[FuaHeader(p.payload[0], p.payload[1])], part];
        var s' := s.(firstPacketReceived := true, nextSeqNum := (p.seqNum + 1) % 65536);
        if ends then (Cleared(s'), Ok(SplitSpec(Concat(fragments))))
        else (s'.(fragments := fragments), Err(NeedMorePackets))
      else if Total(s.fragments) == 0 then
        (s, Err(if s.firstPacketReceived then NonStartingFua else NeedMorePackets))
      else if p.seqNum != s.nextSeqNum then (Cleared(s), Err(PacketLoss))
      else if Total(s.fragments) + |part| > MAX_SIZE then (Cleared(s), Err(TooBig))
      else
        var fragments := s.fragments + [part];
        var s' := s.(nextSeqNum := (s.nextSeqNum + 1) % 65536);
        if ends then (Cleared(s'), Ok(SplitSpec(Concat(fragments))))
        else (s'.(fragments := fragments), Err(NeedMorePackets))
  }

  // The units a packet completes.
  function NalusSpec(s: State, p: Packet): (State, Result<seq<bytes>, Error>) {
    if |p.payload| < 1 then (Cleared(s), Err(PayloadTooShort))
    else if p.payload[0] % 32 == FUA then FuaSpec(s, p)
    else if p.payload[0] % 32 == STAPA then
      var r := StapSpec(p.payload[1..]);
      (if r.Ok? then Cleared(s).(firstPacketReceived := true) else Cleared(s), r)
    else (Cleared(s).(firstPacketReceived := true), Ok([p.payload]))
  }

  function AddSpec(s: State, nalus: seq<bytes>, ts: u32): (State, Option<Error>) {
    if |s.frame| + |nalus| > MAX_NALUS then (s.(frame := []), Some(TooManyNalus))
    else if Total(s.frame) + Total(nalus) > MAX_SIZE then (s.(frame := []), Some(TooBig))
    else (s.(frame := s.frame + nalus, frameTimestamp := ts), None)
  }

  // One packet: the access unit it releases, or why there is none.
  function DecodeSpec(s: State, p: Packet): (State, Result<seq<bytes>, Error>) {
    var (s1, r) := NalusSpec(s, p);
    if r.Err? then (s1, r)
    else if s1.frame != [] && p.timestamp != s1.frameTimestamp then
      var (s2, e) := AddSpec(s1.(frame := []), r.value, p.timestamp);
      (s2, if e.Some? then Err(e.value) else Ok(s1.frame))
    else
      var (s2, e) := AddSpec(s1, r.value, p.timestamp);
      if e.Some? then (s2, Err(e.value))
      else if !p.marker then (s2, Err(NeedMorePackets))
      else (s2.(frame := []), Ok(s2.frame))
  }

  class Decoder {
    var firstPacketReceived: bool
    var fragments: seq<bytes>
    var fragmentsSize: int
    var fragmentNextSeqNum: u16
    var frameBuffer: seq<bytes>
    var frameBufferLen: int
    var frameBufferSize: int
    var frameBufferTimestamp: u32

    function View(): State
      reads this
    {
      State(firstPacketReceived, fragments, fragmentNextSeqNum, frameBuffer, frameBufferTimestamp)
    }

    // The counters are those of the buffers, and the frame buffer is within its bounds.
    ghost predicate Valid()
      reads this
    {
      && fragmentsSize == Total(fragments)
      && frameBufferLen == |frameBuffer| <= MAX_NALUS
      && frameBufferSize == Total(frameBuffer) <= MAX_SIZE
    }

    constructor ()
      ensures Valid() && View() == State(false, [], 0, [], 0)
    {
      firstPacketReceived := false;
      fragments := [];
      fragmentsSize := 0;
      fragmentNextSeqNum := 0;
      frameBuffer := [];
      frameBufferLen := 0;
      frameBufferSize := 0;
      frameBufferTimestamp := 0;
    }

    method ResetFragments()
      requires Valid()
      modifies this`fragments, this`fragmentsSize
      ensures Valid() && View() == Cleared(old(View()))
    {
      fragments := [];
      fragmentsSize := 0;
    }

    method ResetFrameBuffer()
      requires Valid()
      modifies this`frameBuffer, this`frameBufferLen, this`frameBufferSize
      ensures Valid() && View() == old(View()).(frame := [])
    {
      frameBuffer := [];
      frameBufferLen := 0;
      frameBufferSize := 0;
    }

    // The last fragment has arrived: the unit, cut at any start code in it.
    method FinishFragments() returns (nalus: seq<bytes>)
      requires Valid()
      modifies this`fragments, this`fragmentsSize
      ensures Valid() && View() == Cleared(old(View()))
      ensures nalus == SplitSpec(Concat(old(fragments)))
    {
      var joined := JoinFragments(fragments, fragmentsSize);
      nalus := SplitNALUs(joined);
      ResetFragments();
    }

    method StartFua(p: Packet) returns (r: Result<seq<bytes>, Error>)
      requires Valid() && |p.payload| >= 2 && p.payload[1] / 128 == 1
      modifies this
      ensures Valid() && (View(), r) == FuaSpec(old(View()), p)
    {
      hide SplitSpec, FindCode;
      var nri := p.payload[0] / 32 % 4;
      var naluType := p.payload[1] % 32;
      TwoParts([FuaHeader(p.payload[0], p.payload[1])], p.payload[2..]);
      fragmentsSize := |p.payload[1..]|;
      fragments := [[nri * 32 + naluType], p.payload[2..]];
      fragmentNextSeqNum := (p.seqNum + 1) % 65536;
      firstPacketReceived := true;
      if p.payload[1] / 64 % 2 == 1 {
        var nalus := FinishFragments();
        return Ok(nalus);
      }
      return Err(NeedMorePackets);
    }

    method ContinueFua(p: Packet) returns (r: Result<seq<bytes>, Error>)
      requires Valid() && |p.payload| >= 2 && p.payload[1] / 128 != 1
      modifies this
      ensures Valid() && (View(), r) == FuaSpec(old(View()), p)
    {
      hide SplitSpec, FindCode;
      if fragmentsSize == 0 {
        if !firstPacketReceived {
          return Err(NeedMorePackets);
        }
        return Err(NonStartingFua);
      }
      if p.seqNum != fragmentNextSeqNum {
        ResetFragments();
        return Err(PacketLoss);
      }
      var part := p.payload[2..];
      if fragmentsSize + |part| > MAX_SIZE {
        ResetFragments();
        return Err(TooBig);
      }
      ConcatSnoc(fragments, part);
      fragmentsSize := fragmentsSize + |part|;
      fragments := fragments + [part];
      fragmentNextSeqNum := (fragmentNextSeqNum + 1) % 65536;
      if p.payload[1] / 64 % 2 != 1 {
        return Err(NeedMorePackets);
      }
      var nalus := FinishFragments();
      return Ok(nalus);
    }

    method DecodeNALUs(p: Packet) returns (r: Result<seq<bytes>, Error>)
      requires Valid()
      modifies this
      ensures Valid() && (View(), r) == NalusSpec(old(View()), p)
    {
      hide SplitSpec, StapSpec, Total;
      if |p.payload| < 1 {
        ResetFragments();
        return Err(PayloadTooShort);
      }
      var typ := p.payload[0] % 32;
      if typ == FUA {
        if |p.payload| < 2 {
          ResetFragments();
          return Err(InvalidFua);
        }
        if p.payload[1] / 128 == 1 {
          r := StartFua(p);
        } else {
          r := ContinueFua(p);
        }
      } else if typ == STAPA {
        ResetFragments();
        r := DecodeStapA(p.payload[1..]);
        if r.Ok? {
          firstPacketReceived := true;
        }
      } else {
        ResetFragments();
        firstPacketReceived := true;
        r := Ok([p.payload]);
      }
    }

    method AddToFrameBuffer(nalus: seq<bytes>, ts: u32) returns (e: Option<Error>)
      requires Valid()
      modifies this`frameBuffer, this`frameBufferLen, this`frameBufferSize, this`frameBufferTimestamp
      ensures Valid() && (View(), e) == AddSpec(old(View()), nalus, ts)
    {
      if frameBufferLen + |nalus| > MAX_NALUS {
        ResetFrameBuffer();
        return Some(TooManyNalus);
      }
      var addSize := AccessUnitSize(nalus);
      if frameBufferSize + addSize > MAX_SIZE {
        ResetFrameBuffer();
        return Some(TooBig);
      }
      ConcatAppend(frameBuffer, nalus);
      frameBuffer := frameBuffer + nalus;
      frameBufferLen := frameBufferLen + |nalus|;
      frameBufferSize := frameBufferSize + addSize;
      frameBufferTimestamp := ts;
      return None;
    }

    method Decode(p: Packet) returns (r: Result<seq<bytes>, Error>)
      requires Valid()
      modifies this
      ensures Valid() && (View(), r) == DecodeSpec(old(View()), p)
    {
      hide NalusSpec, Total, AddSpec;
      r := DecodeNALUs(p);
      if r.Err? {
        return;
      }
      var nalus := r.value;
      if frameBuffer != [] && p.timestamp != frameBufferTimestamp {
        var ret := frameBuffer;
        ResetFrameBuffer();
        var e := AddToFrameBuffer(nalus, p.timestamp);
        return if e.Some? then Err(e.value) else Ok(ret);
      }
      var e := AddToFrameBuffer(nalus, p.timestamp);
      if e.Some? {
        return Err(e.value);
      }
      if !p.marker {
        return Err(NeedMorePackets);
      }
      var ret := frameBuffer;
      ResetFrameBuffer();
      return Ok(ret);
    }
  }

  method AccessUnitSize(nalus: seq<bytes>) returns (total: nat)
    ensures total == Total(nalus)
  {
    total := 0;
    var i := 0;
    while i < |nalus|
      invariant 0 <= i <= |nalus| && total == Total(nalus[..i])
    {
      assert nalus[..i + 1] == nalus[..i] + [nalus[i]];
      ConcatSnoc(nalus[..i], nalus[i]);
      total := total + |nalus[i]|;
      i := i + 1;
    }
    assert nalus[..i] == nalus;
  }

  lemma TwoParts(a: bytes, b: bytes)
    ensures Concat([a, b]) == a + b
  {
    assert [a, b] == [a] + [b] && Concat([a]) == a by { assert [a][1..] == []; }
    ConcatSnoc([a], b);
  }
}
