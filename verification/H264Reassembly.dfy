/** What the H.264 depacketizer makes of whole packet sequences. */
module H264Reassembly {
  import opened Bytes
  import opened Wrappers
  import opened H264Depacketizer
  import opened StartCodes

  // ---- fragmentation units ----

  // The FU indicator: the unit's header with its type replaced.
  function Indicator(header: byte): byte {
    header / 32 * 32 + FUA
  }

  function FuByte(header: byte, isFirst: bool, isLast: bool): byte {
    (if isFirst then 128 else 0) + (if isLast then 64 else 0) + header % 32
  }

  // The k-th of the packets that carry a unit with this header, its body cut into `parts`.
  function FuaPacket(start: u16, ts: u32, header: byte, parts: seq<bytes>, k: nat): Packet
    requires k < |parts|
  {
    Packet((start + k) % 65536, ts, k == |parts| - 1,
           [Indicator(header), FuByte(header, k == 0, k == |parts| - 1)] + parts[k])
  }

  // The state after the first n of them.
  function Feed(s: State, start: u16, ts: u32, header: byte, parts: seq<bytes>, n: nat): State
    requires n <= |parts|
  {
    if n == 0 then s
    else NalusSpec(Feed(s, start, ts, header, parts, n - 1), FuaPacket(start, ts, header, parts, n - 1)).0
  }

  // What the k-th packet completes.
  function Completes(s: State, start: u16, ts: u32, header: byte, parts: seq<bytes>, k: nat): Result<seq<bytes>, Error>
    requires k < |parts|
  {
    NalusSpec(Feed(s, start, ts, header, parts, k), FuaPacket(start, ts, header, parts, k)).1
  }

  lemma IndicatorBits(header: byte)
    ensures Indicator(header) % 32 == FUA && Indicator(header) / 32 == header / 32
  {
  }

  lemma FuBits(header: byte, isFirst: bool, isLast: bool)
    ensures var fu := FuByte(header, isFirst, isLast);
            (fu / 128 == 1) == isFirst && (fu / 64 % 2 == 1) == isLast && fu % 32 == header % 32
  {
  }

  // The decoder drops the forbidden bit of the header and keeps the rest.
  lemma HeaderKept(header: byte, isFirst: bool, isLast: bool)
    ensures FuaHeader(Indicator(header), FuByte(header, isFirst, isLast)) == header % 128
  {
    IndicatorBits(header);
    FuBits(header, isFirst, isLast);
  }

  // What the k-th packet does, its bits read.
  lemma FuaStep(s: State, start: u16, ts: u32, header: byte, parts: seq<bytes>, k: nat)
    requires k < |parts|
    ensures var last := k == |parts| - 1;
            var seqNum := (start + k) % 65536;
            NalusSpec(s, FuaPacket(start, ts, header, parts, k)) ==
            if k == 0 then
              var fragments := [[header % 128], parts[0]];
              var s' := s.(firstPacketReceived := true, nextSeqNum := (seqNum + 1) % 65536);
              if last then (Cleared(s'), Ok(SplitSpec(Concat(fragments))))
              else (s'.(fragments := fragments), Err(NeedMorePackets))
            else if Total(s.fragments) == 0 then
              (s, Err(if s.firstPacketReceived then NonStartingFua else NeedMorePackets))
            else if seqNum != s.nextSeqNum then (Cleared(s), Err(PacketLoss))
            else if Total(s.fragments) + |parts[k]| > MAX_SIZE then (Cleared(s), Err(TooBig))
            else
              var fragments := s.fragments + [parts[k]];
              var s' := s.(nextSeqNum := (s.nextSeqNum + 1) % 65536);
              if last then (Cleared(s'), Ok(SplitSpec(Concat(fragments))))
              else (s'.(fragments := fragments), Err(NeedMorePackets))
  {
    hide SplitSpec, Total, FuaHeader, FuByte, Indicator;
    var p := FuaPacket(start, ts, header, parts, k);
    HeaderKept(header, k == 0, k == |parts| - 1);
    IndicatorBits(header);
    FuBits(header, k == 0, k == |parts| - 1);
    assert p.payload[2..] == parts[k];
  }

  // The unit rebuilt from the first n parts.
  function Rebuilt(header: byte, parts: seq<bytes>, n: nat): seq<bytes>
    requires n <= |parts|
  {
    [[header % 128]] + parts[..n]
  }

  lemma RebuiltNext(header: byte, parts: seq<bytes>, n: nat)
    requires n < |parts|
    ensures Rebuilt(header, parts, n + 1) == Rebuilt(header, parts, n) + [parts[n]]
    ensures Total(Rebuilt(header, parts, n + 1)) == Total(Rebuilt(header, parts, n)) + |parts[n]|
    ensures Total(Rebuilt(header, parts, n)) >= 1
  {
    assert parts[..n + 1] == parts[..n] + [parts[n]];
    assert Rebuilt(header, parts, n + 1) == Rebuilt(header, parts, n) + [parts[n]];
    ConcatSnoc(Rebuilt(header, parts, n), parts[n]);
    assert Concat(Rebuilt(header, parts, n)) == [header % 128] + Concat(parts[..n]) by {
      assert Rebuilt(header, parts, n)[1..] == parts[..n];
    }
  }

  lemma SeqNext(start: u16, k: nat)
    ensures ((start + k) % 65536 + 1) % 65536 == (start + k + 1) % 65536
  {
    WrapAdd(start + k, 1, 65536);
  }

  // Part way through, the decoder holds the unit so far, or nothing once it has grown too big.
  lemma {:induction false} FeedHolds(s: State, start: u16, ts: u32, header: byte, parts: seq<bytes>, n: nat)
    requires 0 < n < |parts|
    ensures var d := Feed(s, start, ts, header, parts, n);
            && d.firstPacketReceived && d.frame == s.frame && d.frameTimestamp == s.frameTimestamp
            && (n == 1 || Total(Rebuilt(header, parts, n)) <= MAX_SIZE ==>
                  d.fragments == Rebuilt(header, parts, n) && d.nextSeqNum == (start + n) % 65536)
            && (n > 1 && Total(Rebuilt(header, parts, n)) > MAX_SIZE ==>
                  d.fragments == [] || Total(d.fragments) > MAX_SIZE)
    ensures Completes(s, start, ts, header, parts, n - 1).Err?
    decreases n
  {
    hide SplitSpec, Total, NalusSpec, FuaPacket, Rebuilt;
    var before := Feed(s, start, ts, header, parts, n - 1);
    FuaStep(before, start, ts, header, parts, n - 1);
    SeqNext(start, n - 1);
    RebuiltNext(header, parts, n - 1);
    if n == 1 {
      FirstParts(header, parts);
    } else {
      FeedHolds(s, start, ts, header, parts, n - 1);
      RebuiltNext(header, parts, n - 2);
      EmptyTotal();
    }
  }

  lemma FirstParts(header: byte, parts: seq<bytes>)
    requires |parts| > 0
    ensures Rebuilt(header, parts, 1) == [[header % 128], parts[0]]
  {
  }

  lemma EmptyTotal()
    ensures Total([]) == 0
  {
  }

  // What the last packet of a unit completes: the unit with a clear forbidden bit, cut at start codes, if it was
  // sent whole or is within the size bound; otherwise nothing.
  lemma LastFragment(s: State, start: u16, ts: u32, header: byte, parts: seq<bytes>)
    requires |parts| > 0
    ensures var whole := Concat(Rebuilt(header, parts, |parts|));
            var r := Completes(s, start, ts, header, parts, |parts| - 1);
            if |parts| == 1 || |whole| <= MAX_SIZE then r == Ok(SplitSpec(whole)) else r.Err?
  {
    hide SplitSpec, NalusSpec, FuaPacket, Rebuilt;
    var n := |parts| - 1;
    FuaStep(Feed(s, start, ts, header, parts, n), start, ts, header, parts, n);
    RebuiltNext(header, parts, n);
    if n == 0 {
      FirstParts(header, parts);
    } else {
      FeedHolds(s, start, ts, header, parts, n);
      RebuiltNext(header, parts, n - 1);
      EmptyTotal();
    }
  }

  lemma RebuiltIs(nalu: bytes, parts: seq<bytes>)
    requires nalu != [] && Concat(parts) == nalu[1..]
    ensures Concat(Rebuilt(nalu[0], parts, |parts|)) == [nalu[0] % 128] + nalu[1..]
  {
    assert parts[..|parts|] == parts;
    assert Rebuilt(nalu[0], parts, |parts|)[1..] == parts;
  }

  lemma ForbiddenBit(nalu: bytes)
    requires nalu != []
    ensures [nalu[0] % 128] + nalu[1..] == nalu <==> nalu[0] < 128
    ensures |[nalu[0] % 128] + nalu[1..]| == |nalu|
  {
    var whole := [nalu[0] % 128] + nalu[1..];
    assert whole[0] == nalu[0] % 128;
  }

  lemma SplitIs(whole: bytes, nalu: bytes)
    requires whole != [] && |whole| == |nalu|
    ensures SplitSpec(whole) == [nalu] <==> whole == nalu && CodeFree(nalu)
  {
    SplitWhole(whole);
    if FindCode(whole) < |whole| {
      SplitStrictly(whole);
      NotWhole(SplitSpec(whole), nalu);
      assert CodeAt(whole, FindCode(whole));
    }
  }

  // A unit cut into consecutive fragments in any way, from any decoder state and across sequence number wraps,
  // is rebuilt byte for byte exactly when its forbidden bit is clear, it holds no start code and it is within
  // the size bound - or came in one fragment, which is not measured.
  lemma FuaRebuilds(s: State, start: u16, ts: u32, nalu: bytes, parts: seq<bytes>)
    requires nalu != [] && |parts| > 0 && Concat(parts) == nalu[1..]
    ensures Completes(s, start, ts, nalu[0], parts, |parts| - 1) == Ok([nalu])
            <==> nalu[0] < 128 && CodeFree(nalu) && (|parts| == 1 || |nalu| <= MAX_SIZE)
    ensures forall k :: 0 <= k < |parts| - 1 ==> Completes(s, start, ts, nalu[0], parts, k).Err?
  {
    hide SplitSpec, Completes, CodeFree, Rebuilt, Concat;
    var whole := Concat(Rebuilt(nalu[0], parts, |parts|));
    LastFragment(s, start, ts, nalu[0], parts);
    RebuiltIs(nalu, parts);
    SplitIs(whole, nalu);
    ForbiddenBit(nalu);
    forall k | 0 <= k < |parts| - 1
      ensures Completes(s, start, ts, nalu[0], parts, k).Err?
    {
      FeedHolds(s, start, ts, nalu[0], parts, k + 1);
    }
  }

  // ---- aggregation ----

  function StapPayload(nalus: seq<bytes>): bytes {
    if nalus == [] then [] else PutU16(|nalus[0]|) + nalus[0] + StapPayload(nalus[1..])
  }

  // Units of 1 to 65535 bytes survive aggregation, in order.
  lemma {:induction false} StapRoundTrip(nalus: seq<bytes>)
    requires nalus != [] && forall k :: 0 <= k < |nalus| ==> 0 < |nalus[k]| < 65536
    ensures StapSpec(StapPayload(nalus)) == Ok(nalus)
    decreases |nalus|
  {
    hide StapSpec;
    var n := nalus[0];
    StapHead(n, StapPayload(nalus[1..]));
    if |nalus| == 1 {
      assert nalus == [n];
    } else {
      StapRoundTrip(nalus[1..]);
      assert nalus == [n] + nalus[1..];
    }
  }

  lemma StapHead(n: bytes, rest: bytes)
    requires 0 < |n| < 65536
    ensures StapSpec(PutU16(|n|) + n + rest) ==
            if rest == [] then Ok([n])
            else (var more := StapSpec(rest); if more.Err? then more else Ok([n] + more.value))
  {
    hide PutU16, U16;
    var b := PutU16(|n|) + n + rest;
    StapSlices(n, rest);
    var body := b[2..];
    assert body[..|n|] == n && body[|n|..] == rest;
    assert rest == [] ==> body == n;
  }

  lemma StapSlices(n: bytes, rest: bytes)
    requires 0 < |n| < 65536
    ensures var b := PutU16(|n|) + n + rest;
            |b| >= 2 && U16(b, 0) == |n| && b[2..] == n + rest
  {
    hide PutU16, U16;
    var b := PutU16(|n|) + n + rest;
    assert b[0..2] == PutU16(|n|);
    U16OfPut(b, 0, |n|);
  }

  // ---- access units ----

  // The units one packet completed.
  datatype Batch = Batch(ts: u32, nalus: seq<bytes>)

  // What became of a stretch of batches: an access unit that Decode returned on a packet of time `at`, because that
  // packet's time differed or because it carried the marker; or a loss.
  datatype Fate = Released(at: u32, bySplit: bool, nalus: seq<bytes>) | Lost

  datatype Cut = Cut(from: nat, upTo: nat, fate: Fate)

  // A decoder with the history of its run; the frame buffer holds the batches from `from` on.
  datatype Run = Run(s: State, batches: seq<Batch>, from: nat, cuts: seq<Cut>)

  function Next(r: Run, p: Packet): Run {
    var (s1, done) := NalusSpec(r.s, p);
    var (s', out) := DecodeSpec(r.s, p);
    if done.Err? then Run(s', r.batches, r.from, r.cuts)
    else
      var batches := r.batches + [Batch(p.timestamp, done.value)];
      var splits := s1.frame != [] && p.timestamp != s1.frameTimestamp;
      var end := if splits then |r.batches| else |batches|;
      if out.Ok? then Run(s', batches, end, r.cuts + [Cut(r.from, end, Released(p.timestamp, splits, out.value))])
      else if out.error.NeedMorePackets? then Run(s', batches, r.from, r.cuts)
      else Run(s', batches, |batches|, r.cuts + [Cut(r.from, |batches|, Lost)])
  }

  function RunAll(packets: seq<Packet>): Run {
    if packets == [] then Run(State(false, [], 0, [], 0), [], 0, [])
    else Next(RunAll(packets[..|packets| - 1]), packets[|packets| - 1])
  }

  function Flatten(batches: seq<Batch>): seq<bytes> {
    if batches == [] then []
    else Flatten(batches[..|batches| - 1]) + batches[|batches| - 1].nalus
  }

  // Every batch that holds a unit has this timestamp.
  ghost predicate OneTime(batches: seq<Batch>, ts: u32) {
    forall k :: 0 <= k < |batches| && batches[k].nalus != [] ==> batches[k].ts == ts
  }

  predicate Within(nalus: seq<bytes>) {
    |nalus| <= MAX_NALUS && Total(nalus) <= MAX_SIZE
  }

  // A returned unit holds its batches, all of one time: the releasing packet's own with a marker, another one's when
  // a change of time released it.
  ghost predicate UnitOk(bs: seq<Batch>, at: u32, bySplit: bool, nalus: seq<bytes>) {
    && nalus == Flatten(bs) && Within(nalus)
    && if bySplit then nalus != [] && exists ts | ts != at :: OneTime(bs, ts) else OneTime(bs, at)
  }

  // What is lost was within the bounds until its last batch arrived.
  ghost predicate LossOk(bs: seq<Batch>) {
    bs != [] && !Within(Flatten(bs)) && Within(Flatten(bs[..|bs| - 1]))
  }

  ghost predicate CutOk(batches: seq<Batch>, c: Cut) {
    && c.from <= c.upTo <= |batches|
    && var bs := batches[c.from..c.upTo];
    match c.fate
    case Released(at, bySplit, nalus) => UnitOk(bs, at, bySplit, nalus)
    case Lost => LossOk(bs)
  }

  ghost predicate FrameOk(r: Run) {
    && r.from <= |r.batches|
    && r.s.frame == Flatten(r.batches[r.from..])
    && (r.s.frame != [] ==> OneTime(r.batches[r.from..], r.s.frameTimestamp))
    && Within(r.s.frame)
  }

  // The cuts follow each other without gap or overlap from the first batch up to `end`.
  ghost predicate Tiles(cuts: seq<Cut>, end: nat) {
    (forall k | 0 <= k < |cuts| :: cuts[k].from == EndBefore(cuts, k)) && end == EndBefore(cuts, |cuts|)
  }

  function EndBefore(cuts: seq<Cut>, k: nat): nat
    requires k <= |cuts|
  {
    if k == 0 then 0 else cuts[k - 1].upTo
  }

  ghost predicate RunOk(r: Run) {
    && FrameOk(r)
    && Tiles(r.cuts, r.from)
    && forall k :: 0 <= k < |r.cuts| ==> CutOk(r.batches, r.cuts[k])
  }

  lemma TilesSnoc(cuts: seq<Cut>, end: nat, c: Cut)
    requires Tiles(cuts, end) && c.from == end
    ensures Tiles(cuts + [c], c.upTo)
  {
    var all := cuts + [c];
    forall k | 0 <= k < |all|
      ensures all[k].from == EndBefore(all, k)
    {
      assert EndBefore(all, k) == EndBefore(cuts, k);
      assert k < |cuts| ==> all[k] == cuts[k];
    }
  }

  lemma FlattenSnoc(bs: seq<Batch>, b: Batch)
    ensures Flatten(bs + [b]) == Flatten(bs) + b.nalus
  {
    assert (bs + [b])[..|bs|] == bs;
  }

  // Nothing is in a flattened list without units.
  lemma {:induction false} FlattenEmpty(bs: seq<Batch>)
    requires Flatten(bs) == []
    ensures forall k :: 0 <= k < |bs| ==> bs[k].nalus == []
  {
    if bs != [] {
      FlattenEmpty(bs[..|bs| - 1]);
      forall k | 0 <= k < |bs|
        ensures bs[k].nalus == []
      {
        assert k < |bs| - 1 ==> bs[k] == bs[..|bs| - 1][k];
      }
    }
  }

  // Decoding the payload leaves the frame buffer alone.
  lemma NalusLeaveFrame(s: State, p: Packet)
    ensures NalusSpec(s, p).0.frame == s.frame && NalusSpec(s, p).0.frameTimestamp == s.frameTimestamp
  {
    hide SplitSpec, StapSpec, Total;
  }

  // A batch of the same time as the frame buffer, or any batch when that is empty, extends it.
  lemma Extend(bs: seq<Batch>, b: Batch, frame: seq<bytes>, ts: u32)
    requires frame == Flatten(bs) && (frame != [] ==> OneTime(bs, ts) && b.ts == ts)
    ensures Flatten(bs + [b]) == frame + b.nalus && OneTime(bs + [b], b.ts)
  {
    FlattenSnoc(bs, b);
    if frame == [] {
      FlattenEmpty(bs);
    }
  }

  lemma SameSlice(bs: seq<Batch>, b: Batch, i: nat, j: nat)
    requires i <= j <= |bs|
    ensures (bs + [b])[i..j] == bs[i..j]
  {
  }

  lemma CutsStay(r: Run, b: Batch)
    requires forall k :: 0 <= k < |r.cuts| ==> CutOk(r.batches, r.cuts[k])
    ensures forall k :: 0 <= k < |r.cuts| ==> CutOk(r.batches + [b], r.cuts[k])
  {
    hide UnitOk, LossOk;
    forall k | 0 <= k < |r.cuts|
      ensures CutOk(r.batches + [b], r.cuts[k])
    {
      SameSlice(r.batches, b, r.cuts[k].from, r.cuts[k].upTo);
    }
  }

  lemma OneBatch(b: Batch)
    ensures Flatten([b]) == b.nalus && OneTime([b], b.ts)
  {
    FlattenSnoc([], b);
    assert [] + [b] == [b] && [] + b.nalus == b.nalus;
  }

  // The batches of the frame buffer and one more.
  lemma Grown(r: Run, b: Batch)
    requires FrameOk(r)
    ensures var batches := r.batches + [b];
            && batches[r.from..] == batches[r.from..|batches|] == r.batches[r.from..] + [b]
            && batches[r.from..|r.batches|] == r.batches[r.from..]
            && Flatten(batches[r.from..]) == r.s.frame + b.nalus
  {
    hide OneTime, Within, Flatten;
    FlattenSnoc(r.batches[r.from..], b);
  }

  // When they do not fit, all of them are lost.
  lemma LostTogether(r: Run, b: Batch)
    requires FrameOk(r) && !Within(r.s.frame + b.nalus)
    ensures LossOk((r.batches + [b])[r.from..])
  {
    hide OneTime, Within, Flatten;
    Grown(r, b);
    var bs := r.batches[r.from..] + [b];
    assert bs[..|bs| - 1] == r.batches[r.from..];
  }

  // The frame buffer is released by a packet of another time, which starts the next one - or, when that packet's
  // units alone are too much, is lost with them.
  lemma SplitStep(r: Run, p: Packet)
    requires RunOk(r) && NalusSpec(r.s, p).1.Ok?
    requires r.s.frame != [] && p.timestamp != r.s.frameTimestamp
    ensures RunOk(Next(r, p))
  {
    hide NalusSpec, OneTime, Flatten, Total, UnitOk, LossOk, Tiles;
    NalusLeaveFrame(r.s, p);
    var (s1, done) := NalusSpec(r.s, p);
    var b := Batch(p.timestamp, done.value);
    var batches := r.batches + [b];
    CutsStay(r, b);
    Grown(r, b);
    OneBatch(b);
    EmptyFrame();
    TotalAdds(r.s.frame, b.nalus);
    TotalAdds([], b.nalus);
    assert [] + b.nalus == b.nalus;
    assert batches[|r.batches|..] == [b] && batches[|batches|..] == [];
    if Within(b.nalus) {
      SplitUnit(r, p.timestamp);
      TilesSnoc(r.cuts, r.from, Cut(r.from, |r.batches|, Released(p.timestamp, true, r.s.frame)));
    } else {
      LostTogether(r, b);
      TilesSnoc(r.cuts, r.from, Cut(r.from, |batches|, Lost));
    }
  }

  lemma SplitUnit(r: Run, at: u32)
    requires FrameOk(r) && r.s.frame != [] && at != r.s.frameTimestamp
    ensures UnitOk(r.batches[r.from..], at, true, r.s.frame)
  {
    hide OneTime, Within, Flatten;
  }

  lemma EmptyFrame()
    ensures Flatten([]) == [] && Total([]) == 0
  {
  }

  // Otherwise the packet adds to the frame buffer, and releases it with its marker, unless it is too much.
  lemma GrowStep(r: Run, p: Packet)
    requires RunOk(r) && NalusSpec(r.s, p).1.Ok?
    requires r.s.frame == [] || p.timestamp == r.s.frameTimestamp
    ensures RunOk(Next(r, p))
  {
    hide NalusSpec, OneTime, Flatten, Total, UnitOk, LossOk, Tiles;
    NalusLeaveFrame(r.s, p);
    var b := Batch(p.timestamp, NalusSpec(r.s, p).1.value);
    var batches := r.batches + [b];
    CutsStay(r, b);
    Grown(r, b);
    GrownTime(r, b);
    assert batches[|batches|..] == [];
    EmptyFrame();
    TotalAdds(r.s.frame, b.nalus);
    if Within(r.s.frame + b.nalus) {
      TilesSnoc(r.cuts, r.from, Cut(r.from, |batches|, Released(p.timestamp, false, r.s.frame + b.nalus)));
    } else {
      LostTogether(r, b);
      TilesSnoc(r.cuts, r.from, Cut(r.from, |batches|, Lost));
    }
  }

  lemma GrownTime(r: Run, b: Batch)
    requires FrameOk(r) && (r.s.frame == [] || b.ts == r.s.frameTimestamp)
    ensures OneTime((r.batches + [b])[r.from..], b.ts)
    ensures Within(r.s.frame + b.nalus) ==> UnitOk((r.batches + [b])[r.from..], b.ts, false, r.s.frame + b.nalus)
  {
    hide OneTime, Flatten, Within;
    Extend(r.batches[r.from..], b, r.s.frame, r.s.frameTimestamp);
    assert (r.batches + [b])[r.from..] == r.batches[r.from..] + [b];
  }

  lemma TotalAdds(a: seq<bytes>, b: seq<bytes>)
    ensures Total(a + b) == Total(a) + Total(b)
  {
    ConcatAppend(a, b);
  }

  lemma NextKeeps(r: Run, p: Packet)
    requires RunOk(r)
    ensures RunOk(Next(r, p))
  {
    var done := NalusSpec(r.s, p).1;
    NalusLeaveFrame(r.s, p);
    if done.Err? {
      hide NalusSpec, OneTime, Flatten, Total, CutOk, Tiles;
      assert Next(r, p) == Run(NalusSpec(r.s, p).0, r.batches, r.from, r.cuts);
    } else if r.s.frame != [] && p.timestamp != r.s.frameTimestamp {
      hide RunOk, Next;
      SplitStep(r, p);
    } else {
      hide RunOk, Next;
      GrowStep(r, p);
    }
  }

  lemma {:induction false} RunKeeps(packets: seq<Packet>)
    ensures RunOk(RunAll(packets))
  {
    hide Next, NalusSpec;
    if packets != [] {
      RunKeeps(packets[..|packets| - 1]);
      NextKeeps(RunAll(packets[..|packets| - 1]), packets[|packets| - 1]);
    }
  }

  // Over every packet sequence, each access unit returned is a run of consecutive completed batches, all units of
  // one RTP timestamp, within both bounds. Its DTS is taken from the packet that released it: that packet has the
  // unit's own time exactly when it did not release it by a change of time.
  lemma UnitsOfOneTime(packets: seq<Packet>, k: nat)
    requires k < |RunAll(packets).cuts| && RunAll(packets).cuts[k].fate.Released?
    ensures var r := RunAll(packets);
            var u, unit := r.cuts[k], r.cuts[k].fate;
            && u.from <= u.upTo <= |r.batches|
            && unit.nalus == Flatten(r.batches[u.from..u.upTo])
            && (exists ts :: OneTime(r.batches[u.from..u.upTo], ts))
            && |unit.nalus| <= MAX_NALUS && Total(unit.nalus) <= MAX_SIZE
            && (unit.nalus != [] ==> (OneTime(r.batches[u.from..u.upTo], unit.at) <==> !unit.bySplit))
  {
    hide RunAll, Flatten, Total, Tiles, OneTime;
    RunKeeps(packets);
    var r := RunAll(packets);
    var u := r.cuts[k];
    assert CutOk(r.batches, u);
    if u.fate.nalus != [] && u.fate.bySplit {
      var bs := r.batches[u.from..u.upTo];
      var ts :| ts != u.fate.at && OneTime(bs, ts);
      TimeUnique(bs, ts);
    }
  }

  // Batches that hold a unit have at most one time.
  lemma TimeUnique(bs: seq<Batch>, a: u32)
    requires Flatten(bs) != [] && OneTime(bs, a)
    ensures forall b: u32 :: OneTime(bs, b) ==> b == a
  {
    hide Flatten;
    if forall k :: 0 <= k < |bs| ==> bs[k].nalus == [] {
      AllEmpty(bs);
    }
  }

  lemma {:induction false} AllEmpty(bs: seq<Batch>)
    requires forall k :: 0 <= k < |bs| ==> bs[k].nalus == []
    ensures Flatten(bs) == []
  {
    if bs != [] {
      AllEmpty(bs[..|bs| - 1]);
    }
  }

  // Every completed batch ends up in exactly one returned access unit, in exactly one loss or in the frame buffer,
  // in order; and nothing is lost unless the batch that arrived last put what was buffered over a bound.
  lemma EveryBatchOnce(packets: seq<Packet>)
    ensures var r := RunAll(packets);
            && Tiles(r.cuts, r.from) && r.from <= |r.batches| && r.s.frame == Flatten(r.batches[r.from..])
            && forall k | 0 <= k < |r.cuts| && r.cuts[k].fate.Lost? ::
                 && r.cuts[k].from < r.cuts[k].upTo <= |r.batches|
                 && !Within(Flatten(r.batches[r.cuts[k].from..r.cuts[k].upTo]))
                 && Within(Flatten(r.batches[r.cuts[k].from..r.cuts[k].upTo - 1]))
  {
    hide RunAll, Flatten, Within, Tiles;
    RunKeeps(packets);
    var r := RunAll(packets);
    forall k | 0 <= k < |r.cuts| && r.cuts[k].fate.Lost?
      ensures r.cuts[k].from < r.cuts[k].upTo <= |r.batches|
      ensures !Within(Flatten(r.batches[r.cuts[k].from..r.cuts[k].upTo]))
      ensures Within(Flatten(r.batches[r.cuts[k].from..r.cuts[k].upTo - 1]))
    {
      var c := r.cuts[k];
      assert CutOk(r.batches, c);
      var bs := r.batches[c.from..c.upTo];
      assert bs[..|bs| - 1] == r.batches[c.from..c.upTo - 1];
    }
  }

  // A fragmented unit sent to a decoder with nothing buffered comes out alone with the last packet's marker.
  lemma FuaAccessUnit(s: State, start: u16, ts: u32, nalu: bytes, parts: seq<bytes>)
    requires nalu != [] && |parts| > 0 && Concat(parts) == nalu[1..] && s.frame == []
    requires nalu[0] < 128 && CodeFree(nalu) && |nalu| <= MAX_SIZE
    ensures var n := |parts| - 1;
            DecodeSpec(Feed(s, start, ts, nalu[0], parts, n), FuaPacket(start, ts, nalu[0], parts, n)).1 == Ok([nalu])
    ensures forall k :: 0 <= k < |parts| - 1 ==>
              DecodeSpec(Feed(s, start, ts, nalu[0], parts, k), FuaPacket(start, ts, nalu[0], parts, k)).0
              == Feed(s, start, ts, nalu[0], parts, k + 1)
  {
    hide NalusSpec, Total, CodeFree;
    FuaRebuilds(s, start, ts, nalu, parts);
    var n := |parts| - 1;
    var d := Feed(s, start, ts, nalu[0], parts, n);
    var p := FuaPacket(start, ts, nalu[0], parts, n);
    if n > 0 {
      FeedHolds(s, start, ts, nalu[0], parts, n);
    }
    NalusLeaveFrame(d, p);
    OneTotal(nalu);
    forall k | 0 <= k < n
      ensures DecodeSpec(Feed(s, start, ts, nalu[0], parts, k), FuaPacket(start, ts, nalu[0], parts, k)).0
              == Feed(s, start, ts, nalu[0], parts, k + 1)
    {
      assert Completes(s, start, ts, nalu[0], parts, k).Err?;
    }
  }

  lemma OneTotal(nalu: bytes)
    ensures Total([nalu]) == |nalu| && Total([]) == 0 && [] + [nalu] == [nalu]
  {
    assert Concat([nalu]) == nalu by { assert [nalu][1..] == []; }
    EmptyTotal();
  }
}
