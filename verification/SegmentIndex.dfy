/**
  The sidx box (section 8.16.3 of ISO/IEC 14496-12) that turns the muxer's fragment index into
  byte spans and tick durations, the parser that adds them up again, and the seek that uses them.
 */
module SegmentIndex {
  import opened Bytes
  import opened Wrappers
  import opened Boxes
  import opened FragmentMuxer
  import opened Ticks

  const SIDX: u32 := 0x7369_6478

  /** One parsed reference: times in nanoseconds, offset absolute. */
  datatype SidxEntry = SidxEntry(pts: int, duration: int, offset: int, size: nat, startsWithSAP: bool)

  // ── Building ────────────────────────────────────────────────────────────────

  /** Distance to the next fragment's start; the last one spans its own bytes. */
  function Span(entries: seq<FragmentIndex>, i: nat): int
    requires i < |entries|
  {
    if i + 1 < |entries| then entries[i + 1].offset - entries[i].offset else entries[i].size
  }

  function SapWord(sap: bool): u32 {
    if sap then 0x9000_0000 else 0
  }

  function Reference(entries: seq<FragmentIndex>, timescale: u32, i: nat): (b: bytes)
    requires i < |entries|
    ensures |b| == 12
  {
    PutU32(Span(entries, i) % TWO31)
    + PutU32(ToTicks(entries[i].duration, timescale))
    + PutU32(SapWord(entries[i].startsWithSAP))
  }

  function References(entries: seq<FragmentIndex>, timescale: u32, i: nat): (b: bytes)
    requires i <= |entries|
    ensures |b| == 12 * (|entries| - i)
    decreases |entries| - i
  {
    if i == |entries| then [] else Reference(entries, timescale, i) + References(entries, timescale, i + 1)
  }

  function SidxHeader(entries: seq<FragmentIndex>, referenceID: u32, timescale: u32, anchor: int): (b: bytes)
    requires entries != []
    ensures |b| == 28
  {
    PutU32(referenceID) + PutU32(timescale)
    + PutU64(ToTicks(entries[0].pts, timescale))
    + PutU64(entries[0].offset - anchor)
    + PutU16(0) + PutU16(|entries|)
  }

  /** `BuildSidx`; no box for an empty index. */
  function BuildSidx(entries: seq<FragmentIndex>, referenceID: u32, timescale: u32, anchor: int): Option<Box> {
    if entries == [] then None
    else Some(FullBox(SIDX, 1, 0,
                      SidxHeader(entries, referenceID, timescale, anchor) + References(entries, timescale, 0)))
  }

  // ── Parsing ─────────────────────────────────────────────────────────────────

  /** References i, …, n-1 from position `pos` on: presentation times and offsets accumulate. */
  function ReadReferences(p: bytes, timescale: u32, pos: nat, i: nat, n: nat, pts: nat, offset: int): seq<SidxEntry>
    requires i <= n && pos + 12 * (n - i) <= |p|
    decreases n - i
  {
    if i == n then []
    else
      var size := U32(p, pos) % TWO31;
      var dur := U32(p, pos + 4);
      [SidxEntry(ToDuration(Int64(pts), timescale), ToDuration(dur, timescale), offset, size, U32(p, pos + 8) >= TWO31)]
      + ReadReferences(p, timescale, pos + 12, i + 1, n, (pts + dur) % TWO64, offset + size)
  }

  /** The fixed part: timescale, earliest time, first offset, where the references start and how many there are. */
  datatype Prefix = Prefix(timescale: u32, pts: nat, offset: int, pos: nat, count: nat)

  function ReadPrefix(p: bytes, anchor: int): Option<Prefix> {
    if |p| < 12 then None
    else
      var timescale := U32(p, 8);
      if timescale == 0 then None
      else
        var wide := p[0] != 0;
        var pos := if wide then 28 else 20;
        if |p| < pos + 4 then None
        else
          var count := U16(p, pos + 2);
          if |p| < pos + 4 + count * 12 then None
          else if wide then Some(Prefix(timescale, U64(p, 12), anchor + Int64(U64(p, 20)), pos + 4, count))
          else Some(Prefix(timescale, U32(p, 12), anchor + U32(p, 16), pos + 4, count))
  }

  function ParseSidxSpec(p: bytes, anchor: int): Option<seq<SidxEntry>> {
    match ReadPrefix(p, anchor)
    case None => None
    case Some(h) =>
      if |p| < h.pos + 12 * h.count || h.count == 0 then None
      else Some(ReadReferences(p, h.timescale, h.pos, 0, h.count, h.pts, h.offset))
  }

  /** `ParseSidx`. */
  method ParseSidx(p: bytes, anchor: int) returns (r: Option<seq<SidxEntry>>)
    ensures r == ParseSidxSpec(p, anchor)
  {
    hide U32, U64, U16, ToDuration, Int64;
    if |p| < 12 {
      return None;
    }
    var timescale := U32(p, 8);
    if timescale == 0 {
      return None;
    }
    var pos: nat := 12;
    var pts: nat;
    var offset := anchor;
    if p[0] == 0 {
      if |p| < pos + 8 {
        return None;
      }
      pts := U32(p, pos);
      offset := offset + U32(p, pos + 4);
      pos := pos + 8;
    } else {
      if |p| < pos + 16 {
        return None;
      }
      pts := U64(p, pos);
      offset := offset + Int64(U64(p, pos + 8));
      pos := pos + 16;
    }
    if |p| < pos + 4 {
      return None;
    }
    var n := U16(p, pos + 2);
    pos := pos + 4;
    if |p| < pos + n * 12 {
      return None;
    }
    var entries := ReadLoop(p, timescale, pos, n, pts, offset);
    r := if n > 0 then Some(entries) else None;
  }

  /** The reference loop of `ParseSidx`. */
  method ReadLoop(p: bytes, timescale: u32, start: nat, n: nat, firstPTS: nat, firstOffset: int)
    returns (entries: seq<SidxEntry>)
    requires start + 12 * n <= |p|
    ensures entries == ReadReferences(p, timescale, start, 0, n, firstPTS, firstOffset)
  {
    hide U32, ToDuration, Int64;
    entries := [];
    var pos, pts: nat, offset := start, firstPTS, firstOffset;
    for i := 0 to n
      invariant pos == start + 12 * i
      invariant ReadReferences(p, timescale, start, 0, n, firstPTS, firstOffset)
             == entries + ReadReferences(p, timescale, pos, i, n, pts, offset)
    {
      var size := U32(p, pos) % TWO31;
      var dur := U32(p, pos + 4);
      entries := entries + [SidxEntry(ToDuration(Int64(pts), timescale), ToDuration(dur, timescale), offset, size,
                                      U32(p, pos + 8) >= TWO31)];
      pos, pts, offset := pos + 12, (pts + dur) % TWO64, offset + size;
    }
  }

  // ── Round trip of offsets and access points ─────────────────────────────────

  /** What parsing a built index yields for entry i, …: accumulated from the written fields. */
  function Recovered(entries: seq<FragmentIndex>, timescale: u32, i: nat, n: nat, pts: nat, offset: int)
    : (r: seq<SidxEntry>)
    requires i <= n <= |entries|
    ensures |r| == n - i
    decreases n - i
  {
    if i == n then []
    else
      var size := Span(entries, i) % TWO31;
      var dur := ToTicks(entries[i].duration, timescale) % TWO32;
      [SidxEntry(ToDuration(Int64(pts), timescale), ToDuration(dur, timescale), offset, size, entries[i].startsWithSAP)]
      + Recovered(entries, timescale, i + 1, n, (pts + dur) % TWO64, offset + size)
  }

  lemma ReferenceRoundTrip(p: bytes, pos: nat, entries: seq<FragmentIndex>, timescale: u32, i: nat)
    requires i < |entries| && pos + 12 <= |p| && p[pos..pos + 12] == Reference(entries, timescale, i)
    ensures U32(p, pos) == Span(entries, i) % TWO31
    ensures U32(p, pos + 4) == ToTicks(entries[i].duration, timescale) % TWO32
    ensures U32(p, pos + 8) == SapWord(entries[i].startsWithSAP)
  {
    hide U32, PutU32, ToTicks;
    var w := Reference(entries, timescale, i);
    assert w[0..4] == PutU32(Span(entries, i) % TWO31);
    assert w[4..8] == PutU32(ToTicks(entries[i].duration, timescale));
    assert w[8..12] == PutU32(SapWord(entries[i].startsWithSAP));
    U32InWindow(p, pos, w, 0, Span(entries, i) % TWO31);
    U32InWindow(p, pos, w, 4, ToTicks(entries[i].duration, timescale));
    U32InWindow(p, pos, w, 8, SapWord(entries[i].startsWithSAP));
  }

  lemma HeadAndTail(p: bytes, pos: nat, head: bytes, tail: bytes)
    requires pos <= |p| && p[pos..] == head + tail
    ensures pos + |head| <= |p| && p[pos..pos + |head|] == head && p[pos + |head|..] == tail
  {
    assert p[pos..pos + |head|] == p[pos..][..|head|] && p[pos + |head|..] == p[pos..][|head|..];
  }

  lemma {:induction false} ReferencesRoundTrip(p: bytes, pos: nat, entries: seq<FragmentIndex>, timescale: u32,
                                               i: nat, n: nat, pts: nat, offset: int)
    requires i <= n <= |entries| && pos <= |p| && p[pos..] == References(entries, timescale, i)
    ensures pos + 12 * (n - i) <= |p|
    ensures ReadReferences(p, timescale, pos, i, n, pts, offset) == Recovered(entries, timescale, i, n, pts, offset)
    decreases n - i
  {
    hide U32, Reference, ToTicks, ToDuration, Int64, Span;
    if i < n {
      HeadAndTail(p, pos, Reference(entries, timescale, i), References(entries, timescale, i + 1));
      ReferenceRoundTrip(p, pos, entries, timescale, i);
      var size := Span(entries, i) % TWO31;
      var dur := ToTicks(entries[i].duration, timescale) % TWO32;
      ReferencesRoundTrip(p, pos + 12, entries, timescale, i + 1, n, (pts + dur) % TWO64, offset + size);
    }
  }

  lemma HeaderRoundTrip(entries: seq<FragmentIndex>, referenceID: u32, timescale: u32, anchor: int)
    requires entries != [] && timescale > 0
    ensures var p := BuildSidx(entries, referenceID, timescale, anchor).value.payload;
            ReadPrefix(p, anchor)
            == Some(Prefix(timescale, ToTicks(entries[0].pts, timescale) % TWO64,
                           anchor + Int64(entries[0].offset - anchor), 32, |entries| % 0x1_0000))
  {
    hide U32, U64, U16, PutU32, PutU64, PutU16, ToTicks, Int64, References;
    var h := SidxHeader(entries, referenceID, timescale, anchor);
    var body := h + References(entries, timescale, 0);
    var p := BuildSidx(entries, referenceID, timescale, anchor).value.payload;
    FullBoxFields(SIDX, 1, 0, body);
    assert p[4..32] == p[4..][..28] == h;
    assert h[4..8] == PutU32(timescale);
    assert h[8..16] == PutU64(ToTicks(entries[0].pts, timescale));
    assert h[16..24] == PutU64(entries[0].offset - anchor);
    assert h[26..28] == PutU16(|entries|);
    U32InWindow(p, 4, h, 4, timescale);
    SubWindow(p, 4, h, 8, 8);
    U64OfPut(p, 12, ToTicks(entries[0].pts, timescale));
    SubWindow(p, 4, h, 16, 8);
    U64OfPut(p, 20, entries[0].offset - anchor);
    SubWindow(p, 4, h, 26, 2);
    U16OfPut(p, 30, |entries|);
    Int64Mod(entries[0].offset - anchor);
  }

  lemma Int64Mod(v: int)
    ensures Int64(v % TWO64) == Int64(v)
  {
  }

  /** Parsing a built index returns its first |entries| mod 2^16 entries, with wrapped spans added up. */
  lemma SidxRoundTrip(entries: seq<FragmentIndex>, referenceID: u32, timescale: u32, anchor: int)
    requires entries != [] && timescale > 0
    ensures var n := |entries| % 0x1_0000;
            ParseSidxSpec(BuildSidx(entries, referenceID, timescale, anchor).value.payload, anchor)
            == if n == 0 then None
               else Some(Recovered(entries, timescale, 0, n, ToTicks(entries[0].pts, timescale) % TWO64,
                                   anchor + Int64(entries[0].offset - anchor)))
  {
    hide ToTicks, Int64, Recovered, ReadReferences, SidxHeader, ReadPrefix;
    var n := |entries| % 0x1_0000;
    var body := SidxHeader(entries, referenceID, timescale, anchor) + References(entries, timescale, 0);
    var p := BuildSidx(entries, referenceID, timescale, anchor).value.payload;
    FullBoxFields(SIDX, 1, 0, body);
    HeaderRoundTrip(entries, referenceID, timescale, anchor);
    assert p[32..] == p[4..][28..] == References(entries, timescale, 0);
    ReferencesRoundTrip(p, 32, entries, timescale, 0, n, ToTicks(entries[0].pts, timescale) % TWO64,
                        anchor + Int64(entries[0].offset - anchor));
  }

  /** The wrapped spans of entries i, …, i + k - 1 added to an offset. */
  function Reach(entries: seq<FragmentIndex>, i: nat, k: nat, offset: int): int
    requires i + k <= |entries|
    decreases k
  {
    if k == 0 then offset else Reach(entries, i + 1, k - 1, offset + Span(entries, i) % TWO31)
  }

  lemma {:induction false} ReachStep(entries: seq<FragmentIndex>, i: nat, k: nat, offset: int)
    requires i + k < |entries|
    ensures Reach(entries, i, k + 1, offset) == Reach(entries, i, k, offset) + Span(entries, i + k) % TWO31
    decreases k
  {
    if k > 0 {
      ReachStep(entries, i + 1, k - 1, offset + Span(entries, i) % TWO31);
    }
  }

  lemma {:induction false} RecoveredOffset(entries: seq<FragmentIndex>, timescale: u32, i: nat, n: nat, pts: nat,
                                           offset: int, k: nat)
    requires i <= n <= |entries| && k < n - i
    ensures Recovered(entries, timescale, i, n, pts, offset)[k].offset == Reach(entries, i, k, offset)
    decreases n - i
  {
    hide ToTicks, ToDuration, Int64;
    if k > 0 {
      var size := Span(entries, i) % TWO31;
      var dur := ToTicks(entries[i].duration, timescale) % TWO32;
      RecoveredOffset(entries, timescale, i + 1, n, (pts + dur) % TWO64, offset + size, k - 1);
    }
  }

  /** Every distance between neighbouring fragments fits the 31-bit size field. */
  predicate SpansFit(entries: seq<FragmentIndex>, n: nat)
    requires n <= |entries|
  {
    forall j | 0 <= j < n - 1 :: 0 <= Span(entries, j) < TWO31
  }

  lemma {:induction false} ReachExact(entries: seq<FragmentIndex>, n: nat, k: nat)
    requires k < n <= |entries| && SpansFit(entries, n)
    ensures Reach(entries, 0, k, entries[0].offset) == entries[k].offset
  {
    if k > 0 {
      ReachExact(entries, n, k - 1);
      ReachStep(entries, 0, k - 1, entries[0].offset);
      assert 0 <= Span(entries, k - 1) < TWO31;
    }
  }

  /** Every recovered offset is the true one if and only if every span fits. */
  lemma OffsetsRecovered(entries: seq<FragmentIndex>, timescale: u32, n: nat, pts: nat)
    requires 0 < n <= |entries|
    ensures var r := Recovered(entries, timescale, 0, n, pts, entries[0].offset);
            (forall k | 0 <= k < n :: r[k].offset == entries[k].offset) <==> SpansFit(entries, n)
  {
    hide Recovered, Reach;
    var r := Recovered(entries, timescale, 0, n, pts, entries[0].offset);
    forall k | 0 <= k < n
      ensures r[k].offset == Reach(entries, 0, k, entries[0].offset)
    {
      RecoveredOffset(entries, timescale, 0, n, pts, entries[0].offset, k);
    }
    if SpansFit(entries, n) {
      forall k | 0 <= k < n
        ensures r[k].offset == entries[k].offset
      {
        ReachExact(entries, n, k);
      }
    }
    if forall k | 0 <= k < n :: r[k].offset == entries[k].offset {
      forall j | 0 <= j < n - 1
        ensures 0 <= Span(entries, j) < TWO31
      {
        assert r[j].offset == entries[j].offset && r[j + 1].offset == entries[j + 1].offset;
        ReachStep(entries, 0, j, entries[0].offset);
      }
    }
  }

  lemma {:induction false} SapsRecovered(entries: seq<FragmentIndex>, timescale: u32, i: nat, n: nat, pts: nat,
                                         offset: int, k: nat)
    requires i <= n <= |entries| && k < n - i
    ensures Recovered(entries, timescale, i, n, pts, offset)[k].startsWithSAP == entries[i + k].startsWithSAP
    decreases n - i
  {
    hide ToTicks, ToDuration, Int64;
    if k > 0 {
      var size := Span(entries, i) % TWO31;
      var dur := ToTicks(entries[i].duration, timescale) % TWO32;
      SapsRecovered(entries, timescale, i + 1, n, (pts + dur) % TWO64, offset + size, k - 1);
    }
  }

  /**
    The index round trip: below 2^16 fragments every entry comes back with its access-point flag,
    and all offsets come back exact if and only if no two neighbours are 2^31 bytes apart.
   */
  lemma IndexRoundTrip(entries: seq<FragmentIndex>, referenceID: u32, timescale: u32, anchor: int)
    requires 0 < |entries| < 0x1_0000 && timescale > 0
    requires -TWO63 <= entries[0].offset - anchor < TWO63
    ensures var r := ParseSidxSpec(BuildSidx(entries, referenceID, timescale, anchor).value.payload, anchor);
            && r.Some? && |r.value| == |entries|
            && (forall k | 0 <= k < |entries| :: r.value[k].startsWithSAP == entries[k].startsWithSAP)
            && ((forall k | 0 <= k < |entries| :: r.value[k].offset == entries[k].offset)
                <==> SpansFit(entries, |entries|))
  {
    hide ToTicks, Int64, Recovered, BuildSidx, ParseSidxSpec, SpansFit;
    var n, pts := |entries|, ToTicks(entries[0].pts, timescale) % TWO64;
    SidxRoundTrip(entries, referenceID, timescale, anchor);
    forall k | 0 <= k < n
      ensures Recovered(entries, timescale, 0, n, pts, entries[0].offset)[k].startsWithSAP == entries[k].startsWithSAP
    {
      SapsRecovered(entries, timescale, 0, n, pts, entries[0].offset, k);
    }
    OffsetsRecovered(entries, timescale, n, pts);
  }

  // ── Times ───────────────────────────────────────────────────────────────────

  /** A tick count that survives the conversion to nanoseconds and back. */
  predicate Lossless(x: nat, timescale: u32)
    requires timescale > 0
  {
    x * SECOND % timescale == 0
  }

  lemma QuotientBack(x: nat, unit: nat, timescale: nat, d: nat, r: nat)
    requires 0 < timescale <= unit && x * unit == timescale * d + r && r < timescale
    ensures timescale * d / unit == if r == 0 then x else x - 1
  {
    if r == 0 {
      RemainderUnique(timescale * d, unit, x, 0);
    } else {
      assert unit * (x - 1) == unit * x - unit;
      RemainderUnique(timescale * d, unit, x - 1, unit - r);
    }
  }

  lemma DurationOf(x: nat, timescale: u32)
    requires timescale > 0 && x * SECOND < TWO63
    ensures ToDuration(x, timescale) == x * SECOND / timescale >= 0
  {
    hide Int64;
    var total := x * SECOND;
    assert Int64(total) == total;
    QuotientNonNegative(total, timescale);
  }

  lemma TicksOf(d: nat, timescale: u32)
    requires d * timescale < TWO63
    ensures ToTicks(d, timescale) == d * timescale / SECOND
  {
    hide Int64;
  }

  /** Ticks to nanoseconds and back loses nothing, or exactly one tick. */
  lemma TickRoundTrip(x: nat, timescale: u32)
    requires 0 < timescale <= SECOND && x * SECOND < TWO63
    ensures ToTicks(ToDuration(x, timescale), timescale) == if Lossless(x, timescale) then x else x - 1
  {
    hide ToTicks, ToDuration;
    var total := x * SECOND;
    var d, r := total / timescale, total % timescale;
    assert total == timescale * d + r;
    DurationOf(x, timescale);
    assert d * timescale == timescale * d;
    TicksOf(d, timescale);
    QuotientBack(x, SECOND, timescale, d, r);
  }

  /** A single-track index over contiguous fragments: base decode time and durations in ticks. */
  datatype Timeline = Timeline(base: nat, durs: seq<nat>, timescale: u32)

  /** The tick at which fragment k starts. */
  function StartTick(tl: Timeline, k: nat): nat
    requires k <= |tl.durs|
  {
    if k == 0 then tl.base else StartTick(tl, k - 1) + tl.durs[k - 1]
  }

  /** Short enough that no conversion leaves 63 bits and every duration fits its 32-bit field. */
  predicate Fits(tl: Timeline) {
    && 0 < tl.timescale <= SECOND
    && StartTick(tl, |tl.durs|) * SECOND < TWO63
    && forall k | 0 <= k < |tl.durs| :: tl.durs[k] < TWO32
  }

  /** These are the muxer's index entries for the fragments. */
  predicate Describes(tl: Timeline, entries: seq<FragmentIndex>) {
    && |entries| == |tl.durs|
    && forall k | 0 <= k < |tl.durs| ::
         && entries[k].pts == ToDuration(StartTick(tl, k), tl.timescale)
         && entries[k].duration == ToDuration(tl.durs[k], tl.timescale)
  }

  function Loss(x: nat, timescale: u32): (n: nat)
    requires timescale > 0
    ensures n <= 1
  {
    if Lossless(x, timescale) then 0 else 1
  }

  /** How many of the k + 1 conversions in front of entry k drop a tick. */
  function Lost(tl: Timeline, k: nat): (n: nat)
    requires tl.timescale > 0 && k <= |tl.durs|
    ensures n <= k + 1
  {
    if k == 0 then Loss(tl.base, tl.timescale) else Lost(tl, k - 1) + Loss(tl.durs[k - 1], tl.timescale)
  }

  lemma {:induction false} StartTickGrows(tl: Timeline, i: nat, k: nat)
    requires i <= k <= |tl.durs|
    ensures StartTick(tl, i) <= StartTick(tl, k)
    decreases k - i
  {
    if i < k {
      StartTickGrows(tl, i, k - 1);
    }
  }

  lemma LossBound(x: nat, timescale: u32)
    requires timescale > 0
    ensures Loss(x, timescale) <= x
  {
  }

  lemma {:induction false} LostBound(tl: Timeline, k: nat)
    requires tl.timescale > 0 && k <= |tl.durs|
    ensures Lost(tl, k) <= StartTick(tl, k)
  {
    hide Loss;
    if k == 0 {
      LossBound(tl.base, tl.timescale);
    } else {
      LossBound(tl.durs[k - 1], tl.timescale);
      LostBound(tl, k - 1);
    }
  }

  /** Every tick count on the timeline stays in range of the conversions. */
  lemma TickFits(tl: Timeline, k: nat, x: nat)
    requires Fits(tl) && k <= |tl.durs| && x <= StartTick(tl, k)
    ensures x * SECOND < TWO63 && x < TWO63
  {
    hide StartTick;
    StartTickGrows(tl, k, |tl.durs|);
  }

  lemma DurationTicksOf(d: nat, timescale: u32)
    requires 0 < timescale <= SECOND && d * SECOND < TWO63 && d < TWO32
    ensures ToTicks(ToDuration(d, timescale), timescale) % TWO32 == d - Loss(d, timescale)
  {
    hide ToTicks, ToDuration, Lossless;
    TickRoundTrip(d, timescale);
    LossBound(d, timescale);
  }

  lemma DurationTicks(tl: Timeline, entries: seq<FragmentIndex>, i: nat)
    requires Fits(tl) && Describes(tl, entries) && i < |tl.durs|
    ensures ToTicks(entries[i].duration, tl.timescale) % TWO32 == tl.durs[i] - Loss(tl.durs[i], tl.timescale)
  {
    hide ToTicks, ToDuration, Loss, Lossless;
    TickFits(tl, i + 1, tl.durs[i]);
    DurationTicksOf(tl.durs[i], tl.timescale);
  }

  lemma {:induction false} RecoveredPts(tl: Timeline, entries: seq<FragmentIndex>, i: nat, n: nat, pts: nat,
                                        offset: int, k: nat)
    requires Fits(tl) && Describes(tl, entries) && i <= n <= |entries| && k < n - i
    requires pts == StartTick(tl, i) - Lost(tl, i)
    ensures Recovered(entries, tl.timescale, i, n, pts, offset)[k].pts
         == ToDuration(StartTick(tl, i + k) - Lost(tl, i + k), tl.timescale)
    decreases n - i
  {
    hide ToTicks, ToDuration, Int64, Loss, Fits, Describes;
    assert tl.timescale > 0 && |entries| == |tl.durs| by { FitsParts(tl); DescribesParts(tl, entries); }
    TickFits(tl, i, pts);
    if k > 0 {
      var size := Span(entries, i) % TWO31;
      var dur := ToTicks(entries[i].duration, tl.timescale) % TWO32;
      DurationTicks(tl, entries, i);
      assert pts + dur == StartTick(tl, i + 1) - Lost(tl, i + 1);
      TickFits(tl, i + 1, pts + dur);
      RecoveredPts(tl, entries, i + 1, n, (pts + dur) % TWO64, offset + size, k - 1);
    }
  }

  lemma FitsParts(tl: Timeline)
    requires Fits(tl)
    ensures 0 < tl.timescale <= SECOND
  {
  }

  lemma DescribesParts(tl: Timeline, entries: seq<FragmentIndex>)
    requires Describes(tl, entries)
    ensures |entries| == |tl.durs|
    ensures entries != [] ==> entries[0].pts == ToDuration(tl.base, tl.timescale)
  {
    if entries != [] {
      assert entries[0].pts == ToDuration(StartTick(tl, 0), tl.timescale);
    }
  }

  /**
    Parsed times: entry k starts at its true tick less the conversions that dropped one, so it is
    never late and at most k + 1 ticks early, and exact if and only if none of them dropped one.
   */
  lemma ParsedTimes(tl: Timeline, entries: seq<FragmentIndex>, referenceID: u32, anchor: int, k: nat)
    requires Fits(tl) && Describes(tl, entries) && k < |entries| < 0x1_0000
    requires -TWO63 <= entries[0].offset - anchor < TWO63
    ensures var r := ParseSidxSpec(BuildSidx(entries, referenceID, tl.timescale, anchor).value.payload, anchor);
            && r.Some? && |r.value| == |entries|
            && Lost(tl, k) <= StartTick(tl, k)
            && r.value[k].pts == ToDuration(StartTick(tl, k) - Lost(tl, k), tl.timescale)
    ensures Lost(tl, k) <= k + 1
    ensures Lost(tl, k) == 0
            <==> Lossless(tl.base, tl.timescale) && forall j | 0 <= j < k :: Lossless(tl.durs[j], tl.timescale)
  {
    hide ToTicks, ToDuration, Int64, Recovered, BuildSidx, ParseSidxSpec, Lossless, Fits, Describes, Lost, StartTick;
    var ts := tl.timescale;
    FitsParts(tl);
    DescribesParts(tl, entries);
    SidxRoundTrip(entries, referenceID, ts, anchor);
    FirstTicks(tl);
    LostBound(tl, k);
    RecoveredPts(tl, entries, 0, |entries|, ToTicks(entries[0].pts, ts) % TWO64, entries[0].offset, k);
    LostNone(tl, k);
  }

  lemma FirstTicks(tl: Timeline)
    requires Fits(tl)
    ensures ToTicks(ToDuration(tl.base, tl.timescale), tl.timescale) % TWO64 == StartTick(tl, 0) - Lost(tl, 0)
  {
    hide ToTicks, ToDuration, Lossless;
    TickFits(tl, 0, tl.base);
    TickRoundTrip(tl.base, tl.timescale);
    LossBound(tl.base, tl.timescale);
  }

  lemma {:induction false} LostNone(tl: Timeline, k: nat)
    requires tl.timescale > 0 && k <= |tl.durs|
    ensures Lost(tl, k) == 0
            <==> Lossless(tl.base, tl.timescale) && forall j | 0 <= j < k :: Lossless(tl.durs[j], tl.timescale)
  {
    hide Lossless;
    if k > 0 {
      LostNone(tl, k - 1);
    }
  }

  // ── Seeking ─────────────────────────────────────────────────────────────────

  /** How many leading entries start no later than the target. */
  function Leading(pts: seq<int>, target: int): (n: nat)
    ensures n <= |pts|
  {
    if pts == [] || pts[0] > target then 0 else 1 + Leading(pts[1..], target)
  }

  /** The entry `seekViaSidx` chooses. */
  function SeekIndex(pts: seq<int>, target: int): (i: nat)
    requires pts != []
    ensures i < |pts|
  {
    if Leading(pts, target) == 0 then 0 else Leading(pts, target) - 1
  }

  /** The scan of `seekViaSidx`. */
  method SeekViaSidx(pts: seq<int>, target: int) returns (best: nat)
    requires pts != []
    ensures best == SeekIndex(pts, target)
  {
    best := 0;
    for i := 0 to |pts|
      invariant best == if i == 0 then 0 else i - 1
      invariant Leading(pts, target) == i + Leading(pts[i..], target)
    {
      if pts[i] > target {
        break;
      }
      assert pts[i..][1..] == pts[i + 1..];
      best := i;
    }
  }

  lemma {:induction false} LeadingProps(pts: seq<int>, target: int)
    ensures forall i | 0 <= i < Leading(pts, target) :: pts[i] <= target
    ensures Leading(pts, target) < |pts| ==> pts[Leading(pts, target)] > target
  {
    if pts != [] && pts[0] <= target {
      LeadingProps(pts[1..], target);
      var n := Leading(pts[1..], target);
      forall i | 0 <= i < n + 1
        ensures pts[i] <= target
      {
        if i > 0 {
          assert pts[1..][i - 1] <= target;
        }
      }
    }
  }

  /** Where entry k of a parsed index starts, in nanoseconds. */
  function ParsedStart(tl: Timeline, k: nat): int
    requires tl.timescale > 0 && k <= |tl.durs|
  {
    ToDuration(StartTick(tl, k) - Lost(tl, k), tl.timescale)
  }

  /** The parsed start times of a timeline's fragments, in nanoseconds. */
  function ParsedPts(tl: Timeline): (r: seq<int>)
    requires Fits(tl)
    ensures |r| == |tl.durs|
  {
    seq(|tl.durs|, k requires 0 <= k < |tl.durs| => ParsedStart(tl, k))
  }

  function TrueStart(tl: Timeline, k: nat): int
    requires k <= |tl.durs|
  {
    ToDuration(StartTick(tl, k), tl.timescale)
  }

  lemma {:induction false} ParsedGrows(tl: Timeline, i: nat, k: nat)
    requires Fits(tl) && i <= k < |tl.durs|
    ensures Lost(tl, i) <= StartTick(tl, i) && StartTick(tl, i) - Lost(tl, i) <= StartTick(tl, k) - Lost(tl, k)
    decreases k - i
  {
    hide Loss;
    LostBound(tl, i);
    if i < k {
      ParsedGrows(tl, i, k - 1);
      LossBound(tl.durs[k - 1], tl.timescale);
    }
  }

  lemma ParsedVsTrue(tl: Timeline, k: nat)
    requires Fits(tl) && k < |tl.durs|
    ensures ParsedStart(tl, k) <= TrueStart(tl, k)
    ensures ParsedStart(tl, k) == TrueStart(tl, k) <==> Lost(tl, k) == 0
  {
    hide ToDuration, Fits, Lost, StartTick;
    FitsParts(tl);
    LostBound(tl, k);
    TickFits(tl, k, StartTick(tl, k));
    DurationMonotone(StartTick(tl, k) - Lost(tl, k), StartTick(tl, k), tl.timescale);
  }

  /** A seek that does not fall back to the first fragment lands at or before its target. */
  predicate NotLate(tl: Timeline, target: int)
    requires Fits(tl) && tl.durs != []
  {
    var i := SeekIndex(ParsedPts(tl), target);
    i == 0 || TrueStart(tl, i) <= target
  }

  lemma ParsedStartGrows(tl: Timeline, i: nat, k: nat)
    requires Fits(tl) && i <= k < |tl.durs|
    ensures ParsedStart(tl, i) <= ParsedStart(tl, k)
  {
    hide ToDuration, Fits, Lost, StartTick;
    FitsParts(tl);
    ParsedGrows(tl, i, k);
    TickFits(tl, k, StartTick(tl, k) - Lost(tl, k));
    DurationMonotone(StartTick(tl, i) - Lost(tl, i), StartTick(tl, k) - Lost(tl, k), tl.timescale);
  }

  lemma TrueStartGrows(tl: Timeline, i: nat, k: nat)
    requires Fits(tl) && i <= k <= |tl.durs|
    ensures TrueStart(tl, i) <= TrueStart(tl, k)
  {
    hide ToDuration, Fits, StartTick;
    FitsParts(tl);
    StartTickGrows(tl, i, k);
    TickFits(tl, k, StartTick(tl, k));
    DurationMonotone(StartTick(tl, i), StartTick(tl, k), tl.timescale);
  }

  lemma LateSeek(tl: Timeline, k: nat)
    requires Fits(tl) && 0 < k < |tl.durs| && Lost(tl, k) > 0
    ensures !NotLate(tl, TrueStart(tl, k) - 1)
  {
    hide ParsedStart, TrueStart, Fits, Lost;
    FitsParts(tl);
    var pts, target := ParsedPts(tl), TrueStart(tl, k) - 1;
    ParsedVsTrue(tl, k);
    forall i | 0 <= i <= k
      ensures pts[i] <= target
    {
      ParsedStartGrows(tl, i, k);
    }
    LeadingProps(pts, target);
    var b := SeekIndex(pts, target);
    assert b >= k;
    TrueStartGrows(tl, k, b);
  }

  /** A late seek at the usual clock: two fragments of 3000 ticks at 90 kHz. */
  lemma LateSeekHappens()
    ensures var tl := Timeline(0, [3000, 3000], 90000);
            Fits(tl) && !NotLate(tl, TrueStart(tl, 1) - 1)
  {
    var tl := Timeline(0, [3000, 3000], 90000);
    assert StartTick(tl, 1) == 3000 && StartTick(tl, 2) == 6000;
    assert Lost(tl, 1) == 1;
    LateSeek(tl, 1);
  }

  /**
    Seeking to "at or before the target" is kept for every target exactly when no conversion in
    front of the last fragment drops a tick; otherwise some target lands one fragment late.
   */
  lemma SeekNeverLate(tl: Timeline)
    requires Fits(tl) && |tl.durs| >= 2
    ensures (forall target: int :: NotLate(tl, target))
            <==> Lossless(tl.base, tl.timescale)
                 && forall j | 0 <= j < |tl.durs| - 1 :: Lossless(tl.durs[j], tl.timescale)
  {
    hide Lossless, ParsedStart, TrueStart, Fits, Lost, SeekIndex, ParsedPts;
    FitsParts(tl);
    var n := |tl.durs|;
    LostNone(tl, n - 1);
    if Lost(tl, n - 1) == 0 {
      forall target: int
        ensures NotLate(tl, target)
      {
        ExactSeek(tl, target);
      }
    } else {
      LateSeek(tl, n - 1);
    }
  }

  lemma ExactSeek(tl: Timeline, target: int)
    requires Fits(tl) && |tl.durs| >= 2 && Lost(tl, |tl.durs| - 1) == 0
    ensures NotLate(tl, target)
  {
    hide ParsedStart, TrueStart, Fits, Lost;
    FitsParts(tl);
    var i := SeekIndex(ParsedPts(tl), target);
    LeadingProps(ParsedPts(tl), target);
    LostGrows(tl, i, |tl.durs| - 1);
    ParsedVsTrue(tl, i);
    assert ParsedPts(tl)[i] == ParsedStart(tl, i) == TrueStart(tl, i);
  }

  lemma {:induction false} LostGrows(tl: Timeline, i: nat, k: nat)
    requires tl.timescale > 0 && i <= k <= |tl.durs|
    ensures Lost(tl, i) <= Lost(tl, k)
    decreases k - i
  {
    hide Loss;
    if i < k {
      LostGrows(tl, i, k - 1);
    }
  }
}
