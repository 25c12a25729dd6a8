/**
  One fMP4 media fragment (sections 8.8.4 to 8.8.12 of ISO/IEC 14496-12): the moof and mdat
  boxes the muxer builds from the buffered samples of its active tracks, and the demuxer
  that turns them back into samples.
 */
module Fragment {
  import opened Bytes
  import opened Wrappers
  import opened Boxes

  const MOOF: u32 := 0x6D6F_6F66
  const MFHD: u32 := 0x6D66_6864
  const TRAF: u32 := 0x7472_6166
  const TFHD: u32 := 0x7466_6864
  const TFDT: u32 := 0x7466_6474
  const TRUN: u32 := 0x7472_756E
  const MDAT: u32 := 0x6D64_6174

  const VIDEO_TRUN_FLAGS := 0xF01
  const AUDIO_TRUN_FLAGS := 0x301
  const DEFAULT_BASE_IS_MOOF := 0x02_0000

  const SAMPLE_FLAGS_KEY: u32 := 0x0200_0000
  const SAMPLE_FLAGS_NON_KEY: u32 := 0x0101_0000

  /** A compressed sample buffered for the current fragment; its size is the length of its data. */
  datatype Sample = Sample(
    duration: u32,
    flags: u32,
    ptsOffset: int,
    data: bytes,
    extra: bytes,
    presentMs: int,
    dts: int)
  {
    /** The sample's fields fit the 32-bit columns of a trun box. */
    predicate Encodable() { |data| < TWO32 && -TWO31 <= ptsOffset < TWO31 }
  }

  datatype Track = Track(
    streamIdx: nat,
    id: u32,
    timescale: u32,
    hasVideo: bool,
    samples: seq<Sample>,
    baseTime: int,
    nextTime: int)
  {
    predicate Encodable() {
      && |samples| < TWO32
      && -TWO63 <= baseTime < TWO63
      && forall s <- samples :: s.Encodable()
    }
  }

  // ── Building ────────────────────────────────────────────────────────────────

  function PerSampleSize(hasVideo: bool): nat {
    if hasVideo then 16 else 8
  }

  function TrunEntry(s: Sample, hasVideo: bool): (b: bytes)
    ensures |b| == PerSampleSize(hasVideo)
  {
    PutU32(s.duration) + PutU32(|s.data|)
    + if hasVideo then PutU32(s.flags) + PutU32(s.ptsOffset) else []
  }

  function TrunEntries(samples: seq<Sample>, hasVideo: bool): (b: bytes)
    ensures |b| == |samples| * PerSampleSize(hasVideo)
  {
    if samples == [] then [] else TrunEntry(samples[0], hasVideo) + TrunEntries(samples[1..], hasVideo)
  }

  function TrunFlags(hasVideo: bool): nat {
    if hasVideo then VIDEO_TRUN_FLAGS else AUDIO_TRUN_FLAGS
  }

  function TrunBox(t: Track, dataOffset: int): Box {
    FullBox(TRUN, 1, TrunFlags(t.hasVideo),
            PutU32(|t.samples|) + PutU32(dataOffset) + TrunEntries(t.samples, t.hasVideo))
  }

  function TfhdBox(id: u32): Box {
    FullBox(TFHD, 0, DEFAULT_BASE_IS_MOOF, PutU32(id))
  }

  function TfdtBox(baseTime: int): Box {
    FullBox(TFDT, 1, 0, PutU64(baseTime))
  }

  function TrafBox(t: Track, dataOffset: int): Box {
    Box(TRAF, MakeBoxes([TfhdBox(t.id), TfdtBox(t.baseTime), TrunBox(t, dataOffset)]))
  }

  function TrafBoxes(active: seq<Track>, offsets: seq<int>): (boxes: seq<Box>)
    requires |active| == |offsets|
    ensures |boxes| == |active|
    ensures forall b <- boxes :: b.typ == TRAF
  {
    if active == [] then [] else [TrafBox(active[0], offsets[0])] + TrafBoxes(active[1..], offsets[1..])
  }

  function MfhdBox(seqNum: int): Box {
    FullBox(MFHD, 0, 0, PutU32(seqNum))
  }

  function MoofBox(active: seq<Track>, seqNum: int, offsets: seq<int>): Box
    requires |active| == |offsets|
  {
    Box(MOOF, MakeBoxes([MfhdBox(seqNum)] + TrafBoxes(active, offsets)))
  }

  function TrackData(samples: seq<Sample>): bytes {
    if samples == [] then [] else samples[0].data + TrackData(samples[1..])
  }

  function SumDurations(samples: seq<Sample>): nat {
    if samples == [] then 0 else samples[0].duration + SumDurations(samples[1..])
  }

  function MdatPayload(active: seq<Track>): bytes {
    if active == [] then [] else TrackData(active[0].samples) + MdatPayload(active[1..])
  }

  function MdatBox(active: seq<Track>): Box {
    Box(MDAT, MdatPayload(active))
  }

  // ── Sizes and data offsets, computed before the bytes exist ─────────────────

  function MoofSize(active: seq<Track>): nat {
    24 + TrafSizes(active)
  }

  function TrafSizes(active: seq<Track>): nat {
    if active == [] then 0
    else 64 + |active[0].samples| * PerSampleSize(active[0].hasVideo) + TrafSizes(active[1..])
  }

  lemma TrafBoxSize(t: Track, dataOffset: int)
    ensures |MakeBox(TrafBox(t, dataOffset))| == 64 + |t.samples| * PerSampleSize(t.hasVideo)
  {
    var a, b, c := TfhdBox(t.id), TfdtBox(t.baseTime), TrunBox(t, dataOffset);
    MakeCons(a, [b, c]);
    MakeCons(b, [c]);
    MakeCons(c, []);
    assert [a] + [b, c] == [a, b, c] && [b] + [c] == [b, c] && [c] + [] == [c];
  }

  lemma {:induction false} TrafBoxesSize(active: seq<Track>, offsets: seq<int>)
    requires |active| == |offsets|
    ensures |MakeBoxes(TrafBoxes(active, offsets))| == TrafSizes(active)
  {
    if active != [] {
      TrafBoxSize(active[0], offsets[0]);
      TrafBoxesSize(active[1..], offsets[1..]);
    }
  }

  /** The estimate is exact: the built moof has this length whatever its number and offsets are. */
  lemma MoofSizeExact(active: seq<Track>, seqNum: int, offsets: seq<int>)
    requires |active| == |offsets|
    ensures |MakeBox(MoofBox(active, seqNum, offsets))| == MoofSize(active)
  {
    TrafBoxesSize(active, offsets);
    var h, trafs := MfhdBox(seqNum), TrafBoxes(active, offsets);
    assert ([h] + trafs)[1..] == trafs;
  }

  /** `estimateMoofSize`, in 32-bit arithmetic. */
  method EstimateMoofSize(active: seq<Track>) returns (size: u32)
    ensures size == MoofSize(active) % TWO32
    ensures forall seqNum: int, offsets: seq<int> | |offsets| == |active| ::
              size == |MakeBox(MoofBox(active, seqNum, offsets))| % TWO32
  {
    var total: nat := 8 + 16;
    for i := 0 to |active|
      invariant total + TrafSizes(active[i..]) == MoofSize(active)
    {
      var n := |active[i].samples|;
      var trunPayload := 4 + 4 + n * PerSampleSize(active[i].hasVideo);
      var trunSize := 8 + 4 + trunPayload;
      assert active[i..][1..] == active[i + 1..];
      total := total + (8 + 16 + 20 + trunSize);
    }
    size := total % TWO32;
    forall seqNum: int, offsets: seq<int> | |offsets| == |active|
      ensures size == |MakeBox(MoofBox(active, seqNum, offsets))| % TWO32
    {
      MoofSizeExact(active, seqNum, offsets);
    }
  }

  /** The distance of each track's first payload byte from the start of the moof, starting at `start`. */
  function Offsets(active: seq<Track>, start: int): (offs: seq<int>)
    ensures |offs| == |active|
  {
    if active == [] then [] else [start] + Offsets(active[1..], start + |TrackData(active[0].samples)|)
  }

  // ── Parsing ─────────────────────────────────────────────────────────────────

  datatype Error = Malformed

  datatype TrackDef = TrackDef(
    id: u32,
    timescale: u32,
    hasVideo: bool,
    defDuration: u32,
    defSize: u32,
    defFlags: u32)

  datatype RawSample = RawSample(
    trackID: u32,
    dts: int,
    cts: int,
    duration: u32,
    flags: u32,
    mdatOff: int,
    size: nat)

  datatype Tfhd = Tfhd(
    trackID: u32,
    flags: nat,
    baseDataOffset: int,
    defDuration: u32,
    defSize: u32,
    defFlags: u32)

  function Width(flags: nat, mask: nat): nat
    requires mask > 0
  {
    if HasFlag(flags, mask) then 4 else 0
  }

  /** An optional 32-bit field: its value when the flag is set, the default otherwise. */
  function Field(p: bytes, flags: nat, mask: nat, off: nat, default: u32): u32
    requires mask > 0
    requires off + Width(flags, mask) <= |p|
  {
    if HasFlag(flags, mask) then U32(p, off) else default
  }

  /** `parseTfhd`. */
  function ParseTfhd(p: bytes, moofStart: int): Result<Tfhd, Error> {
    if |p| < 8 then Err(Malformed)
    else
      var flags := Flags(p);
      if HasFlag(flags, 0x1) && |p| < 16 then Err(Malformed)
      else
        var base := if HasFlag(flags, 0x1) then Int64(U64(p, 8)) else moofStart;
        var o0 := (if HasFlag(flags, 0x1) then 16 else 8) + Width(flags, 0x2);
        var o1 := o0 + Width(flags, 0x8);
        var o2 := o1 + Width(flags, 0x10);
        var o3 := o2 + Width(flags, 0x20);
        if (HasFlag(flags, 0x8) && |p| < o1) || (HasFlag(flags, 0x10) && |p| < o2)
           || (HasFlag(flags, 0x20) && |p| < o3) then Err(Malformed)
        else
          Ok(Tfhd(U32(p, 4), flags, base,
                  if HasFlag(flags, 0x8) then U32(p, o0) else 0,
                  if HasFlag(flags, 0x10) then U32(p, o1) else 0,
                  if HasFlag(flags, 0x20) then U32(p, o2) else 0))
  }

  /** `parseTfdt`. */
  function ParseTfdt(p: bytes): Result<int, Error> {
    if |p| < 4 then Err(Malformed)
    else if p[0] == 0 then
      if |p| < 8 then Err(Malformed) else Ok(U32(p, 4))
    else
      if |p| < 12 then Err(Malformed) else Ok(Int64(U64(p, 4)))
  }

  function EntryWidth(flags: nat): nat {
    Width(flags, 0x100) + Width(flags, 0x200) + Width(flags, 0x400) + Width(flags, 0x800)
  }

  /** Entry i of a trun whose fields start at `off`. */
  function TrunSample(p: bytes, flags: nat, def: TrackDef, sflags: u32, off: nat, dts: int, mdatOff: int): RawSample
    requires off + EntryWidth(flags) <= |p|
  {
    var o1 := off + Width(flags, 0x100);
    var o2 := o1 + Width(flags, 0x200);
    var o3 := o2 + Width(flags, 0x400);
    RawSample(def.id, dts,
              if HasFlag(flags, 0x800) then Int32(U32(p, o3)) else 0,
              Field(p, flags, 0x100, off, def.defDuration),
              Field(p, flags, 0x400, o2, sflags),
              mdatOff,
              Field(p, flags, 0x200, o1, def.defSize))
  }

  /** Entries i, …, n-1 of a trun: decode times and mdat positions accumulate from one to the next. */
  function TrunSamples(p: bytes, flags: nat, def: TrackDef, first: u32, i: nat, n: nat, off: nat,
                       dts: int, mdatOff: int): Result<seq<RawSample>, Error>
    requires i <= n
    decreases n - i
  {
    if i == n then Ok([])
    else if |p| < off + EntryWidth(flags) then Err(Malformed)
    else
      var s := TrunSample(p, flags, def, if i == 0 then first else def.defFlags, off, dts, mdatOff);
      var rest :- TrunSamples(p, flags, def, first, i + 1, n, off + EntryWidth(flags),
                              dts + s.duration, mdatOff + s.size);
      Ok([s] + rest)
  }

  function ParseTrunSpec(p: bytes, def: TrackDef, baseDTS: int, baseDataOffset: int, mdatPayloadBase: int)
    : Result<seq<RawSample>, Error>
  {
    if |p| < 8 then Err(Malformed)
    else
      var flags := Flags(p);
      var o1 := 8 + Width(flags, 0x1);
      var o2 := o1 + Width(flags, 0x4);
      if |p| < o2 then Err(Malformed)
      else
        var dataOffset := if HasFlag(flags, 0x1) then Int32(U32(p, 8)) else 0;
        TrunSamples(p, flags, def, Field(p, flags, 0x4, o1, def.defFlags), 0, U32(p, 4), o2,
                    baseDTS, baseDataOffset + dataOffset - mdatPayloadBase)
  }

  function Prepend(s: seq<RawSample>, r: Result<seq<RawSample>, Error>): Result<seq<RawSample>, Error> {
    match r
    case Ok(t) => Ok(s + t)
    case Err(e) => Err(e)
  }

  /** One pass of the loop in `parseTrun`: the optional fields of one entry, in column order. */
  method ReadTrunEntry(p: bytes, flags: nat, def: TrackDef, entryFlags: u32, start: nat, dts: int, mdatOff: int)
    returns (r: Option<RawSample>, off: nat)
    requires start <= |p|
    ensures r == if |p| < start + EntryWidth(flags) then None
                 else Some(TrunSample(p, flags, def, entryFlags, start, dts, mdatOff))
    ensures r.Some? ==> off == start + EntryWidth(flags) <= |p|
  {
    hide U32, HasFlag, Int32;
    off := start;
    var dur, size, sflags, cts := def.defDuration, def.defSize, entryFlags, 0;
    if HasFlag(flags, 0x100) {
      if |p| < off + 4 {
        return None, off;
      }
      dur := U32(p, off);
      off := off + 4;
    }
    if HasFlag(flags, 0x200) {
      if |p| < off + 4 {
        return None, off;
      }
      size := U32(p, off);
      off := off + 4;
    }
    if HasFlag(flags, 0x400) {
      if |p| < off + 4 {
        return None, off;
      }
      sflags := U32(p, off);
      off := off + 4;
    }
    if HasFlag(flags, 0x800) {
      if |p| < off + 4 {
        return None, off;
      }
      cts := Int32(U32(p, off));
      off := off + 4;
    }
    return Some(RawSample(def.id, dts, cts, dur, sflags, mdatOff, size)), off;
  }

  /** The sample loop of `parseTrun`. */
  method ReadTrunEntries(p: bytes, flags: nat, def: TrackDef, first: u32, n: nat, start: nat, dts: int, mdatStart: int)
    returns (r: Result<seq<RawSample>, Error>)
    requires start <= |p|
    ensures r == TrunSamples(p, flags, def, first, 0, n, start, dts, mdatStart)
  {
    hide TrunSample, EntryWidth;
    var off: nat, curDTS, mdatOff := start, dts, mdatStart;
    var samples: seq<RawSample> := [];
    ghost var goal := TrunSamples(p, flags, def, first, 0, n, off, curDTS, mdatOff);
    PrependAssoc([], [], goal);
    for i := 0 to n
      invariant off <= |p|
      invariant goal == Prepend(samples, TrunSamples(p, flags, def, first, i, n, off, curDTS, mdatOff))
    {
      var s, next := ReadTrunEntry(p, flags, def, if i == 0 then first else def.defFlags, off, curDTS, mdatOff);
      if s.None? {
        return Err(Malformed);
      }
      off, curDTS, mdatOff := next, curDTS + s.value.duration, mdatOff + s.value.size;
      ghost var tail := TrunSamples(p, flags, def, first, i + 1, n, off, curDTS, mdatOff);
      PrependAssoc(samples, [s.value], tail);
      samples := samples + [s.value];
    }
    PrependNone(samples);
    return Ok(samples);
  }

  /** `parseTrun`. */
  method ParseTrun(p: bytes, def: TrackDef, baseDTS: int, baseDataOffset: int, mdatPayloadBase: int)
    returns (r: Result<seq<RawSample>, Error>)
    ensures r == ParseTrunSpec(p, def, baseDTS, baseDataOffset, mdatPayloadBase)
  {
    hide U32, Flags, HasFlag, Int32, TrunSamples;
    if |p| < 8 {
      return Err(Malformed);
    }
    var flags := Flags(p);
    var off: nat := 8;
    var dataOffset := 0;
    if HasFlag(flags, 0x1) {
      if |p| < off + 4 {
        return Err(Malformed);
      }
      dataOffset := Int32(U32(p, off));
      off := off + 4;
    }
    var first := def.defFlags;
    if HasFlag(flags, 0x4) {
      if |p| < off + 4 {
        return Err(Malformed);
      }
      first := U32(p, off);
      off := off + 4;
    }
    r := ReadTrunEntries(p, flags, def, first, U32(p, 4), off, baseDTS,
                         baseDataOffset + dataOffset - mdatPayloadBase);
  }

  /** The trun boxes of one traf, each continuing the decode times of the one before. */
  function ParseTruns(truns: seq<bytes>, def: TrackDef, dts: int, baseDataOffset: int, mdatPayloadBase: int)
    : Result<seq<RawSample>, Error>
  {
    if truns == [] then Ok([])
    else
      var s :- ParseTrunSpec(truns[0], def, dts, baseDataOffset, mdatPayloadBase);
      Prepend(s, ParseTruns(truns[1..], def, dts + TotalTicks(s), baseDataOffset, mdatPayloadBase))
  }

  function TotalTicks(s: seq<RawSample>): nat {
    if s == [] then 0 else s[0].duration + TotalTicks(s[1..])
  }

  /** A traf is skipped, or found malformed, or read; its track's defaults may have been overridden. */
  datatype TrafOutcome =
    | Skipped
    | Failed(id: u32, def: TrackDef)
    | Parsed(id: u32, def: TrackDef, samples: seq<RawSample>)

  function Override(def: TrackDef, h: Tfhd): TrackDef {
    def.(defDuration := if HasFlag(h.flags, 0x8) then h.defDuration else def.defDuration,
         defSize := if HasFlag(h.flags, 0x10) then h.defSize else def.defSize,
         defFlags := if HasFlag(h.flags, 0x20) then h.defFlags else def.defFlags)
  }

  function BaseDTS(kids: seq<Box>): Result<int, Error> {
    match First(kids, TFDT)
    case None => Ok(0)
    case Some(p) => ParseTfdt(p)
  }

  function ParseTraf(traf: bytes, defs: map<u32, TrackDef>, moofStart: int, mdatPayloadBase: int): TrafOutcome {
    var kids := SplitBoxes(traf);
    match First(kids, TFHD)
    case None => Skipped
    case Some(tfhd) =>
      match ParseTfhd(tfhd, moofStart)
      case Err(_) => Skipped
      case Ok(h) =>
        if h.trackID !in defs then Skipped
        else
          var def := Override(defs[h.trackID], h);
          match BaseDTS(kids)
          case Err(_) => Failed(h.trackID, def)
          case Ok(base) =>
            match ParseTruns(Select(kids, TRUN), def, base, h.baseDataOffset, mdatPayloadBase)
            case Err(_) => Failed(h.trackID, def)
            case Ok(s) => Parsed(h.trackID, def, s)
  }

  datatype MoofOutcome = MoofOutcome(result: Result<seq<RawSample>, Error>, defs: map<u32, TrackDef>)

  function ParseTrafs(trafs: seq<bytes>, defs: map<u32, TrackDef>, moofStart: int, mdatPayloadBase: int)
    : MoofOutcome
  {
    if trafs == [] then MoofOutcome(Ok([]), defs)
    else
      match ParseTraf(trafs[0], defs, moofStart, mdatPayloadBase)
      case Skipped => ParseTrafs(trafs[1..], defs, moofStart, mdatPayloadBase)
      case Failed(id, def) => MoofOutcome(Err(Malformed), defs[id := def])
      case Parsed(id, def, s) =>
        var rest := ParseTrafs(trafs[1..], defs[id := def], moofStart, mdatPayloadBase);
        MoofOutcome(Prepend(s, rest.result), rest.defs)
  }

  function ParseMoofSpec(payload: bytes, defs: map<u32, TrackDef>, moofStart: int, moofSize: int): MoofOutcome {
    ParseTrafs(Select(SplitBoxes(payload), TRAF), defs, moofStart, moofStart + moofSize + 8)
  }

  /** A demuxed packet, times still in track ticks. */
  datatype Packet = Packet(trackID: u32, keyFrame: bool, dts: int, ptsOffset: int, duration: int, data: bytes)

  predicate Readable(s: RawSample, defs: map<u32, TrackDef>, mdat: bytes) {
    s.trackID in defs && 0 <= s.mdatOff && s.mdatOff + s.size <= |mdat|
  }

  /** A sample is a sync sample when bit 16 of its flags is clear. */
  function PacketOf(s: RawSample, mdat: bytes): Packet
    requires 0 <= s.mdatOff && s.mdatOff + s.size <= |mdat|
  {
    Packet(s.trackID, s.flags / 0x1_0000 % 2 == 0, s.dts, s.cts, s.duration,
           mdat[s.mdatOff..s.mdatOff + s.size])
  }

  /** The packets of a fragment before they are sorted by decode time: unreadable samples are dropped. */
  function CutPackets(raw: seq<RawSample>, defs: map<u32, TrackDef>, mdat: bytes): seq<Packet> {
    if raw == [] then []
    else (if Readable(raw[0], defs, mdat) then [PacketOf(raw[0], mdat)] else [])
         + CutPackets(raw[1..], defs, mdat)
  }

  lemma PrependAssoc(a: seq<RawSample>, b: seq<RawSample>, r: Result<seq<RawSample>, Error>)
    ensures Prepend(a, Prepend(b, r)) == Prepend(a + b, r)
    ensures Prepend([], r) == r
  {
    if r.Ok? {
      assert a + (b + r.value) == (a + b) + r.value;
      assert [] + r.value == r.value;
    }
  }

  lemma PrependNone(a: seq<RawSample>)
    ensures Prepend(a, Ok([])) == Ok(a)
  {
    assert a + [] == a;
  }
}
