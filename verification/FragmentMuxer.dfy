/**
  The fMP4 muxer: which packets it buffers, when it emits a fragment, what it writes and what
  it records for the segment index. The writer is a growing byte string; the initialisation
  segment (ftyp and moov) is an argument of the calls that emit it.
 */
module FragmentMuxer {
  import opened Bytes
  import opened Wrappers
  import opened Boxes
  import opened Fragment
  import opened Ticks

  const EMSG: u32 := 0x656D_7367
  /** "urn:vtpl:analytics:1" */
  const SCHEME_ID_URI: bytes :=
    [117, 114, 110, 58, 118, 116, 112, 108, 58, 97, 110, 97, 108, 121, 116, 105, 99, 115, 58, 49]

  /** A packet as the pipeline delivers it; times in nanoseconds, analytics as serialised bytes. */
  datatype AvPacket = AvPacket(
    idx: nat,
    keyFrame: bool,
    dts: int,
    ptsOffset: int,
    duration: int,
    data: bytes,
    analytics: bytes)

  datatype Codec = Video(timescale: u32) | Audio(timescale: u32) | Unsupported

  datatype Stream = Stream(idx: nat, codec: Codec)

  datatype MuxError = HeaderAlreadyWritten | HeaderNotWritten | TrailerAlreadyWritten | UnsupportedCodec

  /** One entry per emitted fragment, for the sidx box. */
  datatype FragmentIndex = FragmentIndex(pts: int, duration: int, offset: nat, size: nat, startsWithSAP: bool)

  datatype State = State(
    tracks: seq<Track>,
    trackMap: map<nat, nat>,
    seqNum: u32,
    emsgID: u32,
    written: bool,
    closed: bool,
    dtsOffset: Option<int>,
    waitingForKeyframe: bool,
    fragIndex: seq<FragmentIndex>,
    bytesWritten: nat,
    mediaStartPos: nat,
    firstFragmentFlushed: bool,
    out: bytes)
  {
    /** Stream indices map to tracks that exist and carry that index. */
    predicate Valid() { forall k <- trackMap :: trackMap[k] < |tracks| && tracks[trackMap[k]].streamIdx == k }
  }

  // ── Samples ─────────────────────────────────────────────────────────────────

  /** `makeSample`, for a packet whose DTS has already been normalised. */
  function MakeSample(pkt: AvPacket, t: Track): Sample {
    Sample(ToTicks(pkt.duration, t.timescale) % TWO32,
           if !t.hasVideo then 0 else if pkt.keyFrame then SAMPLE_FLAGS_KEY else SAMPLE_FLAGS_NON_KEY,
           if pkt.ptsOffset != 0 then Int32(ToTicks(pkt.ptsOffset, t.timescale)) else 0,
           pkt.data,
           pkt.analytics,
           QuoTrunc(pkt.dts + pkt.ptsOffset, 1_000_000),
           ToTicks(pkt.dts, t.timescale))
  }

  /** The preceding sample gets the DTS distance as its duration when it has none of its own. */
  function BackFill(prev: Sample, newDTS: int): Sample {
    if prev.duration == 0 && newDTS > prev.dts then prev.(duration := (newDTS - prev.dts) % TWO32) else prev
  }

  function AddSample(t: Track, s: Sample): Track {
    if t.samples == [] then t.(baseTime := s.dts, samples := [s])
    else
      var last := |t.samples| - 1;
      t.(samples := t.samples[last := BackFill(t.samples[last], s.dts)] + [s])
  }

  /** The last sample of a fragment inherits the preceding duration when it has none. */
  function PatchLast(samples: seq<Sample>): (r: seq<Sample>)
    ensures |r| == |samples|
  {
    var n := |samples|;
    if n >= 2 && samples[n - 1].duration == 0
    then samples[n - 1 := samples[n - 1].(duration := samples[n - 2].duration)]
    else samples
  }

  function Patch(t: Track): Track {
    t.(samples := PatchLast(t.samples))
  }

  function PatchAll(tracks: seq<Track>): (r: seq<Track>)
    ensures |r| == |tracks|
  {
    seq(|tracks|, i requires 0 <= i < |tracks| => Patch(tracks[i]))
  }

  /** The tracks that have something to write. */
  function Active(tracks: seq<Track>): seq<Track> {
    if tracks == [] then []
    else (if tracks[0].samples != [] then [tracks[0]] else []) + Active(tracks[1..])
  }

  predicate HasSamples(tracks: seq<Track>) {
    exists i | 0 <= i < |tracks| :: tracks[i].samples != []
  }

  predicate HasVideo(tracks: seq<Track>) {
    exists i | 0 <= i < |tracks| :: tracks[i].hasVideo
  }

  function Clear(t: Track): Track {
    t.(nextTime := t.nextTime + SumDurations(t.samples), samples := [])
  }

  function ClearAll(tracks: seq<Track>): (r: seq<Track>)
    ensures |r| == |tracks|
  {
    seq(|tracks|, i requires 0 <= i < |tracks| => Clear(tracks[i]))
  }

  // ── Event messages ──────────────────────────────────────────────────────────

  /** `buildEmsg`. */
  function EmsgBox(presentMs: int, id: int, data: bytes): Box {
    FullBox(EMSG, 1, 0,
            SCHEME_ID_URI + [0] + [0] + PutU32(1000) + PutU64(presentMs) + PutU32(0xFFFF_FFFF) + PutU32(id) + data)
  }

  function Emsgs(samples: seq<Sample>, id: nat): bytes {
    if samples == [] then []
    else if samples[0].extra == [] then Emsgs(samples[1..], id)
    else MakeBox(EmsgBox(samples[0].presentMs, id, samples[0].extra)) + Emsgs(samples[1..], id + 1)
  }

  function EmsgCount(samples: seq<Sample>): nat {
    if samples == [] then 0 else (if samples[0].extra == [] then 0 else 1) + EmsgCount(samples[1..])
  }

  /** All samples of a fragment in writing order. */
  function AllSamples(active: seq<Track>): seq<Sample> {
    if active == [] then [] else active[0].samples + AllSamples(active[1..])
  }

  // ── One fragment ────────────────────────────────────────────────────────────

  function MoofBytes(active: seq<Track>, seqNum: int): bytes {
    MakeBox(MoofBox(active, seqNum, Offsets(active, MoofSize(active) + 8)))
  }

  function MdatBytes(active: seq<Track>): bytes {
    MakeBox(MdatBox(active))
  }

  /** The event messages, moof and mdat of the tracks that have something to write. */
  function FragmentBytes(tracks: seq<Track>, emsgID: nat, seqNum: int): bytes {
    var active := Active(tracks);
    Emsgs(AllSamples(active), emsgID) + MoofBytes(active, seqNum) + MdatBytes(active)
  }

  function IndexEntry(active: seq<Track>, offset: nat, size: nat): FragmentIndex
    requires active != []
  {
    var t := active[0];
    FragmentIndex(ToDuration(t.baseTime, t.timescale),
                  ToDuration(SumDurations(t.samples), t.timescale),
                  offset,
                  size,
                  t.hasVideo && t.samples != [] && t.samples[0].flags == SAMPLE_FLAGS_KEY)
  }

  function FlushSpec(s: State): State {
    var seqNum := (s.seqNum + 1) % TWO32;
    var patched := PatchAll(s.tracks);
    var active := Active(patched);
    if active == [] then s.(seqNum := seqNum)
    else
      var emsgs := Emsgs(AllSamples(active), s.emsgID);
      var moof := MoofBytes(active, seqNum);
      var mdat := MdatBytes(active);
      s.(seqNum := seqNum,
         emsgID := (s.emsgID + EmsgCount(AllSamples(active))) % TWO32,
         tracks := ClearAll(patched),
         out := s.out + emsgs + moof + mdat,
         bytesWritten := s.bytesWritten + |emsgs| + |moof| + |mdat|,
         fragIndex := s.fragIndex + [IndexEntry(active, s.bytesWritten + |emsgs|, |moof| + |mdat|)])
  }

  // ── The calls ───────────────────────────────────────────────────────────────

  datatype Reply = Reply(state: State, err: Option<MuxError>)

  function NewTrack(s: Stream, id: nat): Option<Track> {
    match s.codec
    case Video(ts) => Some(Track(s.idx, id % TWO32, ts, true, [], 0, 0))
    case Audio(ts) => Some(Track(s.idx, id % TWO32, ts, false, [], 0, 0))
    case Unsupported => None
  }

  /** The tracks of the supported streams, numbered from 1; a later stream takes over a repeated index. */
  function AddTracks(s: State, streams: seq<Stream>): (r: State)
    requires s.Valid()
    ensures r.Valid()
    decreases |streams|
  {
    if streams == [] then s
    else
      match NewTrack(streams[0], |s.tracks| + 1)
      case None => AddTracks(s, streams[1..])
      case Some(t) =>
        AddTracks(s.(tracks := s.tracks + [t], trackMap := s.trackMap[t.streamIdx := |s.tracks|]), streams[1..])
  }

  function WriteHeaderSpec(s: State, streams: seq<Stream>, init: bytes): (r: Reply)
    requires s.Valid()
    ensures r.state.Valid()
  {
    if s.written then Reply(s, Some(HeaderAlreadyWritten))
    else
      var s1 := AddTracks(s, streams);
      if s1.tracks == [] then Reply(s1, Some(UnsupportedCodec))
      else Reply(s1.(out := s1.out + init,
                     bytesWritten := s1.bytesWritten + |init|,
                     mediaStartPos := s1.bytesWritten + |init|,
                     written := true,
                     waitingForKeyframe := HasVideo(s1.tracks)), None)
  }

  /** Whether the packet is buffered at all. */
  predicate Admits(s: State, pkt: AvPacket)
    requires s.Valid()
  {
    && s.written && !s.closed && pkt.idx in s.trackMap
    && (s.waitingForKeyframe ==> s.tracks[s.trackMap[pkt.idx]].hasVideo && pkt.keyFrame)
  }

  /** A video keyframe empties the buffers first. */
  function BeforeAppend(s: State, isVideoKey: bool): State {
    if isVideoKey && HasSamples(s.tracks) then FlushSpec(s).(firstFragmentFlushed := true) else s
  }

  function NormalisedDTS(s: State, pkt: AvPacket): int {
    pkt.dts - (if s.dtsOffset.Some? then s.dtsOffset.value else pkt.dts)
  }

  function Appended(s: State, i: nat, sample: Sample): State
    requires i < |s.tracks|
  {
    s.(tracks := s.tracks[i := AddSample(s.tracks[i], sample)])
  }

  /** Audio-only streams flush every packet; the first non-key video packet flushes the cached GOP start. */
  function AfterAppend(s: State, isVideo: bool, keyFrame: bool): State {
    if !HasVideo(s.tracks) then FlushSpec(s)
    else if !s.firstFragmentFlushed && isVideo && !keyFrame && HasSamples(s.tracks)
    then FlushSpec(s.(firstFragmentFlushed := true))
    else s
  }

  function WritePacketSpec(s: State, pkt: AvPacket): Reply
    requires s.Valid()
  {
    if !s.written then Reply(s, Some(HeaderNotWritten))
    else if s.closed then Reply(s, Some(TrailerAlreadyWritten))
    else if !Admits(s, pkt) then Reply(s, None)
    else
      var i := s.trackMap[pkt.idx];
      var isVideo := s.tracks[i].hasVideo;
      var dts := NormalisedDTS(s, pkt);
      var s1 := s.(waitingForKeyframe := false,
                   dtsOffset := if s.dtsOffset.Some? then s.dtsOffset else Some(pkt.dts));
      FlushValid(s1);
      var s2 := BeforeAppend(s1, isVideo && pkt.keyFrame);
      var s3 := Appended(s2, i, MakeSample(pkt.(dts := dts), s.tracks[i]));
      Reply(AfterAppend(s3, isVideo, pkt.keyFrame), None)
  }

  function FlushCallSpec(s: State): State {
    if s.closed || !s.written || !HasSamples(s.tracks) then s else FlushSpec(s)
  }

  function WriteTrailerSpec(s: State): Reply {
    if s.closed then Reply(s, Some(TrailerAlreadyWritten))
    else
      var s1 := s.(closed := true);
      Reply(if HasSamples(s1.tracks) then FlushSpec(s1) else s1, None)
  }

  /** The first track that carries the stream index, as the replacement loop finds it. */
  function FirstWithIndex(tracks: seq<Track>, idx: nat): (i: nat)
    requires exists t <- tracks :: t.streamIdx == idx
    ensures i < |tracks| && tracks[i].streamIdx == idx
  {
    if tracks[0].streamIdx == idx then 0 else 1 + FirstWithIndex(tracks[1..], idx)
  }

  /**
    `WriteCodecChange` replaces the tracks of the listed streams, then writes a new
    initialisation segment, which `bytesWritten` does not count.
   */
  function ReplaceTracks(s: State, changed: seq<Stream>): (r: Reply)
    requires s.Valid()
    ensures r.state.Valid()
    decreases |changed|
  {
    if changed == [] then Reply(s, None)
    else if changed[0].idx !in s.trackMap then ReplaceTracks(s, changed[1..])
    else
      var prev := s.tracks[s.trackMap[changed[0].idx]];
      match NewTrack(changed[0], prev.id)
      case None => Reply(s, Some(UnsupportedCodec))
      case Some(t) =>
        var i := FirstWithIndex(s.tracks, changed[0].idx);
        ReplaceTracks(s.(tracks := s.tracks[i := t.(nextTime := prev.nextTime)],
                         trackMap := s.trackMap[changed[0].idx := i]), changed[1..])
  }

  lemma FlushValid(s: State)
    requires s.Valid()
    ensures FlushSpec(s).Valid() && |FlushSpec(s).tracks| == |s.tracks|
  {
    hide MoofBytes, MdatBytes, Emsgs, EmsgCount, IndexEntry, AllSamples, Active, SumDurations, PatchLast;
  }

  function CodecChangeSpec(s: State, changed: seq<Stream>, init: bytes): Reply
    requires s.Valid()
  {
    if !s.written || s.closed then Reply(s, None)
    else
      FlushValid(s);
      var s1 := if HasSamples(s.tracks) then FlushSpec(s) else s;
      var r := ReplaceTracks(s1, changed);
      if r.err.Some? then r else Reply(r.state.(out := r.state.out + init), None)
  }

  // ── The muxer object ────────────────────────────────────────────────────────

  lemma PutU32Wraps(v: int)
    ensures PutU32(v % TWO32) == PutU32(v)
  {
    assert Power256(4) == TWO32;
    PutWraps(v, 4);
  }

  lemma {:induction false} TrafBoxesWrap(active: seq<Track>, offsets: seq<int>, wrapped: seq<int>)
    requires |active| == |offsets| == |wrapped|
    requires forall i | 0 <= i < |offsets| :: wrapped[i] == offsets[i] % TWO32
    ensures TrafBoxes(active, wrapped) == TrafBoxes(active, offsets)
  {
    hide PutU32;
    if active != [] {
      PutU32Wraps(offsets[0]);
      assert TrunBox(active[0], wrapped[0]) == TrunBox(active[0], offsets[0]);
      TrafBoxesWrap(active[1..], offsets[1..], wrapped[1..]);
    }
  }

  lemma {:induction false} OffsetsAt(active: seq<Track>, start: int, i: nat)
    requires i < |active|
    ensures Offsets(active, start)[i] == start + |MdatPayload(active[..i])|
  {
    if i > 0 {
      OffsetsAt(active[1..], start + |TrackData(active[0].samples)|, i - 1);
      assert active[..i][1..] == active[1..][..i - 1];
    }
  }

  lemma {:induction false} MdatPayloadSnoc(active: seq<Track>, t: Track)
    ensures MdatPayload(active + [t]) == MdatPayload(active) + TrackData(t.samples)
  {
    if active == [] {
      assert active + [t] == [t] && [t][1..] == [];
    } else {
      assert (active + [t])[1..] == active[1..] + [t];
      MdatPayloadSnoc(active[1..], t);
    }
  }

  lemma {:induction false} TrackDataSnoc(samples: seq<Sample>, s: Sample)
    ensures TrackData(samples + [s]) == TrackData(samples) + s.data
  {
    if samples == [] {
      assert samples + [s] == [s] && [s][1..] == [];
    } else {
      assert (samples + [s])[1..] == samples[1..] + [s];
      TrackDataSnoc(samples[1..], s);
    }
  }

  /** The inner offset loop of `flushFragment`: one track's payload, in 32-bit arithmetic. */
  method AdvanceOffset(start: int, samples: seq<Sample>) returns (offset: int)
    ensures offset == (start + |TrackData(samples)|) % TWO32
  {
    offset := start % TWO32;
    for j := 0 to |samples|
      invariant offset == (start + |TrackData(samples[..j])|) % TWO32
    {
      TrackDataSnoc(samples[..j], samples[j]);
      assert samples[..j + 1] == samples[..j] + [samples[j]];
      WrapAdd(start + |TrackData(samples[..j])|, |samples[j].data|, TWO32);
      offset := (offset + |samples[j].data|) % TWO32;
    }
    assert samples[..|samples|] == samples;
  }

  /** The offset loop of `flushFragment`. */
  method DataOffsets(active: seq<Track>) returns (offsets: seq<int>)
    ensures |offsets| == |active|
    ensures forall i | 0 <= i < |active| ::
              offsets[i] == Offsets(active, MoofSize(active) + 8)[i] % TWO32
  {
    hide MoofSize, TrackData, Offsets, MdatPayload;
    var moofSize := EstimateMoofSize(active);
    var offset: int := (moofSize + 8) % TWO32;
    ghost var start := MoofSize(active) + 8;
    WrapAdd(MoofSize(active), 8, TWO32);
    assert |MdatPayload([])| == 0 by { EmptyPayload(); }
    offsets := [];
    for i := 0 to |active|
      invariant |offsets| == i
      invariant offset == (start + |MdatPayload(active[..i])|) % TWO32
      invariant forall j | 0 <= j < i :: offsets[j] == Offsets(active, start)[j] % TWO32
    {
      OffsetsAt(active, start, i);
      offsets := offsets + [offset];
      ghost var base := start + |MdatPayload(active[..i])|;
      WrapAdd(base, |TrackData(active[i].samples)|, TWO32);
      offset := AdvanceOffset(offset, active[i].samples);
      MdatPayloadSnoc(active[..i], active[i]);
      assert active[..i + 1] == active[..i] + [active[i]];
    }
  }

  lemma EmptyPayload()
    ensures MdatPayload([]) == []
  {
  }

  lemma {:induction false} ActiveSnoc(tracks: seq<Track>, t: Track)
    ensures Active(tracks + [t]) == Active(tracks) + (if t.samples != [] then [t] else [])
  {
    if tracks == [] {
      assert tracks + [t] == [t] && [t][1..] == [];
    } else {
      assert (tracks + [t])[1..] == tracks[1..] + [t];
      ActiveSnoc(tracks[1..], t);
      var head := if tracks[0].samples != [] then [tracks[0]] else [];
      var tail := if t.samples != [] then [t] else [];
      assert head + (Active(tracks[1..]) + tail) == head + Active(tracks[1..]) + tail;
    }
  }

  lemma {:induction false} EmsgsSnoc(samples: seq<Sample>, s: Sample, id: nat)
    ensures Emsgs(samples + [s], id) == Emsgs(samples, id)
              + (if s.extra == [] then [] else MakeBox(EmsgBox(s.presentMs, id + EmsgCount(samples), s.extra)))
    ensures EmsgCount(samples + [s]) == EmsgCount(samples) + (if s.extra == [] then 0 else 1)
  {
    hide EmsgBox, MakeBox;
    if samples == [] {
      assert samples + [s] == [s] && [s][1..] == [];
    } else {
      assert (samples + [s])[1..] == samples[1..] + [s];
      EmsgsSnoc(samples[1..], s, id + (if samples[0].extra == [] then 0 else 1));
    }
  }

  lemma NoEmsgs(id: nat)
    ensures Emsgs([], id) == [] && EmsgCount([]) == 0 && AllSamples([]) == []
  {
  }

  lemma AllSamplesFrom(active: seq<Track>, i: nat)
    requires i < |active|
    ensures AllSamples(active[i..]) == active[i].samples + AllSamples(active[i + 1..])
  {
    assert active[i..][1..] == active[i + 1..];
  }

  /** `collectEmsg`: one box per sample that carries analytics. */
  method CollectEmsg(active: seq<Track>, seqBase: nat) returns (boxes: bytes, id: nat)
    ensures boxes == Emsgs(AllSamples(active), seqBase)
    ensures id == seqBase + EmsgCount(AllSamples(active))
  {
    hide EmsgBox, MakeBox, Emsgs, EmsgCount, AllSamples;
    boxes, id := [], seqBase;
    ghost var done: seq<Sample> := [];
    NoEmsgs(seqBase);
    assert active[0..] == active && [] + AllSamples(active) == AllSamples(active);
    for i := 0 to |active|
      invariant done + AllSamples(active[i..]) == AllSamples(active)
      invariant boxes == Emsgs(done, seqBase) && id == seqBase + EmsgCount(done)
    {
      AllSamplesFrom(active, i);
      var samples := active[i].samples;
      ghost var before := done;
      for j := 0 to |samples|
        invariant done == before + samples[..j]
        invariant boxes == Emsgs(done, seqBase) && id == seqBase + EmsgCount(done)
      {
        var s := samples[j];
        EmsgsSnoc(done, s, seqBase);
        if s.extra != [] {
          boxes := boxes + MakeBox(EmsgBox(s.presentMs, id, s.extra));
          id := id + 1;
        }
        done := done + [s];
        assert before + samples[..j] + [s] == before + samples[..j + 1];
      }
      assert done == before + samples;
      assert before + (samples + AllSamples(active[i + 1..])) == done + AllSamples(active[i + 1..]);
    }
    assert active[|active|..] == [] && done + [] == done;
  }

  /** The boxes of one fragment, offsets first. */
  method BuildFragment(active: seq<Track>, seqNum: u32, emsgID: u32)
    returns (emsgs: bytes, nextID: u32, moof: bytes, mdat: bytes)
    ensures emsgs == Emsgs(AllSamples(active), emsgID)
    ensures nextID == (emsgID + EmsgCount(AllSamples(active))) % TWO32
    ensures moof == MoofBytes(active, seqNum) && mdat == MdatBytes(active)
  {
    hide MakeBox, MoofSize, Emsgs, EmsgCount, AllSamples, TrafBoxes, Offsets, MdatBox, MfhdBox;
    var offsets := DataOffsets(active);
    TrafBoxesWrap(active, Offsets(active, MoofSize(active) + 8), offsets);
    var id;
    emsgs, id := CollectEmsg(active, emsgID);
    nextID := id % TWO32;
    moof := MakeBox(MoofBox(active, seqNum, offsets));
    mdat := MdatBytes(active);
  }

  /** The loop of `flushFragment` that completes each active track's last duration. */
  method PatchDurations(tracks: seq<Track>) returns (r: seq<Track>)
    ensures r == PatchAll(tracks)
  {
    hide PatchLast;
    r := tracks;
    for i := 0 to |tracks|
      invariant |r| == |tracks|
      invariant forall j | 0 <= j < i :: r[j] == Patch(tracks[j])
      invariant forall j | i <= j < |tracks| :: r[j] == tracks[j]
    {
      r := r[i := Patch(r[i])];
    }
  }

  /** The loop of `flushFragment` that collects the tracks with samples. */
  method ActiveTracks(tracks: seq<Track>) returns (active: seq<Track>)
    ensures active == Active(tracks)
  {
    active := [];
    for i := 0 to |tracks|
      invariant active == Active(tracks[..i])
    {
      ActiveSnoc(tracks[..i], tracks[i]);
      assert tracks[..i + 1] == tracks[..i] + [tracks[i]];
      if tracks[i].samples != [] {
        active := active + [tracks[i]];
      }
    }
    assert tracks[..|tracks|] == tracks;
  }

  /** The closing loop of `flushFragment`: advance `nextTime`, drop the samples. */
  method ClearTracks(tracks: seq<Track>) returns (r: seq<Track>)
    ensures r == ClearAll(tracks)
  {
    hide SumDurations;
    r := tracks;
    for i := 0 to |tracks|
      invariant |r| == |tracks|
      invariant forall j | 0 <= j < i :: r[j] == Clear(tracks[j])
      invariant forall j | i <= j < |tracks| :: r[j] == tracks[j]
    {
      r := r[i := Clear(r[i])];
    }
  }

  class Muxer {
    var tracks: seq<Track>
    var trackMap: map<nat, nat>
    var seqNum: u32
    var emsgID: u32
    var written: bool
    var closed: bool
    var dtsOffset: Option<int>
    var waitingForKeyframe: bool
    var fragIndex: seq<FragmentIndex>
    var bytesWritten: nat
    var mediaStartPos: nat
    var firstFragmentFlushed: bool
    var out: bytes

    function View(): State
      reads this
    {
      State(tracks, trackMap, seqNum, emsgID, written, closed, dtsOffset, waitingForKeyframe, fragIndex,
            bytesWritten, mediaStartPos, firstFragmentFlushed, out)
    }

    /** `NewMuxer`. */
    constructor ()
      ensures View() == State([], map[], 0, 0, false, false, None, false, [], 0, 0, false, [])
    {
      tracks, trackMap, seqNum, emsgID := [], map[], 0, 0;
      written, closed, dtsOffset, waitingForKeyframe := false, false, None, false;
      fragIndex, bytesWritten, mediaStartPos, firstFragmentFlushed, out := [], 0, 0, false, [];
    }

    /** `hasAnySamples`. */
    method HasAnySamples() returns (b: bool)
      ensures b == HasSamples(tracks)
    {
      for i := 0 to |tracks|
        invariant forall j | 0 <= j < i :: tracks[j].samples == []
      {
        if tracks[i].samples != [] {
          return true;
        }
      }
      return false;
    }

    /** `hasVideoTracks`. */
    method HasVideoTracks() returns (b: bool)
      ensures b == HasVideo(tracks)
    {
      for i := 0 to |tracks|
        invariant forall j | 0 <= j < i :: !tracks[j].hasVideo
      {
        if tracks[i].hasVideo {
          return true;
        }
      }
      return false;
    }

    /** `flushFragment` with a writer that accepts everything. */
    method FlushFragment()
      modifies this
      ensures View() == FlushSpec(old(View()))
    {
      hide Active, MoofBytes, Emsgs, EmsgCount, AllSamples, MdatBytes, IndexEntry, PatchAll, ClearAll;
      var n := (seqNum + 1) % TWO32;
      var patched := PatchDurations(tracks);
      var active := ActiveTracks(patched);
      if active == [] {
        seqNum := n;
        return;
      }
      var emsgs, nextID, moof, mdat := BuildFragment(active, n, emsgID);
      var cleared := ClearTracks(patched);
      fragIndex := fragIndex + [IndexEntry(active, bytesWritten + |emsgs|, |moof| + |mdat|)];
      out := out + emsgs + moof + mdat;
      bytesWritten := bytesWritten + |emsgs| + |moof| + |mdat|;
      seqNum, emsgID, tracks := n, nextID, cleared;
    }

    /** The stream loop of `WriteHeader`. */
    method RegisterStreams(streams: seq<Stream>)
      requires View().Valid()
      modifies this`tracks, this`trackMap
      ensures View() == AddTracks(old(View()), streams)
    {
      for i := 0 to |streams|
        invariant View().Valid()
        invariant AddTracks(old(View()), streams) == AddTracks(View(), streams[i..])
      {
        assert streams[i..][1..] == streams[i + 1..];
        var t := NewTrack(streams[i], |tracks| + 1);
        if t.Some? {
          trackMap := trackMap[t.value.streamIdx := |tracks|];
          tracks := tracks + [t.value];
        }
      }
    }

    /** The end of `WriteHeader`: the initialisation segment goes out and the keyframe gate is set. */
    method Begin(init: bytes)
      requires View().Valid()
      modifies this`out, this`bytesWritten, this`mediaStartPos, this`written, this`waitingForKeyframe
      ensures View() == old(View()).(out := old(out) + init, bytesWritten := old(bytesWritten) + |init|,
                                     mediaStartPos := old(bytesWritten) + |init|, written := true,
                                     waitingForKeyframe := HasVideo(tracks))
      ensures View().Valid()
    {
      hide HasVideo;
      out := out + init;
      bytesWritten := bytesWritten + |init|;
      mediaStartPos := bytesWritten;
      written := true;
      waitingForKeyframe := HasVideoTracks();
    }

    /** `WriteHeader`. */
    method WriteHeader(streams: seq<Stream>, init: bytes) returns (err: Option<MuxError>)
      requires View().Valid()
      modifies this
      ensures Reply(View(), err) == WriteHeaderSpec(old(View()), streams, init)
      ensures View().Valid()
    {
      hide AddTracks, HasVideo;
      if written {
        return Some(HeaderAlreadyWritten);
      }
      RegisterStreams(streams);
      if tracks == [] {
        return Some(UnsupportedCodec);
      }
      Begin(init);
      return None;
    }

    /** The part of `WritePacket` before the sample is buffered. */
    method FlushBeforeKey(isVideoKey: bool)
      modifies this
      ensures View() == BeforeAppend(old(View()), isVideoKey)
    {
      hide FlushSpec, HasSamples;
      var any := HasAnySamples();
      if isVideoKey && any {
        FlushFragment();
        firstFragmentFlushed := true;
      }
    }

    /** The part of `WritePacket` after the sample is buffered. */
    method FlushEarly(isVideo: bool, keyFrame: bool)
      modifies this
      ensures View() == AfterAppend(old(View()), isVideo, keyFrame)
    {
      hide FlushSpec, HasSamples, HasVideo;
      var video := HasVideoTracks();
      if !video {
        FlushFragment();
        return;
      }
      var any := HasAnySamples();
      if !firstFragmentFlushed && isVideo && !keyFrame && any {
        firstFragmentFlushed := true;
        FlushFragment();
      }
    }

    /** `WritePacket`. */
    method WritePacket(pkt: AvPacket) returns (err: Option<MuxError>)
      requires View().Valid()
      modifies this
      ensures Reply(View(), err) == WritePacketSpec(old(View()), pkt)
    {
      hide BeforeAppend, AfterAppend, MakeSample, AddSample;
      if !written {
        return Some(HeaderNotWritten);
      }
      if closed {
        return Some(TrailerAlreadyWritten);
      }
      if pkt.idx !in trackMap {
        return None;
      }
      var i := trackMap[pkt.idx];
      var ts := tracks[i];
      if waitingForKeyframe {
        if !ts.hasVideo || !pkt.keyFrame {
          return None;
        }
        waitingForKeyframe := false;
      }
      if dtsOffset.None? {
        dtsOffset := Some(pkt.dts);
      }
      var p := pkt.(dts := pkt.dts - dtsOffset.value);
      BeforeKeepsCount(View(), ts.hasVideo && pkt.keyFrame);
      FlushBeforeKey(ts.hasVideo && pkt.keyFrame);
      tracks := tracks[i := AddSample(tracks[i], MakeSample(p, ts))];
      FlushEarly(ts.hasVideo, pkt.keyFrame);
      return None;
    }

    /** `Flush`. */
    method Flush()
      modifies this
      ensures View() == FlushCallSpec(old(View()))
    {
      hide FlushSpec, HasSamples;
      if closed || !written {
        return;
      }
      var any := HasAnySamples();
      if any {
        FlushFragment();
      }
    }

    /** `WriteTrailer`. */
    method WriteTrailer() returns (err: Option<MuxError>)
      modifies this
      ensures Reply(View(), err) == WriteTrailerSpec(old(View()))
    {
      hide FlushSpec, HasSamples;
      if closed {
        return Some(TrailerAlreadyWritten);
      }
      closed := true;
      var any := HasAnySamples();
      if any {
        FlushFragment();
      }
      return None;
    }

    /** The replacement loop of `WriteCodecChange`. */
    method ReplaceStreams(changed: seq<Stream>) returns (err: Option<MuxError>)
      requires View().Valid()
      modifies this`tracks, this`trackMap
      ensures Reply(View(), err) == ReplaceTracks(old(View()), changed)
    {
      for k := 0 to |changed|
        invariant View().Valid() && ReplaceTracks(old(View()), changed) == ReplaceTracks(View(), changed[k..])
      {
        assert changed[k..][1..] == changed[k + 1..];
        var idx := changed[k].idx;
        if idx in trackMap {
          var prev := tracks[trackMap[idx]];
          var t := NewTrack(changed[k], prev.id);
          if t.None? {
            return Some(UnsupportedCodec);
          }
          var i := FindTrack(idx);
          tracks := tracks[i := t.value.(nextTime := prev.nextTime)];
          trackMap := trackMap[idx := i];
        }
      }
      return None;
    }

    /** `WriteCodecChange`. */
    method WriteCodecChange(changed: seq<Stream>, init: bytes) returns (err: Option<MuxError>)
      requires View().Valid()
      modifies this
      ensures Reply(View(), err) == CodecChangeSpec(old(View()), changed, init)
    {
      hide FlushSpec, HasSamples, ReplaceTracks;
      if !written || closed {
        return None;
      }
      var any := HasAnySamples();
      FlushValid(View());
      if any {
        FlushFragment();
      }
      err := ReplaceStreams(changed);
      if err.None? {
        out := out + init;
      }
    }

    /** The search for the first track of a stream index. */
    method FindTrack(idx: nat) returns (i: nat)
      requires exists t <- tracks :: t.streamIdx == idx
      ensures i == FirstWithIndex(tracks, idx)
    {
      i := 0;
      while tracks[i].streamIdx != idx
        invariant i < |tracks| && (exists t <- tracks[i..] :: t.streamIdx == idx)
        invariant FirstWithIndex(tracks, idx) == i + FirstWithIndex(tracks[i..], idx)
        decreases |tracks| - i
      {
        assert tracks[i..][1..] == tracks[i + 1..];
        i := i + 1;
      }
    }
  }

  lemma BeforeKeepsCount(s: State, isVideoKey: bool)
    ensures |BeforeAppend(s, isVideoKey).tracks| == |s.tracks|
  {
    hide MoofBytes, MdatBytes, Emsgs, EmsgCount, IndexEntry, AllSamples, Active, HasSamples;
  }
}
