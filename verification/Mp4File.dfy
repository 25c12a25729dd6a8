/**
  A regular MP4 file: the two-pass layout of the muxer (a measuring pass fixes where the media
  data starts, then the chunk offsets are filled in) and the demuxer that reads it back. Boxes
  whose contents no offset depends on (ftyp, mvhd, tkhd, hdlr, vmhd or smhd, dinf and the sample
  entry) are arguments.
 */
module Mp4File {
  import opened Bytes
  import opened Wrappers
  import opened Boxes
  import opened Ticks
  import opened Mp4Tables

  const FTYP: u32 := 0x6674_7970
  const MOOV: u32 := 0x6D6F_6F76
  const MVHD: u32 := 0x6D76_6864
  const TRAK: u32 := 0x7472_616B
  const TKHD: u32 := 0x746B_6864
  const MDIA: u32 := 0x6D64_6961
  const MDHD: u32 := 0x6D64_6864
  const HDLR: u32 := 0x6864_6C72
  const MINF: u32 := 0x6D69_6E66
  const VMHD: u32 := 0x766D_6864
  const SMHD: u32 := 0x736D_6864
  const DINF: u32 := 0x6469_6E66
  const STBL: u32 := 0x7374_626C
  const MDAT: u32 := 0x6D64_6174

  datatype Track = Track(
    timescale: u32,
    isVideo: bool,
    tkhd: bytes,
    hdlr: bytes,
    mediaHeader: bytes,
    dinf: bytes,
    entry: bytes,
    samples: seq<Sample>)

  // ── Building ────────────────────────────────────────────────────────────────

  function StsdPayload(t: Track): bytes {
    FullBox(STSD, 0, 0, PutU32(1) + t.entry).payload
  }

  function StblBox(t: Track, base: int): Box {
    Box(STBL, MakeBoxes(StblBoxes(StsdPayload(t), t.samples, t.isVideo, base)))
  }

  function MdhdBox(t: Track): Box {
    FullBox(MDHD, 0, 0,
            PutU32(0) + PutU32(0) + PutU32(t.timescale) + PutU32(Sum(Durations(t.samples)))
            + PutU16(0x55C4) + PutU16(0))
  }

  function MinfBox(t: Track, base: int): Box {
    Box(MINF, MakeBoxes([Box(if t.isVideo then VMHD else SMHD, t.mediaHeader), Box(DINF, t.dinf),
                         StblBox(t, base)]))
  }

  function MdiaBox(t: Track, base: int): Box {
    Box(MDIA, MakeBoxes([MdhdBox(t), Box(HDLR, t.hdlr), MinfBox(t, base)]))
  }

  function TrakBox(t: Track, base: int): Box {
    Box(TRAK, MakeBoxes([Box(TKHD, t.tkhd), MdiaBox(t, base)]))
  }

  function TrakBoxes(tracks: seq<Track>, bases: seq<int>): (r: seq<Box>)
    requires |tracks| == |bases|
    ensures |r| == |tracks|
    ensures forall b <- r :: b.typ == TRAK
  {
    if tracks == [] then [] else [TrakBox(tracks[0], bases[0])] + TrakBoxes(tracks[1..], bases[1..])
  }

  function MoovBox(mvhd: bytes, tracks: seq<Track>, bases: seq<int>): Box
    requires |tracks| == |bases|
  {
    Box(MOOV, MakeBoxes([Box(MVHD, mvhd)] + TrakBoxes(tracks, bases)))
  }

  function AllData(tracks: seq<Track>): bytes {
    if tracks == [] then [] else DataOf(tracks[0].samples) + AllData(tracks[1..])
  }

  /** The file offset of each track's first sample, when the media data starts at `start`. */
  function Bases(tracks: seq<Track>, start: int): (r: seq<int>)
    ensures |r| == |tracks|
  {
    if tracks == [] then [] else [start] + Bases(tracks[1..], start + |DataOf(tracks[0].samples)|)
  }

  function Zeros(n: nat): (r: seq<int>)
    ensures |r| == n
  {
    Repeat(0, n)
  }

  /** Where the media data starts: after ftyp, the measured moov and the mdat header. */
  function MdatStart(ftyp: bytes, mvhd: bytes, tracks: seq<Track>): nat {
    |MakeBox(Box(FTYP, ftyp))| + |MakeBox(MoovBox(mvhd, tracks, Zeros(|tracks|)))| + 8
  }

  function FinalMoov(ftyp: bytes, mvhd: bytes, tracks: seq<Track>): Box {
    MoovBox(mvhd, tracks, Bases(tracks, MdatStart(ftyp, mvhd, tracks)))
  }

  function FileBytes(ftyp: bytes, mvhd: bytes, tracks: seq<Track>): bytes {
    MakeBox(Box(FTYP, ftyp)) + MakeBox(FinalMoov(ftyp, mvhd, tracks)) + MakeBox(Box(MDAT, AllData(tracks)))
  }

  // ── The muxer object ────────────────────────────────────────────────────────

  datatype MuxError = HeaderAlreadyWritten | HeaderNotWritten | TrailerAlreadyWritten

  lemma {:induction false} DataOfSnoc(samples: seq<Sample>, s: Sample)
    ensures DataOf(samples + [s]) == DataOf(samples) + s.data
  {
    if samples == [] {
      assert samples + [s] == [s] && [s][1..] == [];
    } else {
      assert (samples + [s])[1..] == samples[1..] + [s];
      DataOfSnoc(samples[1..], s);
    }
  }

  lemma {:induction false} BasesAt(tracks: seq<Track>, start: int, i: nat)
    requires i < |tracks|
    ensures Bases(tracks, start)[i] == start + |AllData(tracks[..i])|
    ensures AllData(tracks[..i]) + DataOf(tracks[i].samples) <= AllData(tracks)
  {
    if i > 0 {
      BasesAt(tracks[1..], start + |DataOf(tracks[0].samples)|, i - 1);
      assert tracks[..i][1..] == tracks[1..][..i - 1];
    }
  }

  lemma {:induction false} AllDataSnoc(tracks: seq<Track>, t: Track)
    ensures AllData(tracks + [t]) == AllData(tracks) + DataOf(t.samples)
  {
    if tracks == [] {
      assert tracks + [t] == [t] && [t][1..] == [];
    } else {
      assert (tracks + [t])[1..] == tracks[1..] + [t];
      AllDataSnoc(tracks[1..], t);
    }
  }

  /** A packet as the pipeline delivers it; times in nanoseconds. */
  datatype AvPacket = AvPacket(idx: nat, keyFrame: bool, duration: int, ptsOffset: int, data: bytes)

  datatype MuxState = MuxState(tracks: seq<Track>, trackMap: map<nat, nat>, written: bool, closed: bool, out: bytes) {
    predicate Valid() { forall k <- trackMap :: trackMap[k] < |tracks| }
  }

  const EMPTY := MuxState([], map[], false, false, [])

  function Opened(s: MuxState, idx: nat, t: Track): (r: MuxState)
    requires s.Valid()
    ensures r.Valid()
  {
    s.(tracks := s.tracks + [t.(samples := [])], trackMap := s.trackMap[idx := |s.tracks|])
  }

  /**
    One track, without samples, per stream of a supported codec; the others, given as `None`, are
    passed over. A later stream takes over a repeated index.
   */
  function Declared(s: MuxState, streams: seq<(nat, Option<Track>)>): (r: MuxState)
    requires s.Valid()
    ensures r.Valid()
    decreases |streams|
  {
    if streams == [] then s
    else
      var (idx, t) := streams[0];
      Declared(if t.Some? then Opened(s, idx, t.value) else s, streams[1..])
  }

  function HeaderSpec(s: MuxState, streams: seq<(nat, Option<Track>)>): (MuxState, Option<MuxError>)
    requires s.Valid()
  {
    if s.written then (s, Some(HeaderAlreadyWritten)) else (Declared(s, streams).(written := true), None)
  }

  function SampleOf(p: AvPacket, timescale: u32): Sample {
    Sample(p.keyFrame, ToTicks(p.duration, timescale) % TWO32, Int32(ToTicks(p.ptsOffset, timescale)), p.data)
  }

  function Appended(s: MuxState, i: nat, x: Sample): MuxState
    requires i < |s.tracks|
  {
    s.(tracks := s.tracks[i := s.tracks[i].(samples := s.tracks[i].samples + [x])])
  }

  function WriteSpec(s: MuxState, p: AvPacket): (MuxState, Option<MuxError>)
    requires s.Valid()
  {
    if !s.written then (s, Some(HeaderNotWritten))
    else if s.closed then (s, Some(TrailerAlreadyWritten))
    else if p.idx !in s.trackMap then (s, None)
    else
      var i := s.trackMap[p.idx];
      (Appended(s, i, SampleOf(p, s.tracks[i].timescale)), None)
  }

  function TrailerSpec(s: MuxState, ftyp: bytes, mvhd: bytes): (MuxState, Option<MuxError>) {
    if s.closed then (s, Some(TrailerAlreadyWritten))
    else (s.(closed := true, out := s.out + FileBytes(ftyp, mvhd, s.tracks)), None)
  }

  class Muxer {
    var tracks: seq<Track>
    var trackMap: map<nat, nat>
    var written: bool
    var closed: bool
    var out: bytes

    function View(): MuxState
      reads this
    {
      MuxState(tracks, trackMap, written, closed, out)
    }

    constructor ()
      ensures View() == EMPTY
    {
      tracks, trackMap, written, closed, out := [], map[], false, false, [];
    }

    /** `WriteHeader`. */
    method WriteHeader(streams: seq<(nat, Option<Track>)>) returns (err: Option<MuxError>)
      requires View().Valid()
      modifies this
      ensures View().Valid() && (View(), err) == HeaderSpec(old(View()), streams)
    {
      if written {
        return Some(HeaderAlreadyWritten);
      }
      assert streams[0..] == streams;
      for i := 0 to |streams|
        invariant View().Valid() && Declared(old(View()), streams) == Declared(View(), streams[i..])
      {
        assert streams[i..][1..] == streams[i + 1..];
        var (idx, t) := streams[i];
        if t.Some? {
          trackMap := trackMap[idx := |tracks|];
          tracks := tracks + [t.value.(samples := [])];
        }
      }
      written := true;
      return None;
    }

    /** `WritePacket`: the sample goes to the end of its track; unknown streams are skipped. */
    method WritePacket(p: AvPacket) returns (err: Option<MuxError>)
      requires View().Valid()
      modifies this`tracks
      ensures View().Valid() && (View(), err) == WriteSpec(old(View()), p)
    {
      if !written {
        return Some(HeaderNotWritten);
      }
      if closed {
        return Some(TrailerAlreadyWritten);
      }
      if p.idx !in trackMap {
        return None;
      }
      var i := trackMap[p.idx];
      var t := tracks[i];
      var s := Sample(p.keyFrame, ToTicks(p.duration, t.timescale) % TWO32, Int32(ToTicks(p.ptsOffset, t.timescale)),
                      p.data);
      tracks := tracks[i := t.(samples := t.samples + [s])];
      return None;
    }

    /** `WriteTrailer`: the file is written once, complete. */
    method WriteTrailer(ftyp: bytes, mvhd: bytes) returns (err: Option<MuxError>)
      modifies this`closed, this`out
      ensures (View(), err) == TrailerSpec(old(View()), ftyp, mvhd)
    {
      hide FinalMoov, MakeBox;
      if closed {
        return Some(TrailerAlreadyWritten);
      }
      closed := true;
      var file := FlushTracks(ftyp, mvhd, tracks);
      out := out + file;
      return None;
    }
  }

  /** The track-base loop of `flush`. */
  method TrackBases(tracks: seq<Track>, start: nat) returns (bases: seq<int>, total: nat)
    ensures bases == Bases(tracks, start) && total == |AllData(tracks)|
  {
    hide DataOf, Bases;
    bases := [];
    total := 0;
    assert |AllData([])| == 0;
    for i := 0 to |tracks|
      invariant total == |AllData(tracks[..i])|
      invariant |bases| == i && forall j | 0 <= j < i :: bases[j] == Bases(tracks, start)[j]
    {
      BasesAt(tracks, start, i);
      bases := bases + [start + total];
      var size := TrackSize(tracks[i].samples);
      AllDataSnoc(tracks[..i], tracks[i]);
      assert tracks[..i + 1] == tracks[..i] + [tracks[i]];
      total := total + size;
    }
    assert tracks[..|tracks|] == tracks;
  }

  method TrackSize(samples: seq<Sample>) returns (n: nat)
    ensures n == |DataOf(samples)|
  {
    n := 0;
    for i := 0 to |samples|
      invariant n == |DataOf(samples[..i])|
    {
      DataOfSnoc(samples[..i], samples[i]);
      assert samples[..i + 1] == samples[..i] + [samples[i]];
      n := n + |samples[i].data|;
    }
    assert samples[..|samples|] == samples;
  }

  /** The data loop of `flush`. */
  method WriteSamples(tracks: seq<Track>) returns (b: bytes)
    ensures b == AllData(tracks)
  {
    hide DataOf;
    b := [];
    for i := 0 to |tracks|
      invariant b == AllData(tracks[..i])
    {
      var own := WriteTrack(tracks[i].samples);
      AllDataSnoc(tracks[..i], tracks[i]);
      assert tracks[..i + 1] == tracks[..i] + [tracks[i]];
      b := b + own;
    }
    assert tracks[..|tracks|] == tracks;
  }

  method WriteTrack(samples: seq<Sample>) returns (b: bytes)
    ensures b == DataOf(samples)
  {
    b := [];
    for j := 0 to |samples|
      invariant b == DataOf(samples[..j])
    {
      DataOfSnoc(samples[..j], samples[j]);
      assert samples[..j + 1] == samples[..j] + [samples[j]];
      b := b + samples[j].data;
    }
    assert samples[..|samples|] == samples;
  }

  /** `flush`: pass one measures the moov box, pass two writes it with the real offsets. */
  method FlushTracks(ftyp: bytes, mvhd: bytes, tracks: seq<Track>) returns (file: bytes)
    ensures file == FileBytes(ftyp, mvhd, tracks)
  {
    hide MoovBox, Bases, PutU32, AllData;
    var head := MakeBox(Box(FTYP, ftyp));
    var pass1 := MakeBox(MoovBox(mvhd, tracks, Zeros(|tracks|)));
    var start := |head| + |pass1| + 8;
    var bases, total := TrackBases(tracks, start);
    var moov := MakeBox(MoovBox(mvhd, tracks, bases));
    var data := WriteSamples(tracks);
    file := head + moov + (PutU32(8 + total) + PutU32(MDAT)) + data;
    assert file == head + moov + (PutU32(8 + total) + PutU32(MDAT) + data);
  }

  // ── Parsing ─────────────────────────────────────────────────────────────────

  /** The first top-level box of the given type from `pos` on; sizes 0 and 1 mean "to the end" and "64 bits follow". */
  function TopLevelSpec(file: bytes, pos: nat, typ: u32): Result<bytes, Error>
    decreases |file| - pos
  {
    if pos + 8 > |file| then Err(NoMoovBox)
    else
      var size := U32(file, pos);
      if size == 1 && pos + 16 > |file| then Err(UnexpectedEOF)
      else
        var box := if size == 1 then Int64(U64(file, pos + 8)) else if size == 0 then |file| - pos else size;
        var header := if size == 1 then 16 else 8;
        if box < header then Err(Malformed)
        else if U32(file, pos + 4) == typ then
          if pos + box > |file| then Err(UnexpectedEOF) else Ok(file[pos + header..pos + box])
        else TopLevelSpec(file, pos + box, typ)
  }

  /** `findTopLevelBox`. */
  method FindTopLevelBox(file: bytes, typ: u32) returns (r: Result<bytes, Error>)
    ensures r == TopLevelSpec(file, 0, typ)
  {
    hide U32, U64, Int64;
    var pos: nat := 0;
    while true
      invariant TopLevelSpec(file, 0, typ) == TopLevelSpec(file, pos, typ)
      decreases |file| - pos
    {
      if pos + 8 > |file| {
        return Err(NoMoovBox);
      }
      var box: int := U32(file, pos);
      var header := 8;
      if box == 1 {
        if pos + 16 > |file| {
          return Err(UnexpectedEOF);
        }
        box := Int64(U64(file, pos + 8));
        header := 16;
      } else if box == 0 {
        box := |file| - pos;
      }
      if box - header < 0 {
        return Err(Malformed);
      }
      if U32(file, pos + 4) == typ {
        if pos + box > |file| {
          return Err(UnexpectedEOF);
        }
        return Ok(file[pos + header..pos + box]);
      }
      pos := pos + box;
    }
  }

  const AVC1: u32 := 0x6176_6331
  const AVC3: u32 := 0x6176_6333
  const HEV1: u32 := 0x6865_7631
  const HVC1: u32 := 0x6876_6331
  const MP4A: u32 := 0x6D70_3461

  /** `parseStsdEntry` down to the codec configuration, which is not interpreted: is it video? */
  function ParseStsdEntry(data: bytes): Result<bool, Error> {
    if |data| < 8 then Err(Malformed)
    else
      var size := U32(data, 0);
      if size < 8 || size > |data| then Err(Malformed)
      else
        var typ := U32(data, 4);
        if typ in {AVC1, AVC3, HEV1, HVC1} then (if size - 8 < 78 then Err(Malformed) else Ok(true))
        else if typ == MP4A then (if size - 8 < 28 then Err(Malformed) else Ok(false))
        else Err(UnsupportedCodec)
  }

  /** `parseMdhdTimescale`. */
  function ParseMdhdTimescale(p: bytes): Result<u32, Error> {
    if |p| < 4 then Err(Malformed)
    else if p[0] == 0 then
      if |p| < 16 then Err(Malformed) else Ok(U32(p, 12))
    else
      if |p| < 24 then Err(Malformed) else Ok(U32(p, 20))
  }

  function Need(o: Option<bytes>): Result<bytes, Error> {
    match o
    case None => Err(Malformed)
    case Some(p) => Ok(p)
  }

  datatype TrakInfo = TrakInfo(isVideo: bool, samples: seq<SampleEntry>)

  /** `parseTrak`. */
  function ParseTrakSpec(trak: bytes, streamIdx: nat): Result<TrakInfo, Error> {
    var mdia :- Need(First(SplitBoxes(trak), MDIA));
    var mdhd :- Need(First(SplitBoxes(mdia), MDHD));
    var timescale :- ParseMdhdTimescale(mdhd);
    var minf :- Need(First(SplitBoxes(mdia), MINF));
    var stbl :- Need(First(SplitBoxes(minf), STBL));
    var stsd :- Need(First(SplitBoxes(stbl), STSD));
    if |stsd| < 8 then Err(Malformed)
    else
      var isVideo :- ParseStsdEntry(stsd[8..]);
      var samples :- ParseSampleTableSpec(stbl, timescale, streamIdx, isVideo);
      Ok(TrakInfo(isVideo, samples))
  }

  /** The streams found and the samples of all of them, track after track; unreadable tracks are skipped. */
  datatype Movie = Movie(streams: seq<bool>, samples: seq<SampleEntry>)

  function ParseTraksSpec(traks: seq<bytes>, m: Movie): Movie
    decreases |traks|
  {
    if traks == [] then m
    else
      match ParseTrakSpec(traks[0], |m.streams|)
      case Err(_) => ParseTraksSpec(traks[1..], m)
      case Ok(t) => ParseTraksSpec(traks[1..], Movie(m.streams + [t.isVideo], m.samples + t.samples))
  }

  /** The library's stable sort by decode time: each sample goes behind those that are not later. */
  function Insert(sorted: seq<SampleEntry>, e: SampleEntry): (r: seq<SampleEntry>)
    ensures |r| == |sorted| + 1
  {
    if sorted == [] then [e]
    else if sorted[|sorted| - 1].dts <= e.dts then sorted + [e]
    else Insert(sorted[..|sorted| - 1], e) + [sorted[|sorted| - 1]]
  }

  function StableSort(entries: seq<SampleEntry>): (r: seq<SampleEntry>)
    ensures |r| == |entries|
  {
    if entries == [] then [] else Insert(StableSort(entries[..|entries| - 1]), entries[|entries| - 1])
  }

  function ParseMoovSpec(moov: bytes): Result<Movie, Error> {
    var m := ParseTraksSpec(Select(SplitBoxes(moov), TRAK), Movie([], []));
    if m.streams == [] then Err(NoMoovBox) else Ok(m.(samples := StableSort(m.samples)))
  }

  /** `parseTrak`, as a sequence of box lookups. */
  method ParseTrak(trak: bytes, streamIdx: nat) returns (r: Result<TrakInfo, Error>)
    ensures r == ParseTrakSpec(trak, streamIdx)
  {
    hide SplitBoxes, First, ParseMdhdTimescale, ParseStsdEntry, ParseSampleTableSpec;
    var mdia := FindBox(trak, MDIA);
    if mdia.None? {
      return Err(Malformed);
    }
    var mdhd := FindBox(mdia.value, MDHD);
    if mdhd.None? {
      return Err(Malformed);
    }
    var timescale := ParseMdhdTimescale(mdhd.value);
    if timescale.Err? {
      return Err(timescale.error);
    }
    var minf := FindBox(mdia.value, MINF);
    if minf.None? {
      return Err(Malformed);
    }
    var stbl := FindBox(minf.value, STBL);
    if stbl.None? {
      return Err(Malformed);
    }
    var stsd := FindBox(stbl.value, STSD);
    if stsd.None? || |stsd.value| < 8 {
      return Err(Malformed);
    }
    var isVideo := ParseStsdEntry(stsd.value[8..]);
    if isVideo.Err? {
      return Err(isVideo.error);
    }
    var samples := ParseSampleTable(stbl.value, timescale.value, streamIdx, isVideo.value);
    if samples.Err? {
      return Err(samples.error);
    }
    return Ok(TrakInfo(isVideo.value, samples.value));
  }

  /** `parseMoovPayload`. */
  method ParseMoov(moov: bytes) returns (r: Result<Movie, Error>)
    ensures r == ParseMoovSpec(moov)
  {
    hide SplitBoxes, Select, ParseTrakSpec, StableSort;
    var traks := FindBoxes(moov, TRAK);
    var streams: seq<bool>, all: seq<SampleEntry> := [], [];
    for i := 0 to |traks|
      invariant ParseTraksSpec(traks, Movie([], [])) == ParseTraksSpec(traks[i..], Movie(streams, all))
    {
      assert traks[i..][1..] == traks[i + 1..];
      var t := ParseTrak(traks[i], |streams|);
      if t.Ok? {
        streams := streams + [t.value.isVideo];
        all := all + t.value.samples;
      }
    }
    if streams == [] {
      return Err(NoMoovBox);
    }
    return Ok(Movie(streams, StableSort(all)));
  }

  datatype Packet = Packet(streamIdx: nat, keyFrame: bool, dts: int, ptsOffset: int, duration: int, data: bytes)

  /** The packet a sample entry stands for, when its window lies inside the file. */
  function PacketAt(file: bytes, e: SampleEntry): Option<Packet> {
    if 0 <= e.offset && 0 <= e.size && e.offset + e.size <= |file|
    then Some(Packet(e.streamIdx, e.isKey, e.dts, e.ptsOffset, e.duration, file[e.offset..e.offset + e.size]))
    else None
  }

  class Demuxer {
    const file: bytes
    var streams: seq<bool>
    var samples: seq<SampleEntry>
    var pos: nat

    constructor (file: bytes)
      ensures this.file == file && streams == [] && samples == [] && pos == 0
    {
      this.file, streams, samples, pos := file, [], [], 0;
    }

    /** `GetCodecs`. */
    method GetCodecs() returns (err: Option<Error>)
      modifies this`streams, this`samples
      ensures match TopLevelSpec(file, 0, MOOV)
              case Err(e) => err == Some(e) && samples == old(samples) && streams == old(streams)
              case Ok(moov) =>
                match ParseMoovSpec(moov)
                case Err(e) => err == Some(e) && samples == old(samples) && streams == old(streams)
                case Ok(m) => err == None && streams == m.streams && samples == m.samples
    {
      hide TopLevelSpec, ParseMoovSpec;
      var moov := FindTopLevelBox(file, MOOV);
      if moov.Err? {
        return Some(moov.error);
      }
      var m := ParseMoov(moov.value);
      if m.Err? {
        return Some(m.error);
      }
      streams, samples := m.value.streams, m.value.samples;
      return None;
    }

    /** `ReadPacket`: the next sample in table order; a window outside the file is a read error. */
    method ReadPacket() returns (r: Result<Packet, Error>)
      requires pos <= |samples|
      modifies this`pos
      ensures old(pos) == |samples| ==> r == Err(EndOfStream) && pos == old(pos)
      ensures old(pos) < |samples| ==> pos == old(pos) + 1
      ensures old(pos) < |samples| ==>
                r == match PacketAt(file, samples[old(pos)]) case Some(p) => Ok(p) case None => Err(UnexpectedEOF)
    {
      if pos >= |samples| {
        return Err(EndOfStream);
      }
      var s := samples[pos];
      pos := pos + 1;
      var p := PacketAt(file, s);
      return if p.Some? then Ok(p.value) else Err(UnexpectedEOF);
    }
  }
}
