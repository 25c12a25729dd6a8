/** The part and segment window of the low-latency HLS muxer. */
module LlHls {
  import opened Bytes
  import opened Wrappers
  import opened Fragment
  import opened FragmentWriter
  import opened Ticks
  import Fmp4 = FragmentMuxer
  import Runs = FragmentMuxerRuns

  // `video` is whether the packet's codec is a video codec.
  datatype Packet = Packet(av: Fmp4.AvPacket, video: bool)

  // Durations are in nanoseconds. A part carries beside its bytes the packets it was made from, the tracks they
  // filled, and the numbers its fragment and first event message got.
  datatype Part = Part(segSeqNo: nat, partIdx: nat, independent: bool, duration: int, data: bytes,
                       made: seq<Runs.Accepted>, frag: seq<Track>, emsgID: nat, seqNum: nat)

  datatype Segment = Segment(seqNo: nat, duration: int, parts: seq<Part>, data: bytes)

  // `initSegment` builds the ftyp and moov for a list of streams.
  datatype Config = Config(partTarget: int, segTarget: int, segBufferCount: nat,
                           initSegment: seq<Fmp4.Stream> -> bytes)

  datatype Error = HeaderAlreadyWritten | TrailerAlreadyWritten | HeaderNotWritten | BadStreams

  // `made` is what the fragment writer has accepted since its last flush; `all` is every segment ever completed,
  // of which `comp` keeps the newest.
  datatype State = State(written: bool, closed: bool, seenFirstKey: bool, fw: Option<WriterState>,
                         streams: seq<Fmp4.Stream>, initData: bytes, made: seq<Runs.Accepted>, partDur: int,
                         cur: Option<Segment>, comp: seq<Segment>, maxSegDur: int, all: seq<Segment>)

  const START := State(false, false, false, None, [], [], [], 0, None, [], 0, [])

  predicate IsVideoKey(w: WriterState, p: Packet) {
    p.av.keyFrame && p.video && Fmp4.HasVideo(w.tracks)
  }

  function DataOf(parts: seq<Part>): bytes {
    if parts == [] then [] else DataOf(parts[..|parts| - 1]) + parts[|parts| - 1].data
  }

  // ---- segments ----

  // The last n elements, all of them when there are fewer.
  function LastOf(segs: seq<Segment>, n: nat): seq<Segment> {
    if |segs| > n then segs[|segs| - n..] else segs
  }

  function FinaliseSpec(c: Config, s: State): State
    requires s.cur.Some?
  {
    var done := s.cur.value.(data := DataOf(s.cur.value.parts));
    s.(maxSegDur := if done.duration > s.maxSegDur then done.duration else s.maxSegDur,
       comp := LastOf(s.comp + [done], c.segBufferCount),
       all := s.all + [done],
       cur := Some(Segment(done.seqNo + 1, 0, [], [])))
  }

  // The next part of a segment, cut from what the fragment writer holds.
  function NextPart(s: State): Part
    requires s.cur.Some? && s.fw.Some?
  {
    var seg, w := s.cur.value, s.fw.value;
    Part(seg.seqNo, |seg.parts|, FirstIsKey(w.tracks), s.partDur, FlushBytes(w),
         s.made, Fmp4.PatchAll(w.tracks), w.emsgID, NextNumber(w))
  }

  // A part flushed from the fragment writer; `nextIsKey` is whether a keyframe waits behind it.
  function EmitSpec(c: Config, s: State, nextIsKey: bool): State
    requires s.cur.Some? && s.fw.Some?
  {
    var part := NextPart(s);
    var flushed := s.(fw := Some(Flushed(s.fw.value)), made := []);
    if |part.data| == 0 then flushed
    else
      var seg := s.cur.value;
      var grown := seg.(parts := seg.parts + [part], duration := seg.duration + s.partDur);
      var s' := flushed.(cur := Some(grown), partDur := 0);
      if nextIsKey && grown.duration >= c.segTarget then FinaliseSpec(c, s') else s'
  }

  // ---- calls ----

  // A muxer with a header has a current segment and a writer, and a writer has been checked.
  predicate Ready(s: State) {
    (s.written ==> s.cur.Some? && s.fw.Some?) && (s.fw.Some? ==> s.cur.Some? && s.fw.value.Valid())
  }

  function HeaderSpec(c: Config, s: State, streams: seq<Fmp4.Stream>): (State, Option<Error>) {
    if s.written then (s, Some(HeaderAlreadyWritten))
    else
      var w := NewWriter(streams);
      if w.None? then (s, Some(BadStreams))
      else (s.(written := true, fw := w, streams := streams, initData := c.initSegment(streams), made := [],
               cur := Some(Segment(0, 0, [], []))), None)
  }

  function AddSpec(s: State, p: Packet): State
    requires s.fw.Some? && s.fw.value.Valid()
  {
    var w := s.fw.value;
    s.(fw := Some(Added(w, p.av)), made := if Known(w, p.av) then s.made + [AcceptedAs(w, p.av)] else s.made,
       partDur := s.partDur + p.av.duration)
  }

  function WriteSpec(c: Config, s: State, p: Packet): (State, Option<Error>)
    requires Ready(s)
  {
    if !s.written then (s, Some(HeaderNotWritten))
    else if s.closed then (s, Some(TrailerAlreadyWritten))
    else
      var key := IsVideoKey(s.fw.value, p);
      if !s.seenFirstKey && !key then (s, None)
      else
        var s1 := s.(seenFirstKey := true);
        var flush := Fmp4.HasSamples(s1.fw.value.tracks) && (key || s1.partDur >= c.partTarget);
        (AddSpec(if flush then EmitSpec(c, s1, key) else s1, p), None)
  }

  function TrailerSpec(c: Config, s: State): (State, Option<Error>)
    requires Ready(s)
  {
    if s.closed then (s, Some(TrailerAlreadyWritten))
    else
      var s1 := s.(closed := true);
      var s2 := if s1.fw.Some? && Fmp4.HasSamples(s1.fw.value.tracks) then EmitSpec(c, s1, false) else s1;
      (if s2.cur.Some? && s2.cur.value.parts != [] then FinaliseSpec(c, s2) else s2, None)
  }

  // The first stream with the index of the new one gives way to it.
  function ReplaceFirst(streams: seq<Fmp4.Stream>, x: Fmp4.Stream): (r: seq<Fmp4.Stream>)
    ensures |r| == |streams|
  {
    if streams == [] then []
    else if streams[0].idx == x.idx then [x] + streams[1..]
    else [streams[0]] + ReplaceFirst(streams[1..], x)
  }

  function ReplaceAll(streams: seq<Fmp4.Stream>, changed: seq<Fmp4.Stream>): seq<Fmp4.Stream>
    decreases |changed|
  {
    if changed == [] then streams else ReplaceAll(ReplaceFirst(streams, changed[0]), changed[1..])
  }

  // A codec change flushes the part and starts a fresh fragment writer for the streams as changed. When they are
  // refused the old writer stays, but the changed list is kept.
  function CodecSpec(c: Config, s: State, changed: seq<Fmp4.Stream>): (State, Option<Error>)
    requires Ready(s)
  {
    if !s.written || s.closed then (s, None)
    else
      var s1 := if Fmp4.HasSamples(s.fw.value.tracks) then EmitSpec(c, s, false) else s;
      var streams := ReplaceAll(s1.streams, changed);
      var w := NewWriter(streams);
      if w.None? then (s1.(streams := streams), Some(BadStreams))
      else (s1.(streams := streams, fw := w, made := [], initData := c.initSegment(streams)), None)
  }

  method ConcatParts(parts: seq<Part>) returns (data: bytes)
    ensures data == DataOf(parts)
  {
    data := [];
    var i := 0;
    while i < |parts|
      invariant 0 <= i <= |parts| && data == DataOf(parts[..i])
    {
      assert parts[..i + 1][..i] == parts[..i];
      data := data + parts[i].data;
      i := i + 1;
    }
    assert parts[..i] == parts;
  }

  lemma ReplaceFrom(streams: seq<Fmp4.Stream>, x: Fmp4.Stream, i: nat)
    requires i < |streams|
    ensures ReplaceFirst(streams[i..], x)
         == if streams[i].idx == x.idx then [x] + streams[i + 1..] else [streams[i]] + ReplaceFirst(streams[i + 1..], x)
  {
    assert streams[i..][1..] == streams[i + 1..];
  }

  lemma ReplaceNone(x: Fmp4.Stream)
    ensures ReplaceFirst([], x) == []
  {
  }

  // The loop over the stream list that applies one change.
  method ReplaceStream(streams: seq<Fmp4.Stream>, x: Fmp4.Stream) returns (r: seq<Fmp4.Stream>)
    ensures r == ReplaceFirst(streams, x)
  {
    hide ReplaceFirst;
    assert streams[0..] == streams && streams[..0] + ReplaceFirst(streams, x) == ReplaceFirst(streams, x);
    for i := 0 to |streams|
      invariant ReplaceFirst(streams, x) == streams[..i] + ReplaceFirst(streams[i..], x)
    {
      ReplaceFrom(streams, x, i);
      Around(streams, x, i, ReplaceFirst(streams[i + 1..], x));
      if streams[i].idx == x.idx {
        return streams[i := x];
      }
    }
    ReplaceNone(x);
    assert streams[|streams|..] == [] && streams[..|streams|] + [] == streams;
    return streams;
  }

  lemma Around(streams: seq<Fmp4.Stream>, x: Fmp4.Stream, i: nat, rest: seq<Fmp4.Stream>)
    requires i < |streams|
    ensures streams[..i] + ([x] + streams[i + 1..]) == streams[i := x]
    ensures streams[..i] + ([streams[i]] + rest) == streams[..i + 1] + rest
  {
  }

  method ReplaceStreams(streams: seq<Fmp4.Stream>, changed: seq<Fmp4.Stream>) returns (r: seq<Fmp4.Stream>)
    ensures r == ReplaceAll(streams, changed)
  {
    hide ReplaceFirst;
    r := streams;
    assert changed[0..] == changed;
    for k := 0 to |changed|
      invariant ReplaceAll(streams, changed) == ReplaceAll(r, changed[k..])
    {
      assert changed[k..][1..] == changed[k + 1..];
      r := ReplaceStream(r, changed[k]);
    }
  }

  class Muxer {
    const config: Config
    var written: bool
    var closed: bool
    var seenFirstKey: bool
    var fw: Writer?
    var streams: seq<Fmp4.Stream>
    var initData: bytes
    var made: seq<Runs.Accepted>
    var partDurAccum: int
    var curSeg: Option<Segment>
    var compSegs: seq<Segment>
    var maxSegDur: int
    ghost var allSegs: seq<Segment>

    ghost function View(): State
      reads this, fw
    {
      State(written, closed, seenFirstKey, if fw == null then None else Some(fw.View()), streams, initData, made,
            partDurAccum, curSeg, compSegs, maxSegDur, allSegs)
    }

    ghost predicate Valid()
      reads this, fw
    {
      Ready(View()) && (fw != null ==> fw.Valid())
    }

    constructor (c: Config)
      ensures config == c && View() == START && Valid() && fw == null
    {
      config := c;
      written, closed, seenFirstKey := false, false, false;
      fw, streams, initData, made := null, [], [], [];
      partDurAccum, maxSegDur := 0, 0;
      curSeg, compSegs, allSegs := None, [], [];
    }

    // The writer, the stream list and the first segment of a new session.
    method Begin(w: Writer, list: seq<Fmp4.Stream>)
      requires w.Valid()
      modifies this`written, this`fw, this`streams, this`initData, this`made, this`curSeg
      ensures Valid() && fw == w
      ensures View() == old(View()).(written := true, fw := Some(old(w.View())), streams := list,
                                     initData := config.initSegment(list), made := [],
                                     cur := Some(Segment(0, 0, [], [])))
    {
      fw, initData := w, config.initSegment(list);
      streams, made, written := list, [], true;
      curSeg := Some(Segment(0, 0, [], []));
    }

    method WriteHeader(list: seq<Fmp4.Stream>) returns (e: Option<Error>)
      requires Valid()
      modifies this
      ensures Valid() && (View(), e) == HeaderSpec(config, old(View()), list)
      ensures fw == old(fw) || fresh(fw)
    {
      hide NewWriter, Fmp4.HasVideo;
      if written {
        return Some(HeaderAlreadyWritten);
      }
      var w := Writer.New(list);
      if w == null {
        return Some(BadStreams);
      }
      Begin(w, list);
      return None;
    }

    method FinaliseSegment()
      requires Valid() && curSeg.Some?
      modifies this`curSeg, this`compSegs, this`maxSegDur, this`allSegs
      ensures Valid() && View() == FinaliseSpec(config, old(View()))
    {
      hide DataOf, Fmp4.HasVideo;
      var data := ConcatParts(curSeg.value.parts);
      var done := curSeg.value.(data := data);
      if done.duration > maxSegDur {
        maxSegDur := done.duration;
      }
      compSegs := compSegs + [done];
      allSegs := allSegs + [done];
      if |compSegs| > config.segBufferCount {
        compSegs := compSegs[|compSegs| - config.segBufferCount..];
      }
      curSeg := Some(Segment(done.seqNo + 1, 0, [], []));
    }

    method EmitPart(nextIsKey: bool)
      requires Valid() && fw != null
      modifies this, fw
      ensures Valid() && fw == old(fw) && View() == EmitSpec(config, old(View()), nextIsKey)
    {
      hide FinaliseSpec, FlushBytes, Flushed, FirstIsKey, Fmp4.PatchAll, Fmp4.HasVideo;
      var seg := curSeg.value;
      var frag, emsgID, seqNum := Fmp4.PatchAll(fw.tracks), fw.emsgID, NextNumber(fw.View());
      var indep := fw.FirstIsKeyframe();
      var data := fw.Flush();
      var flushed := made;
      made := [];
      if |data| == 0 {
        return;
      }
      var part := Part(seg.seqNo, |seg.parts|, indep, partDurAccum, data, flushed, frag, emsgID, seqNum);
      curSeg := Some(seg.(parts := seg.parts + [part], duration := seg.duration + partDurAccum));
      partDurAccum := 0;
      if nextIsKey && curSeg.value.duration >= config.segTarget {
        FinaliseSegment();
      }
    }

    // The flush that a keyframe or a part that has lasted long enough brings about.
    method FlushIfDue(isVideoKey: bool)
      requires Valid() && fw != null
      modifies this, fw
      ensures Valid() && fw == old(fw)
      ensures var s := old(View());
              var flush := Fmp4.HasSamples(s.fw.value.tracks) && (isVideoKey || s.partDur >= config.partTarget);
              View() == if flush then EmitSpec(config, s, isVideoKey) else s
    {
      hide EmitSpec, Fmp4.HasSamples, Fmp4.HasVideo;
      var any := fw.HasAnySamples();
      if any && (isVideoKey || partDurAccum >= config.partTarget) {
        EmitPart(isVideoKey);
      }
    }

    method AddPacket(p: Packet)
      requires Valid() && fw != null
      modifies this`made, this`partDurAccum, fw
      ensures Valid() && View() == AddSpec(old(View()), p)
    {
      hide Added, AcceptedAs, Fmp4.HasVideo;
      if p.av.idx in fw.trackMap {
        made := made + [AcceptedAs(fw.View(), p.av)];
      }
      fw.WritePacket(p.av);
      partDurAccum := partDurAccum + p.av.duration;
    }

    method WritePacket(p: Packet) returns (e: Option<Error>)
      requires Valid()
      modifies this, fw
      ensures Valid() && fw == old(fw) && (View(), e) == WriteSpec(config, old(View()), p)
    {
      hide EmitSpec, AddSpec, Fmp4.HasSamples, Fmp4.HasVideo;
      if !written {
        return Some(HeaderNotWritten);
      }
      if closed {
        return Some(TrailerAlreadyWritten);
      }
      var isVideoKey := p.av.keyFrame && p.video && fw.hasVideo;
      if !seenFirstKey {
        if !isVideoKey {
          return None;
        }
        seenFirstKey := true;
      }
      FlushIfDue(isVideoKey);
      AddPacket(p);
      return None;
    }

    method WriteTrailer() returns (e: Option<Error>)
      requires Valid()
      modifies this, fw
      ensures Valid() && fw == old(fw) && (View(), e) == TrailerSpec(config, old(View()))
    {
      hide EmitSpec, FinaliseSpec, Fmp4.HasSamples, Fmp4.HasVideo;
      if closed {
        return Some(TrailerAlreadyWritten);
      }
      closed := true;
      if fw != null {
        var any := fw.HasAnySamples();
        if any {
          EmitPart(false);
        }
      }
      if curSeg.Some? && |curSeg.value.parts| > 0 {
        FinaliseSegment();
      }
      return None;
    }

    // A new writer for the stream list, and its initialisation segment.
    method OpenWriter() returns (ok: bool)
      requires Valid() && curSeg.Some?
      modifies this`fw, this`made, this`initData
      ensures Valid() && (fw == old(fw) || fresh(fw))
      ensures ok <==> NewWriter(streams).Some?
      ensures var s := old(View());
              View() == if !ok then s
                        else s.(fw := NewWriter(streams), made := [], initData := config.initSegment(streams))
    {
      hide NewWriter, Fmp4.HasVideo;
      var w := Writer.New(streams);
      if w == null {
        return false;
      }
      fw, made := w, [];
      initData := config.initSegment(streams);
      return true;
    }

    method WriteCodecChange(changed: seq<Fmp4.Stream>) returns (e: Option<Error>)
      requires Valid()
      modifies this, fw
      ensures Valid() && (View(), e) == CodecSpec(config, old(View()), changed)
      ensures fw == old(fw) || fresh(fw)
    {
      hide EmitSpec, Fmp4.HasSamples, Fmp4.HasVideo, NewWriter, ReplaceAll;
      if !written || closed {
        return None;
      }
      var any := fw.HasAnySamples();
      if any {
        EmitPart(false);
      }
      streams := ReplaceStreams(streams, changed);
      var ok := OpenWriter();
      return if ok then None else Some(BadStreams);
    }

    method PartAvailable(msn: nat, pIdx: int, hasPIdx: bool) returns (r: bool)
      ensures r == Available(View(), msn, pIdx, hasPIdx)
    {
      var i := 0;
      while i < |compSegs|
        invariant 0 <= i <= |compSegs|
        invariant forall k :: 0 <= k < i ==> !Answers(compSegs[k], msn, pIdx, hasPIdx)
      {
        if compSegs[i].seqNo == msn {
          if !hasPIdx || pIdx < |compSegs[i].parts| {
            return true;
          }
        }
        if compSegs[i].seqNo > msn {
          return true;
        }
        i := i + 1;
      }
      if curSeg.Some? && curSeg.value.seqNo == msn {
        if !hasPIdx {
          return false;
        }
        return pIdx < |curSeg.value.parts|;
      }
      return false;
    }

    method FindSegmentData(seqNo: nat) returns (r: Option<bytes>)
      ensures r == SegmentData(compSegs, seqNo)
    {
      var i := 0;
      assert compSegs[0..] == compSegs;
      while i < |compSegs|
        invariant 0 <= i <= |compSegs|
        invariant SegmentData(compSegs, seqNo) == SegmentData(compSegs[i..], seqNo)
      {
        if compSegs[i].seqNo == seqNo {
          return Some(compSegs[i].data);
        }
        assert compSegs[i..][1..] == compSegs[i + 1..];
        i := i + 1;
      }
      return None;
    }

    method FindPartData(seqNo: nat, pIdx: int) returns (r: Option<bytes>)
      ensures r == PartData(View(), seqNo, pIdx)
    {
      var i := 0;
      assert compSegs[0..] == compSegs;
      while i < |compSegs|
        invariant 0 <= i <= |compSegs|
        invariant Find(compSegs, seqNo) == Find(compSegs[i..], seqNo)
      {
        if compSegs[i].seqNo == seqNo {
          if pIdx >= 0 && pIdx < |compSegs[i].parts| {
            return Some(compSegs[i].parts[pIdx].data);
          }
          return None;
        }
        assert compSegs[i..][1..] == compSegs[i + 1..];
        i := i + 1;
      }
      if curSeg.Some? && curSeg.value.seqNo == seqNo {
        if pIdx >= 0 && pIdx < |curSeg.value.parts| {
          return Some(curSeg.value.parts[pIdx].data);
        }
      }
      return None;
    }
  }

  // ---- what clients see ----

  predicate Answers(seg: Segment, msn: nat, pIdx: int, hasPIdx: bool) {
    seg.seqNo > msn || (seg.seqNo == msn && (!hasPIdx || pIdx < |seg.parts|))
  }

  predicate Available(s: State, msn: nat, pIdx: int, hasPIdx: bool) {
    || (exists k :: 0 <= k < |s.comp| && Answers(s.comp[k], msn, pIdx, hasPIdx))
    || (s.cur.Some? && s.cur.value.seqNo == msn && hasPIdx && pIdx < |s.cur.value.parts|)
  }

  function Find(segs: seq<Segment>, seqNo: nat): Option<Segment> {
    if segs == [] then None else if segs[0].seqNo == seqNo then Some(segs[0]) else Find(segs[1..], seqNo)
  }

  function SegmentData(segs: seq<Segment>, seqNo: nat): Option<bytes> {
    var found := Find(segs, seqNo);
    if found.None? then None else Some(found.value.data)
  }

  function PartData(s: State, seqNo: nat, pIdx: int): Option<bytes> {
    var found := Find(s.comp, seqNo);
    var seg := if found.Some? then found
               else if s.cur.Some? && s.cur.value.seqNo == seqNo then s.cur
               else None;
    if seg.Some? && 0 <= pIdx < |seg.value.parts| then Some(seg.value.parts[pIdx].data) else None
  }

  // The EXT-X-TARGETDURATION of the playlist, in seconds.
  function TargetDuration(c: Config, s: State): int {
    var longest := if s.maxSegDur > c.segTarget then s.maxSegDur else c.segTarget;
    (longest + SECOND - 1) / SECOND
  }
}
