/** From the packets given to an fMP4 muxer, through the index built from its run, to the fragment a seek finds. */
module SegmentSeek {
  import opened Bytes
  import opened Wrappers
  import opened Boxes
  import opened Fragment
  import opened FragmentMuxer
  import opened FragmentMuxerRuns
  import opened SegmentIndex
  import opened Ticks

  // ---- decode times count from the first packet ----

  ghost predicate Origin(tr: Trace) {
    && (tr.s.dtsOffset.None? <==> tr.log == [])
    && (tr.log != [] ==> tr.log[0].sample.dts == 0)
  }

  lemma FlushClock(s: State)
    ensures FlushSpec(s).dtsOffset == s.dtsOffset && |FlushSpec(s).tracks| == |s.tracks|
  {
    hide MoofBytes, MdatBytes, Emsgs, EmsgCount, IndexEntry, AllSamples, Active, PatchAll, ClearAll;
  }

  lemma FirstIsZero(pkt: AvPacket, t: Track)
    requires pkt.dts == 0
    ensures MakeSample(pkt, t).dts == 0
  {
    assert 0 * t.timescale == 0;
  }

  // Flushing around a packet leaves the origin and the log alone.
  lemma BeforeClock(tr: Trace, isVideoKey: bool)
    ensures var t := TBefore(tr, isVideoKey);
            t.log == tr.log && t.s.dtsOffset == tr.s.dtsOffset && |t.s.tracks| == |tr.s.tracks|
  {
    hide FlushSpec, HasSamples, PatchAll;
    FlushClock(tr.s);
  }

  lemma AfterClock(tr: Trace, isVideo: bool, keyFrame: bool)
    ensures var t := TAfter(tr, isVideo, keyFrame);
            t.log == tr.log && t.s.dtsOffset == tr.s.dtsOffset
  {
    hide FlushSpec, HasSamples, HasVideo, PatchAll;
    FlushClock(tr.s);
    FlushClock(tr.s.(firstFragmentFlushed := true));
  }

  lemma WriteOrigin(tr: Trace, pkt: AvPacket)
    requires tr.s.Valid() && Origin(tr)
    ensures Origin(TWrite(tr, pkt))
  {
    hide MakeSample, AddSample, TBefore, TAfter;
    if tr.s.written && !tr.s.closed && Admits(tr.s, pkt) {
      var i := tr.s.trackMap[pkt.idx];
      var key := tr.s.tracks[i].hasVideo && pkt.keyFrame;
      var t1 := tr.(s := tr.s.(waitingForKeyframe := false,
                               dtsOffset := if tr.s.dtsOffset.Some? then tr.s.dtsOffset else Some(pkt.dts)));
      var p := pkt.(dts := NormalisedDTS(tr.s, pkt));
      BeforeClock(t1, key);
      if tr.log == [] {
        FirstIsZero(p, tr.s.tracks[i]);
      }
      var t3 := TAppend(TBefore(t1, key), Accepted(i, pkt, MakeSample(p, tr.s.tracks[i])));
      AfterClock(t3, tr.s.tracks[i].hasVideo, pkt.keyFrame);
    }
  }

  lemma {:induction false} AddTracksClock(s: State, streams: seq<Stream>)
    requires s.Valid()
    ensures AddTracks(s, streams).dtsOffset == s.dtsOffset
    decreases |streams|
  {
    if streams != [] {
      match NewTrack(streams[0], |s.tracks| + 1)
      case None => AddTracksClock(s, streams[1..]);
      case Some(t) =>
        AddTracksClock(s.(tracks := s.tracks + [t], trackMap := s.trackMap[t.streamIdx := |s.tracks|]), streams[1..]);
    }
  }

  lemma StepOrigin(tr: Trace, op: Op)
    requires tr.s.Valid() && Origin(tr) && !op.CodecChange?
    ensures Origin(TStep(tr, op))
  {
    hide FlushSpec, HasSamples, HasVideo, AddTracks, PatchAll, TWrite;
    FlushClock(tr.s);
    FlushClock(tr.s.(closed := true));
    match op
    case Header(streams, _) => AddTracksClock(tr.s, streams);
    case Write(pkt) => WriteOrigin(tr, pkt);
    case Flush =>
    case Trailer =>
  }

  // ---- runs with one stream ----

  predicate OneStream(op: Op) {
    match op
    case Header(streams, _) => |streams| == 1
    case CodecChange(_, _) => false
    case _ => true
  }

  predicate SameTrack(frag: seq<Track>, tracks: seq<Track>) {
    |tracks| == 1 && |frag| == 1 && frag[0].timescale == tracks[0].timescale
  }

  // A single track, on which every fragment was written.
  ghost predicate OneTrack(tr: Trace) {
    && |tr.s.tracks| <= 1 && (tr.s.tracks != [] ==> tr.s.written)
    && forall k | 0 <= k < |tr.frags| :: SameTrack(tr.frags[k], tr.s.tracks)
  }

  lemma ClearedClock(tracks: seq<Track>)
    ensures forall i | 0 <= i < |tracks| ::
              ClearAll(PatchAll(tracks))[i].timescale == tracks[i].timescale == PatchAll(tracks)[i].timescale
  {
    hide PatchLast, SumDurations;
  }

  lemma FlushedTracks(s: State)
    requires HasSamples(s.tracks)
    ensures FlushSpec(s).tracks == ClearAll(PatchAll(s.tracks)) && FlushSpec(s).written == s.written
  {
    hide MoofBytes, MdatBytes, Emsgs, EmsgCount, IndexEntry, AllSamples, Active, PatchAll, ClearAll, HasSamples;
    PatchKeepsSamples(s.tracks);
    ActiveIffSamples(PatchAll(s.tracks));
  }

  lemma FlushOneTrack(tr: Trace)
    requires OneTrack(tr) && HasSamples(tr.s.tracks)
    ensures OneTrack(TFlush(tr))
  {
    hide FlushSpec, PatchAll, ClearAll;
    ClearedClock(tr.s.tracks);
    FlushedTracks(tr.s);
    var t := TFlush(tr);
    forall k | 0 <= k < |t.frags|
      ensures SameTrack(t.frags[k], t.s.tracks)
    {
      assert k < |tr.frags| ==> t.frags[k] == tr.frags[k];
    }
  }

  lemma AppendOneTrack(tr: Trace, a: Accepted)
    requires OneTrack(tr) && a.track < |tr.s.tracks|
    ensures OneTrack(TAppend(tr, a)) && HasSamples(TAppend(tr, a).s.tracks)
  {
    hide BackFill;
    assert TAppend(tr, a).s.tracks[a.track].samples != [];
  }

  lemma BeforeOneTrack(tr: Trace, isVideoKey: bool)
    requires OneTrack(tr)
    ensures OneTrack(TBefore(tr, isVideoKey))
  {
    hide FlushSpec, HasSamples, PatchAll, OneTrack;
    if isVideoKey && HasSamples(tr.s.tracks) {
      FlushOneTrack(tr);
      OneTrackDependsOn(TFlush(tr), TBefore(tr, isVideoKey));
    }
  }

  lemma AfterOneTrack(tr: Trace, isVideo: bool, keyFrame: bool)
    requires OneTrack(tr) && HasSamples(tr.s.tracks)
    ensures OneTrack(TAfter(tr, isVideo, keyFrame))
  {
    hide FlushSpec, HasSamples, HasVideo, PatchAll, OneTrack;
    FlushOneTrack(tr);
    var t1 := tr.(s := tr.s.(firstFragmentFlushed := true));
    OneTrackDependsOn(tr, t1);
    FlushOneTrack(t1);
  }

  lemma WriteOneTrack(tr: Trace, pkt: AvPacket)
    requires tr.s.Valid() && OneTrack(tr)
    ensures OneTrack(TWrite(tr, pkt))
  {
    hide MakeSample, HasSamples, TBefore, TAfter, TAppend, NormalisedDTS, OneTrack;
    if tr.s.written && !tr.s.closed && Admits(tr.s, pkt) {
      var i := tr.s.trackMap[pkt.idx];
      var key := tr.s.tracks[i].hasVideo && pkt.keyFrame;
      var t1 := tr.(s := tr.s.(waitingForKeyframe := false,
                               dtsOffset := if tr.s.dtsOffset.Some? then tr.s.dtsOffset else Some(pkt.dts)));
      OneTrackDependsOn(tr, t1);
      BeforeOneTrack(t1, key);
      BeforeClock(t1, key);
      var a := Accepted(i, pkt, MakeSample(pkt.(dts := NormalisedDTS(tr.s, pkt)), tr.s.tracks[i]));
      AppendOneTrack(TBefore(t1, key), a);
      AfterOneTrack(TAppend(TBefore(t1, key), a), tr.s.tracks[i].hasVideo, pkt.keyFrame);
    }
  }

  lemma HeaderOneTrack(tr: Trace, streams: seq<Stream>, init: bytes)
    requires tr.s.Valid() && OneTrack(tr) && |streams| == 1
    ensures OneTrack(TStep(tr, Header(streams, init)))
  {
    hide HasVideo;
    if !tr.s.written {
      assert streams[1..] == [];
      assert |AddTracks(tr.s, streams).tracks| <= 1;
    }
  }

  lemma StepOneTrack(tr: Trace, op: Op)
    requires tr.s.Valid() && OneTrack(tr) && OneStream(op)
    ensures OneTrack(TStep(tr, op))
  {
    hide FlushSpec, HasSamples, HasVideo, PatchAll, TWrite, WriteHeaderSpec;
    match op
    case Header(streams, init) => HeaderOneTrack(tr, streams, init);
    case Write(pkt) => WriteOneTrack(tr, pkt);
    case Flush =>
      if HasSamples(tr.s.tracks) {
        FlushOneTrack(tr);
      }
    case Trailer =>
      var t1 := tr.(s := tr.s.(closed := true));
      OneTrackDependsOn(tr, t1);
      if HasSamples(tr.s.tracks) {
        FlushOneTrack(t1);
      }
  }

  lemma OneTrackDependsOn(tr: Trace, tr1: Trace)
    requires OneTrack(tr) && tr1.s.tracks == tr.s.tracks && tr1.s.written == tr.s.written && tr1.frags == tr.frags
    ensures OneTrack(tr1)
  {
    hide SameTrack;
  }

  lemma {:induction false} RunOneTrack(tr: Trace, ops: seq<Op>)
    requires Good(tr) && OneTrack(tr) && Origin(tr) && forall op <- ops :: OneStream(op)
    ensures OneTrack(RunFrom(tr, ops)) && Origin(RunFrom(tr, ops))
    decreases |ops|
  {
    hide TStep, Layout, Conserved, KeysPlaced, OneTrack, Origin;
    if ops != [] {
      StepGood(tr, ops[0]);
      StepOneTrack(tr, ops[0]);
      StepOrigin(tr, ops[0]);
      RunOneTrack(TStep(tr, ops[0]), ops[1..]);
    }
  }

  lemma StartOneTrack()
    ensures OneTrack(Start()) && Origin(Start())
  {
  }

  // ---- the timeline of a run ----

  // The ticks a fragment of one track lasts, as written: missing durations have been filled in.
  ghost function Lasts(frag: seq<Track>): nat {
    if frag == [] then 0 else SumDurations(frag[0].samples)
  }

  ghost function TimelineOf(tr: Trace): Timeline {
    Timeline(0, seq(|tr.frags|, k requires 0 <= k < |tr.frags| => Lasts(tr.frags[k])),
             if tr.s.tracks == [] then 0 else tr.s.tracks[0].timescale)
  }

  // A fragment lasts, by its written durations, exactly until the next one starts.
  ghost predicate Meets(frag: seq<Track>, next: seq<Track>) {
    frag != [] && next != [] ==> frag[0].baseTime + Lasts(frag) == next[0].baseTime
  }

  ghost predicate Gapless(tr: Trace) {
    forall k | 0 <= k < |tr.frags| - 1 :: Meets(tr.frags[k], tr.frags[k + 1])
  }

  lemma {:induction false} FirstOfFlatten(chunks: seq<seq<Accepted>>)
    requires chunks != [] && chunks[0] != []
    ensures Flatten(chunks) != [] && Flatten(chunks)[0] == chunks[0][0]
  {
    var n := |chunks| - 1;
    if n > 0 {
      FirstOfFlatten(chunks[..n]);
    } else {
      assert chunks[..0] == [];
    }
  }

  lemma {:induction false} OfOnlyTrack(entries: seq<Accepted>)
    requires forall a <- entries :: a.track == 0
    ensures |Of(entries, 0)| == |entries| && forall j | 0 <= j < |entries| :: Of(entries, 0)[j] == entries[j].sample
  {
    if entries != [] {
      OfOnlyTrack(entries[1..]);
    }
  }

  // A fragment of a run with one track holds its whole chunk, and starts with the chunk's first packet.
  lemma FragmentOfChunk(tr: Trace, k: nat)
    requires Good(tr) && OneTrack(tr) && k < |tr.chunks|
    ensures |tr.frags| == |tr.chunks| && |tr.frags[k]| == 1 && tr.chunks[k] != []
    ensures |tr.s.tracks| == 1 && tr.frags[k][0].timescale == tr.s.tracks[0].timescale
    ensures var t, made := tr.frags[k][0], Of(tr.chunks[k], 0);
            && t.samples != [] && t.baseTime == tr.chunks[k][0].sample.dts && Writes(t, made)
            && |made| == |tr.chunks[k]| && forall j | 0 <= j < |made| :: made[j] == tr.chunks[k][j].sample
  {
    hide FragmentAt, InFileOrder, KeysPlaced, Buffers, SumDurations, Filled, Of, Flatten, PatchLast;
    var chunk, t := tr.chunks[k], tr.frags[k][0];
    forall a <- chunk
      ensures a.track == 0
    {
      assert a.track < |tr.frags[k]|;
    }
    OfOnlyTrack(chunk);
    assert Writes(t, Of(chunk, 0));
    FragmentHolds(tr, k);
    WritesSome(t, Of(chunk, 0));
  }

  lemma WritesSome(t: Track, made: seq<Sample>)
    requires Writes(t, made)
    ensures |t.samples| == |made|
  {
  }

  lemma FragmentHolds(tr: Trace, k: nat)
    requires Layout(tr) && k < |tr.frags| && |tr.frags[k]| == 1
    ensures tr.frags[k][0].samples != []
  {
    hide MoofBytes, MdatBytes, IndexEntry, InFileOrder;
    assert FragmentAt(tr, k);
    ActiveIffSamples(tr.frags[k]);
  }

  lemma ActiveOne(t: Track)
    requires t.samples != []
    ensures Active([t]) == [t]
  {
    assert [t][1..] == [] && [t] + [] == [t];
  }

  // The first fragment starts at tick 0.
  lemma StartsAtZero(tr: Trace)
    requires Good(tr) && OneTrack(tr) && Origin(tr) && tr.chunks != []
    ensures tr.frags != [] && |tr.frags[0]| == 1 && tr.frags[0][0].baseTime == 0
  {
    hide Writes, Of, Good, OneTrack, Flatten;
    FragmentOfChunk(tr, 0);
    FirstOfFlatten(tr.chunks);
    GoodParts(tr);
  }

  lemma NextTick(tr: Trace, k: nat)
    requires k < |tr.frags|
    ensures StartTick(TimelineOf(tr), k + 1) == StartTick(TimelineOf(tr), k) + Lasts(tr.frags[k])
    ensures StartTick(TimelineOf(tr), 0) == 0
  {
    hide Lasts;
  }

  lemma {:induction false} StartTicks(tr: Trace, k: nat)
    requires Gapless(tr) && k < |tr.frags| && tr.frags[0] != [] && tr.frags[0][0].baseTime == 0
    requires forall j | 0 <= j < |tr.frags| :: tr.frags[j] != []
    ensures StartTick(TimelineOf(tr), k) == tr.frags[k][0].baseTime
  {
    hide Lasts, StartTick;
    if k == 0 {
      NextTick(tr, 0);
    } else {
      StartTicks(tr, k - 1);
      NextTick(tr, k - 1);
      assert Meets(tr.frags[k - 1], tr.frags[k - 1 + 1]);
    }
  }

  // The timeline gives each fragment's own start if and only if there are no gaps.
  lemma GaplessExactly(tr: Trace)
    requires tr.frags != [] && forall j | 0 <= j < |tr.frags| :: tr.frags[j] != []
    requires tr.frags[0][0].baseTime == 0
    ensures Gapless(tr) <==> forall k | 0 <= k < |tr.frags| :: StartTick(TimelineOf(tr), k) == tr.frags[k][0].baseTime
  {
    hide Lasts, StartTick;
    if Gapless(tr) {
      forall k | 0 <= k < |tr.frags|
        ensures StartTick(TimelineOf(tr), k) == tr.frags[k][0].baseTime
      {
        StartTicks(tr, k);
      }
    } else {
      var k :| 0 <= k < |tr.frags| - 1 && !Meets(tr.frags[k], tr.frags[k + 1]);
      NextTick(tr, k);
      assert tr.frags[k] != [] && tr.frags[k + 1] != [];
    }
  }

  lemma EntryDescribes(tr: Trace, k: nat)
    requires Good(tr) && OneTrack(tr) && k < |tr.chunks|
    ensures |tr.s.fragIndex| == |tr.chunks| == |tr.frags| && tr.frags[k] != []
    ensures var tl, e, t := TimelineOf(tr), tr.s.fragIndex[k], tr.frags[k][0];
            e.pts == ToDuration(t.baseTime, tl.timescale) && e.duration == ToDuration(tl.durs[k], tl.timescale)
  {
    hide MoofBytes, MdatBytes, InFileOrder, KeysPlaced, Conserved, SumDurations, ToDuration, Writes, Of;
    FragmentOfChunk(tr, k);
    assert FragmentAt(tr, k);
    var t := tr.frags[k][0];
    assert tr.frags[k] == [t];
    ActiveOne(t);
  }

  // The index of a run with one stream whose fragments leave no gaps describes them: where each starts, in ticks of
  // the stream's clock counted from the first packet, and how long it lasts.
  lemma RunDescribes(ops: seq<Op>)
    requires forall op <- ops :: OneStream(op)
    requires Gapless(Run(ops)) && Run(ops).s.fragIndex != []
    ensures var tr := Run(ops);
            && |tr.s.fragIndex| == |tr.chunks| == |tr.frags| == |tr.extras| && tr.s.tracks != []
            && Describes(TimelineOf(tr), tr.s.fragIndex)
            && forall k | 0 <= k < |tr.chunks| ::
                 tr.chunks[k] != [] && StartTick(TimelineOf(tr), k) == tr.chunks[k][0].sample.dts
  {
    hide RunFrom, Start, Good, Lasts, StartTick, ToDuration, OneTrack, Origin, Writes, Of;
    StartGood();
    StartOneTrack();
    RunOneTrack(Start(), ops);
    var tr := Run(ops);
    GoodParts(tr);
    StartsAtZero(tr);
    forall k | 0 <= k < |tr.chunks|
      ensures tr.frags[k] != [] && tr.chunks[k] != [] && tr.frags[k][0].baseTime == tr.chunks[k][0].sample.dts
      ensures tr.s.tracks != []
      ensures var tl, e, t := TimelineOf(tr), tr.s.fragIndex[k], tr.frags[k][0];
              e.pts == ToDuration(t.baseTime, tl.timescale) && e.duration == ToDuration(tl.durs[k], tl.timescale)
    {
      FragmentOfChunk(tr, k);
      EntryDescribes(tr, k);
    }
    GaplessExactly(tr);
  }

  lemma GoodParts(tr: Trace)
    requires Good(tr)
    ensures tr.log == Flatten(tr.chunks) + tr.pending && |tr.chunks| == |tr.s.fragIndex| == |tr.frags| == |tr.extras|
  {
    hide FragmentAt, InFileOrder, KeysPlaced, Buffers, Writes, Of, Flatten;
  }

  // ---- packets that last until the next ----

  // Every packet comes with a duration, in ticks, that reaches exactly to the next.
  ghost predicate Continuous(entries: seq<Accepted>) {
    && (forall j | 0 <= j < |entries| :: entries[j].sample.duration > 0)
    && forall j | 0 <= j < |entries| - 1 ::
         entries[j + 1].sample.dts == entries[j].sample.dts + entries[j].sample.duration
  }

  lemma ContinuousSplit(a: seq<Accepted>, b: seq<Accepted>)
    requires Continuous(a + b)
    ensures Continuous(a) && Continuous(b)
  {
    var s := a + b;
    forall j | 0 <= j < |a|
      ensures s[j] == a[j]
    {
    }
    forall j | 0 <= j < |b|
      ensures s[|a| + j] == b[j]
    {
    }
    forall j | 0 <= j < |a| - 1
      ensures a[j + 1].sample.dts == a[j].sample.dts + a[j].sample.duration
    {
      assert s[j + 1] == a[j + 1];
    }
    forall j | 0 <= j < |b| - 1
      ensures b[j + 1].sample.dts == b[j].sample.dts + b[j].sample.duration
    {
      assert s[|a| + j + 1] == b[j + 1];
    }
  }

  function Total(entries: seq<Accepted>): nat {
    if entries == [] then 0 else entries[0].sample.duration + Total(entries[1..])
  }

  // A stretch reaches exactly to the packet behind it.
  lemma {:induction false} ReachesNext(a: seq<Accepted>, x: Accepted)
    requires a != [] && Continuous(a + [x])
    ensures a[0].sample.dts + Total(a) == x.sample.dts
  {
    var s := a + [x];
    assert s[0] == a[0] && s[1].sample.dts == s[0].sample.dts + s[0].sample.duration;
    if |a| == 1 {
      assert a[1..] == [];
    } else {
      assert s == [a[0]] + (a[1..] + [x]);
      ContinuousSplit([a[0]], a[1..] + [x]);
      ReachesNext(a[1..], x);
    }
  }

  lemma {:induction false} Neighbours(chunks: seq<seq<Accepted>>, k: nat)
    requires k + 1 < |chunks| && Continuous(Flatten(chunks))
    ensures Continuous(chunks[k] + chunks[k + 1])
  {
    var n := |chunks| - 1;
    var front, last := chunks[..n], chunks[n];
    if k + 1 < n {
      ContinuousSplit(Flatten(front), last);
      Neighbours(front, k);
    } else {
      var before := Flatten(front[..n - 1]);
      assert Flatten(chunks) == (before + front[n - 1]) + last;
      assert (before + chunks[k]) + last == before + (chunks[k] + last);
      ContinuousSplit(before, chunks[k] + last);
    }
  }

  lemma {:induction false} TotalIsSum(entries: seq<Accepted>, samples: seq<Sample>)
    requires |samples| == |entries| && forall j | 0 <= j < |entries| :: samples[j] == entries[j].sample
    ensures SumDurations(samples) == Total(entries)
  {
    if entries != [] {
      TotalIsSum(entries[1..], samples[1..]);
    }
  }

  // With durations of their own, the samples are written as they were made.
  lemma WrittenAsMade(t: Track, made: seq<Sample>)
    requires Writes(t, made) && forall s <- made :: s.duration > 0
    ensures t.samples == made
  {
    assert Filled(made) == made;
  }

  lemma ChunkLasts(tr: Trace, k: nat)
    requires Good(tr) && OneTrack(tr) && k < |tr.chunks| && Continuous(tr.chunks[k])
    ensures k < |tr.frags| && Lasts(tr.frags[k]) == Total(tr.chunks[k])
  {
    hide Good, OneTrack, Writes, Of, SumDurations;
    FragmentOfChunk(tr, k);
    var made := Of(tr.chunks[k], 0);
    forall s <- made
      ensures s.duration > 0
    {
      var j :| 0 <= j < |made| && made[j] == s;
      assert tr.chunks[k][j].sample.duration > 0;
    }
    WrittenAsMade(tr.frags[k][0], made);
    TotalIsSum(tr.chunks[k], made);
  }

  // Packets that each last until the next leave no gap, wherever fragments are cut.
  lemma ContinuousIsGapless(ops: seq<Op>)
    requires (forall op <- ops :: OneStream(op)) && Continuous(Run(ops).log)
    ensures Gapless(Run(ops))
  {
    hide RunFrom, Start, Good, Lasts, OneTrack, Origin, Continuous, Flatten, Writes, Of;
    StartGood();
    StartOneTrack();
    RunOneTrack(Start(), ops);
    var tr := Run(ops);
    GoodParts(tr);
    ContinuousSplit(Flatten(tr.chunks), tr.pending);
    forall k | 0 <= k < |tr.frags| - 1
      ensures Meets(tr.frags[k], tr.frags[k + 1])
    {
      FragmentOfChunk(tr, k);
      FragmentOfChunk(tr, k + 1);
      Neighbours(tr.chunks, k);
      var a, b := tr.chunks[k], tr.chunks[k + 1];
      ContinuousSplit(a, b);
      ChunkLasts(tr, k);
      assert a + b == (a + [b[0]]) + b[1..];
      ContinuousSplit(a + [b[0]], b[1..]);
      ReachesNext(a, b[0]);
    }
  }

  // ---- seeking ----

  // The start times a reader gets from the sidx box of the run's index.
  ghost function IndexPts(entries: seq<SidxEntry>): seq<int> {
    seq(|entries|, k requires 0 <= k < |entries| => entries[k].pts)
  }

  // Fragment k, where the output holds it.
  ghost predicate HoldsFragment(tr: Trace, k: nat, at: int)
    requires k < |tr.frags|
  {
    var active := Active(tr.frags[k]);
    var bytes := MoofBytes(active, (k + 1) % TWO32) + MdatBytes(active);
    0 <= at && at + |bytes| <= |tr.s.out| && tr.s.out[at..at + |bytes|] == bytes
  }

  lemma ParsedPtsAre(tl: Timeline, entries: seq<FragmentIndex>, referenceID: u32, anchor: int, parsed: seq<SidxEntry>)
    requires Fits(tl) && Describes(tl, entries) && 0 < |entries| < 0x1_0000
    requires -TWO63 <= entries[0].offset - anchor < TWO63
    requires ParseSidxSpec(BuildSidx(entries, referenceID, tl.timescale, anchor).value.payload, anchor) == Some(parsed)
    ensures |parsed| == |tl.durs| && IndexPts(parsed) == ParsedPts(tl)
  {
    hide ToDuration, ParseSidxSpec, BuildSidx, Fits, Describes, Lost, StartTick, Lossless;
    DescribesParts(tl, entries);
    FitsParts(tl);
    forall k | 0 <= k < |entries|
      ensures |parsed| == |entries| && parsed[k].pts == ParsedStart(tl, k)
    {
      ParsedTimes(tl, entries, referenceID, anchor, k);
    }
    assert |parsed| == |entries| by { ParsedTimes(tl, entries, referenceID, anchor, 0); }
  }

  // The chosen entry leads to its fragment, and that fragment does not start after the target if no tick was lost.
  ghost predicate Finds(tr: Trace, parsed: seq<SidxEntry>, target: int) {
    && 0 < |parsed| == |tr.frags| == |tr.chunks|
    && var i, tl := SeekIndex(IndexPts(parsed), target), TimelineOf(tr);
    && HoldsFragment(tr, i, parsed[i].offset)
    && tr.chunks[i] != [] && tl.timescale > 0
    && (i == 0 || Lost(tl, i) > 0 || ToDuration(tr.chunks[i][0].sample.dts, tl.timescale) <= target)
  }

  lemma ChosenStart(tl: Timeline, target: int)
    requires Fits(tl) && tl.durs != []
    ensures var i := SeekIndex(ParsedPts(tl), target);
            i == 0 || Lost(tl, i) > 0 || TrueStart(tl, i) <= target
  {
    hide ParsedStart, TrueStart, Fits, Lost;
    FitsParts(tl);
    var i := SeekIndex(ParsedPts(tl), target);
    LeadingProps(ParsedPts(tl), target);
    ParsedVsTrue(tl, i);
    assert ParsedPts(tl)[i] == ParsedStart(tl, i);
  }

  /**
    A seek through the sidx box of a run with one stream and no gaps. The entry it chooses
    gives the true position of that fragment's moof; and unless it falls back to the first
    fragment, that fragment's first packet starts at or before the target whenever no conversion in
    front of it drops a tick.
   */
  lemma SeekFindsFragment(ops: seq<Op>, referenceID: u32, anchor: int, parsed: seq<SidxEntry>, target: int)
    requires forall op <- ops :: OneStream(op)
    requires Gapless(Run(ops)) && 0 < |Run(ops).s.fragIndex| < 0x1_0000 && Fits(TimelineOf(Run(ops)))
    requires var entries := Run(ops).s.fragIndex;
             -TWO63 <= entries[0].offset - anchor < TWO63 && SpansFit(entries, |entries|)
    requires var box := BuildSidx(Run(ops).s.fragIndex, referenceID, TimelineOf(Run(ops)).timescale, anchor).value;
             ParseSidxSpec(box.payload, anchor) == Some(parsed)
    ensures Finds(Run(ops), parsed, target)
  {
    hide RunFrom, Run, Good, Gapless, ToDuration, ParseSidxSpec, BuildSidx, Fits, Describes, StartTick, SpansFit,
      OneStream, Lasts, Lost, SeekIndex, ParsedPts, IndexPts, Active, MoofBytes, MdatBytes, StartOf;
    var tr := Run(ops);
    var tl, entries := TimelineOf(tr), tr.s.fragIndex;
    RunDescribes(ops);
    FitsParts(tl);
    IndexRoundTrip(entries, referenceID, tl.timescale, anchor);
    ParsedPtsAre(tl, entries, referenceID, anchor, parsed);
    var i := SeekIndex(ParsedPts(tl), target);
    OneStreamOnly(ops);
    IndexOffsets(ops, i);
    ChosenStart(tl, target);
  }

  lemma OneStreamOnly(ops: seq<Op>)
    requires forall op <- ops :: OneStream(op)
    ensures forall op <- ops :: !op.CodecChange?
  {
    forall op <- ops
      ensures !op.CodecChange?
    {
      assert OneStream(op);
    }
  }
}
