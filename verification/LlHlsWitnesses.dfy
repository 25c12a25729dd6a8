/** Runs of the low-latency HLS muxer that show where its guarantees stop. */
module LlHlsWitnesses {
  import opened Wrappers
  import opened FragmentWriter
  import opened LlHls
  import opened LlHlsRuns
  import Fmp4 = FragmentMuxer
  import Fragment

  const STREAMS := [Fmp4.Stream(0, Fmp4.Video(90_000))]

  function Frame(idx: nat, key: bool, duration: int): Packet {
    Packet(Fmp4.AvPacket(idx, key, 0, 0, duration, [], []), true)
  }

  // A muxer between header and trailer whose writer has one video stream, with index 0.
  ghost predicate Live(s: State) {
    && Settled(s) && s.written && !s.closed
    && (forall i :: i in s.fw.value.trackMap <==> i == 0)
    && Fmp4.HasVideo(s.fw.value.tracks) && s.fw.value.tracks[s.fw.value.trackMap[0]].hasVideo
  }

  lemma AfterHeader(c: Config)
    ensures var s := Step(c, START, Header(STREAMS));
            && Live(s) && !s.seenFirstKey && s.made == [] && s.partDur == 0 && s.comp == [] && s.all == []
            && s.cur == Some(Segment(0, 0, [], []))
  {
    hide Holds;
    NothingHeld();
    HeaderHeld(c, START, STREAMS);
    var t := Fragment.Track(0, 1, 90_000, true, [], 0, 0);
    assert Fmp4.NewTrack(STREAMS[0], 1) == Some(t);
    assert [] + [t] == [t] && STREAMS[1..] == [];
    var w := WriterState([t], map[0 := 0], 0, 0);
    assert NewWriter(STREAMS) == Registered(w, STREAMS[1..]) == Some(w);
    assert w.tracks[0].hasVideo;
  }

  // What stays when a packet is written.
  lemma StaysLive(c: Config, s: State, p: Packet)
    requires Live(s)
    ensures Live(WriteSpec(c, s, p).0)
  {
    hide EmitSpec, Holds, Fmp4.HasSamples, Fmp4.HasVideo;
    WriteHeld(c, s, p);
    EmitReady(c, s.(seenFirstKey := true), IsVideoKey(s.fw.value, p));
    FlushedKinds(s.fw.value);
    FlushKeepsVideo(s.fw.value);
    AddedKinds(s.fw.value, p.av);
    AddedKinds(Flushed(s.fw.value), p.av);
    AddKeepsVideo(s.fw.value, p.av);
    AddKeepsVideo(Flushed(s.fw.value), p.av);
  }

  lemma FlushKeepsVideo(w: WriterState)
    ensures var w' := Flushed(w);
            w'.trackMap == w.trackMap && |w'.tracks| == |w.tracks|
            && forall i | 0 <= i < |w.tracks| :: w'.tracks[i].hasVideo == w.tracks[i].hasVideo
  {
    hide Fmp4.EmsgCount, Fmp4.AllSamples, Fmp4.Active, Fragment.SumDurations, Fmp4.PatchLast, Fmp4.HasSamples;
  }

  lemma AddKeepsVideo(w: WriterState, pkt: Fmp4.AvPacket)
    requires w.Valid()
    ensures var w' := Added(w, pkt);
            w'.trackMap == w.trackMap && |w'.tracks| == |w.tracks|
            && forall i | 0 <= i < |w.tracks| :: w'.tracks[i].hasVideo == w.tracks[i].hasVideo
  {
    hide Fmp4.MakeSample;
  }

  // A packet that brings no flush is only added.
  lemma JustAdded(c: Config, s: State, p: Packet)
    requires Live(s) && s.made == [] && (s.seenFirstKey || IsVideoKey(s.fw.value, p))
    ensures var s' := WriteSpec(c, s, p).0;
            && s' == AddSpec(s.(seenFirstKey := true), p)
            && s'.made == (if p.av.idx == 0 then [AcceptedAs(s.fw.value, p.av)] else [])
  {
    hide EmitSpec, Holds, Fmp4.HasSamples, Fmp4.HasVideo, Added, AcceptedAs;
    HoldsSome(s.fw.value, s.made);
    assert p.av.idx == 0 ==> [] + [AcceptedAs(s.fw.value, p.av)] == [AcceptedAs(s.fw.value, p.av)];
  }

  // A delta frame after a part that has lasted long enough opens the next part.
  lemma PartOpens(c: Config, s: State, p: Packet)
    requires Live(s) && s.seenFirstKey && s.made != [] && s.partDur >= c.partTarget
    requires !IsVideoKey(s.fw.value, p) && p.av.idx == 0
    ensures var s', seg := WriteSpec(c, s, p).0, s.cur.value;
            && s'.seenFirstKey && |s'.made| == 1 && s'.partDur == p.av.duration && s'.comp == s.comp
            && s'.cur == Some(seg.(parts := seg.parts + [NextPart(s)], duration := seg.duration + s.partDur))
  {
    hide Holds, Fmp4.HasSamples, Fmp4.HasVideo, Added, AcceptedAs, FlushBytes, FirstIsKey, FinaliseSpec, Flushed;
    HoldsSome(s.fw.value, s.made);
    var s1 := s.(seenFirstKey := true);
    assert s1 == s && NextPart(s1) == NextPart(s);
    var grown := EmitGrown(s);
    EmitReady(c, s, false);
    FlushKnows(s.fw.value, p.av);
  }

  // A keyframe after a segment that has lasted long enough completes it, and an empty window forgets it at once.
  lemma CompletesAndForgets(c: Config, s: State, p: Packet)
    requires Live(s) && s.seenFirstKey && s.made != [] && s.comp == [] && c.segBufferCount == 0
    requires IsVideoKey(s.fw.value, p) && s.cur.value.duration + s.partDur >= c.segTarget
    ensures var s' := WriteSpec(c, s, p).0;
            s'.comp == [] && s'.cur.Some? && s'.cur.value.seqNo == s.cur.value.seqNo + 1
  {
    hide Holds, Fmp4.HasSamples, Fmp4.HasVideo, Added, AcceptedAs, FlushBytes, FirstIsKey, DataOf, Flushed;
    HoldsSome(s.fw.value, s.made);
    assert s.(seenFirstKey := true) == s;
    var grown := EmitGrown(s);
  }

  // Without room for a complete segment, whatever the other settings, a part that was available is gone once its
  // segment is complete: the header, a keyframe long enough for both targets, a delta frame and the next keyframe.
  lemma AvailabilityLost(c: Config) returns (calls: seq<Call>, call: Call)
    requires c.segBufferCount == 0
    ensures Available(Run(c, calls), 0, 0, true) && !Available(Run(c, calls + [call]), 0, 0, true)
  {
    hide Run, Live, WriteSpec, HeaderSpec, IsVideoKey, NextPart;
    var d := if c.partTarget > c.segTarget then c.partTarget else c.segTarget;
    var key, delta := Frame(0, true, d), Frame(0, false, 0);
    var one := [Header(STREAMS)];
    var two := one + [Write(key)];
    calls, call := two + [Write(delta)], Write(key);
    assert [] + [Header(STREAMS)] == one;
    RunNext(c, [], Header(STREAMS));
    RunNext(c, one, Write(key));
    RunNext(c, two, Write(delta));
    RunNext(c, calls, call);
    AfterHeader(c);
    var s1, s2, s3, s4 := Run(c, one), Run(c, two), Run(c, calls), Run(c, calls + [call]);
    LiveKinds(s1, key, delta);
    JustAdded(c, s1, key);
    StaysLive(c, s1, key);
    LiveKinds(s2, key, delta);
    PartOpens(c, s2, delta);
    StaysLive(c, s2, delta);
    LiveKinds(s3, key, delta);
    CompletesAndForgets(c, s3, key);
  }

  lemma LiveKinds(s: State, key: Packet, delta: Packet)
    requires Live(s) && key.av.keyFrame && key.video && !delta.av.keyFrame
    ensures s.fw.Some? && s.cur.Some? && IsVideoKey(s.fw.value, key) && !IsVideoKey(s.fw.value, delta)
  {
  }

  // A segment that starts with a delta frame: a keyframe of a stream the writer does not know opens the gate, and
  // the next packet of a known stream becomes the first sample.
  lemma KeylessSegment(c: Config) returns (calls: seq<Call>)
    requires c.segBufferCount >= 1
    ensures var s := Run(c, calls);
            |s.comp| == 1 && var made := MadeOf(s.comp[0].parts);
            made != [] && made[0].sample.flags == Fragment.SAMPLE_FLAGS_NON_KEY
  {
    hide Run, Live, WriteSpec, HeaderSpec, IsVideoKey, NextPart, TrailerSpec, AcceptedAs, Added;
    var stray, delta := Frame(1, true, 0), Frame(0, false, 0);
    var one := [Header(STREAMS)];
    var two := one + [Write(stray)];
    var three := two + [Write(delta)];
    calls := three + [Trailer];
    assert [] + [Header(STREAMS)] == one;
    RunNext(c, [], Header(STREAMS));
    RunNext(c, one, Write(stray));
    RunNext(c, two, Write(delta));
    RunNext(c, three, Trailer);
    AfterHeader(c);
    var s1, s2, s3 := Run(c, one), Run(c, two), Run(c, three);
    LiveKinds(s1, stray, delta);
    JustAdded(c, s1, stray);
    StaysLive(c, s1, stray);
    JustAdded(c, s2, delta);
    StaysLive(c, s2, delta);
    DeltaAccepted(s2, delta);
    OneSegment(c, s3);
  }

  lemma DeltaAccepted(s: State, p: Packet)
    requires Live(s) && p.av.idx == 0 && !p.av.keyFrame
    ensures Known(s.fw.value, p.av) && AcceptedAs(s.fw.value, p.av).sample.flags == Fragment.SAMPLE_FLAGS_NON_KEY
  {
  }

  lemma OneSegment(c: Config, s: State)
    requires Live(s) && s.made != [] && s.cur == Some(Segment(0, 0, [], [])) && s.comp == [] && c.segBufferCount >= 1
    ensures var s' := TrailerSpec(c, s).0;
            |s'.comp| == 1 && MadeOf(s'.comp[0].parts) == s.made
  {
    hide Holds, Fmp4.HasSamples, Fmp4.HasVideo, FlushBytes, FirstIsKey, DataOf, Flushed;
    HoldsSome(s.fw.value, s.made);
    var s1 := s.(closed := true);
    var grown := EmitGrown(s1);
    NoParts();
    assert [] + s.made == s.made;
  }
}
