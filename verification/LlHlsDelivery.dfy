/** From the packets given to the low-latency HLS muxer to the packets in the parts and segments it serves. */
module LlHlsDelivery {
  import opened Boxes
  import opened Fragment
  import opened FragmentDelivery
  import opened FragmentWriter
  import opened LlHlsRuns
  import Fmp4 = FragmentMuxer
  import Hls = LlHls
  import Output = FragmentOutput
  import Reader = FragmentReader
  import Runs = FragmentMuxerRuns

  // ---- every part ever made ----

  function PartsOfAll(segs: seq<Hls.Segment>): seq<Hls.Part> {
    if segs == [] then [] else PartsOfAll(segs[..|segs| - 1]) + segs[|segs| - 1].parts
  }

  function AllParts(s: Hls.State): seq<Hls.Part> {
    PartsOfAll(s.all) + if s.cur.Some? then s.cur.value.parts else []
  }

  // Accepted packets went to existing tracks, their fields fit, and keyframes are on video tracks.
  ghost predicate MadeFor(tracks: seq<Track>, made: seq<Runs.Accepted>) {
    forall a <- made ::
      a.track < |tracks| && InRange(a.sample) && (a.sample.flags == SAMPLE_FLAGS_KEY ==> tracks[a.track].hasVideo)
  }

  // A part's bytes are the fragment of its packets.
  ghost predicate PartMade(part: Hls.Part) {
    && part.made != [] && MadeFor(part.frag, part.made)
    && part.data == Fmp4.FragmentBytes(part.frag, part.emsgID, part.seqNum)
    && (forall i | 0 <= i < |part.frag| :: Runs.Writes(part.frag[i], Runs.Of(part.made, i)))
    && part.independent == FirstIsKey(part.frag)
  }

  ghost predicate AllMade(s: Hls.State) {
    && Settled(s)
    && (s.fw.Some? ==> MadeFor(s.fw.value.tracks, s.made))
    && forall part <- AllParts(s) :: PartMade(part)
  }

  lemma {:induction false} PatchKeepsFirst(tracks: seq<Track>)
    ensures FirstIsKey(Fmp4.PatchAll(tracks)) == FirstIsKey(tracks)
  {
    var patched := Fmp4.PatchAll(tracks);
    if tracks != [] {
      assert patched[1..] == Fmp4.PatchAll(tracks[1..]);
      PatchKeepsFirst(tracks[1..]);
    }
  }

  lemma PatchKeepsVideo(tracks: seq<Track>, made: seq<Runs.Accepted>)
    requires MadeFor(tracks, made)
    ensures MadeFor(Fmp4.PatchAll(tracks), made)
  {
    hide Fmp4.PatchLast, InRange;
  }

  lemma NextPartMade(s: Hls.State)
    requires s.cur.Some? && s.fw.Some? && Holds(s.fw.value, s.made) && s.made != []
    requires MadeFor(s.fw.value.tracks, s.made)
    ensures PartMade(Hls.NextPart(s))
  {
    hide Holds, MadeFor, Fmp4.FragmentBytes, Runs.Writes, Runs.Of, FirstIsKey, Fmp4.HasSamples, Fmp4.PatchAll;
    var w := s.fw.value;
    HoldsSome(w, s.made);
    FlushWritesAll(w, s.made);
    PatchKeepsFirst(w.tracks);
    PatchKeepsVideo(w.tracks, s.made);
  }

  lemma PartsSnoc(segs: seq<Hls.Segment>, seg: Hls.Segment)
    ensures PartsOfAll(segs + [seg]) == PartsOfAll(segs) + seg.parts
  {
    assert (segs + [seg])[..|segs|] == segs;
  }

  lemma FinaliseParts(c: Hls.Config, s: Hls.State)
    requires s.cur.Some?
    ensures AllParts(Hls.FinaliseSpec(c, s)) == AllParts(s)
  {
    hide PartsOfAll, Hls.LastOf, Hls.DataOf;
    PartsSnoc(s.all, s.cur.value.(data := Hls.DataOf(s.cur.value.parts)));
    assert AllParts(s) + [] == AllParts(s);
  }

  lemma EmitParts(c: Hls.Config, s: Hls.State, nextIsKey: bool)
    requires s.cur.Some? && s.fw.Some? && Holds(s.fw.value, s.made)
    ensures AllParts(Hls.EmitSpec(c, s, nextIsKey)) == AllParts(s) + if s.made == [] then [] else [Hls.NextPart(s)]
  {
    hide PartsOfAll, Hls.EmitSpec, Hls.FinaliseSpec, Holds, Hls.NextPart, MadeOf;
    var s' := EmitShape(c, s, nextIsKey);
    assert AllParts(s) + [] == AllParts(s);
    if s.made != [] {
      var a, b := PartsOfAll(s.all), s.cur.value.parts;
      assert a + (b + [Hls.NextPart(s)]) == a + b + [Hls.NextPart(s)];
      FinaliseParts(c, s');
    }
  }

  lemma EmitMade(c: Hls.Config, s: Hls.State, nextIsKey: bool)
    requires AllMade(s) && s.cur.Some?
    ensures AllMade(Hls.EmitSpec(c, s, nextIsKey))
  {
    hide Hls.EmitSpec, AllParts, PartMade, Holds, Hls.NextPart, Flushed, Held;
    EmitHeld(c, s, nextIsKey);
    EmitReady(c, s, nextIsKey);
    EmitParts(c, s, nextIsKey);
    if s.made != [] {
      NextPartMade(s);
    }
  }

  lemma AddMade(s: Hls.State, p: Hls.Packet)
    requires AllMade(s) && s.written
    ensures AllMade(Hls.AddSpec(s, p))
  {
    hide AllParts, PartMade, Holds, AcceptedAs, Added, Held, Known;
    AddHeld(s, p);
    var w := s.fw.value;
    AddKeeps(w, p.av, s.made);
    assert AllParts(Hls.AddSpec(s, p)) == AllParts(s) by { PartsDependOn(s, Hls.AddSpec(s, p)); }
  }

  lemma PartsDependOn(s: Hls.State, s': Hls.State)
    requires s'.all == s.all && s'.cur == s.cur
    ensures AllParts(s') == AllParts(s)
  {
  }

  lemma AddKeeps(w: WriterState, pkt: Fmp4.AvPacket, made: seq<Runs.Accepted>)
    requires w.Valid() && MadeFor(w.tracks, made)
    ensures MadeFor(Added(w, pkt).tracks, if Known(w, pkt) then made + [AcceptedAs(w, pkt)] else made)
  {
    hide InRange, Fmp4.MakeSample, Fmp4.AddSample;
    if Known(w, pkt) {
      var i := w.trackMap[pkt.idx];
      MadeInRange(pkt, w.tracks[i]);
      Runs.KeySample(pkt, w.tracks[i]);
      var w' := Added(w, pkt);
      forall k | 0 <= k < |w.tracks|
        ensures w'.tracks[k].hasVideo == w.tracks[k].hasVideo
      {
        AddKeepsKind(w.tracks[k], AcceptedAs(w, pkt).sample);
      }
    }
  }

  lemma AddKeepsKind(t: Track, s: Sample)
    ensures Fmp4.AddSample(t, s).hasVideo == t.hasVideo
  {
  }

  lemma WriteMade(c: Hls.Config, s: Hls.State, p: Hls.Packet)
    requires AllMade(s)
    ensures AllMade(Hls.WriteSpec(c, s, p).0)
  {
    hide Hls.EmitSpec, Hls.AddSpec, AllParts, PartMade, MadeFor, Holds, Fmp4.HasSamples, Fmp4.HasVideo;
    if s.written && !s.closed && (s.seenFirstKey || Hls.IsVideoKey(s.fw.value, p)) {
      var s1, key := s.(seenFirstKey := true), Hls.IsVideoKey(s.fw.value, p);
      PartsDependOn(s, s1);
      EmitMade(c, s1, key);
      EmitReady(c, s1, key);
      var flush := Fmp4.HasSamples(s1.fw.value.tracks) && (key || s1.partDur >= c.partTarget);
      AddMade(if flush then Hls.EmitSpec(c, s1, key) else s1, p);
    }
  }

  lemma TrailerMade(c: Hls.Config, s: Hls.State)
    requires AllMade(s)
    ensures AllMade(Hls.TrailerSpec(c, s).0)
  {
    hide Hls.EmitSpec, Hls.FinaliseSpec, AllParts, PartMade, MadeFor, Holds, Fmp4.HasSamples, Held;
    TrailerHeld(c, s);
    var s1 := s.(closed := true);
    PartsDependOn(s, s1);
    if s.cur.Some? {
      EmitMade(c, s1, false);
      EmitReady(c, s1, false);
      var s2 := if Fmp4.HasSamples(s1.fw.value.tracks) then Hls.EmitSpec(c, s1, false) else s1;
      FinaliseParts(c, s2);
      FinaliseKeeps(c, s2);
    }
  }

  lemma CodecMade(c: Hls.Config, s: Hls.State, changed: seq<Fmp4.Stream>)
    requires AllMade(s)
    ensures AllMade(Hls.CodecSpec(c, s, changed).0)
  {
    hide Hls.EmitSpec, AllParts, PartMade, Holds, Fmp4.HasSamples, Held, NewWriter, Hls.ReplaceAll;
    CodecHeld(c, s, changed);
    if s.written && !s.closed {
      EmitMade(c, s, false);
      EmitReady(c, s, false);
      var s1 := if Fmp4.HasSamples(s.fw.value.tracks) then Hls.EmitSpec(c, s, false) else s;
      PartsDependOn(s1, Hls.CodecSpec(c, s, changed).0);
    }
  }

  lemma HeaderMade(c: Hls.Config, s: Hls.State, streams: seq<Fmp4.Stream>)
    requires AllMade(s)
    ensures AllMade(Hls.HeaderSpec(c, s, streams).0)
  {
    hide PartMade, Holds, Held, NewWriter;
    HeaderHeld(c, s, streams);
  }

  lemma {:induction false} RunMade(c: Hls.Config, calls: seq<Call>)
    ensures AllMade(Run(c, calls))
  {
    hide Hls.HeaderSpec, Hls.WriteSpec, Hls.CodecSpec, Hls.TrailerSpec, AllMade;
    if calls == [] {
      NothingMade();
    } else {
      var front, call := calls[..|calls| - 1], calls[|calls| - 1];
      RunMade(c, front);
      var s := Run(c, front);
      match call
      case Header(streams) => HeaderMade(c, s, streams);
      case Write(p) => WriteMade(c, s, p);
      case Codec(changed) => CodecMade(c, s, changed);
      case Trailer => TrailerMade(c, s);
    }
  }

  lemma NothingMade()
    ensures AllMade(Hls.START)
  {
  }

  lemma {:induction false} PartListed(segs: seq<Hls.Segment>, k: nat, part: Hls.Part)
    requires k < |segs| && part in segs[k].parts
    ensures part in PartsOfAll(segs)
  {
    var n := |segs| - 1;
    if k < n {
      assert segs[..n][k] == segs[k];
      PartListed(segs[..n], k, part);
    }
  }

  // Every part of a listed segment is the fragment of its packets.
  lemma ListedPartMade(c: Hls.Config, calls: seq<Call>, i: nat, part: Hls.Part)
    requires i < |Run(c, calls).comp| && part in Run(c, calls).comp[i].parts
    ensures PartMade(part)
  {
    hide Run, PartMade, PartsOk, Complete, PartsOfAll, Settled, MadeFor, Hls.LastOf;
    RunMade(c, calls);
    RunWindow(c, calls);
    var s := Run(c, calls);
    LastOfIs(s.all, c.segBufferCount);
    var k := |s.all| - |s.comp| + i;
    assert s.comp[i] == s.all[k];
    PartListed(s.all, k, part);
  }

  // ---- reading a served segment ----

  lemma PartEncodable(part: Hls.Part)
    requires PartMade(part) && Output.FragFits(part.frag)
    ensures Output.FragEncodable(part.frag)
  {
    hide Runs.Writes, Runs.Of, Fmp4.Active, FirstIsKey, Fmp4.FragmentBytes;
    var active := Fmp4.Active(part.frag);
    OffsetsAndSizes(part.frag);
    forall t <- active
      ensures t.Encodable() && t.samples != []
    {
      ActiveFrom(part.frag, t);
      var i :| 0 <= i < |part.frag| && part.frag[i] == t;
      OfInRange(part.made, i);
      WrittenInRange(t, Runs.Of(part.made, i));
      EncodableFrom(active, t);
    }
  }

  lemma OffsetsAndSizes(frag: seq<Track>)
    requires Output.FragFits(frag)
    ensures FragmentFits(Fmp4.Active(frag))
  {
  }

  // The boxes of the parts of a segment, and the packets a reader gets from each.
  function BoxesOfParts(parts: seq<Hls.Part>): seq<Box> {
    if parts == [] then []
    else
      var last := parts[|parts| - 1];
      BoxesOfParts(parts[..|parts| - 1]) + Output.FragmentBoxList(last.frag, last.emsgID, last.seqNum)
  }

  // A reader that has the initialisation segment knows the part's tracks, and the part's fields are wide enough.
  ghost predicate Playable(part: Hls.Part, tracks: Reader.Tracks) {
    PartMade(part) && Output.FragFits(part.frag) && Knows(tracks, Fmp4.Active(part.frag))
  }

  ghost function BatchesOf(rc: Reader.Config, parts: seq<Hls.Part>, tracks: Reader.Tracks): seq<seq<Packet>>
    requires forall part <- parts :: Playable(part, tracks)
  {
    if parts == [] then []
    else
      assert Playable(parts[|parts| - 1], tracks);
      BatchesOf(rc, parts[..|parts| - 1], tracks) + [Output.Batch(rc, parts[|parts| - 1].frag, tracks)]
  }

  // What the parts hold for a reader that knows their tracks.
  ghost function DuesOf(parts: seq<Hls.Part>, tracks: Reader.Tracks): (due: seq<seq<Packet>>)
    requires forall part <- parts :: Playable(part, tracks)
    ensures |due| == |parts|
  {
    seq(|parts|, k requires 0 <= k < |parts| =>
      assert Playable(parts[k], tracks);
      Output.TimedDue(parts[k].frag, tracks))
  }

  lemma {:induction false} BatchesSorted(rc: Reader.Config, parts: seq<Hls.Part>, tracks: Reader.Tracks)
    requires forall part <- parts :: Playable(part, tracks)
    ensures |BatchesOf(rc, parts, tracks)| == |parts|
    ensures forall k | 0 <= k < |parts| ::
              Reader.SortedFrom(BatchesOf(rc, parts, tracks)[k], DuesOf(parts, tracks)[k])
  {
    hide Reader.SortedFrom, Output.TimedDue, Playable;
    if parts != [] {
      BatchesSorted(rc, parts[..|parts| - 1], tracks);
    }
  }

  lemma {:induction false} SegmentAsBoxes(parts: seq<Hls.Part>, tracks: Reader.Tracks)
    requires forall part <- parts :: Playable(part, tracks)
    ensures Hls.DataOf(parts) == MakeBoxes(BoxesOfParts(parts)) && forall b <- BoxesOfParts(parts) :: b.Fits()
  {
    hide Output.FragmentBoxList, Output.FragFits, Fmp4.FragmentBytes, MadeFor, Runs.Writes, Runs.Of, FirstIsKey, Knows;
    if parts != [] {
      var n := |parts| - 1;
      var last := parts[n];
      SegmentAsBoxes(parts[..n], tracks);
      assert Playable(last, tracks);
      Output.FragmentAsBoxes(last.frag, last.emsgID, last.seqNum);
      MakeAppend(BoxesOfParts(parts[..n]), Output.FragmentBoxList(last.frag, last.emsgID, last.seqNum));
    }
  }

  lemma {:induction false} ReadParts(rc: Reader.Config, parts: seq<Hls.Part>, tracks: Reader.Tracks)
    requires forall part <- parts :: Playable(part, tracks)
    ensures Reader.ReadThrough(rc, Reader.View(BoxesOfParts(parts), 0, tracks, []))
         == Reader.Progress(Reader.View([], |Hls.DataOf(parts)|, tracks, []), BatchesOf(rc, parts, tracks))
  {
    hide Output.FragmentBoxList, Output.Batch, Playable;
    if parts != [] {
      var n := |parts| - 1;
      var last := parts[n];
      ReadParts(rc, parts[..n], tracks);
      hide Reader.ReadThrough;
      PlayableParts(last, tracks);
      PartEncodable(last);
      Output.ReadFragment(rc, last.frag, last.emsgID, last.seqNum, |Hls.DataOf(parts[..n])|, tracks);
      Reader.ThroughAppend(rc, BoxesOfParts(parts[..n]), Output.FragmentBoxList(last.frag, last.emsgID, last.seqNum),
                           0, tracks);
    }
  }

  lemma PlayableParts(part: Hls.Part, tracks: Reader.Tracks)
    requires Playable(part, tracks)
    ensures PartMade(part) && Output.FragFits(part.frag) && Knows(tracks, Fmp4.Active(part.frag))
    ensures part.data == Fmp4.FragmentBytes(part.frag, part.emsgID, part.seqNum)
  {
    hide Output.FragFits, Fmp4.FragmentBytes, MadeFor, Runs.Writes, Runs.Of, FirstIsKey, Knows;
  }

  /**
    A served segment plays as what was accepted for it. A demuxer that knows the tracks and reads
    the bytes of a listed segment returns the packets of each part in turn, all of them and no
    others, in ascending decode time within the part; and each part's tracks hold exactly the
    samples made from the packets accepted for that part.
   */
  lemma SegmentDelivers(c: Hls.Config, calls: seq<Call>, i: nat, rc: Reader.Config, tracks: Reader.Tracks)
    requires i < |Run(c, calls).comp|
    requires forall part <- Run(c, calls).comp[i].parts ::
               Output.FragFits(part.frag) && Knows(tracks, Fmp4.Active(part.frag))
    ensures var seg := Run(c, calls).comp[i];
            && (forall part <- seg.parts :: Playable(part, tracks))
            && var start := Reader.View(SplitBoxes(seg.data), 0, tracks, []);
            var got, due := Reader.ReadThrough(rc, start).batches, DuesOf(seg.parts, tracks);
            && Reader.Drain(rc, start) == Reader.Flat(got)
            && |got| == |seg.parts| && (forall k | 0 <= k < |got| :: Reader.SortedFrom(got[k], due[k]))
            && Reader.ReadThrough(rc, start).view == Reader.View([], |seg.data|, tracks, [])
            && forall part <- seg.parts, k | 0 <= k < |part.frag| ::
                 Runs.Strip(part.frag[k].samples) == Runs.Strip(Runs.Of(part.made, k))
  {
    hide Run, Output.FragFits, Knows, Playable, PartMade, MakeBoxes, SplitBoxes, Reader.Drain, Reader.ReadThrough,
      Reader.SortedFrom, Runs.Strip, Runs.Of, Hls.DataOf;
    var seg := Run(c, calls).comp[i];
    WindowConsecutive(c, calls, i);
    forall part <- seg.parts
      ensures Playable(part, tracks)
      ensures forall k | 0 <= k < |part.frag| :: Runs.Strip(part.frag[k].samples) == Runs.Strip(Runs.Of(part.made, k))
    {
      ListedPartMade(c, calls, i, part);
      PlayableFrom(part, tracks);
      forall k | 0 <= k < |part.frag|
        ensures Runs.Strip(part.frag[k].samples) == Runs.Strip(Runs.Of(part.made, k))
      {
        PartWrites(part, k);
        Runs.StripWritten(part.frag[k], Runs.Of(part.made, k));
      }
    }
    SegmentAsBoxes(seg.parts, tracks);
    SplitMakeBoxes(BoxesOfParts(seg.parts));
    ReadParts(rc, seg.parts, tracks);
    BatchesSorted(rc, seg.parts, tracks);
    Reader.DrainIsByFragment(rc, Reader.View(SplitBoxes(seg.data), 0, tracks, []));
    var batches := BatchesOf(rc, seg.parts, tracks);
    assert [] + Reader.Flat(batches) == Reader.Flat(batches);
  }

  lemma PlayableFrom(part: Hls.Part, tracks: Reader.Tracks)
    requires PartMade(part) && Output.FragFits(part.frag) && Knows(tracks, Fmp4.Active(part.frag))
    ensures Playable(part, tracks)
  {
  }

  lemma PartWrites(part: Hls.Part, k: nat)
    requires PartMade(part) && k < |part.frag|
    ensures Runs.Writes(part.frag[k], Runs.Of(part.made, k))
  {
  }

  // ---- independent parts ----

  lemma {:induction false} OneVideoTrack(tracks: seq<Track>, v: nat)
    requires v < |tracks| && tracks[v].hasVideo && tracks[v].samples != []
    requires forall i | 0 <= i < |tracks| && tracks[i].hasVideo :: i == v
    ensures FirstIsKey(tracks) == (tracks[v].samples[0].flags == SAMPLE_FLAGS_KEY)
  {
    if v > 0 {
      assert !tracks[0].hasVideo;
      forall i | 0 <= i < |tracks[1..]| && tracks[1..][i].hasVideo
        ensures i == v - 1
      {
        assert tracks[i + 1].hasVideo;
      }
      OneVideoTrack(tracks[1..], v - 1);
    }
  }

  lemma WrittenFlags(t: Track, made: seq<Sample>)
    requires Runs.Writes(t, made) && made != []
    ensures t.samples != [] && t.samples[0].flags == made[0].flags
  {
  }

  lemma {:induction false} FirstMade(parts: seq<Hls.Part>)
    requires parts != [] && parts[0].made != []
    ensures MadeOf(parts) != [] && MadeOf(parts)[0] == parts[0].made[0]
  {
    var n := |parts| - 1;
    if n > 0 {
      assert parts[..n][0] == parts[0];
      FirstMade(parts[..n]);
    } else {
      assert parts[..0] == [];
    }
  }

  // A listed segment can be joined at its start: with one video stream, and no segment opened without a keyframe,
  // the first part of each listed segment is marked independent.
  lemma FirstPartIndependent(c: Hls.Config, calls: seq<Call>, i: nat, v: nat)
    requires NeverKeyless(c, calls) && i < |Run(c, calls).comp| && Run(c, calls).comp[i].parts != []
    requires var frag := Run(c, calls).comp[i].parts[0].frag;
             v < |frag| && forall k | 0 <= k < |frag| && frag[k].hasVideo :: k == v
    ensures Run(c, calls).comp[i].parts[0].independent
  {
    hide Run, NeverKeyless, Runs.Writes, Fmp4.FragmentBytes, FirstIsKey, InRange;
    var seg := Run(c, calls).comp[i];
    var first := seg.parts[0];
    ListedPartMade(c, calls, i, first);
    SegmentsStartAtKey(c, calls, i);
    FirstMade(seg.parts);
    var a := first.made[0];
    assert a.track == v;
    var made := Runs.Of(first.made, v);
    assert made[0] == a.sample;
    WrittenFlags(first.frag[v], made);
    OneVideoTrack(first.frag, v);
  }
}
