/** From the packets given to an fMP4 muxer, through the bytes it writes, to the packets a reader gets. */
module FragmentDelivery {
  import opened Bytes
  import opened Boxes
  import opened Fragment
  import opened FragmentMuxer
  import opened FragmentMuxerRuns
  import opened FragmentRoundTrip
  import opened Ticks

  // The signed columns of a sample, and its decode time, as Go's integer types hold them.
  predicate InRange(s: Sample) {
    -TWO31 <= s.ptsOffset < TWO31 && -TWO63 <= s.dts < TWO63
  }

  ghost predicate AllInRange(entries: seq<Accepted>) {
    forall a <- entries :: InRange(a.sample)
  }

  lemma TicksInRange(d: int, timescale: u32)
    ensures -TWO63 <= ToTicks(d, timescale) < TWO63
  {
    hide Int64;
  }

  lemma MadeInRange(pkt: AvPacket, t: Track)
    ensures InRange(MakeSample(pkt, t))
  {
    hide ToTicks;
    TicksInRange(pkt.dts, t.timescale);
  }

  // Only a write adds to the log, and what it adds was made from its packet.
  lemma StepInRange(tr: Trace, op: Op)
    requires tr.s.Valid() && AllInRange(tr.log)
    ensures AllInRange(TStep(tr, op).log)
  {
    hide FlushSpec, MakeSample, HasSamples, HasVideo, AddSample, NormalisedDTS, ReplaceTracks, WriteHeaderSpec, InRange,
      PatchAll;
    if op.Write? && tr.s.written && !tr.s.closed && Admits(tr.s, op.pkt) {
      var i := tr.s.trackMap[op.pkt.idx];
      MadeInRange(op.pkt.(dts := NormalisedDTS(tr.s, op.pkt)), tr.s.tracks[i]);
    }
  }

  lemma {:induction false} RunInRange(tr: Trace, ops: seq<Op>)
    requires Good(tr) && AllInRange(tr.log)
    ensures AllInRange(RunFrom(tr, ops).log)
    decreases |ops|
  {
    hide TStep, Layout, Conserved, KeysPlaced;
    if ops != [] {
      StepGood(tr, ops[0]);
      StepInRange(tr, ops[0]);
      RunInRange(TStep(tr, ops[0]), ops[1..]);
    }
  }

  lemma {:induction false} ChunkInLog(chunks: seq<seq<Accepted>>, k: nat, a: Accepted)
    requires k < |chunks| && a in chunks[k]
    ensures a in Flatten(chunks)
  {
    var n := |chunks| - 1;
    if k < n {
      assert chunks[..n][k] == chunks[k];
      ChunkInLog(chunks[..n], k, a);
    }
  }

  lemma {:induction false} OfInRange(entries: seq<Accepted>, i: nat)
    requires AllInRange(entries)
    ensures forall s <- Of(entries, i) :: InRange(s)
  {
    if entries != [] {
      OfInRange(entries[1..], i);
    }
  }

  lemma OffsetsKept(made: seq<Sample>, j: nat)
    requires j < |made|
    ensures PatchLast(Filled(made))[j].ptsOffset == made[j].ptsOffset
  {
  }

  // A written track keeps the composition offsets and the first decode time of the samples made for it.
  lemma WrittenInRange(t: Track, made: seq<Sample>)
    requires Writes(t, made) && forall s <- made :: InRange(s)
    ensures forall s <- t.samples :: -TWO31 <= s.ptsOffset < TWO31
    ensures t.samples != [] ==> -TWO63 <= t.baseTime < TWO63
  {
    hide PatchLast, Filled;
    forall j | 0 <= j < |t.samples|
      ensures -TWO31 <= t.samples[j].ptsOffset < TWO31
    {
      OffsetsKept(made, j);
      assert InRange(made[j]);
    }
    if made != [] {
      assert InRange(made[0]);
    }
  }

  lemma {:induction false} ActiveFrom(tracks: seq<Track>, t: Track)
    requires t in Active(tracks)
    ensures t.samples != [] && exists i :: 0 <= i < |tracks| && tracks[i] == t
  {
    if tracks[0].samples != [] && t == tracks[0] {
    } else {
      ActiveFrom(tracks[1..], t);
      var i :| 0 <= i < |tracks[1..]| && tracks[1..][i] == t;
      assert tracks[i + 1] == t;
    }
  }

  // A moof has room for each sample of each track, an mdat payload for each sample's data.
  lemma {:induction false} SizesBound(active: seq<Track>, t: Track, s: Sample)
    requires t in active && s in t.samples
    ensures |t.samples| <= TrafSizes(active) && |s.data| <= |MdatPayload(active)|
  {
    var head := active[0];
    CountBound(|head.samples|, PerSampleSize(head.hasVideo));
    if t == head {
      DataBound(t.samples, s);
    } else {
      SizesBound(active[1..], t, s);
    }
  }

  lemma CountBound(n: nat, size: nat)
    requires size >= 1
    ensures n <= n * size
  {
  }

  lemma {:induction false} DataBound(samples: seq<Sample>, s: Sample)
    requires s in samples
    ensures |s.data| <= |TrackData(samples)|
  {
    if s != samples[0] {
      DataBound(samples[1..], s);
    }
  }

  // A fragment whose boxes fit their 32-bit sizes.
  predicate FragmentFits(active: seq<Track>) {
    MoofSize(active) < TWO32 && |MdatPayload(active)| + 8 < TWO32
  }

  // Every track of a fragment of a run can be encoded, once the fragment's boxes fit.
  lemma FragmentEncodable(tr: Trace, k: nat, t: Track)
    requires Good(tr) && AllInRange(tr.log) && k < |tr.frags|
    requires t in Active(tr.frags[k]) && FragmentFits(Active(tr.frags[k]))
    ensures t.Encodable() && t.samples != []
  {
    hide Layout, KeysPlaced, Writes, Active, MoofSize, MdatPayload;
    ActiveFrom(tr.frags[k], t);
    var i :| 0 <= i < |tr.frags[k]| && tr.frags[k][i] == t;
    var chunk := tr.chunks[k];
    forall a <- chunk
      ensures InRange(a.sample)
    {
      ChunkInLog(tr.chunks, k, a);
      assert a in tr.log;
    }
    OfInRange(chunk, i);
    assert Writes(tr.frags[k][i], Of(chunk, i));
    WrittenInRange(t, Of(chunk, i));
    EncodableFrom(Active(tr.frags[k]), t);
  }

  lemma EncodableFrom(active: seq<Track>, t: Track)
    requires t in active && t.samples != [] && FragmentFits(active)
    requires -TWO63 <= t.baseTime < TWO63 && forall s <- t.samples :: -TWO31 <= s.ptsOffset < TWO31
    ensures t.Encodable()
  {
    forall s <- t.samples
      ensures s.Encodable() && |t.samples| < TWO32
    {
      SizesBound(active, t, s);
    }
    SizesBound(active, t, t.samples[0]);
  }

  // The two boxes of a fragment, found again in its bytes.
  lemma FragmentBoxes(active: seq<Track>, seqNum: int)
    requires FragmentFits(active)
    ensures SplitBoxes(MoofBytes(active, seqNum) + MdatBytes(active))
         == [MoofBox(active, seqNum, Offsets(active, MoofSize(active) + 8)), MdatBox(active)]
  {
    hide MakeBox, MoofBox, MdatBox, MoofSize, MdatPayload;
    var moof, mdat := MoofBox(active, seqNum, Offsets(active, MoofSize(active) + 8)), MdatBox(active);
    MoofSizeExact(active, seqNum, Offsets(active, MoofSize(active) + 8));
    MdatFits(active);
    TwoBoxes(moof, mdat);
    SplitMakeBoxes([moof, mdat]);
  }

  lemma TwoBoxes(a: Box, b: Box)
    ensures MakeBoxes([a, b]) == MakeBox(a) + MakeBox(b)
  {
    assert [a] + [b] == [a, b] && [b] + [] == [b];
    MakeCons(b, []);
    MakeCons(a, [b]);
    assert MakeBox(b) + [] == MakeBox(b);
  }

  lemma MdatFits(active: seq<Track>)
    ensures MdatBox(active).payload == MdatPayload(active)
  {
  }

  // The tracks a reader knows from the initialisation segment.
  ghost predicate Knows(defs: map<u32, TrackDef>, active: seq<Track>) {
    forall t <- active :: t.id in defs && defs[t.id].id == t.id
  }

  // What a reader should get from a fragment of these tracks.
  ghost function Due(active: seq<Track>, defs: map<u32, TrackDef>): seq<Packet>
    requires Knows(defs, active)
  {
    var placed := Place(active, 0);
    seq(|placed|, k requires 0 <= k < |placed| =>
      PlacedTrack(active, 0, k);
      Delivered(placed[k], defs[placed[k].track.id]))
  }

  // The bytes at `at` are a moof and an mdat, from which the reader gets exactly those packets.
  ghost predicate Delivers(b: bytes, at: int, active: seq<Track>, defs: map<u32, TrackDef>)
    requires Knows(defs, active)
  {
    var boxes := SplitBoxes(b);
    && |boxes| == 2 && boxes[0].typ == MOOF && boxes[1].typ == MDAT
    && var parsed := ParseMoofSpec(boxes[0].payload, defs, at, |MakeBox(boxes[0])|).result;
    && parsed.Ok?
    && CutPackets(parsed.value, defs, boxes[1].payload) == Due(active, defs)
  }

  lemma FragmentDelivers(active: seq<Track>, seqNum: int, at: int, defs: map<u32, TrackDef>)
    requires FragmentFits(active) && OffsetsFit(active) && Knows(defs, active)
    requires forall t <- active :: t.Encodable() && t.samples != []
    ensures Delivers(MoofBytes(active, seqNum) + MdatBytes(active), at, active, defs)
  {
    hide MoofBox, MdatBox, MoofSize, ParseMoofSpec, CutPackets, Place, OffsetsFit, SplitBoxes, Delivered, MakeBox;
    var offsets := Offsets(active, MoofSize(active) + 8);
    MoofSizeExact(active, seqNum, offsets);
    FragmentBoxes(active, seqNum);
    PayloadRoundTrip(active, seqNum, defs, at);
    BoxKinds(active, seqNum);
    var placed := Place(active, 0);
    assert Due(active, defs) == seq(|placed|, k requires 0 <= k < |placed| =>
      PlacedTrack(active, 0, k); Delivered(placed[k], defs[placed[k].track.id]));
  }

  /**
    End to end. Whatever calls a muxer has had, each fragment of its output is found at its
    recorded place as a moof and an mdat, and a reader that knows the tracks gets from them, byte
    for byte and in order, the packets that the calls since the previous fragment were accepted
    for - as long as the two boxes and the data offsets fit their fields.
   */
  lemma RunDelivers(ops: seq<Op>, k: nat, defs: map<u32, TrackDef>)
    requires k < |Run(ops).frags|
    requires var active := Active(Run(ops).frags[k]);
             FragmentFits(active) && OffsetsFit(active) && Knows(defs, active)
    ensures var tr := Run(ops);
            |tr.s.fragIndex| == |tr.extras| == |tr.frags| == |tr.chunks|
    ensures var tr := Run(ops);
            var at, size := tr.s.fragIndex[k].offset + tr.extras[k], tr.s.fragIndex[k].size;
            at + size <= |tr.s.out| && Delivers(tr.s.out[at..at + size], at, Active(tr.frags[k]), defs)
    ensures var tr := Run(ops);
            forall i | 0 <= i < |tr.frags[k]| :: Strip(tr.frags[k][i].samples) == Strip(Of(tr.chunks[k], i))
  {
    hide RunFrom, Run, OffsetsFit, FragmentFits, Active, Delivers, Knows, Strip, Writes, MoofBytes, MdatBytes;
    var tr := Run(ops);
    RunRanges(ops);
    var active := Active(tr.frags[k]);
    forall t <- active
      ensures t.Encodable() && t.samples != []
    {
      FragmentEncodable(tr, k, t);
    }
    assert FragmentAt(tr, k);
    FragmentDelivers(active, (k + 1) % TWO32, tr.s.fragIndex[k].offset + tr.extras[k], defs);
    forall i | 0 <= i < |tr.frags[k]|
      ensures Strip(tr.frags[k][i].samples) == Strip(Of(tr.chunks[k], i))
    {
      assert Writes(tr.frags[k][i], Of(tr.chunks[k], i));
      StripWritten(tr.frags[k][i], Of(tr.chunks[k], i));
    }
  }

  lemma RunRanges(ops: seq<Op>)
    ensures AllInRange(Run(ops).log)
  {
    hide RunFrom, Good, Start;
    StartGood();
    NothingLogged();
    RunInRange(Start(), ops);
  }

  lemma NothingLogged()
    ensures AllInRange(Start().log)
  {
  }

  lemma BoxKinds(active: seq<Track>, seqNum: int)
    ensures MoofBox(active, seqNum, Offsets(active, MoofSize(active) + 8)).typ == MOOF && MdatBox(active).typ == MDAT
  {
  }
}
