/** The whole output of an fMP4 muxer, as a reader takes it in from front to back. */
module FragmentOutput {
  import opened Bytes
  import opened Wrappers
  import opened Boxes
  import opened Fragment
  import opened FragmentDelivery
  import opened FragmentMuxer
  import opened FragmentMuxerRuns
  import opened FragmentReader
  import opened FragmentRoundTrip

  // ---- the output is its pieces ----

  function FragsOf(pieces: seq<Piece>): seq<seq<Track>> {
    if pieces == [] then []
    else
      var last := pieces[|pieces| - 1];
      FragsOf(pieces[..|pieces| - 1]) + (if last.Frag? then [last.tracks] else [])
  }

  function PieceBytes(p: Piece, n: nat): bytes {
    match p
    case Init(init) => init
    case Frag(tracks, emsgID) => FragmentBytes(tracks, emsgID, n % TWO32)
  }

  // The pieces one after the other, the fragments numbered from 1.
  function Render(pieces: seq<Piece>): bytes {
    if pieces == [] then []
    else
      var front := pieces[..|pieces| - 1];
      Render(front) + PieceBytes(pieces[|pieces| - 1], |FragsOf(front)| + 1)
  }

  ghost predicate Outlined(tr: Trace) {
    tr.s.out == Render(tr.pieces) && FragsOf(tr.pieces) == tr.frags && tr.s.seqNum == |tr.frags| % TWO32
  }

  lemma RenderSnoc(pieces: seq<Piece>, p: Piece)
    ensures Render(pieces + [p]) == Render(pieces) + PieceBytes(p, |FragsOf(pieces)| + 1)
    ensures FragsOf(pieces + [p]) == FragsOf(pieces) + (if p.Frag? then [p.tracks] else [])
  {
    assert (pieces + [p])[..|pieces|] == pieces;
  }

  lemma FlushOutlined(tr: Trace)
    requires Outlined(tr) && HasSamples(tr.s.tracks)
    ensures Outlined(TFlush(tr))
  {
    hide FlushSpec, MoofBytes, MdatBytes, Emsgs, AllSamples, Active, HasSamples, PatchAll, Render, FragsOf;
    FlushWrites(tr.s);
    SuccMod(|tr.frags|, TWO32);
    var active := Active(PatchAll(tr.s.tracks));
    var emsgs, n := Emsgs(AllSamples(active), tr.s.emsgID), (tr.s.seqNum + 1) % TWO32;
    RenderSnoc(tr.pieces, Frag(PatchAll(tr.s.tracks), tr.s.emsgID));
    assert tr.s.out + emsgs + MoofBytes(active, n) + MdatBytes(active)
        == tr.s.out + (emsgs + MoofBytes(active, n) + MdatBytes(active));
  }

  lemma InitOutlined(tr: Trace, tr1: Trace, init: bytes)
    requires Outlined(tr)
    requires tr1.s.out == tr.s.out + init && tr1.pieces == tr.pieces + [Init(init)]
    requires tr1.frags == tr.frags && tr1.s.seqNum == tr.s.seqNum
    ensures Outlined(tr1)
  {
    hide Render, FragsOf;
    RenderSnoc(tr.pieces, Init(init));
    assert FragsOf(tr.pieces) + [] == FragsOf(tr.pieces);
  }

  lemma AppendedHasSamples(s: State, i: nat, x: Sample)
    requires i < |s.tracks|
    ensures HasSamples(Appended(s, i, x).tracks)
  {
    assert Appended(s, i, x).tracks[i].samples != [];
  }

  lemma WriteOutlined(tr: Trace, pkt: AvPacket)
    requires tr.s.Valid() && Outlined(tr)
    ensures Outlined(TWrite(tr, pkt))
  {
    hide FlushSpec, MakeSample, HasSamples, HasVideo, AddSample, NormalisedDTS, Render, FragsOf, PatchAll;
    if tr.s.written && !tr.s.closed && Admits(tr.s, pkt) {
      var i := tr.s.trackMap[pkt.idx];
      var key := tr.s.tracks[i].hasVideo && pkt.keyFrame;
      var t1 := tr.(s := tr.s.(waitingForKeyframe := false,
                               dtsOffset := if tr.s.dtsOffset.Some? then tr.s.dtsOffset else Some(pkt.dts)));
      BeforeOutlined(t1, key);
      var t2 := TBefore(t1, key);
      var sample := MakeSample(pkt.(dts := NormalisedDTS(tr.s, pkt)), tr.s.tracks[i]);
      AppendedHasSamples(t2.s, i, sample);
      AfterOutlined(TAppend(t2, Accepted(i, pkt, sample)), tr.s.tracks[i].hasVideo, pkt.keyFrame);
    }
  }

  lemma BeforeOutlined(tr: Trace, isVideoKey: bool)
    requires Outlined(tr)
    ensures Outlined(TBefore(tr, isVideoKey)) && |TBefore(tr, isVideoKey).s.tracks| == |tr.s.tracks|
  {
    hide FlushSpec, HasSamples, Render, FragsOf, PatchAll;
    FlushKeepsFlags(tr.s);
    if isVideoKey && HasSamples(tr.s.tracks) {
      FlushOutlined(tr);
    }
  }

  lemma AfterOutlined(tr: Trace, isVideo: bool, keyFrame: bool)
    requires Outlined(tr) && HasSamples(tr.s.tracks)
    ensures Outlined(TAfter(tr, isVideo, keyFrame))
  {
    hide FlushSpec, HasSamples, HasVideo, Render, FragsOf, PatchAll;
    FlushOutlined(tr);
    FlushOutlined(tr.(s := tr.s.(firstFragmentFlushed := true)));
  }

  lemma {:induction false} AddTracksWritesNothing(s: State, streams: seq<Stream>)
    requires s.Valid()
    ensures AddTracks(s, streams).out == s.out && AddTracks(s, streams).seqNum == s.seqNum
    decreases |streams|
  {
    if streams != [] {
      match NewTrack(streams[0], |s.tracks| + 1)
      case None => AddTracksWritesNothing(s, streams[1..]);
      case Some(t) =>
        AddTracksWritesNothing(s.(tracks := s.tracks + [t], trackMap := s.trackMap[t.streamIdx := |s.tracks|]),
                               streams[1..]);
    }
  }

  lemma {:induction false} ReplaceTracksWritesNothing(s: State, changed: seq<Stream>)
    requires s.Valid()
    ensures var r := ReplaceTracks(s, changed).state;
            r.out == s.out && r.seqNum == s.seqNum
    decreases |changed|
  {
    if changed != [] {
      if changed[0].idx !in s.trackMap {
        ReplaceTracksWritesNothing(s, changed[1..]);
      } else {
        var prev := s.tracks[s.trackMap[changed[0].idx]];
        match NewTrack(changed[0], prev.id)
        case None =>
        case Some(t) =>
          var i := FirstWithIndex(s.tracks, changed[0].idx);
          ReplaceTracksWritesNothing(s.(tracks := s.tracks[i := t.(nextTime := prev.nextTime)],
                                        trackMap := s.trackMap[changed[0].idx := i]), changed[1..]);
      }
    }
  }

  lemma StepOutlined(tr: Trace, op: Op)
    requires tr.s.Valid() && Outlined(tr)
    ensures Outlined(TStep(tr, op))
  {
    hide FlushSpec, HasSamples, HasVideo, AddTracks, ReplaceTracks, Render, FragsOf, PatchAll, TWrite;
    match op
    case Header(streams, init) =>
      if !tr.s.written {
        AddTracksWritesNothing(tr.s, streams);
        if AddTracks(tr.s, streams).tracks != [] {
          InitOutlined(tr, TStep(tr, op), init);
        }
      }
    case Write(pkt) => WriteOutlined(tr, pkt);
    case Flush =>
      if HasSamples(tr.s.tracks) {
        FlushOutlined(tr);
      }
    case CodecChange(changed, init) => CodecChangeOutlined(tr, changed, init);
    case Trailer =>
      var t1 := tr.(s := tr.s.(closed := true));
      if HasSamples(tr.s.tracks) {
        FlushOutlined(t1);
      }
  }

  lemma CodecChangeOutlined(tr: Trace, changed: seq<Stream>, init: bytes)
    requires tr.s.Valid() && Outlined(tr)
    ensures Outlined(TStep(tr, CodecChange(changed, init)))
  {
    hide FlushSpec, HasSamples, ReplaceTracks, Render, FragsOf, PatchAll;
    if tr.s.written && !tr.s.closed {
      FlushValid(tr.s);
      if HasSamples(tr.s.tracks) {
        FlushOutlined(tr);
      }
      var t1 := if HasSamples(tr.s.tracks) then TFlush(tr) else tr;
      ReplaceTracksWritesNothing(t1.s, changed);
      if ReplaceTracks(t1.s, changed).err.None? {
        InitOutlined(t1, TStep(tr, CodecChange(changed, init)), init);
      }
    }
  }

  lemma {:induction false} RunOutlined(tr: Trace, ops: seq<Op>)
    requires Good(tr) && Outlined(tr)
    ensures Outlined(RunFrom(tr, ops))
    decreases |ops|
  {
    hide TStep, Layout, Conserved, KeysPlaced, Outlined;
    if ops != [] {
      StepGood(tr, ops[0]);
      StepOutlined(tr, ops[0]);
      RunOutlined(TStep(tr, ops[0]), ops[1..]);
    }
  }

  lemma NothingOutlined()
    ensures Outlined(Start())
  {
  }

  /**
    After any calls the output is exactly the initialisation segments and fragments written, one
    after the other, each fragment being the event messages, moof and mdat of its tracks.
   */
  lemma OutputIsPieces(ops: seq<Op>)
    ensures Run(ops).s.out == Render(Run(ops).pieces) && FragsOf(Run(ops).pieces) == Run(ops).frags
  {
    hide RunFrom, Good, Start;
    StartGood();
    NothingOutlined();
    RunOutlined(Start(), ops);
  }

  // ---- the pieces as boxes ----

  function EmsgBoxes(samples: seq<Sample>, id: nat): seq<Box> {
    if samples == [] then []
    else if samples[0].extra == [] then EmsgBoxes(samples[1..], id)
    else [EmsgBox(samples[0].presentMs, id, samples[0].extra)] + EmsgBoxes(samples[1..], id + 1)
  }

  // An event message is 54 bytes and its payload.
  predicate EmsgsFit(samples: seq<Sample>) {
    forall s <- samples :: |s.extra| + 54 < TWO32
  }

  lemma EmsgSize(presentMs: int, id: int, data: bytes)
    ensures |EmsgBox(presentMs, id, data).payload| == 46 + |data| && EmsgBox(presentMs, id, data).typ == EMSG
  {
    hide PutU32, PutU64;
  }

  lemma {:induction false} EmsgsAsBoxes(samples: seq<Sample>, id: nat)
    requires EmsgsFit(samples)
    ensures Emsgs(samples, id) == MakeBoxes(EmsgBoxes(samples, id))
    ensures forall b <- EmsgBoxes(samples, id) :: b.Fits() && b.typ == EMSG
  {
    hide EmsgBox, MakeBox;
    if samples != [] {
      if samples[0].extra == [] {
        EmsgsAsBoxes(samples[1..], id);
      } else {
        EmsgsAsBoxes(samples[1..], id + 1);
        EmsgSize(samples[0].presentMs, id, samples[0].extra);
        MakeCons(EmsgBox(samples[0].presentMs, id, samples[0].extra), EmsgBoxes(samples[1..], id + 1));
      }
    }
  }

  function FragmentBoxList(tracks: seq<Track>, emsgID: nat, seqNum: int): seq<Box> {
    var active := Active(tracks);
    EmsgBoxes(AllSamples(active), emsgID)
    + [MoofBox(active, seqNum, Offsets(active, MoofSize(active) + 8)), MdatBox(active)]
  }

  function PieceBoxes(p: Piece, n: nat): seq<Box> {
    match p
    case Init(init) => SplitBoxes(init)
    case Frag(tracks, emsgID) => FragmentBoxList(tracks, emsgID, n % TWO32)
  }

  // A fragment every size and offset field of which is wide enough.
  predicate FragFits(tracks: seq<Track>) {
    var active := Active(tracks);
    FragmentFits(active) && OffsetsFit(active) && EmsgsFit(AllSamples(active))
  }

  // An initialisation segment is whole boxes, none of them a moof.
  predicate PieceFits(p: Piece) {
    match p
    case Init(init) => MakeBoxes(SplitBoxes(init)) == init && forall b <- SplitBoxes(init) :: b.typ != MOOF
    case Frag(tracks, _) => FragFits(tracks)
  }

  lemma {:induction false} SplitFits(data: bytes)
    ensures forall b <- SplitBoxes(data) :: b.Fits()
    decreases |data|
  {
    hide U32;
    if |data| >= 8 && 8 <= U32(data, 0) <= |data| {
      SplitFits(data[U32(data, 0)..]);
    }
  }

  lemma FragmentAsBoxes(tracks: seq<Track>, emsgID: nat, seqNum: int)
    requires FragFits(tracks)
    ensures FragmentBytes(tracks, emsgID, seqNum) == MakeBoxes(FragmentBoxList(tracks, emsgID, seqNum))
    ensures forall b <- FragmentBoxList(tracks, emsgID, seqNum) :: b.Fits()
  {
    hide Emsgs, EmsgBoxes, AllSamples, Active, MakeBox, MakeBoxes, MoofBox, MdatBox, MoofSize, OffsetsFit, MdatPayload;
    var active := Active(tracks);
    var offsets := Offsets(active, MoofSize(active) + 8);
    var moof, mdat := MoofBox(active, seqNum, offsets), MdatBox(active);
    var emsgs := EmsgBoxes(AllSamples(active), emsgID);
    EmsgsAsBoxes(AllSamples(active), emsgID);
    MoofSizeExact(active, seqNum, offsets);
    MdatFits(active);
    MakeAppend(emsgs, [moof, mdat]);
    TwoBoxes(moof, mdat);
    var e := Emsgs(AllSamples(active), emsgID);
    assert e + MakeBox(moof) + MakeBox(mdat) == e + (MakeBox(moof) + MakeBox(mdat));
  }

  lemma PieceAsBoxes(p: Piece, n: nat)
    requires PieceFits(p)
    ensures PieceBytes(p, n) == MakeBoxes(PieceBoxes(p, n)) && forall b <- PieceBoxes(p, n) :: b.Fits()
  {
    hide FragmentBytes, FragmentBoxList, FragFits, SplitBoxes, MakeBoxes;
    match p
    case Init(init) => SplitFits(init);
    case Frag(tracks, emsgID) => FragmentAsBoxes(tracks, emsgID, n % TWO32);
  }

  function BoxesOf(pieces: seq<Piece>): seq<Box> {
    if pieces == [] then []
    else
      var front := pieces[..|pieces| - 1];
      BoxesOf(front) + PieceBoxes(pieces[|pieces| - 1], |FragsOf(front)| + 1)
  }

  lemma {:induction false} RenderAsBoxes(pieces: seq<Piece>)
    requires forall p <- pieces :: PieceFits(p)
    ensures Render(pieces) == MakeBoxes(BoxesOf(pieces)) && forall b <- BoxesOf(pieces) :: b.Fits()
  {
    hide PieceBytes, PieceBoxes, PieceFits, FragsOf, MakeBoxes;
    if pieces == [] {
      NoBoxes();
    } else {
      var n := |pieces| - 1;
      RenderAsBoxes(pieces[..n]);
      PieceAsBoxes(pieces[n], |FragsOf(pieces[..n])| + 1);
      MakeAppend(BoxesOf(pieces[..n]), PieceBoxes(pieces[n], |FragsOf(pieces[..n])| + 1));
    }
  }

  lemma NoBoxes()
    ensures MakeBoxes([]) == []
  {
  }

  // ---- reading the pieces ----

  // Boxes that are not fragments leave no packets; a moov among them replaces the tracks.
  function TracksPast(c: Config, boxes: seq<Box>, tracks: Tracks): Tracks {
    if boxes == [] then tracks
    else TracksPast(c, boxes[1..], if boxes[0].typ == MOOV then c.parseMoov(boxes[0].payload) else tracks)
  }

  lemma {:induction false} PassOver(c: Config, boxes: seq<Box>, pos: nat, tracks: Tracks)
    requires forall b <- boxes :: b.typ != MOOF
    ensures ReadThrough(c, View(boxes, pos, tracks, []))
         == Progress(View([], pos + |MakeBoxes(boxes)|, TracksPast(c, boxes, tracks), []), [])
    decreases |boxes|
  {
    if boxes != [] {
      var next := FragmentReader.Skipped(c, View(boxes, pos, tracks, []));
      PassOver(c, boxes[1..], next.pos, next.tracks);
    }
  }

  lemma {:induction false} OtherBoxesKeepTracks(c: Config, boxes: seq<Box>, tracks: Tracks)
    requires forall b <- boxes :: b.typ != MOOV
    ensures TracksPast(c, boxes, tracks) == tracks
  {
    if boxes != [] {
      OtherBoxesKeepTracks(c, boxes[1..], tracks);
    }
  }

  // The packets a fragment holds for the reader, in nanoseconds.
  ghost function TimedDue(frag: seq<Track>, tracks: Tracks): seq<Packet>
    requires Knows(tracks, Active(frag))
  {
    TimedAll(Due(Active(frag), tracks), tracks)
  }

  // Those packets as the reader hands them out.
  ghost function Batch(c: Config, frag: seq<Track>, tracks: Tracks): (batch: seq<Packet>)
    requires Knows(tracks, Active(frag))
    ensures SortedFrom(batch, TimedDue(frag, tracks))
  {
    c.order(TimedDue(frag, tracks))
  }

  ghost predicate FragEncodable(frag: seq<Track>) {
    forall t <- Active(frag) :: t.Encodable() && t.samples != []
  }

  lemma ReadMoofMdat(c: Config, active: seq<Track>, seqNum: int, pos: nat, tracks: Tracks)
    requires FragmentFits(active) && OffsetsFit(active) && Knows(tracks, active)
    requires forall t <- active :: t.Encodable() && t.samples != []
    ensures var moof := MoofBox(active, seqNum, Offsets(active, MoofSize(active) + 8));
            FragmentPackets(c, View([moof, MdatBox(active)], pos, tracks, []))
            == Some(View([], pos + SizeOf(moof) + SizeOf(MdatBox(active)), tracks,
                         c.order(TimedAll(Due(active, tracks), tracks))))
  {
    hide MoofBox, MdatBox, MoofSize, ParseMoofSpec, CutPackets, Place, OffsetsFit, Delivered, TimedAll;
    var offsets := Offsets(active, MoofSize(active) + 8);
    MoofSizeExact(active, seqNum, offsets);
    BoxKinds(active, seqNum);
    MoofRoundTrip(active, seqNum, offsets, tracks, pos);
    PayloadRoundTrip(active, seqNum, tracks, pos);
    var placed := Place(active, 0);
    assert Due(active, tracks) == seq(|placed|, k requires 0 <= k < |placed| =>
      PlacedTrack(active, 0, k); Delivered(placed[k], tracks[placed[k].track.id]));
    var boxes := [MoofBox(active, seqNum, offsets), MdatBox(active)];
    assert boxes[2..] == [];
  }

  lemma ReadFragment(c: Config, frag: seq<Track>, emsgID: nat, seqNum: int, pos: nat, tracks: Tracks)
    requires FragFits(frag) && FragEncodable(frag) && Knows(tracks, Active(frag))
    ensures ReadThrough(c, View(FragmentBoxList(frag, emsgID, seqNum), pos, tracks, []))
         == Progress(View([], pos + |FragmentBytes(frag, emsgID, seqNum)|, tracks, []), [Batch(c, frag, tracks)])
  {
    hide EmsgBoxes, Emsgs, AllSamples, Active, MoofBox, MdatBox, MoofSize, OffsetsFit, MakeBox, MdatPayload,
      FragmentPackets, Due, TimedAll, EmsgsFit, FragmentFits;
    var active := Active(frag);
    var emsgs := EmsgBoxes(AllSamples(active), emsgID);
    EmsgsAsBoxes(AllSamples(active), emsgID);
    PassOver(c, emsgs, pos, tracks);
    OtherBoxesKeepTracks(c, emsgs, tracks);
    var moof, mdat := MoofBox(active, seqNum, Offsets(active, MoofSize(active) + 8)), MdatBox(active);
    var at := pos + |MakeBoxes(emsgs)|;
    BoxKinds(active, seqNum);
    ReadMoofMdat(c, active, seqNum, at, tracks);
    ReadPair(c, moof, mdat, at, tracks);
    ThroughAppend(c, emsgs, [moof, mdat], pos, tracks);
  }

  lemma ReadPair(c: Config, moof: Box, mdat: Box, pos: nat, tracks: Tracks)
    requires moof.typ == MOOF
    requires var next := FragmentPackets(c, View([moof, mdat], pos, tracks, []));
             next.Some? && next.value.boxes == []
    ensures var next := FragmentPackets(c, View([moof, mdat], pos, tracks, [])).value;
            ReadThrough(c, View([moof, mdat], pos, tracks, []))
            == Progress(next.(pending := []), [next.pending])
  {
    hide FragmentPackets;
    assert [FragmentPackets(c, View([moof, mdat], pos, tracks, [])).value.pending] + []
        == [FragmentPackets(c, View([moof, mdat], pos, tracks, [])).value.pending];
  }

  // The tracks a reader knows after the pieces.
  function TracksAfter(c: Config, pieces: seq<Piece>, tracks: Tracks): Tracks {
    if pieces == [] then tracks
    else
      var last := pieces[|pieces| - 1];
      var before := TracksAfter(c, pieces[..|pieces| - 1], tracks);
      if last.Init? then TracksPast(c, SplitBoxes(last.init), before) else before
  }

  // Every fragment comes when the reader knows its tracks.
  ghost predicate Known(c: Config, pieces: seq<Piece>, tracks: Tracks) {
    pieces == [] ||
    var front, last := pieces[..|pieces| - 1], pieces[|pieces| - 1];
    && Known(c, front, tracks)
    && (last.Frag? ==> Knows(TracksAfter(c, front, tracks), Active(last.tracks)))
  }

  ghost function Batches(c: Config, pieces: seq<Piece>, tracks: Tracks): seq<seq<Packet>>
    requires Known(c, pieces, tracks)
  {
    if pieces == [] then []
    else
      var front, last := pieces[..|pieces| - 1], pieces[|pieces| - 1];
      Batches(c, front, tracks)
      + (if last.Frag? then [Batch(c, last.tracks, TracksAfter(c, front, tracks))] else [])
  }

  // What the fragments hold for a reader that knows their tracks when they come.
  ghost function Dues(c: Config, pieces: seq<Piece>, tracks: Tracks): seq<seq<Packet>>
    requires Known(c, pieces, tracks)
  {
    if pieces == [] then []
    else
      var front, last := pieces[..|pieces| - 1], pieces[|pieces| - 1];
      Dues(c, front, tracks) + (if last.Frag? then [TimedDue(last.tracks, TracksAfter(c, front, tracks))] else [])
  }

  lemma {:induction false} BatchesSorted(c: Config, pieces: seq<Piece>, tracks: Tracks)
    requires Known(c, pieces, tracks)
    ensures |Batches(c, pieces, tracks)| == |Dues(c, pieces, tracks)| == |FragsOf(pieces)|
    ensures forall k | 0 <= k < |FragsOf(pieces)| ::
              SortedFrom(Batches(c, pieces, tracks)[k], Dues(c, pieces, tracks)[k])
  {
    hide SortedFrom, TimedDue, Knows, Active, TracksAfter;
    if pieces != [] {
      BatchesSorted(c, pieces[..|pieces| - 1], tracks);
    }
  }

  lemma ReadPiece(c: Config, p: Piece, n: nat, pos: nat, tracks: Tracks)
    requires PieceFits(p) && (p.Frag? ==> FragEncodable(p.tracks) && Knows(tracks, Active(p.tracks)))
    ensures ReadThrough(c, View(PieceBoxes(p, n), pos, tracks, []))
         == Progress(View([], pos + |PieceBytes(p, n)|,
                          if p.Init? then TracksPast(c, SplitBoxes(p.init), tracks) else tracks, []),
                     if p.Frag? then [Batch(c, p.tracks, tracks)] else [])
  {
    hide FragmentBytes, FragmentBoxList, FragFits, FragEncodable, SplitBoxes, MakeBoxes, ReadThrough, TracksPast, Batch,
      Active, Knows;
    match p
    case Init(init) => PassOver(c, SplitBoxes(init), pos, tracks);
    case Frag(frag, emsgID) => ReadFragment(c, frag, emsgID, n % TWO32, pos, tracks);
  }

  ghost predicate Encoded(pieces: seq<Piece>) {
    forall p <- pieces :: PieceFits(p) && (p.Frag? ==> FragEncodable(p.tracks))
  }

  lemma {:induction false} ReadPieces(c: Config, pieces: seq<Piece>, tracks: Tracks)
    requires Encoded(pieces) && Known(c, pieces, tracks)
    ensures ReadThrough(c, View(BoxesOf(pieces), 0, tracks, []))
         == Progress(View([], |Render(pieces)|, TracksAfter(c, pieces, tracks), []), Batches(c, pieces, tracks))
  {
    hide PieceFits, FragEncodable, PieceBytes, PieceBoxes, TracksPast, FragsOf, Batch, Knows, SplitBoxes, Active;
    if pieces != [] {
      var front, last := pieces[..|pieces| - 1], pieces[|pieces| - 1];
      ReadPieces(c, front, tracks);
      hide ReadThrough;
      var n := |FragsOf(front)| + 1;
      var before := TracksAfter(c, front, tracks);
      ReadPiece(c, last, n, |Render(front)|, before);
      ThroughAppend(c, BoxesOf(front), PieceBoxes(last, n), 0, tracks);
    }
  }

  // ---- from the calls to the packets read ----

  lemma {:induction false} FragPlace(pieces: seq<Piece>, p: Piece) returns (k: nat)
    requires p in pieces && p.Frag?
    ensures k < |FragsOf(pieces)| && FragsOf(pieces)[k] == p.tracks
  {
    var n := |pieces| - 1;
    if p == pieces[n] {
      k := |FragsOf(pieces[..n])|;
    } else {
      assert p in pieces[..n];
      k := FragPlace(pieces[..n], p);
    }
  }

  lemma FragsEncodable(ops: seq<Op>)
    requires forall p <- Run(ops).pieces :: PieceFits(p)
    ensures Encoded(Run(ops).pieces)
  {
    hide RunFrom, Run, Good, PieceFits, FragsOf, Active, FragmentFits, OffsetsFit, EmsgsFit;
    var tr := Run(ops);
    OutputIsPieces(ops);
    RunRanges(ops);
    forall p <- tr.pieces | p.Frag?
      ensures FragEncodable(p.tracks)
    {
      var k := FragPlace(tr.pieces, p);
      FragFitsParts(p);
      forall t <- Active(p.tracks)
        ensures t.Encodable() && t.samples != []
      {
        FragmentEncodable(tr, k, t);
      }
    }
  }

  lemma FragFitsParts(p: Piece)
    requires p.Frag? && PieceFits(p)
    ensures FragmentFits(Active(p.tracks))
  {
  }

  /**
    Front to back. Whatever calls a muxer has had, a demuxer that reads the whole output from its
    first byte, knowing the tracks of each fragment when it comes, returns the packets of every
    fragment in turn - each fragment's own, all of them and no others, in ascending decode time -
    and then stops at the end of the output with no byte left over.
   */
  lemma FrontToBack(ops: seq<Op>, c: Config, tracks: Tracks)
    requires var pieces := Run(ops).pieces;
             (forall p <- pieces :: PieceFits(p)) && Known(c, pieces, tracks)
    ensures var tr := Run(ops);
            var start := View(SplitBoxes(tr.s.out), 0, tracks, []);
            var got, due := ReadThrough(c, start).batches, Dues(c, tr.pieces, tracks);
            && Drain(c, start) == Flat(got)
            && |got| == |due| == |tr.frags|
            && (forall k | 0 <= k < |got| :: SortedFrom(got[k], due[k]))
            && ReadThrough(c, start).view == View([], |tr.s.out|, TracksAfter(c, tr.pieces, tracks), [])
            && FragsOf(tr.pieces) == tr.frags
  {
    hide RunFrom, Run, Good, PieceFits, FragsOf, Known, Drain, ReadThrough, SplitBoxes, MakeBoxes, SortedFrom;
    var tr := Run(ops);
    OutputIsPieces(ops);
    FragsEncodable(ops);
    RenderAsBoxes(tr.pieces);
    SplitMakeBoxes(BoxesOf(tr.pieces));
    ReadPieces(c, tr.pieces, tracks);
    DrainIsByFragment(c, View(SplitBoxes(tr.s.out), 0, tracks, []));
    BatchesSorted(c, tr.pieces, tracks);
    var batches := Batches(c, tr.pieces, tracks);
    assert [] + Flat(batches) == Flat(batches);
  }
}
