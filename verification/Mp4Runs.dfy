/** From the packets given to an MP4 muxer, through the file it writes, to the samples a demuxer finds. */
module Mp4Runs {
  import opened Bytes
  import opened Wrappers
  import opened Boxes
  import opened Mp4File
  import opened RoundTrip = Mp4RoundTrip
  import opened Mp4Tables
  import opened Ticks

  datatype Op = Header(streams: seq<(nat, Option<Track>)>) | Write(p: AvPacket) | Trailer(ftyp: bytes, mvhd: bytes)

  function Step(s: MuxState, op: Op): MuxState
    requires s.Valid()
  {
    match op
    case Header(streams) => HeaderSpec(s, streams).0
    case Write(p) => WriteSpec(s, p).0
    case Trailer(ftyp, mvhd) => TrailerSpec(s, ftyp, mvhd).0
  }

  function Run(ops: seq<Op>): (s: MuxState)
    ensures s.Valid()
  {
    if ops == [] then EMPTY else Step(Run(ops[..|ops| - 1]), ops[|ops| - 1])
  }

  // A packet is taken between header and trailer when its stream is known.
  predicate Takes(s: MuxState, p: AvPacket) {
    s.written && !s.closed && p.idx in s.trackMap
  }

  // The packets taken for track i, in order.
  function TakenFor(ops: seq<Op>, i: nat): seq<AvPacket> {
    if ops == [] then []
    else
      var front, op := ops[..|ops| - 1], ops[|ops| - 1];
      var s := Run(front);
      TakenFor(front, i) + if op.Write? && Takes(s, op.p) && s.trackMap[op.p.idx] == i then [op.p] else []
  }

  function SamplesOf(ps: seq<AvPacket>, timescale: u32): (r: seq<Sample>)
    ensures |r| == |ps|
  {
    seq(|ps|, k requires 0 <= k < |ps| => SampleOf(ps[k], timescale))
  }

  lemma SamplesSnoc(ps: seq<AvPacket>, p: AvPacket, timescale: u32)
    ensures SamplesOf(ps + [p], timescale) == SamplesOf(ps, timescale) + [SampleOf(p, timescale)]
  {
  }

  // Every track holds the samples of its packets, nothing is written before the trailer, and packets and tracks come
  // only with a header.
  ghost predicate Holds(ops: seq<Op>, s: MuxState) {
    && (forall i | 0 <= i < |s.tracks| :: s.tracks[i].samples == SamplesOf(TakenFor(ops, i), s.tracks[i].timescale))
    && (!s.closed ==> s.out == [])
    && (!s.written ==> s.tracks == [] && forall i: nat :: TakenFor(ops, i) == [])
    && (forall i: nat | i >= |s.tracks| :: TakenFor(ops, i) == [])
  }

  lemma {:induction false} DeclaredEmpty(s: MuxState, streams: seq<(nat, Option<Track>)>)
    requires s.Valid() && forall t <- s.tracks :: t.samples == []
    ensures var r := Declared(s, streams);
            && (forall t <- r.tracks :: t.samples == [])
            && r.out == s.out && r.closed == s.closed
    decreases |streams|
  {
    if streams != [] {
      var (idx, t) := streams[0];
      DeclaredEmpty(if t.Some? then Opened(s, idx, t.value) else s, streams[1..]);
    }
  }

  lemma TakenNext(ops: seq<Op>, op: Op, i: nat)
    ensures var s := Run(ops);
            TakenFor(ops + [op], i)
            == TakenFor(ops, i) + if op.Write? && Takes(s, op.p) && s.trackMap[op.p.idx] == i then [op.p] else []
    ensures Run(ops + [op]) == Step(Run(ops), op)
  {
    assert (ops + [op])[..|ops|] == ops;
  }

  lemma WriteHolds(ops: seq<Op>, p: AvPacket)
    requires Holds(ops, Run(ops))
    ensures Holds(ops + [Write(p)], Run(ops + [Write(p)]))
  {
    hide Run, TakenFor, SamplesOf, SampleOf;
    var s, s' := Run(ops), Run(ops + [Write(p)]);
    assert s' == WriteSpec(s, p).0 by { TakenNext(ops, Write(p), 0); }
    forall i: nat
      ensures i < |s'.tracks| ==>
                s'.tracks[i].samples == SamplesOf(TakenFor(ops + [Write(p)], i), s'.tracks[i].timescale)
      ensures !s.written || i >= |s'.tracks| ==> TakenFor(ops + [Write(p)], i) == []
    {
      TakenNext(ops, Write(p), i);
      var ps := TakenFor(ops, i);
      assert ps + [] == ps;
      if i < |s.tracks| {
        SamplesSnoc(ps, p, s.tracks[i].timescale);
      }
    }
  }

  lemma OtherHolds(ops: seq<Op>, op: Op)
    requires Holds(ops, Run(ops)) && !op.Write?
    ensures Holds(ops + [op], Run(ops + [op]))
  {
    hide Run, TakenFor, SamplesOf, FileBytes;
    var s, s' := Run(ops), Run(ops + [op]);
    assert s' == Step(s, op) by { TakenNext(ops, op, 0); }
    forall i: nat
      ensures TakenFor(ops + [op], i) == TakenFor(ops, i)
    {
      TakenNext(ops, op, i);
      assert TakenFor(ops, i) + [] == TakenFor(ops, i);
    }
    if op.Header? && !s.written {
      DeclaredEmpty(s, op.streams);
      assert forall i | 0 <= i < |s'.tracks| :: s'.tracks[i].samples == [] == SamplesOf([], s'.tracks[i].timescale) by {
        NoSamples();
      }
    }
  }

  lemma NoSamples()
    ensures forall timescale: u32 :: SamplesOf([], timescale) == []
  {
  }

  lemma {:induction false} RunHolds(ops: seq<Op>)
    ensures Holds(ops, Run(ops))
  {
    hide Holds, Step;
    if ops == [] {
      NothingHeld();
    } else {
      var n := |ops| - 1;
      assert ops == ops[..n] + [ops[n]];
      RunHolds(ops[..n]);
      if ops[n].Write? {
        WriteHolds(ops[..n], ops[n].p);
      } else {
        OtherHolds(ops[..n], ops[n]);
      }
    }
  }

  lemma NothingHeld()
    ensures Holds([], Run([]))
  {
  }

  /** Packet k of track i as a demuxer should return it: its decode time is the sum of the durations before it. */
  function Returned(t: Track, i: nat, ps: seq<AvPacket>, k: nat): Packet
    requires k < |ps|
  {
    var ts := t.timescale;
    Packet(i, t.isVideo && ps[k].keyFrame,
           ToDuration(Sum(Durations(SamplesOf(ps, ts))[..k]), ts),
           ToDuration(Int32(ToTicks(ps[k].ptsOffset, ts)), ts),
           ToDuration(ToTicks(ps[k].duration, ts) % TWO32, ts),
           ps[k].data)
  }

  lemma ReturnedExpected(tracks: seq<Track>, ps: seq<AvPacket>, i: nat, k: nat)
    requires i < |tracks| && k < |ps| && tracks[i].samples == SamplesOf(ps, tracks[i].timescale)
    ensures ExpectedPacket(tracks, i, k) == Returned(tracks[i], i, ps, k)
  {
    hide ToTicks, ToDuration, Int32, Sum, Durations;
  }

  // Reading `file` gives every stream and, stream by stream, exactly the packets taken for it, in order.
  ghost predicate Delivers(file: bytes, tracks: seq<Track>, ops: seq<Op>) {
    var moov := TopLevelSpec(file, 0, MOOV);
    && moov.Ok? && ParseMoovSpec(moov.value).Ok?
    && var m := ParseMoovSpec(moov.value).value;
    && m.streams == Kinds(tracks) && Sorted(m.samples)
    && forall i: nat | i < |tracks| :: DeliversTrack(file, OfStream(m.samples, i), tracks[i], i, TakenFor(ops, i))
  }

  ghost predicate DeliversTrack(file: bytes, entries: seq<SampleEntry>, t: Track, i: nat, ps: seq<AvPacket>) {
    && |entries| == |ps|
    && forall k | 0 <= k < |ps| :: PacketAt(file, entries[k]) == Some(Returned(t, i, ps, k))
  }

  lemma TrackDelivered(file: bytes, tracks: seq<Track>, i: nat, ps: seq<AvPacket>, entries: seq<SampleEntry>)
    requires i < |tracks| && tracks[i].samples == SamplesOf(ps, tracks[i].timescale)
    requires |entries| == |ps|
    requires forall k | 0 <= k < |ps| :: PacketAt(file, entries[k]) == Some(ExpectedPacket(tracks, i, k))
    ensures DeliversTrack(file, entries, tracks[i], i, ps)
  {
    hide SamplesOf, PacketAt, ExpectedPacket, Returned;
    forall k | 0 <= k < |ps|
      ensures PacketAt(file, entries[k]) == Some(Returned(tracks[i], i, ps, k))
    {
      ReturnedExpected(tracks, ps, i, k);
    }
  }

  /**
    End to end. Whatever calls a muxer has had, closing it with a trailer leaves exactly one file,
    in which a demuxer finds every stream, and stream by stream exactly the packets taken for it,
    in order, each with its own bytes and key flag and with its times through the track's ticks - as
    long as the file stays below 2^32 bytes.
   */
  lemma RunDelivers(ops: seq<Op>, ftyp: bytes, mvhd: bytes)
    requires !Run(ops).closed && Run(ops).tracks != []
    requires |FileBytes(ftyp, mvhd, Run(ops).tracks)| < TWO32
    requires forall i | 0 <= i < |Run(ops).tracks| :: Readable(Run(ops).tracks[i]) && TimesFit(Run(ops).tracks[i])
    ensures Run(ops + [Trailer(ftyp, mvhd)]).out == FileBytes(ftyp, mvhd, Run(ops).tracks)
    ensures Delivers(Run(ops + [Trailer(ftyp, mvhd)]).out, Run(ops).tracks, ops)
  {
    hide Run, FileBytes, TakenFor, SamplesOf, Readable, TimesFit, TopLevelSpec, ParseMoovSpec, Sorted, OfStream,
      PacketAt, ExpectedPacket, DeliversTrack, Kinds, Bases, MdatStart;
    var tracks, file := Run(ops).tracks, Run(ops + [Trailer(ftyp, mvhd)]).out;
    RunHolds(ops);
    assert file == FileBytes(ftyp, mvhd, tracks) by {
      TakenNext(ops, Trailer(ftyp, mvhd), 0);
      assert [] + FileBytes(ftyp, mvhd, tracks) == FileBytes(ftyp, mvhd, tracks);
    }
    RoundTrip.Mp4RoundTrip(ftyp, mvhd, tracks);
    var m := ParseMoovSpec(TopLevelSpec(file, 0, MOOV).value).value;
    forall i: nat | i < |tracks|
      ensures DeliversTrack(file, OfStream(m.samples, i), tracks[i], i, TakenFor(ops, i))
    {
      TrackDelivered(file, tracks, i, TakenFor(ops, i), OfStream(m.samples, i));
    }
  }
}
