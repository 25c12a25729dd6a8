/** What holds after every sequence of calls on the fMP4 muxer. */
module FragmentMuxerRuns {
  import opened Bytes
  import opened Wrappers
  import opened Fragment
  import opened FragmentMuxer
  import opened Ticks

  datatype Op =
    | Header(streams: seq<Stream>, init: bytes)
    | Write(pkt: AvPacket)
    | Flush
    | CodecChange(changed: seq<Stream>, init: bytes)
    | Trailer

  /** A buffered packet: the track it went to and the sample made from it. */
  datatype Accepted = Accepted(track: nat, pkt: AvPacket, sample: Sample)

  /** What is written in one go: an initialisation segment, or a fragment of tracks and its first event message id. */
  datatype Piece = Init(init: bytes) | Frag(tracks: seq<Track>, emsgID: nat)

  /**
    A run with its history. Fragments cut the accepted packets into consecutive chunks;
    `frags[k]` are the tracks of fragment k as they were written, and `extras[k]` counts the
    bytes of mid-stream initialisation segments written before it. `pieces` is everything
    written, in order.
   */
  datatype Trace = Trace(
    s: State,
    log: seq<Accepted>,
    chunks: seq<seq<Accepted>>,
    pending: seq<Accepted>,
    frags: seq<seq<Track>>,
    extra: nat,
    extras: seq<nat>,
    pieces: seq<Piece>)

  const EMPTY := State([], map[], 0, 0, false, false, None, false, [], 0, 0, false, [])

  function Start(): Trace {
    Trace(EMPTY, [], [], [], [], 0, [], [])
  }

  function TFlush(tr: Trace): Trace {
    tr.(s := FlushSpec(tr.s),
        chunks := tr.chunks + [tr.pending],
        pending := [],
        frags := tr.frags + [PatchAll(tr.s.tracks)],
        extras := tr.extras + [tr.extra],
        pieces := tr.pieces + [Frag(PatchAll(tr.s.tracks), tr.s.emsgID)])
  }

  function TBefore(tr: Trace, isVideoKey: bool): Trace {
    if isVideoKey && HasSamples(tr.s.tracks)
    then var t := TFlush(tr); t.(s := t.s.(firstFragmentFlushed := true))
    else tr
  }

  function TAppend(tr: Trace, a: Accepted): Trace
    requires a.track < |tr.s.tracks|
  {
    tr.(s := Appended(tr.s, a.track, a.sample), log := tr.log + [a], pending := tr.pending + [a])
  }

  function TAfter(tr: Trace, isVideo: bool, keyFrame: bool): Trace {
    if !HasVideo(tr.s.tracks) then TFlush(tr)
    else if !tr.s.firstFragmentFlushed && isVideo && !keyFrame && HasSamples(tr.s.tracks)
    then TFlush(tr.(s := tr.s.(firstFragmentFlushed := true)))
    else tr
  }

  function TWrite(tr: Trace, pkt: AvPacket): Trace
    requires tr.s.Valid()
  {
    if !tr.s.written || tr.s.closed || !Admits(tr.s, pkt) then tr
    else
      var i := tr.s.trackMap[pkt.idx];
      var isVideo := tr.s.tracks[i].hasVideo;
      var sample := MakeSample(pkt.(dts := NormalisedDTS(tr.s, pkt)), tr.s.tracks[i]);
      var t1 := tr.(s := tr.s.(waitingForKeyframe := false,
                               dtsOffset := if tr.s.dtsOffset.Some? then tr.s.dtsOffset else Some(pkt.dts)));
      FlushValid(t1.s);
      TAfter(TAppend(TBefore(t1, isVideo && pkt.keyFrame), Accepted(i, pkt, sample)), isVideo, pkt.keyFrame)
  }

  function TStep(tr: Trace, op: Op): Trace
    requires tr.s.Valid()
  {
    match op
    case Header(streams, init) =>
      var r := WriteHeaderSpec(tr.s, streams, init);
      tr.(s := r.state, pieces := if r.err.Some? then tr.pieces else tr.pieces + [Init(init)])
    case Write(pkt) => TWrite(tr, pkt)
    case Flush => if tr.s.closed || !tr.s.written || !HasSamples(tr.s.tracks) then tr else TFlush(tr)
    case CodecChange(changed, init) =>
      if !tr.s.written || tr.s.closed then tr
      else
        FlushValid(tr.s);
        var t1 := if HasSamples(tr.s.tracks) then TFlush(tr) else tr;
        var r := ReplaceTracks(t1.s, changed);
        if r.err.Some? then t1.(s := r.state)
        else t1.(s := r.state.(out := r.state.out + init), extra := t1.extra + |init|,
                 pieces := t1.pieces + [Init(init)])
    case Trailer =>
      if tr.s.closed then tr
      else
        var t1 := tr.(s := tr.s.(closed := true));
        if HasSamples(t1.s.tracks) then TFlush(t1) else t1
  }

  /** The muxer's own step, without the history. */
  function Step(s: State, op: Op): State
    requires s.Valid()
  {
    match op
    case Header(streams, init) => WriteHeaderSpec(s, streams, init).state
    case Write(pkt) => WritePacketSpec(s, pkt).state
    case Flush => FlushCallSpec(s)
    case CodecChange(changed, init) => CodecChangeSpec(s, changed, init).state
    case Trailer => WriteTrailerSpec(s).state
  }

  /** Recording history does not change what the muxer does. */
  lemma HistoryIsPassive(tr: Trace, op: Op)
    requires tr.s.Valid()
    ensures TStep(tr, op).s == Step(tr.s, op)
  {
    hide FlushSpec, HasSamples, ReplaceTracks, TWrite, WritePacketSpec, WriteHeaderSpec;
    if op.Write? {
      WriteHistoryIsPassive(tr, op.pkt);
    }
  }

  lemma WriteHistoryIsPassive(tr: Trace, pkt: AvPacket)
    requires tr.s.Valid()
    ensures TWrite(tr, pkt).s == WritePacketSpec(tr.s, pkt).state
  {
    hide TBefore, BeforeAppend, TAfter, AfterAppend, MakeSample, AddSample, NormalisedDTS;
    if tr.s.written && !tr.s.closed && Admits(tr.s, pkt) {
      var i := tr.s.trackMap[pkt.idx];
      var key := tr.s.tracks[i].hasVideo && pkt.keyFrame;
      var t1 := tr.(s := tr.s.(waitingForKeyframe := false,
                               dtsOffset := if tr.s.dtsOffset.Some? then tr.s.dtsOffset else Some(pkt.dts)));
      FlushPassive(t1, key);
      var sample := MakeSample(pkt.(dts := NormalisedDTS(tr.s, pkt)), tr.s.tracks[i]);
      BeforeKeepsCount(t1.s, key);
      EarlyFlushPassive(TAppend(TBefore(t1, key), Accepted(i, pkt, sample)), tr.s.tracks[i].hasVideo, pkt.keyFrame);
    }
  }

  lemma FlushPassive(tr: Trace, isVideoKey: bool)
    ensures TBefore(tr, isVideoKey).s == BeforeAppend(tr.s, isVideoKey)
  {
    hide FlushSpec, HasSamples, PatchAll;
  }

  lemma EarlyFlushPassive(tr: Trace, isVideo: bool, keyFrame: bool)
    ensures TAfter(tr, isVideo, keyFrame).s == AfterAppend(tr.s, isVideo, keyFrame)
  {
    hide FlushSpec, HasSamples, HasVideo, PatchAll;
  }

  // ── The invariant ───────────────────────────────────────────────────────────

  /** The samples of track i among the entries, in order. */
  function Of(entries: seq<Accepted>, i: nat): seq<Sample> {
    if entries == [] then []
    else (if entries[0].track == i then [entries[0].sample] else []) + Of(entries[1..], i)
  }

  /** The samples as buffered: all but the last have had their missing durations filled in. */
  function Filled(made: seq<Sample>): (r: seq<Sample>)
    ensures |r| == |made|
  {
    seq(|made|, j requires 0 <= j < |made| =>
      if j + 1 < |made| then BackFill(made[j], made[j + 1].dts) else made[j])
  }

  ghost predicate Buffers(t: Track, made: seq<Sample>) {
    && t.samples == Filled(made)
    && (made != [] ==> t.baseTime == made[0].dts)
  }

  ghost predicate Writes(t: Track, made: seq<Sample>) {
    && t.samples == PatchLast(Filled(made))
    && (made != [] ==> t.baseTime == made[0].dts)
  }

  /** A video keyframe can only be the first packet of its chunk. */
  predicate KeyFirst(chunk: seq<Accepted>) {
    forall j | 0 < j < |chunk| :: chunk[j].sample.flags != SAMPLE_FLAGS_KEY
  }

  function Flatten(chunks: seq<seq<Accepted>>): seq<Accepted> {
    if chunks == [] then [] else Flatten(chunks[..|chunks| - 1]) + chunks[|chunks| - 1]
  }

  /** Fragment k is the moof and mdat built from chunk k, numbered k + 1, found at its true position. */
  ghost predicate FragmentAt(tr: Trace, k: nat)
    requires k < |tr.frags| && |tr.s.fragIndex| == |tr.extras| == |tr.frags|
  {
    var e := tr.s.fragIndex[k];
    var active := Active(tr.frags[k]);
    var bytes := MoofBytes(active, (k + 1) % TWO32) + MdatBytes(active);
    && active != []
    && e.size == |bytes|
    && e.offset + tr.extras[k] + e.size <= |tr.s.out|
    && tr.s.out[e.offset + tr.extras[k]..e.offset + tr.extras[k] + e.size] == bytes
    && e == IndexEntry(active, e.offset, e.size)
  }

  /** Where fragment k starts in the output. */
  function StartOf(tr: Trace, k: nat): int
    requires k < |tr.s.fragIndex| && k < |tr.extras|
  {
    tr.s.fragIndex[k].offset + tr.extras[k]
  }

  /** Each fragment ends before any later one starts. */
  ghost predicate InFileOrder(tr: Trace)
    requires |tr.s.fragIndex| == |tr.extras|
  {
    forall j, k | 0 <= j < k < |tr.extras| :: StartOf(tr, j) + tr.s.fragIndex[j].size <= StartOf(tr, k)
  }

  ghost predicate Layout(tr: Trace) {
    && |tr.chunks| == |tr.frags| == |tr.extras| == |tr.s.fragIndex|
    && tr.s.seqNum == |tr.frags| % TWO32
    && |tr.s.out| == tr.s.bytesWritten + tr.extra
    && (forall k | 0 <= k < |tr.frags| :: FragmentAt(tr, k) && tr.extras[k] <= tr.extra)
    && InFileOrder(tr)
  }

  ghost predicate Conserved(tr: Trace) {
    && |tr.chunks| == |tr.frags|
    && tr.log == Flatten(tr.chunks) + tr.pending
    && (forall i | 0 <= i < |tr.s.tracks| :: Buffers(tr.s.tracks[i], Of(tr.pending, i)))
    && (forall a <- tr.pending :: a.track < |tr.s.tracks|)
    && (forall k, i | 0 <= k < |tr.frags| && 0 <= i < |tr.frags[k]| :: Writes(tr.frags[k][i], Of(tr.chunks[k], i)))
    && (forall k, a | 0 <= k < |tr.frags| && a in tr.chunks[k] :: a.track < |tr.frags[k]|)
  }

  ghost predicate KeysPlaced(tr: Trace) {
    && KeyFirst(tr.pending)
    && forall c <- tr.chunks :: KeyFirst(c)
  }

  ghost predicate Good(tr: Trace) {
    && tr.s.Valid()
    && Layout(tr)
    && Conserved(tr)
    && KeysPlaced(tr)
    && (tr.s.closed ==> tr.pending == [])
    && (!tr.s.written ==> tr.pending == [] && tr.s.fragIndex == [])
  }

  // ── Flushing ────────────────────────────────────────────────────────────────

  lemma {:induction false} ActiveIffSamples(tracks: seq<Track>)
    ensures Active(tracks) != [] <==> HasSamples(tracks)
  {
    if tracks != [] {
      ActiveIffSamples(tracks[1..]);
      if HasSamples(tracks) {
        var i :| 0 <= i < |tracks| && tracks[i].samples != [];
        if i > 0 {
          assert tracks[1..][i - 1].samples != [];
        }
      }
    }
  }

  lemma PatchKeepsSamples(tracks: seq<Track>)
    ensures HasSamples(PatchAll(tracks)) <==> HasSamples(tracks)
  {
    hide PatchLast;
    forall i | 0 <= i < |tracks|
      ensures PatchAll(tracks)[i].samples != [] <==> tracks[i].samples != []
    {
    }
  }

  lemma SuccMod(n: nat, m: int)
    requires m > 1
    ensures (n % m + 1) % m == (n + 1) % m
  {
    var q, r := n / m, n % m;
    assert n + 1 == m * q + (r + 1);
    if r + 1 < m {
      RemainderUnique(n + 1, m, q, r + 1);
      RemainderUnique(r + 1, m, 0, r + 1);
    } else {
      RemainderUnique(n + 1, m, q + 1, 0);
      RemainderUnique(r + 1, m, 1, 0);
    }
  }

  /** What a flush appends to the output and to the index. */
  lemma FlushWrites(s: State)
    requires HasSamples(s.tracks)
    ensures var active := Active(PatchAll(s.tracks));
            var emsgs := Emsgs(AllSamples(active), s.emsgID);
            var seqNum := (s.seqNum + 1) % TWO32;
            var s1 := FlushSpec(s);
            && active != []
            && s1.seqNum == seqNum
            && s1.out == s.out + emsgs + MoofBytes(active, seqNum) + MdatBytes(active)
            && |s1.out| - |s.out| == s1.bytesWritten - s.bytesWritten
            && s1.fragIndex == s.fragIndex + [IndexEntry(active, s.bytesWritten + |emsgs|,
                                                         |MoofBytes(active, seqNum)| + |MdatBytes(active)|)]
  {
    hide MoofBytes, MdatBytes, Emsgs, EmsgCount, IndexEntry, AllSamples, Active, HasSamples, PatchAll, ClearAll;
    PatchKeepsSamples(s.tracks);
    ActiveIffSamples(PatchAll(s.tracks));
  }

  /** A fragment already written stays where it is when more is appended. */
  lemma FragmentStays(tr: Trace, tr1: Trace, k: nat)
    requires k < |tr.frags| && |tr.s.fragIndex| == |tr.extras| == |tr.frags|
    requires |tr1.s.fragIndex| == |tr1.extras| == |tr1.frags|
    requires tr.frags <= tr1.frags && tr.s.fragIndex <= tr1.s.fragIndex && tr.extras <= tr1.extras
    requires tr.s.out <= tr1.s.out
    requires FragmentAt(tr, k)
    ensures FragmentAt(tr1, k)
  {
    hide MoofBytes, MdatBytes, IndexEntry, Active;
    var e := tr.s.fragIndex[k];
    assert tr1.s.fragIndex[k] == e && tr1.frags[k] == tr.frags[k] && tr1.extras[k] == tr.extras[k];
    var lo, hi := e.offset + tr.extras[k], e.offset + tr.extras[k] + e.size;
    assert tr1.s.out[lo..hi] == tr1.s.out[..|tr.s.out|][lo..hi];
  }

  lemma FlushLayout(tr: Trace)
    requires Layout(tr) && HasSamples(tr.s.tracks)
    ensures Layout(TFlush(tr))
  {
    hide FlushSpec, MoofBytes, MdatBytes, Emsgs, AllSamples, Active, HasSamples, PatchAll, FragmentAt;
    var s, s1, tr1, n := tr.s, FlushSpec(tr.s), TFlush(tr), |tr.frags|;
    FlushWrites(s);
    SuccMod(n, TWO32);
    var active := Active(PatchAll(s.tracks));
    var emsgs := Emsgs(AllSamples(active), s.emsgID);
    assert s.out <= s1.out by {
      assert s1.out == s.out + (emsgs + MoofBytes(active, s1.seqNum) + MdatBytes(active));
    }
    forall k | 0 <= k < n
      ensures FragmentAt(tr1, k) && tr1.extras[k] <= tr1.extra
    {
      FragmentStays(tr, tr1, k);
    }
    FlushNewest(tr);
    FlushInOrder(tr);
  }

  lemma FlushInOrder(tr: Trace)
    requires Layout(tr) && HasSamples(tr.s.tracks)
    ensures |TFlush(tr).s.fragIndex| == |TFlush(tr).extras| && InFileOrder(TFlush(tr))
  {
    hide FlushSpec, MoofBytes, MdatBytes, Emsgs, AllSamples, Active, HasSamples, PatchAll;
    FlushWrites(tr.s);
    forall k | 0 <= k < |tr.frags|
      ensures StartOf(tr, k) + tr.s.fragIndex[k].size <= |tr.s.out|
    {
      assert FragmentAt(tr, k);
    }
  }

  lemma FlushNewest(tr: Trace)
    requires Layout(tr) && HasSamples(tr.s.tracks)
    ensures var tr1 := TFlush(tr);
            |tr1.s.fragIndex| == |tr1.extras| == |tr1.frags| && FragmentAt(tr1, |tr.frags|)
  {
    hide FlushSpec, MoofBytes, MdatBytes, Emsgs, AllSamples, Active, HasSamples, PatchAll;
    var s, s1, tr1, n := tr.s, FlushSpec(tr.s), TFlush(tr), |tr.frags|;
    FlushWrites(s);
    SuccMod(n, TWO32);
    var active := Active(PatchAll(s.tracks));
    var emsgs := Emsgs(AllSamples(active), s.emsgID);
    var bytes := MoofBytes(active, s1.seqNum) + MdatBytes(active);
    assert tr1.frags[n] == PatchAll(s.tracks) && tr1.extras[n] == tr.extra;
    var at := |s.out| + |emsgs|;
    assert s1.out == (s.out + emsgs) + bytes;
    assert s1.out[at..at + |bytes|] == bytes;
    assert s1.fragIndex[n].offset + tr.extra == at;
  }

  lemma SomeTrackHolds(entries: seq<Accepted>, n: nat)
    requires forall a <- entries :: a.track < n
    ensures entries == [] || exists i | 0 <= i < n :: Of(entries, i) != []
  {
    if entries != [] {
      assert Of(entries, entries[0].track) != [];
    }
  }

  /** Something is buffered exactly when a packet has been accepted since the last flush. */
  lemma BufferedIffPending(tr: Trace)
    requires Conserved(tr)
    ensures HasSamples(tr.s.tracks) <==> tr.pending != []
  {
    hide Filled, Flatten;
    forall i | 0 <= i < |tr.s.tracks|
      ensures tr.s.tracks[i].samples == [] <==> Of(tr.pending, i) == []
    {
      assert Buffers(tr.s.tracks[i], Of(tr.pending, i));
    }
    SomeTrackHolds(tr.pending, |tr.s.tracks|);
  }

  lemma FlattenSnoc(chunks: seq<seq<Accepted>>, c: seq<Accepted>)
    ensures Flatten(chunks + [c]) == Flatten(chunks) + c
  {
    assert (chunks + [c])[..|chunks|] == chunks;
  }

  lemma FlushConserved(tr: Trace)
    requires Conserved(tr) && HasSamples(tr.s.tracks)
    ensures Conserved(TFlush(tr)) && TFlush(tr).pending == []
  {
    hide MoofBytes, MdatBytes, Emsgs, EmsgCount, IndexEntry, AllSamples, Active, Filled, PatchLast, SumDurations,
      HasSamples;
    var tr1, n := TFlush(tr), |tr.frags|;
    FlattenSnoc(tr.chunks, tr.pending);
    PatchKeepsSamples(tr.s.tracks);
    ActiveIffSamples(PatchAll(tr.s.tracks));
    assert tr1.log == Flatten(tr1.chunks) + [];
    forall i | 0 <= i < |tr1.s.tracks|
      ensures Buffers(tr1.s.tracks[i], Of([], i))
    {
      FilledNil();
    }
    forall k, i | 0 <= k < |tr1.frags| && 0 <= i < |tr1.frags[k]|
      ensures Writes(tr1.frags[k][i], Of(tr1.chunks[k], i))
    {
      if k < n {
        assert tr1.frags[k] == tr.frags[k] && tr1.chunks[k] == tr.chunks[k];
      } else {
        assert Buffers(tr.s.tracks[i], Of(tr.pending, i));
      }
    }
    forall k, a | 0 <= k < |tr1.frags| && a in tr1.chunks[k]
      ensures a.track < |tr1.frags[k]|
    {
      if k < n {
        assert tr1.frags[k] == tr.frags[k] && tr1.chunks[k] == tr.chunks[k];
      }
    }
  }

  lemma FilledNil()
    ensures Filled([]) == []
  {
  }

  lemma FlushKeys(tr: Trace)
    requires KeysPlaced(tr)
    ensures KeysPlaced(TFlush(tr))
  {
    hide FlushSpec, PatchAll;
    forall c <- TFlush(tr).chunks
      ensures KeyFirst(c)
    {
      assert c in tr.chunks || c == tr.pending;
    }
  }

  ghost predicate Core(tr: Trace) {
    tr.s.Valid() && Layout(tr) && Conserved(tr) && KeysPlaced(tr)
  }

  lemma FlushCore(tr: Trace)
    requires Core(tr) && HasSamples(tr.s.tracks)
    ensures Core(TFlush(tr)) && TFlush(tr).pending == []
  {
    hide FlushSpec, PatchAll, HasSamples, Layout, Conserved, KeysPlaced;
    FlushValid(tr.s);
    FlushLayout(tr);
    FlushConserved(tr);
    FlushKeys(tr);
  }

  // ── Appending ───────────────────────────────────────────────────────────────

  lemma {:induction false} OfSnoc(entries: seq<Accepted>, a: Accepted, i: nat)
    ensures Of(entries + [a], i) == Of(entries, i) + (if a.track == i then [a.sample] else [])
  {
    if entries == [] {
      assert entries + [a] == [a] && [a][1..] == [];
    } else {
      assert (entries + [a])[1..] == entries[1..] + [a];
      OfSnoc(entries[1..], a, i);
    }
  }

  /** Buffering one more sample fills in the duration of the one before it and nothing else. */
  lemma AddSampleFills(t: Track, made: seq<Sample>, x: Sample)
    requires Buffers(t, made)
    ensures Buffers(AddSample(t, x), made + [x])
  {
    hide BackFill;
    var n := |made|;
    var r := AddSample(t, x).samples;
    if n == 0 {
      assert r == [x] && Filled(made + [x]) == [x];
    } else {
      forall j | 0 <= j < n + 1
        ensures r[j] == Filled(made + [x])[j]
      {
      }
      assert r == Filled(made + [x]);
    }
  }

  lemma AppendConserved(tr: Trace, a: Accepted)
    requires Conserved(tr) && a.track < |tr.s.tracks|
    ensures Conserved(TAppend(tr, a))
  {
    hide Filled, AddSample, PatchLast, Flatten, Of;
    var tr1 := TAppend(tr, a);
    assert tr1.log == Flatten(tr1.chunks) + tr1.pending;
    forall i | 0 <= i < |tr1.s.tracks|
      ensures Buffers(tr1.s.tracks[i], Of(tr1.pending, i))
    {
      OfSnoc(tr.pending, a, i);
      assert Buffers(tr.s.tracks[i], Of(tr.pending, i));
      if i == a.track {
        AddSampleFills(tr.s.tracks[i], Of(tr.pending, i), a.sample);
      } else {
        assert Of(tr.pending, i) + [] == Of(tr.pending, i);
      }
    }
  }

  lemma AppendCore(tr: Trace, a: Accepted)
    requires Core(tr) && a.track < |tr.s.tracks|
    requires a.sample.flags == SAMPLE_FLAGS_KEY ==> tr.pending == []
    ensures Core(TAppend(tr, a)) && TAppend(tr, a).pending != []
  {
    hide Layout, Conserved;
    var tr1 := TAppend(tr, a);
    AppendConserved(tr, a);
    assert Layout(tr1) by { LayoutDependsOn(tr, tr1); }
    assert tr1.s.Valid();
    assert KeysPlaced(tr1);
  }

  lemma LayoutDependsOn(tr: Trace, tr1: Trace)
    requires Layout(tr)
    requires tr1.chunks == tr.chunks && tr1.frags == tr.frags && tr1.extras == tr.extras
    requires tr.extra <= tr1.extra && tr.s.out <= tr1.s.out && tr1.s.fragIndex == tr.s.fragIndex
    requires tr1.s.seqNum == tr.s.seqNum
    requires |tr1.s.out| - |tr.s.out| == tr1.s.bytesWritten - tr.s.bytesWritten + (tr1.extra - tr.extra)
    ensures Layout(tr1)
  {
    hide FragmentAt;
    forall k | 0 <= k < |tr1.frags|
      ensures FragmentAt(tr1, k) && tr1.extras[k] <= tr1.extra
    {
      FragmentStays(tr, tr1, k);
    }
    assert forall k | 0 <= k < |tr.extras| :: StartOf(tr1, k) == StartOf(tr, k);
  }

  // ── Every call keeps the invariant ──────────────────────────────────────────

  /** The lifecycle flags and the DTS origin play no part in the invariant. */
  lemma CoreFlags(tr: Trace, tr1: Trace)
    requires Core(tr)
    requires tr1 == tr.(s := tr.s.(written := tr1.s.written, closed := tr1.s.closed, dtsOffset := tr1.s.dtsOffset,
                                   waitingForKeyframe := tr1.s.waitingForKeyframe,
                                   firstFragmentFlushed := tr1.s.firstFragmentFlushed,
                                   mediaStartPos := tr1.s.mediaStartPos))
    ensures Core(tr1)
  {
    hide Buffers, Writes, Layout;
    LayoutDependsOn(tr, tr1);
  }

  lemma KeySample(pkt: AvPacket, t: Track)
    ensures MakeSample(pkt, t).flags == SAMPLE_FLAGS_KEY <==> t.hasVideo && pkt.keyFrame
  {
    hide ToTicks, QuoTrunc, Int32;
  }

  lemma BeforeCore(tr: Trace, isVideoKey: bool)
    requires Core(tr)
    ensures var t := TBefore(tr, isVideoKey);
            Core(t) && (isVideoKey ==> t.pending == []) && |t.s.tracks| == |tr.s.tracks|
            && t.s.written == tr.s.written && t.s.closed == tr.s.closed
  {
    hide HasSamples, Core, PatchAll;
    assert Conserved(tr) && tr.s.Valid() by { CoreParts(tr); }
    BufferedIffPending(tr);
    if isVideoKey && HasSamples(tr.s.tracks) {
      FlushCore(tr);
      FlushValid(tr.s);
      FlushKeepsFlags(tr.s);
      CoreFlags(TFlush(tr), TBefore(tr, isVideoKey));
    }
  }

  lemma CoreParts(tr: Trace)
    requires Core(tr)
    ensures tr.s.Valid() && Layout(tr) && Conserved(tr) && KeysPlaced(tr)
  {
  }

  lemma FlushKeepsFlags(s: State)
    ensures var s1 := FlushSpec(s);
            && s1.written == s.written && s1.closed == s.closed && s1.trackMap == s.trackMap
            && s1.waitingForKeyframe == s.waitingForKeyframe && |s1.tracks| == |s.tracks|
            && (s.fragIndex <= s1.fragIndex)
            && forall i | 0 <= i < |s.tracks| :: s1.tracks[i].hasVideo == s.tracks[i].hasVideo
  {
    hide MoofBytes, MdatBytes, Emsgs, EmsgCount, IndexEntry, AllSamples, Active, PatchAll, ClearAll;
    ClearedKinds(s.tracks);
  }

  lemma ClearedKinds(tracks: seq<Track>)
    ensures var cleared := ClearAll(PatchAll(tracks));
            forall i | 0 <= i < |tracks| :: cleared[i].hasVideo == tracks[i].hasVideo
  {
    hide PatchLast, SumDurations;
  }

  lemma AfterCore(tr: Trace, isVideo: bool, keyFrame: bool)
    requires Core(tr) && tr.pending != []
    ensures var t := TAfter(tr, isVideo, keyFrame);
            Core(t) && t.s.written == tr.s.written && t.s.closed == tr.s.closed
  {
    hide HasSamples, HasVideo, Core, FlushSpec;
    assert Conserved(tr) by { CoreParts(tr); }
    BufferedIffPending(tr);
    if !HasVideo(tr.s.tracks) {
      FlushCore(tr);
      FlushKeepsFlags(tr.s);
    } else if !tr.s.firstFragmentFlushed && isVideo && !keyFrame {
      var t1 := tr.(s := tr.s.(firstFragmentFlushed := true));
      CoreFlags(tr, t1);
      FlushCore(t1);
      FlushKeepsFlags(t1.s);
    }
  }

  lemma WriteGood(tr: Trace, pkt: AvPacket)
    requires Good(tr)
    ensures Good(TStep(tr, Write(pkt)))
  {
    hide TBefore, TAppend, TAfter, MakeSample, Layout, Conserved, KeysPlaced;
    if tr.s.written && !tr.s.closed && Admits(tr.s, pkt) {
      assert Core(tr);
      var i := tr.s.trackMap[pkt.idx];
      var key := tr.s.tracks[i].hasVideo && pkt.keyFrame;
      var made := pkt.(dts := NormalisedDTS(tr.s, pkt));
      KeySample(made, tr.s.tracks[i]);
      var t1 := tr.(s := tr.s.(waitingForKeyframe := false,
                               dtsOffset := if tr.s.dtsOffset.Some? then tr.s.dtsOffset else Some(pkt.dts)));
      CoreFlags(tr, t1);
      BeforeCore(t1, key);
      var t2 := TBefore(t1, key);
      var a := Accepted(i, pkt, MakeSample(made, tr.s.tracks[i]));
      AppendCore(t2, a);
      AppendKeepsFlags(t2, a);
      AfterCore(TAppend(t2, a), tr.s.tracks[i].hasVideo, pkt.keyFrame);
    }
  }

  lemma AppendKeepsFlags(tr: Trace, a: Accepted)
    requires a.track < |tr.s.tracks|
    ensures TAppend(tr, a).s.written == tr.s.written && TAppend(tr, a).s.closed == tr.s.closed
  {
  }

  predicate AllEmpty(tracks: seq<Track>) {
    forall i | 0 <= i < |tracks| :: tracks[i].samples == []
  }

  lemma {:induction false} AddTracksEmpty(s: State, streams: seq<Stream>)
    requires s.Valid() && AllEmpty(s.tracks)
    ensures var r := AddTracks(s, streams);
            r == s.(tracks := r.tracks, trackMap := r.trackMap) && AllEmpty(r.tracks)
    decreases |streams|
  {
    if streams != [] {
      match NewTrack(streams[0], |s.tracks| + 1)
      case None =>
        AddTracksEmpty(s, streams[1..]);
      case Some(t) =>
        AddTracksEmpty(s.(tracks := s.tracks + [t], trackMap := s.trackMap[t.streamIdx := |s.tracks|]), streams[1..]);
    }
  }

  lemma {:induction false} ReplaceTracksEmpty(s: State, changed: seq<Stream>)
    requires s.Valid() && AllEmpty(s.tracks)
    ensures var r := ReplaceTracks(s, changed).state;
            && r == s.(tracks := r.tracks, trackMap := r.trackMap)
            && AllEmpty(r.tracks) && |r.tracks| == |s.tracks|
    decreases |changed|
  {
    if changed != [] {
      if changed[0].idx !in s.trackMap {
        ReplaceTracksEmpty(s, changed[1..]);
      } else {
        var prev := s.tracks[s.trackMap[changed[0].idx]];
        match NewTrack(changed[0], prev.id)
        case None =>
        case Some(t) =>
          var i := FirstWithIndex(s.tracks, changed[0].idx);
          ReplaceTracksEmpty(s.(tracks := s.tracks[i := t.(nextTime := prev.nextTime)],
                                trackMap := s.trackMap[changed[0].idx := i]), changed[1..]);
      }
    }
  }

  lemma EmptyIffPending(tr: Trace)
    requires Conserved(tr)
    ensures AllEmpty(tr.s.tracks) <==> tr.pending == []
  {
    BufferedIffPending(tr);
  }

  /** With nothing buffered, tracks may be added or replaced by empty ones. */
  lemma NewTracksCore(tr: Trace, tr1: Trace, init: bytes)
    requires Core(tr) && tr.pending == []
    requires tr1.s.Valid() && AllEmpty(tr1.s.tracks)
    requires tr1 == tr.(s := tr1.s, extra := tr1.extra, pieces := tr1.pieces)
    requires tr1.s.out == tr.s.out + init && tr1.s.fragIndex == tr.s.fragIndex && tr1.s.seqNum == tr.s.seqNum
    requires tr.extra <= tr1.extra
    requires |init| == tr1.s.bytesWritten - tr.s.bytesWritten + (tr1.extra - tr.extra)
    ensures Core(tr1)
  {
    hide Layout, Writes;
    LayoutDependsOn(tr, tr1);
    FilledNil();
  }

  lemma HeaderGood(tr: Trace, streams: seq<Stream>, init: bytes)
    requires Good(tr)
    ensures Good(TStep(tr, Header(streams, init)))
  {
    hide Layout, Conserved, KeysPlaced, AddTracks, HasVideo, AllEmpty;
    if !tr.s.written {
      EmptyIffPending(tr);
      AddTracksEmpty(tr.s, streams);
      var s1 := AddTracks(tr.s, streams);
      var tr1 := TStep(tr, Header(streams, init));
      if s1.tracks == [] {
        assert tr1.s.out == tr.s.out + [];
        NewTracksCore(tr, tr1, []);
      } else {
        NewTracksCore(tr, tr1, init);
      }
    }
  }

  lemma CodecChangeGood(tr: Trace, changed: seq<Stream>, init: bytes)
    requires Good(tr)
    ensures Good(TStep(tr, CodecChange(changed, init)))
  {
    hide Layout, Conserved, KeysPlaced, ReplaceTracks, HasSamples, AllEmpty, FlushSpec;
    if tr.s.written && !tr.s.closed {
      assert Core(tr);
      BufferedIffPending(tr);
      var t1 := if HasSamples(tr.s.tracks) then TFlush(tr) else tr;
      if HasSamples(tr.s.tracks) {
        FlushCore(tr);
        FlushKeepsFlags(tr.s);
      }
      EmptyIffPending(t1);
      ReplaceTracksEmpty(t1.s, changed);
      var tr1 := TStep(tr, CodecChange(changed, init));
      if ReplaceTracks(t1.s, changed).err.Some? {
        assert tr1.s.out == t1.s.out + [];
        NewTracksCore(t1, tr1, []);
      } else {
        NewTracksCore(t1, tr1, init);
      }
    }
  }

  lemma FlushAndTrailerGood(tr: Trace)
    requires Good(tr)
    ensures Good(TStep(tr, Flush)) && Good(TStep(tr, Trailer))
  {
    hide Layout, Conserved, KeysPlaced, HasSamples, FlushSpec;
    assert Core(tr);
    BufferedIffPending(tr);
    if HasSamples(tr.s.tracks) {
      FlushCore(tr);
      FlushKeepsFlags(tr.s);
    }
    if !tr.s.closed {
      var t1 := tr.(s := tr.s.(closed := true));
      CoreFlags(tr, t1);
      if HasSamples(t1.s.tracks) {
        FlushCore(t1);
        FlushKeepsFlags(t1.s);
      }
    }
  }

  lemma StepGood(tr: Trace, op: Op)
    requires Good(tr)
    ensures Good(TStep(tr, op))
  {
    hide Good, TStep;
    match op
    case Header(streams, init) => HeaderGood(tr, streams, init);
    case Write(pkt) => WriteGood(tr, pkt);
    case Flush => FlushAndTrailerGood(tr);
    case CodecChange(changed, init) => CodecChangeGood(tr, changed, init);
    case Trailer => FlushAndTrailerGood(tr);
  }

  /** The history of a call sequence; the invariant holds after every one. */
  ghost function RunFrom(tr: Trace, ops: seq<Op>): (r: Trace)
    requires Good(tr)
    ensures Good(r)
    decreases |ops|
  {
    if ops == [] then tr
    else
      StepGood(tr, ops[0]);
      RunFrom(TStep(tr, ops[0]), ops[1..])
  }

  lemma StartGood()
    ensures Good(Start())
  {
    hide FragmentAt, Buffers, Writes, Of;
  }

  ghost function Run(ops: seq<Op>): (r: Trace)
    ensures Good(r)
  {
    StartGood();
    RunFrom(Start(), ops)
  }

  // ── Consequences ────────────────────────────────────────────────────────────

  /** A sample without its duration, which is the only field flushing may fill in. */
  function Strip(samples: seq<Sample>): (r: seq<Sample>)
    ensures |r| == |samples|
  {
    seq(|samples|, i requires 0 <= i < |samples| => samples[i].(duration := 0))
  }

  /** What the written fragments hold for track i, in file order. */
  function Emitted(frags: seq<seq<Track>>, i: nat): seq<Sample> {
    if frags == [] then []
    else
      var last := frags[|frags| - 1];
      Emitted(frags[..|frags| - 1], i) + if i < |last| then last[i].samples else []
  }

  lemma {:induction false} OfAppend(a: seq<Accepted>, b: seq<Accepted>, i: nat)
    ensures Of(a + b, i) == Of(a, i) + Of(b, i)
  {
    if a == [] {
      assert a + b == b;
    } else {
      assert (a + b)[1..] == a[1..] + b;
      OfAppend(a[1..], b, i);
      var head := if a[0].track == i then [a[0].sample] else [];
      assert head + (Of(a[1..], i) + Of(b, i)) == head + Of(a[1..], i) + Of(b, i);
    }
  }

  lemma {:induction false} OfAbsent(entries: seq<Accepted>, i: nat)
    requires forall a <- entries :: a.track < i
    ensures Of(entries, i) == []
  {
    if entries != [] {
      OfAbsent(entries[1..], i);
    }
  }

  lemma StripWritten(t: Track, made: seq<Sample>)
    requires Writes(t, made)
    ensures Strip(t.samples) == Strip(made)
  {
  }

  lemma {:induction false} EmittedIsLogged(chunks: seq<seq<Accepted>>, frags: seq<seq<Track>>, i: nat)
    requires |chunks| == |frags|
    requires forall k, j | 0 <= k < |frags| && 0 <= j < |frags[k]| :: Writes(frags[k][j], Of(chunks[k], j))
    requires forall k, a | 0 <= k < |frags| && a in chunks[k] :: a.track < |frags[k]|
    ensures Strip(Emitted(frags, i)) == Strip(Of(Flatten(chunks), i))
    decreases |frags|
  {
    hide Writes, Strip;
    if frags == [] {
      assert Emitted(frags, i) == Of(Flatten(chunks), i);
    } else {
      var n := |frags| - 1;
      EmittedIsLogged(chunks[..n], frags[..n], i);
      OfAppend(Flatten(chunks[..n]), chunks[n], i);
      var own := if i < |frags[n]| then frags[n][i].samples else [];
      assert Strip(own) == Strip(Of(chunks[n], i)) by {
        if i < |frags[n]| {
          StripWritten(frags[n][i], Of(chunks[n], i));
        } else {
          forall a <- chunks[n]
            ensures a.track < i
          {
            assert a in chunks[n];
          }
          OfAbsent(chunks[n], i);
        }
      }
      StripAppend(Emitted(frags[..n], i), own);
      StripAppend(Of(Flatten(chunks[..n]), i), Of(chunks[n], i));
    }
  }

  lemma StripAppend(a: seq<Sample>, b: seq<Sample>)
    ensures Strip(a + b) == Strip(a) + Strip(b)
  {
  }

  /**
    Nothing accepted is lost, repeated or reordered: once the trailer is written, the fragments
    hold, track by track, exactly the accepted packets in the order they arrived.
   */
  lemma EverySampleOnce(ops: seq<Op>, i: nat)
    ensures var tr := Run(ops);
            tr.s.closed ==> Strip(Emitted(tr.frags, i)) == Strip(Of(tr.log, i))
  {
    hide Strip, Writes, FragmentAt, RunFrom;
    var tr := Run(ops);
    EmittedIsLogged(tr.chunks, tr.frags, i);
    assert Flatten(tr.chunks) + [] == Flatten(tr.chunks);
  }

  /** A video keyframe is always the first packet of the fragment it is written in. */
  lemma KeyStartsFragment(ops: seq<Op>, k: nat, j: nat)
    requires k < |Run(ops).chunks| && j < |Run(ops).chunks[k]|
    requires Run(ops).chunks[k][j].sample.flags == SAMPLE_FLAGS_KEY
    ensures j == 0
  {
    hide RunFrom, Layout, Conserved;
    var tr := Run(ops);
    assert tr.chunks[k] in tr.chunks;
  }

  // ── Which packets are accepted ──────────────────────────────────────────────

  predicate IsVideoKey(s: State, pkt: AvPacket)
    requires s.Valid()
  {
    pkt.idx in s.trackMap && s.tracks[s.trackMap[pkt.idx]].hasVideo && pkt.keyFrame
  }

  function KnownOnly(s: State, pkts: seq<AvPacket>): seq<AvPacket> {
    if pkts == [] then []
    else (if pkts[0].idx in s.trackMap then [pkts[0]] else []) + KnownOnly(s, pkts[1..])
  }

  function FromVideoKey(s: State, pkts: seq<AvPacket>): seq<AvPacket>
    requires s.Valid()
  {
    if pkts == [] || IsVideoKey(s, pkts[0]) then pkts else FromVideoKey(s, pkts[1..])
  }

  /** The reference: packets of known streams, from the first video keyframe on when one is awaited. */
  function Acceptable(s: State, pkts: seq<AvPacket>): seq<AvPacket>
    requires s.Valid()
  {
    KnownOnly(s, if s.waitingForKeyframe then FromVideoKey(s, pkts) else pkts)
  }

  function Packets(log: seq<Accepted>): (r: seq<AvPacket>)
    ensures |r| == |log|
  {
    seq(|log|, i requires 0 <= i < |log| => log[i].pkt)
  }

  /** The part of the state that decides acceptance. */
  predicate SameStreams(s: State, s1: State) {
    && s1.trackMap == s.trackMap && |s1.tracks| == |s.tracks|
    && forall i | 0 <= i < |s.tracks| :: s1.tracks[i].hasVideo == s.tracks[i].hasVideo
  }

  lemma {:induction false} AcceptableSame(s: State, s1: State, pkts: seq<AvPacket>)
    requires s.Valid() && s1.Valid() && SameStreams(s, s1) && s.waitingForKeyframe == s1.waitingForKeyframe
    ensures Acceptable(s, pkts) == Acceptable(s1, pkts)
  {
    KnownSame(s, s1, pkts);
    if s.waitingForKeyframe {
      FromKeySame(s, s1, pkts);
      KnownSame(s, s1, FromVideoKey(s, pkts));
    }
  }

  lemma {:induction false} KnownSame(s: State, s1: State, pkts: seq<AvPacket>)
    requires SameStreams(s, s1)
    ensures KnownOnly(s, pkts) == KnownOnly(s1, pkts)
  {
    if pkts != [] {
      KnownSame(s, s1, pkts[1..]);
    }
  }

  lemma {:induction false} FromKeySame(s: State, s1: State, pkts: seq<AvPacket>)
    requires s.Valid() && s1.Valid() && SameStreams(s, s1)
    ensures FromVideoKey(s, pkts) == FromVideoKey(s1, pkts)
  {
    if pkts != [] {
      FromKeySame(s, s1, pkts[1..]);
    }
  }

  /** Streams, lifecycle and log as they were. */
  predicate Quiet(tr: Trace, tr1: Trace) {
    && SameStreams(tr.s, tr1.s) && tr1.log == tr.log
    && tr1.s.written == tr.s.written && tr1.s.closed == tr.s.closed
    && tr1.s.waitingForKeyframe == tr.s.waitingForKeyframe
  }

  lemma FlushQuiet(tr: Trace)
    ensures Quiet(tr, TFlush(tr))
  {
    hide FlushSpec, PatchAll;
    FlushKeepsFlags(tr.s);
  }

  lemma BeforeQuiet(tr: Trace, isVideoKey: bool)
    ensures Quiet(tr, TBefore(tr, isVideoKey))
  {
    hide HasSamples, FlushSpec, PatchAll;
    FlushQuiet(tr);
  }

  lemma AfterQuiet(tr: Trace, isVideo: bool, keyFrame: bool)
    ensures Quiet(tr, TAfter(tr, isVideo, keyFrame))
  {
    hide HasSamples, HasVideo, FlushSpec, PatchAll;
    FlushQuiet(tr);
    FlushQuiet(tr.(s := tr.s.(firstFragmentFlushed := true)));
  }

  lemma AppendStreams(tr: Trace, a: Accepted)
    requires a.track < |tr.s.tracks|
    ensures var tr1 := TAppend(tr, a);
            && SameStreams(tr.s, tr1.s) && Packets(tr1.log) == Packets(tr.log) + [a.pkt]
            && tr1.s.written == tr.s.written && tr1.s.closed == tr.s.closed
            && tr1.s.waitingForKeyframe == tr.s.waitingForKeyframe
  {
    hide AddSample;
    AddSampleKind(tr.s.tracks[a.track], a.sample);
  }

  lemma SameStreamsTrans(a: State, b: State, c: State)
    requires SameStreams(a, b) && SameStreams(b, c)
    ensures SameStreams(a, c)
  {
  }

  /** One write: accepted exactly when the reference says so. */
  lemma WriteAccepts(tr: Trace, pkt: AvPacket)
    requires tr.s.Valid() && tr.s.written && !tr.s.closed
    ensures var tr1 := TWrite(tr, pkt);
            && SameStreams(tr.s, tr1.s) && tr1.s.written && !tr1.s.closed
            && Packets(tr1.log) == Packets(tr.log) + (if Admits(tr.s, pkt) then [pkt] else [])
            && tr1.s.waitingForKeyframe == (tr.s.waitingForKeyframe && !Admits(tr.s, pkt))
  {
    hide MakeSample, NormalisedDTS, TBefore, TAppend, TAfter, Packets, SameStreams;
    if Admits(tr.s, pkt) {
      var i := tr.s.trackMap[pkt.idx];
      var isVideo := tr.s.tracks[i].hasVideo;
      var t1 := tr.(s := tr.s.(waitingForKeyframe := false,
                               dtsOffset := if tr.s.dtsOffset.Some? then tr.s.dtsOffset else Some(pkt.dts)));
      SameStreamsRefl(tr.s, t1.s);
      BeforeQuiet(t1, isVideo && pkt.keyFrame);
      var t2 := TBefore(t1, isVideo && pkt.keyFrame);
      SameStreamsTrans(tr.s, t1.s, t2.s);
      var a := Accepted(i, pkt, MakeSample(pkt.(dts := NormalisedDTS(tr.s, pkt)), tr.s.tracks[i]));
      assert i < |t2.s.tracks| by { SameStreamsCount(tr.s, t2.s); }
      AppendStreams(t2, a);
      var t3 := TAppend(t2, a);
      SameStreamsTrans(tr.s, t2.s, t3.s);
      AfterQuiet(t3, isVideo, pkt.keyFrame);
      SameStreamsTrans(tr.s, t3.s, TAfter(t3, isVideo, pkt.keyFrame).s);
    } else {
      SameStreamsRefl(tr.s, tr.s);
      assert Packets(tr.log) + [] == Packets(tr.log);
    }
  }

  lemma SameStreamsRefl(a: State, b: State)
    requires a.trackMap == b.trackMap && a.tracks == b.tracks
    ensures SameStreams(a, b)
  {
  }

  lemma SameStreamsCount(a: State, b: State)
    requires SameStreams(a, b)
    ensures |a.tracks| == |b.tracks|
  {
  }

  lemma AddSampleKind(t: Track, s: Sample)
    ensures AddSample(t, s).hasVideo == t.hasVideo
  {
  }

  function WritesOf(ops: seq<Op>): seq<AvPacket> {
    if ops == [] then [] else (if ops[0].Write? then [ops[0].pkt] else []) + WritesOf(ops[1..])
  }

  /** One write or flush, as seen by the reference. */
  lemma StepAccepts(tr: Trace, op: Op, rest: seq<AvPacket>)
    requires Good(tr) && tr.s.written && !tr.s.closed
    requires op.Write? || op.Flush?
    ensures var tr1 := TStep(tr, op);
            && tr1.s.Valid() && tr1.s.written && !tr1.s.closed
            && Packets(tr1.log) + Acceptable(tr1.s, rest)
               == Packets(tr.log) + Acceptable(tr.s, (if op.Write? then [op.pkt] else []) + rest)
  {
    hide TWrite, Packets, Acceptable, HasSamples, Layout, Conserved, KeysPlaced, FlushSpec;
    StepGood(tr, op);
    var tr1 := TStep(tr, op);
    match op
    case Write(pkt) =>
      WriteAccepts(tr, pkt);
      AcceptableCons(tr.s, tr1.s, pkt, rest);
      assert Packets(tr.log) + [pkt] + Acceptable(tr1.s, rest) == Packets(tr.log) + ([pkt] + Acceptable(tr1.s, rest));
      assert [] + Acceptable(tr1.s, rest) == Acceptable(tr1.s, rest);
    case Flush =>
      FlushQuiet(tr);
      SameStreamsRefl(tr.s, tr.s);
      AcceptableSame(tr.s, tr1.s, rest);
      assert [] + rest == rest;
  }

  /**
    Over any run of writes and flushes the accepted packets are the reference's: none before the
    first video keyframe when the header declared video, none of an unknown stream, all others.
   */
  lemma {:induction false} AcceptanceFrom(tr: Trace, ops: seq<Op>)
    requires Good(tr) && tr.s.written && !tr.s.closed
    requires forall op <- ops :: op.Write? || op.Flush?
    ensures Packets(RunFrom(tr, ops).log) == Packets(tr.log) + Acceptable(tr.s, WritesOf(ops))
    decreases |ops|
  {
    hide TStep, Packets, Acceptable, Layout, Conserved, KeysPlaced;
    if ops == [] {
      NothingAcceptable(tr.s);
      assert Packets(tr.log) + [] == Packets(tr.log);
    } else {
      StepGood(tr, ops[0]);
      StepAccepts(tr, ops[0], WritesOf(ops[1..]));
      AcceptanceFrom(TStep(tr, ops[0]), ops[1..]);
    }
  }

  lemma NothingAcceptable(s: State)
    requires s.Valid()
    ensures Acceptable(s, []) == []
  {
  }

  lemma AcceptableCons(s: State, s1: State, pkt: AvPacket, rest: seq<AvPacket>)
    requires s.Valid() && s1.Valid() && SameStreams(s, s1) && s.written && !s.closed
    requires s1.waitingForKeyframe == (s.waitingForKeyframe && !Admits(s, pkt))
    ensures Acceptable(s, [pkt] + rest) == (if Admits(s, pkt) then [pkt] else []) + Acceptable(s1, rest)
  {
    hide KnownOnly;
    assert ([pkt] + rest)[1..] == rest;
    KnownCons(s, pkt, rest);
    KnownSame(s, s1, rest);
    FromKeySame(s, s1, rest);
    KnownSame(s, s1, FromVideoKey(s, rest));
  }

  lemma KnownCons(s: State, pkt: AvPacket, rest: seq<AvPacket>)
    ensures KnownOnly(s, [pkt] + rest) == (if pkt.idx in s.trackMap then [pkt] else []) + KnownOnly(s, rest)
  {
    assert ([pkt] + rest)[1..] == rest;
  }

  // ── The segment index ───────────────────────────────────────────────────────

  /** Without a mid-stream codec change every recorded offset is the moof's position in the output. */
  lemma {:induction false} NoExtraBytes(tr: Trace, ops: seq<Op>)
    requires Good(tr) && tr.extra == 0
    requires forall op <- ops :: !op.CodecChange?
    ensures RunFrom(tr, ops).extra == 0
    decreases |ops|
  {
    hide Layout, Conserved, KeysPlaced, TStep;
    if ops != [] {
      StepGood(tr, ops[0]);
      StepExtra(tr, ops[0]);
      NoExtraBytes(TStep(tr, ops[0]), ops[1..]);
    }
  }

  lemma StepExtra(tr: Trace, op: Op)
    requires tr.s.Valid() && !op.CodecChange?
    ensures TStep(tr, op).extra == tr.extra
  {
    hide FlushSpec, MakeSample, HasSamples, HasVideo, AddSample, WriteHeaderSpec, PatchAll;
  }

  lemma IndexedFragment(tr: Trace, k: nat)
    requires Good(tr) && k < |tr.s.fragIndex|
    ensures |tr.s.fragIndex| == |tr.extras| == |tr.frags|
    ensures FragmentAt(tr, k) && (tr.extra == 0 ==> tr.extras[k] == 0)
    ensures forall j | 0 <= j < k :: StartOf(tr, j) + tr.s.fragIndex[j].size <= StartOf(tr, k)
  {
    hide FragmentAt, Conserved, KeysPlaced;
  }

  /**
    Entry k of the index gives the moof's position in the output after subtracting the bytes of
    the mid-stream initialisation segments written before it; so it is exact when there are none.
    Fragments do not overlap and stand in the order of their entries.
   */
  lemma IndexOffsets(ops: seq<Op>, k: nat)
    requires k < |Run(ops).s.fragIndex|
    ensures var tr := Run(ops);
            && |tr.s.fragIndex| == |tr.extras| == |tr.frags|
            && FragmentAt(tr, k)
            && (forall j | 0 <= j < k :: StartOf(tr, j) + tr.s.fragIndex[j].size <= StartOf(tr, k))
            && ((forall op <- ops :: !op.CodecChange?) ==> tr.extras[k] == 0)
  {
    hide FragmentAt, RunFrom, Good, Start;
    StartGood();
    IndexedFragment(Run(ops), k);
    if forall op <- ops :: !op.CodecChange? {
      assert Start().extra == 0 by { StartExtra(); }
      NoExtraBytes(Start(), ops);
    }
  }

  lemma StartExtra()
    ensures Start().extra == 0
  {
  }

  // ── Decode times ────────────────────────────────────────────────────────────

  /** The sample's duration, its own or filled in, reaches exactly to the next decode time. */
  predicate Steady(a: Sample, next: int) {
    if a.duration == 0 then 0 <= next - a.dts < TWO32 else next - a.dts == a.duration
  }

  lemma SteadyFill(a: Sample, next: int)
    ensures BackFill(a, next).duration == next - a.dts <==> Steady(a, next)
  {
  }

  lemma {:induction false} SumSnoc(s: seq<Sample>, x: Sample)
    ensures SumDurations(s + [x]) == SumDurations(s) + x.duration
  {
    if s == [] {
      assert s + [x] == [x] && [x][1..] == [];
    } else {
      assert (s + [x])[1..] == s[1..] + [x];
      SumSnoc(s[1..], x);
    }
  }

  lemma SumStep(samples: seq<Sample>, k: nat)
    requires k < |samples|
    ensures SumDurations(samples[..k + 1]) == SumDurations(samples[..k]) + samples[k].duration
  {
    assert samples[..k + 1] == samples[..k] + [samples[k]];
    SumSnoc(samples[..k], samples[k]);
  }

  /** The decode time a reader reconstructs for sample k of a written track. */
  function Reconstructed(t: Track, k: nat): int
    requires k <= |t.samples|
  {
    t.baseTime + SumDurations(t.samples[..k])
  }

  lemma {:induction false} TimesFromSteps(t: Track, made: seq<Sample>, k: nat)
    requires Writes(t, made) && k < |made|
    requires forall j | 0 <= j < |made| - 1 :: Steady(made[j], made[j + 1].dts)
    ensures Reconstructed(t, k) == made[k].dts
  {
    hide BackFill, Steady;
    if k > 0 {
      TimesFromSteps(t, made, k - 1);
      SumStep(t.samples, k - 1);
      assert t.samples[k - 1] == BackFill(made[k - 1], made[k].dts);
      SteadyFill(made[k - 1], made[k].dts);
    }
  }

  /**
    A reader reconstructs every sample's own decode time exactly when each sample's duration,
    where the demuxer supplied one, reaches to the next sample, and where it did not, the next
    decode time is neither earlier nor 2^32 ticks later.
   */
  lemma DecodeTimesExact(t: Track, made: seq<Sample>)
    requires Writes(t, made)
    ensures (forall k | 0 <= k < |made| :: Reconstructed(t, k) == made[k].dts)
            <==> (forall j | 0 <= j < |made| - 1 :: Steady(made[j], made[j + 1].dts))
  {
    hide BackFill, Steady;
    if forall j | 0 <= j < |made| - 1 :: Steady(made[j], made[j + 1].dts) {
      forall k | 0 <= k < |made|
        ensures Reconstructed(t, k) == made[k].dts
      {
        TimesFromSteps(t, made, k);
      }
    }
    if forall k | 0 <= k < |made| :: Reconstructed(t, k) == made[k].dts {
      forall j | 0 <= j < |made| - 1
        ensures Steady(made[j], made[j + 1].dts)
      {
        assert Reconstructed(t, j) == made[j].dts && Reconstructed(t, j + 1) == made[j + 1].dts;
        SumStep(t.samples, j);
        assert t.samples[j] == BackFill(made[j], made[j + 1].dts);
        SteadyFill(made[j], made[j + 1].dts);
      }
    }
  }
}
