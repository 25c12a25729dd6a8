/** The fragment writer: like the fMP4 muxer, but its caller decides where each fragment ends. */
module FragmentWriter {
  import opened Bytes
  import opened Wrappers
  import opened Boxes
  import opened Fragment
  import opened FragmentMuxer
  import opened FragmentMuxerRuns

  datatype WriterState = WriterState(tracks: seq<Track>, trackMap: map<nat, nat>, seqNum: u32, emsgID: u32) {
    predicate Valid() { forall k <- trackMap :: trackMap[k] < |tracks| }
  }

  const NO_TRACKS := WriterState([], map[], 0, 0)

  // One track per stream, numbered from 1; a single unsupported stream refuses them all.
  function Registered(w: WriterState, streams: seq<Stream>): (r: Option<WriterState>)
    requires w.Valid()
    ensures r.Some? ==> r.value.Valid()
    decreases |streams|
  {
    if streams == [] then Some(w)
    else
      match NewTrack(streams[0], |w.tracks| + 1)
      case None => None
      case Some(t) =>
        Registered(w.(tracks := w.tracks + [t], trackMap := w.trackMap[streams[0].idx := |w.tracks|]), streams[1..])
  }

  function NewWriter(streams: seq<Stream>): (r: Option<WriterState>)
    ensures r.Some? ==> r.value.Valid()
  {
    Registered(NO_TRACKS, streams)
  }

  predicate Known(w: WriterState, pkt: AvPacket) {
    pkt.idx in w.trackMap
  }

  function AcceptedAs(w: WriterState, pkt: AvPacket): (a: Accepted)
    requires w.Valid() && Known(w, pkt)
    ensures a.track < |w.tracks|
  {
    var i := w.trackMap[pkt.idx];
    Accepted(i, pkt, MakeSample(pkt, w.tracks[i]))
  }

  // Packets of unknown streams are dropped.
  function Added(w: WriterState, pkt: AvPacket): (r: WriterState)
    requires w.Valid()
    ensures r.Valid()
  {
    if !Known(w, pkt) then w
    else
      var a := AcceptedAs(w, pkt);
      w.(tracks := w.tracks[a.track := AddSample(w.tracks[a.track], a.sample)])
  }

  function NextNumber(w: WriterState): u32 {
    (w.seqNum + 1) % TWO32
  }

  // What a flush returns.
  function FlushBytes(w: WriterState): bytes {
    if HasSamples(w.tracks) then FragmentBytes(PatchAll(w.tracks), w.emsgID, NextNumber(w)) else []
  }

  // What a flush leaves.
  function Flushed(w: WriterState): (r: WriterState)
    ensures w.Valid() ==> r.Valid()
  {
    if !HasSamples(w.tracks) then w
    else
      var patched := PatchAll(w.tracks);
      w.(tracks := ClearAll(patched), seqNum := NextNumber(w),
         emsgID := (w.emsgID + EmsgCount(AllSamples(Active(patched)))) % TWO32)
  }

  // Whether the first video track that has samples starts with a keyframe.
  predicate FirstIsKey(tracks: seq<Track>) {
    tracks != [] &&
    if tracks[0].hasVideo && tracks[0].samples != [] then tracks[0].samples[0].flags == SAMPLE_FLAGS_KEY
    else FirstIsKey(tracks[1..])
  }

  // ---- what is buffered is what was accepted ----

  ghost predicate Holds(w: WriterState, entries: seq<Accepted>) {
    && (forall i | 0 <= i < |w.tracks| :: Buffers(w.tracks[i], Of(entries, i)))
    && (forall a <- entries :: a.track < |w.tracks|)
  }

  lemma HoldsNothing(tracks: seq<Track>)
    ensures forall i | 0 <= i < |tracks| && tracks[i].samples == [] :: Buffers(tracks[i], Of([], i))
  {
    FilledNil();
  }

  lemma {:induction false} NewIsEmpty(w: WriterState, streams: seq<Stream>)
    requires w.Valid() && forall t <- w.tracks :: t.samples == []
    ensures Registered(w, streams).Some? ==> forall t <- Registered(w, streams).value.tracks :: t.samples == []
    decreases |streams|
  {
    if streams != [] {
      match NewTrack(streams[0], |w.tracks| + 1)
      case None =>
      case Some(t) =>
        NewIsEmpty(w.(tracks := w.tracks + [t], trackMap := w.trackMap[streams[0].idx := |w.tracks|]), streams[1..]);
    }
  }

  lemma NewHoldsNothing(streams: seq<Stream>)
    ensures NewWriter(streams).Some? ==> Holds(NewWriter(streams).value, [])
  {
    hide Registered, Buffers;
    NewIsEmpty(NO_TRACKS, streams);
    if NewWriter(streams).Some? {
      HoldsNothing(NewWriter(streams).value.tracks);
    }
  }

  lemma AddHolds(w: WriterState, entries: seq<Accepted>, pkt: AvPacket)
    requires w.Valid() && Holds(w, entries)
    ensures Holds(Added(w, pkt), if Known(w, pkt) then entries + [AcceptedAs(w, pkt)] else entries)
  {
    hide Buffers, MakeSample, AddSample, Of;
    if Known(w, pkt) {
      var a := AcceptedAs(w, pkt);
      forall i | 0 <= i < |w.tracks|
        ensures Buffers(Added(w, pkt).tracks[i], Of(entries + [a], i))
      {
        OfSnoc(entries, a, i);
        if i == a.track {
          AddSampleFills(w.tracks[i], Of(entries, i), a.sample);
        } else {
          assert Of(entries, i) + [] == Of(entries, i);
        }
      }
    }
  }

  lemma HoldsSome(w: WriterState, entries: seq<Accepted>)
    requires Holds(w, entries)
    ensures HasSamples(w.tracks) <==> entries != []
  {
    hide Filled;
    forall i | 0 <= i < |w.tracks|
      ensures w.tracks[i].samples == [] <==> Of(entries, i) == []
    {
      assert Buffers(w.tracks[i], Of(entries, i));
    }
    SomeTrackHolds(entries, |w.tracks|);
  }

  // A flush returns the fragment of exactly the packets accepted since the last one, and nothing stays behind.
  lemma FlushWritesAll(w: WriterState, entries: seq<Accepted>)
    requires Holds(w, entries)
    ensures FlushBytes(w) != [] <==> entries != []
    ensures forall i | 0 <= i < |w.tracks| :: Writes(PatchAll(w.tracks)[i], Of(entries, i))
    ensures Holds(Flushed(w), [])
  {
    hide Filled, PatchLast, SumDurations, EmsgCount, AllSamples, Active, FragmentBytes, HasSamples, Of;
    HoldsSome(w, entries);
    FragmentNotEmpty(PatchAll(w.tracks), w.emsgID, NextNumber(w));
    forall i | 0 <= i < |w.tracks|
      ensures Writes(PatchAll(w.tracks)[i], Of(entries, i))
    {
      assert Buffers(w.tracks[i], Of(entries, i));
    }
    if entries == [] {
      assert Flushed(w) == w;
    } else {
      ClearedHolds(PatchAll(w.tracks));
    }
  }

  lemma ClearedHolds(tracks: seq<Track>)
    ensures forall i | 0 <= i < |tracks| :: Buffers(ClearAll(tracks)[i], Of([], i))
  {
    hide SumDurations, Buffers;
    HoldsNothing(ClearAll(tracks));
  }

  lemma FragmentNotEmpty(tracks: seq<Track>, emsgID: nat, seqNum: int)
    ensures FragmentBytes(tracks, emsgID, seqNum) != []
  {
    hide Emsgs, AllSamples, Active, MoofBox, MdatBox, MoofSize;
  }

  // Adding and flushing keep the kinds of the tracks.
  lemma AddedKinds(w: WriterState, pkt: AvPacket)
    requires w.Valid()
    ensures HasVideo(Added(w, pkt).tracks) == HasVideo(w.tracks)
  {
    hide MakeSample;
    forall i | 0 <= i < |w.tracks|
      ensures Added(w, pkt).tracks[i].hasVideo == w.tracks[i].hasVideo
    {
    }
  }

  lemma FlushedKinds(w: WriterState)
    ensures HasVideo(Flushed(w).tracks) == HasVideo(w.tracks)
  {
    hide EmsgCount, AllSamples, Active, SumDurations, PatchLast, HasSamples;
    ClearedKinds(w.tracks);
  }

  // ---- the writer object ----

  class Writer {
    var tracks: seq<Track>
    var trackMap: map<nat, nat>
    var seqNum: u32
    var emsgID: u32
    var hasVideo: bool

    function View(): WriterState
      reads this
    {
      WriterState(tracks, trackMap, seqNum, emsgID)
    }

    predicate Valid()
      reads this
    {
      View().Valid() && hasVideo == HasVideo(tracks)
    }

    constructor ()
      ensures View() == NO_TRACKS && Valid()
    {
      tracks, trackMap, seqNum, emsgID, hasVideo := [], map[], 0, 0, false;
    }

    /** `NewFragmentWriter`. */
    static method New(streams: seq<Stream>) returns (fw: Writer?)
      ensures fw == null <==> NewWriter(streams).None?
      ensures fw != null ==> fresh(fw) && fw.Valid() && fw.View() == NewWriter(streams).value
    {
      hide NewTrack;
      var w := new Writer();
      for i := 0 to |streams|
        invariant w.Valid() && fresh(w)
        invariant NewWriter(streams) == Registered(w.View(), streams[i..])
      {
        assert streams[i..][1..] == streams[i + 1..];
        var t := NewTrack(streams[i], |w.tracks| + 1);
        if t.None? {
          return null;
        }
        ghost var before := w.tracks;
        w.trackMap := w.trackMap[streams[i].idx := |w.tracks|];
        w.tracks := w.tracks + [t.value];
        if t.value.hasVideo {
          w.hasVideo := true;
          assert w.tracks[|before|].hasVideo;
        }
        assert forall k | 0 <= k < |before| :: w.tracks[k] == before[k];
      }
      return w;
    }

    /** `WritePacket`. */
    method WritePacket(pkt: AvPacket)
      requires Valid()
      modifies this`tracks
      ensures Valid() && View() == Added(old(View()), pkt)
    {
      hide MakeSample, AddSample, HasVideo;
      AddedKinds(View(), pkt);
      if pkt.idx !in trackMap {
        return;
      }
      var i := trackMap[pkt.idx];
      tracks := tracks[i := AddSample(tracks[i], MakeSample(pkt, tracks[i]))];
    }

    /** `HasSamples`. */
    method HasAnySamples() returns (b: bool)
      ensures b == HasSamples(tracks)
    {
      for i := 0 to |tracks|
        invariant forall j | 0 <= j < i :: tracks[j].samples == []
      {
        if tracks[i].samples != [] {
          return true;
        }
      }
      return false;
    }

    /** `FirstIsKeyframe`. */
    method FirstIsKeyframe() returns (b: bool)
      ensures b == FirstIsKey(tracks)
    {
      assert tracks[0..] == tracks;
      for i := 0 to |tracks|
        invariant FirstIsKey(tracks) == FirstIsKey(tracks[i..])
      {
        assert tracks[i..][1..] == tracks[i + 1..];
        if tracks[i].hasVideo && tracks[i].samples != [] {
          return tracks[i].samples[0].flags == SAMPLE_FLAGS_KEY;
        }
      }
      return false;
    }

    /** `Flush`. */
    method Flush() returns (data: bytes)
      requires Valid()
      modifies this`tracks, this`seqNum, this`emsgID
      ensures Valid() && View() == Flushed(old(View())) && data == FlushBytes(old(View()))
    {
      hide Active, MoofBytes, Emsgs, EmsgCount, AllSamples, MdatBytes, PatchAll, ClearAll, HasVideo, HasSamples;
      FlushedKinds(View());
      PatchKeepsSamples(tracks);
      ActiveIffSamples(PatchAll(tracks));
      var patched := PatchDurations(tracks);
      var active := ActiveTracks(patched);
      if active == [] {
        return [];
      }
      var n: u32 := (seqNum + 1) % TWO32;
      var emsgs, nextID, moof, mdat := BuildFragment(active, n, emsgID);
      var cleared := ClearTracks(patched);
      data := emsgs + moof + mdat;
      seqNum, emsgID, tracks := n, nextID, cleared;
    }
  }
}
