/** What the demuxer recovers from a fragment the muxer built. */
module FragmentRoundTrip {
  import opened Bytes
  import opened Wrappers
  import opened Boxes
  import opened Fragment

  // ── The reference: where each buffered sample belongs ───────────────────────

  /** A sample with its decode time in ticks and the position of its first byte in the mdat payload. */
  datatype Placed = Placed(track: Track, sample: Sample, dts: int, off: nat)

  function PlaceTrack(t: Track, samples: seq<Sample>, dts: int, off: nat): (r: seq<Placed>)
    ensures |r| == |samples|
  {
    if samples == [] then []
    else [Placed(t, samples[0], dts, off)]
         + PlaceTrack(t, samples[1..], dts + samples[0].duration, off + |samples[0].data|)
  }

  /** Every sample of every active track, track after track. */
  function Place(active: seq<Track>, off: nat): seq<Placed> {
    if active == [] then []
    else PlaceTrack(active[0], active[0].samples, active[0].baseTime, off)
         + Place(active[1..], off + |TrackData(active[0].samples)|)
  }

  // ── What parsing yields ─────────────────────────────────────────────────────

  /** The demuxer's view of a placed sample; an audio trun carries neither flags nor composition offsets. */
  function Raw(p: Placed, def: TrackDef, mdatOff: int): RawSample {
    RawSample(def.id, p.dts,
              if p.track.hasVideo then p.sample.ptsOffset else 0,
              p.sample.duration,
              if p.track.hasVideo then p.sample.flags else def.defFlags,
              mdatOff,
              |p.sample.data|)
  }

  function RawTrack(t: Track, def: TrackDef, samples: seq<Sample>, dts: int, mdatOff: int): (r: seq<RawSample>)
    ensures |r| == |samples|
  {
    if samples == [] then []
    else [Raw(Placed(t, samples[0], dts, 0), def, mdatOff)]
         + RawTrack(t, def, samples[1..], dts + samples[0].duration, mdatOff + |samples[0].data|)
  }

  function RawAll(active: seq<Track>, defs: map<u32, TrackDef>, offsets: seq<int>, mdatStart: int): seq<RawSample>
    requires |active| == |offsets|
    requires forall t <- active :: t.id in defs
  {
    if active == [] then []
    else RawTrack(active[0], defs[active[0].id], active[0].samples, active[0].baseTime,
                  Int32(offsets[0]) - mdatStart)
         + RawAll(active[1..], defs, offsets[1..], mdatStart)
  }

  lemma TrunFlagBits(v: bool)
    ensures var f := TrunFlags(v);
            && HasFlag(f, 0x1) && !HasFlag(f, 0x4) && HasFlag(f, 0x100) && HasFlag(f, 0x200)
            && HasFlag(f, 0x400) == v && HasFlag(f, 0x800) == v
            && EntryWidth(f) == PerSampleSize(v)
  {
  }

  lemma EntryRoundTrip(p: bytes, v: bool, def: TrackDef, sflags: u32, off: nat, dts: int, mdatOff: int, s: Sample)
    requires s.Encodable()
    requires off + PerSampleSize(v) <= |p|
    requires p[off..off + PerSampleSize(v)] == TrunEntry(s, v)
    ensures off + EntryWidth(TrunFlags(v)) <= |p|
    ensures TrunSample(p, TrunFlags(v), def, sflags, off, dts, mdatOff)
         == RawSample(def.id, dts, if v then s.ptsOffset else 0, s.duration,
                      if v then s.flags else sflags, mdatOff, |s.data|)
  {
    hide PutU32, U32, HasFlag, TrunFlags;
    TrunFlagBits(v);
    var e := TrunEntry(s, v);
    assert e[0..4] == PutU32(s.duration) && e[4..8] == PutU32(|s.data|);
    U32InWindow(p, off, e, 0, s.duration);
    U32InWindow(p, off, e, 4, |s.data|);
    if v {
      assert e[8..12] == PutU32(s.flags) && e[12..16] == PutU32(s.ptsOffset);
      U32InWindow(p, off, e, 8, s.flags);
      U32InWindow(p, off, e, 12, s.ptsOffset);
      Int32Wraps(s.ptsOffset);
    }
  }

  /** Writing a word and reading it as signed is Go's conversion to int32. */
  lemma Int32Wraps(v: int)
    ensures Int32(v % TWO32) == Int32(v)
  {
  }

  lemma Int64Wraps(v: int)
    ensures Int64(v % TWO64) == Int64(v)
  {
  }

  lemma {:induction false} EntriesRoundTrip(p: bytes, t: Track, def: TrackDef, i: nat, off: nat, dts: int, mdatOff: int)
    requires t.Encodable()
    requires i <= |t.samples|
    requires off <= |p| && p[off..] == TrunEntries(t.samples[i..], t.hasVideo)
    ensures TrunSamples(p, TrunFlags(t.hasVideo), def, def.defFlags, i, |t.samples|, off, dts, mdatOff)
         == Ok(RawTrack(t, def, t.samples[i..], dts, mdatOff))
    decreases |t.samples| - i
  {
    hide TrunSample, TrunEntry, HasFlag, EntryWidth, TrunFlags;
    var v := t.hasVideo;
    var w := PerSampleSize(v);
    if i < |t.samples| {
      var s := t.samples[i];
      assert t.samples[i..][1..] == t.samples[i + 1..];
      assert p[off..] == TrunEntry(s, v) + TrunEntries(t.samples[i + 1..], v);
      assert p[off..off + w] == p[off..][..w] == TrunEntry(s, v);
      assert p[off + w..] == p[off..][w..] == TrunEntries(t.samples[i + 1..], v);
      EntryRoundTrip(p, v, def, def.defFlags, off, dts, mdatOff, s);
      TrunFlagBits(v);
      EntriesRoundTrip(p, t, def, i + 1, off + w, dts + s.duration, mdatOff + |s.data|);
    }
  }

  lemma TrunRoundTrip(t: Track, dataOffset: int, def: TrackDef, dts: int, baseDataOffset: int, mdatPayloadBase: int)
    requires t.Encodable()
    ensures ParseTrunSpec(TrunBox(t, dataOffset).payload, def, dts, baseDataOffset, mdatPayloadBase)
         == Ok(RawTrack(t, def, t.samples, dts, baseDataOffset + Int32(dataOffset) - mdatPayloadBase))
  {
    hide U32, HasFlag, TrunSamples, Flags;
    var v := t.hasVideo;
    var body := PutU32(|t.samples|) + PutU32(dataOffset) + TrunEntries(t.samples, v);
    var p := TrunBox(t, dataOffset).payload;
    FullBoxFields(TRUN, 1, TrunFlags(v), body);
    TrunFlagBits(v);
    assert p[4..8] == p[4..][..4] == PutU32(|t.samples|);
    U32OfPut(p, 4, |t.samples|);
    assert p[8..12] == p[4..][4..8] == PutU32(dataOffset);
    U32OfPut(p, 8, dataOffset);
    Int32Wraps(dataOffset);
    assert p[12..] == p[4..][8..] == TrunEntries(t.samples[0..], v);
    EntriesRoundTrip(p, t, def, 0, 12, dts, baseDataOffset + Int32(dataOffset) - mdatPayloadBase);
    assert t.samples[0..] == t.samples;
  }

  lemma TfhdRoundTrip(id: u32, moofStart: int)
    ensures ParseTfhd(TfhdBox(id).payload, moofStart)
         == Ok(Tfhd(id, DEFAULT_BASE_IS_MOOF, moofStart, 0, 0, 0))
  {
    hide U32, Flags;
    var p := TfhdBox(id).payload;
    FullBoxFields(TFHD, 0, DEFAULT_BASE_IS_MOOF, PutU32(id));
    assert p[4..8] == p[4..] == PutU32(id);
    U32OfPut(p, 4, id);
  }

  lemma TfdtRoundTrip(baseTime: int)
    requires -TWO63 <= baseTime < TWO63
    ensures ParseTfdt(TfdtBox(baseTime).payload) == Ok(baseTime)
  {
    hide U64, U32;
    var p := TfdtBox(baseTime).payload;
    FullBoxFields(TFDT, 1, 0, PutU64(baseTime));
    assert p[4..12] == p[4..] == PutU64(baseTime);
    U64OfPut(p, 4, baseTime);
    Int64Wraps(baseTime);
  }

  lemma TrafChildren(t: Track, dataOffset: int)
    requires |TrafBox(t, dataOffset).payload| < TWO32
    ensures var kids := SplitBoxes(TrafBox(t, dataOffset).payload);
            && First(kids, TFHD) == Some(TfhdBox(t.id).payload)
            && First(kids, TFDT) == Some(TfdtBox(t.baseTime).payload)
            && Select(kids, TRUN) == [TrunBox(t, dataOffset).payload]
  {
    hide TrunBox, FullBox, MakeBoxes, MakeBox, SplitBoxes;
    var a, b, c := TfhdBox(t.id), TfdtBox(t.baseTime), TrunBox(t, dataOffset);
    assert a.typ == TFHD && b.typ == TFDT && c.typ == TRUN by { BoxTypes(t, dataOffset); }
    ChildrenOf([a, b, c]);
    assert [a, b, c] == [a] + [b, c] && [b, c] == [b] + [c] && [c] == [c] + [];
    LookupHit(a, [b, c]);
    LookupSkip(a, [b, c], TFDT);
    LookupHit(b, [c]);
    LookupSkip(a, [b, c], TRUN);
    LookupSkip(b, [c], TRUN);
    LookupHit(c, []);
  }

  lemma BoxTypes(t: Track, dataOffset: int)
    ensures TfhdBox(t.id).typ == TFHD && TfdtBox(t.baseTime).typ == TFDT && TrunBox(t, dataOffset).typ == TRUN
  {
  }

  lemma TrafRoundTrip(t: Track, dataOffset: int, defs: map<u32, TrackDef>, moofStart: int, moofSize: int)
    requires t.Encodable() && t.id in defs
    requires |TrafBox(t, dataOffset).payload| < TWO32
    ensures ParseTraf(TrafBox(t, dataOffset).payload, defs, moofStart, moofStart + moofSize + 8)
         == Parsed(t.id, defs[t.id],
                   RawTrack(t, defs[t.id], t.samples, t.baseTime, Int32(dataOffset) - (moofSize + 8)))
  {
    hide TrunBox, TfhdBox, TfdtBox, TrafBox, SplitBoxes, ParseTfhd, ParseTfdt, ParseTrunSpec, First, Select, RawTrack;
    TrafChildren(t, dataOffset);
    TfhdRoundTrip(t.id, moofStart);
    TfdtRoundTrip(t.baseTime);
    TrunRoundTrip(t, dataOffset, defs[t.id], t.baseTime, moofStart, moofStart + moofSize + 8);
    var s := RawTrack(t, defs[t.id], t.samples, t.baseTime, Int32(dataOffset) - (moofSize + 8));
    var p := TrunBox(t, dataOffset).payload;
    assert moofStart + Int32(dataOffset) - (moofStart + moofSize + 8) == Int32(dataOffset) - (moofSize + 8);
    var truns: seq<bytes> := [p];
    assert truns[1..] == [];
    assert s + [] == s;
    assert ParseTruns(truns, defs[t.id], t.baseTime, moofStart, moofStart + moofSize + 8) == Ok(s);
    assert BaseDTS(SplitBoxes(TrafBox(t, dataOffset).payload)) == Ok(t.baseTime);
    assert Override(defs[t.id], Tfhd(t.id, DEFAULT_BASE_IS_MOOF, moofStart, 0, 0, 0)) == defs[t.id];
  }

  lemma {:induction false} TrafsRoundTrip(active: seq<Track>, offsets: seq<int>, defs: map<u32, TrackDef>,
                                          moofStart: int, moofSize: int)
    requires |active| == |offsets|
    requires forall t <- active :: t.Encodable() && t.id in defs
    requires |MakeBoxes(TrafBoxes(active, offsets))| < TWO32
    ensures ParseTrafs(Select(TrafBoxes(active, offsets), TRAF), defs, moofStart, moofStart + moofSize + 8)
         == MoofOutcome(Ok(RawAll(active, defs, offsets, moofSize + 8)), defs)
  {
    hide TrafBox, ParseTraf, RawTrack;
    if active != [] {
      var b, rest := TrafBox(active[0], offsets[0]), TrafBoxes(active[1..], offsets[1..]);
      assert b.typ == TRAF by { assert TrafBoxes(active, offsets)[0] == b; }
      MakeCons(b, rest);
      LookupHit(b, rest);
      TrafRoundTrip(active[0], offsets[0], defs, moofStart, moofSize);
      TrafsRoundTrip(active[1..], offsets[1..], defs, moofStart, moofSize);
      assert defs[active[0].id := defs[active[0].id]] == defs;
      var payloads := Select(TrafBoxes(active, offsets), TRAF);
      assert payloads[0] == b.payload && payloads[1..] == Select(rest, TRAF);
    }
  }

  /**
    Parsing a built moof returns every sample of every active track in order, with its own
    duration, size, composition offset, flags and accumulated decode time; the data offset of
    each track comes back through a signed 32-bit field.
   */
  lemma MoofRoundTrip(active: seq<Track>, seqNum: int, offsets: seq<int>, defs: map<u32, TrackDef>, moofStart: int)
    requires |active| == |offsets|
    requires forall t <- active :: t.Encodable() && t.id in defs
    requires MoofSize(active) < TWO32
    ensures ParseMoofSpec(MoofBox(active, seqNum, offsets).payload, defs, moofStart, MoofSize(active))
         == MoofOutcome(Ok(RawAll(active, defs, offsets, MoofSize(active) + 8)), defs)
  {
    hide TrafBoxes, ParseTrafs, RawAll;
    MoofSizeExact(active, seqNum, offsets);
    var h, trafs := MfhdBox(seqNum), TrafBoxes(active, offsets);
    MakeCons(h, trafs);
    ChildrenOf([h] + trafs);
    LookupSkip(h, trafs, TRAF);
    TrafsRoundTrip(active, offsets, defs, moofStart, MoofSize(active));
  }

  // ── Where the recovered samples point ───────────────────────────────────────

  /** Placement in closed form: decode time and position are the sums over the samples in front. */
  lemma {:induction false} PlaceTrackAt(t: Track, samples: seq<Sample>, dts: int, off: nat, k: nat)
    requires k < |samples|
    ensures PlaceTrack(t, samples, dts, off)[k]
         == Placed(t, samples[k], dts + SumDurations(samples[..k]), off + |TrackData(samples[..k])|)
    ensures TrackData(samples[..k]) + samples[k].data <= TrackData(samples)
  {
    if k > 0 {
      PlaceTrackAt(t, samples[1..], dts + samples[0].duration, off + |samples[0].data|, k - 1);
      assert samples[..k][1..] == samples[1..][..k - 1];
    }
  }

  /** The bytes a placed sample's window holds. */
  function Window(p: Placed, payload: bytes): Option<bytes> {
    if p.off + |p.sample.data| <= |payload| then Some(payload[p.off..p.off + |p.sample.data|]) else None
  }

  lemma PrefixWindow(a: bytes, d: bytes, whole: bytes)
    requires a + d <= whole
    ensures |a| + |d| <= |whole| && whole[|a|..|a| + |d|] == d
  {
    assert (a + d)[|a|..] == d;
    assert whole[|a|..|a| + |d|] == whole[..|a + d|][|a|..];
  }

  /** Every window holds exactly its sample's bytes. */
  lemma {:induction false} WindowsHoldSamples(active: seq<Track>, before: bytes, k: nat)
    requires k < |Place(active, |before|)|
    ensures var p := Place(active, |before|)[k];
            Window(p, before + MdatPayload(active)) == Some(p.sample.data)
  {
    var t := active[0];
    var own := TrackData(t.samples);
    var whole := before + MdatPayload(active);
    if k < |t.samples| {
      PlaceTrackAt(t, t.samples, t.baseTime, |before|, k);
      var a, d := TrackData(t.samples[..k]), t.samples[k].data;
      assert before + a + d <= whole by {
        assert before + a + d == before + (a + d);
        assert own == own[..|a + d|] + own[|a + d|..];
        assert whole == before + (own + MdatPayload(active[1..]));
      }
      PrefixWindow(before + a, d, whole);
    } else {
      assert whole == (before + own) + MdatPayload(active[1..]);
      assert Place(active, |before|)[k] == Place(active[1..], |before + own|)[k - |t.samples|];
      WindowsHoldSamples(active[1..], before + own, k - |t.samples|);
    }
  }

  /** Windows that start at `off`, follow each other without gap or overlap, and stop at `end`. */
  predicate Tiles(ps: seq<Placed>, off: nat, end: nat) {
    if ps == [] then off == end
    else ps[0].off == off && Tiles(ps[1..], off + |ps[0].sample.data|, end)
  }

  lemma {:induction false} TilesAppend(a: seq<Placed>, b: seq<Placed>, off: nat, mid: nat, end: nat)
    requires Tiles(a, off, mid) && Tiles(b, mid, end)
    ensures Tiles(a + b, off, end)
  {
    if a == [] {
      assert a + b == b;
    } else {
      assert (a + b)[1..] == a[1..] + b;
      TilesAppend(a[1..], b, off + |a[0].sample.data|, mid, end);
    }
  }

  lemma {:induction false} TrackTiles(t: Track, samples: seq<Sample>, dts: int, off: nat)
    ensures Tiles(PlaceTrack(t, samples, dts, off), off, off + |TrackData(samples)|)
  {
    if samples != [] {
      TrackTiles(t, samples[1..], dts + samples[0].duration, off + |samples[0].data|);
    }
  }

  /** The windows of a fragment tile its mdat payload. */
  lemma {:induction false} WindowsTile(active: seq<Track>, off: nat)
    ensures Tiles(Place(active, off), off, off + |MdatPayload(active)|)
  {
    hide PlaceTrack, TrackData;
    if active == [] {
      assert Tiles([], off, off);
    } else {
      var t, own := active[0], |TrackData(active[0].samples)|;
      TrackTiles(t, t.samples, t.baseTime, off);
      WindowsTile(active[1..], off + own);
      TilesAppend(PlaceTrack(t, t.samples, t.baseTime, off), Place(active[1..], off + own),
                  off, off + own, off + |MdatPayload(active)|);
    }
  }

  lemma {:induction false} RawTrackAt(t: Track, def: TrackDef, samples: seq<Sample>, dts: int, off: nat, mdatOff: int,
                                      k: nat)
    requires k < |samples|
    ensures var p := PlaceTrack(t, samples, dts, off)[k];
            p.track == t && RawTrack(t, def, samples, dts, mdatOff)[k] == Raw(p, def, mdatOff + p.off - off)
  {
    if k > 0 {
      RawTrackAt(t, def, samples[1..], dts + samples[0].duration, off + |samples[0].data|,
                 mdatOff + |samples[0].data|, k - 1);
    }
  }

  /** The track whose offset decides where recovered sample k points. */
  function TrackOf(active: seq<Track>, k: nat): nat {
    if active == [] || k < |active[0].samples| then 0 else 1 + TrackOf(active[1..], k - |active[0].samples|)
  }

  lemma {:induction false} RawAllAt(active: seq<Track>, defs: map<u32, TrackDef>, off: nat, mdatStart: int, k: nat)
    requires forall t <- active :: t.id in defs
    requires k < |Place(active, off)|
    ensures |RawAll(active, defs, Offsets(active, mdatStart + off), mdatStart)| == |Place(active, off)|
    ensures var p := Place(active, off)[k];
            var i := TrackOf(active, k);
            var offs := Offsets(active, mdatStart + off);
            && i < |active| && p.track == active[i]
            && RawAll(active, defs, offs, mdatStart)[k]
               == Raw(p, defs[p.track.id], p.off + Int32(offs[i]) - offs[i])
  {
    hide Raw, Int32, PlaceTrack, RawTrack, TrackData;
    var t := active[0];
    var def := defs[t.id];
    var own := |TrackData(t.samples)|;
    var offs := Offsets(active, mdatStart + off);
    var tail := active[1..];
    assert offs[0] == mdatStart + off && offs[1..] == Offsets(tail, mdatStart + (off + own));
    assert Place(active, off) == PlaceTrack(t, t.samples, t.baseTime, off) + Place(tail, off + own);
    if k < |t.samples| {
      RawTrackAt(t, def, t.samples, t.baseTime, off, Int32(offs[0]) - mdatStart, k);
      RawAllLength(tail, defs, off + own, mdatStart);
    } else {
      RawAllAt(tail, defs, off + own, mdatStart, k - |t.samples|);
    }
  }

  lemma {:induction false} RawAllLength(active: seq<Track>, defs: map<u32, TrackDef>, off: nat, mdatStart: int)
    requires forall t <- active :: t.id in defs
    ensures |RawAll(active, defs, Offsets(active, mdatStart + off), mdatStart)| == |Place(active, off)|
  {
    hide Raw, Int32, PlaceTrack, RawTrack, TrackData;
    if active != [] {
      var own := |TrackData(active[0].samples)|;
      RawAllLength(active[1..], defs, off + own, mdatStart);
      assert Offsets(active, mdatStart + off)[1..] == Offsets(active[1..], mdatStart + (off + own));
    }
  }

  /** A data offset survives the signed field of the trun box exactly when it is below 2^31. */
  lemma SignedOffset(o: nat)
    ensures Int32(o) == o <==> o < TWO31
  {
  }

  /** The first sample of track i among all recovered samples. */
  function FirstOf(active: seq<Track>, i: nat): nat
    requires i < |active|
  {
    if i == 0 then 0 else |active[0].samples| + FirstOf(active[1..], i - 1)
  }

  lemma {:induction false} FirstOfTrack(active: seq<Track>, off: nat, i: nat)
    requires i < |active|
    requires forall t <- active :: t.samples != []
    ensures FirstOf(active, i) < |Place(active, off)| && TrackOf(active, FirstOf(active, i)) == i
  {
    if i > 0 {
      FirstOfTrack(active[1..], off + |TrackData(active[0].samples)|, i - 1);
    }
  }

  /** Every track's payload starts below 2^31 bytes after the start of the moof. */
  predicate OffsetsFit(active: seq<Track>) {
    AllBelow(Offsets(active, MoofSize(active) + 8), TWO31)
  }

  predicate AllBelow(offsets: seq<int>, limit: int) {
    forall i | 0 <= i < |offsets| :: offsets[i] < limit
  }

  lemma {:induction false} OffsetsGrow(active: seq<Track>, start: nat)
    ensures forall o <- Offsets(active, start) :: start <= o
  {
    if active != [] {
      OffsetsGrow(active[1..], start + |TrackData(active[0].samples)|);
    }
  }

  /** The recovered samples are the placed ones, field by field, positions aside. */
  predicate Recovers(raw: seq<RawSample>, placed: seq<Placed>, defs: map<u32, TrackDef>) {
    && |raw| == |placed|
    && forall k | 0 <= k < |raw| ::
         && placed[k].track.id in defs
         && raw[k].(mdatOff := 0) == Raw(placed[k], defs[placed[k].track.id], 0)
  }

  predicate PointsAtSamples(raw: seq<RawSample>, placed: seq<Placed>)
    requires |raw| == |placed|
  {
    forall k | 0 <= k < |raw| :: raw[k].mdatOff == placed[k].off
  }

  lemma RawOffset(p: Placed, def: TrackDef, off: int)
    ensures Raw(p, def, off).mdatOff == off && Raw(p, def, off).(mdatOff := 0) == Raw(p, def, 0)
  {
  }

  lemma RecoveredSamples(active: seq<Track>, defs: map<u32, TrackDef>)
    requires forall t <- active :: t.id in defs
    ensures var start := MoofSize(active) + 8;
            Recovers(RawAll(active, defs, Offsets(active, start), start), Place(active, 0), defs)
  {
    hide Raw, Int32, Place, RawAll, Offsets, TrackOf;
    var start := MoofSize(active) + 8;
    var raw, placed := RawAll(active, defs, Offsets(active, start), start), Place(active, 0);
    RawAllLength(active, defs, 0, start);
    forall k | 0 <= k < |raw|
      ensures placed[k].track.id in defs
      ensures raw[k].(mdatOff := 0) == Raw(placed[k], defs[placed[k].track.id], 0)
    {
      RawAllAt(active, defs, 0, start, k);
      var offs, i := Offsets(active, start), TrackOf(active, k);
      RawOffset(placed[k], defs[placed[k].track.id], placed[k].off + Int32(offs[i]) - offs[i]);
    }
  }

  lemma RecoveredPosition(active: seq<Track>, defs: map<u32, TrackDef>, k: nat)
    requires forall t <- active :: t.id in defs
    requires k < |Place(active, 0)|
    ensures var start := MoofSize(active) + 8;
            var offs := Offsets(active, start);
            var raw := RawAll(active, defs, offs, start);
            && |raw| == |Place(active, 0)| && TrackOf(active, k) < |active|
            && (raw[k].mdatOff == Place(active, 0)[k].off <==> offs[TrackOf(active, k)] < TWO31)
  {
    hide Raw, Int32, Place, RawAll, TrackOf;
    var start := MoofSize(active) + 8;
    var offs := Offsets(active, start);
    RawAllAt(active, defs, 0, start, k);
    var i, p := TrackOf(active, k), Place(active, 0)[k];
    RawOffset(p, defs[p.track.id], p.off + Int32(offs[i]) - offs[i]);
    OffsetsGrow(active, start);
    assert offs[i] in offs;
    SignedOffset(offs[i]);
  }

  lemma PositionsTrue(active: seq<Track>, defs: map<u32, TrackDef>)
    requires forall t <- active :: t.id in defs && t.samples != []
    ensures var start := MoofSize(active) + 8;
            var raw := RawAll(active, defs, Offsets(active, start), start);
            && |raw| == |Place(active, 0)|
            && (PointsAtSamples(raw, Place(active, 0)) <==> OffsetsFit(active))
  {
    hide Raw, Place, RawAll, TrackOf, FirstOf, Offsets;
    var start := MoofSize(active) + 8;
    var raw, placed := RawAll(active, defs, Offsets(active, start), start), Place(active, 0);
    RawAllLength(active, defs, 0, start);
    forall k | 0 <= k < |placed|
      ensures TrackOf(active, k) < |active|
      ensures raw[k].mdatOff == placed[k].off <==> Offsets(active, start)[TrackOf(active, k)] < TWO31
    {
      RecoveredPosition(active, defs, k);
    }
    forall i | 0 <= i < |active|
      ensures FirstOf(active, i) < |placed| && TrackOf(active, FirstOf(active, i)) == i
    {
      FirstOfTrack(active, 0, i);
    }
    if PointsAtSamples(raw, placed) {
      forall i | 0 <= i < |active|
        ensures Offsets(active, start)[i] < TWO31
      {
        assert raw[FirstOf(active, i)].mdatOff == placed[FirstOf(active, i)].off;
      }
    }
  }

  /**
    The fragment round trip. Whatever the active tracks hold, the demuxer finds every sample in
    order with its own duration, size, composition offset, video flags and accumulated decode
    time; and its positions in the mdat payload are the true ones if and only if every track's
    payload starts below 2^31 bytes after the moof.
   */
  lemma FragmentRoundTrip(active: seq<Track>, seqNum: int, defs: map<u32, TrackDef>, moofStart: int)
    requires forall t <- active :: t.Encodable() && t.id in defs && t.samples != []
    requires MoofSize(active) < TWO32
    ensures var moof := MoofBox(active, seqNum, Offsets(active, MoofSize(active) + 8));
            var out := ParseMoofSpec(moof.payload, defs, moofStart, MoofSize(active));
            && out.result.Ok? && out.defs == defs
            && Recovers(out.result.value, Place(active, 0), defs)
            && (PointsAtSamples(out.result.value, Place(active, 0)) <==> OffsetsFit(active))
  {
    hide MoofBox, ParseMoofSpec, Place, RawAll, Recovers, PointsAtSamples, OffsetsFit;
    MoofRoundTrip(active, seqNum, Offsets(active, MoofSize(active) + 8), defs, moofStart);
    RecoveredSamples(active, defs);
    PositionsTrue(active, defs);
  }

  /** What a reader should get for a placed sample; audio samples carry no flags of their own. */
  function Delivered(p: Placed, def: TrackDef): Packet {
    Packet(def.id,
           if p.track.hasVideo then p.sample.flags / 0x1_0000 % 2 == 0 else def.defFlags / 0x1_0000 % 2 == 0,
           p.dts, if p.track.hasVideo then p.sample.ptsOffset else 0, p.sample.duration, p.sample.data)
  }

  lemma CutOne(r: RawSample, p: Placed, def: TrackDef, defs: map<u32, TrackDef>, mdat: bytes)
    requires r == Raw(p, def, p.off)
    requires def.id in defs
    requires Window(p, mdat) == Some(p.sample.data)
    ensures Readable(r, defs, mdat) && PacketOf(r, mdat) == Delivered(p, def)
  {
  }

  lemma {:induction false} CutAll(raw: seq<RawSample>, placed: seq<Placed>, defs: map<u32, TrackDef>, mdat: bytes)
    requires |raw| == |placed|
    requires forall k | 0 <= k < |raw| ::
               && placed[k].track.id in defs && defs[placed[k].track.id].id in defs
               && raw[k] == Raw(placed[k], defs[placed[k].track.id], placed[k].off)
               && Window(placed[k], mdat) == Some(placed[k].sample.data)
    ensures CutPackets(raw, defs, mdat)
         == seq(|placed|, k requires 0 <= k < |placed| => Delivered(placed[k], defs[placed[k].track.id]))
  {
    hide Raw, Window, Readable, PacketOf, Delivered;
    if raw != [] {
      CutOne(raw[0], placed[0], defs[placed[0].track.id], defs, mdat);
      CutAll(raw[1..], placed[1..], defs, mdat);
    }
  }

  lemma RawFromParts(r: RawSample, p: Placed, def: TrackDef)
    requires r.(mdatOff := 0) == Raw(p, def, 0) && r.mdatOff == p.off
    ensures r == Raw(p, def, p.off)
  {
  }

  /**
    Through the mdat payload as well: the packets cut out of a fragment whose offsets fit are the
    buffered samples themselves, byte for byte and in order, none lost and none added.
   */
  lemma PayloadRoundTrip(active: seq<Track>, seqNum: int, defs: map<u32, TrackDef>, moofStart: int)
    requires forall t <- active :: t.Encodable() && t.id in defs && defs[t.id].id == t.id && t.samples != []
    requires MoofSize(active) < TWO32 && OffsetsFit(active)
    ensures var moof := MoofBox(active, seqNum, Offsets(active, MoofSize(active) + 8));
            var out := ParseMoofSpec(moof.payload, defs, moofStart, MoofSize(active));
            var placed := Place(active, 0);
            && out.result.Ok?
            && (forall k | 0 <= k < |placed| :: placed[k].track.id in defs)
            && CutPackets(out.result.value, defs, MdatBox(active).payload)
               == seq(|placed|, k requires 0 <= k < |placed| => Delivered(placed[k], defs[placed[k].track.id]))
  {
    hide MoofBox, ParseMoofSpec, Place, OffsetsFit, Raw, Window, MdatPayload;
    FragmentRoundTrip(active, seqNum, defs, moofStart);
    var moof := MoofBox(active, seqNum, Offsets(active, MoofSize(active) + 8));
    var raw := ParseMoofSpec(moof.payload, defs, moofStart, MoofSize(active)).result.value;
    var placed := Place(active, 0);
    forall k | 0 <= k < |placed|
      ensures placed[k].track.id in defs && defs[placed[k].track.id].id in defs
      ensures raw[k] == Raw(placed[k], defs[placed[k].track.id], placed[k].off)
      ensures Window(placed[k], MdatPayload(active)) == Some(placed[k].sample.data)
    {
      PlacedTrack(active, 0, k);
      RawFromParts(raw[k], placed[k], defs[placed[k].track.id]);
      WindowsHoldSamples(active, [], k);
      assert [] + MdatPayload(active) == MdatPayload(active);
    }
    CutAll(raw, placed, defs, MdatPayload(active));
  }

  lemma {:induction false} PlacedTrack(active: seq<Track>, off: nat, k: nat)
    requires k < |Place(active, off)|
    ensures Place(active, off)[k].track in active
  {
    var t := active[0];
    if k < |t.samples| {
      PlaceTrackAt(t, t.samples, t.baseTime, off, k);
    } else {
      PlacedTrack(active[1..], off + |TrackData(t.samples)|, k - |t.samples|);
    }
  }
}
