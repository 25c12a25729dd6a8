/** Reading back what the MP4 muxer wrote. */
module Mp4RoundTrip {
  import opened Bytes
  import opened Wrappers
  import opened Boxes
  import opened Ticks
  import opened Mp4Tables
  import opened Mp4TablesRoundTrip
  import opened Mp4File

  // ── The measuring pass measures the final box ───────────────────────────────

  lemma StblSize(t: Track, b1: int, b2: int)
    ensures |StblBox(t, b1).payload| == |StblBox(t, b2).payload|
  {
    hide SttsBox, CttsBox, StssBox, StscBox, StszBox, AnyOffset, MakeBoxes, PutU32, StsdPayload;
    SameShapeSize(StblBoxes(StsdPayload(t), t.samples, t.isVideo, b1),
                  StblBoxes(StsdPayload(t), t.samples, t.isVideo, b2));
  }

  lemma TrakSize(t: Track, b1: int, b2: int)
    ensures |TrakBox(t, b1).payload| == |TrakBox(t, b2).payload|
  {
    hide StblBox, MakeBoxes, MdhdBox;
    StblSize(t, b1, b2);
    var head, dinf, mdhd := Box(if t.isVideo then VMHD else SMHD, t.mediaHeader), Box(DINF, t.dinf), MdhdBox(t);
    var hdlr, tkhd := Box(HDLR, t.hdlr), Box(TKHD, t.tkhd);
    SameShapeSize([head, dinf, StblBox(t, b1)], [head, dinf, StblBox(t, b2)]);
    SameShapeSize([mdhd, hdlr, MinfBox(t, b1)], [mdhd, hdlr, MinfBox(t, b2)]);
    SameShapeSize([tkhd, MdiaBox(t, b1)], [tkhd, MdiaBox(t, b2)]);
  }

  lemma {:induction false} TraksShape(tracks: seq<Track>, b1: seq<int>, b2: seq<int>)
    requires |tracks| == |b1| == |b2|
    ensures SameShape(TrakBoxes(tracks, b1), TrakBoxes(tracks, b2))
  {
    hide TrakBox;
    if tracks != [] {
      TrakSize(tracks[0], b1[0], b2[0]);
      TraksShape(tracks[1..], b1[1..], b2[1..]);
    }
  }

  /** Filling in the chunk offsets does not change the length of the moov box. */
  lemma MoovSizeFixed(mvhd: bytes, tracks: seq<Track>, b1: seq<int>, b2: seq<int>)
    requires |tracks| == |b1| == |b2|
    ensures |MoovBox(mvhd, tracks, b1).payload| == |MoovBox(mvhd, tracks, b2).payload|
  {
    hide TrakBoxes, MakeBoxes;
    TraksShape(tracks, b1, b2);
    var h := Box(MVHD, mvhd);
    SameShapeSize([h] + TrakBoxes(tracks, b1), [h] + TrakBoxes(tracks, b2));
  }

  // ── One track ───────────────────────────────────────────────────────────────

  /** A track whose samples fit their columns and whose sample entry is recognised. */
  predicate Readable(t: Track) {
    && AllEncodable(t.samples)
    && ParseStsdEntry(t.entry) == Ok(t.isVideo)
  }

  lemma MdhdRoundTrip(t: Track)
    ensures ParseMdhdTimescale(MdhdBox(t).payload) == Ok(t.timescale)
  {
    hide U32, PutU32, PutU16, Sum;
    var body := PutU32(0) + PutU32(0) + PutU32(t.timescale) + PutU32(Sum(Durations(t.samples)))
                + PutU16(0x55C4) + PutU16(0);
    var p := MdhdBox(t).payload;
    FullBoxFields(MDHD, 0, 0, body);
    assert p[12..16] == p[4..][8..12] == PutU32(t.timescale);
    U32OfPut(p, 12, t.timescale);
  }

  lemma StsdRoundTrip(t: Track)
    ensures |StsdPayload(t)| >= 8 && StsdPayload(t)[8..] == t.entry
  {
    hide PutU32;
    FullBoxFields(STSD, 0, 0, PutU32(1) + t.entry);
    assert StsdPayload(t)[8..] == StsdPayload(t)[4..][4..] == t.entry;
  }

  lemma TrakLookups(t: Track, base: int)
    requires |TrakBox(t, base).payload| < TWO32
    ensures First(SplitBoxes(TrakBox(t, base).payload), MDIA) == Some(MdiaBox(t, base).payload)
    ensures First(SplitBoxes(MdiaBox(t, base).payload), MDHD) == Some(MdhdBox(t).payload)
    ensures First(SplitBoxes(MdiaBox(t, base).payload), MINF) == Some(MinfBox(t, base).payload)
    ensures First(SplitBoxes(MinfBox(t, base).payload), STBL) == Some(StblBox(t, base).payload)
    ensures SplitBoxes(StblBox(t, base).payload) == StblBoxes(StsdPayload(t), t.samples, t.isVideo, base)
  {
    hide First, SplitBoxes, MakeBoxes, StblBoxes, StsdPayload, FullBox;
    var tkhd, mdia := Box(TKHD, t.tkhd), MdiaBox(t, base);
    ChildrenOf([tkhd, mdia]);
    FirstTwo(tkhd, mdia, MDIA);
    ChildrenFit([tkhd, mdia]);
    assert mdia in [tkhd, mdia];
    var mdhd, hdlr, minf := MdhdBox(t), Box(HDLR, t.hdlr), MinfBox(t, base);
    assert mdhd.typ == MDHD by { MdhdType(t); }
    ChildrenOf([mdhd, hdlr, minf]);
    FirstThree(mdhd, hdlr, minf, MDHD);
    FirstThree(mdhd, hdlr, minf, MINF);
    ChildrenFit([mdhd, hdlr, minf]);
    assert minf in [mdhd, hdlr, minf];
    var head, dinf, stbl := Box(if t.isVideo then VMHD else SMHD, t.mediaHeader), Box(DINF, t.dinf), StblBox(t, base);
    ChildrenOf([head, dinf, stbl]);
    FirstThree(head, dinf, stbl, STBL);
    ChildrenFit([head, dinf, stbl]);
    assert stbl in [head, dinf, stbl];
    ChildrenOf(StblBoxes(StsdPayload(t), t.samples, t.isVideo, base));
  }

  lemma MdhdType(t: Track)
    ensures MdhdBox(t).typ == MDHD
  {
    hide PutU32, PutU16, Sum;
  }

  lemma TrakRoundTrip(t: Track, base: int, streamIdx: nat)
    requires Readable(t) && |TrakBox(t, base).payload| < TWO32
    requires 0 <= base && base + |DataOf(t.samples)| < TWO32
    ensures ParseTrakSpec(TrakBox(t, base).payload, streamIdx)
         == Ok(TrakInfo(t.isVideo, Expected(streamIdx, t.samples, t.isVideo, base, t.timescale)))
  {
    hide First, SplitBoxes, TrakBox, MdiaBox, MinfBox, StblBox, MdhdBox, StsdPayload, StblBoxes, ParseSampleTableSpec,
      ParseMdhdTimescale, ParseStsdEntry, Expected, DataOf, AllEncodable;
    TrakLookups(t, base);
    MdhdRoundTrip(t);
    StsdRoundTrip(t);
    Lookup(StsdPayload(t), t.samples, t.isVideo, base, STSD);
    TablesRoundTrip(StsdPayload(t), t.samples, t.isVideo, base, t.timescale, streamIdx, StblBox(t, base).payload);
  }

  // ── All tracks ──────────────────────────────────────────────────────────────

  /** The samples of all tracks, track after track, numbered from stream `idx` on. */
  function ExpectedAll(tracks: seq<Track>, bases: seq<int>, idx: nat): seq<SampleEntry>
    requires |tracks| == |bases|
  {
    if tracks == [] then []
    else Expected(idx, tracks[0].samples, tracks[0].isVideo, bases[0], tracks[0].timescale)
         + ExpectedAll(tracks[1..], bases[1..], idx + 1)
  }

  function Kinds(tracks: seq<Track>): (r: seq<bool>)
    ensures |r| == |tracks|
  {
    seq(|tracks|, i requires 0 <= i < |tracks| => tracks[i].isVideo)
  }

  predicate BasesFit(tracks: seq<Track>, bases: seq<int>)
    requires |tracks| == |bases|
  {
    forall i | 0 <= i < |tracks| :: 0 <= bases[i] && bases[i] + |DataOf(tracks[i].samples)| < TWO32
  }

  lemma {:induction false} TraksRoundTrip(tracks: seq<Track>, bases: seq<int>, m: Movie)
    requires |tracks| == |bases| && BasesFit(tracks, bases)
    requires forall i | 0 <= i < |tracks| :: Readable(tracks[i])
    requires |MakeBoxes(TrakBoxes(tracks, bases))| < TWO32
    ensures ParseTraksSpec(Select(TrakBoxes(tracks, bases), TRAK), m)
         == Movie(m.streams + Kinds(tracks), m.samples + ExpectedAll(tracks, bases, |m.streams|))
    decreases |tracks|
  {
    hide TrakBox, ParseTrakSpec, Expected, Readable, DataOf, MakeBox, Select, First, Kinds, ParseTraksSpec;
    if tracks == [] {
      SelectNone(TRAK);
      NoTraks(m);
    } else {
      var b, rest := TrakBox(tracks[0], bases[0]), TrakBoxes(tracks[1..], bases[1..]);
      MakeCons(b, rest);
      TrakRoundTrip(tracks[0], bases[0], |m.streams|);
      var own := Expected(|m.streams|, tracks[0].samples, tracks[0].isVideo, bases[0], tracks[0].timescale);
      var m1 := Movie(m.streams + [tracks[0].isVideo], m.samples + own);
      TraksRoundTrip(tracks[1..], bases[1..], m1);
      FirstTrak(tracks, bases);
      ParseFirst(b.payload, Select(rest, TRAK), m, tracks[0].isVideo, own);
      Regroup(m, tracks, own, ExpectedAll(tracks[1..], bases[1..], |m.streams| + 1));
    }
  }

  lemma NoTraks(m: Movie)
    ensures ParseTraksSpec([], m) == m && Kinds([]) == []
    ensures m == Movie(m.streams + [], m.samples + [])
  {
  }

  /** The first trak payload among the children, and the rest. */
  lemma FirstTrak(tracks: seq<Track>, bases: seq<int>)
    requires |tracks| == |bases| > 0
    ensures Select(TrakBoxes(tracks, bases), TRAK)
         == [TrakBox(tracks[0], bases[0]).payload] + Select(TrakBoxes(tracks[1..], bases[1..]), TRAK)
  {
    hide Select;
    LookupHit(TrakBox(tracks[0], bases[0]), TrakBoxes(tracks[1..], bases[1..]));
  }

  /** A trak that parses is added to the movie before the rest is looked at. */
  lemma ParseFirst(payload: bytes, rest: seq<bytes>, m: Movie, isVideo: bool, own: seq<SampleEntry>)
    requires ParseTrakSpec(payload, |m.streams|) == Ok(TrakInfo(isVideo, own))
    ensures ParseTraksSpec([payload] + rest, m) == ParseTraksSpec(rest, Movie(m.streams + [isVideo], m.samples + own))
  {
    hide ParseTrakSpec;
    assert ([payload] + rest)[1..] == rest;
  }

  lemma Regroup(m: Movie, tracks: seq<Track>, own: seq<SampleEntry>, tail: seq<SampleEntry>)
    requires tracks != []
    ensures m.streams + [tracks[0].isVideo] + Kinds(tracks[1..]) == m.streams + Kinds(tracks)
    ensures m.samples + own + tail == m.samples + (own + tail)
  {
    assert Kinds(tracks) == [tracks[0].isVideo] + Kinds(tracks[1..]);
  }

  lemma SelectNone(typ: u32)
    ensures Select([], typ) == []
  {
  }

  lemma MoovRoundTrip(mvhd: bytes, tracks: seq<Track>, bases: seq<int>)
    requires |tracks| == |bases| && BasesFit(tracks, bases) && tracks != []
    requires forall i | 0 <= i < |tracks| :: Readable(tracks[i])
    requires |MoovBox(mvhd, tracks, bases).payload| < TWO32
    ensures ParseMoovSpec(MoovBox(mvhd, tracks, bases).payload)
         == Ok(Movie(Kinds(tracks), StableSort(ExpectedAll(tracks, bases, 0))))
  {
    hide TrakBoxes, ParseTraksSpec, SplitBoxes, Select, MakeBoxes, StableSort, ExpectedAll, Readable, BasesFit;
    var h, traks := Box(MVHD, mvhd), TrakBoxes(tracks, bases);
    MakeCons(h, traks);
    ChildrenOf([h] + traks);
    LookupSkip(h, traks, TRAK);
    TraksRoundTrip(tracks, bases, Movie([], []));
    assert [] + Kinds(tracks) == Kinds(tracks);
    assert [] + ExpectedAll(tracks, bases, 0) == ExpectedAll(tracks, bases, 0);
  }

  // ── The file ────────────────────────────────────────────────────────────────

  lemma TopLevelStep(pre: bytes, b: Box, rest: bytes, typ: u32)
    requires b.Fits()
    ensures var file := pre + MakeBox(b) + rest;
            TopLevelSpec(file, |pre|, typ)
            == if b.typ == typ then Ok(b.payload) else TopLevelSpec(file, |pre| + |MakeBox(b)|, typ)
  {
    hide U32, PutU32, U64, Int64;
    var file := pre + MakeBox(b) + rest;
    var w := MakeBox(b);
    var size := 8 + |b.payload|;
    assert file[|pre|..|pre| + |w|] == w;
    assert w[0..4] == PutU32(size) && w[4..8] == PutU32(b.typ);
    U32InWindow(file, |pre|, w, 0, size);
    U32InWindow(file, |pre|, w, 4, b.typ);
    assert file[|pre| + 8..|pre| + size] == b.payload;
  }

  lemma FindMoov(ftyp: bytes, moov: Box, rest: bytes)
    requires |ftyp| + 8 < TWO32 && moov.Fits() && moov.typ == MOOV
    ensures TopLevelSpec(MakeBox(Box(FTYP, ftyp)) + MakeBox(moov) + rest, 0, MOOV) == Ok(moov.payload)
  {
    hide TopLevelSpec, MakeBox;
    var f, m := MakeBox(Box(FTYP, ftyp)), MakeBox(moov);
    var file := f + m + rest;
    assert [] + f + (m + rest) == file;
    TopLevelStep([], Box(FTYP, ftyp), m + rest, MOOV);
    TopLevelStep(f, moov, rest, MOOV);
  }

  // ── Sorting ─────────────────────────────────────────────────────────────────

  predicate Sorted(es: seq<SampleEntry>) {
    forall i, j | 0 <= i < j < |es| :: es[i].dts <= es[j].dts
  }

  /** The entries of one stream, in order. */
  function OfStream(es: seq<SampleEntry>, idx: nat): seq<SampleEntry> {
    if es == [] then []
    else OfStream(es[..|es| - 1], idx) + (if es[|es| - 1].streamIdx == idx then [es[|es| - 1]] else [])
  }

  lemma {:induction false} InsertPermutes(s: seq<SampleEntry>, e: SampleEntry)
    ensures multiset(Insert(s, e)) == multiset(s) + multiset{e}
  {
    if s != [] && s[|s| - 1].dts > e.dts {
      var n := |s| - 1;
      InsertPermutes(s[..n], e);
      assert s == s[..n] + [s[n]];
    }
  }

  lemma {:induction false} InsertBound(s: seq<SampleEntry>, e: SampleEntry, bound: int)
    requires e.dts <= bound && forall i | 0 <= i < |s| :: s[i].dts <= bound
    ensures forall i | 0 <= i < |Insert(s, e)| :: Insert(s, e)[i].dts <= bound
  {
    if s != [] && s[|s| - 1].dts > e.dts {
      InsertBound(s[..|s| - 1], e, bound);
    }
  }

  lemma {:induction false} InsertSorted(s: seq<SampleEntry>, e: SampleEntry)
    requires Sorted(s)
    ensures Sorted(Insert(s, e))
  {
    if s != [] && s[|s| - 1].dts > e.dts {
      var n := |s| - 1;
      InsertSorted(s[..n], e);
      InsertBound(s[..n], e, s[n].dts);
    }
  }

  lemma {:induction false} SortSorted(es: seq<SampleEntry>)
    ensures Sorted(StableSort(es)) && multiset(StableSort(es)) == multiset(es)
  {
    hide Insert;
    if es != [] {
      var n := |es| - 1;
      SortSorted(es[..n]);
      InsertSorted(StableSort(es[..n]), es[n]);
      InsertPermutes(StableSort(es[..n]), es[n]);
      assert es == es[..n] + [es[n]];
    }
  }

  lemma {:induction false} OfStreamMember(es: seq<SampleEntry>, idx: nat)
    ensures forall e <- OfStream(es, idx) :: e in es
  {
    if es != [] {
      OfStreamMember(es[..|es| - 1], idx);
    }
  }

  lemma {:induction false} InsertLate(s: seq<SampleEntry>, e: SampleEntry)
    requires forall x <- s :: x.dts <= e.dts
    ensures Insert(s, e) == s + [e]
  {
  }

  lemma OfStreamSnoc(s: seq<SampleEntry>, e: SampleEntry, idx: nat)
    ensures OfStream(s + [e], idx) == if e.streamIdx == idx then OfStream(s, idx) + [e] else OfStream(s, idx)
  {
    assert (s + [e])[..|s|] == s;
    assert OfStream(s, idx) + [] == OfStream(s, idx);
  }

  lemma InsertBefore(s: seq<SampleEntry>, last: SampleEntry, e: SampleEntry)
    requires last.dts > e.dts
    ensures Insert(s + [last], e) == Insert(s, e) + [last]
  {
    assert (s + [last])[..|s|] == s;
  }

  lemma {:induction false} InsertFilter(s: seq<SampleEntry>, e: SampleEntry, idx: nat)
    requires Sorted(s)
    ensures OfStream(Insert(s, e), idx)
         == if e.streamIdx == idx then Insert(OfStream(s, idx), e) else OfStream(s, idx)
  {
    hide OfStream;
    if s == [] {
      OfStreamSnoc([], e, idx);
      assert [] + [e] == [e];
      assert OfStream([], idx) == [] by { OfStreamNone([], idx); }
    } else {
      var n := |s| - 1;
      assert s == s[..n] + [s[n]];
      OfStreamSnoc(s[..n], s[n], idx);
      if s[n].dts <= e.dts {
        OfStreamSnoc(s, e, idx);
        OfStreamMember(s, idx);
        InsertLate(OfStream(s, idx), e);
      } else {
        InsertFilter(s[..n], e, idx);
        OfStreamSnoc(Insert(s[..n], e), s[n], idx);
        InsertBefore(OfStream(s[..n], idx), s[n], e);
      }
    }
  }

  /** A stable sort keeps each stream's own order: filtering and sorting commute. */
  lemma {:induction false} SortFilter(es: seq<SampleEntry>, idx: nat)
    ensures OfStream(StableSort(es), idx) == StableSort(OfStream(es, idx))
  {
    if es == [] {
      assert OfStream([], idx) == [];
    } else {
      hide Insert, OfStream, StableSort, Sorted;
      var n := |es| - 1;
      var front, last := es[..n], es[n];
      assert es == front + [last];
      SortFilter(front, idx);
      SortSorted(front);
      SortSnoc(front, last);
      InsertFilter(StableSort(front), last, idx);
      OfStreamSnoc(front, last, idx);
      SortSnoc(OfStream(front, idx), last);
    }
  }

  lemma SortSnoc(es: seq<SampleEntry>, e: SampleEntry)
    ensures StableSort(es + [e]) == Insert(StableSort(es), e)
  {
    assert (es + [e])[..|es|] == es;
  }

  lemma {:induction false} SortIdentity(es: seq<SampleEntry>)
    requires Sorted(es)
    ensures StableSort(es) == es
  {
    if es != [] {
      var n := |es| - 1;
      SortIdentity(es[..n]);
      InsertLate(es[..n], es[n]);
      assert es == es[..n] + [es[n]];
    }
  }

  lemma {:induction false} OfStreamAppend(a: seq<SampleEntry>, b: seq<SampleEntry>, idx: nat)
    ensures OfStream(a + b, idx) == OfStream(a, idx) + OfStream(b, idx)
    decreases |b|
  {
    if b == [] {
      assert a + b == a;
    } else {
      var n := |b| - 1;
      assert (a + b)[..|a| + n] == a + b[..n];
      OfStreamAppend(a, b[..n], idx);
    }
  }

  lemma {:induction false} OfStreamAll(es: seq<SampleEntry>, idx: nat)
    requires forall i | 0 <= i < |es| :: es[i].streamIdx == idx
    ensures OfStream(es, idx) == es
  {
    if es != [] {
      var n := |es| - 1;
      OfStreamAll(es[..n], idx);
      assert es == es[..n] + [es[n]];
    }
  }

  lemma {:induction false} OfStreamNone(es: seq<SampleEntry>, idx: nat)
    requires forall i | 0 <= i < |es| :: es[i].streamIdx != idx
    ensures OfStream(es, idx) == []
  {
    if es != [] {
      OfStreamNone(es[..|es| - 1], idx);
    }
  }

  lemma {:induction false} ExpectedOfStream(tracks: seq<Track>, bases: seq<int>, idx: nat, i: nat)
    requires |tracks| == |bases| && i < |tracks|
    ensures OfStream(ExpectedAll(tracks, bases, idx), idx + i)
         == Expected(idx + i, tracks[i].samples, tracks[i].isVideo, bases[i], tracks[i].timescale)
    decreases |tracks|
  {
    hide ToDuration, Sum, DataOf, OfStream;
    var own := Expected(idx, tracks[0].samples, tracks[0].isVideo, bases[0], tracks[0].timescale);
    var rest := ExpectedAll(tracks[1..], bases[1..], idx + 1);
    OfStreamAppend(own, rest, idx + i);
    if i == 0 {
      OfStreamAll(own, idx);
      LaterStreams(tracks[1..], bases[1..], idx + 1);
      OfStreamNone(rest, idx);
    } else {
      OfStreamNone(own, idx + i);
      ExpectedOfStream(tracks[1..], bases[1..], idx + 1, i - 1);
    }
  }

  lemma {:induction false} LaterStreams(tracks: seq<Track>, bases: seq<int>, idx: nat)
    requires |tracks| == |bases|
    ensures forall i | 0 <= i < |ExpectedAll(tracks, bases, idx)| :: ExpectedAll(tracks, bases, idx)[i].streamIdx >= idx
    decreases |tracks|
  {
    hide ToDuration, Sum, DataOf;
    if tracks != [] {
      LaterStreams(tracks[1..], bases[1..], idx + 1);
    }
  }

  // ── Decode order and sample windows ─────────────────────────────────────────

  /** No decode time of the track leaves 63 bits when expressed in nanoseconds. */
  predicate TimesFit(t: Track) {
    Sum(Durations(t.samples)) * SECOND < TWO63
  }

  lemma {:induction false} SumNonNegative(samples: seq<Sample>, i: nat)
    requires i <= |samples|
    ensures 0 <= Sum(Durations(samples)[..i])
  {
    if i > 0 {
      SumNonNegative(samples, i - 1);
      assert Durations(samples)[..i][..i - 1] == Durations(samples)[..i - 1];
    }
  }

  lemma {:induction false} SumGrows(samples: seq<Sample>, i: nat, j: nat)
    requires i <= j <= |samples|
    ensures Sum(Durations(samples)[..i]) <= Sum(Durations(samples)[..j])
    decreases j - i
  {
    if i < j {
      SumGrows(samples, i, j - 1);
      assert Durations(samples)[..j][..j - 1] == Durations(samples)[..j - 1];
    }
  }

  lemma ExpectedSorted(idx: nat, t: Track, base: int)
    requires TimesFit(t)
    ensures Sorted(Expected(idx, t.samples, t.isVideo, base, t.timescale))
  {
    hide ToDuration, Sum, DataOf;
    var es := Expected(idx, t.samples, t.isVideo, base, t.timescale);
    forall i, j | 0 <= i < j < |es|
      ensures es[i].dts <= es[j].dts
    {
      SumNonNegative(t.samples, i);
      SumGrows(t.samples, i, j);
      SumGrows(t.samples, j, |t.samples|);
      assert Durations(t.samples)[..|t.samples|] == Durations(t.samples);
      DurationMonotone(Sum(Durations(t.samples)[..i]), Sum(Durations(t.samples)[..j]), t.timescale);
    }
  }

  /** Sample k of track i as a packet. */
  function ExpectedPacket(tracks: seq<Track>, i: nat, k: nat): Packet
    requires i < |tracks| && k < |tracks[i].samples|
  {
    var t := tracks[i];
    Packet(i, t.isVideo && t.samples[k].isKey,
           ToDuration(Sum(Durations(t.samples)[..k]), t.timescale),
           ToDuration(t.samples[k].ptsOff, t.timescale),
           ToDuration(t.samples[k].duration, t.timescale),
           t.samples[k].data)
  }

  lemma WindowInside(head: bytes, whole: bytes, a: bytes, b: bytes, d: bytes)
    requires a + b <= whole && d <= b
    ensures var file := head + whole;
            |head| + |a| + |d| <= |file| && file[|head| + |a|..|head| + |a| + |d|] == d
  {
    var file := head + whole;
    var lo := |head| + |a|;
    forall k | 0 <= k < |d|
      ensures file[lo + k] == d[k]
    {
      assert file[lo + k] == whole[|a| + k] == (a + b)[|a| + k] == b[k] == d[k];
    }
    assert file[lo..lo + |d|] == d;
  }

  lemma NestedPrefix(a: bytes, own: bytes, before: bytes, d: bytes, whole: bytes)
    requires a + own <= whole && before + d <= own
    ensures (a + before) + d <= whole
  {
    var p := (a + before) + d;
    assert p == a + (before + d);
    assert p <= a + own by {
      forall k | 0 <= k < |p|
        ensures p[k] == (a + own)[k]
      {
        if k >= |a| {
          assert p[k] == (before + d)[k - |a|] == own[k - |a|];
        }
      }
    }
  }

  /** Where the bytes of sample k of track i are, for media data that starts behind `head`. */
  lemma WindowBytes(head: bytes, tracks: seq<Track>, i: nat, k: nat)
    requires i < |tracks| && k < |tracks[i].samples|
    ensures var file := head + AllData(tracks);
            var lo := Bases(tracks, |head|)[i] + |DataOf(tracks[i].samples[..k])|;
            var d := tracks[i].samples[k].data;
            0 <= lo && lo + |d| <= |file| && file[lo..lo + |d|] == d
  {
    hide DataOf, AllData, Bases, ChunkOffsetsOf;
    var samples := tracks[i].samples;
    BasesAt(tracks, |head|, i);
    ChunkOffsetAt(samples, 0, k);
    var a, before, d := AllData(tracks[..i]), DataOf(samples[..k]), samples[k].data;
    NestedPrefix(a, DataOf(samples), before, d, AllData(tracks));
    WindowInside(head, AllData(tracks), a + before, d, d);
  }

  lemma PacketFromWindow(file: bytes, tracks: seq<Track>, i: nat, k: nat, base: int)
    requires i < |tracks| && k < |tracks[i].samples|
    requires var lo := base + |DataOf(tracks[i].samples[..k])|;
             var d := tracks[i].samples[k].data;
             0 <= lo && lo + |d| <= |file| && file[lo..lo + |d|] == d
    ensures var t := tracks[i];
            PacketAt(file, ExpectedEntry(i, t.samples, t.isVideo, base, t.timescale, k))
            == Some(ExpectedPacket(tracks, i, k))
  {
    hide ToDuration, Sum, DataOf, Durations;
  }

  lemma SampleWindow(head: bytes, tracks: seq<Track>, i: nat, k: nat)
    requires i < |tracks| && k < |tracks[i].samples|
    ensures var file := head + AllData(tracks);
            var t := tracks[i];
            var base := Bases(tracks, |head|)[i];
            PacketAt(file, ExpectedEntry(i, t.samples, t.isVideo, base, t.timescale, k))
            == Some(ExpectedPacket(tracks, i, k))
  {
    hide PacketAt, ExpectedEntry, ExpectedPacket, DataOf, AllData, Bases;
    WindowBytes(head, tracks, i, k);
    PacketFromWindow(head + AllData(tracks), tracks, i, k, Bases(tracks, |head|)[i]);
  }

  // ── The theorem ─────────────────────────────────────────────────────────────

  lemma FileShape(ftyp: bytes, mvhd: bytes, tracks: seq<Track>)
    ensures var start := MdatStart(ftyp, mvhd, tracks);
            var file := FileBytes(ftyp, mvhd, tracks);
            && start <= |file| && file == file[..start] + AllData(tracks)
            && |FinalMoov(ftyp, mvhd, tracks).payload| + 8 < |file| && |ftyp| + 8 <= |file|
  {
    hide MoovBox, AllData, Bases, PutU32;
    var start := MdatStart(ftyp, mvhd, tracks);
    MoovSizeFixed(mvhd, tracks, Zeros(|tracks|), Bases(tracks, start));
    var f, m := MakeBox(Box(FTYP, ftyp)), MakeBox(FinalMoov(ftyp, mvhd, tracks));
    var data := AllData(tracks);
    var h := PutU32(8 + |data|) + PutU32(MDAT);
    assert MakeBox(Box(MDAT, data)) == h + data;
    var file := FileBytes(ftyp, mvhd, tracks);
    assert file == (f + m + h) + data;
    assert |f + m + h| == start;
  }

  lemma BasesInFile(ftyp: bytes, mvhd: bytes, tracks: seq<Track>)
    requires |FileBytes(ftyp, mvhd, tracks)| < TWO32
    ensures BasesFit(tracks, Bases(tracks, MdatStart(ftyp, mvhd, tracks)))
  {
    hide FileBytes, MdatStart, AllData, Bases, DataOf;
    FileShape(ftyp, mvhd, tracks);
    var start := MdatStart(ftyp, mvhd, tracks);
    forall i | 0 <= i < |tracks|
      ensures 0 <= Bases(tracks, start)[i] && Bases(tracks, start)[i] + |DataOf(tracks[i].samples)| < TWO32
    {
      BasesAt(tracks, start, i);
      assert |AllData(tracks[..i]) + DataOf(tracks[i].samples)| <= |AllData(tracks)|;
    }
  }

  /**
    The MP4 round trip. For any tracks, as long as the file stays below 2^32 bytes, the demuxer
    finds every stream; its samples are in decode order and are, stream by stream, exactly the
    written ones in their own order; and reading a sample's window gives its bytes, sync flag,
    durations and offsets back, with the decode time the sum of the durations before it.
   */
  lemma Mp4RoundTrip(ftyp: bytes, mvhd: bytes, tracks: seq<Track>)
    requires |FileBytes(ftyp, mvhd, tracks)| < TWO32 && tracks != []
    requires forall i | 0 <= i < |tracks| :: Readable(tracks[i]) && TimesFit(tracks[i])
    ensures var file := FileBytes(ftyp, mvhd, tracks);
            var bases := Bases(tracks, MdatStart(ftyp, mvhd, tracks));
            var moov := TopLevelSpec(file, 0, MOOV);
            && moov.Ok? && ParseMoovSpec(moov.value).Ok?
            && var m := ParseMoovSpec(moov.value).value;
            && m.streams == Kinds(tracks)
            && Sorted(m.samples)
            && multiset(m.samples) == multiset(ExpectedAll(tracks, bases, 0))
            && forall i | 0 <= i < |tracks| ::
                 OfStream(m.samples, i)
                 == Expected(i, tracks[i].samples, tracks[i].isVideo, bases[i], tracks[i].timescale)
    ensures var file := FileBytes(ftyp, mvhd, tracks);
            var bases := Bases(tracks, MdatStart(ftyp, mvhd, tracks));
            forall i, k | 0 <= i < |tracks| && 0 <= k < |tracks[i].samples| ::
              PacketAt(file, Expected(i, tracks[i].samples, tracks[i].isVideo, bases[i], tracks[i].timescale)[k])
              == Some(ExpectedPacket(tracks, i, k))
  {
    hide MoovBox, ParseMoovSpec, TopLevelSpec, MakeBox, MdatStart, Bases, AllData, StableSort, ExpectedAll, Sorted,
      OfStream, Readable, TimesFit, PacketAt, ExpectedPacket, ExpectedEntry, BasesFit;
    var file, start := FileBytes(ftyp, mvhd, tracks), MdatStart(ftyp, mvhd, tracks);
    var bases := Bases(tracks, start);
    var all := ExpectedAll(tracks, bases, 0);
    FileShape(ftyp, mvhd, tracks);
    BasesInFile(ftyp, mvhd, tracks);
    assert FinalMoov(ftyp, mvhd, tracks).typ == MOOV by { MoovType(mvhd, tracks, bases); }
    FindMoov(ftyp, FinalMoov(ftyp, mvhd, tracks), MakeBox(Box(MDAT, AllData(tracks))));
    MoovRoundTrip(mvhd, tracks, bases);
    SortSorted(all);
    forall i | 0 <= i < |tracks|
      ensures OfStream(StableSort(all), i)
           == Expected(i, tracks[i].samples, tracks[i].isVideo, bases[i], tracks[i].timescale)
    {
      SortFilter(all, i);
      ExpectedOfStream(tracks, bases, 0, i);
      ExpectedSorted(i, tracks[i], bases[i]);
      SortIdentity(Expected(i, tracks[i].samples, tracks[i].isVideo, bases[i], tracks[i].timescale));
    }
    forall i, k | 0 <= i < |tracks| && 0 <= k < |tracks[i].samples|
      ensures PacketAt(file, Expected(i, tracks[i].samples, tracks[i].isVideo, bases[i], tracks[i].timescale)[k])
           == Some(ExpectedPacket(tracks, i, k))
    {
      SampleWindow(file[..start], tracks, i, k);
    }
  }

  lemma MoovType(mvhd: bytes, tracks: seq<Track>, bases: seq<int>)
    requires |tracks| == |bases|
    ensures MoovBox(mvhd, tracks, bases).typ == MOOV
  {
  }
}
