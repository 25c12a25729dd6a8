/** What parsing a built sample table yields. */
module Mp4TablesRoundTrip {
  import opened Bytes
  import opened Wrappers
  import opened Boxes
  import opened Ticks
  import opened Mp4Tables

  // ── Words and runs ──────────────────────────────────────────────────────────

  predicate AreWords(ws: seq<int>) {
    forall i | 0 <= i < |ws| :: 0 <= ws[i] < TWO32
  }

  lemma {:induction false} WordAt(ws: seq<int>, i: nat)
    requires i < |ws|
    ensures PutWords(ws)[4 * i..4 * i + 4] == PutU32(ws[i])
  {
    hide PutU32;
    var all := PutWords(ws);
    assert all == PutU32(ws[0]) + PutWords(ws[1..]);
    if i > 0 {
      WordAt(ws[1..], i - 1);
      assert all[4 * i..4 * i + 4] == PutWords(ws[1..])[4 * (i - 1)..4 * (i - 1) + 4];
    }
  }

  lemma WordInPlace(p: bytes, off: nat, ws: seq<int>, i: nat)
    requires off + 4 * |ws| <= |p| && p[off..off + 4 * |ws|] == PutWords(ws) && i < |ws|
    ensures U32(p, off + 4 * i) == ws[i] % TWO32
  {
    hide U32, PutU32;
    var w := PutWords(ws);
    WordAt(ws, i);
    U32InWindow(p, off, w, 4 * i, ws[i]);
  }

  lemma WordsOfPut(p: bytes, off: nat, ws: seq<int>)
    requires AreWords(ws)
    requires off + 4 * |ws| <= |p| && p[off..off + 4 * |ws|] == PutWords(ws)
    ensures Words(p, off, |ws|) == ws
  {
    hide U32, PutWords;
    var got := Words(p, off, |ws|);
    forall i | 0 <= i < |ws|
      ensures got[i] == ws[i]
    {
      WordInPlace(p, off, ws, i);
    }
  }

  lemma {:induction false} RunAt(runs: seq<Run>, i: nat)
    requires i < |runs|
    ensures PutRuns(runs)[8 * i..8 * i + 4] == PutU32(runs[i].count)
    ensures PutRuns(runs)[8 * i + 4..8 * i + 8] == PutU32(runs[i].value)
  {
    hide PutU32;
    var all := PutRuns(runs);
    assert all == PutU32(runs[0].count) + PutU32(runs[0].value) + PutRuns(runs[1..]);
    if i > 0 {
      RunAt(runs[1..], i - 1);
      var rest := PutRuns(runs[1..]);
      assert all[8 * i..8 * i + 4] == rest[8 * (i - 1)..8 * (i - 1) + 4];
      assert all[8 * i + 4..8 * i + 8] == rest[8 * (i - 1) + 4..8 * (i - 1) + 8];
    }
  }

  /** The runs as they come back: values as unsigned words. */
  function WrapRuns(runs: seq<Run>): (r: seq<Run>)
    ensures |r| == |runs|
  {
    seq(|runs|, i requires 0 <= i < |runs| => Run(runs[i].count, runs[i].value % TWO32))
  }

  function WrapAll(values: seq<int>): (r: seq<int>)
    ensures |r| == |values|
  {
    seq(|values|, i requires 0 <= i < |values| => values[i] % TWO32)
  }

  lemma {:induction false} ExpandWrap(runs: seq<Run>)
    ensures Expand(WrapRuns(runs)) == WrapAll(Expand(runs))
  {
    if runs != [] {
      var n := |runs| - 1;
      ExpandWrap(runs[..n]);
      assert WrapRuns(runs)[..n] == WrapRuns(runs[..n]);
    }
  }

  lemma RunInPlace(p: bytes, runs: seq<Run>, i: nat)
    requires |p| == 8 + 8 * |runs| && p[8..] == PutRuns(runs) && i < |runs|
    ensures U32(p, 8 + 8 * i) == runs[i].count % TWO32 && U32(p, 12 + 8 * i) == runs[i].value % TWO32
  {
    hide U32, PutU32;
    var w := PutRuns(runs);
    assert p[8..8 + |w|] == w;
    RunAt(runs, i);
    U32InWindow(p, 8, w, 8 * i, runs[i].count);
    U32InWindow(p, 8, w, 8 * i + 4, runs[i].value);
  }

  lemma RunsOfPut(p: bytes, runs: seq<Run>)
    requires forall i | 0 <= i < |runs| :: runs[i].count < TWO32
    requires |p| == 8 + 8 * |runs| && p[8..] == PutRuns(runs)
    ensures ReadRuns(p, |runs|) == WrapRuns(runs)
  {
    hide U32, PutRuns;
    var got := ReadRuns(p, |runs|);
    forall i | 0 <= i < |runs|
      ensures got[i] == WrapRuns(runs)[i]
    {
      RunInPlace(p, runs, i);
    }
  }

  /** A run-length table box expands to the values it was built from, as unsigned words. */
  lemma RunTableRoundTrip(typ: u32, version: byte, values: seq<int>)
    requires |values| < TWO32
    ensures var runs := RunLength(values);
            var back := TableRuns(FullBox(typ, version, 0, PutU32(|runs|) + PutRuns(runs)).payload);
            back.Ok? && Expand(back.value) == WrapAll(values)
  {
    hide U32, PutU32, PutRuns, ReadRuns, RunLength, Expand, WrapRuns, WrapAll;
    var runs := RunLength(values);
    var body := PutU32(|runs|) + PutRuns(runs);
    var p := FullBox(typ, version, 0, body).payload;
    FullBoxFields(typ, version, 0, body);
    RunLengthCanonical(values);
    forall i | 0 <= i < |runs|
      ensures runs[i].count < TWO32
    {
      assert runs[i] in runs;
    }
    assert p[4..8] == p[4..][..4] == PutU32(|runs|);
    U32OfPut(p, 4, |runs|);
    assert p[8..] == p[4..][4..] == PutRuns(runs);
    RunsOfPut(p, runs);
    ExpandWrap(runs);
    ExpandRunLength(values);
  }

  // ── The tables of one track ─────────────────────────────────────────────────

  lemma TableTypes(samples: seq<Sample>, base: int)
    ensures SttsBox(samples).typ == STTS && CttsBox(samples).typ == CTTS && StssBox(samples).typ == STSS
    ensures StscBox(samples).typ == STSC && StszBox(samples).typ == STSZ && StcoBox(samples, base).typ == STCO
  {
    hide PutU32, PutRuns, PutWords, RunLength;
  }

  /** Looking a table up in the built list. */
  lemma Lookup(stsd: bytes, samples: seq<Sample>, isVideo: bool, base: int, typ: u32)
    ensures var kids := StblBoxes(stsd, samples, isVideo, base);
            First(kids, typ) ==
              if typ == STSD then Some(stsd)
              else if typ == STTS then Some(SttsBox(samples).payload)
              else if typ == CTTS then (if AnyOffset(samples) then Some(CttsBox(samples).payload) else None)
              else if typ == STSS then (if isVideo then Some(StssBox(samples).payload) else None)
              else if typ == STSC then Some(StscBox(samples).payload)
              else if typ == STSZ then Some(StszBox(samples).payload)
              else if typ == STCO then Some(StcoBox(samples, base).payload)
              else None
  {
    hide SttsBox, CttsBox, StssBox, StscBox, StszBox, StcoBox, AnyOffset, First;
    TableTypes(samples, base);
    var a, b := Box(STSD, stsd), SttsBox(samples);
    var c := if AnyOffset(samples) then [CttsBox(samples)] else [];
    var d := if isVideo then [StssBox(samples)] else [];
    var e := [StscBox(samples), StszBox(samples), StcoBox(samples, base)];
    FirstAppend([a, b] + c + d, e, typ);
    FirstAppend([a, b] + c, d, typ);
    FirstAppend([a, b], c, typ);
    FirstTwo(a, b, typ);
    FirstOne(CttsBox(samples), typ);
    FirstOne(StssBox(samples), typ);
    FirstThree(StscBox(samples), StszBox(samples), StcoBox(samples, base), typ);
  }

  predicate AllEncodable(samples: seq<Sample>) {
    |samples| < TWO32 && forall i | 0 <= i < |samples| :: samples[i].Encodable()
  }

  lemma StszRoundTrip(samples: seq<Sample>, stbl: bytes)
    requires AllEncodable(samples)
    requires First(SplitBoxes(stbl), STSZ) == Some(StszBox(samples).payload)
    ensures ParseStszSpec(stbl) == Ok(Sizes(samples))
  {
    hide U32, PutU32, PutWords, SplitBoxes, First, Words;
    var body := PutU32(0) + PutU32(|samples|) + PutWords(Sizes(samples));
    var p := StszBox(samples).payload;
    FullBoxFields(STSZ, 0, 0, body);
    assert p[4..8] == p[4..][..4] == PutU32(0);
    U32OfPut(p, 4, 0);
    assert p[8..12] == p[4..][4..8] == PutU32(|samples|);
    U32OfPut(p, 8, |samples|);
    assert p[12..12 + 4 * |samples|] == p[4..][8..] == PutWords(Sizes(samples));
    WordsOfPut(p, 12, Sizes(samples));
    if samples == [] {
      assert Sizes(samples) == [];
    }
  }

  lemma StcoRoundTrip(samples: seq<Sample>, base: int, stbl: bytes)
    requires |samples| < TWO32 && AreWords(ChunkOffsetsOf(samples, base))
    requires First(SplitBoxes(stbl), CO64) == None
    requires First(SplitBoxes(stbl), STCO) == Some(StcoBox(samples, base).payload)
    ensures ParseChunkOffsetsSpec(stbl) == Ok(ChunkOffsetsOf(samples, base))
  {
    hide U32, PutU32, PutWords, SplitBoxes, First, Words, ChunkOffsetsOf;
    var offs := ChunkOffsetsOf(samples, base);
    var body := PutU32(|samples|) + PutWords(offs);
    var p := StcoBox(samples, base).payload;
    FullBoxFields(STCO, 0, 0, body);
    assert p[4..8] == p[4..][..4] == PutU32(|samples|);
    U32OfPut(p, 4, |samples|);
    assert p[8..8 + 4 * |samples|] == p[4..][4..] == PutWords(offs);
    WordsOfPut(p, 8, offs);
  }

  /** One sample per chunk. */
  lemma StscRoundTrip(samples: seq<Sample>, stbl: bytes)
    requires samples != []
    requires First(SplitBoxes(stbl), STSC) == Some(StscBox(samples).payload)
    ensures ChunkSamplesSpec(stbl, |samples|) == Ok(Repeat(1, |samples|))
  {
    hide U32, PutU32, SplitBoxes, First;
    var n := |samples|;
    var body := PutU32(1) + PutU32(1) + PutU32(1) + PutU32(1);
    var p := StscBox(samples).payload;
    FullBoxFields(STSC, 0, 0, body);
    assert p[4..8] == p[4..][..4] == PutU32(1);
    U32OfPut(p, 4, 1);
    assert p[8..12] == p[4..][4..8] == PutU32(1);
    U32OfPut(p, 8, 1);
    assert p[12..16] == p[4..][8..12] == PutU32(1);
    U32OfPut(p, 12, 1);
    assert StscEntries(p, 1) == [StscEntry(1, 1)];
    var zeros := Repeat(0, n);
    assert SetRange(zeros, 1, n, 1).value == Repeat(1, n);
    assert ApplyEntries([StscEntry(1, 1)], 0, n, zeros) == Ok(Repeat(1, n));
  }

  lemma SttsRoundTrip(samples: seq<Sample>, stbl: bytes, timescale: u32)
    requires |samples| < TWO32
    requires First(SplitBoxes(stbl), STTS) == Some(SttsBox(samples).payload)
    ensures ParseSttsSpec(stbl, |samples|, timescale) == Ok(TimesOf(Durations(samples), |samples|, timescale))
  {
    hide U32, PutU32, PutRuns, SplitBoxes, First, TableRuns, RunLength, Expand, TimesOf;
    RunTableRoundTrip(STTS, 0, Durations(samples));
    assert WrapAll(Durations(samples)) == Durations(samples);
  }

  /** With or without the table, every sample gets its own composition offset back. */
  lemma CttsRoundTrip(samples: seq<Sample>, stbl: bytes, timescale: u32, i: nat)
    requires AllEncodable(samples) && i < |samples|
    requires First(SplitBoxes(stbl), CTTS) == if AnyOffset(samples) then Some(CttsBox(samples).payload) else None
    ensures var r := ParseCttsSpec(stbl, |samples|, timescale);
            && (r.Some? ==> |r.value| == |samples|)
            && (if r.Some? then r.value[i] else 0) == ToDuration(samples[i].ptsOff, timescale)
  {
    hide U32, PutU32, PutRuns, SplitBoxes, First, TableRuns, RunLength, Expand, ToDuration, Int32;
    if AnyOffset(samples) {
      RunTableRoundTrip(CTTS, 1, PtsOffsets(samples));
      SignedWord(samples[i].ptsOff);
    } else {
      assert samples[i].ptsOff == 0;
      ZeroDuration(timescale);
    }
  }

  lemma SignedWord(v: int)
    requires -TWO31 <= v < TWO31
    ensures Int32(v % TWO32) == v
  {
  }

  lemma ZeroDuration(timescale: u32)
    ensures ToDuration(0, timescale) == 0
  {
    if timescale > 0 {
      assert Int64(0) == 0;
      RemainderUnique(0, timescale, 0, 0);
    }
  }

  lemma {:induction false} KeyNumbersOf(samples: seq<Sample>, i: nat)
    requires i <= |samples|
    ensures forall x: int :: x in KeyNumbers(samples, i) <==> i < x <= |samples| && samples[x - 1].isKey
    ensures |KeyNumbers(samples, i)| <= |samples| - i
    decreases |samples| - i
  {
    if i < |samples| {
      KeyNumbersOf(samples, i + 1);
      var own := if samples[i].isKey then [i + 1] else [];
      var rest := KeyNumbers(samples, i + 1);
      forall x: int
        ensures x in KeyNumbers(samples, i) <==> i < x <= |samples| && samples[x - 1].isKey
      {
        assert x in own + rest <==> x in own || x in rest;
      }
    }
  }

  lemma StssRoundTrip(samples: seq<Sample>, stbl: bytes, isVideo: bool)
    requires |samples| < TWO32
    requires First(SplitBoxes(stbl), STSS) == if isVideo then Some(StssBox(samples).payload) else None
    ensures ParseStssSpec(stbl, |samples|, isVideo)
         == seq(|samples|, i requires 0 <= i < |samples| => isVideo && samples[i].isKey)
  {
    hide U32, PutU32, PutWords, SplitBoxes, First, Words, KeyNumbers;
    if isVideo {
      var keys := KeyNumbers(samples, 0);
      KeyNumbersOf(samples, 0);
      forall i | 0 <= i < |keys|
        ensures 0 <= keys[i] < TWO32
      {
        assert keys[i] in keys;
      }
      var body := PutU32(|keys|) + PutWords(keys);
      var p := StssBox(samples).payload;
      FullBoxFields(STSS, 0, 0, body);
      assert p[4..8] == p[4..][..4] == PutU32(|keys|);
      U32OfPut(p, 4, |keys|);
      assert p[8..8 + 4 * |keys|] == p[4..][4..] == PutWords(keys);
      WordsOfPut(p, 8, keys);
    }
  }

  // ── The whole table ─────────────────────────────────────────────────────────

  lemma {:induction false} OnePerChunk(offs: seq<int>, sizes: seq<int>, ci: nat)
    requires |offs| == |sizes| && ci <= |sizes|
    ensures Positions(Repeat(1, |sizes|), offs, sizes, ci, ci) == offs[ci..]
    decreases |sizes| - ci
  {
    if ci < |sizes| {
      OnePerChunk(offs, sizes, ci + 1);
      PositionsStep(Repeat(1, |sizes|), offs, sizes, ci, ci, ci + 1);
      assert sizes[ci..ci + 1] == [sizes[ci]];
      assert ChunkPositions([sizes[ci]], offs[ci]) == [offs[ci]];
    }
  }

  lemma {:induction false} ChunkOffsetAt(samples: seq<Sample>, base: int, i: nat)
    requires i < |samples|
    ensures ChunkOffsetsOf(samples, base)[i] == base + |DataOf(samples[..i])|
    ensures DataOf(samples[..i]) + samples[i].data <= DataOf(samples)
  {
    if i > 0 {
      ChunkOffsetAt(samples[1..], base + |samples[0].data|, i - 1);
      assert samples[..i][1..] == samples[1..][..i - 1];
    }
  }

  /** Sample i as the demuxer should know it. */
  function ExpectedEntry(streamIdx: nat, samples: seq<Sample>, isVideo: bool, base: int, timescale: u32, i: nat)
    : SampleEntry
    requires i < |samples|
  {
    SampleEntry(streamIdx,
                base + |DataOf(samples[..i])|,
                |samples[i].data|,
                ToDuration(Sum(Durations(samples)[..i]), timescale),
                ToDuration(samples[i].ptsOff, timescale),
                ToDuration(samples[i].duration, timescale),
                isVideo && samples[i].isKey)
  }

  function Expected(streamIdx: nat, samples: seq<Sample>, isVideo: bool, base: int, timescale: u32)
    : (r: seq<SampleEntry>)
    ensures |r| == |samples|
  {
    seq(|samples|, i requires 0 <= i < |samples| => ExpectedEntry(streamIdx, samples, isVideo, base, timescale, i))
  }

  lemma PlacedOffsets(samples: seq<Sample>, base: int)
    requires 0 <= base && base + |DataOf(samples)| < TWO32
    ensures AreWords(ChunkOffsetsOf(samples, base))
  {
    forall i | 0 <= i < |samples|
      ensures 0 <= ChunkOffsetsOf(samples, base)[i] < TWO32
    {
      ChunkOffsetAt(samples, base, i);
    }
  }

  /** All tables at once, given that each is found in the stbl payload. */
  lemma TablesRoundTrip(stsd: bytes, samples: seq<Sample>, isVideo: bool, base: int, timescale: u32, streamIdx: nat,
                        stbl: bytes)
    requires AllEncodable(samples)
    requires 0 <= base && base + |DataOf(samples)| < TWO32
    requires SplitBoxes(stbl) == StblBoxes(stsd, samples, isVideo, base)
    ensures ParseSampleTableSpec(stbl, timescale, streamIdx, isVideo)
         == Ok(Expected(streamIdx, samples, isVideo, base, timescale))
  {
    hide SplitBoxes, First, StblBoxes, ParseStszSpec, ParseChunkOffsetsSpec, ChunkSamplesSpec, ParseSttsSpec,
      ParseCttsSpec, ParseStssSpec, Positions, SttsBox, CttsBox, StssBox, StscBox, StszBox, StcoBox, AnyOffset,
      ToDuration, Sum, DataOf, ChunkOffsetsOf, AreWords;
    Lookup(stsd, samples, isVideo, base, STSZ);
    StszRoundTrip(samples, stbl);
    var n, sizes, offs := |samples|, Sizes(samples), ChunkOffsetsOf(samples, base);
    if n == 0 {
      assert Expected(streamIdx, samples, isVideo, base, timescale) == [];
    } else {
      Lookup(stsd, samples, isVideo, base, CO64);
      Lookup(stsd, samples, isVideo, base, STCO);
      PlacedOffsets(samples, base);
      StcoRoundTrip(samples, base, stbl);
      Lookup(stsd, samples, isVideo, base, STSC);
      StscRoundTrip(samples, stbl);
      Lookup(stsd, samples, isVideo, base, STTS);
      SttsRoundTrip(samples, stbl, timescale);
      Lookup(stsd, samples, isVideo, base, STSS);
      StssRoundTrip(samples, stbl, isVideo);
      OnePerChunk(offs, sizes, 0);
      Lookup(stsd, samples, isVideo, base, CTTS);
      CttsLength(stbl, n, timescale);
      var got := Entries(streamIdx, offs, sizes, TimesOf(Durations(samples), n, timescale),
                         ParseCttsSpec(stbl, n, timescale), ParseStssSpec(stbl, n, isVideo));
      assert offs[0..] == offs;
      assert ParseSampleTableSpec(stbl, timescale, streamIdx, isVideo) == Ok(got);
      forall i | 0 <= i < n
        ensures got[i] == ExpectedEntry(streamIdx, samples, isVideo, base, timescale, i)
      {
        ChunkOffsetAt(samples, base, i);
        CttsRoundTrip(samples, stbl, timescale, i);
      }
      assert got == Expected(streamIdx, samples, isVideo, base, timescale);
    }
  }
}
