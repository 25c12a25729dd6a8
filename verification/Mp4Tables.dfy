/**
  The sample tables of a regular MP4 track (sections 8.6 and 8.7 of ISO/IEC 14496-12): the
  run-length tables the muxer builds and the parsers that expand them again.
 */
module Mp4Tables {
  import opened Bytes
  import opened Wrappers
  import opened Boxes
  import opened Ticks

  const STTS: u32 := 0x7374_7473
  const CTTS: u32 := 0x6374_7473
  const STSS: u32 := 0x7374_7373
  const STSC: u32 := 0x7374_7363
  const STSZ: u32 := 0x7374_737A
  const STCO: u32 := 0x7374_636F
  const CO64: u32 := 0x636F_3634
  const STSD: u32 := 0x7374_7364

  /** A buffered sample; duration and composition offset in track ticks. */
  datatype Sample = Sample(isKey: bool, duration: u32, ptsOff: int, data: bytes) {
    predicate Encodable() { |data| < TWO32 && -TWO31 <= ptsOff < TWO31 }
  }

  /** `IndexPanic` stands for the run-time panic of an out-of-range slice index. */
  datatype Error = Malformed | NoMoovBox | UnexpectedEOF | EndOfStream | UnsupportedCodec | IndexPanic

  // ── Run-length tables ───────────────────────────────────────────────────────

  datatype Run = Run(count: nat, value: int)

  function Repeat(v: int, n: nat): (r: seq<int>)
    ensures |r| == n
  {
    seq(n, _ => v)
  }

  /** The values a run-length table stands for. */
  function Expand(runs: seq<Run>): seq<int> {
    if runs == [] then [] else Expand(runs[..|runs| - 1]) + Repeat(runs[|runs| - 1].value, runs[|runs| - 1].count)
  }

  /** One more value: the last run grows, or a new run starts. */
  function Bump(runs: seq<Run>, v: int): seq<Run> {
    var n := |runs|;
    if n > 0 && runs[n - 1].value == v then runs[n - 1 := Run(runs[n - 1].count + 1, v)] else runs + [Run(1, v)]
  }

  function RunLength(values: seq<int>): seq<Run> {
    if values == [] then [] else Bump(RunLength(values[..|values| - 1]), values[|values| - 1])
  }

  lemma ExpandBump(runs: seq<Run>, v: int)
    ensures Expand(Bump(runs, v)) == Expand(runs) + [v]
  {
    var n := |runs|;
    if n > 0 && runs[n - 1].value == v {
      var c := runs[n - 1].count;
      var grown := Bump(runs, v);
      assert grown[..n - 1] == runs[..n - 1];
      assert Repeat(v, c + 1) == Repeat(v, c) + [v];
      assert Expand(grown) == Expand(runs[..n - 1]) + (Repeat(v, c) + [v]);
    } else {
      assert (runs + [Run(1, v)])[..n] == runs;
      assert Repeat(v, 1) == [v];
    }
  }

  /** Run-length encoding loses nothing. */
  lemma {:induction false} ExpandRunLength(values: seq<int>)
    ensures Expand(RunLength(values)) == values
  {
    hide Bump, Repeat;
    if values != [] {
      var n := |values| - 1;
      ExpandRunLength(values[..n]);
      ExpandBump(RunLength(values[..n]), values[n]);
      assert values == values[..n] + [values[n]];
    }
  }

  /** The runs are as few as possible: neighbours differ, none is empty, and counts add up. */
  lemma {:induction false} RunLengthCanonical(values: seq<int>)
    ensures var runs := RunLength(values);
            && |runs| <= |values|
            && (forall r <- runs :: 0 < r.count <= |values| && r.value in values)
            && (forall i | 0 < i < |runs| :: runs[i].value != runs[i - 1].value)
  {
    if values != [] {
      var n := |values| - 1;
      RunLengthCanonical(values[..n]);
      var prev := RunLength(values[..n]);
      forall r <- Bump(prev, values[n])
        ensures 0 < r.count <= |values| && r.value in values
      {
        if r in prev {
          assert r.value in values[..n];
        }
      }
    }
  }

  /** The encoding loops of `buildStts` and `buildCtts`: the last run is bumped in place. */
  method EncodeRuns(values: seq<int>) returns (runs: seq<Run>)
    ensures runs == RunLength(values)
  {
    runs := [];
    for i := 0 to |values|
      invariant runs == RunLength(values[..i])
    {
      var n := |runs|;
      if n > 0 && runs[n - 1].value == values[i] {
        runs := runs[n - 1 := runs[n - 1].(count := runs[n - 1].count + 1)];
      } else {
        runs := runs + [Run(1, values[i])];
      }
      assert values[..i + 1][..i] == values[..i];
    }
    assert values[..|values|] == values;
  }

  function PutRuns(runs: seq<Run>): (b: bytes)
    ensures |b| == 8 * |runs|
  {
    if runs == [] then [] else PutU32(runs[0].count) + PutU32(runs[0].value) + PutRuns(runs[1..])
  }

  function PutWords(words: seq<int>): (b: bytes)
    ensures |b| == 4 * |words|
  {
    if words == [] then [] else PutU32(words[0]) + PutWords(words[1..])
  }

  // ── Builders ────────────────────────────────────────────────────────────────

  function Durations(samples: seq<Sample>): (r: seq<int>)
    ensures |r| == |samples|
  {
    seq(|samples|, i requires 0 <= i < |samples| => samples[i].duration)
  }

  function PtsOffsets(samples: seq<Sample>): (r: seq<int>)
    ensures |r| == |samples|
  {
    seq(|samples|, i requires 0 <= i < |samples| => samples[i].ptsOff)
  }

  function Sizes(samples: seq<Sample>): (r: seq<int>)
    ensures |r| == |samples|
  {
    seq(|samples|, i requires 0 <= i < |samples| => |samples[i].data|)
  }

  function SttsBox(samples: seq<Sample>): Box {
    var runs := RunLength(Durations(samples));
    FullBox(STTS, 0, 0, PutU32(|runs|) + PutRuns(runs))
  }

  predicate AnyOffset(samples: seq<Sample>) {
    exists i | 0 <= i < |samples| :: samples[i].ptsOff != 0
  }

  function CttsBox(samples: seq<Sample>): Box {
    var runs := RunLength(PtsOffsets(samples));
    FullBox(CTTS, 1, 0, PutU32(|runs|) + PutRuns(runs))
  }

  /** One-based numbers of the sync samples from sample i on. */
  function KeyNumbers(samples: seq<Sample>, i: nat): seq<int>
    requires i <= |samples|
    decreases |samples| - i
  {
    if i == |samples| then []
    else (if samples[i].isKey then [i + 1] else []) + KeyNumbers(samples, i + 1)
  }

  function StssBox(samples: seq<Sample>): Box {
    var keys := KeyNumbers(samples, 0);
    FullBox(STSS, 0, 0, PutU32(|keys|) + PutWords(keys))
  }

  function StscBox(samples: seq<Sample>): Box {
    FullBox(STSC, 0, 0, if samples != [] then PutU32(1) + PutU32(1) + PutU32(1) + PutU32(1) else PutU32(0))
  }

  function StszBox(samples: seq<Sample>): Box {
    FullBox(STSZ, 0, 0, PutU32(0) + PutU32(|samples|) + PutWords(Sizes(samples)))
  }

  function DataOf(samples: seq<Sample>): bytes {
    if samples == [] then [] else samples[0].data + DataOf(samples[1..])
  }

  /** One chunk per sample: each chunk offset is the file offset of a sample. */
  function ChunkOffsetsOf(samples: seq<Sample>, base: int): (r: seq<int>)
    ensures |r| == |samples|
  {
    if samples == [] then [] else [base] + ChunkOffsetsOf(samples[1..], base + |samples[0].data|)
  }

  function StcoBox(samples: seq<Sample>, base: int): Box {
    FullBox(STCO, 0, 0, PutU32(|samples|) + PutWords(ChunkOffsetsOf(samples, base)))
  }

  /** The children of a built stbl box; the sample description is opaque. */
  function StblBoxes(stsd: bytes, samples: seq<Sample>, isVideo: bool, base: int): seq<Box> {
    [Box(STSD, stsd), SttsBox(samples)]
    + (if AnyOffset(samples) then [CttsBox(samples)] else [])
    + (if isVideo then [StssBox(samples)] else [])
    + [StscBox(samples), StszBox(samples), StcoBox(samples, base)]
  }

  // ── Parsers ─────────────────────────────────────────────────────────────────

  /** n consecutive 32-bit words. */
  function Words(p: bytes, off: nat, n: nat): (r: seq<int>)
    requires off + 4 * n <= |p|
    ensures |r| == n
  {
    seq(n, i requires 0 <= i < n => U32(p, off + 4 * i))
  }

  /** n consecutive signed 64-bit words. */
  function LongWords(p: bytes, off: nat, n: nat): (r: seq<int>)
    requires off + 8 * n <= |p|
    ensures |r| == n
  {
    seq(n, i requires 0 <= i < n => Int64(U64(p, off + 8 * i)))
  }

  function ParseStszSpec(stbl: bytes): Result<seq<int>, Error> {
    match First(SplitBoxes(stbl), STSZ)
    case None => Err(Malformed)
    case Some(p) =>
      if |p| < 12 then Err(Malformed)
      else
        var count := U32(p, 8);
        if count == 0 then Ok([])
        else if U32(p, 4) != 0 then Ok(Repeat(U32(p, 4), count))
        else if |p| < 12 + count * 4 then Err(Malformed)
        else Ok(Words(p, 12, count))
  }

  /** `parseStsz`. */
  method ParseStsz(stbl: bytes) returns (r: Result<seq<int>, Error>)
    ensures r == ParseStszSpec(stbl)
  {
    hide SplitBoxes, First, U32;
    var box := FindBox(stbl, STSZ);
    if box.None? {
      return Err(Malformed);
    }
    var p := box.value;
    if |p| < 12 {
      return Err(Malformed);
    }
    var constant, count := U32(p, 4), U32(p, 8);
    if count == 0 {
      return Ok([]);
    }
    var sizes := new int[count](_ => 0);
    if constant != 0 {
      for i := 0 to count
        invariant forall k | 0 <= k < i :: sizes[k] == constant
      {
        sizes[i] := constant;
      }
      assert sizes[..] == Repeat(constant, count);
    } else {
      if |p| < 12 + count * 4 {
        return Err(Malformed);
      }
      for i := 0 to count
        invariant forall k | 0 <= k < i :: sizes[k] == U32(p, 12 + 4 * k)
      {
        sizes[i] := U32(p, 12 + 4 * i);
      }
      assert sizes[..] == Words(p, 12, count);
    }
    return Ok(sizes[..]);
  }

  function ParseChunkOffsetsSpec(stbl: bytes): Result<seq<int>, Error> {
    match First(SplitBoxes(stbl), CO64)
    case Some(p) =>
      if |p| < 8 || |p| < 8 + U32(p, 4) * 8 then Err(Malformed)
      else Ok(LongWords(p, 8, U32(p, 4)))
    case None =>
      match First(SplitBoxes(stbl), STCO)
      case None => Err(Malformed)
      case Some(p) =>
        if |p| < 8 || |p| < 8 + U32(p, 4) * 4 then Err(Malformed)
        else Ok(Words(p, 8, U32(p, 4)))
  }

  /** `parseChunkOffsets`. */
  method ParseChunkOffsets(stbl: bytes) returns (r: Result<seq<int>, Error>)
    ensures r == ParseChunkOffsetsSpec(stbl)
  {
    hide SplitBoxes, First, U32, U64, Int64;
    var box := FindBox(stbl, CO64);
    if box.Some? {
      var p := box.value;
      if |p| < 8 {
        return Err(Malformed);
      }
      var count := U32(p, 4);
      if |p| < 8 + count * 8 {
        return Err(Malformed);
      }
      var offsets := new int[count](_ => 0);
      for i := 0 to count
        invariant forall k | 0 <= k < i :: offsets[k] == Int64(U64(p, 8 + 8 * k))
      {
        offsets[i] := Int64(U64(p, 8 + 8 * i));
      }
      assert offsets[..] == LongWords(p, 8, count);
      return Ok(offsets[..]);
    }
    box := FindBox(stbl, STCO);
    if box.None? {
      return Err(Malformed);
    }
    var p := box.value;
    if |p| < 8 {
      return Err(Malformed);
    }
    var count := U32(p, 4);
    if |p| < 8 + count * 4 {
      return Err(Malformed);
    }
    var offsets := new int[count](_ => 0);
    for i := 0 to count
      invariant forall k | 0 <= k < i :: offsets[k] == U32(p, 8 + 4 * k)
    {
      offsets[i] := U32(p, 8 + 4 * i);
    }
    assert offsets[..] == Words(p, 8, count);
    return Ok(offsets[..]);
  }

  datatype StscEntry = StscEntry(firstChunk: nat, samplesPerChunk: nat)

  function StscEntries(p: bytes, n: nat): (r: seq<StscEntry>)
    requires 8 + 12 * n <= |p|
    ensures |r| == n
  {
    seq(n, i requires 0 <= i < n => StscEntry(U32(p, 8 + 12 * i), U32(p, 12 + 12 * i)))
  }

  /** The last chunk entry ei speaks for. */
  function LastChunk(entries: seq<StscEntry>, ei: nat, numChunks: nat): int
    requires ei < |entries|
  {
    if ei + 1 < |entries| then entries[ei + 1].firstChunk - 1 else numChunks
  }

  /** Chunks lo, …, hi (one-based, clipped to the table) get v samples; chunk number 0 does not exist. */
  function SetRange(table: seq<int>, lo: nat, hi: int, v: int): Result<seq<int>, Error> {
    if lo == 0 && hi >= 0 then Err(IndexPanic)
    else Ok(seq(|table|, c requires 0 <= c < |table| => if lo - 1 <= c < hi then v else table[c]))
  }

  function ApplyEntries(entries: seq<StscEntry>, ei: nat, numChunks: nat, table: seq<int>): Result<seq<int>, Error>
    requires ei <= |entries|
    decreases |entries| - ei
  {
    if ei == |entries| then Ok(table)
    else
      var next :- SetRange(table, entries[ei].firstChunk, LastChunk(entries, ei, numChunks),
                           entries[ei].samplesPerChunk);
      ApplyEntries(entries, ei + 1, numChunks, next)
  }

  function ChunkSamplesSpec(stbl: bytes, numChunks: nat): Result<seq<int>, Error> {
    match First(SplitBoxes(stbl), STSC)
    case None => Err(Malformed)
    case Some(p) =>
      if |p| < 8 || |p| < 8 + U32(p, 4) * 12 then Err(Malformed)
      else ApplyEntries(StscEntries(p, U32(p, 4)), 0, numChunks, Repeat(0, numChunks))
  }

  /** The inner loop of `buildChunkSamplesMap`. */
  method FillChunks(table: array<int>, e: StscEntry, last: int) returns (r: Result<(), Error>)
    modifies table
    ensures match SetRange(old(table[..]), e.firstChunk, last, e.samplesPerChunk)
            case Ok(t) => r.Ok? && table[..] == t
            case Err(err) => r == Err(err)
  {
    var c := e.firstChunk;
    while c <= last && c <= table.Length
      invariant e.firstChunk <= c
      invariant e.firstChunk == 0 ==> c == 0
      invariant forall k | 0 <= k < table.Length ::
                  table[k] == if e.firstChunk - 1 <= k < c - 1 && k < last then e.samplesPerChunk else old(table[k])
      decreases table.Length - c
    {
      if c == 0 {
        return Err(IndexPanic);
      }
      table[c - 1] := e.samplesPerChunk;
      c := c + 1;
    }
    return Ok(());
  }

  /** `buildChunkSamplesMap`. */
  method BuildChunkSamplesMap(stbl: bytes, numChunks: nat) returns (r: Result<seq<int>, Error>)
    ensures r == ChunkSamplesSpec(stbl, numChunks)
  {
    hide SplitBoxes, First, U32, SetRange;
    var box := FindBox(stbl, STSC);
    if box.None? {
      return Err(Malformed);
    }
    var p := box.value;
    if |p| < 8 {
      return Err(Malformed);
    }
    var n := U32(p, 4);
    if |p| < 8 + n * 12 {
      return Err(Malformed);
    }
    var entries := StscEntries(p, n);
    var table := new int[numChunks](_ => 0);
    assert table[..] == Repeat(0, numChunks);
    for ei := 0 to n
      invariant ApplyEntries(entries, 0, numChunks, Repeat(0, numChunks))
             == ApplyEntries(entries, ei, numChunks, table[..])
    {
      var last := if ei + 1 < n then entries[ei + 1].firstChunk - 1 else numChunks;
      var filled := FillChunks(table, entries[ei], last);
      if filled.Err? {
        return Err(filled.error);
      }
    }
    return Ok(table[..]);
  }

  // ── Times ───────────────────────────────────────────────────────────────────

  function Sum(values: seq<int>): int {
    if values == [] then 0 else Sum(values[..|values| - 1]) + values[|values| - 1]
  }

  /** The runs of a table of n entries. */
  function ReadRuns(p: bytes, n: nat): (r: seq<Run>)
    requires 8 + 8 * n <= |p|
    ensures |r| == n
  {
    seq(n, i requires 0 <= i < n => Run(U32(p, 8 + 8 * i), U32(p, 12 + 8 * i)))
  }

  function TableRuns(p: bytes): Result<seq<Run>, Error> {
    if |p| < 8 || |p| < 8 + U32(p, 4) * 8 then Err(Malformed) else Ok(ReadRuns(p, U32(p, 4)))
  }

  datatype Times = Times(dts: seq<int>, durations: seq<int>)

  /** n samples: durations in table order, decode times their running sum, zero past the table's end. */
  function TimesOf(deltas: seq<int>, n: nat, timescale: u32): Times {
    Times(seq(n, i requires 0 <= i < n => if i < |deltas| then ToDuration(Sum(deltas[..i]), timescale) else 0),
          seq(n, i requires 0 <= i < n => if i < |deltas| then ToDuration(deltas[i], timescale) else 0))
  }

  function ParseSttsSpec(stbl: bytes, n: nat, timescale: u32): Result<Times, Error> {
    match First(SplitBoxes(stbl), STTS)
    case None => Err(Malformed)
    case Some(p) =>
      var runs :- TableRuns(p);
      Ok(TimesOf(Expand(runs), n, timescale))
  }

  lemma {:induction false} ExpandPrefix(runs: seq<Run>, i: nat)
    requires i <= |runs|
    ensures Expand(runs[..i]) <= Expand(runs)
    decreases |runs| - i
  {
    if i < |runs| {
      ExpandPrefix(runs, i + 1);
      assert runs[..i + 1][..i] == runs[..i];
    } else {
      assert runs[..i] == runs;
    }
  }

  /** Within run i, value number |Expand(runs[..i])| + j of the table is the run's own. */
  lemma ExpandAt(runs: seq<Run>, i: nat, j: nat)
    requires i < |runs| && j < runs[i].count
    ensures |Expand(runs[..i])| + j < |Expand(runs)|
    ensures Expand(runs)[|Expand(runs[..i])| + j] == runs[i].value
  {
    ExpandPrefix(runs, i + 1);
    assert runs[..i + 1][..i] == runs[..i];
  }

  /** The inner loop of `parseStts`: the samples of one run. */
  method FillTimes(dtss: array<int>, durs: array<int>, run: Run, start: nat, startDTS: int, timescale: u32)
    returns (si: nat, dts: int)
    requires dtss != durs && dtss.Length == durs.Length && start <= dtss.Length
    modifies dtss, durs
    ensures si == if start + run.count <= dtss.Length then start + run.count else dtss.Length
    ensures dts == startDTS + (si - start) * run.value
    ensures forall k | start <= k < si ::
              && dtss[k] == ToDuration(startDTS + (k - start) * run.value, timescale)
              && durs[k] == ToDuration(run.value, timescale)
    ensures forall k | 0 <= k < dtss.Length && !(start <= k < si) :: dtss[k] == old(dtss[k]) && durs[k] == old(durs[k])
  {
    hide ToDuration;
    si, dts := start, startDTS;
    var j := 0;
    while j < run.count && si < dtss.Length
      invariant j <= run.count && si == start + j <= dtss.Length
      invariant dts == startDTS + j * run.value
      invariant forall k | start <= k < si ::
                  && dtss[k] == ToDuration(startDTS + (k - start) * run.value, timescale)
                  && durs[k] == ToDuration(run.value, timescale)
      invariant forall k | 0 <= k < dtss.Length && !(start <= k < si) ::
                  dtss[k] == old(dtss[k]) && durs[k] == old(durs[k])
    {
      dtss[si] := ToDuration(dts, timescale);
      durs[si] := ToDuration(run.value, timescale);
      dts := dts + run.value;
      si := si + 1;
      j := j + 1;
    }
  }

  lemma {:induction false} SumAppend(a: seq<int>, b: seq<int>)
    ensures Sum(a + b) == Sum(a) + Sum(b)
    decreases |b|
  {
    if b == [] {
      assert a + b == a;
    } else {
      var n := |b| - 1;
      assert (a + b)[..|a| + n] == a + b[..n];
      SumAppend(a, b[..n]);
    }
  }

  lemma {:induction false} SumRepeat(v: int, n: nat)
    ensures Sum(Repeat(v, n)) == n * v
  {
    if n > 0 {
      assert Repeat(v, n)[..n - 1] == Repeat(v, n - 1);
      SumRepeat(v, n - 1);
    }
  }

  /** The running sum inside run i. */
  lemma SumAt(runs: seq<Run>, i: nat, j: nat)
    requires i < |runs| && j <= runs[i].count
    ensures |Expand(runs[..i])| + j <= |Expand(runs)|
    ensures Sum(Expand(runs)[..|Expand(runs[..i])| + j]) == Sum(Expand(runs[..i])) + j * runs[i].value
  {
    hide Sum;
    var before := Expand(runs[..i]);
    ExpandPrefix(runs, i + 1);
    assert runs[..i + 1][..i] == runs[..i];
    assert Expand(runs[..i + 1]) == before + Repeat(runs[i].value, runs[i].count);
    assert Expand(runs)[..|before| + j] == before + Repeat(runs[i].value, j);
    SumAppend(before, Repeat(runs[i].value, j));
    SumRepeat(runs[i].value, j);
  }

  /** The first `si` cells hold the table's values, the rest are still zero. */
  ghost predicate FilledTo(dtss: seq<int>, durs: seq<int>, deltas: seq<int>, timescale: u32, si: nat) {
    && |dtss| == |durs| && si <= |dtss| && si <= |deltas|
    && (forall k | 0 <= k < si ::
          && dtss[k] == ToDuration(Sum(deltas[..k]), timescale)
          && durs[k] == ToDuration(deltas[k], timescale))
    && (forall k | si <= k < |dtss| :: dtss[k] == 0 && durs[k] == 0)
  }

  lemma FilledIsTimesOf(dtss: seq<int>, durs: seq<int>, deltas: seq<int>, timescale: u32, si: nat)
    requires FilledTo(dtss, durs, deltas, timescale, si)
    requires si == |dtss| || si == |deltas|
    ensures Times(dtss, durs) == TimesOf(deltas, |dtss|, timescale)
  {
    hide ToDuration, Sum;
    var t := TimesOf(deltas, |dtss|, timescale);
    assert dtss == t.dts && durs == t.durations;
  }

  /** `parseStts`. */
  method ParseStts(stbl: bytes, n: nat, timescale: u32) returns (r: Result<Times, Error>)
    ensures r == ParseSttsSpec(stbl, n, timescale)
  {
    hide SplitBoxes, First, U32, ToDuration, Sum, TimesOf;
    var box := FindBox(stbl, STTS);
    if box.None? {
      return Err(Malformed);
    }
    var p := box.value;
    if |p| < 8 {
      return Err(Malformed);
    }
    var count := U32(p, 4);
    if |p| < 8 + count * 8 {
      return Err(Malformed);
    }
    var times := ExpandTimes(ReadRuns(p, count), n, timescale);
    return Ok(times);
  }

  /** One run further: what `FillTimes` does to the two arrays extends the filled part. */
  lemma FillStep(runs: seq<Run>, i: nat, timescale: u32, d0: seq<int>, u0: seq<int>, d1: seq<int>, u1: seq<int>,
                 start: nat, si: nat)
    requires i < |runs| && start == |Expand(runs[..i])|
    requires FilledTo(d0, u0, Expand(runs), timescale, start) && |u0| == |d0|
    requires |d1| == |u1| == |d0| && start <= si <= |d0| && si - start <= runs[i].count
    requires forall k | start <= k < si ::
               && d1[k] == ToDuration(Sum(Expand(runs)[..start]) + (k - start) * runs[i].value, timescale)
               && u1[k] == ToDuration(runs[i].value, timescale)
    requires forall k | 0 <= k < |d0| && !(start <= k < si) :: d1[k] == d0[k] && u1[k] == u0[k]
    ensures FilledTo(d1, u1, Expand(runs), timescale, si)
    ensures Sum(Expand(runs)[..si]) == Sum(Expand(runs)[..start]) + (si - start) * runs[i].value
  {
    hide ToDuration, Sum, Expand, FilledTo;
    ExpandPrefix(runs, i);
    SumAt(runs, i, si - start);
    SumAt(runs, i, 0);
    forall k | start <= k < si
      ensures k < |Expand(runs)|
      ensures d1[k] == ToDuration(Sum(Expand(runs)[..k]), timescale) && u1[k] == ToDuration(Expand(runs)[k], timescale)
    {
      SumAt(runs, i, k - start);
      ExpandAt(runs, i, k - start);
    }
    MergeFilled(Expand(runs), timescale, d0, u0, d1, u1, start, si);
  }

  /** The cells before a newly filled window keep their values, those behind it are still zero. */
  lemma MergeFilled(deltas: seq<int>, timescale: u32, d0: seq<int>, u0: seq<int>, d1: seq<int>, u1: seq<int>,
                    start: nat, si: nat)
    requires FilledTo(d0, u0, deltas, timescale, start)
    requires |d1| == |u1| == |d0| && start <= si <= |d0| && si <= |deltas|
    requires forall k | start <= k < si ::
               d1[k] == ToDuration(Sum(deltas[..k]), timescale) && u1[k] == ToDuration(deltas[k], timescale)
    requires forall k | 0 <= k < |d0| && !(start <= k < si) :: d1[k] == d0[k] && u1[k] == u0[k]
    ensures FilledTo(d1, u1, deltas, timescale, si)
  {
    hide ToDuration, Sum;
  }

  /** The table loop of `parseStts`. */
  method ExpandTimes(runs: seq<Run>, n: nat, timescale: u32) returns (r: Times)
    ensures r == TimesOf(Expand(runs), n, timescale)
  {
    hide ToDuration, Sum, TimesOf, Expand, FilledTo;
    var dtss, durs := new int[n](_ => 0), new int[n](_ => 0);
    var si: nat, dts, i: nat := 0, 0, 0;
    ghost var deltas := Expand(runs);
    StartTimes(dtss[..], durs[..], runs, timescale);
    while i < |runs| && si < n
      invariant i <= |runs| && si <= n
      invariant si == if |Expand(runs[..i])| <= n then |Expand(runs[..i])| else n
      invariant FilledTo(dtss[..], durs[..], deltas, timescale, si)
      invariant si <= |deltas| && dts == Sum(deltas[..si])
    {
      ghost var start, d0, u0 := si, dtss[..], durs[..];
      ExpandedLength(runs, i);
      si, dts := FillTimes(dtss, durs, runs[i], si, dts, timescale);
      FillStep(runs, i, timescale, d0, u0, dtss[..], durs[..], start, si);
      FilledBound(dtss[..], durs[..], deltas, timescale, si);
      i := i + 1;
    }
    if i == |runs| {
      assert runs[..i] == runs;
    }
    FilledIsTimesOf(dtss[..], durs[..], deltas, timescale, si);
    return Times(dtss[..], durs[..]);
  }

  lemma EmptySums()
    ensures Expand([]) == [] && Sum([]) == 0
  {
  }

  lemma FilledBound(dtss: seq<int>, durs: seq<int>, deltas: seq<int>, timescale: u32, si: nat)
    requires FilledTo(dtss, durs, deltas, timescale, si)
    ensures si <= |deltas|
  {
  }

  lemma ExpandedLength(runs: seq<Run>, i: nat)
    requires i < |runs|
    ensures |Expand(runs[..i + 1])| == |Expand(runs[..i])| + runs[i].count
  {
    assert runs[..i + 1][..i] == runs[..i];
  }

  lemma StartTimes(dtss: seq<int>, durs: seq<int>, runs: seq<Run>, timescale: u32)
    requires |dtss| == |durs| && forall k | 0 <= k < |dtss| :: dtss[k] == 0 && durs[k] == 0
    ensures |Expand(runs[..0])| == 0 && Sum(Expand(runs)[..0]) == 0
    ensures FilledTo(dtss, durs, Expand(runs), timescale, 0)
  {
  }

  // ── Composition offsets and sync samples ────────────────────────────────────

  /** Composition offsets are read as signed words. */
  function OffsetTable(words: seq<int>, n: nat, timescale: u32): (r: seq<int>)
    ensures |r| == n
  {
    seq(n, i requires 0 <= i < n => if i < |words| then ToDuration(Int32(words[i]), timescale) else 0)
  }

  /** A missing or malformed table gives no offsets. */
  function ParseCttsSpec(stbl: bytes, n: nat, timescale: u32): Option<seq<int>> {
    match First(SplitBoxes(stbl), CTTS)
    case None => None
    case Some(p) =>
      match TableRuns(p)
      case Err(_) => None
      case Ok(runs) => Some(OffsetTable(Expand(runs), n, timescale))
  }

  /** The inner loop of `parseCtts`. */
  method FillRun(cells: array<int>, v: int, count: nat, start: nat) returns (si: nat)
    requires start <= cells.Length
    modifies cells
    ensures si == if start + count <= cells.Length then start + count else cells.Length
    ensures forall k | 0 <= k < cells.Length :: cells[k] == if start <= k < si then v else old(cells[k])
  {
    si := start;
    var j := 0;
    while j < count && si < cells.Length
      invariant j <= count && si == start + j <= cells.Length
      invariant forall k | 0 <= k < cells.Length :: cells[k] == if start <= k < si then v else old(cells[k])
    {
      cells[si] := v;
      si := si + 1;
      j := j + 1;
    }
  }

  /** `parseCtts`. */
  method ParseCtts(stbl: bytes, n: nat, timescale: u32) returns (r: Option<seq<int>>)
    ensures r == ParseCttsSpec(stbl, n, timescale)
  {
    hide SplitBoxes, First, U32, OffsetTable, Expand;
    var box := FindBox(stbl, CTTS);
    if box.None? {
      return None;
    }
    var p := box.value;
    if |p| < 8 {
      return None;
    }
    var count := U32(p, 4);
    if |p| < 8 + count * 8 {
      return None;
    }
    var offsets := ExpandOffsets(ReadRuns(p, count), n, timescale);
    return Some(offsets);
  }

  /** The table loop of `parseCtts`. */
  method ExpandOffsets(runs: seq<Run>, n: nat, timescale: u32) returns (r: seq<int>)
    ensures r == OffsetTable(Expand(runs), n, timescale)
  {
    hide ToDuration, Int32, Expand;
    var cells := new int[n](_ => 0);
    var si: nat, i: nat := 0, 0;
    ghost var goal := OffsetTable(Expand(runs), n, timescale);
    assert |Expand(runs[..0])| == 0 by { assert runs[..0] == []; EmptySums(); }
    while i < |runs| && si < n
      invariant i <= |runs|
      invariant si == if |Expand(runs[..i])| <= n then |Expand(runs[..i])| else n
      invariant forall k | 0 <= k < si :: cells[k] == goal[k]
      invariant forall k | si <= k < n :: cells[k] == 0
    {
      ghost var start := si;
      ExpandedLength(runs, i);
      si := FillRun(cells, ToDuration(Int32(runs[i].value), timescale), runs[i].count, si);
      forall k | start <= k < si
        ensures cells[k] == goal[k]
      {
        ExpandAt(runs, i, k - start);
      }
      i := i + 1;
    }
    if i == |runs| {
      assert runs[..i] == runs;
    }
    assert cells[..] == goal;
    return cells[..];
  }

  function KeyTable(numbers: seq<int>, n: nat): (r: seq<bool>)
    ensures |r| == n
  {
    seq(n, i requires 0 <= i < n => i + 1 in numbers)
  }

  function AllKeys(key: bool, n: nat): (r: seq<bool>)
    ensures |r| == n
  {
    seq(n, _ => key)
  }

  /** Audio has no sync samples; video without a readable table has nothing else. */
  function ParseStssSpec(stbl: bytes, n: nat, isVideo: bool): (r: seq<bool>)
    ensures |r| == n
  {
    if !isVideo then AllKeys(false, n)
    else
      match First(SplitBoxes(stbl), STSS)
      case None => AllKeys(true, n)
      case Some(p) =>
        if |p| < 8 || |p| < 8 + U32(p, 4) * 4 then AllKeys(true, n)
        else KeyTable(Words(p, 8, U32(p, 4)), n)
  }

  /** `parseStss`. */
  method ParseStss(stbl: bytes, n: nat, isVideo: bool) returns (r: seq<bool>)
    ensures r == ParseStssSpec(stbl, n, isVideo)
  {
    hide SplitBoxes, First, U32;
    if !isVideo {
      return AllKeys(false, n);
    }
    var box := FindBox(stbl, STSS);
    if box.None? || |box.value| < 8 {
      return AllKeys(true, n);
    }
    var p := box.value;
    var count := U32(p, 4);
    if |p| < 8 + count * 4 {
      return AllKeys(true, n);
    }
    var words := Words(p, 8, count);
    var keys := new bool[n](_ => false);
    for i := 0 to count
      invariant forall k | 0 <= k < n :: keys[k] <==> k + 1 in words[..i]
    {
      var idx := words[i] - 1;
      assert words[..i + 1] == words[..i] + [words[i]];
      if 0 <= idx < n {
        keys[idx] := true;
      }
    }
    assert words[..count] == words;
    assert keys[..] == KeyTable(words, n);
    return keys[..];
  }

  // ── Sample positions ────────────────────────────────────────────────────────

  /** Consecutive samples of the given sizes, from `base` on. */
  function ChunkPositions(sizes: seq<int>, base: int): (r: seq<int>)
    ensures |r| == |sizes|
  {
    if sizes == [] then [] else [base] + ChunkPositions(sizes[1..], base + sizes[0])
  }

  /** Samples si, … spread over chunks ci, …; samples left over when the chunks run out stay at 0. */
  function Positions(perChunk: seq<int>, chunkOffsets: seq<int>, sizes: seq<int>, ci: nat, si: nat): (r: seq<int>)
    requires |perChunk| == |chunkOffsets| && ci <= |perChunk| && si <= |sizes|
    ensures |r| == |sizes| - si
    decreases |perChunk| - ci
  {
    if ci == |perChunk| then Repeat(0, |sizes| - si)
    else
      var k := if perChunk[ci] <= 0 then 0 else if perChunk[ci] < |sizes| - si then perChunk[ci] else |sizes| - si;
      ChunkPositions(sizes[si..si + k], chunkOffsets[ci]) + Positions(perChunk, chunkOffsets, sizes, ci + 1, si + k)
  }

  lemma {:induction false} ChunkPositionsSnoc(sizes: seq<int>, x: int, base: int)
    ensures ChunkPositions(sizes + [x], base) == ChunkPositions(sizes, base) + [base + Sum(sizes)]
  {
    if sizes == [] {
      assert sizes + [x] == [x] && [x][1..] == [];
    } else {
      assert (sizes + [x])[1..] == sizes[1..] + [x];
      ChunkPositionsSnoc(sizes[1..], x, base + sizes[0]);
      assert sizes == [sizes[0]] + sizes[1..];
      SumAppend([sizes[0]], sizes[1..]);
      assert Sum([sizes[0]]) == sizes[0];
    }
  }

  /** The inner loop of the position computation in `parseSampleTable`: one chunk. */
  method PlaceChunk(cells: array<int>, sizes: seq<int>, spc: int, base: int, start: nat) returns (si: nat)
    requires cells.Length == |sizes| && start <= |sizes|
    modifies cells
    ensures si == start + (if spc <= 0 then 0 else if spc < |sizes| - start then spc else |sizes| - start)
    ensures cells[start..si] == ChunkPositions(sizes[start..si], base)
    ensures forall k | 0 <= k < cells.Length && !(start <= k < si) :: cells[k] == old(cells[k])
  {
    hide Sum;
    si := start;
    var acc, k := 0, 0;
    assert Sum(sizes[start..si]) == 0 by { assert sizes[start..si] == []; EmptySums(); }
    while k < spc && si < |sizes|
      invariant 0 <= k && (k == 0 || k <= spc) && si == start + k <= |sizes|
      invariant acc == Sum(sizes[start..si])
      invariant cells[start..si] == ChunkPositions(sizes[start..si], base)
      invariant forall k | 0 <= k < cells.Length && !(start <= k < si) :: cells[k] == old(cells[k])
      decreases |sizes| - si
    {
      ghost var prev := cells[start..si];
      ChunkPositionsSnoc(sizes[start..si], sizes[si], base);
      SumAppend(sizes[start..si], [sizes[si]]);
      assert Sum([sizes[si]]) == sizes[si] by { SumOne(sizes[si]); }
      assert sizes[start..si + 1] == sizes[start..si] + [sizes[si]];
      cells[si] := base + acc;
      assert cells[start..si + 1] == prev + [base + acc];
      acc := acc + sizes[si];
      si := si + 1;
      k := k + 1;
    }
  }

  lemma SumOne(x: int)
    ensures Sum([x]) == x
  {
  }

  lemma PositionsStep(perChunk: seq<int>, chunkOffsets: seq<int>, sizes: seq<int>, ci: nat, si: nat, next: nat)
    requires |perChunk| == |chunkOffsets| && ci < |perChunk| && si <= |sizes|
    requires next == si + (if perChunk[ci] <= 0 then 0
                           else if perChunk[ci] < |sizes| - si then perChunk[ci] else |sizes| - si)
    ensures Positions(perChunk, chunkOffsets, sizes, ci, si)
         == ChunkPositions(sizes[si..next], chunkOffsets[ci]) + Positions(perChunk, chunkOffsets, sizes, ci + 1, next)
  {
  }

  lemma PositionsEnd(perChunk: seq<int>, chunkOffsets: seq<int>, sizes: seq<int>, si: nat)
    requires |perChunk| == |chunkOffsets| && si <= |sizes|
    ensures Positions(perChunk, chunkOffsets, sizes, |perChunk|, si) == Repeat(0, |sizes| - si)
  {
  }

  /** The position loop of `parseSampleTable`. */
  method SamplePositions(perChunk: seq<int>, chunkOffsets: seq<int>, sizes: seq<int>) returns (r: seq<int>)
    requires |perChunk| == |chunkOffsets|
    ensures r == Positions(perChunk, chunkOffsets, sizes, 0, 0)
  {
    hide ChunkPositions, Positions;
    var n := |sizes|;
    var cells := new int[n](_ => 0);
    var si: nat := 0;
    for ci := 0 to |perChunk|
      invariant si <= n
      invariant Positions(perChunk, chunkOffsets, sizes, 0, 0)
             == cells[..si] + Positions(perChunk, chunkOffsets, sizes, ci, si)
      invariant forall k | si <= k < n :: cells[k] == 0
    {
      ghost var start, before := si, cells[..si];
      si := PlaceChunk(cells, sizes, perChunk[ci], chunkOffsets[ci], si);
      PositionsStep(perChunk, chunkOffsets, sizes, ci, start, si);
      assert cells[..start] == before;
      assert cells[..si] == cells[..start] + cells[start..si];
    }
    PositionsEnd(perChunk, chunkOffsets, sizes, si);
    assert cells[si..] == Repeat(0, n - si);
    assert cells[..] == cells[..si] + cells[si..];
    return cells[..];
  }

  // ── The whole table ─────────────────────────────────────────────────────────

  /** One sample as the demuxer knows it; times in nanoseconds, offset absolute. */
  datatype SampleEntry = SampleEntry(
    streamIdx: nat,
    offset: int,
    size: int,
    dts: int,
    ptsOffset: int,
    duration: int,
    isKey: bool)

  function Entries(streamIdx: nat, positions: seq<int>, sizes: seq<int>, times: Times, offsets: Option<seq<int>>,
                   keys: seq<bool>): (r: seq<SampleEntry>)
    requires |positions| == |sizes| == |times.dts| == |times.durations| == |keys|
    requires offsets.Some? ==> |offsets.value| == |sizes|
    ensures |r| == |sizes|
  {
    seq(|sizes|, i requires 0 <= i < |sizes| =>
      SampleEntry(streamIdx, positions[i], sizes[i], times.dts[i],
                  if offsets.Some? then offsets.value[i] else 0, times.durations[i], keys[i]))
  }

  lemma ChunkSamplesLength(stbl: bytes, numChunks: nat)
    ensures var r := ChunkSamplesSpec(stbl, numChunks); r.Ok? ==> |r.value| == numChunks
  {
    hide SplitBoxes, First, U32, SetRange;
    match First(SplitBoxes(stbl), STSC)
    case None =>
    case Some(p) =>
      if |p| >= 8 && |p| >= 8 + U32(p, 4) * 12 {
        ApplyLength(StscEntries(p, U32(p, 4)), 0, numChunks, Repeat(0, numChunks));
      }
  }

  lemma {:induction false} ApplyLength(entries: seq<StscEntry>, ei: nat, numChunks: nat, table: seq<int>)
    requires ei <= |entries|
    ensures var r := ApplyEntries(entries, ei, numChunks, table); r.Ok? ==> |r.value| == |table|
    decreases |entries| - ei
  {
    if ei < |entries| {
      var next := SetRange(table, entries[ei].firstChunk, LastChunk(entries, ei, numChunks),
                           entries[ei].samplesPerChunk);
      if next.Ok? {
        ApplyLength(entries, ei + 1, numChunks, next.value);
      }
    }
  }

  lemma SttsLength(stbl: bytes, n: nat, timescale: u32)
    ensures var r := ParseSttsSpec(stbl, n, timescale);
            r.Ok? ==> |r.value.dts| == |r.value.durations| == n
  {
    hide SplitBoxes, First, U32, Expand, ToDuration;
  }

  function ParseSampleTableSpec(stbl: bytes, timescale: u32, streamIdx: nat, isVideo: bool)
    : Result<seq<SampleEntry>, Error>
  {
    var sizes :- ParseStszSpec(stbl);
    if sizes == [] then Ok([])
    else
      var chunkOffsets :- ParseChunkOffsetsSpec(stbl);
      var perChunk :- ChunkSamplesSpec(stbl, |chunkOffsets|);
      var times :- ParseSttsSpec(stbl, |sizes|, timescale);
      ChunkSamplesLength(stbl, |chunkOffsets|);
      SttsLength(stbl, |sizes|, timescale);
      Ok(Entries(streamIdx, Positions(perChunk, chunkOffsets, sizes, 0, 0), sizes, times,
                 ParseCttsSpec(stbl, |sizes|, timescale), ParseStssSpec(stbl, |sizes|, isVideo)))
  }

  /** `parseSampleTable`. */
  method ParseSampleTable(stbl: bytes, timescale: u32, streamIdx: nat, isVideo: bool)
    returns (r: Result<seq<SampleEntry>, Error>)
    ensures r == ParseSampleTableSpec(stbl, timescale, streamIdx, isVideo)
  {
    hide ParseStszSpec, ParseChunkOffsetsSpec, ChunkSamplesSpec, ParseSttsSpec, ParseCttsSpec, ParseStssSpec, Positions;
    var sizes := ParseStsz(stbl);
    if sizes.Err? {
      return Err(sizes.error);
    }
    var n := |sizes.value|;
    if n == 0 {
      return Ok([]);
    }
    var chunkOffsets := ParseChunkOffsets(stbl);
    if chunkOffsets.Err? {
      return Err(chunkOffsets.error);
    }
    var perChunk := BuildChunkSamplesMap(stbl, |chunkOffsets.value|);
    if perChunk.Err? {
      return Err(perChunk.error);
    }
    var times := ParseStts(stbl, n, timescale);
    if times.Err? {
      return Err(times.error);
    }
    ChunkSamplesLength(stbl, |chunkOffsets.value|);
    SttsLength(stbl, n, timescale);
    var offsets := ParseCtts(stbl, n, timescale);
    var keys := ParseStss(stbl, n, isVideo);
    var positions := SamplePositions(perChunk.value, chunkOffsets.value, sizes.value);
    CttsLength(stbl, n, timescale);
    return Ok(Entries(streamIdx, positions, sizes.value, times.value, offsets, keys));
  }

  lemma CttsLength(stbl: bytes, n: nat, timescale: u32)
    ensures var r := ParseCttsSpec(stbl, n, timescale); r.Some? ==> |r.value| == n
  {
    hide SplitBoxes, First, U32, Expand;
  }
}
