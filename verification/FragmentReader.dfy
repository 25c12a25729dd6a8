/**
  Reading a fragmented stream from front to back: `readBox`, the loop of `ReadPacket` and the
  parsing of one moof and its mdat. The stream is a byte string; parsing a moov and the unstable
  sort by decode time are parameters, the latter any function that sorts.
 */
module FragmentReader {
  import opened Bytes
  import opened Wrappers
  import opened Boxes
  import opened Fragment
  import opened Ticks

  const MOOV: u32 := 0x6D6F_6F76

  type Tracks = map<u32, TrackDef>

  predicate Ascending(pkts: seq<Packet>) {
    forall i, j | 0 <= i < j < |pkts| :: pkts[i].dts <= pkts[j].dts
  }

  /** The same packets in ascending decode time. */
  ghost predicate SortedFrom(sorted: seq<Packet>, pkts: seq<Packet>) {
    multiset(sorted) == multiset(pkts) && Ascending(sorted)
  }

  ghost predicate Sorts(order: seq<Packet> -> seq<Packet>) {
    forall pkts :: SortedFrom(order(pkts), pkts)
  }

  function Inserted(sorted: seq<Packet>, p: Packet): seq<Packet> {
    if sorted == [] || p.dts <= sorted[0].dts then [p] + sorted else [sorted[0]] + Inserted(sorted[1..], p)
  }

  /** One sort by decode time; the library's is another. */
  function InsertionSort(pkts: seq<Packet>): seq<Packet> {
    if pkts == [] then [] else Inserted(InsertionSort(pkts[1..]), pkts[0])
  }

  lemma {:induction false} InsertedPermutes(sorted: seq<Packet>, p: Packet)
    ensures multiset(Inserted(sorted, p)) == multiset([p] + sorted)
  {
    if sorted != [] && p.dts > sorted[0].dts {
      InsertedPermutes(sorted[1..], p);
      assert sorted == [sorted[0]] + sorted[1..];
    }
  }

  lemma {:induction false} InsertedAtLeast(sorted: seq<Packet>, p: Packet, low: int)
    requires low <= p.dts && forall i | 0 <= i < |sorted| :: low <= sorted[i].dts
    ensures forall i | 0 <= i < |Inserted(sorted, p)| :: low <= Inserted(sorted, p)[i].dts
  {
    if sorted != [] && p.dts > sorted[0].dts {
      InsertedAtLeast(sorted[1..], p, low);
    }
  }

  lemma {:induction false} InsertedAscends(sorted: seq<Packet>, p: Packet)
    requires Ascending(sorted)
    ensures Ascending(Inserted(sorted, p))
  {
    if sorted != [] && p.dts > sorted[0].dts {
      InsertedAscends(sorted[1..], p);
      InsertedAtLeast(sorted[1..], p, sorted[0].dts);
    }
  }

  lemma {:induction false} SortIsSorted(pkts: seq<Packet>)
    ensures SortedFrom(InsertionSort(pkts), pkts)
  {
    hide Inserted, Ascending;
    if pkts == [] {
      NoneAscend();
    } else {
      SortIsSorted(pkts[1..]);
      InsertedPermutes(InsertionSort(pkts[1..]), pkts[0]);
      InsertedAscends(InsertionSort(pkts[1..]), pkts[0]);
      assert pkts == [pkts[0]] + pkts[1..];
    }
  }

  lemma NoneAscend()
    ensures Ascending([])
  {
  }

  lemma InsertionSorts()
    ensures Sorts(InsertionSort)
  {
    forall pkts: seq<Packet>
      ensures SortedFrom(InsertionSort(pkts), pkts)
    {
      SortIsSorted(pkts);
    }
  }

  /** Whatever sorts the packets of a fragment by decode time, in any order where times are equal. */
  type Order = f: seq<Packet> -> seq<Packet> | Sorts(f) ghost witness (InsertionSorts(); InsertionSort)

  datatype Config = Config(parseMoov: bytes -> Tracks, order: Order)

  /** Times in nanoseconds, by the clock of the packet's track. */
  function Timed(p: Packet, tracks: Tracks): Packet {
    if p.trackID !in tracks then p
    else
      var timescale := tracks[p.trackID].timescale;
      p.(dts := ToDuration(p.dts, timescale), ptsOffset := ToDuration(p.ptsOffset, timescale),
         duration := ToDuration(p.duration, timescale))
  }

  function TimedAll(pkts: seq<Packet>, tracks: Tracks): (r: seq<Packet>)
    ensures |r| == |pkts|
  {
    seq(|pkts|, i requires 0 <= i < |pkts| => Timed(pkts[i], tracks))
  }

  // ── The reference reader ────────────────────────────────────────────────────

  /** What is left of the stream, as boxes; where it is; the tracks known; the packets not yet returned. */
  datatype View = View(boxes: seq<Box>, pos: nat, tracks: Tracks, pending: seq<Packet>)

  function SizeOf(b: Box): nat {
    8 + |b.payload|
  }

  /** The packets of a moof followed by its mdat, in decode order, and the tracks with the moof's defaults. */
  function FragmentPackets(c: Config, v: View): Option<View>
    requires v.boxes != []
  {
    var moof := v.boxes[0];
    var parsed := ParseMoofSpec(moof.payload, v.tracks, v.pos, SizeOf(moof));
    if parsed.result.Err? || |v.boxes| < 2 || v.boxes[1].typ != MDAT then None
    else
      var mdat := v.boxes[1];
      var pkts := CutPackets(parsed.result.value, parsed.defs, mdat.payload);
      Some(View(v.boxes[2..], v.pos + SizeOf(moof) + SizeOf(mdat), parsed.defs, c.order(TimedAll(pkts, parsed.defs))))
  }

  /** `ReadPacket`: the next packet and what is left, or nothing at the end of the stream or at an error. */
  function ReadSpec(c: Config, v: View): (r: Option<(Packet, View)>)
    ensures r.Some? ==> |r.value.1.boxes| <= |v.boxes|
    ensures r.Some? && |r.value.1.boxes| == |v.boxes| ==> |r.value.1.pending| < |v.pending|
    decreases |v.boxes|
  {
    if v.pending != [] then Some((v.pending[0], v.(pending := v.pending[1..])))
    else if v.boxes == [] then None
    else if v.boxes[0].typ == MOOF then
      var next := FragmentPackets(c, v);
      if next.None? then None else ReadSpec(c, next.value)
    else ReadSpec(c, Skipped(c, v))
  }

  /** Past a box that is not a moof: a moov replaces the tracks, anything else is passed over. */
  function Skipped(c: Config, v: View): View
    requires v.boxes != []
  {
    var b := v.boxes[0];
    View(v.boxes[1..], v.pos + SizeOf(b), if b.typ == MOOV then c.parseMoov(b.payload) else v.tracks, v.pending)
  }

  /** Everything `ReadPacket` returns until it first fails. */
  function Drain(c: Config, v: View): seq<Packet>
    decreases |v.boxes|, |v.pending|
  {
    var r := ReadSpec(c, v);
    if r.None? then [] else [r.value.0] + Drain(c, r.value.1)
  }

  // ── Reading fragment by fragment ────────────────────────────────────────────

  /** How far a list of boxes can be read, and the batch of packets of each fragment in it. */
  datatype Progress = Progress(view: View, batches: seq<seq<Packet>>)

  function ReadThrough(c: Config, v: View): (p: Progress)
    decreases |v.boxes|
  {
    if v.boxes == [] then Progress(v, [])
    else if v.boxes[0].typ == MOOF then
      var next := FragmentPackets(c, v);
      if next.None? then Progress(v, [])
      else
        var rest := ReadThrough(c, next.value.(pending := []));
        Progress(rest.view, [next.value.pending] + rest.batches)
    else ReadThrough(c, Skipped(c, v))
  }

  function Flat(batches: seq<seq<Packet>>): seq<Packet> {
    if batches == [] then [] else batches[0] + Flat(batches[1..])
  }

  /** Packet by packet, the reader returns what is pending and then the batches in turn. */
  lemma {:induction false} DrainIsByFragment(c: Config, v: View)
    ensures Drain(c, v) == v.pending + Flat(ReadThrough(c, v.(pending := [])).batches)
    decreases |v.boxes|, |v.pending|
  {
    hide FragmentPackets;
    if v.pending != [] {
      DrainIsByFragment(c, v.(pending := v.pending[1..]));
      assert v.pending == [v.pending[0]] + v.pending[1..];
    } else if v.boxes != [] {
      assert v == v.(pending := []);
      if v.boxes[0].typ == MOOF {
        var next := FragmentPackets(c, v);
        if next.Some? {
          FragmentShortens(c, v);
          DrainIsByFragment(c, next.value);
          DrainFrom(c, v, next.value);
        }
      } else {
        DrainIsByFragment(c, Skipped(c, v));
        DrainFrom(c, v, Skipped(c, v));
      }
    }
  }

  lemma FragmentShortens(c: Config, v: View)
    requires v.boxes != [] && FragmentPackets(c, v).Some?
    ensures |FragmentPackets(c, v).value.boxes| + 2 == |v.boxes|
  {
  }

  lemma DrainFrom(c: Config, v: View, next: View)
    requires ReadSpec(c, v) == ReadSpec(c, next)
    ensures Drain(c, v) == Drain(c, next)
  {
  }

  /** A list of boxes that can be read to its end leaves the rest of the stream as it is. */
  lemma {:induction false} ThroughAppend(c: Config, a: seq<Box>, b: seq<Box>, pos: nat, tracks: Tracks)
    requires ReadThrough(c, View(a, pos, tracks, [])).view.boxes == []
    ensures var first := ReadThrough(c, View(a, pos, tracks, []));
            var rest := ReadThrough(c, View(b, first.view.pos, first.view.tracks, []));
            ReadThrough(c, View(a + b, pos, tracks, [])) == Progress(rest.view, first.batches + rest.batches)
    decreases |a|
  {
    hide FragmentPackets;
    var v := View(a, pos, tracks, []);
    if a == [] {
      assert a + b == b;
    } else if a[0].typ == MOOF {
      var next := FragmentPackets(c, v);
      if next.Some? {
        FragmentShortens(c, v);
        FragmentInFront(c, v, b);
        ThroughAppend(c, next.value.boxes, b, next.value.pos, next.value.tracks);
        var first, rest := [next.value.pending], ReadThrough(c, next.value.(pending := [])).batches;
        var more := ReadThrough(c, View(b, ReadThrough(c, v).view.pos, ReadThrough(c, v).view.tracks, [])).batches;
        assert first + (rest + more) == (first + rest) + more;
      }
    } else {
      assert (a + b)[0] == a[0] && (a + b)[1..] == a[1..] + b;
      ThroughAppend(c, a[1..], b, Skipped(c, v).pos, Skipped(c, v).tracks);
    }
  }

  /** A fragment at the front is read in the same way whatever comes behind it. */
  lemma FragmentInFront(c: Config, v: View, more: seq<Box>)
    requires v.boxes != [] && FragmentPackets(c, v).Some?
    ensures var next := FragmentPackets(c, v).value;
            FragmentPackets(c, v.(boxes := v.boxes + more)) == Some(next.(boxes := next.boxes + more))
  {
    hide ParseMoofSpec, CutPackets, TimedAll;
    var all := v.boxes + more;
    assert all[0] == v.boxes[0] && all[1] == v.boxes[1] && all[2..] == v.boxes[2..] + more;
  }

  // ── The demuxer object ──────────────────────────────────────────────────────

  /** The scan of the stream that `readBox` makes: per-track defaults survive from one moof to the next. */
  class Demuxer {
    const config: Config
    const data: bytes
    var pos: nat
    var tracks: Tracks
    var pending: seq<Packet>

    constructor (config: Config, data: bytes, tracks: Tracks)
      ensures this.config == config && this.data == data && this.tracks == tracks
      ensures Valid() && Abstract() == View(SplitBoxes(data), 0, tracks, [])
    {
      this.config, this.data, this.tracks := config, data, tracks;
      pos, pending := 0, [];
      new;
      assert data[0..] == data;
    }

    predicate Valid()
      reads this
    {
      pos <= |data|
    }

    ghost function Abstract(): View
      requires Valid()
      reads this
    {
      View(SplitBoxes(data[pos..]), pos, tracks, pending)
    }

    /** `readBox`: a header cut short, a size below 8 and a payload cut short all end the reading. */
    method ReadBox() returns (r: Option<Box>)
      requires Valid()
      modifies this`pos
      ensures Valid()
      ensures var boxes := old(Abstract().boxes);
              if r.None? then boxes == []
              else boxes == [r.value] + Abstract().boxes && pos == old(pos) + SizeOf(r.value)
    {
      hide U32;
      ghost var rest := data[pos..];
      if pos + 8 > |data| {
        pos := |data|;
        return None;
      }
      var size := U32(data[pos..], 0);
      var typ := U32(data[pos..], 4);
      if size < 8 {
        pos := pos + 8;
        return None;
      }
      if pos + size > |data| {
        pos := |data|;
        return None;
      }
      r := Some(Box(typ, data[pos + 8..pos + size]));
      assert rest[8..size] == data[pos + 8..pos + size] && rest[size..] == data[pos + size..];
      pos := pos + size;
    }

    /** The trun loop of `parseMoof`. */
    method ReadTruns(truns: seq<bytes>, def: TrackDef, start: int, baseDataOffset: int, mdatPayloadBase: int)
      returns (r: Result<seq<RawSample>, Error>)
      ensures r == ParseTruns(truns, def, start, baseDataOffset, mdatPayloadBase)
    {
      hide ParseTrunSpec;
      var all: seq<RawSample> := [];
      var dts := start;
      ghost var goal := ParseTruns(truns, def, start, baseDataOffset, mdatPayloadBase);
      PrependAssoc([], [], goal);
      for i := 0 to |truns|
        invariant goal == Prepend(all, ParseTruns(truns[i..], def, dts, baseDataOffset, mdatPayloadBase))
      {
        assert truns[i..][1..] == truns[i + 1..];
        var samps := ParseTrun(truns[i], def, dts, baseDataOffset, mdatPayloadBase);
        if samps.Err? {
          return samps;
        }
        ghost var dts0 := dts;
        for j := 0 to |samps.value|
          invariant dts + TotalTicks(samps.value[j..]) == dts0 + TotalTicks(samps.value)
        {
          assert samps.value[j..][1..] == samps.value[j + 1..];
          dts := dts + samps.value[j].duration;
        }
        PrependAssoc(all, samps.value, ParseTruns(truns[i + 1..], def, dts, baseDataOffset, mdatPayloadBase));
        all := all + samps.value;
      }
      assert all + [] == all;
      return Ok(all);
    }

    /** The body of the traf loop of `parseMoof`: overrides stick even when the traf is malformed. */
    method ReadTraf(traf: bytes, moofStart: int, mdatPayloadBase: int) returns (o: TrafOutcome)
      modifies this`tracks
      ensures o == ParseTraf(traf, old(tracks), moofStart, mdatPayloadBase)
      ensures tracks == if o.Skipped? then old(tracks) else old(tracks)[o.id := o.def]
    {
      hide ParseTruns, ParseTfhd, ParseTfdt, SplitBoxes, First, Select, Override;
      var tfhd := FindBox(traf, TFHD);
      if tfhd.None? {
        return Skipped;
      }
      var h := ParseTfhd(tfhd.value, moofStart);
      if h.Err? {
        return Skipped;
      }
      var id := h.value.trackID;
      if id !in tracks {
        return Skipped;
      }
      var def := Override(tracks[id], h.value);
      tracks := tracks[id := def];
      var tfdt := FindBox(traf, TFDT);
      var baseDTS := 0;
      if tfdt.Some? {
        var d := ParseTfdt(tfdt.value);
        if d.Err? {
          return Failed(id, def);
        }
        baseDTS := d.value;
      }
      var truns := FindBoxes(traf, TRUN);
      var samps := ReadTruns(truns, def, baseDTS, h.value.baseDataOffset, mdatPayloadBase);
      if samps.Err? {
        return Failed(id, def);
      }
      return Parsed(id, def, samps.value);
    }

    /** `parseMoof`. */
    method ParseMoof(payload: bytes, moofStart: int, moofSize: int) returns (r: Result<seq<RawSample>, Error>)
      modifies this`tracks
      ensures MoofOutcome(r, tracks) == ParseMoofSpec(payload, old(tracks), moofStart, moofSize)
    {
      hide ParseTraf, SplitBoxes, Select;
      var all: seq<RawSample> := [];
      var base := moofStart + moofSize + 8;
      var trafs := FindBoxes(payload, TRAF);
      ghost var goal := ParseTrafs(trafs, tracks, moofStart, base);
      PrependAssoc([], [], goal.result);
      for i := 0 to |trafs|
        invariant goal == var rest := ParseTrafs(trafs[i..], tracks, moofStart, base);
                          MoofOutcome(Prepend(all, rest.result), rest.defs)
      {
        assert trafs[i..][1..] == trafs[i + 1..];
        var o := ReadTraf(trafs[i], moofStart, base);
        match o {
          case Skipped =>
          case Failed(_, _) =>
            return Err(Malformed);
          case Parsed(_, _, samps) =>
            PrependAssoc(all, samps, ParseTrafs(trafs[i + 1..], tracks, moofStart, base).result);
            all := all + samps;
        }
      }
      assert all + [] == all;
      return Ok(all);
    }

    /** The sample loop of `parseMoofMdat`. */
    method ReadPackets(raw: seq<RawSample>, mdat: bytes) returns (pkts: seq<Packet>)
      ensures pkts == CutPackets(raw, tracks, mdat)
    {
      pkts := [];
      for i := 0 to |raw|
        invariant CutPackets(raw, tracks, mdat) == pkts + CutPackets(raw[i..], tracks, mdat)
      {
        var s := raw[i];
        assert raw[i..][1..] == raw[i + 1..];
        if s.trackID !in tracks {
          continue;
        }
        if s.mdatOff < 0 || s.mdatOff + s.size > |mdat| {
          continue;
        }
        pkts := pkts + [PacketOf(s, mdat)];
      }
    }

    /** `parseMoofMdat`: the mdat must follow at once. */
    method ParseMoofMdat(moof: Box, moofStart: nat) returns (r: Result<seq<Packet>, Error>)
      requires Valid() && moofStart + SizeOf(moof) == pos
      modifies this`pos, this`tracks
      ensures Valid()
      ensures var next := FragmentPackets(config, old(View([moof] + SplitBoxes(data[pos..]), moofStart, tracks, [])));
              if r.Err? then next.None?
              else next == Some(View(SplitBoxes(data[pos..]), pos, tracks, r.value))
    {
      hide ParseMoofSpec, CutPackets, SplitBoxes;
      var samples := ParseMoof(moof.payload, moofStart, SizeOf(moof));
      if samples.Err? {
        return Err(Malformed);
      }
      ghost var boxes := [moof] + SplitBoxes(data[pos..]);
      var mdat := ReadBox();
      if mdat.None? || mdat.value.typ != MDAT {
        return Err(Malformed);
      }
      var pkts := ReadPackets(samples.value, mdat.value.payload);
      assert boxes[1] == mdat.value && boxes[2..] == SplitBoxes(data[pos..]);
      return Ok(config.order(TimedAll(pkts, tracks)));
    }

    /** `ReadPacket`, for a context that is not cancelled. */
    method ReadPacket() returns (p: Option<Packet>)
      requires Valid()
      modifies this`pos, this`tracks, this`pending
      ensures Valid()
      ensures var r := ReadSpec(config, old(Abstract()));
              if p.None? then r.None? else r == Some((p.value, Abstract()))
    {
      hide SplitBoxes, FragmentPackets;
      while true
        invariant Valid() && ReadSpec(config, old(Abstract())) == ReadSpec(config, Abstract())
        decreases |Abstract().boxes|
      {
        if pending != [] {
          p := Some(pending[0]);
          pending := pending[1..];
          return;
        }
        var start := pos;
        ghost var before := Abstract();
        var b := ReadBox();
        if b.None? {
          return None;
        }
        assert before.boxes == [b.value] + Abstract().boxes;
        if b.value.typ == MOOF {
          var pkts := ParseMoofMdat(b.value, start);
          if pkts.Err? {
            return None;
          }
          pending := pkts.value;
          FragmentShortens(config, before);
        } else if b.value.typ == MOOV {
          tracks := config.parseMoov(b.value.payload);
          assert before.boxes[1..] == Abstract().boxes;
        } else {
          assert before.boxes[1..] == Abstract().boxes;
        }
      }
    }
  }
}
