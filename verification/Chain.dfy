/** Several segments read as one stream: DTS offsets, gap marks and codec changes at the boundaries. */
module Chain {
  import opened Bytes
  import opened Wrappers

  // `tag` and `size` are there for the codecs that have a codec tag or picture dimensions.
  datatype Stream = Stream(idx: int, codecType: int, tag: Option<string>, size: Option<(int, int)>)

  datatype Packet = Packet(id: int, dts: int64, duration: int64, newCodecs: Option<seq<Stream>>, isDiscontinuity: bool)

  // What a segment gives: its streams (None when they cannot be read), its packets, and whether it then ends or
  // fails. `gap` is whether the source saw a wall-clock gap before it.
  datatype Segment = Segment(streams: Option<seq<Stream>>, packets: seq<Packet>, fails: bool, gap: bool)

  datatype Error = EndOfStream | ReadFailed | NoStreams

  // The current segment's rest, the segments still to come, and the demuxer's own fields.
  datatype State = State(cur: Option<Segment>, source: seq<Segment>, dtsOff: int64, lastEnd: int64, discontinuity: bool,
                         prevStreams: Option<seq<Stream>>, pending: Option<seq<Stream>>)

  // ---- codec changes ----

  predicate StreamDiffers(a: Stream, b: Stream) {
    || a.idx != b.idx
    || a.codecType != b.codecType
    || (a.tag.Some? && b.tag.Some? && a.tag != b.tag)
    || (a.size.Some? && b.size.Some? && a.size != b.size)
  }

  predicate Changed(prev: seq<Stream>, next: seq<Stream>) {
    |prev| != |next| || exists i :: 0 <= i < |prev| && StreamDiffers(prev[i], next[i])
  }

  method StreamsChanged(prev: seq<Stream>, next: seq<Stream>) returns (changed: bool)
    ensures changed == Changed(prev, next)
  {
    if |prev| != |next| {
      return true;
    }
    var i := 0;
    while i < |prev|
      invariant 0 <= i <= |prev|
      invariant forall k :: 0 <= k < i ==> !StreamDiffers(prev[k], next[k])
    {
      if prev[i].idx != next[i].idx {
        return true;
      }
      if prev[i].codecType != next[i].codecType {
        return true;
      }
      if prev[i].tag.Some? && next[i].tag.Some? && prev[i].tag.value != next[i].tag.value {
        return true;
      }
      if prev[i].size.Some? && next[i].size.Some? {
        if prev[i].size.value.0 != next[i].size.value.0 || prev[i].size.value.1 != next[i].size.value.1 {
          return true;
        }
      }
      i := i + 1;
    }
    return false;
  }

  // ---- one read ----

  // The next packet of the current segment, in 64-bit arithmetic.
  function EmitSpec(s: State): (State, Packet)
    requires s.cur.Some? && s.cur.value.packets != []
  {
    var seg := s.cur.value;
    var p := seg.packets[0];
    var dts := Int64(p.dts + s.dtsOff);
    var end := Int64(dts + p.duration);
    (s.(cur := Some(seg.(packets := seg.packets[1..])), lastEnd := if end > s.lastEnd then end else s.lastEnd,
        discontinuity := false, pending := None),
     p.(dts := dts, isDiscontinuity := p.isDiscontinuity || s.discontinuity,
        newCodecs := if s.pending.Some? then s.pending else p.newCodecs))
  }

  // The move to the next segment, once its streams are read.
  function EnterSpec(s: State): State
    requires s.source != [] && s.source[0].streams.Some?
  {
    var next := s.source[0];
    var streams := next.streams.value;
    State(Some(next), s.source[1..], s.lastEnd, s.lastEnd, s.discontinuity || next.gap, Some(streams),
          if s.prevStreams.Some? && Changed(s.prevStreams.value, streams) then Some(streams) else s.pending)
  }

  function ReadSpec(s: State): (State, Result<Packet, Error>)
    decreases |s.source|
  {
    if s.cur.None? then (s, Err(EndOfStream))
    else if s.cur.value.packets != [] then
      var (s', p) := EmitSpec(s);
      (s', Ok(p))
    else if s.cur.value.fails then (s, Err(ReadFailed))
    else if s.source == [] then (s.(cur := None), Err(EndOfStream))
    else if s.source[0].streams.None? then
      (s.(cur := Some(s.source[0]), source := s.source[1..], discontinuity := s.discontinuity || s.source[0].gap),
       Err(NoStreams))
    else ReadSpec(EnterSpec(s))
  }

  class ChainingDemuxer {
    var cur: Option<Segment>
    var source: seq<Segment>
    var dtsOff: int64
    var lastEnd: int64
    var discontinuity: bool
    var prevStreams: Option<seq<Stream>>
    var pendingNewCodecs: Option<seq<Stream>>

    function View(): State
      reads this
    {
      State(cur, source, dtsOff, lastEnd, discontinuity, prevStreams, pendingNewCodecs)
    }

    constructor (first: Segment, rest: seq<Segment>)
      ensures View() == State(Some(first), rest, 0, 0, false, None, None)
    {
      cur := Some(first);
      source := rest;
      dtsOff := 0;
      lastEnd := 0;
      discontinuity := false;
      prevStreams := None;
      pendingNewCodecs := None;
    }

    method GetCodecs() returns (r: Result<seq<Stream>, Error>)
      modifies this`prevStreams
      ensures r == (if cur.None? then Err(EndOfStream)
                    else if cur.value.streams.None? then Err(NoStreams) else Ok(cur.value.streams.value))
      ensures prevStreams == if r.Ok? then Some(r.value) else old(prevStreams)
    {
      if cur.None? {
        return Err(EndOfStream);
      }
      if cur.value.streams.None? {
        return Err(NoStreams);
      }
      prevStreams := Some(cur.value.streams.value);
      r := Ok(cur.value.streams.value);
    }

    method Emit() returns (pkt: Packet)
      requires cur.Some? && cur.value.packets != []
      modifies this
      ensures (View(), pkt) == EmitSpec(old(View()))
    {
      pkt := cur.value.packets[0];
      cur := Some(cur.value.(packets := cur.value.packets[1..]));
      pkt := pkt.(dts := Int64(pkt.dts + dtsOff));
      var end := Int64(pkt.dts + pkt.duration);
      if end > lastEnd {
        lastEnd := end;
      }
      if discontinuity {
        pkt := pkt.(isDiscontinuity := true);
        discontinuity := false;
      }
      if pendingNewCodecs.Some? {
        pkt := pkt.(newCodecs := pendingNewCodecs);
        pendingNewCodecs := None;
      }
    }

    method ReadPacket() returns (r: Result<Packet, Error>)
      modifies this
      ensures (View(), r) == ReadSpec(old(View()))
    {
      hide EmitSpec, Changed;
      while true
        invariant ReadSpec(View()) == ReadSpec(old(View()))
        decreases |source|
      {
        if cur.None? {
          return Err(EndOfStream);
        }
        if cur.value.packets != [] {
          var pkt := Emit();
          return Ok(pkt);
        }
        if cur.value.fails {
          return Err(ReadFailed);
        }
        if source == [] {
          cur := None;
          return Err(EndOfStream);
        }
        ghost var before := View();
        var next := source[0];
        cur := Some(next);
        source := source[1..];
        if next.gap {
          discontinuity := true;
        }
        if next.streams.None? {
          return Err(NoStreams);
        }
        var newStreams := next.streams.value;
        if prevStreams.Some? {
          var changed := StreamsChanged(prevStreams.value, newStreams);
          if changed {
            pendingNewCodecs := Some(newStreams);
          }
        }
        prevStreams := Some(newStreams);
        dtsOff := lastEnd;
        assert View() == EnterSpec(before);
      }
    }
  }

  // ---- the whole stream ----

  // Everything read up to the first error.
  function Drain(s: State): seq<Packet>
    decreases Left(s)
  {
    ReadShrinks(s);
    var (s', r) := ReadSpec(s);
    if r.Err? then [] else [r.value] + Drain(s')
  }

  // The packets and segments that are left to read.
  function Left(s: State): nat {
    (if s.cur.Some? then |s.cur.value.packets| else 0) + Packets(s.source)
  }

  function Packets(segs: seq<Segment>): nat {
    if segs == [] then 0 else |segs[0].packets| + Packets(segs[1..])
  }

  lemma {:induction false} ReadShrinks(s: State)
    ensures ReadSpec(s).1.Ok? ==> Left(ReadSpec(s).0) < Left(s)
    decreases |s.source|
  {
    if s.cur.Some? && s.cur.value.packets == [] && !s.cur.value.fails && s.source != [] && s.source[0].streams.Some? {
      ReadShrinks(EnterSpec(s));
    }
  }

  // ---- the stream segment by segment ----

  // Where a packet ends, in 64-bit arithmetic.
  function EndOf(p: Packet, off: int64): (e: int64) {
    Int64(Int64(p.dts + off) + p.duration)
  }

  function EndAfter(packets: seq<Packet>, off: int64, end: int64): (e: int64)
    decreases |packets|
  {
    if packets == [] then end
    else EndAfter(packets[1..], off, if EndOf(packets[0], off) > end then EndOf(packets[0], off) else end)
  }

  // The packets of one segment as they come out.
  function Shifted(packets: seq<Packet>, off: int64, discontinuity: bool, pending: Option<seq<Stream>>)
    : (out: seq<Packet>)
    ensures |out| == |packets|
  {
    seq(|packets|, j requires 0 <= j < |packets| =>
      var p := packets[j];
      p.(dts := Int64(p.dts + off), isDiscontinuity := p.isDiscontinuity || (j == 0 && discontinuity),
         newCodecs := if j == 0 && pending.Some? then pending else p.newCodecs))
  }

  // The packets that come out of the current segment, and of each later one until one fails.
  function BySegment(s: State): (outs: seq<seq<Packet>>)
    requires s.cur.Some?
    decreases |s.source|
  {
    var seg := s.cur.value;
    var out := Shifted(seg.packets, s.dtsOff, s.discontinuity, s.pending);
    if seg.fails || s.source == [] || s.source[0].streams.None? then [out]
    else [out] + BySegment(EnterSpec(After(s)))
  }

  // The state when the current segment has been read to its end.
  function After(s: State): State
    requires s.cur.Some?
  {
    var seg := s.cur.value;
    var read := seg.packets != [];
    s.(cur := Some(seg.(packets := [])), lastEnd := EndAfter(seg.packets, s.dtsOff, s.lastEnd),
       discontinuity := s.discontinuity && !read, pending := if read then None else s.pending)
  }

  function Flatten(outs: seq<seq<Packet>>): seq<Packet> {
    if outs == [] then [] else outs[0] + Flatten(outs[1..])
  }

  // Reading packet by packet gives the segments one after the other.
  lemma {:induction false} DrainIsBySegment(s: State)
    requires s.cur.Some?
    ensures Drain(s) == Flatten(BySegment(s))
    decreases |s.source|, |s.cur.value.packets|
  {
    hide Changed, Int64;
    var seg := s.cur.value;
    if seg.packets != [] {
      var (s', p) := EmitSpec(s);
      DrainIsBySegment(s');
      EmitIsFirst(s);
    } else {
      assert Shifted([], s.dtsOff, s.discontinuity, s.pending) == [];
      assert After(s) == s;
      if !(seg.fails || s.source == [] || s.source[0].streams.None?) {
        DrainIsBySegment(EnterSpec(s));
        assert Drain(s) == Drain(EnterSpec(s));
        assert BySegment(s)[1..] == BySegment(EnterSpec(s));
      } else {
        assert BySegment(s)[1..] == [];
      }
    }
  }

  lemma ShiftedCons(s: State)
    requires s.cur.Some? && s.cur.value.packets != []
    ensures var (s', p) := EmitSpec(s);
            Shifted(s.cur.value.packets, s.dtsOff, s.discontinuity, s.pending)
            == [p] + Shifted(s'.cur.value.packets, s'.dtsOff, s'.discontinuity, s'.pending)
  {
    hide Int64;
  }

  lemma AfterEmit(s: State)
    requires s.cur.Some? && s.cur.value.packets != []
    ensures After(EmitSpec(s).0) == After(s)
  {
    hide Int64;
  }

  // The current segment's packets, and then those of the later ones.
  lemma FlattenCons(s: State)
    requires s.cur.Some?
    ensures var seg := s.cur.value;
            var out := Shifted(seg.packets, s.dtsOff, s.discontinuity, s.pending);
            Flatten(BySegment(s)) == out + Later(s)
  {
    hide Shifted;
    var seg := s.cur.value;
    var out := Shifted(seg.packets, s.dtsOff, s.discontinuity, s.pending);
    if !(seg.fails || s.source == [] || s.source[0].streams.None?) {
      assert BySegment(s)[1..] == BySegment(EnterSpec(After(s)));
    } else {
      assert BySegment(s)[1..] == [];
    }
  }

  function Later(s: State): seq<Packet>
    requires s.cur.Some?
  {
    if s.cur.value.fails || s.source == [] || s.source[0].streams.None? then []
    else Flatten(BySegment(EnterSpec(After(s))))
  }

  // Taking the first packet off a segment takes it off what comes out, and changes nothing else.
  lemma EmitIsFirst(s: State)
    requires s.cur.Some? && s.cur.value.packets != []
    ensures var (s', p) := EmitSpec(s);
            Flatten(BySegment(s)) == [p] + Flatten(BySegment(s'))
  {
    hide Shifted, After, EnterSpec, BySegment, Flatten;
    var (s', p) := EmitSpec(s);
    FlattenCons(s);
    FlattenCons(s');
    ShiftedCons(s);
    AfterEmit(s);
  }

  // ---- monotone, spaced, non-overlapping ----

  // Non-negative, non-decreasing times and non-negative durations.
  ghost predicate Tidy(seg: Segment) {
    && (forall i :: 0 <= i < |seg.packets| ==> seg.packets[i].dts >= 0 && seg.packets[i].duration >= 0)
    && (forall i, j :: 0 <= i < j < |seg.packets| ==> seg.packets[i].dts <= seg.packets[j].dts)
  }

  ghost predicate AllTidy(s: State) {
    s.cur.Some? && Tidy(s.cur.value) && forall k :: 0 <= k < |s.source| ==> Tidy(s.source[k])
  }

  lemma {:induction false} EndAfterBounds(packets: seq<Packet>, off: int64, end: int64)
    ensures EndAfter(packets, off, end) >= end
    ensures forall j :: 0 <= j < |packets| ==> EndOf(packets[j], off) <= EndAfter(packets, off, end)
    decreases |packets|
  {
    hide EndOf;
    if packets != [] {
      var e := EndOf(packets[0], off);
      EndAfterBounds(packets[1..], off, if e > end then e else end);
      forall j | 0 <= j < |packets|
        ensures EndOf(packets[j], off) <= EndAfter(packets, off, end)
      {
        assert j > 0 ==> packets[j] == packets[1..][j - 1];
      }
    }
  }

  // The DTS offset of the k-th segment: where everything before it has ended.
  function OffsetOf(s: State, k: nat): int64
    requires s.cur.Some? && k < |BySegment(s)|
    decreases k
  {
    if k == 0 then s.dtsOff else OffsetOf(EnterSpec(After(s)), k - 1)
  }

  // The segment that the k-th group of packets comes from.
  function SegmentOf(s: State, k: nat): Segment
    requires s.cur.Some? && k < |BySegment(s)|
    decreases k
  {
    if k == 0 then s.cur.value else SegmentOf(EnterSpec(After(s)), k - 1)
  }

  lemma {:induction false} SegmentsInOrder(s: State, k: nat)
    requires s.cur.Some? && k < |BySegment(s)|
    ensures k <= |s.source| && SegmentOf(s, k) == ([s.cur.value] + s.source)[k]
    decreases k
  {
    if k > 0 {
      SegmentsInOrder(EnterSpec(After(s)), k - 1);
    }
  }

  // Inside a segment every packet is moved by the same offset, so the spacing is unchanged.
  lemma {:induction false} SpacingKept(s: State, k: nat, j: nat)
    requires s.cur.Some? && k < |BySegment(s)|
    ensures |BySegment(s)[k]| == |SegmentOf(s, k).packets|
    ensures j < |BySegment(s)[k]| ==>
              var p, q := SegmentOf(s, k).packets[j], BySegment(s)[k][j];
              q.dts == Int64(p.dts + OffsetOf(s, k)) && q.duration == p.duration && q.id == p.id
    decreases k
  {
    if k > 0 {
      assert BySegment(s)[k] == BySegment(EnterSpec(After(s)))[k - 1];
      SpacingKept(EnterSpec(After(s)), k - 1, j);
    }
  }

  lemma {:induction false} OffsetAtLeast(s: State, k: nat)
    requires s.cur.Some? && k < |BySegment(s)| && s.dtsOff <= s.lastEnd
    ensures OffsetOf(s, k) >= s.dtsOff
    ensures k > 0 ==> OffsetOf(s, k) >= After(s).lastEnd
    decreases k
  {
    EndAfterBounds(s.cur.value.packets, s.dtsOff, s.lastEnd);
    if k > 0 {
      OffsetAtLeast(EnterSpec(After(s)), k - 1);
    }
  }

  // A segment is placed after the end of every packet of every earlier segment that ends within the timeline.
  lemma {:induction false} AfterAllEnds(s: State, i: nat, j: nat, k: nat)
    requires s.cur.Some? && i < k < |BySegment(s)| && s.dtsOff <= s.lastEnd && j < |BySegment(s)[i]|
    ensures var p := BySegment(s)[i][j];
            && Int64(p.dts + p.duration) <= OffsetOf(s, k)
            && (-TWO63 <= p.dts + p.duration < TWO63 ==> p.dts + p.duration <= OffsetOf(s, k))
    decreases i
  {
    hide Int64;
    EndAfterBounds(s.cur.value.packets, s.dtsOff, s.lastEnd);
    if i == 0 {
      SpacingKept(s, 0, j);
      OffsetAtLeast(s, k);
    } else {
      var s' := EnterSpec(After(s));
      AfterAllEnds(s', i - 1, j, k - 1);
    }
  }

  ghost predicate Monotone(ps: seq<Packet>) {
    forall i, j :: 0 <= i < j < |ps| ==> ps[i].dts <= ps[j].dts
  }

  // Two stretches in order are in order together exactly when the second starts no earlier than the first ends.
  lemma MonotoneJoin(a: seq<Packet>, b: seq<Packet>)
    ensures Monotone(a + b)
            <==> Monotone(a) && Monotone(b) && (a != [] && b != [] ==> a[|a| - 1].dts <= b[0].dts)
  {
    var all := a + b;
    if Monotone(all) {
      forall i, j | 0 <= i < j < |a|
        ensures a[i].dts <= a[j].dts
      {
        assert all[i].dts <= all[j].dts;
      }
      forall i, j | 0 <= i < j < |b|
        ensures b[i].dts <= b[j].dts
      {
        assert all[|a| + i].dts <= all[|a| + j].dts;
      }
      if a != [] && b != [] {
        assert all[|a| - 1].dts <= all[|a|].dts;
      }
    }
    if Monotone(a) && Monotone(b) && (a != [] && b != [] ==> a[|a| - 1].dts <= b[0].dts) {
      forall i, j | 0 <= i < j < |all|
        ensures all[i].dts <= all[j].dts
      {
        if i < |a| <= j {
          assert a[i].dts <= a[|a| - 1].dts;
          assert b[0].dts <= b[j - |a|].dts;
        }
      }
    }
  }

  // Every start fits the timeline.
  predicate StartsFit(packets: seq<Packet>, off: int64) {
    forall j :: 0 <= j < |packets| ==> packets[j].dts + off < TWO63
  }

  // No segment has a start past the end of the timeline, and none that has packets starts before the last DTS that
  // came out, if any. Its offset is where the packets before it end - those that end within the timeline.
  predicate Forward(s: State, last: Option<int64>)
    requires s.cur.Some?
    decreases |s.source|
  {
    var packets := s.cur.value.packets;
    && StartsFit(packets, s.dtsOff)
    && (packets != [] && last.Some? ==> last.value <= packets[0].dts + s.dtsOff)
    && (s.cur.value.fails || s.source == [] || s.source[0].streams.None? ||
        Forward(EnterSpec(After(s)),
                if packets == [] then last else Some(Int64(packets[|packets| - 1].dts + s.dtsOff))))
  }

  // A start past the end of the timeline comes out negative.
  lemma Wraps(v: int)
    requires TWO63 <= v < TWO64
    ensures Int64(v) < 0
  {
    RemainderUnique(v, TWO64, 0, v);
  }

  // A segment comes out in order, and not before `last`, exactly when its starts fit and its first one is not
  // before `last`.
  lemma SegmentForward(s: State, last: Option<int64>)
    requires s.cur.Some? && Tidy(s.cur.value) && s.cur.value.packets != [] && s.dtsOff >= 0
    requires if last.Some? then last.value >= 0 else s.dtsOff == 0
    ensures var packets := s.cur.value.packets;
            var out := Shifted(packets, s.dtsOff, s.discontinuity, s.pending);
            && (Monotone(out) && (last.Some? ==> last.value <= out[0].dts)
                <==> StartsFit(packets, s.dtsOff) && (last.Some? ==> last.value <= packets[0].dts + s.dtsOff))
            && (StartsFit(packets, s.dtsOff) ==> out[|out| - 1].dts == packets[|packets| - 1].dts + s.dtsOff >= 0)
  {
    hide Int64;
    var packets := s.cur.value.packets;
    var out := Shifted(packets, s.dtsOff, s.discontinuity, s.pending);
    if !StartsFit(packets, s.dtsOff) {
      var j :| 0 <= j < |packets| && packets[j].dts + s.dtsOff >= TWO63;
      Wraps(packets[j].dts + s.dtsOff);
      if packets[0].dts + s.dtsOff >= TWO63 {
        Wraps(packets[0].dts + s.dtsOff);
      } else {
        assert out[j].dts < out[0].dts;
      }
    }
  }

  // In order, and not before `last`.
  ghost predicate OrderedAfter(outs: seq<Packet>, last: Option<int64>) {
    Monotone(outs) && (outs != [] && last.Some? ==> last.value <= outs[0].dts)
  }

  lemma OrderedJoin(a: seq<Packet>, b: seq<Packet>, last: Option<int64>)
    ensures OrderedAfter(a + b, last)
            <==> OrderedAfter(a, last) && OrderedAfter(b, if a == [] then last else Some(a[|a| - 1].dts))
  {
    hide Monotone;
    MonotoneJoin(a, b);
    if a == [] {
      assert a + b == b;
      NoneMonotone();
    }
  }

  lemma NoneMonotone()
    ensures Monotone([])
  {
  }

  // The segment in hand comes out in order after `last` exactly when the conditions on it hold.
  lemma CurrentForward(s: State, last: Option<int64>)
    requires s.cur.Some? && Tidy(s.cur.value) && s.dtsOff >= 0
    requires if last.Some? then last.value >= 0 else s.dtsOff == 0
    ensures var packets := s.cur.value.packets;
            var out := Shifted(packets, s.dtsOff, s.discontinuity, s.pending);
            && (OrderedAfter(out, last)
                <==> StartsFit(packets, s.dtsOff)
                     && (packets != [] && last.Some? ==> last.value <= packets[0].dts + s.dtsOff))
            && (packets != [] && StartsFit(packets, s.dtsOff) ==>
                  out[|out| - 1].dts == Int64(packets[|packets| - 1].dts + s.dtsOff) >= 0)
  {
    hide Tidy, Shifted, Monotone, Int64, StartsFit;
    NoneMonotone();
    if s.cur.value.packets != [] {
      SegmentForward(s, last);
    } else {
      NothingShifted(s);
    }
  }

  lemma {:induction false} ForwardExactly(s: State, last: Option<int64>)
    requires AllTidy(s) && s.dtsOff >= 0 && s.lastEnd >= 0
    requires if last.Some? then last.value >= 0 else s.dtsOff == 0 == s.lastEnd
    ensures OrderedAfter(Flatten(BySegment(s)), last) <==> Forward(s, last)
    decreases |s.source|
  {
    hide Tidy, Changed, Shifted, Flatten, BySegment, EndAfter, Int64, StartsFit, OrderedAfter;
    FlattenCons(s);
    EndAfterBounds(s.cur.value.packets, s.dtsOff, s.lastEnd);
    CurrentForward(s, last);
    var packets := s.cur.value.packets;
    var out := Shifted(packets, s.dtsOff, s.discontinuity, s.pending);
    OrderedJoin(out, Later(s), last);
    if s.cur.value.fails || s.source == [] || s.source[0].streams.None? {
      NothingLater(if out == [] then last else Some(out[|out| - 1].dts));
    } else if OrderedAfter(out, last) {
      NothingEnds(s);
      ForwardExactly(EnterSpec(After(s)), if packets == [] then last else Some(out[|out| - 1].dts));
    }
  }

  lemma NothingLater(last: Option<int64>)
    ensures OrderedAfter([], last)
  {
  }

  lemma NothingEnds(s: State)
    requires s.cur.Some?
    ensures s.cur.value.packets == [] ==> After(s).lastEnd == s.lastEnd
  {
  }

  lemma NothingShifted(s: State)
    requires s.cur.Some? && s.cur.value.packets == []
    ensures Shifted(s.cur.value.packets, s.dtsOff, s.discontinuity, s.pending) == []
    ensures StartsFit(s.cur.value.packets, s.dtsOff) && EndAfter([], s.dtsOff, s.lastEnd) == s.lastEnd
  {
  }

  function Started(first: Segment, rest: seq<Segment>, prev: Option<seq<Stream>>): State {
    State(Some(first), rest, 0, 0, false, prev, None)
  }

  // Over any number of tidy segments, empty ones included, the DTS that comes out never goes back, up to the first
  // error, if and only if no start leaves the 64-bit timeline and no segment starts before the last DTS.
  lemma ChainMonotone(first: Segment, rest: seq<Segment>, prev: Option<seq<Stream>>)
    requires Tidy(first) && forall k :: 0 <= k < |rest| ==> Tidy(rest[k])
    ensures Monotone(Drain(Started(first, rest, prev))) <==> Forward(Started(first, rest, prev), None)
  {
    hide Drain, Forward;
    var s := Started(first, rest, prev);
    DrainIsBySegment(s);
    ForwardExactly(s, None);
    assert OrderedAfter(Drain(s), None) <==> Monotone(Drain(s));
  }

  // ---- chains that end within the timeline ----

  // Where the packets end in unbounded time.
  function TrueEnd(packets: seq<Packet>, off: int, end: int): int
    decreases |packets|
  {
    if packets == [] then end
    else
      var e := packets[0].dts + off + packets[0].duration;
      TrueEnd(packets[1..], off, if e > end then e else end)
  }

  // Where the last packet to come out ends in unbounded time.
  function TotalEnd(seg: Segment, source: seq<Segment>, off: int, end: int): int
    decreases |source|
  {
    var e := TrueEnd(seg.packets, off, end);
    if seg.fails || source == [] || source[0].streams.None? then e else TotalEnd(source[0], source[1..], e, e)
  }

  lemma {:induction false} TrueEndBounds(packets: seq<Packet>, off: int, end: int)
    ensures TrueEnd(packets, off, end) >= end
    ensures forall j :: 0 <= j < |packets| ==>
              packets[j].dts + off + packets[j].duration <= TrueEnd(packets, off, end)
    decreases |packets|
  {
    if packets != [] {
      var e := packets[0].dts + off + packets[0].duration;
      TrueEndBounds(packets[1..], off, if e > end then e else end);
      forall j | 0 <= j < |packets|
        ensures packets[j].dts + off + packets[j].duration <= TrueEnd(packets, off, end)
      {
        assert j > 0 ==> packets[j] == packets[1..][j - 1];
      }
    }
  }

  lemma {:induction false} TotalGrows(seg: Segment, source: seq<Segment>, off: int, end: int)
    ensures TotalEnd(seg, source, off, end) >= TrueEnd(seg.packets, off, end) >= end
    decreases |source|
  {
    TrueEndBounds(seg.packets, off, end);
    var e := TrueEnd(seg.packets, off, end);
    if !(seg.fails || source == [] || source[0].streams.None?) {
      TotalGrows(source[0], source[1..], e, e);
    }
  }

  // Within the timeline, 64-bit ends are the true ones.
  lemma {:induction false} EndsTrue(packets: seq<Packet>, off: int64, end: int64)
    requires off >= 0 && TrueEnd(packets, off, end) < TWO63
    requires forall j :: 0 <= j < |packets| ==> packets[j].dts >= 0 && packets[j].duration >= 0
    ensures EndAfter(packets, off, end) == TrueEnd(packets, off, end)
    decreases |packets|
  {
    hide Int64;
    TrueEndBounds(packets, off, end);
    if packets != [] {
      var p := packets[0];
      assert EndOf(p, off) == p.dts + off + p.duration;
      EndsTrue(packets[1..], off, if EndOf(p, off) > end then EndOf(p, off) else end);
    }
  }

  // Every end of a segment's packets fits the timeline, and so on for the segments behind it.
  predicate Fits(s: State)
    requires s.cur.Some?
    decreases |s.source|
  {
    && (forall p <- s.cur.value.packets :: p.dts + s.dtsOff + p.duration < TWO63)
    && (s.cur.value.fails || s.source == [] || s.source[0].streams.None? || Fits(EnterSpec(After(s))))
  }

  lemma {:induction false} EndBelow(packets: seq<Packet>, off: int, end: int, bound: int)
    requires end < bound && forall p <- packets :: p.dts + off + p.duration < bound
    ensures TrueEnd(packets, off, end) < bound
    decreases |packets|
  {
    if packets != [] {
      var e := packets[0].dts + off + packets[0].duration;
      EndBelow(packets[1..], off, if e > end then e else end, bound);
    }
  }

  // Tidy segments fit the 64-bit timeline exactly when the end of the last packet does.
  lemma {:induction false} FitsExactly(s: State)
    requires AllTidy(s) && 0 <= s.dtsOff <= s.lastEnd
    ensures Fits(s) <==> TotalEnd(s.cur.value, s.source, s.dtsOff, s.lastEnd) < TWO63
    decreases |s.source|
  {
    hide Int64, Changed, EndAfter;
    var packets := s.cur.value.packets;
    TrueEndBounds(packets, s.dtsOff, s.lastEnd);
    TotalGrows(s.cur.value, s.source, s.dtsOff, s.lastEnd);
    if forall p <- packets :: p.dts + s.dtsOff + p.duration < TWO63 {
      EndBelow(packets, s.dtsOff, s.lastEnd, TWO63);
      EndsTrue(packets, s.dtsOff, s.lastEnd);
      if !(s.cur.value.fails || s.source == [] || s.source[0].streams.None?) {
        FitsExactly(EnterSpec(After(s)));
      }
    }
  }

  // A segment that ends within the timeline starts within it, after what came before.
  lemma ShortSegment(s: State)
    requires s.cur.Some? && Tidy(s.cur.value) && 0 <= s.dtsOff <= s.lastEnd
    requires TrueEnd(s.cur.value.packets, s.dtsOff, s.lastEnd) < TWO63
    ensures var packets := s.cur.value.packets;
            && StartsFit(packets, s.dtsOff)
            && After(s).lastEnd == TrueEnd(packets, s.dtsOff, s.lastEnd) >= s.lastEnd
            && (packets != [] ==> s.dtsOff <= packets[0].dts + s.dtsOff)
            && (packets != [] ==> Int64(packets[|packets| - 1].dts + s.dtsOff) <= After(s).lastEnd)
  {
    hide Int64, EndAfter, TrueEnd;
    var packets := s.cur.value.packets;
    TrueEndBounds(packets, s.dtsOff, s.lastEnd);
    EndsTrue(packets, s.dtsOff, s.lastEnd);
  }

  lemma {:induction false} ShortIsForward(s: State, last: Option<int64>)
    requires AllTidy(s) && 0 <= s.dtsOff <= s.lastEnd && TotalEnd(s.cur.value, s.source, s.dtsOff, s.lastEnd) < TWO63
    requires last.Some? ==> last.value <= s.dtsOff
    ensures Forward(s, last)
    decreases |s.source|
  {
    hide Int64, Changed, Tidy, EndAfter, TrueEnd, StartsFit;
    var packets := s.cur.value.packets;
    TotalGrows(s.cur.value, s.source, s.dtsOff, s.lastEnd);
    ShortSegment(s);
    if !(s.cur.value.fails || s.source == [] || s.source[0].streams.None?) {
      var n := |packets|;
      var last' := if packets == [] then last else Some(Int64(packets[n - 1].dts + s.dtsOff));
      ShortIsForward(EnterSpec(After(s)), last');
    }
  }

  // A chain whose last packet ends within the 64-bit timeline never goes back.
  lemma ShortChainMonotone(first: Segment, rest: seq<Segment>, prev: Option<seq<Stream>>)
    requires Tidy(first) && forall k :: 0 <= k < |rest| ==> Tidy(rest[k])
    requires TotalEnd(first, rest, 0, 0) < TWO63
    ensures Monotone(Drain(Started(first, rest, prev)))
  {
    hide Drain, Forward, TotalEnd;
    ShortIsForward(Started(first, rest, prev), None);
    ChainMonotone(first, rest, prev);
  }

  // Past that end the DTS wraps and goes back: a segment that lasts to the end of the timeline, and two packets more.
  lemma ChainWraps()
    ensures var long := Segment(Some([]), [Packet(0, 0, TWO63 - 1, None, false)], false, false);
            var more := Segment(Some([]), [Packet(1, 0, 1, None, false), Packet(2, 1, 1, None, false)], false, false);
            Tidy(long) && Tidy(more) && !Monotone(Drain(Started(long, [more], None)))
  {
    hide Drain, ReadSpec, Left;
    var a, b, d := Packet(0, 0, TWO63 - 1, None, false), Packet(1, 0, 1, None, false), Packet(2, 1, 1, None, false);
    var long, more := Segment(Some([]), [a], false, false), Segment(Some([]), [b, d], false, false);
    var s0 := Started(long, [more], None);
    var s1 := EmitSpec(s0).0;
    assert s1.lastEnd == TWO63 - 1 && s1.cur.value.packets == [] && s1.source == [more] && [more][1..] == [];
    var s2 := EnterSpec(s1);
    assert s2.cur == Some(more) && s2.dtsOff == TWO63 - 1;
    var s3 := EmitSpec(s2).0;
    assert [b, d][1..] == [d];
    assert s3.cur.value.packets == [d] && s3.dtsOff == TWO63 - 1;
    NextOut(s0);
    EntersNext(s1);
    NextOut(s2);
    NextOut(s3);
    var out := Drain(s0);
    assert out == [EmitSpec(s0).1] + ([EmitSpec(s2).1] + ([EmitSpec(s3).1] + Drain(EmitSpec(s3).0)));
    assert out[1].dts == TWO63 - 1 && out[2].dts == -TWO63;
  }

  lemma NextOut(s: State)
    requires s.cur.Some? && s.cur.value.packets != []
    ensures Drain(s) == [EmitSpec(s).1] + Drain(EmitSpec(s).0)
  {
    hide EmitSpec;
  }

  lemma EntersNext(s: State)
    requires s.cur.Some? && s.cur.value.packets == [] && !s.cur.value.fails
    requires s.source != [] && s.source[0].streams.Some?
    ensures Drain(s) == Drain(EnterSpec(s))
  {
    hide EmitSpec, Changed;
  }

  // ---- codec changes ----

  // Segments that all hold packets, none of which announces a codec change itself.
  ghost predicate Plain(s: State) {
    && s.cur.Some? && PlainSegment(s.cur.value)
    && forall k :: 0 <= k < |s.source| ==> PlainSegment(s.source[k])
  }

  ghost predicate PlainSegment(seg: Segment) {
    seg.packets != [] && forall j :: 0 <= j < |seg.packets| ==> seg.packets[j].newCodecs.None?
  }

  // What the first packet of the k-th segment announces.
  function Announced(s: State, k: nat): Option<seq<Stream>>
    requires s.cur.Some? && k < |BySegment(s)|
  {
    if k == 0 then s.pending
    else
      SegmentsInOrder(s, k);
      var before := if k == 1 then s.prevStreams else s.source[k - 2].streams;
      var now := s.source[k - 1].streams;
      if before.Some? && now.Some? && Changed(before.value, now.value) then now else None
  }

  // A packet announces a codec change exactly when it is the first of a segment whose streams differ from those
  // of the segment before, and then it announces the new ones.
  lemma {:induction false} CodecChangesMarked(s: State, k: nat, j: nat)
    requires Plain(s) && k < |BySegment(s)| && j < |BySegment(s)[k]|
    ensures BySegment(s)[k][j].newCodecs == if j == 0 then Announced(s, k) else None
    decreases k
  {
    hide Int64, EndAfter, Changed;
    if k > 0 {
      var s' := EnterSpec(After(s));
      assert BySegment(s)[k] == BySegment(s')[k - 1];
      CodecChangesMarked(s', k - 1, j);
      SegmentsInOrder(s, k);
      SegmentsInOrder(s', k - 1);
    }
  }
}
