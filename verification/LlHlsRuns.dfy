/** What every sequence of calls to the low-latency HLS muxer keeps. */
module LlHlsRuns {
  import opened Bytes
  import opened Wrappers
  import Fragment
  import opened FragmentWriter
  import opened LlHls
  import opened Ticks
  import Fmp4 = FragmentMuxer
  import Runs = FragmentMuxerRuns

  datatype Call = Header(streams: seq<Fmp4.Stream>) | Write(p: Packet) | Codec(changed: seq<Fmp4.Stream>) | Trailer

  function Step(c: Config, s: State, call: Call): State
    requires Ready(s)
  {
    match call
    case Header(streams) => HeaderSpec(c, s, streams).0
    case Write(p) => WriteSpec(c, s, p).0
    case Codec(changed) => CodecSpec(c, s, changed).0
    case Trailer => TrailerSpec(c, s).0
  }

  lemma EmitReady(c: Config, s: State, nextIsKey: bool)
    requires s.cur.Some? && s.fw.Some? && s.fw.value.Valid()
    ensures var s' := EmitSpec(c, s, nextIsKey);
            && s'.fw == Some(Flushed(s.fw.value)) && s'.fw.value.Valid() && s'.cur.Some? && s'.made == []
            && s'.written == s.written && s'.closed == s.closed && s'.seenFirstKey == s.seenFirstKey
            && s'.streams == s.streams && s'.initData == s.initData
  {
    hide NextPart, LastOf, DataOf, Flushed;
  }

  lemma StepReady(c: Config, s: State, call: Call)
    requires Ready(s)
    ensures Ready(Step(c, s, call))
  {
    hide EmitSpec, FinaliseSpec, NewWriter, Added, AcceptedAs, Fmp4.HasSamples, Fmp4.HasVideo, ReplaceAll;
    if s.fw.Some? {
      EmitReady(c, s, false);
      match call
      case Header(_) =>
      case Write(p) => EmitReady(c, s.(seenFirstKey := true), IsVideoKey(s.fw.value, p));
      case Codec(_) =>
      case Trailer =>
        var s1 := s.(closed := true);
        EmitReady(c, s1, false);
        FinaliseKeeps(c, EmitSpec(c, s1, false));
        FinaliseKeeps(c, s1);
    } else if s.cur.Some? {
      FinaliseKeeps(c, s.(closed := true));
    }
  }

  lemma FinaliseKeeps(c: Config, s: State)
    requires s.cur.Some?
    ensures var s' := FinaliseSpec(c, s);
            && s'.cur.Some? && s'.fw == s.fw && s'.made == s.made
            && s'.written == s.written && s'.closed == s.closed && s'.seenFirstKey == s.seenFirstKey
  {
    hide LastOf, DataOf;
  }

  function Run(c: Config, calls: seq<Call>): (s: State)
    ensures Ready(s)
  {
    if calls == [] then START
    else
      var before := Run(c, calls[..|calls| - 1]);
      StepReady(c, before, calls[|calls| - 1]);
      Step(c, before, calls[|calls| - 1])
  }

  lemma RunNext(c: Config, calls: seq<Call>, call: Call)
    ensures Run(c, calls + [call]) == Step(c, Run(c, calls), call)
    ensures Run(c, []) == START
  {
    assert (calls + [call])[..|calls|] == calls;
  }

  // ---- the window ----

  function SumOf(parts: seq<Part>): int {
    if parts == [] then 0 else SumOf(parts[..|parts| - 1]) + parts[|parts| - 1].duration
  }

  // Parts are numbered from 0 under their segment, and the segment lasts as long as they do.
  ghost predicate PartsOk(seg: Segment) {
    && (forall j :: 0 <= j < |seg.parts| ==> seg.parts[j].segSeqNo == seg.seqNo && seg.parts[j].partIdx == j)
    && seg.duration == SumOf(seg.parts)
  }

  ghost predicate Complete(seg: Segment, maxDur: int) {
    PartsOk(seg) && seg.data == DataOf(seg.parts) && seg.duration <= maxDur
  }

  // Everything completed so far is numbered 0, 1, 2, ... up to the current segment, and the window keeps the end.
  ghost predicate WindowOk(c: Config, s: State) {
    && s.comp == LastOf(s.all, c.segBufferCount)
    && (s.written <==> s.cur.Some?)
    && (s.cur.None? ==> s.all == [])
    && (s.cur.Some? ==> s.cur.value.seqNo == |s.all| && PartsOk(s.cur.value))
    && (forall i :: 0 <= i < |s.all| ==> s.all[i].seqNo == i && Complete(s.all[i], s.maxSegDur))
  }

  lemma LastOfIs(all: seq<Segment>, n: nat)
    ensures var kept := LastOf(all, n);
            && |kept| <= n && |kept| <= |all| && (n > 0 && all != [] ==> kept != [])
            && forall k :: 0 <= k < |kept| ==> kept[k] == all[|all| - |kept| + k]
  {
  }

  lemma LastOfSnoc(all: seq<Segment>, x: Segment, n: nat)
    ensures LastOf(LastOf(all, n) + [x], n) == LastOf(all + [x], n)
  {
    var kept := LastOf(all, n);
    assert kept + [x] == (all + [x])[|all| - |kept|..];
    if |all| >= n {
      assert |kept| == n;
    }
  }

  lemma FinaliseWindow(c: Config, s: State)
    requires WindowOk(c, s) && s.cur.Some?
    ensures WindowOk(c, FinaliseSpec(c, s))
  {
    hide LastOf, PartsOk, Complete, DataOf;
    var s' := FinaliseSpec(c, s);
    var done := s.cur.value.(data := DataOf(s.cur.value.parts));
    LastOfSnoc(s.all, done, c.segBufferCount);
    FreshSegment(done.seqNo + 1);
    assert s'.all == s.all + [done] && s'.comp == LastOf(s'.all, c.segBufferCount);
    forall i | 0 <= i < |s'.all|
      ensures s'.all[i].seqNo == i && Complete(s'.all[i], s'.maxSegDur)
    {
      if i < |s.all| {
        CompleteLonger(s.all[i], s.maxSegDur, s'.maxSegDur);
      } else {
        CompleteNow(s.cur.value, s'.maxSegDur);
      }
    }
  }

  lemma CompleteLonger(seg: Segment, a: int, b: int)
    requires Complete(seg, a) && a <= b
    ensures Complete(seg, b)
  {
  }

  lemma CompleteNow(seg: Segment, maxDur: int)
    requires PartsOk(seg) && seg.duration <= maxDur
    ensures Complete(seg.(data := DataOf(seg.parts)), maxDur)
  {
  }

  lemma PartAdded(seg: Segment, part: Part)
    requires PartsOk(seg) && part.segSeqNo == seg.seqNo && part.partIdx == |seg.parts|
    ensures PartsOk(seg.(parts := seg.parts + [part], duration := seg.duration + part.duration))
  {
    assert (seg.parts + [part])[..|seg.parts|] == seg.parts;
  }

  lemma EmitWindow(c: Config, s: State, nextIsKey: bool)
    requires WindowOk(c, s) && s.cur.Some? && s.fw.Some?
    ensures WindowOk(c, EmitSpec(c, s, nextIsKey))
  {
    hide LastOf, PartsOk, Complete, FinaliseSpec, FlushBytes, Flushed, FirstIsKey;
    var seg, part := s.cur.value, NextPart(s);
    PartAdded(seg, part);
    var grown := seg.(parts := seg.parts + [part], duration := seg.duration + s.partDur);
    FinaliseWindow(c, s.(fw := Some(Flushed(s.fw.value)), made := [], cur := Some(grown), partDur := 0));
  }

  lemma StepWindow(c: Config, s: State, call: Call)
    requires WindowOk(c, s) && Ready(s)
    ensures WindowOk(c, Step(c, s, call))
  {
    hide LastOf, PartsOk, Complete, FinaliseSpec, EmitSpec, NewWriter, Added, AcceptedAs, Fmp4.HasSamples,
      Fmp4.HasVideo, ReplaceAll;
    match call
    case Header(_) => FreshSegment(0);
    case Write(p) =>
      if s.written {
        var key := IsVideoKey(s.fw.value, p);
        EmitWindow(c, s.(seenFirstKey := true), key);
        EmitReady(c, s.(seenFirstKey := true), key);
      }
    case Codec(_) =>
      if s.written {
        EmitWindow(c, s, false);
        EmitReady(c, s, false);
      }
    case Trailer => TrailerWindow(c, s);
  }

  lemma TrailerWindow(c: Config, s: State)
    requires WindowOk(c, s) && Ready(s)
    ensures WindowOk(c, TrailerSpec(c, s).0)
  {
    hide LastOf, PartsOk, Complete, FinaliseSpec, EmitSpec, Fmp4.HasSamples;
    var s1 := s.(closed := true);
    if s.written {
      EmitWindow(c, s1, false);
      EmitReady(c, s1, false);
      var s2 := if Fmp4.HasSamples(s1.fw.value.tracks) then EmitSpec(c, s1, false) else s1;
      FinaliseWindow(c, s2);
    }
  }

  lemma FreshSegment(n: nat)
    ensures PartsOk(Segment(n, 0, [], []))
  {
  }

  lemma {:induction false} RunWindow(c: Config, calls: seq<Call>)
    ensures WindowOk(c, Run(c, calls))
  {
    hide Step, PartsOk, Complete;
    if calls != [] {
      RunWindow(c, calls[..|calls| - 1]);
      StepWindow(c, Run(c, calls[..|calls| - 1]), calls[|calls| - 1]);
    }
  }

  // After any calls, the listed segments are consecutively numbered up to just before the current one and are the
  // newest ones; each is the concatenation of its parts, numbered from 0; and none lasts longer than the longest
  // on record or than the advertised target duration.
  lemma WindowConsecutive(c: Config, calls: seq<Call>, i: nat)
    requires i < |Run(c, calls).comp|
    ensures var s := Run(c, calls);
            var seg := s.comp[i];
            && |s.comp| <= c.segBufferCount
            && s.cur.Some? && seg.seqNo + |s.comp| == s.cur.value.seqNo + i
            && seg.data == DataOf(seg.parts)
            && (forall j :: 0 <= j < |seg.parts| ==> seg.parts[j].segSeqNo == seg.seqNo && seg.parts[j].partIdx == j)
            && seg.duration == SumOf(seg.parts) && seg.duration <= s.maxSegDur
            && seg.duration <= TargetDuration(c, s) * SECOND
  {
    hide LastOf, Run, SumOf, DataOf;
    RunWindow(c, calls);
    var s := Run(c, calls);
    LastOfIs(s.all, c.segBufferCount);
    var k := |s.all| - |s.comp| + i;
    assert s.comp[i] == s.all[k];
    assert Complete(s.all[k], s.maxSegDur);
  }

  // ---- serving ----

  lemma {:induction false} FindListed(segs: seq<Segment>, low: nat, n: nat)
    requires forall i :: 0 <= i < |segs| ==> segs[i].seqNo == low + i
    ensures Find(segs, n) == if low <= n < low + |segs| then Some(segs[n - low]) else None
  {
    if segs != [] {
      FindListed(segs[1..], low + 1, n);
    }
  }

  // The parts of a segment as they are served one by one.
  function ServedParts(s: State, n: nat, count: nat): bytes {
    if count == 0 then []
    else
      var d := PartData(s, n, count - 1);
      ServedParts(s, n, count - 1) + if d.Some? then d.value else []
  }

  lemma {:induction false} ServedIs(s: State, n: nat, seg: Segment, count: nat)
    requires Find(s.comp, n) == Some(seg) && count <= |seg.parts|
    ensures ServedParts(s, n, count) == DataOf(seg.parts[..count])
    decreases count
  {
    if count > 0 {
      ServedIs(s, n, seg, count - 1);
      assert seg.parts[..count][..count - 1] == seg.parts[..count - 1];
    }
  }

  // A complete segment is served as exactly the bytes of its parts served one after the other, and every segment
  // in the window is found.
  lemma SegmentIsItsParts(c: Config, calls: seq<Call>, n: nat)
    ensures var s := Run(c, calls);
            && (SegmentData(s.comp, n).Some? <==> s.cur.Some? && s.cur.value.seqNo - |s.comp| <= n < s.cur.value.seqNo)
            && (SegmentData(s.comp, n).Some? ==>
                  SegmentData(s.comp, n).value == ServedParts(s, n, |Find(s.comp, n).value.parts|))
  {
    hide Run;
    RunWindow(c, calls);
    var s := Run(c, calls);
    if s.comp != [] {
      var low := |s.all| - |s.comp|;
      forall i | 0 <= i < |s.comp|
        ensures s.comp[i].seqNo == low + i && s.comp[i].data == DataOf(s.comp[i].parts)
      {
        WindowConsecutive(c, calls, i);
      }
      FindListed(s.comp, low, n);
      if low <= n < low + |s.comp| {
        var seg := s.comp[n - low];
        ServedIs(s, n, seg, |seg.parts|);
        assert seg.parts[..|seg.parts|] == seg.parts;
      }
    }
  }

  // ---- availability ----

  // Availability in terms of everything completed so far.
  ghost predicate AvailableIn(all: seq<Segment>, curParts: int, msn: nat, pIdx: int, hasPIdx: bool) {
    || msn + 1 < |all|
    || (msn + 1 == |all| && (!hasPIdx || pIdx < |all[msn].parts|))
    || (msn == |all| && hasPIdx && pIdx < curParts)
  }

  lemma AvailableMeans(c: Config, s: State, msn: nat, pIdx: int, hasPIdx: bool)
    requires WindowOk(c, s) && s.cur.Some? && c.segBufferCount >= 1
    ensures Available(s, msn, pIdx, hasPIdx) <==> AvailableIn(s.all, |s.cur.value.parts|, msn, pIdx, hasPIdx)
  {
    hide PartsOk, Complete, LastOf;
    LastOfIs(s.all, c.segBufferCount);
    var low := |s.all| - |s.comp|;
    assert forall k :: 0 <= k < |s.comp| ==> s.comp[k] == s.all[low + k] && s.comp[k].seqNo == low + k;
    if s.all != [] {
      var last := |s.comp| - 1;
      assert s.comp[last].seqNo == |s.all| - 1;
      if AvailableIn(s.all, |s.cur.value.parts|, msn, pIdx, hasPIdx) && msn < |s.all| {
        assert Answers(s.comp[last], msn, pIdx, hasPIdx);
      }
    }
  }

  // Calls only add parts to the current segment, or complete it and start the next.
  ghost predicate Grows(s: State, s': State) {
    && s.all <= s'.all
    && (s.cur.Some? ==> s'.cur.Some?)
    && (s.cur.Some? && |s'.all| == |s.all| ==> s.cur.value.parts <= s'.cur.value.parts)
    && (s.cur.Some? && |s'.all| > |s.all| ==> s.cur.value.parts <= s'.all[|s.all|].parts)
  }

  lemma EmitGrows(c: Config, s: State, nextIsKey: bool)
    requires s.cur.Some? && s.fw.Some?
    ensures Grows(s, EmitSpec(c, s, nextIsKey)) && |EmitSpec(c, s, nextIsKey).all| <= |s.all| + 1
    ensures nextIsKey || EmitSpec(c, s, nextIsKey).all == s.all
  {
    hide LastOf, DataOf, FlushBytes, Flushed, FirstIsKey;
  }

  lemma StepGrows(c: Config, s: State, call: Call)
    requires Ready(s) && (s.written <==> s.cur.Some?)
    ensures Grows(s, Step(c, s, call))
  {
    hide LastOf, DataOf, EmitSpec, NewWriter, Added, AcceptedAs, Fmp4.HasSamples, Fmp4.HasVideo, ReplaceAll;
    match call
    case Header(_) =>
    case Write(p) =>
      if s.written {
        EmitGrows(c, s.(seenFirstKey := true), IsVideoKey(s.fw.value, p));
        EmitReady(c, s.(seenFirstKey := true), IsVideoKey(s.fw.value, p));
      }
    case Codec(_) =>
      if s.written {
        EmitGrows(c, s, false);
      }
    case Trailer =>
      if s.written {
        EmitGrows(c, s.(closed := true), false);
      }
  }

  // With room for at least one complete segment, a part or segment that is available stays so.
  lemma AvailableStays(c: Config, calls: seq<Call>, call: Call, msn: nat, pIdx: int, hasPIdx: bool)
    requires c.segBufferCount >= 1 && Available(Run(c, calls), msn, pIdx, hasPIdx)
    ensures Available(Run(c, calls + [call]), msn, pIdx, hasPIdx)
  {
    hide Step, Available, Complete, PartsOk;
    var s, s' := Run(c, calls), Run(c, calls + [call]);
    assert (calls + [call])[..|calls|] == calls;
    RunWindow(c, calls);
    RunWindow(c, calls + [call]);
    NoneAvailable(s, msn, pIdx, hasPIdx);
    StepGrows(c, s, call);
    if s.cur.Some? {
      AvailableMeans(c, s, msn, pIdx, hasPIdx);
      AvailableMeans(c, s', msn, pIdx, hasPIdx);
      GrowsKeeps(s, s', msn, pIdx, hasPIdx);
    }
  }

  lemma NoneAvailable(s: State, msn: nat, pIdx: int, hasPIdx: bool)
    ensures s.cur.None? && s.comp == [] ==> !Available(s, msn, pIdx, hasPIdx)
  {
  }

  lemma GrowsKeeps(s: State, s': State, msn: nat, pIdx: int, hasPIdx: bool)
    requires Grows(s, s') && s.cur.Some? && AvailableIn(s.all, |s.cur.value.parts|, msn, pIdx, hasPIdx)
    ensures s'.cur.Some? && AvailableIn(s'.all, |s'.cur.value.parts|, msn, pIdx, hasPIdx)
  {
    if msn + 1 == |s.all| {
      assert s'.all[msn] == s.all[msn];
    }
  }

  // ---- no packet is lost ----

  function MadeOf(parts: seq<Part>): seq<Runs.Accepted> {
    if parts == [] then [] else MadeOf(parts[..|parts| - 1]) + parts[|parts| - 1].made
  }

  function MadeOfAll(segs: seq<Segment>): seq<Runs.Accepted> {
    if segs == [] then [] else MadeOfAll(segs[..|segs| - 1]) + MadeOf(segs[|segs| - 1].parts)
  }

  lemma NoParts()
    ensures SumOf([]) == 0 && MadeOf([]) == [] && DataOf([]) == []
  {
  }

  // Whether a packet goes into the fragment writer: between header and trailer, from the first keyframe on, and
  // only if its stream is known.
  predicate Accepts(s: State, p: Packet)
    requires Ready(s)
  {
    s.written && !s.closed && (s.seenFirstKey || IsVideoKey(s.fw.value, p)) && Known(s.fw.value, p.av)
  }

  function AcceptedBy(c: Config, calls: seq<Call>): seq<Runs.Accepted> {
    if calls == [] then []
    else
      var front, last := calls[..|calls| - 1], calls[|calls| - 1];
      var s := Run(c, front);
      AcceptedBy(c, front) + if last.Write? && Accepts(s, last.p) then [AcceptedAs(s.fw.value, last.p.av)] else []
  }

  // The packets of every part so far, and those the fragment writer holds.
  function Held(s: State): seq<Runs.Accepted> {
    MadeOfAll(s.all) + (if s.cur.Some? then MadeOf(s.cur.value.parts) else []) + s.made
  }

  // A header is what makes a current segment and a writer, and the writer holds what was accepted since its flush.
  ghost predicate Settled(s: State) {
    && Ready(s)
    && (s.written <==> s.cur.Some?) && (s.written <==> s.fw.Some?)
    && if s.fw.Some? then Holds(s.fw.value, s.made) else s.made == []
  }

  lemma FlushKeepsTracks(w: WriterState, pkt: Fmp4.AvPacket)
    requires w.Valid() && Known(w, pkt)
    ensures Known(Flushed(w), pkt) && AcceptedAs(Flushed(w), pkt) == AcceptedAs(w, pkt)
  {
    hide Fmp4.EmsgCount, Fmp4.AllSamples, Fmp4.Active, Fragment.SumDurations, Fmp4.PatchLast, Fmp4.HasSamples, ToTicks,
      QuoTrunc, Int32;
  }

  lemma FinaliseHeld(c: Config, s: State)
    requires s.cur.Some?
    ensures Held(FinaliseSpec(c, s)) == Held(s)
  {
    hide LastOf, DataOf;
    var s' := FinaliseSpec(c, s);
    assert s'.all[..|s.all|] == s.all;
    NoParts();
    assert Held(s') == MadeOfAll(s.all) + MadeOf(s.cur.value.parts) + [] + s.made;
  }

  // A flush moves what the writer holds into a part of the current segment.
  lemma EmitGrown(s: State) returns (grown: Segment)
    requires s.cur.Some? && s.fw.Some? && Holds(s.fw.value, s.made)
    ensures |NextPart(s).data| == 0 <==> s.made == []
    ensures var seg := s.cur.value;
            grown == seg.(parts := seg.parts + [NextPart(s)], duration := seg.duration + s.partDur)
    ensures MadeOf(grown.parts) == MadeOf(s.cur.value.parts) + s.made
    ensures s.made == [] ==> Flushed(s.fw.value) == s.fw.value
  {
    hide Flushed, FlushBytes, FirstIsKey, Holds;
    FlushWritesAll(s.fw.value, s.made);
    var seg := s.cur.value;
    grown := seg.(parts := seg.parts + [NextPart(s)], duration := seg.duration + s.partDur);
    assert grown.parts[..|seg.parts|] == seg.parts;
    NothingToFlush(s.fw.value, s.made);
  }

  lemma NothingToFlush(w: WriterState, made: seq<Runs.Accepted>)
    requires Holds(w, made)
    ensures made == [] ==> Flushed(w) == w
  {
    hide Fmp4.HasSamples, Holds, Fmp4.EmsgCount, Fmp4.AllSamples, Fmp4.Active, Fmp4.PatchAll, Fmp4.ClearAll;
    HoldsSome(w, made);
  }

  // A flush of nothing changes nothing; another adds the part, and may complete the segment.
  lemma EmitShape(c: Config, s: State, nextIsKey: bool) returns (s': State)
    requires s.cur.Some? && s.fw.Some? && Holds(s.fw.value, s.made)
    ensures s.made == [] ==> EmitSpec(c, s, nextIsKey) == s
    ensures s'.cur.Some? && s'.cur.value.parts == s.cur.value.parts + [NextPart(s)]
    ensures MadeOf(s'.cur.value.parts) == MadeOf(s.cur.value.parts) + s.made
    ensures s'.all == s.all && s'.made == []
    ensures s.made != [] ==>
              EmitSpec(c, s, nextIsKey) == s' || (nextIsKey && EmitSpec(c, s, nextIsKey) == FinaliseSpec(c, s'))
  {
    hide FinaliseSpec, Flushed, Holds, NextPart, MadeOf;
    var grown := EmitGrown(s);
    s' := s.(fw := Some(Flushed(s.fw.value)), made := [], cur := Some(grown), partDur := 0);
  }

  lemma EmitHeld(c: Config, s: State, nextIsKey: bool)
    requires s.cur.Some? && Settled(s)
    ensures Held(EmitSpec(c, s, nextIsKey)) == Held(s) && Settled(EmitSpec(c, s, nextIsKey))
  {
    hide EmitSpec, Flushed, Holds, Held;
    EmitReady(c, s, nextIsKey);
    FlushWritesAll(s.fw.value, s.made);
    EmitMoves(c, s, nextIsKey);
  }

  lemma EmitMoves(c: Config, s: State, nextIsKey: bool)
    requires s.cur.Some? && s.fw.Some? && Holds(s.fw.value, s.made)
    ensures Held(EmitSpec(c, s, nextIsKey)) == Held(s)
  {
    hide EmitSpec, FinaliseSpec, MadeOf, MadeOfAll, Holds, NextPart;
    var s' := EmitShape(c, s, nextIsKey);
    if s.made != [] {
      var a, b := MadeOfAll(s.all), MadeOf(s.cur.value.parts);
      assert a + (b + s.made) + [] == a + b + s.made;
      FinaliseHeld(c, s');
    }
  }

  lemma WriteHeld(c: Config, s: State, p: Packet)
    requires Settled(s)
    ensures var s' := WriteSpec(c, s, p).0;
            && Settled(s')
            && Held(s') == Held(s) + if Accepts(s, p) then [AcceptedAs(s.fw.value, p.av)] else []
  {
    hide EmitSpec, MadeOf, MadeOfAll, Holds, Added, AcceptedAs, Flushed, Known, Fmp4.HasSamples, Fmp4.HasVideo;
    assert Held(s) + [] == Held(s);
    if s.written && !s.closed && (s.seenFirstKey || IsVideoKey(s.fw.value, p)) {
      var s1, key := s.(seenFirstKey := true), IsVideoKey(s.fw.value, p);
      var flush := Fmp4.HasSamples(s1.fw.value.tracks) && (key || s1.partDur >= c.partTarget);
      EmitHeld(c, s1, key);
      EmitReady(c, s1, key);
      assert Held(s1) == Held(s);
      var s2 := if flush then EmitSpec(c, s1, key) else s1;
      FlushKnows(s.fw.value, p.av);
      if Known(s.fw.value, p.av) {
        FlushKeepsTracks(s.fw.value, p.av);
      }
      AddHeld(s2, p);
    }
  }

  lemma FlushKnows(w: WriterState, pkt: Fmp4.AvPacket)
    ensures Known(Flushed(w), pkt) == Known(w, pkt)
  {
  }

  lemma AddHeld(s: State, p: Packet)
    requires Settled(s) && s.written
    ensures Settled(AddSpec(s, p))
    ensures Held(AddSpec(s, p)) == Held(s) + if Known(s.fw.value, p.av) then [AcceptedAs(s.fw.value, p.av)] else []
  {
    hide MadeOf, MadeOfAll, Holds, Added, AcceptedAs, Known;
    AddHolds(s.fw.value, s.made, p.av);
    var a := MadeOfAll(s.all) + MadeOf(s.cur.value.parts);
    if Known(s.fw.value, p.av) {
      var x := AcceptedAs(s.fw.value, p.av);
      assert a + (s.made + [x]) == a + s.made + [x];
    } else {
      assert Held(s) + [] == Held(s);
    }
  }

  lemma TrailerHeld(c: Config, s: State)
    requires Settled(s)
    ensures var s' := TrailerSpec(c, s).0;
            && Settled(s') && Held(s') == Held(s)
            && (!s.closed ==> s'.made == [] && (s'.cur.Some? ==> s'.cur.value.parts == []))
  {
    hide EmitSpec, FinaliseSpec, MadeOf, MadeOfAll, Holds, Fmp4.HasSamples;
    var s1 := s.(closed := true);
    assert Held(s1) == Held(s);
    if s.cur.Some? {
      HoldsSome(s.fw.value, s.made);
      EmitHeld(c, s1, false);
      EmitReady(c, s1, false);
      var s2 := if Fmp4.HasSamples(s1.fw.value.tracks) then EmitSpec(c, s1, false) else s1;
      FinaliseHeld(c, s2);
      FinaliseKeeps(c, s2);
      FinaliseEmpty(c, s2);
    }
  }

  lemma FinaliseEmpty(c: Config, s: State)
    requires s.cur.Some?
    ensures FinaliseSpec(c, s).cur.value.parts == []
  {
  }

  lemma CodecHeld(c: Config, s: State, changed: seq<Fmp4.Stream>)
    requires Settled(s)
    ensures var s' := CodecSpec(c, s, changed).0;
            Settled(s') && Held(s') == Held(s)
  {
    hide EmitSpec, MadeOf, MadeOfAll, Holds, Fmp4.HasSamples, NewWriter, ReplaceAll;
    if s.cur.Some? {
      HoldsSome(s.fw.value, s.made);
      EmitHeld(c, s, false);
      EmitReady(c, s, false);
      var s1 := if Fmp4.HasSamples(s.fw.value.tracks) then EmitSpec(c, s, false) else s;
      NewHoldsNothing(ReplaceAll(s1.streams, changed));
    }
  }

  lemma HeaderHeld(c: Config, s: State, streams: seq<Fmp4.Stream>)
    requires Settled(s)
    ensures var s' := HeaderSpec(c, s, streams).0;
            Settled(s') && Held(s') == Held(s)
  {
    hide NewWriter, Holds;
    NoParts();
    NewHoldsNothing(streams);
  }

  lemma StepHeld(c: Config, s: State, call: Call)
    requires Settled(s)
    ensures var s' := Step(c, s, call);
            && Settled(s')
            && Held(s') == Held(s) + if call.Write? && Accepts(s, call.p) then [AcceptedAs(s.fw.value, call.p.av)]
                                     else []
  {
    hide HeaderSpec, WriteSpec, CodecSpec, TrailerSpec, Held, Settled, Accepts, AcceptedAs;
    SettledReady(s);
    assert Held(s) + [] == Held(s);
    match call
    case Header(streams) => HeaderHeld(c, s, streams);
    case Write(p) => WriteHeld(c, s, p);
    case Codec(changed) => CodecHeld(c, s, changed);
    case Trailer => TrailerHeld(c, s);
  }

  lemma SettledReady(s: State)
    requires Settled(s)
    ensures Ready(s)
  {
  }

  lemma {:induction false} RunHeld(c: Config, calls: seq<Call>)
    ensures Held(Run(c, calls)) == AcceptedBy(c, calls) && Settled(Run(c, calls))
  {
    hide Step, Held, Settled, Accepts, AcceptedAs;
    if calls == [] {
      NothingHeld();
    } else {
      var front := calls[..|calls| - 1];
      RunHeld(c, front);
      StepHeld(c, Run(c, front), calls[|calls| - 1]);
    }
  }

  lemma NothingHeld()
    ensures Held(START) == [] && Settled(START)
  {
  }

  // Every accepted packet is in exactly one part, in order, or still in the writer's buffer; once the trailer is
  // written nothing is left in the buffer or outside a complete segment.
  lemma NothingLost(c: Config, calls: seq<Call>)
    ensures Held(Run(c, calls)) == AcceptedBy(c, calls)
    ensures !Run(c, calls).closed ==>
              var s := Run(c, calls + [Trailer]);
              s.closed && MadeOfAll(s.all) == AcceptedBy(c, calls)
  {
    hide EmitSpec, FinaliseSpec, MadeOfAll, AcceptedBy;
    RunHeld(c, calls);
    var s := Run(c, calls);
    if !s.closed {
      RunNext(c, calls, Trailer);
      TrailerHeld(c, s);
      TrailerCloses(c, s);
      var s' := Run(c, calls + [Trailer]);
      NoParts();
      var a := MadeOfAll(s'.all);
      assert a + [] + [] == a;
    }
  }

  lemma TrailerCloses(c: Config, s: State)
    requires Ready(s)
    ensures TrailerSpec(c, s).0.closed
  {
    hide EmitSpec, FinaliseSpec, Fmp4.HasSamples;
    var s1 := s.(closed := true);
    if s.fw.Some? {
      EmitReady(c, s1, false);
      FinaliseKeeps(c, EmitSpec(c, s1, false));
    }
    if s.cur.Some? {
      FinaliseKeeps(c, s1);
    }
  }

  // ---- every segment starts at a keyframe ----

  // The first sample is one of a video track, marked as a sync sample.
  predicate StartsAtKey(made: seq<Runs.Accepted>) {
    made != [] ==> made[0].sample.flags == Fragment.SAMPLE_FLAGS_KEY
  }

  // The packets of the segment being built.
  function Open(s: State): seq<Runs.Accepted> {
    if s.cur.Some? then MadeOf(s.cur.value.parts) + s.made else []
  }

  // Every segment ever completed, and the one being built, starts at a keyframe.
  ghost predicate AllStart(s: State) {
    (forall i :: 0 <= i < |s.all| ==> StartsAtKey(MadeOf(s.all[i].parts))) && StartsAtKey(Open(s))
  }

  lemma FinaliseOpen(c: Config, s: State)
    requires s.cur.Some? && s.made == []
    ensures var s' := FinaliseSpec(c, s);
            Open(s') == [] && s'.all[..|s.all|] == s.all && |s'.all| == |s.all| + 1
            && MadeOf(s'.all[|s.all|].parts) == Open(s)
  {
    hide LastOf, DataOf;
    NoParts();
    assert MadeOf(s.cur.value.parts) + [] == MadeOf(s.cur.value.parts);
  }

  // A flush before a keyframe that comes after the segment has lasted long enough.
  predicate Completes(c: Config, s: State, nextIsKey: bool)
    requires s.cur.Some?
  {
    nextIsKey && s.made != [] && s.cur.value.duration + s.partDur >= c.segTarget
  }

  // A flushed part stays in the open segment, or completes it with everything it holds.
  lemma EmitOpen(c: Config, s: State, nextIsKey: bool)
    requires s.cur.Some? && Settled(s)
    ensures var s' := EmitSpec(c, s, nextIsKey);
            if Completes(c, s, nextIsKey) then
              && Open(s') == [] && |s'.all| == |s.all| + 1 && s'.all[..|s.all|] == s.all
              && MadeOf(s'.all[|s.all|].parts) == Open(s)
            else Open(s') == Open(s) && s'.all == s.all
  {
    hide FinaliseSpec, MadeOf, Holds, NextPart, Flushed;
    var grown := EmitGrown(s);
    if s.made != [] {
      var s' := s.(fw := Some(Flushed(s.fw.value)), made := [], cur := Some(grown), partDur := 0);
      assert MadeOf(s.cur.value.parts) + s.made + [] == MadeOf(s.cur.value.parts) + s.made;
      FinaliseOpen(c, s');
    }
  }

  // One more segment in a list starts at a keyframe, or does not.
  lemma KeysExtend(all: seq<Segment>, all': seq<Segment>)
    requires |all'| == |all| + 1 && all'[..|all|] == all
    ensures (forall i :: 0 <= i < |all'| ==> StartsAtKey(MadeOf(all'[i].parts)))
            <==> (forall i :: 0 <= i < |all| ==> StartsAtKey(MadeOf(all[i].parts)))
                 && StartsAtKey(MadeOf(all'[|all|].parts))
  {
    hide MadeOf, StartsAtKey;
    forall i | 0 <= i < |all|
      ensures all'[i] == all[i]
    {
      assert all'[i] == all'[..|all|][i];
    }
  }

  // Completing a segment moves its packets, and changes nothing about how segments start.
  lemma MovedStart(s: State, s': State)
    requires |s'.all| == |s.all| + 1 && s'.all[..|s.all|] == s.all
    requires Open(s') == [] && MadeOf(s'.all[|s.all|].parts) == Open(s)
    ensures AllStart(s') <==> AllStart(s)
  {
    hide MadeOf, Open;
    KeysExtend(s.all, s'.all);
  }

  lemma EmitStart(c: Config, s: State, nextIsKey: bool)
    requires s.cur.Some? && Settled(s)
    ensures var s' := EmitSpec(c, s, nextIsKey);
            && (AllStart(s') <==> AllStart(s))
            && (Open(s') == [] <==> Open(s) == [] || Completes(c, s, nextIsKey))
  {
    hide EmitSpec, MadeOf, Holds, Open, StartsAtKey;
    EmitOpen(c, s, nextIsKey);
    if Completes(c, s, nextIsKey) {
      MovedStart(s, EmitSpec(c, s, nextIsKey));
    }
  }

  // A packet that the fragment writer takes, that is not a keyframe of a video track, and that becomes the first of
  // its segment: nothing is open, or it is labelled as the video keyframe that completes what is.
  predicate OpensKeyless(c: Config, s: State, p: Packet)
    requires Ready(s)
  {
    && Accepts(s, p)
    && !(p.av.keyFrame && s.fw.value.tracks[s.fw.value.trackMap[p.av.idx]].hasVideo)
    && (Open(s) == [] || Completes(c, s, IsVideoKey(s.fw.value, p)))
  }

  lemma AcceptedKey(w: WriterState, pkt: Fmp4.AvPacket)
    requires w.Valid() && Known(w, pkt)
    ensures AcceptedAs(w, pkt).sample.flags == Fragment.SAMPLE_FLAGS_KEY
            <==> w.tracks[w.trackMap[pkt.idx]].hasVideo && pkt.keyFrame
  {
    Runs.KeySample(pkt, w.tracks[w.trackMap[pkt.idx]]);
  }

  lemma AddOpen(s: State, p: Packet)
    requires s.cur.Some? && s.fw.Some? && s.fw.value.Valid()
    ensures var s' := AddSpec(s, p);
            && s'.all == s.all
            && Open(s') == Open(s) + if Known(s.fw.value, p.av) then [AcceptedAs(s.fw.value, p.av)] else []
  {
    hide Added, AcceptedAs, MadeOf, Known;
    var a := MadeOf(s.cur.value.parts);
    if Known(s.fw.value, p.av) {
      var x := AcceptedAs(s.fw.value, p.av);
      assert a + (s.made + [x]) == a + s.made + [x];
    } else {
      assert Open(s) + [] == Open(s);
    }
  }

  // The state in which a packet is added: flushed first when that is due.
  lemma FlushedFirst(c: Config, s: State, p: Packet) returns (s2: State)
    requires Settled(s) && s.written && !s.closed && (s.seenFirstKey || IsVideoKey(s.fw.value, p))
    ensures s2.cur.Some? && s2.fw.Some? && s2.fw.value.Valid() && WriteSpec(c, s, p).0 == AddSpec(s2, p)
    ensures Known(s2.fw.value, p.av) == Known(s.fw.value, p.av)
    ensures Known(s.fw.value, p.av) ==> AcceptedAs(s2.fw.value, p.av) == AcceptedAs(s.fw.value, p.av)
    ensures AllStart(s2) <==> AllStart(s)
    ensures Open(s2) == [] <==> Open(s) == [] || Completes(c, s, IsVideoKey(s.fw.value, p))
  {
    hide EmitSpec, MadeOf, Holds, AddSpec, AcceptedAs, Flushed, Known, Fmp4.HasSamples, Fmp4.HasVideo, StartsAtKey;
    var s1, key := s.(seenFirstKey := true), IsVideoKey(s.fw.value, p);
    assert Open(s1) == Open(s) && Settled(s1) && Completes(c, s1, key) == Completes(c, s, key);
    HoldsSome(s.fw.value, s.made);
    EmitStart(c, s1, key);
    EmitReady(c, s1, key);
    var due := Fmp4.HasSamples(s1.fw.value.tracks) && (key || s1.partDur >= c.partTarget);
    s2 := if due then EmitSpec(c, s1, key) else s1;
    FlushKnows(s.fw.value, p.av);
    if Known(s.fw.value, p.av) {
      FlushKeepsTracks(s.fw.value, p.av);
    }
  }

  // One more packet matters only as the first of its segment.
  lemma AddStart(s: State, p: Packet)
    requires s.cur.Some? && s.fw.Some? && s.fw.value.Valid()
    ensures AllStart(AddSpec(s, p)) <==>
            AllStart(s) && (Open(s) == [] && Known(s.fw.value, p.av) ==>
                              AcceptedAs(s.fw.value, p.av).sample.flags == Fragment.SAMPLE_FLAGS_KEY)
  {
    hide MadeOf, AddSpec, AcceptedAs, Known, Open;
    AddOpen(s, p);
  }

  // A packet that comes too early or too late changes nothing.
  lemma NotTaken(c: Config, s: State, p: Packet)
    requires Ready(s) && !(s.written && !s.closed && (s.seenFirstKey || IsVideoKey(s.fw.value, p)))
    ensures WriteSpec(c, s, p).0 == s && !Accepts(s, p)
  {
    hide EmitSpec, AddSpec, Fmp4.HasSamples, Fmp4.HasVideo;
  }

  lemma WriteStart(c: Config, s: State, p: Packet)
    requires Settled(s)
    ensures AllStart(WriteSpec(c, s, p).0) <==> AllStart(s) && !OpensKeyless(c, s, p)
  {
    hide Open, AllStart, Holds, AddSpec, WriteSpec, AcceptedAs, Known, Fmp4.HasVideo, Completes, WriterState.Valid;
    if s.written && !s.closed && (s.seenFirstKey || IsVideoKey(s.fw.value, p)) {
      var s2 := FlushedFirst(c, s, p);
      AddStart(s2, p);
      if Known(s.fw.value, p.av) {
        AcceptedKey(s.fw.value, p.av);
      }
    } else {
      NotTaken(c, s, p);
    }
  }

  lemma TrailerStart(c: Config, s: State)
    requires Settled(s)
    ensures AllStart(TrailerSpec(c, s).0) <==> AllStart(s)
  {
    hide EmitSpec, MadeOf, FinaliseSpec, Holds, Fmp4.HasSamples, StartsAtKey;
    if !s.closed && s.cur.Some? {
      var s1 := s.(closed := true);
      assert Open(s1) == Open(s) && Settled(s1);
      HoldsSome(s.fw.value, s.made);
      EmitStart(c, s1, false);
      EmitReady(c, s1, false);
      var s2 := if Fmp4.HasSamples(s1.fw.value.tracks) then EmitSpec(c, s1, false) else s1;
      FinaliseOpen(c, s2);
      MovedStart(s2, FinaliseSpec(c, s2));
    }
  }

  lemma CodecStart(c: Config, s: State, changed: seq<Fmp4.Stream>)
    requires Settled(s)
    ensures AllStart(CodecSpec(c, s, changed).0) <==> AllStart(s)
  {
    hide EmitSpec, MadeOf, Holds, Fmp4.HasSamples, NewWriter, ReplaceAll, StartsAtKey;
    if s.written && !s.closed {
      HoldsSome(s.fw.value, s.made);
      EmitStart(c, s, false);
      EmitReady(c, s, false);
    }
  }

  lemma HeaderStart(c: Config, s: State, streams: seq<Fmp4.Stream>)
    requires Settled(s)
    ensures AllStart(HeaderSpec(c, s, streams).0) <==> AllStart(s)
  {
    hide NewWriter, Holds;
    NoParts();
  }

  // No packet of the calls opens a segment without a keyframe.
  ghost predicate NeverKeyless(c: Config, calls: seq<Call>) {
    forall n | 0 <= n < |calls| && calls[n].Write? :: !OpensKeyless(c, Run(c, calls[..n]), calls[n].p)
  }

  lemma NeverKeylessSnoc(c: Config, calls: seq<Call>)
    requires calls != []
    ensures var n := |calls| - 1;
            NeverKeyless(c, calls) <==>
            NeverKeyless(c, calls[..n]) && !(calls[n].Write? && OpensKeyless(c, Run(c, calls[..n]), calls[n].p))
  {
    hide OpensKeyless, Run;
    var n := |calls| - 1;
    forall k | 0 <= k < n
      ensures calls[..n][..k] == calls[..k] && calls[..n][k] == calls[k]
    {
    }
  }

  // After any calls, every segment completed so far and the one being built start with a sample marked as a
  // keyframe of a video track, if and only if no packet has opened a segment without being one.
  lemma {:induction false} StartsExactly(c: Config, calls: seq<Call>)
    ensures AllStart(Run(c, calls)) <==> NeverKeyless(c, calls)
  {
    hide HeaderSpec, WriteSpec, CodecSpec, TrailerSpec, AllStart, NeverKeyless, OpensKeyless, Settled;
    if calls == [] {
      NothingOpen(c);
    } else {
      var n := |calls| - 1;
      var front, call := calls[..n], calls[n];
      StartsExactly(c, front);
      NeverKeylessSnoc(c, calls);
      RunHeld(c, front);
      var s := Run(c, front);
      match call
      case Header(streams) => HeaderStart(c, s, streams);
      case Write(p) => WriteStart(c, s, p);
      case Codec(changed) => CodecStart(c, s, changed);
      case Trailer => TrailerStart(c, s);
    }
  }

  lemma NothingOpen(c: Config)
    ensures AllStart(START) && NeverKeyless(c, [])
  {
  }

  // So each listed segment starts at one.
  lemma SegmentsStartAtKey(c: Config, calls: seq<Call>, i: nat)
    requires NeverKeyless(c, calls) && i < |Run(c, calls).comp|
    ensures var made := MadeOf(Run(c, calls).comp[i].parts);
            made != [] ==> made[0].sample.flags == Fragment.SAMPLE_FLAGS_KEY
  {
    hide Run, NeverKeyless;
    StartsExactly(c, calls);
    RunWindow(c, calls);
    var s := Run(c, calls);
    LastOfIs(s.all, c.segBufferCount);
    var k := |s.all| - |s.comp| + i;
    assert s.comp[i] == s.all[k];
    assert StartsAtKey(MadeOf(s.all[k].parts));
  }

  // ---- keyframes with the right label ----

  // A packet labelled as a keyframe of a video codec belongs to a stream the writer knows as video.
  predicate Labelled(s: State, p: Packet)
    requires Ready(s)
  {
    s.written && !s.closed && IsVideoKey(s.fw.value, p) ==>
      var w := s.fw.value;
      Known(w, p.av) && w.tracks[w.trackMap[p.av.idx]].hasVideo
  }

  ghost predicate AllLabelled(c: Config, calls: seq<Call>) {
    forall n | 0 <= n < |calls| && calls[n].Write? :: Labelled(Run(c, calls[..n]), calls[n].p)
  }

  // Behind the gate something is always open.
  ghost predicate BehindGate(s: State) {
    s.seenFirstKey && !s.closed ==> s.written && Open(s) != []
  }

  lemma WriteBehindGate(c: Config, s: State, p: Packet)
    requires Settled(s) && BehindGate(s) && Labelled(s, p)
    ensures BehindGate(WriteSpec(c, s, p).0) && !OpensKeyless(c, s, p)
  {
    hide Open, Holds, AddSpec, WriteSpec, AcceptedAs, Known, Fmp4.HasVideo;
    if s.written && !s.closed && (s.seenFirstKey || IsVideoKey(s.fw.value, p)) {
      WriteKeepsFlags(c, s, p);
      var s2 := FlushedFirst(c, s, p);
      AddOpen(s2, p);
    } else {
      NotTaken(c, s, p);
    }
  }

  lemma WriteKeepsFlags(c: Config, s: State, p: Packet)
    requires Settled(s)
    ensures WriteSpec(c, s, p).0.written == s.written && WriteSpec(c, s, p).0.closed == s.closed
  {
    hide EmitSpec, Holds, Added, AcceptedAs, Known, Fmp4.HasSamples, Fmp4.HasVideo;
    if s.written {
      EmitReady(c, s.(seenFirstKey := true), IsVideoKey(s.fw.value, p));
    }
  }

  lemma OtherBehindGate(c: Config, s: State, call: Call)
    requires Settled(s) && BehindGate(s) && !call.Write?
    ensures BehindGate(Step(c, s, call))
  {
    hide EmitSpec, FinaliseSpec, MadeOf, Holds, Fmp4.HasSamples, NewWriter, ReplaceAll;
    match call
    case Header(_) =>
    case Codec(_) =>
      if s.written && !s.closed {
        HoldsSome(s.fw.value, s.made);
        EmitOpen(c, s, false);
        EmitReady(c, s, false);
      }
    case Trailer => TrailerCloses(c, s);
  }

  // Calls in which labels and streams agree never open a segment without a keyframe.
  lemma {:induction false} LabelledNeverKeyless(c: Config, calls: seq<Call>)
    requires AllLabelled(c, calls)
    ensures NeverKeyless(c, calls) && BehindGate(Run(c, calls))
  {
    hide Step, Labelled, OpensKeyless, Settled, NeverKeyless, BehindGate;
    if calls == [] {
      NothingOpen(c);
      assert BehindGate(START) by { GateShut(); }
    } else {
      var n := |calls| - 1;
      var front, call := calls[..n], calls[n];
      forall k | 0 <= k < n && front[k].Write?
        ensures Labelled(Run(c, front[..k]), front[k].p)
      {
        assert front[..k] == calls[..k] && front[k] == calls[k];
      }
      LabelledNeverKeyless(c, front);
      RunHeld(c, front);
      NeverKeylessSnoc(c, calls);
      var s := Run(c, front);
      if call.Write? {
        WriteBehindGate(c, s, call.p);
        IsWrite(c, s, call.p);
      } else {
        OtherBehindGate(c, s, call);
      }
    }
  }

  lemma GateShut()
    ensures BehindGate(START)
  {
  }

  lemma IsWrite(c: Config, s: State, p: Packet)
    requires Ready(s)
    ensures Step(c, s, Write(p)) == WriteSpec(c, s, p).0
  {
  }
}
