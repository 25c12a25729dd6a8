/** The decode timeline of one RTSP track: 32-bit RTP timestamps unwrapped, scaled and clamped. */
module RtpTimeline {
  import opened Bytes
  import opened Wrappers
  import opened Ticks

  type uint32 = v: int | 0 <= v < TWO32

  datatype Out = Out(dts: int64, dur: int64)

  // What the depacketizer of the track makes of one RTP packet: nothing complete (or an error), one video
  // access unit, or audio units. Each carries what the codec says of its duration.
  datatype Payload = Nothing | Frame(codecDur: Option<int64>) | Units(durs: seq<Option<int64>>)

  datatype Input = Input(ts: uint32, payload: Payload)

  datatype State = State(codecType: int, controlURL: string, clockRate: int64, haveRTPBase: bool, lastRTP: uint32,
                         totalRTP: int64, dtsBase: int64, lastDTS: int64, haveLastDTS: bool, lastDur: int64)
  {
    // A clock rate that can be divided by, and a last DTS only after a first timestamp.
    predicate Valid() {
      clockRate > 0 && (haveLastDTS ==> haveRTPBase)
    }
  }

  function Scaled(total: int64, clockRate: int64): int
    requires clockRate > 0
  {
    QuoTrunc(Int64(total * SECOND), clockRate)
  }

  function DecodeSpec(s: State, ts: uint32): (State, int64)
    requires s.Valid()
  {
    if !s.haveRTPBase then
      (s.(haveRTPBase := true, lastRTP := ts, totalRTP := 0), s.dtsBase)
    else
      var total := Int64(s.totalRTP + Int32(ts - s.lastRTP));
      var dts := Int64(s.dtsBase + Scaled(total, s.clockRate));
      (s.(totalRTP := total, lastRTP := ts), if s.haveLastDTS && dts < s.lastDTS then s.lastDTS else dts)
  }

  // The duration of a video unit: the step from the last DTS, else the last duration, else the codec's, else 40 ms.
  function EstimateSpec(s: State, dts: int64, codecDur: Option<int64>): int64 {
    if s.haveLastDTS && dts > s.lastDTS then Int64(dts - s.lastDTS)
    else if s.lastDur > 0 then s.lastDur
    else if codecDur.Some? && codecDur.value > 0 then codecDur.value
    else 40_000_000
  }

  // The estimate is a real duration exactly when the step from the last DTS does not wrap.
  lemma EstimatePositive(s: State, dts: int64, codecDur: Option<int64>)
    ensures var dur := EstimateSpec(s, dts, codecDur);
            && (dur > 0 <==> !(s.haveLastDTS && dts - s.lastDTS >= TWO63))
            && (dur > 0 && s.haveLastDTS && dts > s.lastDTS ==> s.lastDTS + dur == dts)
  {
    if s.haveLastDTS && dts > s.lastDTS {
      RemainderUnique(dts - s.lastDTS, TWO64, 0, dts - s.lastDTS);
    }
  }

  // The duration of an audio unit: the codec's, else the last one, else 20 ms.
  function AudioDuration(lastDur: int64, codecDur: Option<int64>): (d: int64)
    ensures d > 0
  {
    if codecDur.Some? && codecDur.value > 0 then codecDur.value
    else if lastDur > 0 then lastDur
    else 20_000_000
  }

  function Emitted(s: State, dts: int64, dur: int64): State {
    s.(lastDTS := dts, haveLastDTS := true, lastDur := dur)
  }

  // Audio units of one packet follow each other.
  function UnitsSpec(s: State, cur: int64, durs: seq<Option<int64>>): (State, seq<Out>)
    decreases |durs|
  {
    if durs == [] then (s, [])
    else
      var dur := AudioDuration(s.lastDur, durs[0]);
      var (s', rest) := UnitsSpec(Emitted(s, cur, dur), Int64(cur + dur), durs[1..]);
      (s', [Out(cur, dur)] + rest)
  }

  function StepSpec(s: State, i: Input): (State, seq<Out>)
    requires s.Valid()
  {
    var (s', dts) := DecodeSpec(s, i.ts);
    match i.payload
    case Nothing => (s', [])
    case Frame(d) =>
      var dur := EstimateSpec(s', dts, d);
      (Emitted(s', dts, dur), [Out(dts, dur)])
    case Units(durs) => UnitsSpec(s', dts, durs)
  }

  // The units from the i-th on, after those already put out.
  function UnitsFrom(s: State, cur: int64, durs: seq<Option<int64>>, i: nat, outs: seq<Out>): (State, seq<Out>)
    requires i <= |durs|
  {
    var (s', rest) := UnitsSpec(s, cur, durs[i..]);
    (s', outs + rest)
  }

  lemma UnitsNext(s: State, cur: int64, durs: seq<Option<int64>>, i: nat, outs: seq<Out>)
    requires i < |durs|
    ensures var dur := AudioDuration(s.lastDur, durs[i]);
            UnitsFrom(s, cur, durs, i, outs)
            == UnitsFrom(Emitted(s, cur, dur), Int64(cur + dur), durs, i + 1, outs + [Out(cur, dur)])
  {
    var dur := AudioDuration(s.lastDur, durs[i]);
    assert durs[i..][0] == durs[i] && durs[i..][1..] == durs[i + 1..];
    var rest := UnitsSpec(Emitted(s, cur, dur), Int64(cur + dur), durs[i + 1..]).1;
    assert outs + ([Out(cur, dur)] + rest) == outs + [Out(cur, dur)] + rest;
  }

  lemma UnitsEnds(s: State, cur: int64, durs: seq<Option<int64>>, outs: seq<Out>)
    ensures UnitsFrom(s, cur, durs, 0, []) == UnitsSpec(s, cur, durs)
    ensures UnitsFrom(s, cur, durs, |durs|, outs) == (s, outs)
  {
    assert durs[0..] == durs && durs[|durs|..] == [];
    assert [] + UnitsSpec(s, cur, durs).1 == UnitsSpec(s, cur, durs).1 && outs + [] == outs;
  }

  lemma {:induction false} UnitsKeep(s: State, cur: int64, durs: seq<Option<int64>>)
    ensures var (s', outs) := UnitsSpec(s, cur, durs);
            && |outs| == |durs|
            && s' == s.(lastDTS := s'.lastDTS, haveLastDTS := s'.haveLastDTS, lastDur := s'.lastDur)
            && (durs == [] ==> s' == s)
            && (durs != [] ==> outs[0].dts == cur && s'.haveLastDTS && s'.lastDTS == outs[|outs| - 1].dts)
    decreases |durs|
  {
    if durs != [] {
      var dur := AudioDuration(s.lastDur, durs[0]);
      UnitsKeep(Emitted(s, cur, dur), Int64(cur + dur), durs[1..]);
    }
  }

  lemma StepKeeps(s: State, i: Input)
    requires s.Valid()
    ensures StepSpec(s, i).0.Valid()
    ensures StepSpec(s, i).0.dtsBase == s.dtsBase && StepSpec(s, i).0.clockRate == s.clockRate
    ensures StepSpec(s, i).0.haveRTPBase && StepSpec(s, i).0.lastRTP == i.ts
    ensures StepSpec(s, i).0.totalRTP == DecodeSpec(s, i.ts).0.totalRTP
  {
    var (s', dts) := DecodeSpec(s, i.ts);
    if i.payload.Units? {
      UnitsKeep(s', dts, i.payload.durs);
    }
  }

  function RunSpec(s: State, inputs: seq<Input>): (State, seq<Out>)
    requires s.Valid()
    decreases |inputs|
  {
    if inputs == [] then (s, [])
    else
      StepKeeps(s, inputs[0]);
      var (s1, outs) := StepSpec(s, inputs[0]);
      var (s2, rest) := RunSpec(s1, inputs[1..]);
      (s2, outs + rest)
  }

  class RtspTrack {
    const codecType: int
    const controlURL: string
    const clockRate: int64
    var haveRTPBase: bool
    var lastRTP: uint32
    var totalRTP: int64
    var dtsBase: int64
    var lastDTS: int64
    var haveLastDTS: bool
    var lastDur: int64

    function View(): State
      reads this
    {
      State(codecType, controlURL, clockRate, haveRTPBase, lastRTP, totalRTP, dtsBase, lastDTS, haveLastDTS, lastDur)
    }

    constructor (kind: int, url: string, rate: int64)
      ensures View() == State(kind, url, rate, false, 0, 0, 0, 0, false, 0)
    {
      codecType := kind;
      controlURL := url;
      clockRate := rate;
      haveRTPBase := false;
      lastRTP := 0;
      totalRTP := 0;
      dtsBase := 0;
      lastDTS := 0;
      haveLastDTS := false;
      lastDur := 0;
    }

    method DecodeDTS(ts: uint32) returns (dts: int64)
      requires View().Valid()
      modifies this`haveRTPBase, this`lastRTP, this`totalRTP
      ensures (View(), dts) == DecodeSpec(old(View()), ts)
    {
      if !haveRTPBase {
        haveRTPBase := true;
        lastRTP := ts;
        totalRTP := 0;
        return dtsBase;
      }
      totalRTP := Int64(totalRTP + Int32(ts - lastRTP));
      lastRTP := ts;
      dts := Int64(dtsBase + QuoTrunc(Int64(totalRTP * SECOND), clockRate));
      if haveLastDTS && dts < lastDTS {
        return lastDTS;
      }
    }

    // decodeH264 and decodeH265 once an access unit is complete.
    method EmitFrame(dts: int64, codecDur: Option<int64>) returns (outs: seq<Out>)
      modifies this`lastDTS, this`haveLastDTS, this`lastDur
      ensures outs == [Out(dts, EstimateSpec(old(View()), dts, codecDur))]
      ensures View() == Emitted(old(View()), dts, EstimateSpec(old(View()), dts, codecDur))
    {
      var dur := EstimateDuration(dts, codecDur);
      outs := [Out(dts, dur)];
      lastDTS := dts;
      haveLastDTS := true;
      lastDur := dur;
    }

    // The duration is positive exactly when the step from the last DTS, if there is one, does not wrap; and it is
    // that step whenever the timeline advances.
    method EstimateDuration(dts: int64, codecDur: Option<int64>) returns (dur: int64)
      ensures dur == EstimateSpec(View(), dts, codecDur)
      ensures dur > 0 <==> !(haveLastDTS && dts - lastDTS >= TWO63)
      ensures dur > 0 && haveLastDTS && dts > lastDTS ==> lastDTS + dur == dts
    {
      EstimatePositive(View(), dts, codecDur);
      if haveLastDTS && dts > lastDTS {
        return Int64(dts - lastDTS);
      }
      if lastDur > 0 {
        return lastDur;
      }
      if codecDur.Some? && codecDur.value > 0 {
        return codecDur.value;
      }
      return 40_000_000;
    }

    // decodeAAC, and decodeAudio with its single unit.
    method EmitUnits(dts: int64, durs: seq<Option<int64>>) returns (outs: seq<Out>)
      modifies this`lastDTS, this`haveLastDTS, this`lastDur
      ensures (View(), outs) == UnitsSpec(old(View()), dts, durs)
    {
      hide UnitsSpec, UnitsFrom;
      outs := [];
      var curDTS: int64 := dts;
      var i := 0;
      UnitsEnds(View(), dts, durs, []);
      while i < |durs|
        invariant 0 <= i <= |durs|
        invariant UnitsFrom(View(), curDTS, durs, i, outs) == UnitsSpec(old(View()), dts, durs)
      {
        var dur := AudioDuration(lastDur, durs[i]);
        UnitsNext(View(), curDTS, durs, i, outs);
        outs := outs + [Out(curDTS, dur)];
        lastDTS := curDTS;
        haveLastDTS := true;
        lastDur := dur;
        curDTS := Int64(curDTS + dur);
        i := i + 1;
      }
      UnitsEnds(View(), curDTS, durs, outs);
    }

    method DecodeRTP(i: Input) returns (outs: seq<Out>)
      requires View().Valid()
      modifies this
      ensures View().Valid() && (View(), outs) == StepSpec(old(View()), i)
    {
      hide UnitsSpec, Scaled;
      StepKeeps(View(), i);
      var dts := DecodeDTS(i.ts);
      match i.payload
      case Nothing => outs := [];
      case Frame(d) => outs := EmitFrame(dts, d);
      case Units(durs) => outs := EmitUnits(dts, durs);
    }
  }

  // ---- the emitted timeline ----

  ghost predicate Sorted(outs: seq<Out>) {
    forall i, j :: 0 <= i < j < |outs| ==> outs[i].dts <= outs[j].dts
  }

  // The start of every unit of a packet can be represented.
  predicate UnitsFit(lastDur: int64, cur: int, durs: seq<Option<int64>>)
    decreases |durs|
  {
    |durs| <= 1 ||
    (var dur := AudioDuration(lastDur, durs[0]); cur + dur < TWO63 && UnitsFit(dur, cur + dur, durs[1..]))
  }

  predicate StepFits(s: State, i: Input)
    requires s.Valid()
  {
    var (s', dts) := DecodeSpec(s, i.ts);
    i.payload.Units? ==> UnitsFit(s'.lastDur, dts, i.payload.durs)
  }

  predicate RunFits(s: State, inputs: seq<Input>)
    requires s.Valid()
    decreases |inputs|
  {
    inputs == [] ||
    (StepFits(s, inputs[0]) && (StepKeeps(s, inputs[0]); RunFits(StepSpec(s, inputs[0]).0, inputs[1..])))
  }

  lemma SortedCons(o: Out, rest: seq<Out>)
    ensures Sorted([o] + rest) <==> Sorted(rest) && (rest != [] ==> o.dts <= rest[0].dts)
  {
    var all := [o] + rest;
    if Sorted(all) {
      forall i, j | 0 <= i < j < |rest|
        ensures rest[i].dts <= rest[j].dts
      {
        assert all[i + 1].dts <= all[j + 1].dts;
      }
      if rest != [] {
        assert all[0].dts <= all[1].dts;
      }
    }
    if Sorted(rest) && (rest != [] ==> o.dts <= rest[0].dts) {
      forall i, j | 0 <= i < j < |all|
        ensures all[i].dts <= all[j].dts
      {
        assert all[j] == rest[j - 1];
        if i > 0 {
          assert all[i] == rest[i - 1];
        } else if j > 1 {
          assert rest[0].dts <= rest[j - 1].dts;
        }
      }
    }
  }

  lemma SortedJoin(a: seq<Out>, b: seq<Out>)
    requires a != [] && b != [] ==> a[|a| - 1].dts <= b[0].dts
    ensures Sorted(a + b) <==> Sorted(a) && Sorted(b)
  {
    var all := a + b;
    if Sorted(all) {
      forall i, j | 0 <= i < j < |b|
        ensures b[i].dts <= b[j].dts
      {
        assert all[|a| + i].dts <= all[|a| + j].dts;
      }
      forall i, j | 0 <= i < j < |a|
        ensures a[i].dts <= a[j].dts
      {
        assert all[i].dts <= all[j].dts;
      }
    }
    if Sorted(a) && Sorted(b) {
      forall i, j | 0 <= i < j < |all|
        ensures all[i].dts <= all[j].dts
      {
        if i < |a| <= j {
          assert a[i].dts <= a[|a| - 1].dts;
          assert b[0].dts <= b[j - |a|].dts;
        }
      }
    }
  }

  // An addition of two 64-bit values wraps exactly when the sum does not fit, and then goes backwards.
  lemma WrapGoesBack(cur: int64, dur: int64)
    requires dur > 0
    ensures if cur + dur < TWO63 then Int64(cur + dur) == cur + dur else Int64(cur + dur) < cur
  {
    if cur + dur >= TWO63 {
      RemainderUnique(cur + dur, TWO64, 0, cur + dur);
    }
  }

  lemma {:induction false} UnitsSorted(s: State, cur: int64, durs: seq<Option<int64>>)
    ensures Sorted(UnitsSpec(s, cur, durs).1) <==> UnitsFit(s.lastDur, cur, durs)
    decreases |durs|
  {
    hide Sorted;
    UnitsKeep(s, cur, durs);
    if |durs| <= 1 {
      OneSorted(UnitsSpec(s, cur, durs).1);
    } else {
      var dur := AudioDuration(s.lastDur, durs[0]);
      var s1 := Emitted(s, cur, dur);
      var next := Int64(cur + dur);
      var rest := UnitsSpec(s1, next, durs[1..]).1;
      UnitsKeep(s1, next, durs[1..]);
      WrapGoesBack(cur, dur);
      UnitsSorted(s1, next, durs[1..]);
      SortedCons(Out(cur, dur), rest);
    }
  }

  lemma OneSorted(outs: seq<Out>)
    requires |outs| <= 1
    ensures Sorted(outs)
  {
  }

  // The outputs of one packet start no earlier than anything emitted before, and end at the new last DTS.
  lemma StepStarts(s: State, i: Input)
    requires s.Valid()
    ensures var (s', outs) := StepSpec(s, i);
            && (Sorted(outs) <==> StepFits(s, i))
            && (outs == [] ==> s'.lastDTS == s.lastDTS && s'.haveLastDTS == s.haveLastDTS)
            && (outs != [] ==> s'.haveLastDTS && s'.lastDTS == outs[|outs| - 1].dts)
            && (outs != [] && s.haveLastDTS ==> s.lastDTS <= outs[0].dts)
  {
    hide UnitsSpec, Scaled;
    var (s', dts) := DecodeSpec(s, i.ts);
    if i.payload.Units? {
      UnitsKeep(s', dts, i.payload.durs);
      UnitsSorted(s', dts, i.payload.durs);
    }
  }

  // Over every run of one session the emitted DTS never goes back, as long as the units inside each audio packet
  // fit the 64-bit timeline - and only then.
  lemma {:induction false} MonotoneDts(s: State, inputs: seq<Input>)
    requires s.Valid()
    ensures Sorted(RunSpec(s, inputs).1) <==> RunFits(s, inputs)
    ensures var outs := RunSpec(s, inputs).1;
            outs != [] && s.haveLastDTS ==> s.lastDTS <= outs[0].dts
    decreases |inputs|
  {
    hide Sorted, StepSpec, StepFits;
    if inputs == [] {
      OneSorted([]);
    } else {
      StepKeeps(s, inputs[0]);
      StepStarts(s, inputs[0]);
      var (s1, outs) := StepSpec(s, inputs[0]);
      MonotoneDts(s1, inputs[1..]);
      var rest := RunSpec(s1, inputs[1..]).1;
      SortedJoin(outs, rest);
    }
  }

  // ---- unwrapping ----

  // The 32-bit difference is the true one exactly when that is within half the range.
  lemma StepExact(prev: int, next: int)
    ensures Int32(next % TWO32 - prev % TWO32) == Int32(next - prev)
    ensures Int32(next % TWO32 - prev % TWO32) == next - prev <==> -TWO31 <= next - prev < TWO31
  {
    var a, b := next / TWO32, prev / TWO32;
    assert next - prev == TWO32 * (a - b) + (next % TWO32 - prev % TWO32);
    var d := next % TWO32 - prev % TWO32;
    var q, r := d / TWO32, d % TWO32;
    assert next - prev == TWO32 * (a - b + q) + r;
    RemainderUnique(next - prev, TWO32, a - b + q, r);
  }

  // 64-bit wrap-around sums can be reduced at any point.
  lemma Int64Add(a: int, x: int)
    ensures Int64(Int64(a) + x) == Int64(a + x)
  {
    assert a == TWO64 * (a / TWO64) + a % TWO64;
    assert a - Int64(a) == TWO64 * (if a % TWO64 < TWO63 then a / TWO64 else a / TWO64 + 1);
    var c := if a % TWO64 < TWO63 then a / TWO64 else a / TWO64 + 1;
    var y := Int64(a) + x;
    assert a + x == TWO64 * (y / TWO64 + c) + y % TWO64;
    RemainderUnique(a + x, TWO64, y / TWO64 + c, y % TWO64);
  }

  ghost predicate Close(times: seq<int>) {
    forall k :: 0 <= k < |times| - 1 ==> Near(times[k], times[k + 1])
  }

  predicate Near(prev: int, next: int) {
    -TWO31 <= next - prev < TWO31
  }

  // The packets carry the true times modulo 2^32.
  ghost predicate Stamps(inputs: seq<Input>, times: seq<int>) {
    |inputs| == |times| && forall k :: 0 <= k < |times| ==> inputs[k].ts == times[k] % TWO32
  }

  // The state has reached the true time `now`, counted exactly from `origin`.
  predicate At(s: State, origin: int, now: int) {
    s.Valid() && s.haveRTPBase && s.lastRTP == now % TWO32 && s.totalRTP == Int64(now - origin)
  }

  lemma StepAt(s: State, i: Input, origin: int, now: int, next: int)
    requires At(s, origin, now) && Near(now, next) && i.ts == next % TWO32
    ensures At(StepSpec(s, i).0, origin, next)
  {
    hide StepSpec, Scaled;
    StepKeeps(s, i);
    StepExact(now, next);
    Int64Add(now - origin, next - now);
  }

  lemma CloseTail(now: int, times: seq<int>)
    requires times != [] && Close([now] + times)
    ensures Near(now, times[0]) && Close([times[0]] + times[1..])
  {
    var all := [now] + times;
    assert Near(all[0], all[1]);
    var tail := [times[0]] + times[1..];
    forall k | 0 <= k < |tail| - 1
      ensures Near(tail[k], tail[k + 1])
    {
      assert Near(all[k + 1], all[k + 2]);
    }
  }

  // Once the total is exact it stays so.
  lemma {:induction false} TotalFrom(s: State, inputs: seq<Input>, times: seq<int>, origin: int, now: int)
    requires At(s, origin, now) && Stamps(inputs, times) && Close([now] + times)
    ensures At(RunSpec(s, inputs).0, origin, ([now] + times)[|times|])
    decreases |inputs|
  {
    if inputs != [] {
      hide StepSpec, At, Close;
      StepKeeps(s, inputs[0]);
      CloseTail(now, times);
      StepAt(s, inputs[0], origin, now, times[0]);
      TotalFrom(StepSpec(s, inputs[0]).0, inputs[1..], times[1..], origin, times[0]);
    }
  }

  // Across any number of wraps the running total is the true elapsed ticks, whatever the packets hold.
  lemma TotalExact(s: State, inputs: seq<Input>, times: seq<int>)
    requires s.Valid() && !s.haveRTPBase && times != [] && Stamps(inputs, times) && Close(times)
    ensures RunSpec(s, inputs).0.totalRTP == Int64(times[|times| - 1] - times[0])
  {
    hide Scaled, StepSpec, Close;
    StepKeeps(s, inputs[0]);
    assert [times[0]] + times[1..] == times;
    TotalFrom(StepSpec(s, inputs[0]).0, inputs[1..], times[1..], times[0], times[0]);
  }

  // The DTS of the packet after a run is its true elapsed time on the track's clock, held back only where that
  // would step behind what was emitted; for as long as the products stay within 64 bits.
  lemma DtsExact(s: State, inputs: seq<Input>, times: seq<int>, next: int)
    requires s.Valid() && !s.haveRTPBase && times != [] && Stamps(inputs, times) && Close(times + [next])
    requires var e := next - times[0];
             -TWO63 <= e * SECOND < TWO63 && -TWO63 <= s.dtsBase + QuoTrunc(e * SECOND, s.clockRate) < TWO63
    ensures RunSpec(s, inputs).0.Valid()
    ensures var s' := RunSpec(s, inputs).0;
            var due := s.dtsBase + QuoTrunc((next - times[0]) * SECOND, s.clockRate);
            DecodeSpec(s', next % TWO32).1 == if s'.haveLastDTS && due < s'.lastDTS then s'.lastDTS else due
  {
    hide RunSpec, Close, Stamps, Int32;
    RunKeeps(s, inputs);
    NextTotal(s, inputs, times, next);
  }

  // Where the product of elapsed ticks and nanoseconds leaves 63 bits, the DTS falls behind: it is the due time
  // exactly as long as the product fits. Until the product reaches 2^64 it is the last DTS over and over; past that
  // it may move again, but never to the due time.
  lemma DtsExactly(s: State, inputs: seq<Input>, times: seq<int>, next: int)
    requires s.Valid() && !s.haveRTPBase && times != [] && Stamps(inputs, times) && Close(times + [next])
    requires 0 <= s.dtsBase && times[0] <= next
    requires var s' := RunSpec(s, inputs).0;
             && s'.haveLastDTS && s.dtsBase <= s'.lastDTS
             && s'.lastDTS < s.dtsBase + (next - times[0]) * SECOND / s.clockRate < TWO63
    ensures RunSpec(s, inputs).0.Valid()
    ensures var s', product := RunSpec(s, inputs).0, (next - times[0]) * SECOND;
            var dts := DecodeSpec(s', next % TWO32).1;
            && (dts == s.dtsBase + product / s.clockRate <==> product < TWO63)
            && (TWO63 <= product < TWO64 ==> dts == s'.lastDTS)
  {
    hide RunSpec, DecodeSpec, Close, Stamps, Int64, Int32;
    var s', product := RunSpec(s, inputs).0, (next - times[0]) * SECOND;
    RunKeeps(s, inputs);
    if product < TWO63 {
      DtsExact(s, inputs, times, next);
    } else {
      NextTotal(s, inputs, times, next);
      FallsBehind(s', next % TWO32, next - times[0]);
      if product < TWO64 {
        StandsStill(s', next % TWO32, next - times[0]);
      }
    }
  }

  // A wrapped product is at least 2^64 too small.
  lemma WrappedProduct(elapsed: int, m: int)
    requires elapsed >= 0 && m > 0 && elapsed * m >= TWO63
    ensures Int64(Int64(elapsed) * m) == Int64(elapsed * m) && -TWO63 <= Int64(elapsed * m) <= elapsed * m - TWO64
  {
    var c := if elapsed % TWO64 < TWO63 then elapsed / TWO64 else elapsed / TWO64 + 1;
    assert elapsed == TWO64 * c + Int64(elapsed);
    Shifted(elapsed, c, Int64(elapsed), m);
    Int64Shift(Int64(elapsed) * m, c * m);
    var product := elapsed * m;
    QuotientNonNegative(product, TWO64);
    assert product == TWO64 * (product / TWO64) + product % TWO64;
  }

  lemma Shifted(e: int, c: int, r: int, m: int)
    requires e == TWO64 * c + r
    ensures e * m == r * m + TWO64 * (c * m)
  {
  }

  lemma Int64Shift(v: int, c: int)
    ensures Int64(v + TWO64 * c) == Int64(v)
  {
    assert v + TWO64 * c == TWO64 * (v / TWO64 + c) + v % TWO64;
    RemainderUnique(v + TWO64 * c, TWO64, v / TWO64 + c, v % TWO64);
  }

  lemma FallsBehind(s: State, ts: uint32, elapsed: int)
    requires s.Valid() && s.haveRTPBase && s.haveLastDTS && 0 <= s.dtsBase <= s.lastDTS && elapsed >= 0
    requires Int64(s.totalRTP + Int32(ts - s.lastRTP)) == Int64(elapsed) && TWO63 <= elapsed * SECOND
    requires s.lastDTS < s.dtsBase + elapsed * SECOND / s.clockRate < TWO63
    ensures DecodeSpec(s, ts).1 < s.dtsBase + elapsed * SECOND / s.clockRate
  {
    hide Int32, Int64;
    WrappedProduct(elapsed, SECOND);
    var product := elapsed * SECOND;
    var wrapped := Int64(product);
    BelowQuotient(wrapped, product, s.clockRate);
  }

  lemma BelowQuotient(a: int, b: int, d: int64)
    requires d > 0 && -TWO63 <= a <= b - TWO64 && b / d > 0
    ensures -TWO63 <= QuoTrunc(a, d) < b / d
  {
    if a >= 0 {
      DivMonotone(a, b, d);
      QuotientNonNegative(a, d);
    } else {
      ShrinksToZero(-a, d);
    }
  }

  // The total after one more packet.
  lemma NextTotal(s: State, inputs: seq<Input>, times: seq<int>, next: int)
    requires s.Valid() && !s.haveRTPBase && times != [] && Stamps(inputs, times) && Close(times + [next])
    ensures var s' := RunSpec(s, inputs).0;
            && s'.Valid() && s'.haveRTPBase
            && Int64(s'.totalRTP + Int32(next % TWO32 - s'.lastRTP)) == Int64(next - times[0])
  {
    var all := times + [next];
    forall k | 0 <= k < |times| - 1
      ensures Near(times[k], times[k + 1])
    {
      assert Near(all[k], all[k + 1]);
    }
    TotalExact(s, inputs, times);
    RunKeeps(s, inputs);
    var last := times[|times| - 1];
    LastStamp(s, inputs, times);
    assert Near(all[|times| - 1], all[|times|]);
    StepExact(last, next);
    Int64Add(last - times[0], next - last);
  }

  lemma StandsStill(s: State, ts: uint32, elapsed: int)
    requires s.Valid() && s.haveRTPBase && s.haveLastDTS && 0 <= s.dtsBase <= s.lastDTS
    requires Int64(s.totalRTP + Int32(ts - s.lastRTP)) == Int64(elapsed) && TWO63 <= elapsed * SECOND < TWO64
    ensures DecodeSpec(s, ts).1 == s.lastDTS
  {
    hide Int32;
    RemainderUnique(elapsed, TWO64, 0, elapsed);
    var product := elapsed * SECOND;
    RemainderUnique(product, TWO64, 0, product);
    var back := TWO64 - product;
    assert Int64(product) == -back && 0 < back <= TWO63;
    QuotientNonNegative(back, s.clockRate);
    ShrinksToZero(back, s.clockRate);
    var dts := s.dtsBase + QuoTrunc(-back, s.clockRate);
    assert -TWO63 <= dts <= s.dtsBase;
    RemainderUnique(dts, TWO64, if dts < 0 then -1 else 0, if dts < 0 then dts + TWO64 else dts);
  }

  lemma ShrinksToZero(a: int, d: int)
    requires a >= 0 && d > 0
    ensures 0 <= a / d <= a && QuoTrunc(-a, d) == -(a / d)
  {
    var q := a / d;
    QuotientNonNegative(a, d);
    NotShorter(d - 1, q);
    assert a == (d - 1) * q + q + a % d;
  }

  lemma NotShorter(x: nat, y: nat)
    ensures x * y >= 0
  {
  }

  lemma {:induction false} RunKeeps(s: State, inputs: seq<Input>)
    requires s.Valid()
    ensures var s' := RunSpec(s, inputs).0;
            s'.Valid() && s'.dtsBase == s.dtsBase && s'.clockRate == s.clockRate
    decreases |inputs|
  {
    hide StepSpec;
    if inputs != [] {
      StepKeeps(s, inputs[0]);
      RunKeeps(StepSpec(s, inputs[0]).0, inputs[1..]);
    }
  }

  lemma {:induction false} LastStamp(s: State, inputs: seq<Input>, times: seq<int>)
    requires s.Valid() && Stamps(inputs, times) && times != []
    ensures var s' := RunSpec(s, inputs).0;
            s'.haveRTPBase && s'.lastRTP == times[|times| - 1] % TWO32
    decreases |inputs|
  {
    hide StepSpec;
    StepKeeps(s, inputs[0]);
    if |inputs| > 1 {
      LastStamp(StepSpec(s, inputs[0]).0, inputs[1..], times[1..]);
    }
  }

  // ---- a new session ----

  // The earlier track whose timeline a new track continues.
  function Predecessor(olds: seq<State>, next: State, i: nat): Option<State> {
    var same := FirstSame(olds, next);
    if same.Some? then same
    else if i < |olds| && olds[i].codecType == next.codecType then Some(olds[i])
    else None
  }

  function FirstSame(olds: seq<State>, next: State): Option<State> {
    if olds == [] then None
    else if olds[0].codecType == next.codecType && olds[0].controlURL == next.controlURL then Some(olds[0])
    else FirstSame(olds[1..], next)
  }

  function CarrySpec(olds: seq<State>, next: State, i: nat): State {
    var prev := Predecessor(olds, next, i);
    if prev.None? || !prev.value.haveLastDTS then next
    else next.(dtsBase := Int64(prev.value.lastDTS + prev.value.lastDur), lastDur := prev.value.lastDur)
  }

  function Views(tracks: seq<RtspTrack>): (vs: seq<State>)
    reads tracks
    ensures |vs| == |tracks| && forall k :: 0 <= k < |vs| ==> vs[k] == tracks[k].View()
  {
    seq(|tracks|, k requires 0 <= k < |tracks| reads tracks => tracks[k].View())
  }

  method FindSame(olds: seq<RtspTrack>, next: RtspTrack) returns (prev: RtspTrack?)
    ensures prev == null <==> FirstSame(Views(olds), next.View()).None?
    ensures prev != null ==> prev in olds && FirstSame(Views(olds), next.View()) == Some(prev.View())
  {
    prev := null;
    var k := 0;
    assert Views(olds)[0..] == Views(olds);
    while k < |olds|
      invariant 0 <= k <= |olds|
      invariant FirstSame(Views(olds), next.View()) == FirstSame(Views(olds)[k..], next.View())
    {
      assert Views(olds)[k..][0] == olds[k].View() && Views(olds)[k..][1..] == Views(olds)[k + 1..];
      if olds[k].codecType == next.codecType && olds[k].controlURL == next.controlURL {
        return olds[k];
      }
      k := k + 1;
    }
  }

  method CarryTrack(olds: seq<RtspTrack>, next: RtspTrack, i: nat)
    requires next !in olds
    modifies next
    ensures next.View() == CarrySpec(old(Views(olds)), old(next.View()), i)
  {
    var prev := FindSame(olds, next);
    if prev == null && i < |olds| && olds[i].codecType == next.codecType {
      prev := olds[i];
    }
    if prev == null || !prev.haveLastDTS {
      return;
    }
    next.dtsBase := Int64(prev.lastDTS + prev.lastDur);
    next.lastDur := prev.lastDur;
  }

  method CarryTrackState(olds: seq<RtspTrack>, news: seq<RtspTrack>)
    requires forall i, j :: 0 <= i < |olds| && 0 <= j < |news| ==> olds[i] != news[j]
    requires forall i, j :: 0 <= i < j < |news| ==> news[i] != news[j]
    modifies news
    ensures forall i :: 0 <= i < |news| ==> news[i].View() == CarrySpec(old(Views(olds)), old(news[i].View()), i)
  {
    hide CarrySpec;
    var i := 0;
    while i < |news|
      invariant 0 <= i <= |news|
      invariant Views(olds) == old(Views(olds))
      invariant forall k :: 0 <= k < i ==> news[k].View() == CarrySpec(old(Views(olds)), old(news[k].View()), k)
      invariant forall k :: i <= k < |news| ==> news[k].View() == old(news[k].View())
    {
      CarryTrack(olds, news[i], i);
      i := i + 1;
    }
  }

  // ---- what the last session left ----

  // With a timeline that never goes back and never is negative, every duration is positive, the last one included.
  lemma {:induction false} DurationsPositive(s: State, inputs: seq<Input>)
    requires s.Valid() && RunFits(s, inputs)
    requires s.haveLastDTS ==> s.lastDTS >= 0 && s.lastDur > 0
    requires !s.haveLastDTS && RunSpec(s, inputs).1 != [] ==> RunSpec(s, inputs).1[0].dts >= 0
    ensures forall k :: 0 <= k < |RunSpec(s, inputs).1| ==> RunSpec(s, inputs).1[k].dur > 0
    ensures var s' := RunSpec(s, inputs).0;
            s'.haveLastDTS ==> s'.lastDTS >= 0 && s'.lastDur > 0
    decreases |inputs|
  {
    if inputs != [] {
      hide Sorted, StepSpec, StepFits, DecodeSpec;
      StepKeeps(s, inputs[0]);
      StepStarts(s, inputs[0]);
      var (s1, outs) := StepSpec(s, inputs[0]);
      assert RunSpec(s, inputs).1 == outs + RunSpec(s1, inputs[1..]).1;
      StepPositive(s, inputs[0]);
      DurationsPositive(s1, inputs[1..]);
    }
  }

  lemma StepPositive(s: State, i: Input)
    requires s.Valid() && StepFits(s, i) && (s.haveLastDTS ==> s.lastDTS >= 0 && s.lastDur > 0)
    requires !s.haveLastDTS && StepSpec(s, i).1 != [] ==> StepSpec(s, i).1[0].dts >= 0
    ensures var (s', outs) := StepSpec(s, i);
            && (forall k :: 0 <= k < |outs| ==> outs[k].dur > 0)
            && (s'.haveLastDTS ==> s'.lastDTS >= 0 && s'.lastDur > 0)
  {
    hide UnitsSpec, Scaled, Sorted;
    StepStarts(s, i);
    AllAtLeast(StepSpec(s, i).1, 0);
    var (s', dts) := DecodeSpec(s, i.ts);
    match i.payload
    case Nothing =>
    case Frame(d) => EstimatePositive(s', dts, d);
    case Units(durs) =>
      UnitsPositive(s', dts, durs);
      UnitsKeep(s', dts, durs);
      assert StepSpec(s, i) == UnitsSpec(s', dts, durs);
  }

  lemma {:induction false} UnitsPositive(s: State, cur: int64, durs: seq<Option<int64>>)
    ensures var (s', outs) := UnitsSpec(s, cur, durs);
            && (forall k :: 0 <= k < |outs| ==> outs[k].dur > 0)
            && (durs != [] ==> s'.lastDur > 0)
    decreases |durs|
  {
    if durs != [] {
      var dur := AudioDuration(s.lastDur, durs[0]);
      UnitsPositive(Emitted(s, cur, dur), Int64(cur + dur), durs[1..]);
    }
  }

  lemma AllAtLeast(outs: seq<Out>, low: int)
    requires Sorted(outs) && (outs != [] ==> low <= outs[0].dts)
    ensures forall k :: 0 <= k < |outs| ==> low <= outs[k].dts
  {
  }

  // ---- where a new session starts ----

  // Whether a packet puts anything out.
  predicate Emits(i: Input) {
    i.payload.Frame? || (i.payload.Units? && i.payload.durs != [])
  }

  // Packet f is the first that does.
  ghost predicate FirstEmits(inputs: seq<Input>, f: nat) {
    f < |inputs| && Emits(inputs[f]) && forall k :: 0 <= k < f ==> !Emits(inputs[k])
  }

  lemma StepEmits(s: State, i: Input)
    requires s.Valid()
    ensures var (s', outs) := StepSpec(s, i);
            && (outs != [] <==> Emits(i))
            && (outs == [] ==> s'.haveLastDTS == s.haveLastDTS)
            && (outs != [] ==> outs[0].dts == DecodeSpec(s, i.ts).1)
  {
    var (s', dts) := DecodeSpec(s, i.ts);
    if i.payload.Units? {
      UnitsKeep(s', dts, i.payload.durs);
    }
  }

  // Everything put out comes from the first packet that puts anything out, or later.
  lemma {:induction false} FirstOut(s: State, inputs: seq<Input>, f: nat)
    requires s.Valid() && FirstEmits(inputs, f)
    ensures RunSpec(s, inputs[..f]).0.Valid() && RunSpec(s, inputs[..f]).0.haveLastDTS == s.haveLastDTS
    ensures RunSpec(s, inputs).1 != []
    ensures RunSpec(s, inputs).1[0].dts == DecodeSpec(RunSpec(s, inputs[..f]).0, inputs[f].ts).1
    decreases f
  {
    hide StepSpec, DecodeSpec, Emits;
    StepKeeps(s, inputs[0]);
    StepEmits(s, inputs[0]);
    var (s1, outs) := StepSpec(s, inputs[0]);
    assert RunSpec(s, inputs).1 == outs + RunSpec(s1, inputs[1..]).1;
    if f == 0 {
      assert inputs[..0] == [];
    } else {
      FirstOut(s1, inputs[1..], f - 1);
      assert inputs[..f][0] == inputs[0] && inputs[..f][1..] == inputs[1..][..f - 1];
      assert RunSpec(s, inputs[..f]).0 == RunSpec(s1, inputs[..f][1..]).0;
    }
  }

  // The first DTS of a session that has not put anything out yet.
  lemma FirstDts(s: State, inputs: seq<Input>, times: seq<int>, f: nat)
    requires s.Valid() && !s.haveRTPBase && Stamps(inputs, times) && Close(times)
    requires FirstEmits(inputs, f)
    requires var e := (times[f] - times[0]) * SECOND;
             -TWO63 <= e < TWO63 && -TWO63 <= s.dtsBase + QuoTrunc(e, s.clockRate) < TWO63
    ensures RunSpec(s, inputs).1 != []
    ensures RunSpec(s, inputs).1[0].dts == s.dtsBase + QuoTrunc((times[f] - times[0]) * SECOND, s.clockRate)
  {
    assert |times| == |inputs|;
    hide RunSpec, DecodeSpec, Close, Stamps, Emits, QuoTrunc;
    FirstOut(s, inputs, f);
    if f == 0 {
      assert inputs[..0] == [];
      AtOnce(s, inputs[0].ts);
    } else {
      LaterDts(s, inputs, times, f);
    }
  }

  // The due time of packet f, when nothing has been put out before it.
  lemma LaterDts(s: State, inputs: seq<Input>, times: seq<int>, f: nat)
    requires s.Valid() && !s.haveRTPBase && Stamps(inputs, times) && Close(times) && 0 < f < |inputs|
    requires var e := (times[f] - times[0]) * SECOND;
             -TWO63 <= e < TWO63 && -TWO63 <= s.dtsBase + QuoTrunc(e, s.clockRate) < TWO63
    requires RunSpec(s, inputs[..f]).0.Valid() && !RunSpec(s, inputs[..f]).0.haveLastDTS
    ensures DecodeSpec(RunSpec(s, inputs[..f]).0, inputs[f].ts).1
         == s.dtsBase + QuoTrunc((times[f] - times[0]) * SECOND, s.clockRate)
  {
    assert |times| == |inputs|;
    hide RunSpec, DecodeSpec, Close, Stamps, QuoTrunc;
    StampsUpTo(inputs, times, f);
    assert times[..f][0] == times[0];
    DtsExact(s, inputs[..f], times[..f], times[f]);
  }

  lemma AtOnce(s: State, ts: uint32)
    requires s.Valid() && !s.haveRTPBase
    ensures RunSpec(s, []).0 == s && DecodeSpec(s, ts).1 == s.dtsBase && QuoTrunc(0, s.clockRate) == 0
  {
  }

  lemma StampsUpTo(inputs: seq<Input>, times: seq<int>, f: nat)
    requires Stamps(inputs, times) && Close(times) && f < |inputs|
    ensures Stamps(inputs[..f], times[..f]) && inputs[f].ts == times[f] % TWO32 && Close(times[..f] + [times[f]])
  {
    var upTo := times[..f] + [times[f]];
    forall k | 0 <= k < |upTo| - 1
      ensures Near(upTo[k], upTo[k + 1])
    {
      assert Near(times[k], times[k + 1]);
    }
  }

  // The end of the last packet of a session, and how a later one takes it over.
  ghost predicate Carried(olds: seq<State>, started: State, i: nat, fresh0: State, before: seq<Input>) {
    && fresh0.Valid() && !fresh0.haveLastDTS && RunFits(fresh0, before)
    && RunSpec(fresh0, before).1 != [] && RunSpec(fresh0, before).1[0].dts >= 0
    && Predecessor(olds, started, i) == Some(RunSpec(fresh0, before).0)
    && RunSpec(fresh0, before).0.lastDTS + RunSpec(fresh0, before).0.lastDur < TWO63
  }

  lemma CarriedEnd(olds: seq<State>, started: State, i: nat, fresh0: State, before: seq<Input>)
    requires Carried(olds, started, i, fresh0, before)
    ensures var prev := RunSpec(fresh0, before).0;
            && prev.lastDur > 0 && CarrySpec(olds, started, i).dtsBase == prev.lastDTS + prev.lastDur
            && CarrySpec(olds, started, i) == started.(dtsBase := prev.lastDTS + prev.lastDur, lastDur := prev.lastDur)
  {
    hide RunFits, Predecessor;
    DurationsPositive(fresh0, before);
    LeavesLast(fresh0, before);
  }

  lemma {:induction false} LeavesLast(s: State, inputs: seq<Input>)
    requires s.Valid()
    ensures RunSpec(s, inputs).1 != [] || s.haveLastDTS ==> RunSpec(s, inputs).0.haveLastDTS
    decreases |inputs|
  {
    if inputs != [] {
      hide StepSpec;
      StepKeeps(s, inputs[0]);
      StepStarts(s, inputs[0]);
      LeavesLast(StepSpec(s, inputs[0]).0, inputs[1..]);
    }
  }

  // After a reconnect that carried over the timeline an earlier session left, everything the new session puts out
  // starts at or after the end of that session's last packet - exactly when the first packet that puts anything
  // out is not a whole nanosecond or more behind the first packet of the session.
  lemma SessionContinues(olds: seq<State>, started: State, i: nat, fresh0: State, before: seq<Input>,
                         inputs: seq<Input>, times: seq<int>, f: nat)
    requires started.Valid() && !started.haveRTPBase && Carried(olds, started, i, fresh0, before)
    requires Stamps(inputs, times) && Close(times) && RunFits(CarrySpec(olds, started, i), inputs)
    requires FirstEmits(inputs, f)
    requires var e := (times[f] - times[0]) * SECOND;
             -TWO63 <= e < TWO63
             && -TWO63 <= CarrySpec(olds, started, i).dtsBase + QuoTrunc(e, started.clockRate) < TWO63
    ensures var prev := RunSpec(fresh0, before).0;
            var outs := RunSpec(CarrySpec(olds, started, i), inputs).1;
            && outs != [] && Sorted(outs)
            && ((forall k :: 0 <= k < |outs| ==> prev.lastDTS + prev.lastDur <= outs[k].dts)
                <==> (times[f] - times[0]) * SECOND > -started.clockRate)
  {
    assert |times| == |inputs|;
    hide RunFits, RunSpec, Close, Stamps, Predecessor, Emits, Sorted;
    CarriedEnd(olds, started, i, fresh0, before);
    var s := CarrySpec(olds, started, i);
    FirstDts(s, inputs, times, f);
    MonotoneDts(s, inputs);
    var outs := RunSpec(s, inputs).1;
    QuotientSign((times[f] - times[0]) * SECOND, started.clockRate);
    if outs[0].dts >= s.dtsBase {
      AllAtLeast(outs, s.dtsBase);
    }
  }

  lemma QuotientSign(x: int, d: int)
    requires d > 0
    ensures QuoTrunc(x, d) >= 0 <==> x > -d
  {
    if x >= 0 {
      QuotientNonNegative(x, d);
    } else {
      var q, r := -x / d, -x % d;
      assert -x == d * q + r;
      ShrinksToZero(-x, d);
      if q >= 1 {
        assert d * q >= d;
      } else {
        assert q == 0 && d * q == 0;
      }
    }
  }
}
