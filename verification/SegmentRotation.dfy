/** Rotation keeps every packet: what the successive muxers of a consumer accept is what was dequeued. */
module SegmentRotation {
  import opened ConsumerRun

  // ---- the segment muxer's rotation rule ----

  // Whether a keyframe has been written afterwards, and the answer to the packet. `bytes` is what the
  // segment file holds at the call.
  function SegmentSpec(max: int, hasKeyframe: bool, pkt: Packet, bytes: int): (bool, Answer) {
    if max > 0 && pkt.key && hasKeyframe && bytes >= max then (hasKeyframe, Rotate)
    else (hasKeyframe || pkt.key, Accepted)
  }

  class SegmentMuxer {
    const maxSegmentBytes: int
    var hasKeyframe: bool

    constructor (max: int)
      ensures maxSegmentBytes == max && !hasKeyframe
    {
      maxSegmentBytes := max;
      hasKeyframe := false;
    }

    // `bytesWritten` is the writer's size; the inner muxer does not fail.
    method WritePacket(pkt: Packet, bytesWritten: int) returns (a: Answer)
      modifies this
      ensures (hasKeyframe, a) == SegmentSpec(maxSegmentBytes, old(hasKeyframe), pkt, bytesWritten)
    {
      if maxSegmentBytes > 0 && pkt.key && hasKeyframe && bytesWritten >= maxSegmentBytes {
        return Rotate;
      }
      if pkt.key {
        hasKeyframe := true;
      }
      return Accepted;
    }
  }

  // ---- what each muxer accepted ----

  function AcceptedBy(trace: seq<Event>, m: nat): seq<Packet> {
    if trace == [] then []
    else
      var n := |trace| - 1;
      var rest := AcceptedBy(trace[..n], m);
      if trace[n].Write? && trace[n].m == m && trace[n].answer.Accepted? then rest + [trace[n].pkt] else rest
  }

  // The packets of muxers 0, 1, ..., n-1 one after the other.
  function Segments(trace: seq<Event>, n: nat): seq<Packet> {
    if n == 0 then [] else Segments(trace, n - 1) + AcceptedBy(trace, n - 1)
  }

  // Muxer k starts with the very packet its predecessor refused with a rotation.
  ghost predicate Handed(trace: seq<Event>, k: nat)
    requires k > 0
  {
    AcceptedBy(trace, k) != [] && Write(k - 1, AcceptedBy(trace, k)[0], Rotate) in trace
  }

  lemma AcceptedSnoc(t: seq<Event>, e: Event, m: nat)
    ensures AcceptedBy(t + [e], m) ==
            if e.Write? && e.m == m && e.answer.Accepted? then AcceptedBy(t, m) + [e.pkt] else AcceptedBy(t, m)
  {
    assert (t + [e])[..|t|] == t;
  }

  // Two traces in which each of the first n muxers accepted the same.
  lemma {:induction false} SegmentsSame(t: seq<Event>, t': seq<Event>, n: nat)
    requires forall m: nat :: m < n ==> AcceptedBy(t, m) == AcceptedBy(t', m)
    ensures Segments(t, n) == Segments(t', n)
  {
    if n > 0 {
      SegmentsSame(t, t', n - 1);
    }
  }

  // A trace extended by calls that accept nothing.
  ghost predicate Quiet(t: seq<Event>, t': seq<Event>) {
    && t <= t'
    && forall m: nat :: AcceptedBy(t', m) == AcceptedBy(t, m)
  }

  lemma QuietSnoc(t: seq<Event>, e: Event)
    requires e.Write? ==> !e.answer.Accepted?
    ensures Quiet(t, t + [e])
  {
    forall m: nat
      ensures AcceptedBy(t + [e], m) == AcceptedBy(t, m)
    {
      AcceptedSnoc(t, e, m);
    }
  }

  lemma QuietClose(s: State, m: nat)
    ensures Quiet(s.trace, CloseSpec(s, m).trace)
  {
    var t := s.trace;
    QuietSnoc(t, Trailer(m));
    QuietSnoc(t + [Trailer(m)], Close(m));
    assert t + [Trailer(m), Close(m)] == t + [Trailer(m)] + [Close(m)];
  }

  lemma QuietOpen(env: Env, s: State)
    ensures var (s', ok) := OpenSpec(env, s);
            && Quiet(s.trace, s'.trace) && s'.rotations == s.rotations
            && s.made <= s'.made && (ok ==> s'.made == s.made + 1)
  {
    if env.opens(s.trace) {
      var m := s.made;
      var t := s.trace + [Open(m)];
      var ok := env.header(t, m);
      QuietSnoc(s.trace, Open(m));
      QuietSnoc(t, Header(m, ok));
      QuietClose(State(t + [Header(m, ok)], m + 1, s.rotations), m);
    }
  }

  // ---- conservation along a run ----

  // `done` is what has been handled so far; later muxers have accepted nothing.
  ghost predicate Conserves(s: State, done: seq<Packet>) {
    && Segments(s.trace, s.made) == done
    && (forall m: nat :: m >= s.made ==> AcceptedBy(s.trace, m) == [])
    && (forall k: nat :: 0 < k < s.made ==> Handed(s.trace, k) || AcceptedBy(s.trace, k) == [])
  }

  // In use with everything in order: one muxer more than rotations, each later one handed its first packet.
  ghost predicate InStep(s: State, m: nat) {
    && s.made == s.rotations + 1 && m == s.made - 1
    && (forall k: nat :: 0 < k < s.made ==> Handed(s.trace, k))
  }

  lemma {:induction false} SegmentsMore(t: seq<Event>, n: nat, n': nat)
    requires n <= n' && forall m: nat :: n <= m < n' ==> AcceptedBy(t, m) == []
    ensures Segments(t, n') == Segments(t, n)
  {
    if n < n' {
      SegmentsMore(t, n, n' - 1);
    }
  }

  lemma QuietConserves(s: State, s': State, done: seq<Packet>)
    requires Conserves(s, done) && Quiet(s.trace, s'.trace) && s.made <= s'.made
    ensures Conserves(s', done)
  {
    SegmentsSame(s.trace, s'.trace, s'.made);
    SegmentsMore(s.trace, s.made, s'.made);
  }

  lemma QuietHanded(t: seq<Event>, t': seq<Event>, n: nat)
    requires Quiet(t, t') && forall k: nat :: 0 < k < n ==> Handed(t, k)
    ensures forall k: nat :: 0 < k < n ==> Handed(t', k)
  {
    forall k: nat | 0 < k < n
      ensures Handed(t', k)
    {
      HandedStays(t, t', k);
    }
  }

  lemma HandedStays(t: seq<Event>, t': seq<Event>, k: nat)
    requires k > 0 && t <= t' && Handed(t, k)
    requires AcceptedBy(t, k) <= AcceptedBy(t', k)
    ensures Handed(t', k)
  {
    var e := Write(k - 1, AcceptedBy(t, k)[0], Rotate);
    var i :| 0 <= i < |t| && t[i] == e;
    assert t'[i] == e;
  }

  // The muxer in use accepts one more packet.
  lemma AcceptConserves(s: State, m: nat, pkt: Packet, done: seq<Packet>)
    requires s.made > 0 && m == s.made - 1 && Conserves(s, done)
    requires m > 0 && AcceptedBy(s.trace, m) == [] ==> Write(m - 1, pkt, Rotate) in s.trace
    requires forall k: nat :: 0 < k < m ==> Handed(s.trace, k)
    ensures var s' := s.(trace := s.trace + [Write(m, pkt, Accepted)]);
            Conserves(s', done + [pkt]) && forall k: nat :: 0 < k < s.made ==> Handed(s'.trace, k)
  {
    var t := s.trace;
    var t' := t + [Write(m, pkt, Accepted)];
    forall k: nat
      ensures AcceptedBy(t', k) == if k == m then AcceptedBy(t, m) + [pkt] else AcceptedBy(t, k)
    {
      AcceptedSnoc(t, Write(m, pkt, Accepted), k);
    }
    SegmentsSame(t, t', m);
    assert Segments(t', s.made) == Segments(t, m) + (AcceptedBy(t, m) + [pkt]);
    assert Segments(t', s.made) == done + [pkt];
    forall k: nat | 0 < k < s.made
      ensures Handed(t', k)
    {
      if k == m && AcceptedBy(t, m) == [] {
        var i :| 0 <= i < |t| && t[i] == Write(m - 1, pkt, Rotate);
        assert t'[i] == Write(m - 1, pkt, Rotate);
      } else {
        assert k == m ==> Handed(t, k) || AcceptedBy(t, k) == [];
        HandedStays(t, t', k);
      }
    }
  }

  lemma RotateConserves(env: Env, s: State, m: nat, pkt: Packet, done: seq<Packet>)
    requires Conserves(s, done) && InStep(s, m) && Write(m, pkt, Rotate) in s.trace
    ensures var (s', m', e) := RotateSpec(env, s, m, pkt);
            if e.Fine? then Conserves(s', done + [pkt]) && InStep(s', m') else Conserves(s', done)
  {
    hide Conserves, Handed;
    var s1 := CloseSpec(s.(rotations := s.rotations + 1), m);
    QuietClose(s.(rotations := s.rotations + 1), m);
    QuietConserves(s, s1, done);
    QuietHanded(s.trace, s1.trace, s.made);
    QuietOpen(env, s1);
    var (s2, ok) := OpenSpec(env, s1);
    QuietConserves(s1, s2, done);
    QuietHanded(s1.trace, s2.trace, s.made);
    if ok {
      var n := s2.made - 1;
      var a := env.write(s2.trace, n, pkt);
      var s3 := s2.(trace := s2.trace + [Write(n, pkt, a)]);
      if a.Accepted? {
        AcceptConserves(s2, n, pkt, done);
      } else {
        QuietSnoc(s2.trace, Write(n, pkt, a));
        QuietConserves(s2, s3, done);
        QuietClose(s3, n);
        QuietConserves(s3, CloseSpec(s3, n), done);
      }
    }
  }

  lemma HandleConserves(env: Env, s: State, m: nat, pkt: Packet, done: seq<Packet>)
    requires Conserves(s, done) && InStep(s, m)
    ensures var (s', m', e) := HandleSpec(env, s, m, pkt);
            if e.Fine? then Conserves(s', done + [pkt]) && InStep(s', m') else Conserves(s', done)
  {
    hide Conserves, Handed;
    var (s1, ok) := AnnounceSpec(env, s, m, pkt);
    if pkt.newCodecs && env.isChanger(m) {
      QuietSnoc(s.trace, CodecChange(m, ok));
      QuietConserves(s, s1, done);
      QuietHanded(s.trace, s1.trace, s.made);
    }
    if ok {
      var a := env.write(s1.trace, m, pkt);
      var s2 := s1.(trace := s1.trace + [Write(m, pkt, a)]);
      if a.Accepted? {
        if m > 0 {
          UsedIsNotEmpty(s1, m);
        }
        AcceptConserves(s1, m, pkt, done);
      } else {
        QuietSnoc(s1.trace, Write(m, pkt, a));
        QuietConserves(s1, s2, done);
        QuietHanded(s1.trace, s2.trace, s.made);
        if a.Rotate? {
          RotateConserves(env, s2, m, pkt, done);
        }
      }
    }
  }

  lemma UsedIsNotEmpty(s: State, m: nat)
    requires InStep(s, m) && m > 0
    ensures AcceptedBy(s.trace, m) != []
  {
    assert Handed(s.trace, m);
  }

  // How many packets of the list are handled before one fails.
  function Handled(env: Env, s: State, m: nat, pkts: seq<Packet>): (n: nat)
    ensures n <= |pkts|
    ensures n == |pkts| <==> LoopSpec(env, s, m, pkts).2.Fine?
    decreases |pkts|
  {
    if pkts == [] then 0
    else
      var (s', m', e) := HandleSpec(env, s, m, pkts[0]);
      if e.Fine? then 1 + Handled(env, s', m', pkts[1..]) else 0
  }

  lemma {:induction false} LoopConserves(env: Env, s: State, m: nat, pkts: seq<Packet>, done: seq<Packet>)
    requires Conserves(s, done) && InStep(s, m)
    ensures var (s', m', e) := LoopSpec(env, s, m, pkts);
            && Conserves(s', done + pkts[..Handled(env, s, m, pkts)])
            && (e.Fine? ==> InStep(s', m'))
    decreases |pkts|
  {
    hide Conserves, InStep, HandleSpec;
    var n := Handled(env, s, m, pkts);
    if pkts == [] {
      assert done + pkts[..n] == done;
    } else {
      HandleConserves(env, s, m, pkts[0], done);
      var (s', m', e) := HandleSpec(env, s, m, pkts[0]);
      if e.Fine? {
        LoopConserves(env, s', m', pkts[1..], done + [pkts[0]]);
        assert done + [pkts[0]] + pkts[1..][..n - 1] == done + pkts[..n];
      } else {
        assert done + pkts[..n] == done;
      }
    }
  }

  // However the muxers answer, the successive muxers accept the dequeued packets in order, each once, up to
  // the packet the run fails on. A run that fails on none has one muxer more than rotations, and each later
  // muxer starts with the packet that its predecessor refused.
  lemma RotationConserves(env: Env, pkts: seq<Packet>)
    ensures var (s, last, e) := RunSpec(env, true, pkts);
            last.Some? ==>
              && (exists n :: 0 <= n <= |pkts| && (n == |pkts| <==> e.Fine?) && Segments(s.trace, s.made) == pkts[..n])
              && (e.Fine? ==>
                    && Segments(s.trace, s.made) == pkts
                    && s.rotations == s.made - 1
                    && forall k: nat :: 0 < k < s.made ==> Handed(s.trace, k))
  {
    hide LoopSpec, Handled;
    var s0 := State([], 0, 0);
    QuietOpen(env, s0);
    var (s, ok) := OpenSpec(env, s0);
    if ok {
      assert Conserves(s0, []);
      QuietConserves(s0, s, []);
      LoopConserves(env, s, 0, pkts, []);
      var n := Handled(env, s, 0, pkts);
      var (s', m, e) := LoopSpec(env, s, 0, pkts);
      LoopEnds(s', m, [] + pkts[..n]);
      assert [] + pkts[..n] == pkts[..n];
      assert pkts[..|pkts|] == pkts;
    }
  }

  lemma LoopEnds(s: State, m: nat, done: seq<Packet>)
    requires Conserves(s, done)
    ensures Segments(CloseSpec(s, m).trace, s.made) == done
    ensures InStep(s, m) ==> forall k: nat :: 0 < k < s.made ==> Handed(CloseSpec(s, m).trace, k)
  {
    QuietClose(s, m);
    QuietConserves(s, CloseSpec(s, m), done);
    if InStep(s, m) {
      QuietHanded(s.trace, CloseSpec(s, m).trace, s.made);
    }
  }

  // ---- segment muxers without I/O errors ----

  predicate HasKey(pkts: seq<Packet>) {
    exists i :: 0 <= i < |pkts| && pkts[i].key
  }

  // The keyframe flag a segment muxer keeps is whether it has accepted a keyframe.
  lemma FlagIsHistory(max: int, pkts: seq<Packet>, pkt: Packet, bytes: int)
    ensures var (flag, a) := SegmentSpec(max, HasKey(pkts), pkt, bytes);
            flag == HasKey(if a.Accepted? then pkts + [pkt] else pkts)
  {
    var more := pkts + [pkt];
    if HasKey(pkts) {
      var i :| 0 <= i < |pkts| && pkts[i].key;
      assert more[i].key;
    } else if pkt.key {
      assert more[|pkts|].key;
    }
  }

  // A factory of segment muxers on a working disk: `bytes` gives the size of the current file at each call.
  function SegmentEnv(max: int, bytes: seq<Event> -> int, isChanger: nat -> bool): Env {
    Env(t => true, (t, m) => true, isChanger, (t, m) => true,
        (t: seq<Event>, m: nat, p: Packet) => SegmentSpec(max, HasKey(AcceptedBy(t, m)), p, bytes(t)).1)
  }

  // Every refused packet is a keyframe.
  ghost predicate KeysRotate(trace: seq<Event>) {
    forall i :: 0 <= i < |trace| && trace[i].Write? ==>
      !trace[i].answer.Failed? && (trace[i].answer.Rotate? ==> trace[i].pkt.key)
  }

  lemma SegmentAnswers(max: int, bytes: seq<Event> -> int, isChanger: nat -> bool, t: seq<Event>, m: nat, pkt: Packet)
    ensures var env := SegmentEnv(max, bytes, isChanger);
            var a := env.write(t, m, pkt);
            && env.opens(t) && env.header(t, m) && env.codec(t, m)
            && !a.Failed? && (a.Rotate? ==> pkt.key) && (AcceptedBy(t, m) == [] ==> a.Accepted?)
  {
    var env := SegmentEnv(max, bytes, isChanger);
    assert env.write(t, m, pkt) == SegmentSpec(max, HasKey(AcceptedBy(t, m)), pkt, bytes(t)).1;
    assert !HasKey([]);
  }

  lemma KeysSnoc(t: seq<Event>, e: Event)
    requires KeysRotate(t) && (e.Write? ==> !e.answer.Failed? && (e.answer.Rotate? ==> e.pkt.key))
    ensures KeysRotate(t + [e])
  {
  }

  lemma KeysClose(s: State, m: nat)
    requires KeysRotate(s.trace)
    ensures KeysRotate(CloseSpec(s, m).trace)
  {
  }

  lemma SegmentHandles(max: int, bytes: seq<Event> -> int, isChanger: nat -> bool, s: State, m: nat, pkt: Packet)
    requires m < s.made && KeysRotate(s.trace)
    requires forall k: nat :: k >= s.made ==> AcceptedBy(s.trace, k) == []
    ensures var env := SegmentEnv(max, bytes, isChanger);
            var (s', m', e) := HandleSpec(env, s, m, pkt);
            && e.Fine? && KeysRotate(s'.trace)
  {
    hide SegmentEnv, KeysRotate, AcceptedBy;
    var env := SegmentEnv(max, bytes, isChanger);
    SegmentAnswers(max, bytes, isChanger, s.trace, m, pkt);
    QuietAnnounce(env, s, m, pkt);
    var (s1, ok) := AnnounceSpec(env, s, m, pkt);
    if s1 != s {
      KeysSnoc(s.trace, CodecChange(m, true));
    }
    SegmentAnswers(max, bytes, isChanger, s1.trace, m, pkt);
    var a := env.write(s1.trace, m, pkt);
    var s2 := s1.(trace := s1.trace + [Write(m, pkt, a)]);
    KeysSnoc(s1.trace, Write(m, pkt, a));
    if a.Rotate? {
      QuietSnoc(s1.trace, Write(m, pkt, a));
      SegmentRotates(max, bytes, isChanger, s2, m, pkt);
    }
  }

  lemma SegmentRotates(max: int, bytes: seq<Event> -> int, isChanger: nat -> bool, s: State, m: nat, pkt: Packet)
    requires m < s.made && KeysRotate(s.trace)
    requires forall k: nat :: k >= s.made ==> AcceptedBy(s.trace, k) == []
    ensures var env := SegmentEnv(max, bytes, isChanger);
            var (s', m', e) := RotateSpec(env, s, m, pkt);
            && e.Fine? && KeysRotate(s'.trace)
  {
    hide SegmentEnv, KeysRotate, AcceptedBy;
    var env := SegmentEnv(max, bytes, isChanger);
    var s1 := CloseSpec(s.(rotations := s.rotations + 1), m);
    QuietClose(s.(rotations := s.rotations + 1), m);
    KeysClose(s.(rotations := s.rotations + 1), m);
    var n := s1.made;
    var t := s1.trace + [Open(n)];
    SegmentAnswers(max, bytes, isChanger, s1.trace, n, pkt);
    SegmentAnswers(max, bytes, isChanger, t, n, pkt);
    KeysSnoc(s1.trace, Open(n));
    KeysSnoc(t, Header(n, true));
    QuietOpen(env, s1);
    var (s2, _) := OpenSpec(env, s1);
    SegmentAnswers(max, bytes, isChanger, s2.trace, n, pkt);
    KeysSnoc(s2.trace, Write(n, pkt, Accepted));
  }

  lemma QuietAnnounce(env: Env, s: State, m: nat, pkt: Packet)
    ensures var (s', ok) := AnnounceSpec(env, s, m, pkt);
            Quiet(s.trace, s'.trace) && s'.made == s.made && s'.rotations == s.rotations
  {
    if pkt.newCodecs && env.isChanger(m) {
      QuietSnoc(s.trace, CodecChange(m, env.codec(s.trace, m)));
    }
  }

  lemma {:induction false} SegmentLoop(max: int, bytes: seq<Event> -> int, isChanger: nat -> bool,
                                       s: State, m: nat, pkts: seq<Packet>, done: seq<Packet>)
    requires KeysRotate(s.trace) && Conserves(s, done) && InStep(s, m)
    ensures var (s', m', e) := LoopSpec(SegmentEnv(max, bytes, isChanger), s, m, pkts);
            e.Fine? && KeysRotate(s'.trace)
    decreases |pkts|
  {
    hide HandleSpec, KeysRotate, SegmentEnv, Handed, Segments, AcceptedBy;
    if pkts != [] {
      var env := SegmentEnv(max, bytes, isChanger);
      SegmentHandles(max, bytes, isChanger, s, m, pkts[0]);
      HandleConserves(env, s, m, pkts[0], done);
      var (s', m', e) := HandleSpec(env, s, m, pkts[0]);
      SegmentLoop(max, bytes, isChanger, s', m', pkts[1..], done + [pkts[0]]);
    }
  }

  // Over segment muxers on a working disk no packet is lost, repeated or reordered; every segment after the
  // first starts with the keyframe that ended the one before it, and each rotation opened one more muxer.
  lemma SegmentsConserve(max: int, bytes: seq<Event> -> int, isChanger: nat -> bool, pkts: seq<Packet>)
    ensures var (s, last, e) := RunSpec(SegmentEnv(max, bytes, isChanger), true, pkts);
            && e.Fine?
            && Segments(s.trace, s.made) == pkts
            && s.rotations == s.made - 1
            && forall k: nat :: 0 < k < s.made ==>
                 AcceptedBy(s.trace, k) != [] && AcceptedBy(s.trace, k)[0].key
                 && Write(k - 1, AcceptedBy(s.trace, k)[0], Rotate) in s.trace
  {
    hide LoopSpec;
    var env := SegmentEnv(max, bytes, isChanger);
    var s0 := State([], 0, 0);
    QuietOpen(env, s0);
    var (s, ok) := OpenSpec(env, s0);
    assert ok && KeysRotate(s.trace);
    assert Conserves(s0, []);
    QuietConserves(s0, s, []);
    SegmentLoop(max, bytes, isChanger, s, 0, pkts, []);
    RotationConserves(env, pkts);
    var (s', m, e) := LoopSpec(env, s, 0, pkts);
    var final := CloseSpec(s', m);
    assert KeysRotate(final.trace);
    forall k: nat | 0 < k < s'.made
      ensures AcceptedBy(final.trace, k) != [] && AcceptedBy(final.trace, k)[0].key
              && Write(k - 1, AcceptedBy(final.trace, k)[0], Rotate) in final.trace
    {
      assert Handed(final.trace, k);
      var w := Write(k - 1, AcceptedBy(final.trace, k)[0], Rotate);
      var i :| 0 <= i < |final.trace| && final.trace[i] == w;
      assert final.trace[i].pkt.key;
    }
  }
}
