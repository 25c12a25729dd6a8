/** The goroutine of one consumer: it opens muxers, feeds them packets, rotates and closes them. */
module ConsumerRun {
  import opened Wrappers

  // `newCodecs` says whether the packet announces a codec change.
  datatype Packet = Packet(id: int, key: bool, newCodecs: bool)

  datatype Answer = Accepted | Rotate | Failed

  // One call on muxer `m` and how it answered. `Open` is the factory call that made it.
  datatype Event =
    | Open(m: nat)
    | Header(m: nat, ok: bool)
    | CodecChange(m: nat, ok: bool)
    | Write(m: nat, pkt: Packet, answer: Answer)
    | Trailer(m: nat)
    | Close(m: nat)

  // The factory and its muxers, free to answer anything on the strength of every call so far.
  datatype Env = Env(opens: seq<Event> -> bool,
                     header: (seq<Event>, nat) -> bool,
                     isChanger: nat -> bool,
                     codec: (seq<Event>, nat) -> bool,
                     write: (seq<Event>, nat, Packet) -> Answer)

  datatype State = State(trace: seq<Event>, made: nat, rotations: nat)

  // How a packet, or a whole run, ended.
  datatype Ending = Fine | PacketFailed | RotationFailed

  function CloseSpec(s: State, m: nat): State {
    s.(trace := s.trace + [Trailer(m), Close(m)])
  }

  function OpenSpec(env: Env, s: State): (State, bool) {
    if !env.opens(s.trace) then (s, false)
    else
      var m := s.made;
      var t := s.trace + [Open(m)];
      var ok := env.header(t, m);
      var s' := State(t + [Header(m, ok)], m + 1, s.rotations);
      if ok then (s', true) else (CloseSpec(s', m), false)
  }

  // Rotation after muxer `m` has refused the packet; gives the muxer in use afterwards.
  function RotateSpec(env: Env, s: State, m: nat, pkt: Packet): (State, nat, Ending) {
    var (s', ok) := OpenSpec(env, CloseSpec(s.(rotations := s.rotations + 1), m));
    if !ok then (s', m, RotationFailed)
    else
      var n := s'.made - 1;
      var a := env.write(s'.trace, n, pkt);
      var s'' := s'.(trace := s'.trace + [Write(n, pkt, a)]);
      if a.Accepted? then (s'', n, Fine) else (CloseSpec(s'', n), m, RotationFailed)
  }

  function AnnounceSpec(env: Env, s: State, m: nat, pkt: Packet): (State, bool) {
    if pkt.newCodecs && env.isChanger(m) then
      var ok := env.codec(s.trace, m);
      (s.(trace := s.trace + [CodecChange(m, ok)]), ok)
    else (s, true)
  }

  function HandleSpec(env: Env, s: State, m: nat, pkt: Packet): (State, nat, Ending) {
    var (s', ok) := AnnounceSpec(env, s, m, pkt);
    if !ok then (s', m, PacketFailed)
    else
      var a := env.write(s'.trace, m, pkt);
      var s'' := s'.(trace := s'.trace + [Write(m, pkt, a)]);
      match a
      case Accepted => (s'', m, Fine)
      case Failed => (s'', m, PacketFailed)
      case Rotate => RotateSpec(env, s'', m, pkt)
  }

  // The packets dequeued before the loop is cancelled, handled until one fails.
  function LoopSpec(env: Env, s: State, m: nat, pkts: seq<Packet>): (State, nat, Ending)
    decreases |pkts|
  {
    if pkts == [] then (s, m, Fine)
    else
      var (s', m', e) := HandleSpec(env, s, m, pkts[0]);
      if e.Fine? then LoopSpec(env, s', m', pkts[1..]) else (s', m', e)
  }

  // A whole run: its final state, the muxer in use at the end if one was ever ready, and how it ended.
  function RunSpec(env: Env, haveHeaders: bool, pkts: seq<Packet>): (State, Option<nat>, Ending) {
    if !haveHeaders then (State([], 0, 0), None, Fine)
    else
      var (s, ok) := OpenSpec(env, State([], 0, 0));
      if !ok then (s, None, PacketFailed)
      else
        var (s', m, e) := LoopSpec(env, s, s.made - 1, pkts);
        (CloseSpec(s', m), Some(m), e)
  }

  class Consumer {
    var trace: seq<Event>
    var made: nat
    var rotations: nat

    function View(): State
      reads this
    {
      State(trace, made, rotations)
    }

    constructor ()
      ensures View() == State([], 0, 0)
    {
      trace := [];
      made := 0;
      rotations := 0;
    }

    method CloseMuxer(m: nat)
      modifies this`trace
      ensures View() == CloseSpec(old(View()), m)
    {
      trace := trace + [Trailer(m)];
      trace := trace + [Close(m)];
      assert trace == old(trace) + [Trailer(m), Close(m)];
    }

    method OpenAndInitMuxer(env: Env) returns (m: nat, ok: bool)
      modifies this
      ensures (View(), ok) == OpenSpec(env, old(View()))
      ensures ok ==> made == m + 1
    {
      m := made;
      ok := env.opens(trace);
      if !ok {
        return;
      }
      trace := trace + [Open(m)];
      made := made + 1;
      ok := env.header(trace, m);
      trace := trace + [Header(m, ok)];
      if !ok {
        CloseMuxer(m);
      }
    }

    method RotateMuxer(env: Env, m: nat, pkt: Packet) returns (n: nat, e: Ending)
      modifies this
      ensures (View(), n, e) == RotateSpec(env, old(View()), m, pkt)
    {
      rotations := rotations + 1;
      CloseMuxer(m);
      var newMuxer, ok := OpenAndInitMuxer(env);
      if !ok {
        return m, RotationFailed;
      }
      var a := env.write(trace, newMuxer, pkt);
      trace := trace + [Write(newMuxer, pkt, a)];
      if !a.Accepted? {
        CloseMuxer(newMuxer);
        return m, RotationFailed;
      }
      return newMuxer, Fine;
    }

    method HandlePacket(env: Env, m: nat, pkt: Packet) returns (n: nat, e: Ending)
      modifies this
      ensures (View(), n, e) == HandleSpec(env, old(View()), m, pkt)
    {
      if pkt.newCodecs {
        if env.isChanger(m) {
          var ok := env.codec(trace, m);
          trace := trace + [CodecChange(m, ok)];
          if !ok {
            return m, PacketFailed;
          }
        }
      }
      var a := env.write(trace, m, pkt);
      trace := trace + [Write(m, pkt, a)];
      if !a.Accepted? {
        if !a.Rotate? {
          return m, PacketFailed;
        }
        n, e := RotateMuxer(env, m, pkt);
        return;
      }
      return m, Fine;
    }

    method PacketLoop(env: Env, start: nat, pkts: seq<Packet>) returns (m: nat, e: Ending)
      modifies this
      ensures (View(), m, e) == LoopSpec(env, old(View()), start, pkts)
    {
      hide HandleSpec;
      m, e := start, Fine;
      var i := 0;
      while i < |pkts|
        invariant 0 <= i <= |pkts| && e.Fine?
        invariant LoopSpec(env, old(View()), start, pkts) == LoopSpec(env, View(), m, pkts[i..])
      {
        assert pkts[i..][1..] == pkts[i + 1..];
        m, e := HandlePacket(env, m, pkts[i]);
        if !e.Fine? {
          return;
        }
        i := i + 1;
      }
    }

    method Run(env: Env, haveHeaders: bool, pkts: seq<Packet>) returns (last: Option<nat>, e: Ending)
      requires View() == State([], 0, 0)
      modifies this
      ensures (View(), last, e) == RunSpec(env, haveHeaders, pkts)
    {
      hide OpenSpec, LoopSpec;
      if !haveHeaders {
        return None, Fine;
      }
      var m, ok := OpenAndInitMuxer(env);
      if !ok {
        return None, PacketFailed;
      }
      m, e := PacketLoop(env, m, pkts);
      CloseMuxer(m);
      last := Some(m);
    }
  }

  // ---- the call grammar ----

  // What one muxer has been through. `Ended(n)` has seen n trailers, each followed by its close.
  datatype Life = Unopened | Opened | Running | Stopped | Trailing(n: nat) | Ended(n: nat) | Broken

  function Advance(l: Life, e: Event): Life {
    match e
    case Open(_) => if l.Unopened? then Opened else Broken
    case Header(_, ok) => if l.Opened? then (if ok then Running else Stopped) else Broken
    case CodecChange(_, ok) => if l.Running? then (if ok then Running else Stopped) else Broken
    case Write(_, _, a) => if l.Running? then (if a.Accepted? then Running else Stopped) else Broken
    case Trailer(_) =>
      (match l
       case Running => Trailing(1)
       case Stopped => Trailing(1)
       case Ended(n) => Trailing(n + 1)
       case _ => Broken)
    case Close(_) => if l.Trailing? then Ended(l.n) else Broken
  }

  // The life of muxer `m` over a trace, its own calls only.
  function LifeOf(trace: seq<Event>, m: nat): Life {
    if trace == [] then Unopened
    else
      var n := |trace| - 1;
      if trace[n].m == m then Advance(LifeOf(trace[..n], m), trace[n]) else LifeOf(trace[..n], m)
  }

  lemma LifeSnoc(t: seq<Event>, e: Event, m: nat)
    ensures LifeOf(t + [e], m) == if e.m == m then Advance(LifeOf(t, m), e) else LifeOf(t, m)
  {
    assert (t + [e])[..|t|] == t;
  }

  lemma LifeClose(t: seq<Event>, c: nat, m: nat)
    ensures LifeOf(t + [Trailer(c), Close(c)], m) ==
            if c == m then Advance(Advance(LifeOf(t, m), Trailer(c)), Close(c)) else LifeOf(t, m)
  {
    LifeSnoc(t, Trailer(c), m);
    LifeSnoc(t + [Trailer(c)], Close(c), m);
    assert t + [Trailer(c), Close(c)] == t + [Trailer(c)] + [Close(c)];
  }

  // All muxers but `current` have ended after one trailer.
  ghost predicate Lives(s: State, current: nat, life: Life) {
    forall m: nat ::
      LifeOf(s.trace, m) == if m >= s.made then Unopened else if m == current then life else Ended(1)
  }

  lemma CloseLives(s: State, current: nat, life: Life, life': Life)
    requires Lives(s, current, life) && current < s.made
    requires life' == Advance(Advance(life, Trailer(current)), Close(current))
    ensures Lives(CloseSpec(s, current), current, life')
  {
    forall m: nat
      ensures var s' := CloseSpec(s, current);
              LifeOf(s'.trace, m) == if m >= s'.made then Unopened else if m == current then life' else Ended(1)
    {
      LifeClose(s.trace, current, m);
    }
  }

  lemma CallLives(s: State, current: nat, e: Event, life: Life)
    requires Lives(s, current, life) && current < s.made && e.m == current
    ensures Lives(s.(trace := s.trace + [e]), current, Advance(life, e))
  {
    forall m: nat
      ensures LifeOf(s.trace + [e], m) ==
              if m >= s.made then Unopened else if m == current then Advance(life, e) else Ended(1)
    {
      LifeSnoc(s.trace, e, m);
    }
  }

  // Opening a muxer when every earlier one has ended.
  lemma OpenLives(env: Env, s: State)
    requires forall m: nat :: LifeOf(s.trace, m) == if m >= s.made then Unopened else Ended(1)
    ensures var (s', ok) := OpenSpec(env, s);
            if ok then s'.made == s.made + 1 && Lives(s', s.made, Running)
            else forall m: nat :: LifeOf(s'.trace, m) == if m >= s'.made then Unopened else Ended(1)
    ensures OpenSpec(env, s).0.made >= s.made
  {
    if env.opens(s.trace) {
      var m := s.made;
      var t := s.trace + [Open(m)];
      var s1 := State(t, m + 1, s.rotations);
      forall k: nat
        ensures LifeOf(t, k) == if k >= m + 1 then Unopened else if k == m then Opened else Ended(1)
      {
        LifeSnoc(s.trace, Open(m), k);
      }
      var ok := env.header(t, m);
      assert Lives(s1, m, Opened);
      CallLives(s1, m, Header(m, ok), Opened);
      var s2 := State(t + [Header(m, ok)], m + 1, s.rotations);
      if !ok {
        CloseLives(s2, m, Stopped, Ended(1));
      }
    }
  }

  lemma RotateLives(env: Env, s: State, m: nat, pkt: Packet)
    requires m < s.made && Lives(s, m, Stopped)
    ensures var (s', m', e) := RotateSpec(env, s, m, pkt);
            && m' < s'.made
            && Lives(s', m', if e.Fine? then Running else Ended(1))
            && !e.PacketFailed?
  {
    var s0 := s.(rotations := s.rotations + 1);
    assert Lives(s0, m, Stopped);
    CloseLives(s0, m, Stopped, Ended(1));
    var s1 := CloseSpec(s0, m);
    OpenLives(env, s1);
    var (s2, ok) := OpenSpec(env, s1);
    if ok {
      var n := s2.made - 1;
      var a := env.write(s2.trace, n, pkt);
      CallLives(s2, n, Write(n, pkt, a), Running);
      var s3 := s2.(trace := s2.trace + [Write(n, pkt, a)]);
      if !a.Accepted? {
        CloseLives(s3, n, Stopped, Ended(1));
      }
    }
  }

  lemma HandleLives(env: Env, s: State, m: nat, pkt: Packet)
    requires m < s.made && Lives(s, m, Running)
    ensures var (s', m', e) := HandleSpec(env, s, m, pkt);
            && m' < s'.made
            && (match e
                case Fine => Lives(s', m', Running)
                case PacketFailed => Lives(s', m', Stopped)
                case RotationFailed => Lives(s', m', Ended(1)))
  {
    hide LifeOf, Lives;
    var (s1, ok) := AnnounceSpec(env, s, m, pkt);
    if pkt.newCodecs && env.isChanger(m) {
      CallLives(s, m, CodecChange(m, ok), Running);
    }
    if ok {
      var a := env.write(s1.trace, m, pkt);
      CallLives(s1, m, Write(m, pkt, a), Running);
      if a.Rotate? {
        RotateLives(env, s1.(trace := s1.trace + [Write(m, pkt, a)]), m, pkt);
      }
    }
  }

  lemma {:induction false} LoopLives(env: Env, s: State, m: nat, pkts: seq<Packet>)
    requires m < s.made && Lives(s, m, Running)
    ensures var (s', m', e) := LoopSpec(env, s, m, pkts);
            && m' < s'.made
            && (match e
                case Fine => Lives(s', m', Running)
                case PacketFailed => Lives(s', m', Stopped)
                case RotationFailed => Lives(s', m', Ended(1)))
    decreases |pkts|
  {
    hide Lives, HandleSpec;
    if pkts != [] {
      HandleLives(env, s, m, pkts[0]);
      var (s', m', e) := HandleSpec(env, s, m, pkts[0]);
      if e.Fine? {
        LoopLives(env, s', m', pkts[1..]);
      }
    }
  }

  lemma LastClose(s: State, current: nat, life: Life)
    requires current < s.made && Lives(s, current, life)
    requires life.Running? || life.Stopped? || life == Ended(1)
    ensures Lives(CloseSpec(s, current), current, if life.Ended? then Ended(2) else Ended(1))
  {
    CloseLives(s, current, life, if life.Ended? then Ended(2) else Ended(1));
  }

  // Whatever the muxers answer, every opened muxer lives by the grammar and ends after exactly one trailer
  // and close; only the muxer in use when a rotation fails is closed a second time.
  lemma CallGrammar(env: Env, haveHeaders: bool, pkts: seq<Packet>, m: nat)
    ensures var (s, last, e) := RunSpec(env, haveHeaders, pkts);
            LifeOf(s.trace, m) ==
            if m >= s.made then Unopened
            else if e.RotationFailed? && last == Some(m) then Ended(2)
            else Ended(1)
  {
    hide LoopSpec, Advance;
    if haveHeaders {
      var s0 := State([], 0, 0);
      OpenLives(env, s0);
      var (s, ok) := OpenSpec(env, s0);
      if ok {
        LoopLives(env, s, s.made - 1, pkts);
        var (s', c, e) := LoopSpec(env, s, s.made - 1, pkts);
        match e
        case Fine => LastClose(s', c, Running);
        case PacketFailed => LastClose(s', c, Stopped);
        case RotationFailed => LastClose(s', c, Ended(1));
      }
    }
  }

  // ---- what an unbroken life says about the order of calls ----

  lemma {:induction false} BrokenStays(trace: seq<Event>, n: nat, m: nat)
    requires n <= |trace| && LifeOf(trace, m) != Broken
    ensures LifeOf(trace[..n], m) != Broken
    decreases |trace| - n
  {
    if n == |trace| {
      assert trace[..n] == trace;
    } else {
      BrokenStays(trace, n + 1, m);
      assert trace[..n + 1] == trace[..n] + [trace[n]];
      LifeSnoc(trace[..n], trace[n], m);
    }
  }

  // Once a trailer has been written the life is Trailing or Ended for good.
  lemma {:induction false} AfterTrailer(trace: seq<Event>, i: nat, n: nat, m: nat)
    requires i < n <= |trace| && trace[i] == Trailer(m) && LifeOf(trace, m) != Broken
    ensures LifeOf(trace[..n], m).Trailing? || LifeOf(trace[..n], m).Ended?
    decreases n
  {
    BrokenStays(trace, n, m);
    assert trace[..n] == trace[..n - 1] + [trace[n - 1]];
    LifeSnoc(trace[..n - 1], trace[n - 1], m);
    if i < n - 1 {
      AfterTrailer(trace, i, n - 1, m);
    }
  }

  // The automaton read as an order of calls: a header comes before anything else is written, and no codec
  // change or packet follows a trailer.
  lemma CallOrder(env: Env, haveHeaders: bool, pkts: seq<Packet>, j: nat)
    requires j < |RunSpec(env, haveHeaders, pkts).0.trace|
    ensures var trace := RunSpec(env, haveHeaders, pkts).0.trace;
            trace[j].CodecChange? || trace[j].Write? ==>
              && (exists i :: 0 <= i < j && trace[i] == Header(trace[j].m, true))
              && (forall i :: 0 <= i < j ==> trace[i] != Trailer(trace[j].m))
  {
    var trace := RunSpec(env, haveHeaders, pkts).0.trace;
    var m := trace[j].m;
    CallGrammar(env, haveHeaders, pkts, m);
    if trace[j].CodecChange? || trace[j].Write? {
      BrokenStays(trace, j + 1, m);
      assert trace[..j + 1] == trace[..j] + [trace[j]];
      LifeSnoc(trace[..j], trace[j], m);
      RunningHasHeader(trace, j, m);
      forall i | 0 <= i < j
        ensures trace[i] != Trailer(m)
      {
        if trace[i] == Trailer(m) {
          AfterTrailer(trace, i, j, m);
        }
      }
    }
  }

  lemma {:induction false} RunningHasHeader(trace: seq<Event>, n: nat, m: nat)
    requires n <= |trace| && LifeOf(trace[..n], m).Running?
    ensures exists i :: 0 <= i < n && trace[i] == Header(m, true)
    decreases n
  {
    if n > 0 {
      assert trace[..n] == trace[..n - 1] + [trace[n - 1]];
      LifeSnoc(trace[..n - 1], trace[n - 1], m);
      if trace[n - 1] != Header(m, true) {
        RunningHasHeader(trace, n - 1, m);
      }
    }
  }
}
