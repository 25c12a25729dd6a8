/**
 * Every interleaving of writers, a closing call and any number of readers of one packet buffer. Each
 * step is one lock section, one atomic operation or one channel operation.
 */
module PacketBufferRuns {
  import opened Wrappers
  import opened PacketBuffer

  datatype Phase =
    | Outside                  // not inside ReadPacket
    | Ready                    // about to take the read lock
    | Holding(snap: Snapshot)  // read lock released, snapshot not yet used
    | Waiting(ch: nat)         // blocked on the snapshot's channel

  datatype Delivery = Delivery(pos: nat, pkt: Packet)

  datatype Reader = Reader(cursor: Cursor, done: bool, phase: Phase, returned: seq<Delivery>, sawEnd: bool)

  // How far the winning Close call has come. `Flagged` and `Swapped` remember the log length at the flag.
  datatype Closing = Open | Flagged(len: nat) | Swapped(len: nat)

  // `log` is every packet ever written; `pending` the channels swapped out but not closed yet.
  datatype Global = Global(buf: Shared, log: seq<Packet>, closing: Closing,
                           pending: set<nat>, closedChannels: set<nat>, readers: seq<Reader>)

  datatype Step =
    | Write(p: Packet, now: int, evictNow: int)
    | CloseChannel(ch: nat)
    | CloseFlag
    | CloseSwap
    | OpenReader(since: int)
    | Call(i: nat)
    | Snap(i: nat)
    | Process(i: nat)
    | Wake(i: nat)
    | Cancel(i: nat)
    | Stop(i: nat)

  function Init(maxAge: int): Global {
    Global(Shared([], 0, maxAge, 0, 1), [], Open, {}, {}, [])
  }

  function TakeSnapshot(g: Global): Snapshot {
    Snapshot(g.buf.pkts, g.buf.baseOffset, g.buf.notify, !g.closing.Open?)
  }

  function ProcessReader(r: Reader): Reader
    requires r.phase.Holding?
  {
    var (c, out) := ProcessSpec(r.cursor, r.phase.snap);
    match out
    case Return(p) => Reader(c, r.done, Outside, r.returned + [Delivery(c.pos - 1, p)], r.sawEnd)
    case Again => Reader(c, r.done, Ready, r.returned, r.sawEnd)
    case Eof => Reader(c, r.done, Outside, r.returned, true)
    case Wait => Reader(c, r.done, Waiting(r.phase.snap.notify), r.returned, r.sawEnd)
  }

  // The new state of a reader that takes a step of its own; None when the step cannot happen.
  function ReaderNext(g: Global, r: Reader, s: Step): Option<Reader> {
    match s
    case Call(_) => if !r.phase.Outside? then None else if r.done then Some(r) else Some(r.(phase := Ready))
    case Snap(_) => if r.phase.Ready? then Some(r.(phase := Holding(TakeSnapshot(g)))) else None
    case Process(_) => if r.phase.Holding? then Some(ProcessReader(r)) else None
    case Wake(_) => if r.phase.Waiting? && r.phase.ch in g.closedChannels then Some(r.(phase := Ready)) else None
    case Cancel(_) => if r.phase.Waiting? then Some(r.(phase := Outside)) else None
    case Stop(_) => Some(r.(done := true))
    case _ => None
  }

  function Next(g: Global, s: Step): Option<Global> {
    match s
    case Write(p, now, evictNow) =>
      Some(g.(buf := PushSpec(g.buf, p, now, evictNow), log := g.log + [Stamped(p, now)],
              pending := g.pending + {g.buf.notify}))
    case CloseChannel(ch) =>
      if ch in g.pending then
        Some(g.(pending := g.pending - {ch}, closedChannels := g.closedChannels + {ch}))
      else None
    case CloseFlag =>
      if g.closing.Open? then Some(g.(closing := Flagged(|g.log|))) else None
    case CloseSwap =>
      if g.closing.Flagged? then
        Some(g.(buf := SwapSpec(g.buf), closing := Swapped(g.closing.len), pending := g.pending + {g.buf.notify}))
      else None
    case OpenReader(since) =>
      Some(g.(readers := g.readers + [Reader(Cursor(since, 0, false), false, Outside, [], false)]))
    case _ =>
      if s.i >= |g.readers| then None
      else
        var r := ReaderNext(g, g.readers[s.i], s);
        if r.None? then None else Some(g.(readers := g.readers[s.i := r.value]))
  }

  // The state after a run, or None when some step of it cannot happen.
  function Run(maxAge: int, steps: seq<Step>): Option<Global> {
    if steps == [] then Some(Init(maxAge))
    else
      var before := Run(maxAge, steps[..|steps| - 1]);
      if before.None? then None else Next(before.value, steps[|steps| - 1])
  }

  // ---- invariants ----

  ghost predicate BufferOk(g: Global) {
    && g.buf.baseOffset <= |g.log|
    && g.buf.pkts == g.log[g.buf.baseOffset..]
  }

  // The live channel is open, and every older one is closed or owed a close, never both.
  ghost predicate ChannelsOk(g: Global) {
    && g.buf.notify < g.buf.nextChannel
    && g.buf.notify !in g.pending && g.buf.notify !in g.closedChannels
    && g.pending !! g.closedChannels
    && (forall c :: c in g.pending || c in g.closedChannels ==> c < g.buf.nextChannel)
    && (!g.closing.Open? ==> g.closing.len <= |g.log|)
  }

  // A channel taken when the log had `len` packets and the buffer was open: either nothing has happened
  // since, or whoever swapped it out has closed it or will.
  ghost predicate Notified(g: Global, ch: nat, len: nat) {
    && (ch == g.buf.notify ==> |g.log| == len && !g.closing.Swapped?)
    && (ch != g.buf.notify ==> ch in g.pending || ch in g.closedChannels)
  }

  ghost predicate InOrder(ds: seq<Delivery>) {
    forall i, j :: 0 <= i < j < |ds| ==> ds[i].pos < ds[j].pos
  }

  ghost predicate FromLog(log: seq<Packet>, since: int, bound: nat, ds: seq<Delivery>) {
    forall i :: 0 <= i < |ds| ==>
      ds[i].pos < bound && ds[i].pos < |log| && ds[i].pkt == log[ds[i].pos] && ds[i].pkt.wall >= since
  }

  ghost predicate Has(ds: seq<Delivery>, p: nat) {
    exists i :: 0 <= i < |ds| && ds[i].pos == p
  }

  // Every position before the cursor was returned, is too old, or has been evicted.
  ghost predicate Accounted(log: seq<Packet>, base: nat, r: Reader) {
    forall p: nat :: p < r.cursor.pos && p < |log| && base <= p && log[p].wall >= r.cursor.since ==> Has(r.returned, p)
  }

  ghost predicate PhaseOk(g: Global, r: Reader) {
    match r.phase
    case Holding(s) =>
      var end := s.base + |s.pkts|;
      && s.base <= g.buf.baseOffset && end <= |g.log| && s.pkts == g.log[s.base..end]
      && r.cursor.pos <= end
      && (!s.closed ==> Notified(g, s.notify, end))
      && (s.closed ==> !g.closing.Open? && g.closing.len <= end)
    case Waiting(ch) => Notified(g, ch, r.cursor.pos)
    case _ => true
  }

  ghost predicate ReaderOk(g: Global, r: Reader) {
    && r.cursor.pos <= |g.log|
    && (!r.cursor.started ==> r.cursor.pos == 0)
    && InOrder(r.returned)
    && FromLog(g.log, r.cursor.since, r.cursor.pos, r.returned)
    && Accounted(g.log, g.buf.baseOffset, r)
    && PhaseOk(g, r)
    && (r.sawEnd ==> !g.closing.Open? && g.closing.len <= r.cursor.pos)
  }

  ghost predicate Inv(g: Global) {
    && BufferOk(g)
    && ChannelsOk(g)
    && forall i :: 0 <= i < |g.readers| ==> ReaderOk(g, g.readers[i])
  }

  // ---- every step keeps them ----

  lemma PushGrowsLog(b: Shared, log: seq<Packet>, p: Packet, now: int, evictNow: int)
    requires b.baseOffset <= |log| && b.pkts == log[b.baseOffset..]
    ensures var b' := PushSpec(b, p, now, evictNow);
            var log' := log + [Stamped(p, now)];
            b.baseOffset <= b'.baseOffset <= |log'| && b'.pkts == log'[b'.baseOffset..]
  {
    var log' := log + [Stamped(p, now)];
    var all := b.pkts + [Stamped(p, now)];
    var b' := PushSpec(b, p, now, evictNow);
    var gone := Expired(all, evictNow - b.maxAge);
    assert all == log'[b.baseOffset..];
    assert all[gone..] == log'[b.baseOffset + gone..];
  }

  // What a write, a close or a channel close may change without disturbing a reader.
  ghost predicate Later(g: Global, g': Global) {
    && g.log <= g'.log
    && g.buf.baseOffset <= g'.buf.baseOffset
    && g.pending <= g'.pending + g'.closedChannels
    && g.closedChannels <= g'.closedChannels
    && (!g.closing.Open? ==> !g'.closing.Open? && g'.closing.len == g.closing.len)
    && (g'.buf.notify == g.buf.notify ==> g'.log == g.log && (g'.closing.Swapped? ==> g.closing.Swapped?))
    && (g'.buf.notify != g.buf.notify ==> g.buf.notify in g'.pending && g'.buf.notify == g.buf.nextChannel)
  }

  lemma LaterNotified(g: Global, g': Global, ch: nat, len: nat)
    requires ChannelsOk(g) && Later(g, g') && Notified(g, ch, len)
    ensures Notified(g', ch, len)
  {
    assert ch in g.pending || ch in g.closedChannels ==> ch < g.buf.nextChannel;
  }

  lemma LaterReader(g: Global, g': Global, r: Reader)
    requires BufferOk(g) && ChannelsOk(g) && Later(g, g') && ReaderOk(g, r)
    ensures ReaderOk(g', r)
  {
    assert |g.log| <= |g'.log|;
    match r.phase
    case Holding(s) =>
      var end := s.base + |s.pkts|;
      assert g'.log[s.base..end] == g.log[s.base..end];
      if !s.closed {
        LaterNotified(g, g', s.notify, end);
      }
    case Waiting(ch) => LaterNotified(g, g', ch, r.cursor.pos);
    case _ =>
  }

  lemma AllLater(g: Global, g': Global)
    requires Inv(g) && Later(g, g') && g'.readers == g.readers
    ensures forall i :: 0 <= i < |g'.readers| ==> ReaderOk(g', g'.readers[i])
  {
    forall i | 0 <= i < |g'.readers|
      ensures ReaderOk(g', g'.readers[i])
    {
      LaterReader(g, g', g.readers[i]);
    }
  }

  // The cursor settles inside the snapshot, over packets that were evicted or are too old.
  lemma Settles(g: Global, r: Reader)
    requires BufferOk(g) && ReaderOk(g, r) && r.phase.Holding?
    ensures var s := r.phase.snap;
            var at := SettleSpec(r.cursor, s);
            && s.base <= g.buf.baseOffset && s.base <= at && r.cursor.pos <= at <= s.base + |s.pkts| <= |g.log|
            && (forall p: nat :: r.cursor.pos <= p < at && s.base <= p ==> g.log[p].wall < r.cursor.since)
            && (at < s.base + |s.pkts| ==> s.pkts[at - s.base] == g.log[at])
  {
    hide InOrder, FromLog, Accounted, Notified;
    var s := r.phase.snap;
    var at := SettleSpec(r.cursor, s);
    forall p: nat | r.cursor.pos <= p < at && s.base <= p
      ensures g.log[p].wall < r.cursor.since
    {
      assert g.log[p] == s.pkts[p - s.base];
    }
  }

  lemma HasMore(ds: seq<Delivery>, d: Delivery, p: nat)
    requires Has(ds, p) || d.pos == p
    ensures Has(ds + [d], p)
  {
    var all := ds + [d];
    if Has(ds, p) {
      var i :| 0 <= i < |ds| && ds[i].pos == p;
      assert all[i].pos == p;
    } else {
      assert all[|ds|].pos == p;
    }
  }

  // Passing the packet at the settled cursor, returned unless it is too old, leaves every position accounted for.
  lemma PassKeeps(g: Global, r: Reader, at: nat, ds: seq<Delivery>)
    requires BufferOk(g) && Accounted(g.log, g.buf.baseOffset, r)
    requires r.cursor.pos <= at < |g.log|
    requires forall p: nat :: r.cursor.pos <= p < at && g.buf.baseOffset <= p ==> g.log[p].wall < r.cursor.since
    requires ds == if g.log[at].wall < r.cursor.since then r.returned else r.returned + [Delivery(at, g.log[at])]
    ensures forall p: nat :: p <= at && g.buf.baseOffset <= p && g.log[p].wall >= r.cursor.since ==> Has(ds, p)
  {
    hide Has;
    forall p: nat | p <= at && g.buf.baseOffset <= p && g.log[p].wall >= r.cursor.since
      ensures Has(ds, p)
    {
      if g.log[at].wall >= r.cursor.since {
        assert p < r.cursor.pos ==> Has(r.returned, p);
        HasMore(r.returned, Delivery(at, g.log[at]), p);
      } else {
        assert p < r.cursor.pos;
      }
    }
  }

  // A packet returned from the settled cursor extends the deliveries in order.
  lemma DeliveryAdded(log: seq<Packet>, since: int, pos: nat, ds: seq<Delivery>, at: nat)
    requires InOrder(ds) && FromLog(log, since, pos, ds) && pos <= at < |log| && log[at].wall >= since
    ensures InOrder(ds + [Delivery(at, log[at])]) && FromLog(log, since, at + 1, ds + [Delivery(at, log[at])])
  {
  }

  lemma BoundRaised(log: seq<Packet>, since: int, pos: nat, ds: seq<Delivery>, bound: nat)
    requires FromLog(log, since, pos, ds) && pos <= bound
    ensures FromLog(log, since, bound, ds)
  {
  }

  // The reader passes the packet at the settled cursor.
  lemma PassedOk(g: Global, r: Reader, at: nat, phase: Phase, ds: seq<Delivery>)
    requires BufferOk(g) && ReaderOk(g, r) && r.cursor.pos <= at < |g.log| && (phase.Outside? || phase.Ready?)
    requires forall p: nat :: r.cursor.pos <= p < at && g.buf.baseOffset <= p ==> g.log[p].wall < r.cursor.since
    requires ds == if g.log[at].wall < r.cursor.since then r.returned else r.returned + [Delivery(at, g.log[at])]
    ensures ReaderOk(g, Reader(Cursor(r.cursor.since, at + 1, true), r.done, phase, ds, r.sawEnd))
  {
    PassKeeps(g, r, at, ds);
    hide Has, InOrder, FromLog, Notified, BufferOk;
    if g.log[at].wall < r.cursor.since {
      BoundRaised(g.log, r.cursor.since, r.cursor.pos, r.returned, at + 1);
    } else {
      DeliveryAdded(g.log, r.cursor.since, r.cursor.pos, r.returned, at);
    }
  }

  // The reader has nothing to pass and stops at the end of its snapshot.
  lemma StoppedOk(g: Global, r: Reader, at: nat)
    requires BufferOk(g) && ReaderOk(g, r) && r.phase.Holding? && at == r.phase.snap.base + |r.phase.snap.pkts|
    requires r.cursor.pos <= at
    requires forall p: nat :: r.cursor.pos <= p < at && g.buf.baseOffset <= p ==> g.log[p].wall < r.cursor.since
    ensures var s := r.phase.snap;
            ReaderOk(g, Reader(Cursor(r.cursor.since, at, true), r.done,
                               if s.closed then Outside else Waiting(s.notify), r.returned, r.sawEnd || s.closed))
  {
    hide Has, InOrder, FromLog, Notified, BufferOk;
    BoundRaised(g.log, r.cursor.since, r.cursor.pos, r.returned, at);
  }

  // A processed snapshot moves the cursor over packets that were evicted or too old, and then at most one.
  lemma ProcessKeeps(g: Global, r: Reader)
    requires BufferOk(g) && ReaderOk(g, r) && r.phase.Holding?
    ensures ReaderOk(g, ProcessReader(r))
  {
    hide SettleSpec, ReaderOk, BufferOk;
    Settles(g, r);
    var s := r.phase.snap;
    var at := SettleSpec(r.cursor, s);
    var r' := ProcessReader(r);
    if at < s.base + |s.pkts| {
      PassedOk(g, r, at, r'.phase, r'.returned);
    } else {
      StoppedOk(g, r, at);
    }
  }

  lemma ReaderKeeps(g: Global, r: Reader, s: Step)
    requires BufferOk(g) && ChannelsOk(g) && ReaderOk(g, r) && ReaderNext(g, r, s).Some?
    ensures ReaderOk(g, ReaderNext(g, r, s).value)
  {
    if s.Process? {
      ProcessKeeps(g, r);
    } else if s.Snap? {
      assert g.log[g.buf.baseOffset..] == g.log[g.buf.baseOffset..|g.log|];
    }
  }

  lemma SharedStepLater(g: Global, s: Step)
    requires BufferOk(g) && ChannelsOk(g) && Next(g, s).Some?
    requires s.Write? || s.CloseChannel? || s.CloseFlag? || s.CloseSwap?
    ensures var g' := Next(g, s).value;
            BufferOk(g') && ChannelsOk(g') && Later(g, g') && g'.readers == g.readers
  {
    var g' := Next(g, s).value;
    if s.Write? {
      PushGrowsLog(g.buf, g.log, s.p, s.now, s.evictNow);
    }
  }

  lemma StepKeeps(g: Global, s: Step)
    requires Inv(g) && Next(g, s).Some?
    ensures Inv(Next(g, s).value)
  {
    hide ReaderOk, ReaderNext;
    var g' := Next(g, s).value;
    if s.Write? || s.CloseChannel? || s.CloseFlag? || s.CloseSwap? {
      SharedStepLater(g, s);
      AllLater(g, g');
    } else if s.OpenReader? {
      FreshReader(g, s.since);
      AllSame(g, g');
    } else {
      ReaderKeeps(g, g.readers[s.i], s);
      AllSame(g, g');
    }
  }

  lemma FreshReader(g: Global, since: int)
    ensures ReaderOk(g, Reader(Cursor(since, 0, false), false, Outside, [], false))
  {
  }

  lemma AllSame(g: Global, g': Global)
    requires g' == g.(readers := g'.readers)
    ensures forall r :: ReaderOk(g, r) ==> ReaderOk(g', r)
    ensures BufferOk(g) == BufferOk(g') && ChannelsOk(g) == ChannelsOk(g')
  {
  }

  lemma {:induction false} RunKeeps(maxAge: int, steps: seq<Step>)
    requires Run(maxAge, steps).Some?
    ensures Inv(Run(maxAge, steps).value)
  {
    if steps != [] {
      var before := steps[..|steps| - 1];
      RunKeeps(maxAge, before);
      StepKeeps(Run(maxAge, before).value, steps[|steps| - 1]);
    }
  }

  // ---- main results ----

  // The window is always the tail of the write log, and a reader returns log packets at strictly
  // increasing positions, none too old, leaving out only packets that are too old or already evicted.
  lemma LogRefinement(maxAge: int, steps: seq<Step>, i: nat)
    requires Run(maxAge, steps).Some? && i < |Run(maxAge, steps).value.readers|
    ensures var g := Run(maxAge, steps).value;
            var r := g.readers[i];
            && g.buf.baseOffset <= |g.log| && g.buf.pkts == g.log[g.buf.baseOffset..]
            && (forall j, k :: 0 <= j < k < |r.returned| ==> r.returned[j].pos < r.returned[k].pos)
            && (forall k :: 0 <= k < |r.returned| ==>
                  r.returned[k].pos < r.cursor.pos <= |g.log|
                  && r.returned[k].pkt == g.log[r.returned[k].pos] && r.returned[k].pkt.wall >= r.cursor.since)
            && r.cursor.pos <= |g.log|
            && (forall p: nat :: p < r.cursor.pos ==>
                  p < g.buf.baseOffset || g.log[p].wall < r.cursor.since || Has(r.returned, p))
  {
    RunKeeps(maxAge, steps);
    assert ReaderOk(Run(maxAge, steps).value, Run(maxAge, steps).value.readers[i]);
  }

  // The full sequence a reader has returned when nothing it still had to read was evicted.
  function Wanted(log: seq<Packet>, since: int, upTo: nat): seq<Delivery>
    requires upTo <= |log|
  {
    if upTo == 0 then []
    else
      var rest := Wanted(log, since, upTo - 1);
      if log[upTo - 1].wall < since then rest else rest + [Delivery(upTo - 1, log[upTo - 1])]
  }

  // While nothing has been evicted, a reader has returned exactly the packets it asked for, up to its cursor.
  lemma NothingMissed(maxAge: int, steps: seq<Step>, i: nat)
    requires Run(maxAge, steps).Some? && i < |Run(maxAge, steps).value.readers|
    requires Run(maxAge, steps).value.buf.baseOffset == 0
    ensures var g := Run(maxAge, steps).value;
            var r := g.readers[i];
            r.cursor.pos <= |g.log| && r.returned == Wanted(g.log, r.cursor.since, r.cursor.pos)
  {
    RunKeeps(maxAge, steps);
    var g := Run(maxAge, steps).value;
    var r := g.readers[i];
    assert ReaderOk(g, r);
    OrderedIsWanted(g.log, r.cursor.since, r.cursor.pos, r.returned);
  }

  lemma {:induction false} OrderedIsWanted(log: seq<Packet>, since: int, upTo: nat, ds: seq<Delivery>)
    requires upTo <= |log|
    requires InOrder(ds) && FromLog(log, since, upTo, ds)
    requires forall p: nat :: p < upTo && log[p].wall >= since ==> Has(ds, p)
    ensures ds == Wanted(log, since, upTo)
  {
    if upTo == 0 {
    } else if log[upTo - 1].wall < since {
      forall k | 0 <= k < |ds|
        ensures ds[k].pos < upTo - 1
      {
        assert ds[k].pkt == log[ds[k].pos];
      }
      OrderedIsWanted(log, since, upTo - 1, ds);
    } else {
      LastIsWanted(log, since, upTo, ds);
      OrderedIsWanted(log, since, upTo - 1, ds[..|ds| - 1]);
      assert ds == ds[..|ds| - 1] + [ds[|ds| - 1]];
    }
  }

  lemma LastIsWanted(log: seq<Packet>, since: int, upTo: nat, ds: seq<Delivery>)
    requires 0 < upTo <= |log| && log[upTo - 1].wall >= since
    requires InOrder(ds) && FromLog(log, since, upTo, ds)
    requires forall p: nat :: p < upTo && log[p].wall >= since ==> Has(ds, p)
    ensures ds != [] && ds[|ds| - 1] == Delivery(upTo - 1, log[upTo - 1])
    ensures var front := ds[..|ds| - 1];
            InOrder(front) && FromLog(log, since, upTo - 1, front)
            && forall p: nat :: p < upTo - 1 && log[p].wall >= since ==> Has(front, p)
  {
    assert Has(ds, upTo - 1);
    LargestIsLast(ds, upTo - 1);
    var front := ds[..|ds| - 1];
    hide Has;
    forall p: nat | p < upTo - 1 && log[p].wall >= since
      ensures Has(front, p)
    {
      HasFront(ds, p);
    }
  }

  lemma LargestIsLast(ds: seq<Delivery>, top: nat)
    requires InOrder(ds) && Has(ds, top)
    requires forall i :: 0 <= i < |ds| ==> ds[i].pos <= top
    ensures ds != [] && ds[|ds| - 1].pos == top
    ensures forall i :: 0 <= i < |ds| - 1 ==> ds[i].pos < top
  {
    var n := |ds| - 1;
    assert forall j :: 0 <= j < n ==> ds[j].pos < ds[n].pos;
  }

  lemma HasFront(ds: seq<Delivery>, p: nat)
    requires Has(ds, p) && ds[|ds| - 1].pos != p
    ensures Has(ds[..|ds| - 1], p)
  {
    var j :| 0 <= j < |ds| && ds[j].pos == p;
    assert ds[..|ds| - 1][j].pos == p;
  }

  // A waiting reader that something has happened to since its snapshot - the log has grown past it, or the
  // close section has run - waits on a channel that is closed or about to be closed.
  lemma NoLostWakeUp(maxAge: int, steps: seq<Step>, i: nat)
    requires Run(maxAge, steps).Some? && i < |Run(maxAge, steps).value.readers|
    requires Run(maxAge, steps).value.readers[i].phase.Waiting?
    ensures var g := Run(maxAge, steps).value;
            var r := g.readers[i];
            && r.cursor.pos <= |g.log|
            && (|g.log| > r.cursor.pos || g.closing.Swapped? ==>
                  r.phase.ch in g.pending || r.phase.ch in g.closedChannels)
            && g.pending !! g.closedChannels
  {
    RunKeeps(maxAge, steps);
    assert ReaderOk(Run(maxAge, steps).value, Run(maxAge, steps).value.readers[i]);
  }

  // Once every writer has finished its close and no Close call is half done, a reader that cannot be woken
  // has read the whole log and the buffer is open.
  lemma NoStuckReader(maxAge: int, steps: seq<Step>, i: nat)
    requires Run(maxAge, steps).Some? && i < |Run(maxAge, steps).value.readers|
    requires var g := Run(maxAge, steps).value;
             g.pending == {} && !g.closing.Flagged?
    ensures var g := Run(maxAge, steps).value;
            var r := g.readers[i];
            r.phase.Waiting? && Next(g, Wake(i)).None? ==> r.cursor.pos == |g.log| && g.closing.Open?
  {
    RunKeeps(maxAge, steps);
    assert ReaderOk(Run(maxAge, steps).value, Run(maxAge, steps).value.readers[i]);
  }

  // A reader told that the stream has ended has passed every packet written before the buffer was closed.
  lemma EndAfterWholeLog(maxAge: int, steps: seq<Step>, i: nat)
    requires Run(maxAge, steps).Some? && i < |Run(maxAge, steps).value.readers|
    requires Run(maxAge, steps).value.readers[i].sawEnd
    ensures var g := Run(maxAge, steps).value;
            !g.closing.Open? && g.closing.len <= g.readers[i].cursor.pos
  {
    RunKeeps(maxAge, steps);
    assert ReaderOk(Run(maxAge, steps).value, Run(maxAge, steps).value.readers[i]);
  }

  // No channel is ever closed twice: a close only happens to a channel that is still open.
  lemma NoDoubleClose(maxAge: int, steps: seq<Step>, ch: nat)
    requires Run(maxAge, steps).Some?
    ensures var g := Run(maxAge, steps).value;
            Next(g, CloseChannel(ch)).Some? ==> ch !in g.closedChannels && ch != g.buf.notify
  {
    RunKeeps(maxAge, steps);
  }
}
