/**
 * Every interleaving of a relay's delivery loop with consumers that attach, drain their queues, fail and are
 * removed. Each step is one lock section, one queue operation or one packet delivered to one consumer.
 */
module RelayRuns {
  import opened Wrappers
  import opened PacketBuffer
  import opened Relay

  // What became of the source packet at position `pos`; `single` marks a blocking delivery.
  datatype Event = Event(pos: nat, verdict: Verdict, single: bool)

  // AddConsumer: before the cached packets are read, while they are injected, marked but not yet in the
  // consumers map, in it, and out of it for good.
  datatype Stage = Fresh | Injecting | Marked | Live | Gone

  // `gop` are the cached packets the consumer was given, the first of them at source position `first`;
  // `injected` and `live` are what became of those and of the packets offered by the loop; `offered` the
  // positions at which it was found active.
  datatype Member = Member(stage: Stage, inactive: bool, gate: Gate, first: nat, gop: seq<Packet>,
                           injected: seq<Event>, live: seq<Event>, offered: seq<nat>,
                           queue: seq<nat>, taken: seq<nat>)
  {
    // The position after the cached packets: the length of the log when they were read.
    function Joined(): nat {
      first + |gop|
    }
  }

  // Where the loop is with the last packet of the log. `todo` are the active consumers still to be served.
  datatype Loop = Idle | Appended | Delivering(todo: seq<nat>, single: bool)

  datatype Global = Global(log: seq<Packet>, buf: Shared, loop: Loop, capacity: nat, members: seq<Member>, dropped: nat)

  datatype Step =
    | Append(p: Packet, now: int, evictNow: int)
    | FindActive(order: seq<nat>)
    | Serve(choice: Choice)
    | EndRound
    | Attach
    | ReadGop(i: nat)
    | InjectOne(i: nat, choice: Choice)
    | Mark(i: nat)
    | Publish(i: nat)
    | Remove(i: nat)
    | Fail(i: nat)
    | Take(i: nat)

  function Init(maxAge: int, capacity: nat): Global {
    Global([], Shared([], 0, maxAge, 0, 1), Idle, capacity, [], 0)
  }

  function NewMember(): Member {
    Member(Fresh, false, Gate(None, false, 0), 0, [], [], [], [], [], [])
  }

  predicate IsActive(m: Member) {
    m.stage.Live? && !m.inactive
  }

  // `order` lists consumers that are active when the scan begins, each once and in any order. The scan reads one
  // flag after the other, so a consumer that fails before its flag is read is left out.
  ghost predicate ListsActive(members: seq<Member>, order: seq<nat>) {
    && (forall a, b :: 0 <= a < b < |order| ==> order[a] != order[b])
    && (forall a :: 0 <= a < |order| ==> order[a] < |members| && IsActive(members[order[a]]))
  }

  function Offered(members: seq<Member>, order: seq<nat>, pos: nat): (ms: seq<Member>)
    ensures |ms| == |members|
  {
    seq(|members|, i requires 0 <= i < |members| =>
      if i in order then members[i].(offered := members[i].offered + [pos]) else members[i])
  }

  // A queue takes a packet only when it has room.
  predicate CanSend(m: Member, capacity: nat, single: bool, c: Choice) {
    && Possible(single, c)
    && (c.Room? ==> |m.queue| < capacity)
    && (c.Full? ==> |m.queue| >= capacity)
  }

  function ServeMember(m: Member, pos: nat, p: Packet, single: bool, c: Choice): Member
    requires Possible(single, c)
  {
    var (g, v) := OfferSpec(m.gate, p, single, c);
    m.(gate := g, live := m.live + [Event(pos, v, single)], queue := if v.Sent? then m.queue + [pos] else m.queue)
  }

  function InjectMember(m: Member, c: Choice): Member {
    var pos := m.first + |m.injected|;
    m.(injected := m.injected + [Event(pos, if c.Room? then Sent else Cancelled, true)],
       queue := if c.Room? then m.queue + [pos] else m.queue)
  }

  // A step of one consumer's own; None when it cannot happen.
  ghost function MemberNext(g: Global, m: Member, s: Step): Option<Member> {
    match s
    case ReadGop(_) =>
      var gop := LastGopSpec(g.buf.pkts);
      if m.stage.Fresh? then
        Some(m.(stage := Injecting, gop := gop, first := g.buf.baseOffset + |g.buf.pkts| - |gop|))
      else None
    case InjectOne(_, c) =>
      if m.stage.Injecting? && |m.injected| < |m.gop| && CanSend(m, g.capacity, true, c) then
        Some(InjectMember(m, c))
      else None
    case Mark(_) =>
      if !m.stage.Injecting? || |m.injected| < |m.gop| then None
      else if m.gop == [] then Some(m.(stage := Marked))
      else Some(m.(stage := Marked, gate := m.gate.(skipBefore := Some(m.gop[|m.gop| - 1].dts))))
    case Publish(_) => if m.stage.Marked? then Some(m.(stage := Live)) else None
    case Remove(_) => if m.stage.Live? || m.stage.Marked? then Some(m.(stage := Gone)) else None
    case Fail(_) => Some(m.(inactive := true))
    case Take(_) =>
      if m.queue == [] then None else Some(m.(queue := m.queue[1..], taken := m.taken + [m.queue[0]]))
    case _ => None
  }

  ghost function Next(g: Global, s: Step): Option<Global> {
    match s
    case Append(p, now, evictNow) =>
      if g.loop.Idle? then
        Some(g.(log := g.log + [Stamped(p, now)], buf := PushSpec(g.buf, p, now, evictNow), loop := Appended))
      else None
    case FindActive(order) =>
      if g.loop.Appended? && |g.log| > 0 && ListsActive(g.members, order) then
        Some(g.(loop := Delivering(order, |order| == 1), members := Offered(g.members, order, |g.log| - 1)))
      else None
    case Serve(c) =>
      if g.loop.Delivering? && g.loop.todo != [] && |g.log| > 0 && g.loop.todo[0] < |g.members|
         && CanSend(g.members[g.loop.todo[0]], g.capacity, g.loop.single, c)
      then
        var i := g.loop.todo[0];
        var m := ServeMember(g.members[i], |g.log| - 1, g.log[|g.log| - 1], g.loop.single, c);
        Some(g.(loop := Delivering(g.loop.todo[1..], g.loop.single), members := g.members[i := m],
                dropped := g.dropped + if m.live[|m.live| - 1].verdict.Dropped? then 1 else 0))
      else None
    case EndRound => if g.loop.Delivering? && g.loop.todo == [] then Some(g.(loop := Idle)) else None
    case Attach => Some(g.(members := g.members + [NewMember()]))
    case _ =>
      if s.i >= |g.members| then None
      else
        var m := MemberNext(g, g.members[s.i], s);
        if m.None? then None else Some(g.(members := g.members[s.i := m.value]))
  }

  ghost function Run(maxAge: int, capacity: nat, steps: seq<Step>): Option<Global> {
    if steps == [] then Some(Init(maxAge, capacity))
    else
      var before := Run(maxAge, capacity, steps[..|steps| - 1]);
      if before.None? then None else Next(before.value, steps[|steps| - 1])
  }

  // ---- invariants ----

  function Positions(es: seq<Event>): (ps: seq<nat>)
    ensures |ps| == |es|
  {
    seq(|es|, i requires 0 <= i < |es| => es[i].pos)
  }

  // The positions that reached the queue.
  function Enqueued(es: seq<Event>): seq<nat> {
    if es == [] then []
    else
      var n := |es| - 1;
      if es[n].verdict.Sent? then Enqueued(es[..n]) + [es[n].pos] else Enqueued(es[..n])
  }

  function Count(es: seq<Event>, v: Verdict): nat {
    if es == [] then 0
    else Count(es[..|es| - 1], v) + if es[|es| - 1].verdict == v then 1 else 0
  }

  function TotalDropped(ms: seq<Member>): nat {
    if ms == [] then 0 else TotalDropped(ms[..|ms| - 1]) + Count(ms[|ms| - 1].live, Dropped)
  }

  // Whether the last leaky attempt that was neither skipped nor blocking was a drop.
  function Resyncing(es: seq<Event>): bool {
    if es == [] then false
    else
      var e := es[|es| - 1];
      match e.verdict
      case Dropped => true
      case Sent => e.single && Resyncing(es[..|es| - 1])
      case Cancelled => e.single && Resyncing(es[..|es| - 1])
      case _ => Resyncing(es[..|es| - 1])
  }

  ghost predicate Increasing(ps: seq<nat>) {
    forall a, b :: 0 <= a < b < |ps| ==> ps[a] < ps[b]
  }

  predicate Awaiting(loop: Loop, i: nat) {
    loop.Delivering? && i in loop.todo
  }

  // The cached packets start at a video keyframe and were the end of the log when they were read.
  ghost predicate JoinOk(log: seq<Packet>, m: Member) {
    && m.Joined() <= |log|
    && m.gop == log[m.first..m.Joined()]
    && (m.gop != [] ==> IsVideoKey(m.gop[0]))
    && |m.injected| <= |m.gop|
    && (forall k :: 0 <= k < |m.injected| ==> m.injected[k].pos == m.first + k)
    && (m.stage.Fresh? ==> m.gop == [])
  }

  // A member is offered positions in source order, none before the packet the loop held when it joined, and
  // every offer is answered by exactly one event, except the one the loop has still to serve.
  ghost predicate OffersOk(log: seq<Packet>, loop: Loop, i: nat, m: Member) {
    && Increasing(m.offered)
    && (forall k :: 0 <= k < |m.offered| ==>
          m.Joined() <= m.offered[k] + 1 && m.offered[k] + (if loop.Appended? then 1 else 0) < |log|)
    && (Awaiting(loop, i) ==> |log| > 0)
    && m.offered == Positions(m.live) + (if Awaiting(loop, i) then [|log| - 1] else [])
    && (!m.stage.Live? && !m.stage.Gone? ==> m.offered == [])
  }

  ghost predicate QueueOk(capacity: nat, m: Member) {
    && Enqueued(m.injected) + Enqueued(m.live) == m.taken + m.queue
    && |m.queue| <= capacity
  }

  // The flags and counters say what the history says.
  ghost predicate GateOk(log: seq<Packet>, m: Member) {
    && m.gate.needsKeyframe == Resyncing(m.live)
    && m.gate.skips == Count(m.live, KeySkip)
    && (m.gate.skipBefore.Some? ==> forall k :: 0 <= k < |m.live| ==> m.live[k].verdict == Overlap)
  }

  // A packet sent by a leaky delivery while resyncing is a keyframe.
  ghost predicate ResyncOk(log: seq<Packet>, m: Member) {
    forall k :: 0 <= k < |m.live| && m.live[k].pos < |log| ==> ResyncsAt(log, m.live, k)
  }

  ghost predicate ResyncsAt(log: seq<Packet>, live: seq<Event>, k: nat)
    requires k < |live| && live[k].pos < |log|
  {
    live[k].verdict.Sent? && !live[k].single && Resyncing(live[..k]) ==> log[live[k].pos].key
  }

  // Overlap skips come before everything else.
  ghost predicate OverlapsFirst(live: seq<Event>) {
    forall a, b :: 0 <= a < b < |live| && live[b].verdict.Overlap? ==> live[a].verdict.Overlap?
  }

  ghost predicate MemberOk(g: Global, i: nat, m: Member) {
    && JoinOk(g.log, m)
    && OffersOk(g.log, g.loop, i, m)
    && QueueOk(g.capacity, m)
    && GateOk(g.log, m)
    && ResyncOk(g.log, m)
    && OverlapsFirst(m.live)
  }

  ghost predicate LoopOk(g: Global) {
    && g.buf.baseOffset <= |g.log|
    && g.buf.pkts == g.log[g.buf.baseOffset..]
    && (!g.loop.Idle? ==> |g.log| > 0)
    && (g.loop.Delivering? ==>
          && (forall a, b :: 0 <= a < b < |g.loop.todo| ==> g.loop.todo[a] != g.loop.todo[b])
          && (forall a :: 0 <= a < |g.loop.todo| ==> g.loop.todo[a] < |g.members|))
  }

  ghost predicate Inv(g: Global) {
    && LoopOk(g)
    && g.dropped == TotalDropped(g.members)
    && forall i: nat :: i < |g.members| ==> MemberOk(g, i, g.members[i])
  }

  // ---- every step keeps them ----

  lemma LiveBelow(log: seq<Packet>, loop: Loop, i: nat, m: Member)
    requires OffersOk(log, loop, i, m)
    ensures forall k :: 0 <= k < |m.live| ==> m.live[k].pos == m.offered[k] && m.live[k].pos < |log|
  {
    forall k | 0 <= k < |m.live|
      ensures m.live[k].pos == m.offered[k] && m.live[k].pos < |log|
    {
      assert m.offered[k] == Positions(m.live)[k];
    }
  }

  lemma AppendMember(g: Global, g': Global, i: nat, m: Member)
    requires MemberOk(g, i, m) && g.loop.Idle? && g'.loop.Appended? && g'.capacity == g.capacity
    requires |g'.log| == |g.log| + 1 && g'.log[..|g.log|] == g.log
    ensures MemberOk(g', i, m)
  {
    LiveBelow(g.log, g.loop, i, m);
    assert forall k :: 0 <= k < |g.log| ==> g'.log[k] == g.log[k];
    assert m.gop == g'.log[m.first..m.Joined()];
    forall k | 0 <= k < |m.live|
      ensures ResyncsAt(g'.log, m.live, k)
    {
      assert ResyncsAt(g.log, m.live, k);
    }
  }

  lemma OfferMember(g: Global, g': Global, i: nat, m: Member)
    requires MemberOk(g, i, m) && g.loop.Appended? && g'.loop.Delivering?
    requires g'.log == g.log && g'.capacity == g.capacity && |g.log| > 0
    requires i in g'.loop.todo ==> IsActive(m)
    ensures MemberOk(g', i, if i in g'.loop.todo then m.(offered := m.offered + [|g.log| - 1]) else m)
  {
  }

  lemma SentSnoc(es: seq<Event>, e: Event)
    ensures Enqueued(es + [e]) == if e.verdict.Sent? then Enqueued(es) + [e.pos] else Enqueued(es)
    ensures forall v :: Count(es + [e], v) == Count(es, v) + if e.verdict == v then 1 else 0
    ensures Resyncing(es + [e]) ==
            (e.verdict.Dropped? || (Resyncing(es) && ((e.verdict.Sent? || e.verdict.Cancelled?) ==> e.single)))
  {
    assert (es + [e])[..|es|] == es;
  }

  // What serving does to the flags, read off the history.
  lemma ServeGate(log: seq<Packet>, m: Member, pos: nat, single: bool, c: Choice)
    requires GateOk(log, m) && ResyncOk(log, m) && OverlapsFirst(m.live) && pos < |log| && Possible(single, c)
    requires forall k :: 0 <= k < |m.live| ==> m.live[k].pos < |log|
    ensures var m' := ServeMember(m, pos, log[pos], single, c);
            GateOk(log, m') && ResyncOk(log, m') && OverlapsFirst(m'.live)
  {
    hide Enqueued, Count, Resyncing;
    var m' := ServeMember(m, pos, log[pos], single, c);
    var e := m'.live[|m.live|];
    SentSnoc(m.live, e);
    forall k | 0 <= k < |m'.live|
      ensures ResyncsAt(log, m'.live, k)
    {
      if k < |m.live| {
        assert ResyncsAt(log, m.live, k);
        assert m'.live[..k] == m.live[..k];
      } else {
        assert m'.live[..k] == m.live;
      }
    }
  }

  lemma ServeQueue(capacity: nat, m: Member, pos: nat, p: Packet, single: bool, c: Choice)
    requires QueueOk(capacity, m) && CanSend(m, capacity, single, c)
    ensures QueueOk(capacity, ServeMember(m, pos, p, single, c))
  {
    var m' := ServeMember(m, pos, p, single, c);
    SentSnoc(m.live, m'.live[|m.live|]);
    EnqueueOne(m, pos);
  }

  // A position put at the end of the queue comes after everything received.
  lemma EnqueueOne(m: Member, pos: nat)
    requires Enqueued(m.injected) + Enqueued(m.live) == m.taken + m.queue
    ensures Enqueued(m.injected) + (Enqueued(m.live) + [pos]) == m.taken + (m.queue + [pos])
    ensures m.live == [] ==> Enqueued(m.injected) + [pos] + Enqueued(m.live) == m.taken + (m.queue + [pos])
  {
    assert Enqueued(m.injected) + (Enqueued(m.live) + [pos]) == Enqueued(m.injected) + Enqueued(m.live) + [pos];
  }

  lemma ServeOffers(log: seq<Packet>, loop: Loop, loop': Loop, i: nat, m: Member, m': Member)
    requires OffersOk(log, loop, i, m) && loop.Delivering? && loop'.Delivering?
    requires Awaiting(loop, i) && !Awaiting(loop', i)
    requires m'.offered == m.offered && m'.stage == m.stage && m'.Joined() == m.Joined()
    requires |m'.live| == |m.live| + 1 && m'.live[..|m.live|] == m.live && m'.live[|m.live|].pos == |log| - 1
    ensures OffersOk(log, loop', i, m')
  {
    assert Positions(m'.live) == Positions(m.live) + [|log| - 1] by {
      forall k | 0 <= k < |m.live|
        ensures m'.live[k] == m.live[k]
      {
        assert m'.live[k] == m'.live[..|m.live|][k];
      }
    }
  }

  lemma ServeKeeps(g: Global, g': Global, i: nat, c: Choice)
    requires g.loop.Delivering? && g'.loop.Delivering? && i < |g.members|
    requires Awaiting(g.loop, i) && !Awaiting(g'.loop, i)
    requires MemberOk(g, i, g.members[i]) && g'.log == g.log && g'.capacity == g.capacity
    requires |g.log| > 0 && CanSend(g.members[i], g.capacity, g.loop.single, c)
    ensures MemberOk(g', i, ServeMember(g.members[i], |g.log| - 1, g.log[|g.log| - 1], g.loop.single, c))
  {
    hide GateOk, ResyncOk, OverlapsFirst, QueueOk;
    var m := g.members[i];
    var m' := ServeMember(m, |g.log| - 1, g.log[|g.log| - 1], g.loop.single, c);
    LiveBelow(g.log, g.loop, i, m);
    ServeGate(g.log, m, |g.log| - 1, g.loop.single, c);
    ServeQueue(g.capacity, m, |g.log| - 1, g.log[|g.log| - 1], g.loop.single, c);
    ServeOffers(g.log, g.loop, g'.loop, i, m, m');
  }

  // The state around a member changes without anything it depends on.
  lemma SameAround(g: Global, g': Global, i: nat, m: Member)
    requires MemberOk(g, i, m) && g'.log == g.log && g'.capacity == g.capacity
    requires Awaiting(g.loop, i) == Awaiting(g'.loop, i) && (g'.loop.Appended? ==> g.loop.Appended?)
    ensures MemberOk(g', i, m)
  {
    hide JoinOk, GateOk, QueueOk, ResyncOk, OverlapsFirst;
  }

  lemma GopKeeps(g: Global, i: nat, m: Member, s: Step)
    requires LoopOk(g) && MemberOk(g, i, m) && s.ReadGop? && MemberNext(g, m, s).Some?
    ensures MemberOk(g, i, MemberNext(g, m, s).value)
  {
    hide GateOk, QueueOk, ResyncOk, OverlapsFirst, LastGopSpec, LoopOk;
    var m' := MemberNext(g, m, s).value;
    SameHistory(g, i, m, m');
    GopIsTail(g, m'.gop);
    JoinNow(g.log, g.loop, i, m, m'.gop);
  }

  lemma JoinNow(log: seq<Packet>, loop: Loop, i: nat, m: Member, gop: seq<Packet>)
    requires JoinOk(log, m) && OffersOk(log, loop, i, m) && m.stage.Fresh?
    requires |gop| <= |log| && gop == log[|log| - |gop|..|log|] && (gop != [] ==> IsVideoKey(gop[0]))
    ensures var m' := m.(stage := Injecting, gop := gop, first := |log| - |gop|);
            JoinOk(log, m') && OffersOk(log, loop, i, m')
  {
  }

  lemma GopIsTail(g: Global, gop: seq<Packet>)
    requires LoopOk(g) && gop == LastGopSpec(g.buf.pkts)
    ensures |gop| <= |g.log| && g.buf.baseOffset + |g.buf.pkts| == |g.log|
    ensures gop == g.log[|g.log| - |gop|..|g.log|]
    ensures gop != [] ==> IsVideoKey(gop[0])
  {
    hide LastGopSpec;
    LastGopShape(g.buf.pkts);
    TailOfTail(g.log, g.buf.baseOffset, |gop|);
  }

  lemma TailOfTail(log: seq<Packet>, base: nat, n: nat)
    requires base <= |log| && n <= |log| - base
    ensures var tail := log[base..];
            tail[|tail| - n..] == log[|log| - n..|log|]
  {
  }

  // What the flags, the queue and the history say of each other when none of them changes.
  lemma SameHistory(g: Global, i: nat, m: Member, m': Member)
    requires MemberOk(g, i, m) && m'.live == m.live && m'.queue == m.queue && m'.taken == m.taken
    requires m'.injected == m.injected && m'.gate == m.gate
    ensures QueueOk(g.capacity, m') && GateOk(g.log, m') && ResyncOk(g.log, m') && OverlapsFirst(m'.live)
  {
  }

  // Injection only touches the injected packets and the queue.
  lemma InjectLeaves(g: Global, i: nat, m: Member, m': Member)
    requires MemberOk(g, i, m) && m' == m.(injected := m'.injected, queue := m'.queue)
    ensures OffersOk(g.log, g.loop, i, m') && GateOk(g.log, m') && ResyncOk(g.log, m') && OverlapsFirst(m'.live)
  {
    hide JoinOk, QueueOk, Increasing, Positions, Resyncing, Count;
  }

  lemma InjectJoin(log: seq<Packet>, m: Member, c: Choice)
    requires JoinOk(log, m) && |m.injected| < |m.gop| && m.stage.Injecting?
    ensures JoinOk(log, InjectMember(m, c))
  {
  }

  lemma InjectQueue(capacity: nat, m: Member, c: Choice)
    requires QueueOk(capacity, m) && m.live == [] && CanSend(m, capacity, true, c)
    ensures QueueOk(capacity, InjectMember(m, c))
  {
    hide Enqueued, Count, Resyncing;
    SentSnoc(m.injected, InjectMember(m, c).injected[|m.injected|]);
    EnqueueOne(m, m.first + |m.injected|);
  }

  lemma InjectKeeps(g: Global, i: nat, m: Member, s: Step)
    requires MemberOk(g, i, m) && s.InjectOne? && MemberNext(g, m, s).Some?
    ensures MemberOk(g, i, MemberNext(g, m, s).value)
  {
    NotOffered(g.log, g.loop, i, m);
    hide JoinOk, OffersOk, QueueOk, GateOk, ResyncOk, OverlapsFirst, CanSend;
    var m' := MemberNext(g, m, s).value;
    InjectLeaves(g, i, m, m');
    InjectJoin(g.log, m, s.choice);
    InjectQueue(g.capacity, m, s.choice);
  }

  lemma NotOffered(log: seq<Packet>, loop: Loop, i: nat, m: Member)
    requires OffersOk(log, loop, i, m)
    ensures !m.stage.Live? && !m.stage.Gone? ==> m.live == []
  {
  }

  lemma MarkKeeps(g: Global, i: nat, m: Member, s: Step)
    requires MemberOk(g, i, m) && s.Mark? && MemberNext(g, m, s).Some?
    ensures MemberOk(g, i, MemberNext(g, m, s).value)
  {
    hide Enqueued;
    NotOffered(g.log, g.loop, i, m);
  }

  lemma TakeKeeps(g: Global, i: nat, m: Member, s: Step)
    requires MemberOk(g, i, m) && s.Take? && MemberNext(g, m, s).Some?
    ensures MemberOk(g, i, MemberNext(g, m, s).value)
  {
    hide Enqueued, GateOk, ResyncOk, OverlapsFirst, JoinOk, OffersOk;
    var m' := MemberNext(g, m, s).value;
    assert m'.taken + m'.queue == m.taken + m.queue;
    assert JoinOk(g.log, m') && OffersOk(g.log, g.loop, i, m') && GateOk(g.log, m') && ResyncOk(g.log, m') by {
      TakeLeaves(g, i, m, m');
    }
  }

  lemma TakeLeaves(g: Global, i: nat, m: Member, m': Member)
    requires MemberOk(g, i, m) && m' == m.(queue := m'.queue, taken := m'.taken)
    ensures JoinOk(g.log, m') && OffersOk(g.log, g.loop, i, m') && GateOk(g.log, m') && ResyncOk(g.log, m')
  {
  }

  lemma MemberKeeps(g: Global, i: nat, m: Member, s: Step)
    requires LoopOk(g) && MemberOk(g, i, m) && MemberNext(g, m, s).Some?
    ensures MemberOk(g, i, MemberNext(g, m, s).value)
  {
    if s.ReadGop? {
      hide MemberNext, MemberOk;
      GopKeeps(g, i, m, s);
    } else if s.InjectOne? {
      hide MemberNext, MemberOk;
      InjectKeeps(g, i, m, s);
    } else if s.Mark? {
      hide MemberNext, MemberOk;
      MarkKeeps(g, i, m, s);
    } else if s.Take? {
      hide MemberNext, MemberOk;
      TakeKeeps(g, i, m, s);
    } else {
      SameHistory(g, i, m, MemberNext(g, m, s).value);
    }
  }

  lemma {:induction false} DroppedAt(ms: seq<Member>, i: nat, m: Member)
    requires i < |ms|
    ensures TotalDropped(ms[i := m]) == TotalDropped(ms) - Count(ms[i].live, Dropped) + Count(m.live, Dropped)
  {
    var n := |ms| - 1;
    if i < n {
      assert ms[i := m][..n] == ms[..n][i := m];
      DroppedAt(ms[..n], i, m);
    } else {
      assert ms[i := m][..n] == ms[..n];
    }
  }

  lemma {:induction false} DroppedSame(ms: seq<Member>, ms': seq<Member>)
    requires |ms'| == |ms| && forall i :: 0 <= i < |ms| ==> ms'[i].live == ms[i].live
    ensures TotalDropped(ms') == TotalDropped(ms)
  {
    if ms != [] {
      DroppedSame(ms[..|ms| - 1], ms'[..|ms| - 1]);
    }
  }

  lemma AppendStep(g: Global, s: Step)
    requires Inv(g) && s.Append? && Next(g, s).Some?
    ensures Inv(Next(g, s).value)
  {
    hide MemberOk;
    var g' := Next(g, s).value;
    var log' := g.log + [Stamped(s.p, s.now)];
    var all := g.buf.pkts + [Stamped(s.p, s.now)];
    assert all == log'[g.buf.baseOffset..];
    forall i: nat | i < |g'.members|
      ensures MemberOk(g', i, g'.members[i])
    {
      AppendMember(g, g', i, g.members[i]);
    }
  }

  lemma FindStep(g: Global, s: Step)
    requires Inv(g) && s.FindActive? && Next(g, s).Some?
    ensures Inv(Next(g, s).value)
  {
    hide MemberOk;
    var g' := Next(g, s).value;
    forall i: nat | i < |g'.members|
      ensures MemberOk(g', i, g'.members[i])
    {
      OfferMember(g, g', i, g.members[i]);
    }
    DroppedSame(g.members, g'.members);
  }

  lemma ServeStep(g: Global, s: Step)
    requires Inv(g) && s.Serve? && Next(g, s).Some?
    ensures Inv(Next(g, s).value)
  {
    hide MemberOk, CanSend, OfferSpec;
    var g' := Next(g, s).value;
    var i := g.loop.todo[0];
    assert i !in g'.loop.todo;
    ServeKeeps(g, g', i, s.choice);
    forall k: nat | k < |g'.members| && k != i
      ensures MemberOk(g', k, g'.members[k])
    {
      assert k in g.loop.todo <==> k in g'.loop.todo;
      SameAround(g, g', k, g.members[k]);
    }
    var m := g.members[i];
    SentSnoc(m.live, g'.members[i].live[|m.live|]);
    DroppedAt(g.members, i, g'.members[i]);
  }

  lemma OtherStep(g: Global, s: Step)
    requires Inv(g) && Next(g, s).Some? && !s.Append? && !s.FindActive? && !s.Serve? && !s.EndRound? && !s.Attach?
    ensures Inv(Next(g, s).value)
  {
    hide MemberOk, MemberNext;
    var g' := Next(g, s).value;
    var i := s.i;
    MemberKeeps(g, i, g.members[i], s);
    SameAround(g, g', i, g'.members[i]);
    forall k: nat | k < |g'.members| && k != i
      ensures MemberOk(g', k, g'.members[k])
    {
      SameAround(g, g', k, g.members[k]);
    }
    LiveKept(g, g.members[i], s);
    DroppedAt(g.members, i, g'.members[i]);
  }

  lemma LiveKept(g: Global, m: Member, s: Step)
    requires MemberNext(g, m, s).Some?
    ensures MemberNext(g, m, s).value.live == m.live
  {
  }

  lemma NewOk(g: Global, i: nat)
    requires !Awaiting(g.loop, i)
    ensures MemberOk(g, i, NewMember())
  {
  }

  lemma AttachStep(g: Global)
    requires Inv(g)
    ensures Inv(Next(g, Attach).value)
  {
    hide MemberOk;
    var g' := Next(g, Attach).value;
    NewOk(g', |g.members|);
    forall k: nat | k < |g'.members|
      ensures MemberOk(g', k, g'.members[k])
    {
      if k < |g.members| {
        SameAround(g, g', k, g.members[k]);
      }
    }
    assert g'.members[..|g.members|] == g.members;
  }

  lemma StepKeeps(g: Global, s: Step)
    requires Inv(g) && Next(g, s).Some?
    ensures Inv(Next(g, s).value)
  {
    hide MemberOk, LoopOk, MemberNext, ListsActive, CanSend;
    match s
    case Append(_, _, _) => AppendStep(g, s);
    case FindActive(_) => FindStep(g, s);
    case Serve(_) => ServeStep(g, s);
    case Attach => AttachStep(g);
    case EndRound => EndStep(g);
    case _ => OtherStep(g, s);
  }

  lemma EndStep(g: Global)
    requires Inv(g) && Next(g, EndRound).Some?
    ensures Inv(Next(g, EndRound).value)
  {
    hide MemberOk;
    var g' := Next(g, EndRound).value;
    forall k: nat | k < |g'.members|
      ensures MemberOk(g', k, g'.members[k])
    {
      SameAround(g, g', k, g.members[k]);
    }
  }

  lemma {:induction false} RunKeeps(maxAge: int, capacity: nat, steps: seq<Step>)
    requires Run(maxAge, capacity, steps).Some?
    ensures Inv(Run(maxAge, capacity, steps).value)
  {
    hide MemberOk, LoopOk, Next;
    if steps == [] {
      InitOk(maxAge, capacity);
    } else {
      var before := steps[..|steps| - 1];
      RunKeeps(maxAge, capacity, before);
      StepKeeps(Run(maxAge, capacity, before).value, steps[|steps| - 1]);
    }
  }

  lemma InitOk(maxAge: int, capacity: nat)
    ensures Inv(Init(maxAge, capacity))
  {
  }

  // ---- main results ----

  ghost predicate Covers(es: seq<Event>, pos: nat) {
    exists j :: 0 <= j < |es| && es[j].pos == pos
  }

  lemma {:induction false} EnqueuedFrom(es: seq<Event>)
    ensures forall k :: 0 <= k < |Enqueued(es)| ==> Covers(es, Enqueued(es)[k])
  {
    if es != [] {
      var front := es[..|es| - 1];
      EnqueuedFrom(front);
      forall k | 0 <= k < |Enqueued(es)|
        ensures Covers(es, Enqueued(es)[k])
      {
        if k < |Enqueued(front)| {
          assert Covers(front, Enqueued(front)[k]);
          var j :| 0 <= j < |front| && front[j].pos == Enqueued(front)[k];
          assert es[j].pos == Enqueued(es)[k];
        } else {
          assert es[|es| - 1].pos == Enqueued(es)[k];
        }
      }
    }
  }

  lemma {:induction false} EnqueuedIncreasing(es: seq<Event>)
    requires Increasing(Positions(es))
    ensures Increasing(Enqueued(es))
  {
    if es != [] {
      var n := |es| - 1;
      assert Positions(es[..n]) == Positions(es)[..n];
      EnqueuedIncreasing(es[..n]);
      EnqueuedFrom(es[..n]);
      forall k | 0 <= k < |Enqueued(es[..n])|
        ensures Enqueued(es[..n])[k] < es[n].pos
      {
        assert Covers(es[..n], Enqueued(es[..n])[k]);
        var j :| 0 <= j < n && es[..n][j].pos == Enqueued(es[..n])[k];
        assert Positions(es)[j] < Positions(es)[n];
      }
    }
  }

  // What a consumer's queue has been given, injection first.
  function Received(m: Member): seq<nat> {
    Enqueued(m.injected) + Enqueued(m.live)
  }

  // The two halves of what a consumer receives are each increasing, and the second starts no earlier than the
  // last cached packet.
  lemma Halves(log: seq<Packet>, loop: Loop, i: nat, m: Member)
    requires JoinOk(log, m) && OffersOk(log, loop, i, m)
    ensures Increasing(Enqueued(m.injected)) && Increasing(Enqueued(m.live))
    ensures forall k :: 0 <= k < |Enqueued(m.injected)| ==> Enqueued(m.injected)[k] < m.Joined()
    ensures forall k :: 0 <= k < |Enqueued(m.live)| ==> m.Joined() <= Enqueued(m.live)[k] + 1
  {
    LiveBelow(log, loop, i, m);
    EnqueuedFrom(m.injected);
    EnqueuedFrom(m.live);
    EnqueuedIncreasing(m.injected);
    forall a, b | 0 <= a < b < |m.live|
      ensures Positions(m.live)[a] < Positions(m.live)[b]
    {
      assert m.offered[a] < m.offered[b];
    }
    EnqueuedIncreasing(m.live);
  }

  // Source positions reach a consumer's queue in source order. The only position that can come twice is the
  // last cached packet, once by injection and once live, and then one right after the other.
  lemma LateJoinerOrder(maxAge: int, capacity: nat, steps: seq<Step>, i: nat)
    requires Run(maxAge, capacity, steps).Some? && i < |Run(maxAge, capacity, steps).value.members|
    ensures var m := Run(maxAge, capacity, steps).value.members[i];
            var ps := Received(m);
            forall a, b :: 0 <= a < b < |ps| ==>
              && ps[a] <= ps[b]
              && (ps[a] == ps[b] ==> b == a + 1 && b == |Enqueued(m.injected)| && ps[a] + 1 == m.Joined())
  {
    RunKeeps(maxAge, capacity, steps);
    var g := Run(maxAge, capacity, steps).value;
    var m := g.members[i];
    assert MemberOk(g, i, m);
    Halves(g.log, g.loop, i, m);
    MergedOrder(Enqueued(m.injected), Enqueued(m.live), m.Joined());
  }

  lemma MergedOrder(xs: seq<nat>, ys: seq<nat>, joined: nat)
    requires Increasing(xs) && Increasing(ys)
    requires forall k :: 0 <= k < |xs| ==> xs[k] < joined
    requires forall k :: 0 <= k < |ys| ==> joined <= ys[k] + 1
    ensures var ps := xs + ys;
            forall a, b :: 0 <= a < b < |ps| ==>
              && ps[a] <= ps[b]
              && (ps[a] == ps[b] ==> b == a + 1 && b == |xs| && ps[a] + 1 == joined)
  {
    var ps := xs + ys;
    forall a, b | 0 <= a < b < |ps|
      ensures ps[a] <= ps[b]
      ensures ps[a] == ps[b] ==> b == a + 1 && b == |xs| && ps[a] + 1 == joined
    {
      if a < |xs| <= b {
        var y := b - |xs|;
        assert ps[b] == ys[y];
        assert a < |xs| - 1 ==> xs[a] < xs[|xs| - 1];
        assert y > 0 ==> ys[0] < ys[y];
      }
    }
  }

  ghost predicate Repeats(ps: seq<nat>) {
    exists a, b :: 0 <= a < b < |ps| && ps[a] == ps[b]
  }

  // The whole cached group was injected and its last packet found room; the consumer was published before the loop
  // had looked for consumers of that same packet, which then found room again.
  predicate SentTwice(m: Member) {
    && m.gop != [] && |m.injected| == |m.gop| && m.injected[|m.injected| - 1].verdict.Sent?
    && m.live != [] && m.live[0].pos + 1 == m.Joined() && m.live[0].verdict.Sent?
  }

  // A position in a queue was put there by an event that sent it.
  lemma {:induction false} EnqueuedBy(es: seq<Event>, k: nat) returns (j: nat)
    requires k < |Enqueued(es)|
    ensures j < |es| && es[j].pos == Enqueued(es)[k] && es[j].verdict.Sent?
  {
    var n := |es| - 1;
    if k < |Enqueued(es[..n])| {
      j := EnqueuedBy(es[..n], k);
    } else {
      j := n;
    }
  }

  lemma {:induction false} FirstSent(es: seq<Event>)
    requires es != [] && es[0].verdict.Sent?
    ensures Enqueued(es) != [] && Enqueued(es)[0] == es[0].pos
  {
    var n := |es| - 1;
    if n > 0 {
      FirstSent(es[..n]);
    } else {
      assert Enqueued(es[..0]) == [];
    }
  }

  lemma RepeatNeeds(log: seq<Packet>, loop: Loop, i: nat, m: Member)
    requires JoinOk(log, m) && OffersOk(log, loop, i, m) && Repeats(Received(m))
    ensures SentTwice(m)
  {
    hide Enqueued;
    Halves(log, loop, i, m);
    LiveBelow(log, loop, i, m);
    var xs, ys := Enqueued(m.injected), Enqueued(m.live);
    MergedOrder(xs, ys, m.Joined());
    var a, b :| 0 <= a < b < |Received(m)| && Received(m)[a] == Received(m)[b];
    assert Received(m)[a] == xs[a] && Received(m)[b] == ys[0];
    var x := EnqueuedBy(m.injected, a);
    var y := EnqueuedBy(m.live, 0);
  }

  lemma SentTwiceRepeats(log: seq<Packet>, m: Member)
    requires JoinOk(log, m) && SentTwice(m)
    ensures Repeats(Received(m))
  {
    var n := |m.injected| - 1;
    var xs, ys := Enqueued(m.injected), Enqueued(m.live);
    assert xs == Enqueued(m.injected[..n]) + [m.injected[n].pos];
    FirstSent(m.live);
    var a := |xs| - 1;
    assert Received(m)[a] == m.injected[n].pos && Received(m)[a + 1] == ys[0];
  }

  // A packet reaches a consumer's queue twice if and only if the last cached packet found room when it was injected
  // and the consumer was published in time to be served that packet live, and it found room again.
  lemma RepeatExactly(maxAge: int, capacity: nat, steps: seq<Step>, i: nat)
    requires Run(maxAge, capacity, steps).Some? && i < |Run(maxAge, capacity, steps).value.members|
    ensures var m := Run(maxAge, capacity, steps).value.members[i];
            Repeats(Received(m)) <==> SentTwice(m)
  {
    hide Received;
    RunKeeps(maxAge, capacity, steps);
    var g := Run(maxAge, capacity, steps).value;
    var m := g.members[i];
    assert MemberOk(g, i, m);
    if Repeats(Received(m)) {
      RepeatNeeds(g.log, g.loop, i, m);
    }
    if SentTwice(m) {
      SentTwiceRepeats(g.log, m);
    }
  }

  // A consumer that joins a relay with a cached group of pictures, and whose injection is not cancelled, first
  // receives a video keyframe, and then the rest of the group in order.
  lemma StartsAtKeyframe(maxAge: int, capacity: nat, steps: seq<Step>, i: nat)
    requires Run(maxAge, capacity, steps).Some? && i < |Run(maxAge, capacity, steps).value.members|
    requires var m := Run(maxAge, capacity, steps).value.members[i];
             m.gop != [] && m.injected != [] && forall k :: 0 <= k < |m.injected| ==> m.injected[k].verdict.Sent?
    ensures var g := Run(maxAge, capacity, steps).value;
            var m := g.members[i];
            var n := |m.injected|;
            && n <= |Received(m)| && (forall k :: 0 <= k < n ==> Received(m)[k] == m.first + k)
            && m.first < |g.log| && IsVideoKey(g.log[m.first])
  {
    RunKeeps(maxAge, capacity, steps);
    var g := Run(maxAge, capacity, steps).value;
    var m := g.members[i];
    assert MemberOk(g, i, m);
    AllSent(m.injected);
    forall k | 0 <= k < |m.injected|
      ensures Received(m)[k] == m.first + k
    {
      assert Received(m)[k] == Positions(m.injected)[k];
    }
  }

  lemma {:induction false} AllSent(es: seq<Event>)
    requires forall k :: 0 <= k < |es| ==> es[k].verdict.Sent?
    ensures Enqueued(es) == Positions(es)
  {
    if es != [] {
      AllSent(es[..|es| - 1]);
      assert Positions(es) == Positions(es[..|es| - 1]) + [es[|es| - 1].pos];
    }
  }

  lemma {:induction false} CountsAddUp(es: seq<Event>)
    ensures |es|
         == Count(es, Sent) + Count(es, Dropped) + Count(es, KeySkip) + Count(es, Overlap) + Count(es, Cancelled)
    ensures |Enqueued(es)| == Count(es, Sent)
  {
    if es != [] {
      CountsAddUp(es[..|es| - 1]);
    }
  }

  // Every packet offered to a consumer is enqueued, dropped, skipped for resync, skipped as overlap, cut off by
  // cancellation, or the one being delivered; the relay's counter is the sum of the drops of all consumers.
  lemma OffersAccounted(maxAge: int, capacity: nat, steps: seq<Step>, i: nat)
    requires Run(maxAge, capacity, steps).Some? && i < |Run(maxAge, capacity, steps).value.members|
    ensures var g := Run(maxAge, capacity, steps).value;
            var m := g.members[i];
            && |m.offered| == |Enqueued(m.live)| + Count(m.live, Dropped) + m.gate.skips + Count(m.live, Overlap)
                              + Count(m.live, Cancelled) + (if Awaiting(g.loop, i) then 1 else 0)
            && g.dropped == TotalDropped(g.members)
            && Received(m) == m.taken + m.queue && |m.queue| <= capacity
            && Increasing(m.offered)
  {
    RunKeeps(maxAge, capacity, steps);
    var g := Run(maxAge, capacity, steps).value;
    var m := g.members[i];
    assert MemberOk(g, i, m);
    CountsAddUp(m.live);
    CapacityKept(maxAge, capacity, steps);
  }

  lemma {:induction false} CapacityKept(maxAge: int, capacity: nat, steps: seq<Step>)
    requires Run(maxAge, capacity, steps).Some?
    ensures Run(maxAge, capacity, steps).value.capacity == capacity
  {
    if steps != [] {
      CapacityKept(maxAge, capacity, steps[..|steps| - 1]);
    }
  }

  // After a drop, the next packet that leaky delivery enqueues for the consumer is a keyframe, provided no
  // leaky delivery in between was cut off by cancellation.
  lemma ResyncOnKeyframe(maxAge: int, capacity: nat, steps: seq<Step>, i: nat, d: nat, k: nat)
    requires Run(maxAge, capacity, steps).Some? && i < |Run(maxAge, capacity, steps).value.members|
    requires var live := Run(maxAge, capacity, steps).value.members[i].live;
             && d < k < |live| && live[d].verdict.Dropped? && live[k].verdict.Sent? && !live[k].single
             && forall j :: d < j < k && (live[j].verdict.Sent? || live[j].verdict.Cancelled?) ==> live[j].single
    ensures var g := Run(maxAge, capacity, steps).value;
            var pos := g.members[i].live[k].pos;
            pos < |g.log| && g.log[pos].key
  {
    RunKeeps(maxAge, capacity, steps);
    var g := Run(maxAge, capacity, steps).value;
    var m := g.members[i];
    assert MemberOk(g, i, m);
    LiveBelow(g.log, g.loop, i, m);
    StillResyncing(m.live, d, k);
    assert ResyncsAt(g.log, m.live, k);
  }

  lemma {:induction false} StillResyncing(es: seq<Event>, d: nat, k: nat)
    requires d < k <= |es| && es[d].verdict.Dropped?
    requires forall j :: d < j < k && (es[j].verdict.Sent? || es[j].verdict.Cancelled?) ==> es[j].single
    ensures Resyncing(es[..k])
    decreases k
  {
    assert es[..k][..k - 1] == es[..k - 1];
    if d < k - 1 {
      StillResyncing(es, d, k - 1);
    }
  }

  // Blocking delivery does not look at the flag: whenever the scan lists a single consumer, which waits for a
  // keyframe and has room, a packet that is not one and does not overlap is enqueued for it, and it goes on waiting.
  lemma SoleConsumerSkipsResync(g: Global, i: nat)
    requires g.loop.Appended? && |g.log| > 0 && i < |g.members|
    requires ListsActive(g.members, [i]) && |g.members[i].queue| < g.capacity
    requires var p, gate := g.log[|g.log| - 1], g.members[i].gate;
             !p.key && gate.needsKeyframe && (gate.skipBefore.Some? ==> p.dts >= gate.skipBefore.value)
    ensures var found := Next(g, FindActive([i]));
            && found.Some?
            && var served := Next(found.value, Serve(Room));
            && served.Some? && |served.value.members| == |g.members|
            && var m := served.value.members[i];
            m.live == g.members[i].live + [Event(|g.log| - 1, Sent, true)] && m.gate.needsKeyframe
  {
    hide ListsActive;
    var g1 := Next(g, FindActive([i])).value;
    assert g1.members[i] == g.members[i].(offered := g.members[i].offered + [|g.log| - 1]);
  }

  // Overlap skips all come before the first packet that passes.
  lemma OverlapThenLive(maxAge: int, capacity: nat, steps: seq<Step>, i: nat, a: nat, b: nat)
    requires Run(maxAge, capacity, steps).Some? && i < |Run(maxAge, capacity, steps).value.members|
    requires a < b < |Run(maxAge, capacity, steps).value.members[i].live|
    ensures var live := Run(maxAge, capacity, steps).value.members[i].live;
            live[b].verdict.Overlap? ==> live[a].verdict.Overlap?
  {
    RunKeeps(maxAge, capacity, steps);
    var g := Run(maxAge, capacity, steps).value;
    assert MemberOk(g, i, g.members[i]);
  }
}
