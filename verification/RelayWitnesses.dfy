/** Two runs of a relay that do happen: a packet delivered twice, and a resync that is not waited for. */
module RelayWitnesses {
  import opened Wrappers
  import opened PacketBuffer
  import opened Relay
  import opened RelayRuns

  const KEY := Packet(1, 0, true, true, [])
  const DELTA := Packet(1, 1, false, true, [])

  // ---- single steps ----

  // The run `steps` of a relay with queues of the given size ends in g.
  ghost predicate Reaches(capacity: nat, steps: seq<Step>, g: Global) {
    Run(0, capacity, steps) == Some(g)
  }

  lemma Starts(capacity: nat)
    ensures Reaches(capacity, [], Init(0, capacity))
  {
  }

  lemma Then(capacity: nat, steps: seq<Step>, s: Step, g: Global, g': Global)
    requires Reaches(capacity, steps, g) && Next(g, s) == Some(g')
    ensures Reaches(capacity, steps + [s], g')
  {
    assert (steps + [s])[..|steps|] == steps;
  }

  // A buffer that has kept the whole log.
  function Keeping(log: seq<Packet>): Shared {
    Shared(log, 0, 0, |log|, |log| + 1)
  }

  lemma AppendNext(g: Global, p: Packet)
    requires g.loop.Idle? && g.buf == Keeping(g.log) && p.wall > 0 && (g.log == [] || g.log[0].wall > 0)
    ensures Next(g, Append(p, 0, 0)) == Some(g.(log := g.log + [p], buf := Keeping(g.log + [p]), loop := Appended))
  {
    assert Expired(g.log + [p], 0) == 0;
  }

  lemma AttachNext(g: Global)
    ensures Next(g, Attach) == Some(g.(members := g.members + [NewMember()]))
  {
  }

  predicate IsOwn(s: Step) {
    s.ReadGop? || s.InjectOne? || s.Mark? || s.Publish? || s.Remove? || s.Take?
  }

  lemma OwnNext(g: Global, s: Step, m: Member)
    requires IsOwn(s) && s.i < |g.members| && MemberNext(g, g.members[s.i], s) == Some(m)
    ensures Next(g, s) == Some(g.(members := g.members[s.i := m]))
  {
    hide MemberNext;
  }

  lemma FindNext(g: Global, order: seq<nat>)
    requires g.loop.Appended? && |g.log| > 0 && ListsActive(g.members, order)
    ensures Next(g, FindActive(order))
         == Some(g.(loop := Delivering(order, |order| == 1), members := Offered(g.members, order, |g.log| - 1)))
  {
    hide ListsActive, Offered;
  }

  // What a packet at `pos` does to the consumer it is offered to, and then to the one it is served to.
  function Noted(m: Member, pos: nat): Member {
    m.(offered := m.offered + [pos])
  }

  function Served(m: Member, pos: nat, gate: Gate, v: Verdict, single: bool): Member {
    m.(gate := gate, live := m.live + [Event(pos, v, single)], queue := if v.Sent? then m.queue + [pos] else m.queue)
  }

  lemma ServeNext(g: Global, i: nat, todo: seq<nat>, c: Choice, gate: Gate, v: Verdict)
    requires g.loop.Delivering? && g.loop.todo == [i] + todo && |g.log| > 0 && i < |g.members|
    requires CanSend(g.members[i], g.capacity, g.loop.single, c)
    requires OfferSpec(g.members[i].gate, g.log[|g.log| - 1], g.loop.single, c) == (gate, v)
    ensures Next(g, Serve(c))
         == Some(g.(loop := Delivering(todo, g.loop.single),
                    members := g.members[i := Served(g.members[i], |g.log| - 1, gate, v, g.loop.single)],
                    dropped := g.dropped + if v.Dropped? then 1 else 0))
  {
    hide OfferSpec, CanSend;
    assert g.loop.todo[1..] == todo && g.loop.todo[0] == i;
  }

  lemma EndNext(g: Global)
    requires g.loop.Delivering? && g.loop.todo == []
    ensures Next(g, EndRound) == Some(g.(loop := Idle))
  {
  }

  // One consumer alone: found, and served by blocking delivery.
  lemma ServedAlone(capacity: nat, steps: seq<Step>, g: Global, gate: Gate)
    returns (more: seq<Step>)
    requires Reaches(capacity, steps, g) && g.loop.Appended? && |g.log| > 0 && g.members != [] && IsActive(g.members[0])
    requires |g.members[0].queue| < g.capacity
    requires OfferSpec(g.members[0].gate, g.log[|g.log| - 1], true, Room) == (gate, Sent)
    ensures var m := Served(Noted(g.members[0], |g.log| - 1), |g.log| - 1, gate, Sent, true);
            Reaches(capacity, more, g.(loop := Delivering([], true), members := g.members[0 := m]))
  {
    hide Reaches, Next, OfferSpec;
    var pos, ms := |g.log| - 1, g.members;
    FindNext(g, [0]);
    assert Offered(ms, [0], pos) == ms[0 := Noted(ms[0], pos)];
    var g1 := g.(loop := Delivering([0], true), members := ms[0 := Noted(ms[0], pos)]);
    Then(capacity, steps, FindActive([0]), g, g1);
    assert [0] + [] == [0];
    ServeNext(g1, 0, [], Room, gate, Sent);
    var m := Served(Noted(ms[0], pos), pos, gate, Sent, true);
    var g2 := g.(loop := Delivering([], true), members := ms[0 := m]);
    assert g1.members[0 := m] == g2.members;
    Then(capacity, steps + [FindActive([0])], Serve(Room), g1, g2);
    more := steps + [FindActive([0])] + [Serve(Room)];
  }

  // ---- a packet delivered twice ----

  // A consumer that has been given the cached keyframe.
  function Holder(stage: Stage): Member {
    NewMember().(stage := stage, gop := [KEY], injected := [Event(0, Sent, true)], queue := [0],
                 gate := NewMember().gate.(skipBefore := if stage.Injecting? then None else Some(0)))
  }

  lemma KeyCached() returns (steps: seq<Step>)
    ensures Reaches(2, steps, Global([KEY], Keeping([KEY]), Appended, 2, [NewMember()], 0))
  {
    hide Reaches, Next;
    var g0, g1 := Init(0, 2), Init(0, 2).(members := [NewMember()]);
    assert [] + [NewMember()] == [NewMember()] && [] + [KEY] == [KEY];
    Starts(2);
    AttachNext(g0);
    Then(2, [], Attach, g0, g1);
    AppendNext(g1, KEY);
    Then(2, [] + [Attach], Append(KEY, 0, 0), g1, Global([KEY], Keeping([KEY]), Appended, 2, [NewMember()], 0));
    steps := [] + [Attach] + [Append(KEY, 0, 0)];
  }

  lemma OwnStep(steps: seq<Step>, g: Global, s: Step, m: Member)
    requires Reaches(2, steps, g) && IsOwn(s) && s.i == 0 && |g.members| == 1
    requires MemberNext(g, g.members[0], s) == Some(m)
    ensures Reaches(2, steps + [s], g.(members := [m]))
  {
    hide Reaches, Next, MemberNext;
    OwnNext(g, s, m);
    assert g.members[0 := m] == [m];
    Then(2, steps, s, g, g.(members := [m]));
  }

  // How a consumer comes to hold it.
  lemma HolderSteps(g: Global)
    requires g.buf == Keeping([KEY]) && g.capacity == 2
    ensures var reading := NewMember().(stage := Injecting, gop := [KEY]);
            && MemberNext(g, NewMember(), ReadGop(0)) == Some(reading)
            && MemberNext(g, reading, InjectOne(0, Room)) == Some(Holder(Injecting))
    ensures MemberNext(g, Holder(Injecting), Mark(0)) == Some(Holder(Marked))
    ensures MemberNext(g, Holder(Marked), Publish(0)) == Some(Holder(Live))
  {
    hide LastGopSpec, CanSend;
    LastGops();
    var reading := NewMember().(stage := Injecting, gop := [KEY]);
    assert CanSend(reading, 2, true, Room) by { HasRoom(reading); }
    assert InjectMember(reading, Room) == Holder(Injecting);
  }

  lemma HasRoom(m: Member)
    requires m.queue == []
    ensures CanSend(m, 2, true, Room)
  {
  }

  lemma LastGops()
    ensures LastGopSpec([]) == [] && LastGopSpec([KEY]) == [KEY]
  {
    LastGopExact([KEY], 0);
  }

  // The state of the relay does not matter to a consumer's own steps beyond the buffer and the queue size.
  lemma SameOwn(g: Global, ms: seq<Member>, m: Member, s: Step)
    ensures MemberNext(g.(members := ms), m, s) == MemberNext(g, m, s)
  {
  }

  lemma KeyInjected() returns (steps: seq<Step>)
    ensures Reaches(2, steps, Global([KEY], Keeping([KEY]), Appended, 2, [Holder(Live)], 0))
  {
    hide Reaches, MemberNext;
    steps := KeyCached();
    var g := Global([KEY], Keeping([KEY]), Appended, 2, [NewMember()], 0);
    var reading := NewMember().(stage := Injecting, gop := [KEY]);
    HolderSteps(g);
    SameOwn(g, [reading], reading, InjectOne(0, Room));
    SameOwn(g, [Holder(Injecting)], Holder(Injecting), Mark(0));
    SameOwn(g, [Holder(Marked)], Holder(Marked), Publish(0));
    OwnStep(steps, g, ReadGop(0), reading);
    OwnStep(steps + [ReadGop(0)], g.(members := [reading]), InjectOne(0, Room), Holder(Injecting));
    steps := steps + [ReadGop(0)] + [InjectOne(0, Room)];
    OwnStep(steps, g.(members := [Holder(Injecting)]), Mark(0), Holder(Marked));
    OwnStep(steps + [Mark(0)], g.(members := [Holder(Marked)]), Publish(0), Holder(Live));
    steps := steps + [Mark(0)] + [Publish(0)];
  }

  // The repeat that the strict comparison allows is real: a consumer that joins while the loop still holds the
  // last cached packet gets that packet by injection and again live.
  lemma RepeatHappens() returns (steps: seq<Step>)
    ensures var r := Run(0, 2, steps);
            r.Some? && |r.value.members| == 1 && Received(r.value.members[0]) == [0, 0]
  {
    hide Run;
    steps := KeyInjected();
    var g, open := Global([KEY], Keeping([KEY]), Appended, 2, [Holder(Live)], 0), Gate(None, false, 0);
    steps := ServedAlone(2, steps, g, open);
    var m := Served(Noted(Holder(Live), 0), 0, open, Sent, true);
    assert g.members[0 := m] == [m];
    AllSent(m.injected);
    AllSent(m.live);
    assert Received(m) == [0, 0];
  }

  // ---- a resync that is not waited for ----

  // A consumer that was given no cached packets.
  function Bare(stage: Stage): Member {
    NewMember().(stage := stage)
  }

  lemma BareSteps(g: Global, i: nat)
    requires g.buf == Keeping([])
    ensures MemberNext(g, Bare(Fresh), ReadGop(i)) == Some(Bare(Injecting))
    ensures MemberNext(g, Bare(Injecting), Mark(i)) == Some(Bare(Marked))
    ensures MemberNext(g, Bare(Marked), Publish(i)) == Some(Bare(Live))
  {
    hide LastGopSpec;
    LastGops();
  }

  // A consumer that attaches to a relay that has read nothing yet is live three steps later.
  lemma JoinsEmpty(steps: seq<Step>, g: Global) returns (more: seq<Step>)
    requires Reaches(1, steps, g) && g.log == [] && g.buf == Keeping([])
    ensures Reaches(1, more, g.(members := g.members + [Bare(Live)]))
  {
    hide Reaches, Next, MemberNext, Bare;
    var i, ms := |g.members|, g.members;
    AttachNext(g);
    BareIsNew();
    var g1 := g.(members := ms + [Bare(Fresh)]);
    Then(1, steps, Attach, g, g1);
    var g2 := g.(members := ms + [Bare(Injecting)]);
    BareSteps(g1, i);
    OwnNext(g1, ReadGop(i), Bare(Injecting));
    LastChanged(ms, Bare(Fresh), Bare(Injecting));
    Then(1, steps + [Attach], ReadGop(i), g1, g2);
    var g3 := g.(members := ms + [Bare(Marked)]);
    BareSteps(g2, i);
    OwnNext(g2, Mark(i), Bare(Marked));
    LastChanged(ms, Bare(Injecting), Bare(Marked));
    Then(1, steps + [Attach] + [ReadGop(i)], Mark(i), g2, g3);
    BareSteps(g3, i);
    OwnNext(g3, Publish(i), Bare(Live));
    LastChanged(ms, Bare(Marked), Bare(Live));
    Then(1, steps + [Attach] + [ReadGop(i)] + [Mark(i)], Publish(i), g3, g.(members := ms + [Bare(Live)]));
    more := steps + [Attach] + [ReadGop(i)] + [Mark(i)] + [Publish(i)];
  }

  lemma BareIsNew()
    ensures Bare(Fresh) == NewMember()
  {
  }

  lemma LastChanged(ms: seq<Member>, m: Member, m': Member)
    ensures (ms + [m])[|ms| := m'] == ms + [m']
  {
  }

  // One round of the loop over two consumers that are treated alike.
  lemma RoundOfTwo(steps: seq<Step>, g: Global, p: Packet, c: Choice, m: Member, gate: Gate, v: Verdict)
    returns (more: seq<Step>)
    requires Reaches(1, steps, g) && g.loop.Idle? && g.buf == Keeping(g.log) && g.capacity == 1 && g.members == [m, m]
    requires p.wall > 0 && (g.log == [] || g.log[0].wall > 0)
    requires IsActive(m) && CanSend(m, 1, false, c) && OfferSpec(m.gate, p, false, c) == (gate, v)
    ensures var m' := Served(Noted(m, |g.log|), |g.log|, gate, v, false);
            Reaches(1, more, g.(log := g.log + [p], buf := Keeping(g.log + [p]), members := [m', m'],
                                dropped := g.dropped + if v.Dropped? then 2 else 0))
  {
    hide Reaches, Next, OfferSpec, Served;
    var pos := |g.log|;
    AppendNext(g, p);
    var g1 := g.(log := g.log + [p], buf := Keeping(g.log + [p]), loop := Appended);
    Then(1, steps, Append(p, 0, 0), g, g1);
    var o := Noted(m, pos);
    FindNext(g1, [0, 1]);
    assert Offered([m, m], [0, 1], pos) == [o, o];
    var g2 := g1.(loop := Delivering([0, 1], false), members := [o, o]);
    Then(1, steps + [Append(p, 0, 0)], FindActive([0, 1]), g1, g2);
    more := steps + [Append(p, 0, 0)] + [FindActive([0, 1])];
    BothServed(more, g2, o, c, gate, v);
    more := more + [Serve(c)] + [Serve(c)] + [EndRound];
  }

  lemma BothServed(steps: seq<Step>, g: Global, o: Member, c: Choice, gate: Gate, v: Verdict)
    requires Reaches(1, steps, g) && g.loop == Delivering([0, 1], false) && g.capacity == 1 && g.members == [o, o]
    requires |g.log| > 0 && CanSend(o, 1, false, c) && OfferSpec(o.gate, g.log[|g.log| - 1], false, c) == (gate, v)
    ensures var m := Served(o, |g.log| - 1, gate, v, false);
            Reaches(1, steps + [Serve(c)] + [Serve(c)] + [EndRound],
                    g.(loop := Idle, members := [m, m], dropped := g.dropped + if v.Dropped? then 2 else 0))
  {
    hide Reaches, Next, OfferSpec, Served, CanSend;
    var m := Served(o, |g.log| - 1, gate, v, false);
    var d := if v.Dropped? then 1 else 0;
    assert [0, 1] == [0] + [1] && [1] == [1] + [];
    ServeNext(g, 0, [1], c, gate, v);
    assert [o, o][0 := m] == [m, o] && [m, o][1 := m] == [m, m];
    var g1 := g.(loop := Delivering([1], false), members := [m, o], dropped := g.dropped + d);
    Then(1, steps, Serve(c), g, g1);
    ServeNext(g1, 1, [], c, gate, v);
    var g2 := g1.(loop := Delivering([], false), members := [m, m], dropped := g.dropped + d + d);
    Then(1, steps + [Serve(c)], Serve(c), g1, g2);
    EndNext(g2);
    Then(1, steps + [Serve(c)] + [Serve(c)], EndRound, g2, g2.(loop := Idle));
  }

  // A consumer that got the keyframe, lost the packet after it and waits for another keyframe.
  function Waiter(): Member {
    Served(Noted(Served(Noted(Bare(Live), 0), 0, Gate(None, false, 0), Sent, false), 1), 1, Gate(None, true, 0),
           Dropped, false)
  }

  lemma BothDrop() returns (steps: seq<Step>)
    ensures Reaches(1, steps, Global([KEY, DELTA], Keeping([KEY, DELTA]), Idle, 1, [Waiter(), Waiter()], 2))
  {
    hide Reaches;
    var g0, f := Init(0, 1), Bare(Live);
    Starts(1);
    steps := JoinsEmpty([], g0);
    assert [] + [f] == [f] && [f] + [f] == [f, f];
    steps := JoinsEmpty(steps, g0.(members := [f]));
    var open, shut := Gate(None, false, 0), Gate(None, true, 0);
    steps := RoundOfTwo(steps, g0.(members := [f, f]), KEY, Room, f, open, Sent);
    var a := Served(Noted(f, 0), 0, open, Sent, false);
    assert [] + [KEY] == [KEY] && [KEY] + [DELTA] == [KEY, DELTA];
    steps := RoundOfTwo(steps, Global([KEY], Keeping([KEY]), Idle, 1, [a, a], 0), DELTA, Full, a, shut, Dropped);
  }

  // Blocking delivery does not look at the flag: two consumers lose the second packet, one leaves, and the other,
  // now alone, makes room and is sent the third packet, which is no keyframe.
  lemma ResyncIgnored() returns (steps: seq<Step>)
    ensures var r := Run(0, 1, steps);
            && r.Some? && |r.value.members| == 2 && |r.value.log| == 3 && !r.value.log[2].key
            && r.value.members[0].live == [Event(0, Sent, false), Event(1, Dropped, false), Event(2, Sent, true)]
  {
    hide Reaches, Next, MemberNext, Waiter;
    steps := BothDrop();
    var m := Waiter();
    var gone, free := m.(stage := Gone), m.(queue := [], taken := [0]);
    WaiterSteps();
    var g0 := Global([KEY, DELTA], Keeping([KEY, DELTA]), Idle, 1, [m, m], 2);
    LeaveAndTake(g0, 1);
    OwnNext(g0, Remove(1), gone);
    assert [m, m][1 := gone] == [m, gone];
    var g1 := g0.(members := [m, gone]);
    Then(1, steps, Remove(1), g0, g1);
    LeaveAndTake(g1, 0);
    OwnNext(g1, Take(0), free);
    assert [m, gone][0 := free] == [free, gone];
    var g2 := g0.(members := [free, gone]);
    Then(1, steps + [Remove(1)], Take(0), g1, g2);
    AppendNext(g2, DELTA);
    var log := [KEY, DELTA] + [DELTA];
    var g3 := g2.(log := log, buf := Keeping(log), loop := Appended);
    Then(1, steps + [Remove(1)] + [Take(0)], Append(DELTA, 0, 0), g2, g3);
    steps := ServedAlone(1, steps + [Remove(1)] + [Take(0)] + [Append(DELTA, 0, 0)], g3, free.gate);
    ReachesRun(1, steps);
  }

  lemma ReachesRun(capacity: nat, steps: seq<Step>)
    ensures forall g :: Reaches(capacity, steps, g) ==> Run(0, capacity, steps) == Some(g)
  {
  }

  lemma WaiterSteps()
    ensures var m := Waiter();
            && m.stage.Live? && !m.inactive && m.gate == Gate(None, true, 0)
            && m.live == [Event(0, Sent, false), Event(1, Dropped, false)] && m.queue == [0] && m.taken == []
  {
  }

  lemma LeaveAndTake(g: Global, i: nat)
    ensures var m := Waiter();
            && MemberNext(g, m, Remove(i)) == Some(m.(stage := Gone))
            && MemberNext(g, m, Take(i)) == Some(m.(queue := [], taken := [0]))
  {
    hide Waiter;
    WaiterSteps();
    assert [0][1..] == [] && [] + [0] == [0];
  }
}
