/** Whole runs of `slave_rpc.c`. */
module SlaveRuns {
  import opened SlaveQueue
  import opened SlaveOrder
  import opened SlaveSteps
  import opened SlaveLines
  import opened SlaveHandles

  // ---------------------------------------------------------------- places

  /** Where a command can be between two events. */
  predicate AtRest(p: Place) {
    p == Queued || p == Pending || p == Sent || p.Gone?
  }

  /** From command number `n` on. */
  ghost predicate RestsFrom(q: Queue, n: nat) {
    forall id: Id :: n <= id < |q.place| ==> AtRest(q.place[id])
  }

  ghost predicate AllAtRest(q: Queue) {
    RestsFrom(q, 0)
  }

  lemma AskedAtRest(q: Queue, i: Issue, n: nat)
    requires Inv(q) && RestsFrom(q, n)
    ensures RestsFrom(Asked(q, i), n)
  {
    AskedSettles(q, i);
    assert AtRest(Destination(q, i.command, i.launch));
  }

  lemma {:induction false} AskedAllAtRest(q: Queue, during: seq<Issue>, n: nat)
    requires Inv(q) && RestsFrom(q, n)
    ensures RestsFrom(AskedAll(q, during), n)
    decreases |during|
  {
    if during != [] {
      var last := |during| - 1;
      AskedAllAtRest(q, during[..last], n);
      AskedAtRest(AskedAll(q, during[..last]), during[last], n);
    }
  }

  lemma RepliedAtRest(q: Queue, id: Id, during: seq<Issue>)
    requires Inv(q) && At(q, id, Sent) && AllAtRest(q)
    ensures AllAtRest(Replied(q, id, during))
  {
    CallKeeps(q, id);
    AskedAllAtRest(Call(q, id), during, |q.place|);
  }

  lemma FlushedAtRest(m: Queue, s: Slave, purge: bool)
    requires Inv(m) && AllAtRest(m)
    ensures AllAtRest(FlushedAll(m, s, purge))
  {
    if s in m.rpcs {
      FlushingStart(m, s, purge);
      var rest := FlushedAllFlushes(m, m, s, purge, [], []);
      var r := FlushedAll(m, s, purge);
      forall id: Id | id < |r.place| ensures AtRest(r.place[id]) {
        assert AtRest(m.place[id]);
        if PendingFor(m, s, id) {
          assert FlushedTo(m, r, purge, id);
        }
      }
    }
  }

  lemma ConnectedAtRest(q: Queue, s: Slave, handle: int, purge: bool, during: seq<Issue>)
    requires Inv(q) && AllAtRest(q)
    ensures AllAtRest(Connected(q, s, handle, purge, during))
  {
    if s in q.rpcs {
      SetHandleKeeps(q, s, handle);
      AskedAllAtRest(SetHandle(q, s, handle), during, 0);
      FlushedAtRest(AskedAll(SetHandle(q, s, handle), during), s, purge);
    }
  }

  lemma TickedAtRest(q: Queue, active: bool, taken: bool)
    requires Inv(q) && AllAtRest(q)
    ensures AllAtRest(Ticked(q, active, taken))
  {
    if q.list != [] {
      TickedConsumes(q, active, taken);
    }
  }

  lemma DiedAtRest(q: Queue, s: Slave)
    requires Inv(q) && AllAtRest(q)
    ensures AllAtRest(Died(q, s))
  {
    if s in q.rpcs {
      DiedEmpties(q, s);
    }
  }

  lemma StepAtRest(q: Queue, e: Event)
    requires Inv(q) && AllAtRest(q)
    ensures AllAtRest(Step(q, e))
  {
    match e {
      case Attaching(_) =>
      case Asking(i) => AskedAtRest(q, i, 0);
      case Ticking(active, taken) => TickedAtRest(q, active, taken);
      case Answering(id, during) =>
        if At(q, id, Sent) {
          RepliedAtRest(q, id, during);
        }
      case Connecting(s, handle, purge, during) => ConnectedAtRest(q, s, handle, purge, during);
      case Dying(s) => DiedAtRest(q, s);
      case TimersFailing(_) =>
    }
  }

  lemma {:induction false} RunAtRest(events: seq<Event>)
    ensures AllAtRest(Run(events))
    decreases |events|
  {
    if events != [] {
      RunAtRest(events[..|events| - 1]);
      StepAtRest(Run(events[..|events| - 1]), events[|events| - 1]);
    }
  }

  /** Between two events every command is in exactly one place: waiting for its slave's
      handle, queued, with com-core, or destroyed. It holds its packet and a reference to its
      slave until it is destroyed, and a queue that is not empty has its timer armed. */
  lemma ExactlyOnePlace(events: seq<Event>, id: Id)
    requires id < |Run(events).place|
    ensures var q := Run(events);
            && (if id in PendingOf(q, q.commands[id].slave) then 1 else 0) + (if id in q.list then 1 else 0)
               + (if q.place[id] == Sent then 1 else 0) + (if q.place[id].Gone? then 1 else 0) == 1
            && q.packetRefs[id] == (if q.place[id].Gone? then 0 else 1)
            && (forall s :: q.slaveRefs[s] == Live(q, s, |q.place|))
            && (id in q.list ==> q.timer)
  {
    RunAtRest(events);
    var q := Run(events);
    assert id in q.list <==> At(q, id, Queued);
    assert id in PendingOf(q, q.commands[id].slave) <==> PendingFor(q, q.commands[id].slave, id);
    assert AtRest(q.place[id]);
  }

  // ---------------------------------------------------------------- order

  /** Every slave's ordinary commands are in issue order, and a slave with a handle has none
      waiting. */
  ghost predicate Orderly(q: Queue) {
    forall s :: InOrder(q, s) && Flushed(q, s)
  }

  /** No activation callback queues an ordinary request before an ordinary command that
      waits. */
  ghost predicate Harmless(q: Queue, e: Event) {
    e.Connecting? ==> !Overtakes(q, e.slave, e.handle, e.purge, e.during)
  }

  lemma StepKeepsOrder(q: Queue, e: Event, t: Slave)
    requires Inv(q) && (e.Connecting? ==> t != e.slave)
    ensures KeepsOrder(q, Step(q, e), t)
  {
    match e {
      case Attaching(s) => AttachKeepsOrder(q, s, t);
      case Asking(i) => AskingKeepsOrder(q, i, t);
      case Ticking(active, taken) => TickingKeepsOrder(q, active, taken, t);
      case Answering(id, during) => AnsweringKeepsOrder(q, id, during, t);
      case Connecting(s, handle, purge, during) => ConnectingKeepsOrder(q, s, handle, purge, during, t);
      case Dying(s) => DyingKeepsOrder(q, s, t);
      case TimersFailing(failures) => FailuresKeepOrder(q, failures, t);
    }
  }

  lemma AskingKeepsOrder(q: Queue, i: Issue, t: Slave)
    requires Inv(q)
    ensures KeepsOrder(q, Step(q, Asking(i)), t)
  {
    AskedKeepsOrder(q, i, t);
  }

  lemma TickingKeepsOrder(q: Queue, active: bool, taken: bool, t: Slave)
    requires Inv(q)
    ensures KeepsOrder(q, Step(q, Ticking(active, taken)), t)
  {
    TickedKeepsOrder(q, active, taken, t);
  }

  lemma ConnectingKeepsOrder(q: Queue, s: Slave, handle: int, purge: bool, during: seq<Issue>, t: Slave)
    requires Inv(q) && t != s
    ensures KeepsOrder(q, Step(q, Connecting(s, handle, purge, during)), t)
  {
    ConnectedKeepsOrder(q, s, handle, purge, during, t);
    assert Step(q, Connecting(s, handle, purge, during)) == Connected(q, s, handle, purge, during);
  }

  lemma DyingKeepsOrder(q: Queue, s: Slave, t: Slave)
    requires Inv(q)
    ensures KeepsOrder(q, Step(q, Dying(s)), t)
  {
    DiedKeepsOrder(q, s, t);
    assert Step(q, Dying(s)) == Died(q, s);
  }

  lemma AttachKeepsOrder(q: Queue, s: Slave, t: Slave)
    requires Inv(q)
    ensures KeepsOrder(q, Step(q, Attaching(s)), t)
  {
    assert PendingOf(Attach(q, s), t) == PendingOf(q, t);
    SameLine(q, Attach(q, s), t);
  }

  lemma AnsweringKeepsOrder(q: Queue, id: Id, during: seq<Issue>, t: Slave)
    requires Inv(q)
    ensures KeepsOrder(q, Step(q, Answering(id, during)), t)
  {
    if At(q, id, Sent) {
      var r := Replied(q, id, during);
      assert Step(q, Answering(id, during)) == r;
      RepliedKeepsOrder(q, id, during, t);
      assert KeepsOrder(q, r, t);
    } else {
      assert Step(q, Answering(id, during)) == q;
    }
  }

  lemma FailuresKeepOrder(q: Queue, failures: nat, t: Slave)
    requires Inv(q)
    ensures KeepsOrder(q, Step(q, TimersFailing(failures)), t)
  {
    SameLine(q, Step(q, TimersFailing(failures)), t);
  }

  /** One event leaves everything in order if and only if it is harmless. */
  lemma StepIsOrderly(q: Queue, e: Event)
    requires Inv(q) && Orderly(q)
    ensures Orderly(Step(q, e)) <==> Harmless(q, e)
  {
    var r := Step(q, e);
    forall t | e.Connecting? ==> t != e.slave ensures InOrder(r, t) && Flushed(r, t) {
      StepKeepsOrder(q, e, t);
      assert InOrder(q, t) && Flushed(q, t);
    }
    if e.Connecting? {
      var s := e.slave;
      assert InOrder(q, s) && Flushed(q, s);
      if s in q.rpcs {
        ConnectedOrder(q, s, e.handle, e.purge, e.during);
      }
    }
  }

  /** The state is in order, and so was every state before. */
  ghost predicate AlwaysOrderly(events: seq<Event>)
    decreases |events|
  {
    Orderly(Run(events)) && (events != [] ==> AlwaysOrderly(events[..|events| - 1]))
  }

  /** Every event was harmless when it came. */
  ghost predicate AllHarmless(events: seq<Event>)
    decreases |events|
  {
    events != [] ==>
      var before := events[..|events| - 1];
      AllHarmless(before) && Harmless(Run(before), events[|events| - 1])
  }

  /** Over every run: all states are in order if and only if all events are harmless. */
  lemma {:induction false} OrderlyUnlessOvertaken(events: seq<Event>)
    ensures AlwaysOrderly(events) <==> AllHarmless(events)
    decreases |events|
  {
    if events == [] {
      EmptyIsOrderly();
    } else {
      var before, last := events[..|events| - 1], events[|events| - 1];
      OrderlyUnlessOvertaken(before);
      if AlwaysOrderly(before) {
        StepIsOrderly(Run(before), last);
      }
    }
  }

  lemma EmptyIsOrderly()
    ensures Orderly(EMPTY)
  {
    assert forall s :: Line(EMPTY, s) == [] + [] + [];
  }

  /** An activation callback issues only urgent requests for the slave just activated. */
  predicate Considerate(e: Event) {
    e.Connecting? ==>
      forall k :: 0 <= k < |e.during| ==> e.during[k].command.slave == e.slave ==> e.during[k].command.urgent
  }

  lemma {:induction false} ConsiderateIsHarmless(events: seq<Event>)
    requires forall e :: e in events ==> Considerate(e)
    ensures AllHarmless(events)
    decreases |events|
  {
    if events != [] {
      var last := events[|events| - 1];
      ConsiderateIsHarmless(events[..|events| - 1]);
      assert last in events && Considerate(last);
    }
  }

  /** Hence, if activation callbacks do so, ordinary commands to one slave are handed over in
      the order of their issue, over every run. */
  lemma HandedOverInOrder(events: seq<Event>, s: Slave, i: nat, j: nat)
    requires forall e :: e in events ==> Considerate(e)
    requires i < j < |Run(events).sent|
    requires Ordinary(Run(events).commands, s, Run(events).sent[i])
    requires Ordinary(Run(events).commands, s, Run(events).sent[j])
    ensures Run(events).sent[i] < Run(events).sent[j]
  {
    ConsiderateIsHarmless(events);
    OrderlyUnlessOvertaken(events);
    HandedInIssueOrder(Run(events), s, i, j);
  }

  /** The order is really lost otherwise: command 0 waits for the handle, command 1 is issued
      by an activation callback, and it is queued first. */
  lemma ActivationRequestOvertakes() returns (i: Issue, events: seq<Event>)
    ensures !i.command.urgent && i.command.slave == 0
    ensures |events| == 3
    ensures events[0] == Attaching(0) && events[1] == Asking(i) && events[2] == Connecting(0, 3, false, [i])
    ensures Run(events).list == [1, 0] && !InOrder(Run(events), 0)
  {
    i := Issue(Command(0, false, false, false, true), NotNeeded);
    RunOf([], Attaching(0));
    events := [] + [Attaching(0)];
    OneWaits(Run(events), i);
    RunOf(events, Asking(i));
    events := events + [Asking(i)];
    OneOvertakes(Run(events), i);
    RunOf(events, Connecting(0, 3, false, [i]));
    events := events + [Connecting(0, 3, false, [i])];
  }

  lemma OneWaits(q: Queue, i: Issue)
    requires Inv(q) && q == Attach(EMPTY, 0)
    requires i.command == Command(0, false, false, false, true) && i.launch == NotNeeded
    ensures var r := Step(q, Asking(i));
            r.commands == [i.command] && r.sent == [] && r.list == [] && r.rpcs == map[0 := Rpc(-1, [0])]
            && r.failures == 0
  {
    AskedSettles(q, i);
    assert [] + [0] == [0];
    assert q.rpcs == map[0 := Rpc(-1, [])];
    assert Pended(q.rpcs, i.command, 0) == map[0 := Rpc(-1, [0])];
  }

  lemma OneOvertakes(q: Queue, i: Issue)
    requires Inv(q) && q.commands == [i.command] && q.sent == [] && q.list == [] && q.rpcs == map[0 := Rpc(-1, [0])]
    requires q.failures == 0 && i.command == Command(0, false, false, false, true) && i.launch == NotNeeded
    ensures var r := Step(q, Connecting(0, 3, false, [i])); r.list == [1, 0] && !InOrder(r, 0)
  {
    SetHandleKeeps(q, 0, 3);
    var named := SetHandle(q, 0, 3);
    AskedSettles(named, i);
    OneFlushed(Asked(named, i), i.command);
    ConnectedWithOne(q, 0, 3, false, i);
  }

  lemma ConnectedWithOne(q: Queue, s: Slave, handle: int, purge: bool, i: Issue)
    requires Inv(q) && s in q.rpcs && Inv(SetHandle(q, s, handle))
    ensures Step(q, Connecting(s, handle, purge, [i])) == FlushedAll(Asked(SetHandle(q, s, handle), i), s, purge)
  {
    OneIssued(SetHandle(q, s, handle), i);
    assert Step(q, Connecting(s, handle, purge, [i])) == Connected(q, s, handle, purge, [i]);
  }

  lemma OneIssued(q: Queue, i: Issue)
    requires Inv(q)
    ensures AskedAll(q, [i]) == Asked(q, i)
  {
    assert [i][..0] == [];
  }

  lemma OneFlushed(m: Queue, c: Command)
    requires Inv(m) && m.commands == [c, c] && m.sent == [] && m.list == [1] && m.rpcs == map[0 := Rpc(3, [0])]
    requires m.timer && c == Command(0, false, false, false, true)
    ensures var r := FlushedAll(m, 0, false); r.list == [1, 0] && !InOrder(r, 0)
  {
    var r := FlushedOne(m, 0, false);
    FlushedOneFlushes(m, 0, false);
    assert PendingOf(r, 0) == [] && FlushedAll(m, 0, false) == r;
    TwoQueued(r, c);
  }

  lemma RunOf(events: seq<Event>, e: Event)
    ensures Run(events + [e]) == Step(Run(events), e)
  {
    assert (events + [e])[..|events|] == events;
  }

  lemma TwoQueued(q: Queue, c: Command)
    requires q.commands == [c, c] && q.sent == [] && q.list == [1, 0] && PendingOf(q, 0) == []
    requires c.slave == 0 && !c.urgent
    ensures !InOrder(q, 0)
  {
    assert q.list[1..] == [0] && [0][1..] == [];
    assert Picks(q.commands, 0, [0]) == [0];
    assert Line(q, 0)[0] == 1 && Line(q, 0)[1] == 0;
  }
}
