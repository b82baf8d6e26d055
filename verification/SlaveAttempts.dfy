/** How often it is tried to hand a command over. */
module SlaveAttempts {
  import opened SlaveQueue
  import opened SlaveSteps
  import opened SlaveLines

  /** From `q` to `r` nothing was tried: the attempts left are the same, nobody has run out of
      them, and new commands have all of them. */
  ghost predicate Untried(q: Queue, r: Queue) {
    && |q.ttl| == |q.place| <= |r.place| == |r.ttl|
    && (forall id: Id :: id < |q.place| ==>
          r.ttl[id] == q.ttl[id] && (r.place[id] == Gone(Expired) <==> q.place[id] == Gone(Expired)))
    && (forall id: Id :: |q.place| <= id < |r.place| ==> r.ttl[id] == 3 && r.place[id] != Gone(Expired))
  }

  lemma UntriedOn(q: Queue, m: Queue, r: Queue)
    requires Untried(q, m) && Untried(m, r)
    ensures Untried(q, r)
  {
  }

  lemma PushedUntried(q: Queue, id: Id, front: bool)
    requires Inv(q) && At(q, id, Held)
    ensures Untried(q, Pushed(q, id, front))
  {
  }

  lemma RefusedUntried(q: Queue, id: Id)
    requires Inv(q) && At(q, id, Held)
    ensures Untried(q, Refused(q, id))
  {
  }

  lemma PendedUntried(q: Queue, id: Id, front: bool)
    requires Inv(q) && At(q, id, Held) && q.commands[id].slave in q.rpcs
    ensures Untried(q, Pend(q, id, front))
  {
  }

  lemma DispatchedUntried(q: Queue, id: Id, launch: Launch)
    requires Inv(q) && At(q, id, Held)
    ensures Untried(q, Dispatched(q, id, launch))
  {
    var c := q.commands[id];
    PushedUntried(q, id, c.urgent);
    RefusedUntried(q, id);
    if c.slave in q.rpcs {
      PendedUntried(q, id, c.urgent);
    }
  }

  lemma CreatedUntried(q: Queue, c: Command)
    requires Inv(q)
    ensures Untried(q, Create(q, c))
  {
  }

  lemma AskedUntried(q: Queue, i: Issue)
    requires Inv(q)
    ensures Untried(q, Asked(q, i))
  {
    CreateKeeps(q, i.command);
    CreatedUntried(q, i.command);
    DispatchedUntried(Create(q, i.command), |q.commands|, i.launch);
    UntriedOn(q, Create(q, i.command), Asked(q, i));
  }

  lemma {:induction false} AskedAllUntried(q: Queue, during: seq<Issue>)
    requires Inv(q)
    ensures Untried(q, AskedAll(q, during))
    decreases |during|
  {
    if during != [] {
      var m := AskedAll(q, during[..|during| - 1]);
      AskedAllUntried(q, during[..|during| - 1]);
      AskedUntried(m, during[|during| - 1]);
      UntriedOn(q, m, AskedAll(q, during));
    }
  }

  lemma RepliedUntried(q: Queue, id: Id, during: seq<Issue>)
    requires Inv(q) && At(q, id, Sent)
    ensures Untried(q, Replied(q, id, during))
  {
    CallKeeps(q, id);
    AskedAllUntried(Call(q, id), during);
    var m := AskedAll(Call(q, id), during);
    UntriedOn(q, Call(q, id), m);
    assert At(m, id, Called);
    UntriedOn(q, m, Replied(q, id, during));
  }

  lemma FlushedOneUntried(q: Queue, s: Slave, purge: bool)
    requires Inv(q) && PendingOf(q, s) != []
    ensures Untried(q, FlushedOne(q, s, purge))
  {
    UnpendKeeps(q, s);
    var m, id := Unpend(q, s), q.rpcs[s].pending[0];
    PushedUntried(m, id, false);
    assert Untried(q, m);
    UntriedOn(q, m, FlushedOne(q, s, purge));
  }

  lemma {:induction false} FlushedAllUntried(q: Queue, s: Slave, purge: bool)
    requires Inv(q)
    ensures Untried(q, FlushedAll(q, s, purge))
    decreases |PendingOf(q, s)|
  {
    if PendingOf(q, s) != [] {
      var m := FlushedOne(q, s, purge);
      FlushedOneUntried(q, s, purge);
      FlushedOneShortens(q, s, purge);
      FlushedAllUntried(m, s, purge);
      UntriedOn(q, m, FlushedAll(q, s, purge));
    }
  }

  lemma ConnectedUntried(q: Queue, s: Slave, handle: int, purge: bool, during: seq<Issue>)
    requires Inv(q)
    ensures Untried(q, Connected(q, s, handle, purge, during))
  {
    if s in q.rpcs {
      SetHandleKeeps(q, s, handle);
      var named := SetHandle(q, s, handle);
      AskedAllUntried(named, during);
      FlushedAllUntried(AskedAll(named, during), s, purge);
      UntriedOn(q, named, AskedAll(named, during));
      UntriedOn(q, AskedAll(named, during), Connected(q, s, handle, purge, during));
    }
  }

  lemma {:induction false} RefusedPendingUntried(q: Queue, s: Slave)
    requires Inv(q)
    ensures Untried(q, RefusedPending(q, s))
    decreases |PendingOf(q, s)|
  {
    if PendingOf(q, s) != [] {
      UnpendKeeps(q, s);
      RefusedUntried(Unpend(q, s), q.rpcs[s].pending[0]);
      assert Untried(q, Unpend(q, s));
      UntriedOn(q, Unpend(q, s), RefusedHead(q, s));
      RefusedHeadShortens(q, s);
      RefusedPendingUntried(RefusedHead(q, s), s);
      UntriedOn(q, RefusedHead(q, s), RefusedPending(q, s));
    }
  }

  lemma {:induction false} RefusedQueuedUntried(q: Queue, s: Slave, i: nat)
    requires Inv(q)
    ensures Untried(q, RefusedQueued(q, s, i))
    decreases |q.list| - i
  {
    if i < |q.list| {
      if IsFor(q, q.list[i], s) {
        PullKeeps(q, i);
        var m := Refused(Pull(q, i), q.list[i]);
        RefusedUntried(Pull(q, i), q.list[i]);
        RefusedSettles(Pull(q, i), q.list[i]);
        assert Untried(q, Pull(q, i));
        UntriedOn(q, Pull(q, i), m);
        RefusedQueuedUntried(m, s, i);
        UntriedOn(q, m, RefusedQueued(q, s, i));
      } else {
        RefusedQueuedUntried(q, s, i + 1);
      }
    }
  }

  lemma DiedUntried(q: Queue, s: Slave)
    requires Inv(q)
    ensures Untried(q, Died(q, s))
  {
    RefusedPendingUntried(q, s);
    RefusedQueuedUntried(q, s, 0);
  }

  // ---------------------------------------------------------------- attempts

  /** The event is an attempt to hand over `id`, and com-core does not take it. */
  predicate Spurned(q: Queue, e: Event, id: Id) {
    && e.Ticking? && e.active && !e.taken && q.list != [] && q.list[0] == id && id < |q.commands|
    && q.commands[id].slave in q.rpcs && q.rpcs[q.commands[id].slave].handle >= 0
  }

  /** `id` is the command just popped. */
  lemma DeliveredTries(m: Queue, id: Id, active: bool, taken: bool)
    requires Inv(m) && At(m, id, Held)
    ensures var r, c := Delivered(m, id, active, taken), m.commands[id];
            var spurned := active && !taken && c.slave in m.rpcs && m.rpcs[c.slave].handle >= 0;
            && |r.place| == |r.ttl| == |m.place| == |m.ttl| && m.ttl[id] > 0
            && (forall i: Id :: i < |m.place| && i != id ==> r.ttl[i] == m.ttl[i] && r.place[i] == m.place[i])
            && r.ttl[id] == m.ttl[id] - (if spurned && m.ttl[id] > 1 then 1 else 0)
            && (r.place[id] == Gone(Expired) <==> spurned && m.ttl[id] == 1)
  {
    if m.ttl[id] > 1 {
      RetryKeeps(m, id);
    }
  }

  lemma TickTries(q: Queue, active: bool, taken: bool, id: Id)
    requires Inv(q) && id < |q.place|
    ensures var r, spurned := Ticked(q, active, taken), Spurned(q, Ticking(active, taken), id);
            && |r.place| == |r.ttl| == |q.place| == |q.ttl| && (spurned ==> q.place[id] == Queued && q.ttl[id] > 0)
            && r.ttl[id] == q.ttl[id] - (if spurned && q.ttl[id] > 1 then 1 else 0)
            && (r.place[id] == Gone(Expired) <==> q.place[id] == Gone(Expired) || (spurned && q.ttl[id] == 1))
  {
    if q.list != [] {
      PopKeeps(q);
      var m, first := Pop(q), q.list[0];
      assert At(q, first, Queued);
      assert m.ttl == q.ttl && m.commands == q.commands && m.rpcs == q.rpcs && |m.place| == |q.place|;
      assert id != first ==> m.place[id] == q.place[id];
      DeliveredTries(m, first, active, taken);
      assert Ticked(q, active, taken) == Delivered(m, first, active, taken);
    }
  }

  lemma StepTries(q: Queue, e: Event, id: Id)
    requires Inv(q) && id < |q.place|
    ensures var r, spurned := Step(q, e), Spurned(q, e, id);
            && |r.place| == |r.ttl| >= |q.place| == |q.ttl| && (spurned ==> q.place[id] == Queued && q.ttl[id] > 0)
            && r.ttl[id] == q.ttl[id] - (if spurned && q.ttl[id] > 1 then 1 else 0)
            && (r.place[id] == Gone(Expired) <==> q.place[id] == Gone(Expired) || (spurned && q.ttl[id] == 1))
  {
    match e
    case Attaching(s) =>
    case Asking(i) => AskedUntried(q, i);
    case Ticking(active, taken) => TickTries(q, active, taken, id);
    case Answering(i, during) =>
      if At(q, i, Sent) {
        RepliedUntried(q, i, during);
      }
    case Connecting(s, handle, purge, during) => ConnectedUntried(q, s, handle, purge, during);
    case Dying(s) => DiedUntried(q, s);
    case TimersFailing(n) =>
  }

  /** A command made by an event. */
  lemma StepStarts(q: Queue, e: Event, id: Id)
    requires Inv(q) && |q.place| <= id < |Step(q, e).place|
    ensures var r := Step(q, e); |r.ttl| == |r.place| && r.ttl[id] == 3 && r.place[id] != Gone(Expired)
  {
    match e
    case Asking(i) => AskedUntried(q, i);
    case Answering(i, during) =>
      if At(q, i, Sent) {
        RepliedUntried(q, i, during);
      }
    case Connecting(s, handle, purge, during) => ConnectedUntried(q, s, handle, purge, during);
    case Dying(s) => DiedUntried(q, s);
    case Ticking(active, taken) => TickStartsNone(q, active, taken);
    case _ =>
  }

  lemma TickStartsNone(q: Queue, active: bool, taken: bool)
    requires Inv(q)
    ensures |Ticked(q, active, taken).place| == |q.place|
  {
    if q.list != [] {
      TickedConsumes(q, active, taken);
    }
  }

  /** How often com-core has not taken the command. */
  function Refusals(events: seq<Event>, id: Id): nat {
    if events == [] then 0
    else
      var n := |events| - 1;
      Refusals(events[..n], id) + if Spurned(Run(events[..n]), events[n], id) then 1 else 0
  }

  lemma {:induction false} NotBefore(events: seq<Event>, id: Id)
    requires id >= |Run(events).place|
    ensures Refusals(events, id) == 0
    decreases |events|
  {
    if events != [] {
      var n := |events| - 1;
      var q := Run(events[..n]);
      if id < |q.place| {
        StepTries(q, events[n], id);
        assert false;
      }
      NotBefore(events[..n], id);
      assert Shape(q);
    }
  }

  /** Over any run a command has three attempts, counting all that com-core does not take: it
      is given up with the third, and not before. */
  lemma {:induction false} ThreeAttempts(events: seq<Event>, id: Id)
    requires id < |Run(events).place|
    ensures var q, n := Run(events), Refusals(events, id);
            && n <= 3 && (q.place[id] == Gone(Expired) <==> n == 3)
            && |q.ttl| == |q.place| && (n < 3 ==> q.ttl[id] == 3 - n)
    decreases |events|
  {
    var n := |events| - 1;
    var q := Run(events[..n]);
    if id < |q.place| {
      ThreeAttempts(events[..n], id);
      StepTries(q, events[n], id);
    } else {
      NotBefore(events[..n], id);
      StepStarts(q, events[n], id);
      assert Shape(q);
    }
  }
}
