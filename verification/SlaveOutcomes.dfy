/** What becomes of a command: where each request, answer and handle leaves it. */
module SlaveOutcomes {
  import opened Errors
  import opened Sequences
  import opened SlaveQueue
  import opened SlaveSteps
  import opened SlaveLines
  import opened SlaveHandles
  import opened SlaveRuns

  function CommandsOf(during: seq<Issue>): (commands: seq<Command>)
    ensures |commands| == |during| && forall k :: 0 <= k < |during| ==> commands[k] == during[k].command
  {
    seq(|during|, k requires 0 <= k < |during| => during[k].command)
  }

  lemma CommandsOfNext(during: seq<Issue>)
    requires during != []
    ensures CommandsOf(during) == CommandsOf(during[..|during| - 1]) + [during[|during| - 1].command]
  {
  }

  // ---------------------------------------------------------------- requests

  /** Where the `k`-th of some requests is when all have been issued: refused when the slave is
      unknown or cannot be launched, waiting when it has no handle, and else queued, unless
      the timer cannot be had yet. */
  function PlaceOf(q: Queue, during: seq<Issue>, k: nat): Place
    requires k < |during|
  {
    var i := during[k];
    if i.command.slave !in q.rpcs then Gone(Answered)
    else if q.rpcs[i.command.slave].handle >= 0 then (if Stays(q, during, k) then Queued else Gone(NoTimer))
    else if i.launch.Fails? then Gone(Answered)
    else Pending
  }

  lemma PlaceOfNext(q: Queue, during: seq<Issue>)
    requires Inv(q) && during != []
    ensures var n := |during| - 1; var m := AskedAll(q, during[..n]);
            Destination(m, during[n].command, during[n].launch) == PlaceOf(q, during, n)
  {
    var n := |during| - 1;
    AskedAllMoves(q, during[..n]);
    QueuedWhen(q, during, n);
    SameReady(q, AskedAll(q, during[..n]), during[n].command.slave);
  }

  function PlacesOf(q: Queue, during: seq<Issue>): (places: seq<Place>)
    ensures |places| == |during| && forall k :: 0 <= k < |during| ==> places[k] == PlaceOf(q, during, k)
  {
    seq(|during|, k requires 0 <= k < |during| => PlaceOf(q, during, k))
  }

  lemma PlacesOfNext(q: Queue, during: seq<Issue>)
    requires during != []
    ensures PlacesOf(q, during) == PlacesOf(q, during[..|during| - 1]) + [PlaceOf(q, during, |during| - 1)]
  {
    var n := |during| - 1;
    forall k | 0 <= k < n ensures PlaceOf(q, during[..n], k) == PlaceOf(q, during, k) {
      assert during[..n][..k] == during[..k];
    }
  }

  /** All requests are issued, in order. */
  lemma {:induction false} AskedAllIssues(q: Queue, during: seq<Issue>)
    requires Inv(q)
    ensures AskedAll(q, during).commands == q.commands + CommandsOf(during)
    decreases |during|
  {
    if during == [] {
      assert q.commands + [] == q.commands;
    } else {
      var n := |during| - 1;
      AskedAllIssues(q, during[..n]);
      AskedSettles(AskedAll(q, during[..n]), during[n]);
      Associative(q.commands, CommandsOf(during[..n]), [during[n].command]);
      CommandsOfNext(during);
    }
  }

  lemma SettledPlaces(m: Queue, r: Queue, c: Command, where: Place)
    requires Settled(m, r, c, |m.place|, where) && |r.place| == |m.place| + 1
    ensures r.place == m.place + [where]
  {
  }

  /** And each is where it should be. */
  lemma {:induction false} AskedAllPlaces(q: Queue, during: seq<Issue>)
    requires Inv(q)
    ensures AskedAll(q, during).place == q.place + PlacesOf(q, during)
    decreases |during|
  {
    if during == [] {
      assert q.place + [] == q.place;
    } else {
      var n := |during| - 1;
      var m, last := AskedAll(q, during[..n]), during[n];
      AskedAllPlaces(q, during[..n]);
      AskedSettles(m, last);
      PlaceOfNext(q, during);
      SettledPlaces(m, Asked(m, last), last.command, PlaceOf(q, during, n));
      Associative(q.place, PlacesOf(q, during[..n]), [PlaceOf(q, during, n)]);
      PlacesOfNext(q, during);
    }
  }

  /** A request is refused exactly when it returns an error. */
  lemma VerdictTells(q: Queue, i: Issue)
    requires Inv(q) && (i.launch.Fails? ==> i.launch.error < 0)
    ensures Verdict(q, i) < 0 <==> PlaceOf(q, [i], 0) == Gone(Answered)
    ensures Verdict(q, i) <= 0
    ensures At(Asked(q, i), |q.place|, PlaceOf(q, [i], 0))
    ensures Asked(q, i).commands == q.commands + [i.command]
  {
    AskedAllPlaces(q, [i]);
    AskedAllIssues(q, [i]);
    assert [i][..0] == [];
    assert AskedAll(q, [i]) == Asked(q, i);
    assert CommandsOf([i]) == [i.command];
  }

  // ---------------------------------------------------------------- answers

  /** An answer: the command is answered and gone, its callback has run once more if there is
      one, the requests of that callback are issued, and nothing else has happened. */
  lemma RepliedIs(q: Queue, id: Id, during: seq<Issue>)
    requires Inv(q) && At(q, id, Sent)
    ensures var r := Replied(q, id, during);
            && At(r, id, Gone(Answered)) && id < |q.called| == |q.commands| <= |r.called|
            && r.called[id] == q.called[id] + (if q.commands[id].callback then 1 else 0)
            && r.commands == q.commands + CommandsOf(during) && |r.place| == |q.place| + |during|
            && forall i: Id :: i < |q.place| && i != id ==> r.place[i] == q.place[i]
  {
    CallKeeps(q, id);
    var m := AskedAll(Call(q, id), during);
    AskedAllIssues(Call(q, id), during);
    assert Replied(q, id, during) == Destroy(m, id, Answered);
    CalledIs(q, id);
    CalledIs(Replied(q, id, during), id);
  }

  lemma CalledIs(q: Queue, id: Id)
    requires Inv(q) && id < |q.place|
    ensures |q.called| == |q.place| == |q.commands|
    ensures q.called[id]
            == if q.commands[id].callback && (q.place[id] == Called || q.place[id] == Gone(Answered)) then 1 else 0
  {
  }

  /** Each of these requests is where a request should be. */
  lemma RepliedPlaces(q: Queue, id: Id, during: seq<Issue>)
    requires Inv(q) && At(q, id, Sent)
    ensures Replied(q, id, during).place == q.place[id := Gone(Answered)] + PlacesOf(q, during)
  {
    CallKeeps(q, id);
    var c := Call(q, id);
    AskedAllPlaces(c, during);
    SamePlaces(q, c, during);
    PlacesAround(q.place, id, PlacesOf(q, during));
  }

  lemma PlacesAround(places: seq<Place>, id: Id, more: seq<Place>)
    requires id < |places|
    ensures (places[id := Called] + more)[id := Gone(Answered)] == places[id := Gone(Answered)] + more
  {
  }

  lemma SamePlaces(q: Queue, m: Queue, during: seq<Issue>)
    requires m.rpcs == q.rpcs && m.timer == q.timer && m.failures == q.failures
    ensures PlacesOf(m, during) == PlacesOf(q, during)
  {
    forall k | 0 <= k < |during| ensures PlaceOf(m, during, k) == PlaceOf(q, during, k) {
      SamePushes(q, m, during[..k]);
    }
  }

  lemma {:induction false} SamePushes(q: Queue, m: Queue, during: seq<Issue>)
    requires m.rpcs == q.rpcs
    ensures Pushes(m, during) == Pushes(q, during)
    decreases |during|
  {
    if during != [] {
      SamePushes(q, m, during[..|during| - 1]);
    }
  }

  // ---------------------------------------------------------------- handles

  /** A slave gets its handle: the requests of the activation callbacks are issued, and with
      the handle they need not wait. */
  lemma ConnectedIssues(q: Queue, s: Slave, handle: int, purge: bool, during: seq<Issue>)
    requires Inv(q) && s in q.rpcs && handle >= 0
    ensures var r, named := Connected(q, s, handle, purge, during), SetHandle(q, s, handle);
            && r.commands == q.commands + CommandsOf(during) && |r.place| == |q.place| + |during|
            && r.place[|q.place|..] == PlacesOf(named, during)
  {
    SetHandleKeeps(q, s, handle);
    var named := SetHandle(q, s, handle);
    AskedAllIssues(named, during);
    AskedAllPlaces(named, during);
    FlushedTail(named, during, s, AskedAll(named, during), purge);
  }

  lemma FlushedTail(q: Queue, during: seq<Issue>, s: Slave, m: Queue, purge: bool)
    requires Ready(q, s) && |q.commands| == |q.place| && Inv(m) && s in m.rpcs
    requires m.place == q.place + PlacesOf(q, during) && m.commands == q.commands + CommandsOf(during)
    ensures var r := FlushedAll(m, s, purge);
            r.commands == m.commands && |r.place| == |m.place| && r.place[|q.place|..] == PlacesOf(q, during)
  {
    FlushingStart(m, s, purge);
    var rest := FlushedAllFlushes(m, m, s, purge, [], []);
    var r := FlushedAll(m, s, purge);
    forall i: Id | |q.place| <= i < |r.place| ensures r.place[i] == m.place[i] {
      NotForTheSlave(q, during, s, m, i);
    }
    SameTail(r.place, m.place, |q.place|);
    assert m.place[|q.place|..] == PlacesOf(q, during);
  }

  lemma SameTail(a: seq<Place>, b: seq<Place>, n: nat)
    requires n <= |a| == |b| && forall i :: n <= i < |a| ==> a[i] == b[i]
    ensures a[n..] == b[n..]
  {
  }

  lemma NotForTheSlave(q: Queue, during: seq<Issue>, s: Slave, m: Queue, i: Id)
    requires Ready(q, s) && |q.commands| == |q.place| <= i < |q.place| + |during|
    requires m.place == q.place + PlacesOf(q, during) && m.commands == q.commands + CommandsOf(during)
    ensures !PendingFor(m, s, i)
  {
    var k := i - |q.place|;
    assert m.place[i] == PlacesOf(q, during)[k] == PlaceOf(q, during, k);
    assert m.commands[i] == CommandsOf(during)[k] == during[k].command;
  }

  /** A slave that becomes known has no handle and nothing waiting; a known one stays as it
      is. */
  lemma AttachedIs(q: Queue, s: Slave)
    requires Inv(q)
    ensures var r := Step(q, Attaching(s));
            && s in r.rpcs && (s !in q.rpcs ==> r.rpcs[s].handle < 0 && r.rpcs[s].pending == [])
            && (forall t :: t in q.rpcs ==> t in r.rpcs && r.rpcs[t] == q.rpcs[t])
            && r.place == q.place && r.list == q.list && r.commands == q.commands
  {
  }

  // ---------------------------------------------------------------- whole runs

  /** How a command has ended fits the command: no answer was missed, and only commands that
      create instances anew are purged. */
  ghost predicate FateFits(q: Queue, id: Id)
    requires id < |q.place| == |q.commands|
  {
    && (q.place[id] == Gone(SentOnly) ==> q.commands[id].noack)
    && (q.place[id] == Sent ==> !q.commands[id].noack)
    && (q.place[id] == Gone(Purged) ==> q.commands[id].create)
  }

  ghost predicate FatesFit(q: Queue) {
    |q.place| == |q.commands| && forall id: Id :: id < |q.place| ==> FateFits(q, id)
  }

  /** From `q` to `r` commands were added, none of them at its end by luck, and of the others
      some have moved fittingly. */
  lemma FatesGoOn(q: Queue, r: Queue)
    requires FatesFit(q) && |r.place| == |r.commands| && q.commands <= r.commands
    requires forall id: Id :: id < |r.place| ==> FateFits(r, id) || (id < |q.place| && r.place[id] == q.place[id])
    ensures FatesFit(r)
  {
    forall id: Id | id < |r.place| ensures FateFits(r, id) {
      if id < |q.place| && r.place[id] == q.place[id] {
        assert FateFits(q, id) && r.commands[id] == q.commands[id];
      }
    }
  }

  lemma AskedFates(q: Queue, i: Issue)
    requires Inv(q) && FatesFit(q)
    ensures FatesFit(Asked(q, i))
  {
    AskedSettles(q, i);
    FatesGoOn(q, Asked(q, i));
  }

  lemma {:induction false} AskedAllFates(q: Queue, during: seq<Issue>)
    requires Inv(q) && FatesFit(q)
    ensures FatesFit(AskedAll(q, during))
    decreases |during|
  {
    if during != [] {
      var n := |during| - 1;
      AskedAllFates(q, during[..n]);
      AskedFates(AskedAll(q, during[..n]), during[n]);
    }
  }

  lemma RepliedFates(q: Queue, id: Id, during: seq<Issue>)
    requires Inv(q) && At(q, id, Sent) && FatesFit(q)
    ensures FatesFit(Replied(q, id, during))
  {
    CallKeeps(q, id);
    FatesGoOn(q, Call(q, id));
    AskedAllFates(Call(q, id), during);
    var m := AskedAll(Call(q, id), during);
    FatesGoOn(m, Destroy(m, id, Answered));
  }

  lemma TickedFates(q: Queue, active: bool, taken: bool)
    requires Inv(q) && FatesFit(q)
    ensures FatesFit(Ticked(q, active, taken))
  {
    if q.list != [] {
      TickedConsumes(q, active, taken);
    }
    FatesGoOn(q, Ticked(q, active, taken));
  }

  lemma ConnectedFates(q: Queue, s: Slave, handle: int, purge: bool, during: seq<Issue>)
    requires Inv(q) && FatesFit(q)
    ensures FatesFit(Connected(q, s, handle, purge, during))
  {
    if s in q.rpcs {
      SetHandleKeeps(q, s, handle);
      FatesGoOn(q, SetHandle(q, s, handle));
      AskedAllFates(SetHandle(q, s, handle), during);
      FlushedFates(AskedAll(SetHandle(q, s, handle), during), s, purge);
    }
  }

  lemma FlushedFates(m: Queue, s: Slave, purge: bool)
    requires Inv(m) && FatesFit(m)
    ensures FatesFit(FlushedAll(m, s, purge))
  {
    if s in m.rpcs {
      FlushingStart(m, s, purge);
      var rest := FlushedAllFlushes(m, m, s, purge, [], []);
      var r := FlushedAll(m, s, purge);
      forall id: Id | id < |r.place| ensures FateFits(r, id) || r.place[id] == m.place[id] {
        if PendingFor(m, s, id) {
          assert FlushedTo(m, r, purge, id);
        }
      }
      FatesGoOn(m, r);
    }
  }

  lemma DiedFates(q: Queue, s: Slave)
    requires Inv(q) && FatesFit(q)
    ensures FatesFit(Died(q, s))
  {
    if s in q.rpcs {
      DiedEmpties(q, s);
      FatesGoOn(q, Died(q, s));
    }
  }

  lemma StepFates(q: Queue, e: Event)
    requires Inv(q) && FatesFit(q)
    ensures FatesFit(Step(q, e))
  {
    match e {
      case Attaching(s) => FatesGoOn(q, Attach(q, s));
      case Asking(i) => AskedFates(q, i);
      case Ticking(active, taken) => TickedFates(q, active, taken);
      case Answering(id, during) =>
        if At(q, id, Sent) {
          RepliedFates(q, id, during);
        }
      case Connecting(s, handle, purge, during) => ConnectedFates(q, s, handle, purge, during);
      case Dying(s) => DiedFates(q, s);
      case TimersFailing(n) => FatesGoOn(q, q.(failures := n));
    }
  }

  /** Over any run: a command that ended without an answer needed none, or ran out of attempts,
      was purged and would have created an instance anew, or found no timer; and each command
      handed over that needs an answer has had it or still waits for it. */
  lemma {:induction false} FatesFitOverRuns(events: seq<Event>)
    ensures FatesFit(Run(events))
    decreases |events|
  {
    if events != [] {
      FatesFitOverRuns(events[..|events| - 1]);
      StepFates(Run(events[..|events| - 1]), events[|events| - 1]);
    }
  }

  /** The callback of a command has run at most once. It has run if and only if the command
      was answered; a destroyed command whose callback never ran needed no answer, ran out of
      attempts, found no timer, or was purged and would have created an instance anew. */
  lemma CallbackAtMostOnce(events: seq<Event>, id: Id)
    requires id < |Run(events).place| && Run(events).commands[id].callback
    ensures var q := Run(events);
            && q.called[id] == (if q.place[id] == Gone(Answered) then 1 else 0)
            && (q.place[id].Gone? && q.called[id] == 0 ==>
                  || (q.place[id].fate == SentOnly && q.commands[id].noack)
                  || (q.place[id].fate == Purged && q.commands[id].create)
                  || q.place[id].fate == Expired || q.place[id].fate == NoTimer)
  {
    RunAtRest(events);
    FatesFitOverRuns(events);
    var q := Run(events);
    assert AtRest(q.place[id]) && FateFits(q, id);
    CalledIs(q, id);
  }
}
