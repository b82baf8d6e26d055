/** What the functions of `slave_rpc.c` do to the order of each slave's commands, and to the
    commands of a dying slave. */
module SlaveLines {
  import opened Sequences
  import opened SlaveQueue
  import opened SlaveOrder
  import opened SlaveSteps

  // ---------------------------------------------------------------- order, step by step

  /** A slave whose line is in order, and which has nothing waiting once it has a handle,
      stays so. */
  ghost predicate KeepsOrder(q: Queue, r: Queue, s: Slave) {
    InOrder(q, s) && Flushed(q, s) ==> InOrder(r, s) && Flushed(r, s)
  }

  lemma SameLine(q: Queue, r: Queue, s: Slave)
    requires r.commands == q.commands && r.sent == q.sent && r.list == q.list && PendingOf(r, s) == PendingOf(q, s)
    ensures InOrder(q, s) <==> InOrder(r, s)
  {
    assert Line(r, s) == Line(q, s);
  }

  /** Lists mention only commands issued. */
  lemma ListsAreIssued(q: Queue, s: Slave)
    requires Inv(q)
    ensures forall id :: id in q.sent || id in q.list || id in PendingOf(q, s) ==> id < |q.commands|
    ensures forall id :: id in Line(q, s) ==> id < |q.commands|
  {
    forall id | id in q.sent || id in q.list || id in PendingOf(q, s) ensures id < |q.commands| {
      assert id in q.list ==> At(q, id, Queued);
      assert id in PendingOf(q, s) ==> PendingFor(q, s, id);
    }
  }

  function One(commands: seq<Command>, s: Slave, id: Id, there: bool): seq<Id> {
    if there && Ordinary(commands, s, id) then [id] else []
  }

  // ---------------------------------------------------------------- a request

  /** What a request adds to the ordinary commands of `s` in the queue. */
  lemma AskedPicks(q: Queue, i: Issue, s: Slave)
    requires Inv(q)
    ensures var r, id := Asked(q, i), |q.commands|;
            var where := Destination(q, i.command, i.launch);
            && Picks(r.commands, s, r.sent) == Picks(q.commands, s, q.sent)
            && Picks(r.commands, s, r.list) == Picks(q.commands, s, q.list) + One(r.commands, s, id, where == Queued)
  {
    AskedSettles(q, i);
    ListsAreIssued(q, s);
    PicksGrow(q.commands, [i.command], s, q.sent);
    PicksGrow(q.commands, [i.command], s, q.list);
    PicksInsert(q.commands + [i.command], s, q.list, |q.commands|, i.command.urgent);
  }

  lemma AskedPendingOf(q: Queue, i: Issue, s: Slave)
    requires Inv(q)
    ensures PendingOf(Asked(q, i), s)
            == if Destination(q, i.command, i.launch) != Pending || s != i.command.slave then PendingOf(q, s)
               else if i.command.urgent then [|q.commands|] + PendingOf(q, s) else PendingOf(q, s) + [|q.commands|]
  {
    AskedSettles(q, i);
  }

  /** And to those waiting. */
  lemma AskedPending(q: Queue, i: Issue, s: Slave)
    requires Inv(q)
    ensures var r, id := Asked(q, i), |q.commands|;
            Picks(r.commands, s, PendingOf(r, s))
            == Picks(q.commands, s, PendingOf(q, s))
               + One(r.commands, s, id, Destination(q, i.command, i.launch) == Pending)
  {
    AskedSettles(q, i);
    AskedPendingOf(q, i, s);
    ListsAreIssued(q, s);
    var p, id, all := PendingOf(q, s), |q.commands|, q.commands + [i.command];
    PicksGrow(q.commands, [i.command], s, p);
    PendingGrows(all, s, p, id, i.command.urgent);
  }

  lemma PendingGrows(commands: seq<Command>, s: Slave, p: seq<Id>, id: Id, front: bool)
    requires Ordinary(commands, s, id) ==> !front
    ensures Picks(commands, s, if front then [id] + p else p + [id])
            == Picks(commands, s, p) + One(commands, s, id, true)
    ensures Picks(commands, s, p) + [] == Picks(commands, s, p)
  {
    PicksInsert(commands, s, p, id, front);
  }

  lemma LineGrows(a: seq<Id>, b: seq<Id>, p: seq<Id>, x: seq<Id>, y: seq<Id>, id: Id)
    requires (x == [] || x == [id]) && (y == [] || y == [id]) && (x == [] || (y == [] && p == []))
    ensures a + (b + x) + (p + y) == a + b + p || a + (b + x) + (p + y) == (a + b + p) + [id]
  {
    if x != [] {
      assert a + (b + x) + (p + y) == (a + b + p) + x;
    } else {
      assert a + (b + x) + (p + y) == (a + b + p) + y;
      assert (a + b + p) + [] == a + b + p;
    }
  }

  /** The line of a slave grows by the command, or not. */
  lemma AskedLine(q: Queue, i: Issue, s: Slave)
    requires Inv(q) && Flushed(q, s)
    ensures Line(Asked(q, i), s) == Line(q, s) || Line(Asked(q, i), s) == Line(q, s) + [|q.commands|]
  {
    var where, commands := Destination(q, i.command, i.launch), Asked(q, i).commands;
    AskedPicks(q, i, s);
    AskedPending(q, i, s);
    var x, y := One(commands, s, |q.commands|, where == Queued), One(commands, s, |q.commands|, where == Pending);
    PendingOnlyWithout(q, i, s);
    LineGrows(Picks(q.commands, s, q.sent), Picks(q.commands, s, q.list), Picks(q.commands, s, PendingOf(q, s)),
              x, y, |q.commands|);
  }

  lemma PendingOnlyWithout(q: Queue, i: Issue, s: Slave)
    requires Inv(q) && Flushed(q, s)
    ensures One(Asked(q, i).commands, s, |q.commands|, Destination(q, i.command, i.launch) == Queued) != [] ==>
              PendingOf(q, s) == []
  {
    AskedSettles(q, i);
  }

  /** A request upsets nobody's order. */
  lemma AskedKeepsOrder(q: Queue, i: Issue, s: Slave)
    requires Inv(q)
    ensures KeepsOrder(q, Asked(q, i), s)
  {
    if InOrder(q, s) && Flushed(q, s) {
      AskedLine(q, i, s);
      ListsAreIssued(q, s);
      IncreasingSnoc(Line(q, s), |q.commands|);
      AskedKeepsFlushed(q, i, s);
    }
  }

  lemma AskedKeepsFlushed(q: Queue, i: Issue, s: Slave)
    requires Inv(q) && Flushed(q, s)
    ensures Flushed(Asked(q, i), s)
  {
    AskedSettles(q, i);
  }

  lemma {:induction false} AskedAllKeepsOrder(q: Queue, during: seq<Issue>, s: Slave)
    requires Inv(q)
    ensures KeepsOrder(q, AskedAll(q, during), s)
    decreases |during|
  {
    if during != [] {
      var before := during[..|during| - 1];
      AskedAllKeepsOrder(q, before, s);
      AskedKeepsOrder(AskedAll(q, before), during[|during| - 1], s);
    }
  }

  // ---------------------------------------------------------------- the timer

  /** The effect of one turn of the consumer on the first command queued. */
  ghost predicate Consumed(q: Queue, r: Queue, active: bool, taken: bool) {
    && q.list != [] && Shape(q) && Shape(r)
    && r.commands == q.commands && r.rpcs == q.rpcs && r.timer && r.failures == q.failures
    && var id := q.list[0];
       && id < |q.place| == |r.place| && OnlyMoved(q.place, r.place, id) && 1 <= q.ttl[id] <= DEFAULT_CMD_TTL
       && var s := q.commands[id].slave;
          if !active || s !in q.rpcs || q.rpcs[s].handle < 0 then
            r.place[id] == Gone(Answered) && r.list == q.list[1..] && r.sent == q.sent
          else if taken then
            r.place[id] == (if q.commands[id].noack then Gone(SentOnly) else Sent)
            && r.list == q.list[1..] && r.sent == q.sent + [id]
          else if q.ttl[id] == 1 then
            r.place[id] == Gone(Expired) && r.list == q.list[1..] && r.sent == q.sent
          else
            r.place[id] == Queued && r.ttl[id] == q.ttl[id] - 1 && r.list == q.list && r.sent == q.sent
  }

  /** One tick: handed over, refused, tried again in front or given up after three
      attempts. */
  lemma TickedConsumes(q: Queue, active: bool, taken: bool)
    requires Inv(q) && q.list != []
    ensures Consumed(q, Ticked(q, active, taken), active, taken)
  {
    PopKeeps(q);
    assert [q.list[0]] + q.list[1..] == q.list;
  }

  lemma LineLosesHead(a: seq<Id>, one: seq<Id>, b: seq<Id>, p: seq<Id>)
    ensures a + (one + b) + p == a + one + (b + p)
    ensures a + b + p == a + (b + p)
    ensures (a + one) + b + p == a + (one + b) + p
  {
  }

  /** Neither does a tick, with or without retries. */
  lemma TickedKeepsOrder(q: Queue, active: bool, taken: bool, s: Slave)
    requires Inv(q)
    ensures KeepsOrder(q, Ticked(q, active, taken), s)
  {
    var r := Ticked(q, active, taken);
    if q.list == [] {
      SameLine(q, r, s);
    } else if InOrder(q, s) {
      TickedConsumes(q, active, taken);
      var id := q.list[0];
      var a, one := Picks(q.commands, s, q.sent), One(q.commands, s, id, true);
      var b, p := Picks(q.commands, s, q.list[1..]), Picks(q.commands, s, PendingOf(q, s));
      assert Picks(q.commands, s, q.list) == one + b;
      LineLosesHead(a, one, b, p);
      if r.list == q.list[1..] {
        if r.sent == q.sent {
          IncreasingWithout(a, one, b + p);
        } else {
          PicksInsert(q.commands, s, q.sent, id, false);
        }
      }
    }
  }

  /** Nor does an answer, whatever its callback issues. */
  lemma RepliedKeepsOrder(q: Queue, id: Id, during: seq<Issue>, s: Slave)
    requires Inv(q) && At(q, id, Sent)
    ensures KeepsOrder(q, Replied(q, id, during), s)
  {
    CallKeeps(q, id);
    var c := Call(q, id);
    SameLine(q, c, s);
    var m := AskedAll(c, during);
    AskedAllKeepsOrder(c, during, s);
    SameLine(m, Replied(q, id, during), s);
  }

  // ---------------------------------------------------------------- a slave dies

  lemma LineWithout(first: seq<Id>, a: seq<Id>, one: seq<Id>, b: seq<Id>, last: seq<Id>)
    ensures Increasing(first + (a + one + b) + last) ==> Increasing(first + (a + b) + last)
  {
    assert first + (a + one + b) + last == (first + a) + one + (b + last);
    assert first + (a + b) + last == (first + a) + (b + last);
    if Increasing((first + a) + one + (b + last)) {
      IncreasingWithout(first + a, one, b + last);
    }
  }

  lemma DropQueued(q: Queue, r: Queue, k: nat, t: Slave)
    requires k < |q.list| && r.list == q.list[..k] + q.list[k + 1..]
    requires r.commands == q.commands && r.sent == q.sent && r.rpcs == q.rpcs
    ensures KeepsOrder(q, r, t)
  {
    var a, one := Picks(q.commands, t, q.list[..k]), One(q.commands, t, q.list[k], true);
    var b := Picks(q.commands, t, q.list[k + 1..]);
    assert Picks(q.commands, t, q.list) == a + one + b by {
      assert q.list == q.list[..k] + [q.list[k]] + q.list[k + 1..];
      PicksConcat(q.commands, t, q.list[..k] + [q.list[k]], q.list[k + 1..]);
      PicksInsert(q.commands, t, q.list[..k], q.list[k], false);
    }
    PicksConcat(q.commands, t, q.list[..k], q.list[k + 1..]);
    var first, last := Picks(q.commands, t, q.sent), Picks(q.commands, t, PendingOf(q, t));
    LineWithout(first, a, one, b, last);
  }

  lemma DropPending(q: Queue, r: Queue, s: Slave, t: Slave)
    requires s in q.rpcs && q.rpcs[s].pending != []
    requires r.commands == q.commands && r.sent == q.sent && r.list == q.list
    requires r.rpcs == q.rpcs[s := q.rpcs[s].(pending := q.rpcs[s].pending[1..])]
    ensures KeepsOrder(q, r, t)
  {
    if t == s {
      var a := Picks(q.commands, s, q.sent) + Picks(q.commands, s, q.list);
      var one := One(q.commands, s, PendingOf(q, s)[0], true);
      var tail := Picks(q.commands, s, PendingOf(r, s));
      PicksHead(q.commands, s, PendingOf(q, s));
      Associative(a, one, tail);
      if InOrder(q, s) {
        IncreasingWithout(a, one, tail);
      }
    } else {
      assert PendingOf(r, t) == PendingOf(q, t);
      SameLine(q, r, t);
    }
  }

  /** Some of the commands for `s` that were at `from` have been answered with nothing. */
  ghost predicate Emptying(q: Queue, r: Queue, s: Slave, from: Place) {
    && r.commands == q.commands && r.sent == q.sent && |r.place| == |q.place| == |q.commands|
    && forall id: Id :: id < |q.place| ==>
         r.place[id] == q.place[id]
         || (q.place[id] == from && q.commands[id].slave == s && r.place[id] == Gone(Answered))
  }

  lemma EmptyingOn(q: Queue, m: Queue, r: Queue, s: Slave, from: Place)
    requires Emptying(q, m, s, from) && Emptying(m, r, s, from)
    ensures Emptying(q, r, s, from)
  {
  }

  lemma RefusedEmpties(q: Queue, m: Queue, id: Id, s: Slave, from: Place)
    requires Inv(m) && At(q, id, from) && At(m, id, Held) && q.place[id := Held] == m.place
    requires Inv(q) && IsFor(q, id, s) && m.commands == q.commands && m.sent == q.sent
    ensures Emptying(q, Refused(m, id), s, from)
    ensures Refused(m, id).list == m.list && Refused(m, id).rpcs == m.rpcs && Refused(m, id).commands == m.commands
  {
  }

  lemma {:induction false} RefusedPendingIs(q: Queue, s: Slave, t: Slave)
    requires Inv(q)
    ensures var r := RefusedPending(q, s);
            && Emptying(q, r, s, Pending) && KeepsOrder(q, r, t) && PendingOf(r, s) == []
            && (s in q.rpcs ==> r.rpcs[s].handle == q.rpcs[s].handle)
    decreases |PendingOf(q, s)|
  {
    if PendingOf(q, s) != [] {
      UnpendKeeps(q, s);
      var id := q.rpcs[s].pending[0];
      var m := RefusedHead(q, s);
      RefusedEmpties(q, Unpend(q, s), id, s, Pending);
      DropPending(q, m, s, t);
      RefusedPendingIs(m, s, t);
      EmptyingOn(q, m, RefusedPending(m, s), s, Pending);
    }
  }

  lemma RefusedAtDrops(q: Queue, s: Slave, i: nat, t: Slave)
    requires Inv(q) && i < |q.list| && IsFor(q, q.list[i], s) && At(q, q.list[i], Queued) && Inv(Pull(q, i))
    ensures var m := Refused(Pull(q, i), q.list[i]);
            Emptying(q, m, s, Queued) && KeepsOrder(q, m, t)
            && m.list == q.list[..i] + q.list[i + 1..] && m.commands == q.commands
  {
    RefusedEmpties(q, Pull(q, i), q.list[i], s, Queued);
    DropQueued(q, Refused(Pull(q, i), q.list[i]), i, t);
  }

  lemma {:induction false} RefusedQueuedIs(q: Queue, s: Slave, i: nat, t: Slave)
    requires Inv(q)
    ensures Emptying(q, RefusedQueued(q, s, i), s, Queued) && KeepsOrder(q, RefusedQueued(q, s, i), t)
    decreases |q.list| - i
  {
    if i < |q.list| {
      if IsFor(q, q.list[i], s) {
        PullKeeps(q, i);
        var m := Refused(Pull(q, i), q.list[i]);
        RefusedAtDrops(q, s, i, t);
        RefusedQueuedIs(m, s, i, t);
        EmptyingOn(q, m, RefusedQueued(m, s, i), s, Queued);
      } else {
        RefusedQueuedIs(q, s, i + 1, t);
      }
    }
  }

  ghost predicate NoneFor(q: Queue, s: Slave, n: nat) {
    n <= |q.list| && forall k :: 0 <= k < n ==> !IsFor(q, q.list[k], s)
  }

  lemma {:induction false} NoneQueued(q: Queue, s: Slave, i: nat)
    requires Inv(q) && NoneFor(q, s, i)
    ensures NoneFor(RefusedQueued(q, s, i), s, |RefusedQueued(q, s, i).list|)
    decreases |q.list| - i
  {
    if i < |q.list| {
      if IsFor(q, q.list[i], s) {
        PullKeeps(q, i);
        RefusedAtDrops(q, s, i, s);
        NoneQueued(Refused(Pull(q, i), q.list[i]), s, i);
      } else {
        NoneQueued(q, s, i + 1);
      }
    }
  }

  /** A dying slave: everything waiting for it, or everything queued for it, is answered with
      nothing, and nothing else; nobody's order changes. */
  lemma DiedEmpties(q: Queue, s: Slave)
    requires Inv(q) && s in q.rpcs
    ensures var r, from := Died(q, s), if q.rpcs[s].handle < 0 then Pending else Queued;
            && s in r.rpcs && r.rpcs[s].handle == -1 && Emptying(q, r, s, from)
            && forall id: Id :: At(q, id, from) && q.commands[id].slave == s ==> At(r, id, Gone(Answered))
  {
    var m := if q.rpcs[s].handle < 0 then RefusedPending(q, s) else RefusedQueued(q, s, 0);
    if q.rpcs[s].handle < 0 {
      RefusedPendingIs(q, s, s);
      forall id: Id | At(m, id, Pending) ensures m.commands[id].slave != s {
        assert id in PendingOf(m, s) <==> PendingFor(m, s, id);
      }
    } else {
      RefusedQueuedIs(q, s, 0, s);
      NoneQueued(q, s, 0);
      forall id: Id | At(m, id, Queued) ensures m.commands[id].slave != s {
        assert id in m.list;
      }
    }
  }

  lemma DiedKeepsOrder(q: Queue, s: Slave, t: Slave)
    requires Inv(q)
    ensures KeepsOrder(q, Died(q, s), t)
  {
    if s in q.rpcs {
      var m := if q.rpcs[s].handle < 0 then RefusedPending(q, s) else RefusedQueued(q, s, 0);
      if q.rpcs[s].handle < 0 {
        RefusedPendingIs(q, s, t);
      } else {
        RefusedQueuedIs(q, s, 0, t);
      }
      assert PendingOf(SetHandle(m, s, -1), t) == PendingOf(m, t);
      SameLine(m, Died(q, s), t);
    }
  }
}
