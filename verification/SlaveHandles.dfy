/** A slave gets its handle: what becomes of the commands that waited for it, and when their
    order survives. */
module SlaveHandles {
  import opened Sequences
  import opened SlaveQueue
  import opened SlaveOrder
  import opened SlaveSteps
  import opened SlaveLines

  /** `s` has a handle. */
  predicate Ready(q: Queue, s: Slave) {
    s in q.rpcs && q.rpcs[s].handle >= 0
  }

  // ---------------------------------------------------------------- the callbacks' requests

  /** How many of the requests go to the queue at once. */
  function Pushes(q: Queue, during: seq<Issue>): nat
    decreases |during|
  {
    if during == [] then 0
    else Pushes(q, during[..|during| - 1]) + if Ready(q, during[|during| - 1].command.slave) then 1 else 0
  }

  /** Request number `k` stays in the queue: the timer is armed, or as many requests before
      it as timers fail have gone to the queue. */
  predicate Stays(q: Queue, during: seq<Issue>, k: nat)
    requires k < |during|
  {
    Ready(q, during[k].command.slave) && (q.timer || Pushes(q, during[..k]) >= q.failures)
  }

  /** An ordinary request for `s` among them stays in the queue. */
  ghost predicate QueuesOrdinary(q: Queue, s: Slave, during: seq<Issue>) {
    exists k :: 0 <= k < |during| && during[k].command.slave == s && !during[k].command.urgent && Stays(q, during, k)
  }

  lemma {:induction false} QueuesOrdinaryMore(q: Queue, s: Slave, during: seq<Issue>)
    requires during != []
    ensures var n := |during| - 1;
            QueuesOrdinary(q, s, during)
            <==> QueuesOrdinary(q, s, during[..n])
                 || (during[n].command.slave == s && !during[n].command.urgent && Stays(q, during, n))
  {
    var n := |during| - 1;
    var before := during[..n];
    forall k | 0 <= k < n ensures before[k] == during[k] && (Stays(q, before, k) <==> Stays(q, during, k)) {
      assert before[..k] == during[..k];
    }
  }

  /** Handles stay as they are. */
  ghost predicate SameHandles(q: Queue, r: Queue) {
    && (forall s :: s in q.rpcs <==> s in r.rpcs)
    && (forall s :: s in q.rpcs && s in r.rpcs ==> r.rpcs[s].handle == q.rpcs[s].handle)
  }

  /** `p` commands have gone to the queue: the timer has been armed with the first that
      outlived the failures. */
  predicate Timed(q: Queue, r: Queue, p: nat) {
    && r.timer == (q.timer || p > q.failures)
    && r.failures == if q.timer then q.failures else if p > q.failures then 0 else q.failures - p
  }

  lemma TimedOn(q: Queue, m: Queue, r: Queue, p: nat, x: nat)
    requires Timed(q, m, p) && Timed(m, r, x)
    ensures Timed(q, r, p + x)
  {
  }

  lemma AskedMoves(q: Queue, i: Issue)
    requires Inv(q)
    ensures var r := Asked(q, i);
            SameHandles(q, r) && Timed(q, r, if Ready(q, i.command.slave) then 1 else 0)
  {
    AskedSettles(q, i);
  }

  lemma SameHandlesOn(q: Queue, m: Queue, r: Queue)
    requires SameHandles(q, m) && SameHandles(m, r)
    ensures SameHandles(q, r)
  {
  }

  lemma SameReady(q: Queue, m: Queue, s: Slave)
    requires SameHandles(q, m)
    ensures Ready(m, s) <==> Ready(q, s)
  {
  }

  /** What the requests do to handles and timer. */
  lemma {:induction false} AskedAllMoves(q: Queue, during: seq<Issue>)
    requires Inv(q)
    ensures SameHandles(q, AskedAll(q, during)) && Timed(q, AskedAll(q, during), Pushes(q, during))
    decreases |during|
  {
    if during != [] {
      var n := |during| - 1;
      AskedAllMoves(q, during[..n]);
      OneMoreMoves(q, AskedAll(q, during[..n]), during[n], Pushes(q, during[..n]));
    }
  }

  lemma OneMoreMoves(q: Queue, m: Queue, i: Issue, p: nat)
    requires Inv(m) && SameHandles(q, m) && Timed(q, m, p)
    ensures SameHandles(q, Asked(m, i)) && Timed(q, Asked(m, i), p + if Ready(q, i.command.slave) then 1 else 0)
  {
    SameReady(q, m, i.command.slave);
    AskedMoves(m, i);
    SameHandlesOn(q, m, Asked(m, i));
    TimedOn(q, m, Asked(m, i), p, if Ready(q, i.command.slave) then 1 else 0);
  }

  /** From `q` to `r`, `s` kept its handle, its pending list and what was handed over, while
      the ordinary commands `late`, issued meanwhile, joined the end of its queue. */
  ghost predicate Joined(q: Queue, r: Queue, s: Slave, late: seq<Id>) {
    && Ready(q, s) && Ready(r, s) && r.rpcs[s].handle == q.rpcs[s].handle && PendingOf(r, s) == PendingOf(q, s)
    && q.commands <= r.commands && r.sent == q.sent
    && Picks(r.commands, s, r.list) == Picks(q.commands, s, q.list) + late
    && Increasing(late) && forall id :: id in late ==> |q.commands| <= id < |r.commands|
  }

  lemma JoinLate(early: seq<Id>, late: seq<Id>, one: seq<Id>, n: Id)
    requires Increasing(late) && (forall x :: x in late ==> x < n) && (one == [] || one == [n])
    ensures (early + late) + one == early + (late + one) && Increasing(late + one)
    ensures forall x :: x in late + one ==> x in late || x == n
  {
    IncreasingSnoc(late, n);
    assert late + [] == late;
  }

  /** What one more request adds. */
  function Late(m: Queue, i: Issue, s: Slave): seq<Id> {
    One(m.commands + [i.command], s, |m.commands|, Destination(m, i.command, i.launch) == Queued)
  }

  lemma ReadyStays(m: Queue, i: Issue, s: Slave)
    requires Inv(m) && Ready(m, s)
    ensures var r := Asked(m, i);
            Ready(r, s) && r.rpcs[s] == m.rpcs[s] && r.commands == m.commands + [i.command] && r.sent == m.sent
  {
    AskedSettles(m, i);
  }

  /** A request leaves the pending list of a slave with a handle alone. */
  lemma AskedJoins(q: Queue, m: Queue, i: Issue, s: Slave, late: seq<Id>)
    requires Inv(m) && Joined(q, m, s, late)
    ensures Joined(q, Asked(m, i), s, late + Late(m, i, s))
  {
    ReadyStays(m, i, s);
    AskedPicks(m, i, s);
    JoinOne(q, m, Asked(m, i), s, late, Late(m, i, s));
  }

  lemma JoinOne(q: Queue, m: Queue, r: Queue, s: Slave, late: seq<Id>, one: seq<Id>)
    requires Joined(q, m, s, late) && (one == [] || one == [|m.commands|])
    requires m.commands <= r.commands && |r.commands| == |m.commands| + 1 && r.sent == m.sent
    requires Ready(r, s) && r.rpcs[s] == m.rpcs[s]
    requires Picks(r.commands, s, r.list) == Picks(m.commands, s, m.list) + one
    ensures Joined(q, r, s, late + one)
  {
    JoinLate(Picks(q.commands, s, q.list), late, one, |m.commands|);
    assert q.commands <= r.commands;
  }

  lemma QueuedWhen(q: Queue, during: seq<Issue>, n: nat)
    requires Inv(q) && n < |during|
    ensures Destination(AskedAll(q, during[..n]), during[n].command, during[n].launch) == Queued <==>
        Stays(q, during, n)
  {
    AskedAllMoves(q, during[..n]);
    SameReady(q, AskedAll(q, during[..n]), during[n].command.slave);
  }

  lemma LateWhen(q: Queue, during: seq<Issue>, n: nat, s: Slave)
    requires Inv(q) && n < |during|
    ensures var m, c := AskedAll(q, during[..n]), during[n].command;
            Late(m, during[n], s) != [] <==> c.slave == s && !c.urgent && Stays(q, during, n)
  {
    QueuedWhen(q, during, n);
  }

  /** The late commands, and when there are any. */
  lemma {:induction false} AskedAllJoins(q: Queue, during: seq<Issue>, s: Slave) returns (late: seq<Id>)
    requires Inv(q) && Ready(q, s)
    ensures Joined(q, AskedAll(q, during), s, late)
    ensures late != [] <==> QueuesOrdinary(q, s, during)
    decreases |during|
  {
    late := [];
    if during == [] {
      assert Picks(q.commands, s, q.list) + [] == Picks(q.commands, s, q.list);
    } else {
      var n := |during| - 1;
      late := AskedAllJoins(q, during[..n], s);
      LateWhen(q, during, n, s);
      QueuesOrdinaryMore(q, s, during);
      AskedJoins(q, AskedAll(q, during[..n]), during[n], s, late);
      late := late + Late(AskedAll(q, during[..n]), during[n], s);
    }
  }

  // ---------------------------------------------------------------- flushing

  /** `id`, the first command waiting for `s`, joins the end of the queue or is gone. */
  ghost predicate Flushes(q: Queue, r: Queue, s: Slave, id: Id) {
    && s in q.rpcs && q.rpcs[s].pending != [] && id == q.rpcs[s].pending[0]
    && r.commands == q.commands && r.sent == q.sent
    && r.rpcs == q.rpcs[s := q.rpcs[s].(pending := q.rpcs[s].pending[1..])]
    && |r.place| == |q.place| && OnlyMoved(q.place, r.place, id) && At(q, id, Pending)
    && id < |q.commands| && q.commands[id].slave == s
    && r.list == (if r.place[id] == Queued then q.list + [id] else q.list)
    && (q.timer ==> r.timer) && r.failures <= q.failures
  }

  /** Where a flushed command can be. */
  predicate FlushedTo(q: Queue, r: Queue, purge: bool, id: Id)
    requires id < |r.place|
  {
    && (r.place[id] == Queued || r.place[id] == Gone(NoTimer) || r.place[id] == Gone(Purged))
    && (r.place[id] == Gone(Purged) <==> purge && id < |q.commands| && q.commands[id].create)
    && (r.place[id] == Gone(NoTimer) ==> !q.timer && q.failures > 0)
  }

  lemma FlushedOneFlushes(q: Queue, s: Slave, purge: bool)
    requires Inv(q) && PendingOf(q, s) != []
    ensures var r, id := FlushedOne(q, s, purge), q.rpcs[s].pending[0];
            Flushes(q, r, s, id) && FlushedTo(q, r, purge, id)
  {
    UnpendKeeps(q, s);
  }

  /** From `q` to `r` part of the pending list of `s` was flushed: its ordinary commands
      `rest` joined the queue, and nobody else's order changed. */
  ghost predicate Flushing(q: Queue, r: Queue, s: Slave, purge: bool, rest: seq<Id>) {
    && s in q.rpcs && r.rpcs == q.rpcs[s := Rpc(q.rpcs[s].handle, PendingOf(r, s))]
    && r.commands == q.commands && r.sent == q.sent && |r.place| == |q.place|
    && (q.timer ==> r.timer) && r.failures <= q.failures
    && (forall id: Id :: id < |q.place| && !PendingFor(q, s, id) ==> r.place[id] == q.place[id])
    && (forall id: Id :: PendingFor(q, s, id) && id < |r.place| && id !in PendingOf(r, s) ==>
        FlushedTo(q, r, purge, id))
    && (forall id: Id :: id in PendingOf(r, s) ==> PendingFor(q, s, id))
    && Picks(r.commands, s, r.list) == Picks(q.commands, s, q.list) + rest
    && (forall id: Id :: id in rest ==> PendingFor(q, s, id) && At(r, id, Queued))
    && (forall t :: t != s ==> KeepsOrder(q, r, t))
  }

  lemma FlushingStart(q: Queue, s: Slave, purge: bool)
    requires Inv(q) && s in q.rpcs
    ensures Flushing(q, q, s, purge, [])
  {
    assert Picks(q.commands, s, q.list) + [] == Picks(q.commands, s, q.list);
    assert forall id: Id :: id in PendingOf(q, s) <==> PendingFor(q, s, id);
    assert q.rpcs == q.rpcs[s := Rpc(q.rpcs[s].handle, PendingOf(q, s))];
  }

  /** Flushing a command of `s` leaves the line of `t` alone. */
  lemma FlushingOthers(m: Queue, r: Queue, s: Slave, id: Id, t: Slave)
    requires Flushes(m, r, s, id) && t != s
    ensures KeepsOrder(m, r, t)
  {
    PicksInsert(m.commands, t, m.list, id, false);
    assert PendingOf(r, t) == PendingOf(m, t);
    assert Picks(m.commands, t, m.list) + [] == Picks(m.commands, t, m.list);
    assert Line(r, t) == Line(m, t);
  }

  lemma FlushingPicks(m: Queue, r: Queue, s: Slave, id: Id)
    requires Flushes(m, r, s, id)
    ensures Picks(r.commands, s, r.list) == Picks(m.commands, s, m.list) + One(r.commands, s, id, r.place[id] == Queued)
  {
    PicksInsert(m.commands, s, m.list, id, false);
  }

  lemma FlushingOrder(m: Queue, r: Queue, s: Slave, id: Id, early: seq<Id>, rest: seq<Id>)
    requires Flushes(m, r, s, id)
    ensures Increasing(early + rest + Picks(m.commands, s, PendingOf(m, s))) ==>
              Increasing(early + (rest + One(r.commands, s, id, r.place[id] == Queued))
                         + Picks(r.commands, s, PendingOf(r, s)))
  {
    var one, tail := One(m.commands, s, id, true), Picks(m.commands, s, PendingOf(m, s)[1..]);
    PicksHead(m.commands, s, PendingOf(m, s));
    HeadJoins(early, rest, one, tail);
  }

  lemma HeadJoins(early: seq<Id>, rest: seq<Id>, one: seq<Id>, tail: seq<Id>)
    ensures Increasing(early + rest + (one + tail)) ==> Increasing(early + (rest + one) + tail)
    ensures Increasing(early + rest + (one + tail)) ==> Increasing(early + (rest + []) + tail)
  {
    Reassociate(early, rest, one, tail);
    if Increasing(early + rest + one + tail) {
      IncreasingWithout(early + rest, one, tail);
    }
  }

  lemma Reassociate(a: seq<Id>, b: seq<Id>, c: seq<Id>, d: seq<Id>)
    ensures a + b + (c + d) == a + b + c + d == a + (b + c) + d
    ensures b + [] == b
  {
  }

  lemma FlushingStep(q: Queue, m: Queue, r: Queue, s: Slave, purge: bool, id: Id, rest: seq<Id>)
    requires Inv(m) && Flushing(q, m, s, purge, rest) && Flushes(m, r, s, id)
    requires FlushedTo(m, r, purge, id)
    ensures Flushing(q, r, s, purge, rest + One(r.commands, s, id, r.place[id] == Queued))
  {
    FlushingLists(q, m, r, s, purge, id, rest);
    FlushingPlaces(q, m, r, s, purge, id, rest);
  }

  lemma FlushingLists(q: Queue, m: Queue, r: Queue, s: Slave, purge: bool, id: Id, rest: seq<Id>)
    requires Flushing(q, m, s, purge, rest) && Flushes(m, r, s, id)
    ensures r.rpcs == q.rpcs[s := Rpc(q.rpcs[s].handle, PendingOf(r, s))]
    ensures Picks(r.commands, s, r.list)
            == Picks(q.commands, s, q.list) + (rest + One(r.commands, s, id, r.place[id] == Queued))
    ensures forall t :: t != s ==> KeepsOrder(q, r, t)
  {
    FlushingPicks(m, r, s, id);
    Associative(Picks(q.commands, s, q.list), rest, One(r.commands, s, id, r.place[id] == Queued));
    forall t | t != s ensures KeepsOrder(q, r, t) {
      FlushingOthers(m, r, s, id, t);
      assert KeepsOrder(q, m, t);
    }
  }

  lemma FlushingEnds(q: Queue, m: Queue, r: Queue, s: Slave, purge: bool, id: Id, rest: seq<Id>, i: Id)
    requires Flushing(q, m, s, purge, rest) && Flushes(m, r, s, id) && FlushedTo(m, r, purge, id)
    requires PendingFor(q, s, i) && i < |r.place| && i !in PendingOf(r, s)
    ensures FlushedTo(q, r, purge, i)
  {
    assert PendingOf(m, s) == [id] + PendingOf(r, s);
    if i != id {
      assert FlushedTo(q, m, purge, i);
    }
  }

  lemma FlushingPlaces(q: Queue, m: Queue, r: Queue, s: Slave, purge: bool, id: Id, rest: seq<Id>)
    requires Flushing(q, m, s, purge, rest) && Flushes(m, r, s, id)
    requires FlushedTo(m, r, purge, id)
    ensures forall i: Id :: i < |q.place| && !PendingFor(q, s, i) ==> r.place[i] == q.place[i]
    ensures forall i: Id :: PendingFor(q, s, i) && i < |r.place| && i !in PendingOf(r, s) ==> FlushedTo(q, r, purge, i)
    ensures forall i: Id :: i in PendingOf(r, s) ==> PendingFor(q, s, i)
    ensures forall i: Id :: i in rest + One(r.commands, s, id, r.place[id] == Queued) ==>
        PendingFor(q, s, i) && At(r, i, Queued)
  {
    var p := PendingOf(m, s);
    assert p == [id] + PendingOf(r, s);
    assert id in p;
    forall i: Id | PendingFor(q, s, i) && i < |r.place| && i !in PendingOf(r, s) ensures FlushedTo(q, r, purge, i) {
      FlushingEnds(q, m, r, s, purge, id, rest, i);
    }
    RestStays(q, m, r, s, id, rest);
  }

  lemma RestStays(q: Queue, m: Queue, r: Queue, s: Slave, id: Id, rest: seq<Id>)
    requires Flushes(m, r, s, id) && PendingFor(q, s, id)
    requires forall i: Id :: i in rest ==> PendingFor(q, s, i) && At(m, i, Queued)
    ensures forall i: Id :: i in rest + One(r.commands, s, id, r.place[id] == Queued) ==>
        PendingFor(q, s, i) && At(r, i, Queued)
  {
    forall i: Id | i in rest ensures PendingFor(q, s, i) && At(r, i, Queued) {
      assert At(m, i, Queued) && i != id;
    }
  }

  /** From `q` on, part of the list has been flushed already (`m`). */
  lemma {:induction false} FlushedAllFlushes(q: Queue, m: Queue, s: Slave, purge: bool, early: seq<Id>, rest: seq<Id>)
    returns (all: seq<Id>)
    requires Inv(m) && Flushing(q, m, s, purge, rest)
    ensures Flushing(q, FlushedAll(m, s, purge), s, purge, all) && PendingOf(FlushedAll(m, s, purge), s) == []
    ensures Increasing(early + rest + Picks(m.commands, s, PendingOf(m, s))) ==> Increasing(early + all)
    decreases |PendingOf(m, s)|
  {
    if PendingOf(m, s) == [] {
      all := rest;
      assert early + rest + [] == early + rest;
    } else {
      var r, id := FlushedOne(m, s, purge), m.rpcs[s].pending[0];
      FlushedOneFlushes(m, s, purge);
      FlushingStep(q, m, r, s, purge, id, rest);
      FlushingOrder(m, r, s, id, early, rest);
      all := FlushedAllFlushes(q, r, s, purge, early, rest + One(r.commands, s, id, r.place[id] == Queued));
    }
  }

  /** An ordinary command waits for `s` and will not be purged. */
  ghost predicate WaitsOrdinary(q: Queue, s: Slave, purge: bool) {
    exists id :: id in PendingOf(q, s) && Ordinary(q.commands, s, id) && !Purges(q, id, purge)
  }

  lemma QueuedIsPicked(r: Queue, s: Slave, id: Id)
    requires Inv(r) && Ordinary(r.commands, s, id)
    ensures At(r, id, Queued) <==> id in Picks(r.commands, s, r.list)
  {
    if At(r, id, Queued) {
      assert id in r.list;
      var i :| 0 <= i < |r.list| && r.list[i] == id;
      var k := PicksFinds(r.commands, s, r.list, i);
    }
  }

  /** With the timer armed, commands join the queue exactly if some are waiting. */
  lemma RestIsWhatWaits(q: Queue, r: Queue, s: Slave, purge: bool, rest: seq<Id>)
    requires Inv(q) && Inv(r) && q.timer && Flushing(q, r, s, purge, rest) && PendingOf(r, s) == []
    ensures rest != [] <==> WaitsOrdinary(q, s, purge)
  {
    if rest != [] {
      var id := rest[0];
      assert id in rest && PendingFor(q, s, id) && At(r, id, Queued);
      assert id in PendingOf(q, s) <==> PendingFor(q, s, id);
      var picks := Picks(r.commands, s, r.list);
      assert picks[|Picks(q.commands, s, q.list)|] == id && id in picks;
      assert FlushedTo(q, r, purge, id);
    }
    if WaitsOrdinary(q, s, purge) {
      var id :| id in PendingOf(q, s) && Ordinary(q.commands, s, id) && !Purges(q, id, purge);
      assert id in PendingOf(q, s) <==> PendingFor(q, s, id);
      assert FlushedTo(q, r, purge, id) && At(r, id, Queued);
      QueuedIsPicked(r, s, id);
      QueuedIsPicked(q, s, id);
    }
  }

  // ---------------------------------------------------------------- both

  /** A callback's ordinary request for `s` gets into the queue before an ordinary command
      that has waited for its handle: all of it can be told before the handle arrives. */
  ghost predicate Overtakes(q: Queue, s: Slave, handle: int, purge: bool, during: seq<Issue>) {
    s in q.rpcs && QueuesOrdinary(SetHandle(q, s, handle), s, during) && WaitsOrdinary(q, s, purge)
  }

  lemma LineOfFlushed(a: seq<Id>, b: seq<Id>, late: seq<Id>, rest: seq<Id>)
    ensures a + ((b + late) + rest) + [] == (a + b) + late + rest
    ensures a + (b + rest) + [] == (a + b) + rest
  {
  }

  lemma RestIsOld(q: Queue, m: Queue, r: Queue, s: Slave, purge: bool, late: seq<Id>, rest: seq<Id>)
    requires Inv(q) && Inv(m) && Joined(q, m, s, late) && Flushing(m, r, s, purge, rest)
    ensures forall x :: x in Picks(q.commands, s, q.sent) + Picks(q.commands, s, q.list) + rest ==> x < |q.commands|
  {
    ListsAreIssued(q, s);
    forall x | x in rest ensures x < |q.commands| {
      assert PendingFor(m, s, x);
      assert x in PendingOf(m, s) <==> PendingFor(m, s, x);
    }
    assert forall x :: x in Picks(q.commands, s, q.sent) ==> x in q.sent;
    assert forall x :: x in Picks(q.commands, s, q.list) ==> x in q.list;
  }

  /** Late commands at the end of the queue, and then the rest of what waited. */
  lemma OrderAfterJoining(q: Queue, m: Queue, s: Slave, purge: bool, late: seq<Id>) returns (rest: seq<Id>)
    requires Inv(q) && Inv(m) && Joined(q, m, s, late) && InOrder(q, s)
    ensures var r := FlushedAll(m, s, purge);
            Flushing(m, r, s, purge, rest) && PendingOf(r, s) == [] && (InOrder(r, s) <==> late == [] || rest == [])
  {
    var a, b := Picks(q.commands, s, q.sent), Picks(q.commands, s, q.list);
    SamePicks(q, m, s, late);
    FlushingStart(m, s, purge);
    assert a + b + [] == a + b;
    rest := FlushedAllFlushes(m, m, s, purge, a + b, []);
    RestIsOld(q, m, FlushedAll(m, s, purge), s, purge, late, rest);
    Overtaking(a + b, late, rest, |q.commands|);
    LineIs(m, FlushedAll(m, s, purge), s, purge, a, b, late, rest);
  }

  lemma LineIs(m: Queue, r: Queue, s: Slave, purge: bool, a: seq<Id>, b: seq<Id>, late: seq<Id>, rest: seq<Id>)
    requires Flushing(m, r, s, purge, rest) && PendingOf(r, s) == []
    requires Picks(m.commands, s, m.sent) == a && Picks(m.commands, s, m.list) == b + late
    ensures Line(r, s) == (a + b) + late + rest
  {
    LineOfFlushed(a, b, late, rest);
  }

  lemma SamePicks(q: Queue, m: Queue, s: Slave, late: seq<Id>)
    requires Inv(q) && Joined(q, m, s, late)
    ensures Picks(m.commands, s, m.sent) == Picks(q.commands, s, q.sent)
    ensures Picks(m.commands, s, PendingOf(m, s)) == Picks(q.commands, s, PendingOf(q, s))
  {
    ListsAreIssued(q, s);
    var more := m.commands[|q.commands|..];
    assert m.commands == q.commands + more;
    PicksGrow(q.commands, more, s, q.sent);
    PicksGrow(q.commands, more, s, PendingOf(q, s));
  }

  /** Without a handle the requests of the callbacks wait as well, and all is flushed in
      order. */
  lemma OrderWithoutHandle(m: Queue, s: Slave, purge: bool)
    requires Inv(m) && s in m.rpcs && InOrder(m, s)
    ensures var r := FlushedAll(m, s, purge); InOrder(r, s) && PendingOf(r, s) == []
  {
    var a, b := Picks(m.commands, s, m.sent), Picks(m.commands, s, m.list);
    FlushingStart(m, s, purge);
    assert a + b + [] == a + b;
    var rest := FlushedAllFlushes(m, m, s, purge, a + b, []);
    LineOfFlushed(a, b, [], rest);
  }

  /** What waits is what waited before the callbacks. */
  lemma SameWaiting(q: Queue, m: Queue, s: Slave, purge: bool)
    requires Inv(q) && q.commands <= m.commands && PendingOf(m, s) == PendingOf(q, s)
    ensures WaitsOrdinary(m, s, purge) <==> WaitsOrdinary(q, s, purge)
  {
    ListsAreIssued(q, s);
    assert forall id :: id in PendingOf(q, s) ==> q.commands[id] == m.commands[id];
  }

  lemma LateArmTheTimer(q: Queue, m: Queue, s: Slave, late: seq<Id>)
    requires Inv(m) && Joined(q, m, s, late) && late != []
    ensures m.timer
  {
    assert Picks(m.commands, s, m.list) != [];
  }

  /** The order of a slave that gets its handle survives if and only if nothing overtakes. */
  lemma ConnectedOrder(q: Queue, s: Slave, handle: int, purge: bool, during: seq<Issue>)
    requires Inv(q) && InOrder(q, s) && s in q.rpcs
    ensures var r := Connected(q, s, handle, purge, during);
            Flushed(r, s) && (InOrder(r, s) <==> !Overtakes(q, s, handle, purge, during))
  {
    SetHandleKeeps(q, s, handle);
    var named := SetHandle(q, s, handle);
    SameLine(q, named, s);
    var m := AskedAll(named, during);
    if handle >= 0 {
      var late := AskedAllJoins(named, during, s);
      var rest := OrderAfterJoining(named, m, s, purge, late);
      if late != [] {
        LateArmTheTimer(named, m, s, late);
        RestIsWhatWaits(m, FlushedAll(m, s, purge), s, purge, rest);
        SameWaiting(named, m, s, purge);
        SameWaiting(q, named, s, purge);
      }
    } else {
      AskedAllKeepsOrder(named, during, s);
      OrderWithoutHandle(m, s, purge);
    }
  }

  /** Nobody else is concerned. */
  lemma ConnectedKeepsOrder(q: Queue, s: Slave, handle: int, purge: bool, during: seq<Issue>, t: Slave)
    requires Inv(q) && t != s
    ensures KeepsOrder(q, Connected(q, s, handle, purge, during), t)
  {
    if s in q.rpcs {
      SetHandleKeeps(q, s, handle);
      var named := SetHandle(q, s, handle);
      SameLine(q, named, t);
      var m := AskedAll(named, during);
      AskedAllKeepsOrder(named, during, t);
      FlushingStart(m, s, purge);
      var rest := FlushedAllFlushes(m, m, s, purge, [], []);
      assert KeepsOrder(m, FlushedAll(m, s, purge), t);
    }
  }

  /** Where every command is when the slave has its handle: those that waited are queued,
      purged, or gone for want of a timer; all others are where they were. */
  lemma ConnectedPlaces(q: Queue, s: Slave, handle: int, purge: bool, during: seq<Issue>)
    requires Inv(q) && s in q.rpcs
    ensures var r := Connected(q, s, handle, purge, during);
            && s in r.rpcs && r.rpcs[s] == Rpc(handle, []) && |r.place| == |q.place| + |during|
            && (forall id: Id :: PendingFor(q, s, id) ==> FlushedTo(q, r, purge, id))
            && (forall id: Id :: id < |q.place| && !PendingFor(q, s, id) ==> r.place[id] == q.place[id])
  {
    SetHandleKeeps(q, s, handle);
    var named := SetHandle(q, s, handle);
    AskedAllMoves(named, during);
    AskedAllKeepsCommands(named, during);
    PlacesAfterFlushing(q, AskedAll(named, during), s, purge);
  }

  lemma PlacesAfterFlushing(q: Queue, m: Queue, s: Slave, purge: bool)
    requires Shape(q) && Inv(m) && s in m.rpcs && q.commands <= m.commands
    requires (q.timer ==> m.timer) && m.failures <= q.failures
    requires |q.place| <= |m.place| && (forall i: Id :: i < |q.place| ==> m.place[i] == q.place[i])
    ensures var r := FlushedAll(m, s, purge);
            && s in r.rpcs && r.rpcs[s] == Rpc(m.rpcs[s].handle, []) && |r.place| == |m.place|
            && (forall id: Id :: PendingFor(q, s, id) ==> FlushedTo(q, r, purge, id))
            && (forall id: Id :: id < |q.place| && !PendingFor(q, s, id) ==> r.place[id] == q.place[id])
  {
    FlushingStart(m, s, purge);
    var rest := FlushedAllFlushes(m, m, s, purge, [], []);
    PlacesFromFlushing(q, m, FlushedAll(m, s, purge), s, purge, rest);
  }

  lemma PlacesFromFlushing(q: Queue, m: Queue, r: Queue, s: Slave, purge: bool, rest: seq<Id>)
    requires Flushing(m, r, s, purge, rest) && PendingOf(r, s) == []
    requires Shape(q) && Shape(m) && q.commands <= m.commands && (q.timer ==> m.timer) && m.failures <= q.failures
    requires |q.place| <= |m.place| && (forall i: Id :: i < |q.place| ==> m.place[i] == q.place[i])
    ensures forall id: Id :: PendingFor(q, s, id) ==> id < |r.place| && FlushedTo(q, r, purge, id)
    ensures forall id: Id :: id < |q.place| && !PendingFor(q, s, id) ==> r.place[id] == q.place[id]
  {
    forall id: Id | PendingFor(q, s, id) ensures id < |r.place| && FlushedTo(q, r, purge, id) {
      assert PendingFor(m, s, id) && FlushedTo(m, r, purge, id);
    }
  }

  lemma {:induction false} AskedAllKeepsCommands(q: Queue, during: seq<Issue>)
    requires Inv(q)
    ensures q.commands <= AskedAll(q, during).commands
    decreases |during|
  {
    if during != [] {
      var n := |during| - 1;
      AskedAllKeepsCommands(q, during[..n]);
      AskedSettles(AskedAll(q, during[..n]), during[n]);
    }
  }
}
