/** The commands on their way to the slaves: where each one is, who still refers to it,
    whether its callback has run, and in which order they are handed over.

    A command is named by its issue number. The moves below are the single statements of
    `slave_rpc.c` that change these things; module `SlaveRpc` puts them together. */
module SlaveQueue {

  type Slave = nat
  type Id = nat

  /** The unchanging part of `struct command`. `create` marks a CMD_NEW packet, `noack` a
      PACKET_REQ_NOACK one, `callback` a non-NULL `ret_cb`. */
  datatype Command = Command(slave: Slave, urgent: bool, noack: bool, create: bool, callback: bool)

  /** How a command ends: its callback ran (if it has one), it was sent and needs no answer,
      its attempts were used up, it was purged, or no timer could be had. */
  datatype Fate = Answered | SentOnly | Expired | Purged | NoTimer

  /** Where a command is: in the hands of the running function, in `command_list`, in its
      slave's `pending_list`, with com-core, inside its callback, or destroyed. */
  datatype Place = Held | Queued | Pending | Sent | Called | Gone(fate: Fate)

  datatype Rpc = Rpc(handle: int, pending: seq<Id>)

  const DEFAULT_CMD_TTL: nat := 3

  /** `failures` is not the program's: so many of the coming attempts to add a timer fail. */
  datatype Queue = Queue(
    list: seq<Id>, timer: bool, failures: nat, rpcs: map<Slave, Rpc>,
    commands: seq<Command>, ttl: seq<nat>, packetRefs: seq<nat>, slaveRefs: multiset<Slave>,
    place: seq<Place>, called: seq<nat>, sent: seq<Id>)

  const EMPTY := Queue([], false, 0, map[], [], [], [], multiset{}, [], [], [])

  // ---------------------------------------------------------------- the invariant

  ghost predicate NoDup(s: seq<Id>) {
    forall i, j :: 0 <= i < j < |s| ==> s[i] != s[j]
  }

  ghost predicate Shape(q: Queue) {
    |q.ttl| == |q.packetRefs| == |q.place| == |q.called| == |q.commands|
  }

  predicate At(q: Queue, id: Id, p: Place) {
    id < |q.place| && q.place[id] == p
  }

  ghost predicate ListOk(q: Queue) {
    NoDup(q.list) && forall id: Id :: id in q.list <==> At(q, id, Queued)
  }

  /** `pending_list` of a slave; a slave without rpc data has none. */
  function PendingOf(q: Queue, s: Slave): seq<Id> {
    if s in q.rpcs then q.rpcs[s].pending else []
  }

  predicate PendingFor(q: Queue, s: Slave, id: Id) {
    At(q, id, Pending) && id < |q.commands| && q.commands[id].slave == s
  }

  ghost predicate PendingOk(q: Queue) {
    && (forall s :: NoDup(PendingOf(q, s)))
    && (forall s, id: Id :: id in PendingOf(q, s) <==> PendingFor(q, s, id))
  }

  ghost predicate SentOk(q: Queue) {
    && NoDup(q.sent)
    && (forall id: Id :: id in q.sent ==>
          id < |q.place| && (q.place[id] == Sent || q.place[id] == Called || q.place[id].Gone?))
    && (forall id: Id :: At(q, id, Sent) ==> id in q.sent)
  }

  /** Each list holds exactly the commands placed there, each once; nothing is handed over
      twice. */
  ghost predicate ListsOk(q: Queue) {
    ListOk(q) && PendingOk(q) && SentOk(q)
  }

  function Live(q: Queue, s: Slave, n: nat): nat
    requires Shape(q) && n <= |q.place|
  {
    if n == 0 then 0
    else Live(q, s, n - 1) + if !q.place[n - 1].Gone? && q.commands[n - 1].slave == s then 1 else 0
  }

  /** A command holds one packet and one slave reference until it is destroyed, has between
      one and three attempts left, and its callback has run exactly once if it has been
      answered and never otherwise. */
  ghost predicate CountersOk(q: Queue)
    requires Shape(q)
  {
    && (forall id :: 0 <= id < |q.place| ==> q.packetRefs[id] == if q.place[id].Gone? then 0 else 1)
    && (forall s :: q.slaveRefs[s] == Live(q, s, |q.place|))
    && (forall id :: 0 <= id < |q.place| && !q.place[id].Gone? ==> 1 <= q.ttl[id] <= DEFAULT_CMD_TTL)
    && (forall id :: 0 <= id < |q.place| ==>
          q.called[id] == if q.commands[id].callback && (q.place[id] == Called ||
              q.place[id] == Gone(Answered)) then 1 else 0)
  }

  ghost predicate Inv(q: Queue) {
    && Shape(q) && ListsOk(q) && CountersOk(q)
    && (q.list != [] ==> q.timer)
  }

  // ---------------------------------------------------------------- the moves

  /** `create_command` and the caller's `packet_unref`. */
  function Create(q: Queue, c: Command): Queue {
    q.(commands := q.commands + [c], ttl := q.ttl + [DEFAULT_CMD_TTL], packetRefs := q.packetRefs + [1],
       slaveRefs := q.slaveRefs + multiset{c.slave}, place := q.place + [Held], called := q.called + [0])
  }

  function Put(q: Queue, id: Id, p: Place): (r: Queue)
    requires id < |q.place|
    ensures forall i: Id, x: Place :: At(r, i, x) <==> if i == id then x == p else At(q, i, x)
  {
    q.(place := q.place[id := p])
  }

  /** Into `command_list`, at the front or at the back, with the timer armed. */
  function Enqueue(q: Queue, id: Id, front: bool): Queue
    requires At(q, id, Held)
  {
    Put(q, id, Queued).(list := if front then [id] + q.list else q.list + [id], timer := true)
  }

  function Pop(q: Queue): Queue
    requires q.list != [] && At(q, q.list[0], Queued)
  {
    Put(q, q.list[0], Held).(list := q.list[1..])
  }

  /** Out of the middle of `command_list`. */
  function Pull(q: Queue, k: nat): Queue
    requires k < |q.list| && At(q, q.list[k], Queued)
  {
    Put(q, q.list[k], Held).(list := q.list[..k] + q.list[k + 1..])
  }

  function Pend(q: Queue, id: Id, front: bool): Queue
    requires At(q, id, Held) && id < |q.commands| && q.commands[id].slave in q.rpcs
  {
    var s := q.commands[id].slave;
    var rpc := q.rpcs[s];
    Put(q, id, Pending).(rpcs := q.rpcs[s := rpc.(pending := if front then [id] + rpc.pending else rpc.pending + [id])])
  }

  function Unpend(q: Queue, s: Slave): Queue
    requires s in q.rpcs && q.rpcs[s].pending != [] && At(q, q.rpcs[s].pending[0], Pending)
  {
    var rpc := q.rpcs[s];
    Put(q, rpc.pending[0], Held).(rpcs := q.rpcs[s := rpc.(pending := rpc.pending[1..])])
  }

  /** com-core took the packet. */
  function Hand(q: Queue, id: Id): Queue
    requires At(q, id, Held)
  {
    Put(q, id, Sent).(sent := q.sent + [id])
  }

  /** `ret_cb` is called, if there is one. */
  function Call(q: Queue, id: Id): Queue
    requires Shape(q) && (At(q, id, Held) || At(q, id, Sent))
  {
    Put(q, id, Called).(called := q.called[id := q.called[id] + if q.commands[id].callback then 1 else 0])
  }

  function Retry(q: Queue, id: Id): Queue
    requires Shape(q) && At(q, id, Held) && q.ttl[id] > 1
  {
    q.(ttl := q.ttl[id := q.ttl[id] - 1])
  }

  /** `destroy_command`. */
  function Destroy(q: Queue, id: Id, fate: Fate): Queue
    requires Shape(q) && id < |q.place| && q.packetRefs[id] > 0
  {
    Put(q, id, Gone(fate)).(packetRefs := q.packetRefs[id := q.packetRefs[id] - 1],
                            slaveRefs := q.slaveRefs - multiset{q.commands[id].slave})
  }

  function SetHandle(q: Queue, s: Slave, handle: int): Queue
    requires s in q.rpcs
  {
    q.(rpcs := q.rpcs[s := q.rpcs[s].(handle := handle)])
  }

  /** One attempt to add a timer fails. */
  function Unlucky(q: Queue): Queue
    requires q.failures > 0
  {
    q.(failures := q.failures - 1)
  }

  function Attach(q: Queue, s: Slave): Queue {
    if s in q.rpcs then q else q.(rpcs := q.rpcs[s := Rpc(-1, [])])
  }

  // ---------------------------------------------------------------- every move keeps it

  lemma {:induction false} LiveSame(q: Queue, r: Queue, s: Slave, n: nat)
    requires Shape(q) && Shape(r) && n <= |q.place| && n <= |r.place|
    requires forall id :: 0 <= id < n ==> q.commands[id] == r.commands[id] && (q.place[id].Gone? <==> r.place[id].Gone?)
    ensures Live(q, s, n) == Live(r, s, n)
  {
    if n > 0 {
      LiveSame(q, r, s, n - 1);
    }
  }

  lemma {:induction false} LiveWithout(q: Queue, r: Queue, s: Slave, id: Id, n: nat)
    requires Shape(q) && Shape(r) && q.commands == r.commands && id < n <= |q.place|
    requires !q.place[id].Gone? && r.place[id].Gone?
    requires forall i :: 0 <= i < n && i != id ==> (q.place[i].Gone? <==> r.place[i].Gone?)
    ensures Live(q, s, n) == Live(r, s, n) + if q.commands[id].slave == s then 1 else 0
  {
    if n - 1 == id {
      LiveSame(q, r, s, n - 1);
    } else {
      LiveWithout(q, r, s, id, n - 1);
    }
  }

  lemma CreateKeeps(q: Queue, c: Command)
    requires Inv(q)
    ensures Inv(Create(q, c)) && At(Create(q, c), |q.commands|, Held)
  {
    var r := Create(q, c);
    forall s ensures r.slaveRefs[s] == Live(r, s, |r.place|) {
      LiveSame(q, r, s, |q.place|);
    }
    PendingKept(q, r, |q.place|);
  }

  /** A move that destroys nothing leaves the slave references right. */
  lemma LiveKept(q: Queue, r: Queue)
    requires Inv(q) && Shape(r) && r.commands == q.commands && r.slaveRefs == q.slaveRefs
    requires forall id :: 0 <= id < |q.place| ==> (q.place[id].Gone? <==> r.place[id].Gone?)
    ensures forall s :: r.slaveRefs[s] == Live(r, s, |r.place|)
  {
    forall s ensures r.slaveRefs[s] == Live(r, s, |r.place|) {
      LiveSame(q, r, s, |q.place|);
    }
  }

  /** A move of `id` that is about no pending list leaves the pending lists right. */
  lemma PendingKept(q: Queue, r: Queue, id: Id)
    requires PendingOk(q) && !At(q, id, Pending) && !At(r, id, Pending)
    requires q.commands <= r.commands && Shape(q)
    requires forall i: Id :: i != id ==> (At(r, i, Pending) <==> At(q, i, Pending))
    requires forall s :: PendingOf(r, s) == PendingOf(q, s)
    ensures PendingOk(r)
  {
    forall s ensures NoDup(PendingOf(r, s)) {
      assert NoDup(PendingOf(q, s));
    }
    forall s, i: Id ensures i in PendingOf(r, s) <==> PendingFor(r, s, i) {
      assert i in PendingOf(q, s) <==> PendingFor(q, s, i);
    }
  }

  /** A move of `id` between the pending list of `s` and the running function. */
  lemma PendingMoved(q: Queue, r: Queue, s: Slave, id: Id)
    requires PendingOk(q) && Shape(q) && id < |q.commands| && q.commands[id].slave == s && q.commands == r.commands
    requires forall i: Id :: i != id ==> (At(r, i, Pending) <==> At(q, i, Pending))
    requires forall t :: t != s ==> PendingOf(r, t) == PendingOf(q, t)
    requires NoDup(PendingOf(r, s)) && (id in PendingOf(r, s) <==> At(r, id, Pending))
    requires forall i: Id :: i != id ==> (i in PendingOf(r, s) <==> i in PendingOf(q, s))
    ensures PendingOk(r)
  {
    forall t ensures NoDup(PendingOf(r, t)) {
      assert NoDup(PendingOf(q, t));
    }
    forall t, i: Id ensures i in PendingOf(r, t) <==> PendingFor(r, t, i) {
      assert i in PendingOf(q, t) <==> PendingFor(q, t, i);
    }
  }

  lemma NoDupInsert(s: seq<Id>, id: Id, front: bool) returns (t: seq<Id>)
    requires NoDup(s) && id !in s
    ensures t == (if front then [id] + s else s + [id]) && NoDup(t)
    ensures forall i: Id :: i in t <==> i == id || i in s
  {
    t := if front then [id] + s else s + [id];
    forall i: Id ensures i in t <==> i == id || i in s {
      if front {
        assert t[0] == id && t[1..] == s;
      } else {
        assert t[|s|] == id && t[..|s|] == s;
      }
    }
  }

  lemma NoDupDelete(s: seq<Id>, k: nat) returns (t: seq<Id>)
    requires NoDup(s) && k < |s|
    ensures t == s[..k] + s[k + 1..] && NoDup(t)
    ensures forall i: Id :: i in t <==> i != s[k] && i in s
  {
    t := s[..k] + s[k + 1..];
    forall i: Id ensures i in t <==> i != s[k] && i in s {
      if i in s && i != s[k] {
        var j :| 0 <= j < |s| && s[j] == i;
        assert t[if j < k then j else j - 1] == i;
      }
    }
  }

  lemma EnqueueKeeps(q: Queue, id: Id, front: bool)
    requires Inv(q) && At(q, id, Held)
    ensures Inv(Enqueue(q, id, front))
  {
    var r := Enqueue(q, id, front);
    LiveKept(q, r);
    PendingKept(q, r, id);
    var t := NoDupInsert(q.list, id, front);
  }

  lemma PullKeeps(q: Queue, k: nat)
    requires Inv(q) && k < |q.list|
    ensures At(q, q.list[k], Queued) && Inv(Pull(q, k))
  {
    var id := q.list[k];
    assert id in q.list;
    var r := Pull(q, k);
    LiveKept(q, r);
    PendingKept(q, r, id);
    var t := NoDupDelete(q.list, k);
  }

  lemma PopKeeps(q: Queue)
    requires Inv(q) && q.list != []
    ensures At(q, q.list[0], Queued) && Inv(Pop(q))
  {
    PullKeeps(q, 0);
    assert q.list[..0] + q.list[0 + 1..] == q.list[1..];
  }

  lemma PendKeeps(q: Queue, id: Id, front: bool)
    requires Inv(q) && At(q, id, Held) && q.commands[id].slave in q.rpcs
    ensures Inv(Pend(q, id, front))
  {
    var r, s := Pend(q, id, front), q.commands[id].slave;
    LiveKept(q, r);
    assert id in PendingOf(q, s) <==> PendingFor(q, s, id);
    assert NoDup(PendingOf(q, s));
    var t := NoDupInsert(PendingOf(q, s), id, front);
    PendingMoved(q, r, s, id);
  }

  lemma UnpendKeeps(q: Queue, s: Slave)
    requires Inv(q) && s in q.rpcs && q.rpcs[s].pending != []
    ensures At(q, q.rpcs[s].pending[0], Pending) && q.commands[q.rpcs[s].pending[0]].slave == s
    ensures Inv(Unpend(q, s))
  {
    var p := PendingOf(q, s);
    assert p[0] in p && NoDup(p);
    assert PendingFor(q, s, p[0]);
    var r := Unpend(q, s);
    LiveKept(q, r);
    var t := NoDupDelete(p, 0);
    assert t == p[1..];
    PendingMoved(q, r, s, p[0]);
  }

  lemma HandKeeps(q: Queue, id: Id)
    requires Inv(q) && At(q, id, Held)
    ensures Inv(Hand(q, id))
  {
    var r := Hand(q, id);
    LiveKept(q, r);
    PendingKept(q, r, id);
    var t := NoDupInsert(q.sent, id, false);
  }

  lemma CallKeeps(q: Queue, id: Id)
    requires Inv(q) && (At(q, id, Held) || At(q, id, Sent))
    ensures Inv(Call(q, id))
  {
    LiveKept(q, Call(q, id));
    PendingKept(q, Call(q, id), id);
  }

  lemma RetryKeeps(q: Queue, id: Id)
    requires Inv(q) && At(q, id, Held) && q.ttl[id] > 1
    ensures Inv(Retry(q, id))
  {
    LiveKept(q, Retry(q, id));
    PendingKept(q, Retry(q, id), id);
  }

  /** A command is destroyed as answered after its callback, and otherwise without it. */
  lemma DestroyKeeps(q: Queue, id: Id, fate: Fate)
    requires Inv(q) && id < |q.place|
    requires if fate == Answered then q.place[id] == Called else q.place[id] == Held || q.place[id] == Sent
    ensures q.packetRefs[id] > 0 && Inv(Destroy(q, id, fate))
  {
    var r := Destroy(q, id, fate);
    DestroyKeepsRefs(q, id, fate);
    PendingKept(q, r, id);
  }

  lemma DestroyKeepsRefs(q: Queue, id: Id, fate: Fate)
    requires Inv(q) && id < |q.place| && !q.place[id].Gone?
    ensures var r := Destroy(q, id, fate); forall s :: r.slaveRefs[s] == Live(r, s, |r.place|)
  {
    var r := Destroy(q, id, fate);
    forall s ensures r.slaveRefs[s] == Live(r, s, |r.place|) {
      LiveWithout(q, r, s, id, |q.place|);
      LiveWithout(q, r, q.commands[id].slave, id, |q.place|);
    }
  }

  lemma SetHandleKeeps(q: Queue, s: Slave, handle: int)
    requires Inv(q) && s in q.rpcs
    ensures Inv(SetHandle(q, s, handle))
  {
    var r := SetHandle(q, s, handle);
    LiveKept(q, r);
    PendingKept(q, r, |q.place|);
  }

  lemma AttachKeeps(q: Queue, s: Slave)
    requires Inv(q)
    ensures Inv(Attach(q, s))
  {
    var r := Attach(q, s);
    LiveKept(q, r);
    PendingKept(q, r, |q.place|);
  }

  /** The timer is given up with the last command. */
  lemma TimerOffKeeps(q: Queue)
    requires Inv(q) && q.list == []
    ensures Inv(q.(timer := false))
  {
    var r := q.(timer := false);
    LiveKept(q, r);
    PendingKept(q, r, |q.place|);
  }

  lemma FailuresKeep(q: Queue, failures: nat)
    requires Inv(q)
    ensures Inv(q.(failures := failures))
  {
    var r := q.(failures := failures);
    LiveKept(q, r);
    PendingKept(q, r, |q.place|);
  }
}
