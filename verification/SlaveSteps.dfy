/** The functions of `slave_rpc.c` on values: what each of them makes of the queues, and that
    it keeps the invariant. */
module SlaveSteps {
  import opened Errors
  import opened SlaveQueue

  /** A slave without a handle may have to be launched first. That it has been started
      already counts as launched. */
  datatype Launch = NotNeeded | Launched | Fails(error: int)

  datatype Issue = Issue(command: Command, launch: Launch)

  // ---------------------------------------------------------------- requests

  /** Whoever waits for the command is told that nothing will come, and it is destroyed. */
  function Refused(q: Queue, id: Id): (r: Queue)
    requires Inv(q) && At(q, id, Held)
    ensures Inv(r)
  {
    CallKeeps(q, id);
    DestroyKeeps(Call(q, id), id, Answered);
    Destroy(Call(q, id), id, Answered)
  }

  /** `push_command` and, for `front`, `prepend_command`: without a timer the command does
      not stay. */
  function Pushed(q: Queue, id: Id, front: bool): (r: Queue)
    requires Inv(q) && At(q, id, Held)
    ensures Inv(r)
  {
    if q.timer || q.failures == 0 then
      EnqueueKeeps(q, id, front);
      Enqueue(q, id, front)
    else
      FailuresKeep(q, q.failures - 1);
      DestroyKeeps(Unlucky(q), id, NoTimer);
      Destroy(Unlucky(q), id, NoTimer)
  }

  /** The part of a request behind `create_command`. */
  function Dispatched(q: Queue, id: Id, launch: Launch): (r: Queue)
    requires Inv(q) && At(q, id, Held)
    ensures Inv(r)
  {
    var c := q.commands[id];
    if c.slave !in q.rpcs then Refused(q, id)
    else if q.rpcs[c.slave].handle >= 0 then Pushed(q, id, c.urgent)
    else if launch.Fails? then Refused(q, id)
    else
      PendKeeps(q, id, c.urgent);
      Pend(q, id, c.urgent)
  }

  /** `slave_rpc_async_request` and, for a command without callback,
      `slave_rpc_request_only`. */
  function Asked(q: Queue, i: Issue): (r: Queue)
    requires Inv(q)
    ensures Inv(r)
  {
    CreateKeeps(q, i.command);
    Dispatched(Create(q, i.command), |q.commands|, i.launch)
  }

  /** What it returns. */
  function Verdict(q: Queue, i: Issue): int {
    if i.command.slave !in q.rpcs then WIDGET_ERROR_FAULT
    else if q.rpcs[i.command.slave].handle < 0 && i.launch.Fails? then i.launch.error
    else WIDGET_ERROR_NONE
  }

  /** Nothing but the command `id` may have moved. */
  ghost predicate OnlyMoved(before: seq<Place>, after: seq<Place>, id: Id) {
    |before| <= |after| && forall i: Id :: i < |before| && i != id ==> after[i] == before[i]
  }

  /** Where a request puts its command. */
  function Destination(q: Queue, c: Command, launch: Launch): Place {
    if c.slave !in q.rpcs then Gone(Answered)
    else if q.rpcs[c.slave].handle >= 0 then if q.timer || q.failures == 0 then Queued else Gone(NoTimer)
    else if launch.Fails? then Gone(Answered)
    else Pending
  }

  function Pended(rpcs: map<Slave, Rpc>, c: Command, id: Id): map<Slave, Rpc>
    requires c.slave in rpcs
  {
    var rpc := rpcs[c.slave];
    rpcs[c.slave := rpc.(pending := if c.urgent then [id] + rpc.pending else rpc.pending + [id])]
  }

  /** The command `id` has been settled: it is at `where`, and the lists grow by it or not at
      all. */
  ghost predicate Settled(q: Queue, r: Queue, c: Command, id: Id, where: Place) {
    && OnlyMoved(q.place, r.place, id) && At(r, id, where) && r.sent == q.sent
    && r.list == (if where != Queued then q.list else if c.urgent then [id] + q.list else q.list + [id])
    && r.rpcs == (if where == Pending && c.slave in q.rpcs then Pended(q.rpcs, c, id) else q.rpcs)
    && r.timer == (q.timer || where == Queued)
    && r.failures == if where == Gone(NoTimer) && q.failures > 0 then q.failures - 1 else q.failures
  }

  lemma RefusedSettles(q: Queue, id: Id)
    requires Inv(q) && At(q, id, Held)
    ensures var r := Refused(q, id);
            Settled(q, r, q.commands[id], id, Gone(Answered)) && r.commands == q.commands && |r.place| == |q.place|
  {
  }

  lemma PushedSettles(q: Queue, id: Id)
    requires Inv(q) && At(q, id, Held)
    ensures var r, c := Pushed(q, id, q.commands[id].urgent), q.commands[id];
            Settled(q, r, c, id, if q.timer || q.failures == 0 then Queued else Gone(NoTimer))
            && r.commands == q.commands && |r.place| == |q.place|
  {
  }

  lemma DispatchedSettles(q: Queue, id: Id, launch: Launch)
    requires Inv(q) && At(q, id, Held)
    ensures var r, c := Dispatched(q, id, launch), q.commands[id];
            Settled(q, r, c, id, Destination(q, c, launch)) && r.commands == q.commands && |r.place| == |q.place|
  {
    var c := q.commands[id];
    if c.slave in q.rpcs && q.rpcs[c.slave].handle >= 0 {
      PushedSettles(q, id);
    } else if c.slave !in q.rpcs || launch.Fails? {
      RefusedSettles(q, id);
    }
  }

  /** The effect of one request: the command is created and ends up in one place. */
  lemma AskedSettles(q: Queue, i: Issue)
    requires Inv(q)
    ensures var r, id := Asked(q, i), |q.commands|;
            && Settled(q, r, i.command, id, Destination(q, i.command, i.launch))
            && r.commands == q.commands + [i.command] && |r.place| == |q.place| + 1
  {
    CreateKeeps(q, i.command);
    DispatchedSettles(Create(q, i.command), |q.commands|, i.launch);
  }

  /** Commands are only added. */
  ghost predicate Added(q: Queue, r: Queue, during: seq<Issue>) {
    && |r.place| == |q.place| + |during|
    && (forall i: Id :: i < |q.place| ==> r.place[i] == q.place[i])
    && r.rpcs.Keys == q.rpcs.Keys
  }

  /** Requests issued by a callback. */
  function AskedAll(q: Queue, during: seq<Issue>): (r: Queue)
    requires Inv(q)
    ensures Inv(r) && Added(q, r, during)
    decreases |during|
  {
    if during == [] then q
    else
      var m := AskedAll(q, during[..|during| - 1]);
      AskedSettles(m, during[|during| - 1]);
      Asked(m, during[|during| - 1])
  }

  // ---------------------------------------------------------------- the timer and replies

  /** One attempt to deliver the command just popped. */
  function Delivered(q: Queue, id: Id, active: bool, taken: bool): (r: Queue)
    requires Inv(q) && At(q, id, Held)
    ensures Inv(r)
  {
    var c := q.commands[id];
    if !active || c.slave !in q.rpcs || q.rpcs[c.slave].handle < 0 then Refused(q, id)
    else if taken then
      HandKeeps(q, id);
      if c.noack then
        DestroyKeeps(Hand(q, id), id, SentOnly);
        Destroy(Hand(q, id), id, SentOnly)
      else Hand(q, id)
    else if q.ttl[id] == 1 then
      DestroyKeeps(q, id, Expired);
      Destroy(q, id, Expired)
    else
      RetryKeeps(q, id);
      Pushed(Retry(q, id), id, true)
  }

  /** `command_consumer_cb`. `active`: the slave is activated; `taken`: com-core takes the
      packet. */
  function Ticked(q: Queue, active: bool, taken: bool): (r: Queue)
    requires Inv(q)
    ensures Inv(r)
  {
    if q.list == [] then
      TimerOffKeeps(q);
      q.(timer := false)
    else
      PopKeeps(q);
      Delivered(Pop(q), q.list[0], active, taken)
  }

  /** `slave_async_cb`, which com-core calls once for a command it took; the callback issues
      the requests `during`. */
  function Replied(q: Queue, id: Id, during: seq<Issue>): (r: Queue)
    requires Inv(q) && At(q, id, Sent)
    ensures Inv(r)
  {
    CallKeeps(q, id);
    var m := AskedAll(Call(q, id), during);
    DestroyKeeps(m, id, Answered);
    Destroy(m, id, Answered)
  }

  // ---------------------------------------------------------------- handles come and go

  predicate Purges(q: Queue, id: Id, purge: bool) {
    purge && id < |q.commands| && q.commands[id].create
  }

  /** The first command waiting for `s` is queued, or purged if it would create an instance
      anew and `purge` is set. */
  function FlushedOne(q: Queue, s: Slave, purge: bool): (r: Queue)
    requires Inv(q) && PendingOf(q, s) != []
    ensures Inv(r)
  {
    UnpendKeeps(q, s);
    var id := q.rpcs[s].pending[0];
    if Purges(q, id, purge) then
      DestroyKeeps(Unpend(q, s), id, Purged);
      Destroy(Unpend(q, s), id, Purged)
    else Pushed(Unpend(q, s), id, false)
  }

  lemma FlushedOneShortens(q: Queue, s: Slave, purge: bool)
    requires Inv(q) && PendingOf(q, s) != []
    ensures FlushedOne(q, s, purge).rpcs == q.rpcs[s := q.rpcs[s].(pending := q.rpcs[s].pending[1..])]
  {
    UnpendKeeps(q, s);
  }

  /** `EINA_LIST_FREE` on the pending list of `s`. */
  function FlushedAll(q: Queue, s: Slave, purge: bool): (r: Queue)
    requires Inv(q)
    ensures Inv(r)
    decreases |PendingOf(q, s)|
  {
    if PendingOf(q, s) == [] then q
    else
      FlushedOneShortens(q, s, purge);
      FlushedAll(FlushedOne(q, s, purge), s, purge)
  }

  /** `slave_rpc_update_handle`: the slave gets its handle, the activation callbacks issue the
      requests `during`, and what waited for the handle is flushed. */
  function Connected(q: Queue, s: Slave, handle: int, purge: bool, during: seq<Issue>): (r: Queue)
    requires Inv(q)
    ensures Inv(r)
  {
    if s !in q.rpcs then q
    else
      SetHandleKeeps(q, s, handle);
      FlushedAll(AskedAll(SetHandle(q, s, handle), during), s, purge)
  }

  function RefusedHead(q: Queue, s: Slave): (r: Queue)
    requires Inv(q) && PendingOf(q, s) != []
    ensures Inv(r)
  {
    UnpendKeeps(q, s);
    Refused(Unpend(q, s), q.rpcs[s].pending[0])
  }

  lemma RefusedHeadShortens(q: Queue, s: Slave)
    requires Inv(q) && PendingOf(q, s) != []
    ensures RefusedHead(q, s).rpcs == q.rpcs[s := q.rpcs[s].(pending := q.rpcs[s].pending[1..])]
  {
    UnpendKeeps(q, s);
    RefusedSettles(Unpend(q, s), q.rpcs[s].pending[0]);
  }

  function RefusedPending(q: Queue, s: Slave): (r: Queue)
    requires Inv(q)
    ensures Inv(r) && r.rpcs.Keys == q.rpcs.Keys
    decreases |PendingOf(q, s)|
  {
    if PendingOf(q, s) == [] then q
    else
      RefusedHeadShortens(q, s);
      RefusedPending(RefusedHead(q, s), s)
  }

  predicate IsFor(q: Queue, id: Id, s: Slave) {
    id < |q.commands| && q.commands[id].slave == s
  }

  /** The part of `command_list` from place `i` on. */
  function RefusedQueued(q: Queue, s: Slave, i: nat): (r: Queue)
    requires Inv(q)
    ensures Inv(r) && r.rpcs == q.rpcs
    decreases |q.list| - i
  {
    if i >= |q.list| then q
    else if IsFor(q, q.list[i], s) then
      PullKeeps(q, i);
      RefusedSettles(Pull(q, i), q.list[i]);
      RefusedQueued(Refused(Pull(q, i), q.list[i]), s, i)
    else RefusedQueued(q, s, i + 1)
  }

  /** `slave_deactivate_cb`: without a handle everything waiting for `s` is refused, with one
      everything queued for it. */
  function Died(q: Queue, s: Slave): (r: Queue)
    requires Inv(q)
    ensures Inv(r)
  {
    if s !in q.rpcs then q
    else
      var m := if q.rpcs[s].handle < 0 then RefusedPending(q, s) else RefusedQueued(q, s, 0);
      SetHandleKeeps(m, s, -1);
      SetHandle(m, s, -1)
  }

  // ---------------------------------------------------------------- runs

  /** What can happen between two turns of the main loop. */
  datatype Event =
    | Attaching(slave: Slave)
    | Asking(issue: Issue)
    | Ticking(active: bool, taken: bool)
    | Answering(id: Id, during: seq<Issue>)
    | Connecting(slave: Slave, handle: int, purge: bool, during: seq<Issue>)
    | Dying(slave: Slave)
    | TimersFailing(failures: nat)

  /** com-core answers only what it has taken. */
  function Step(q: Queue, e: Event): (r: Queue)
    requires Inv(q)
    ensures Inv(r)
  {
    match e
    case Attaching(s) =>
      AttachKeeps(q, s);
      Attach(q, s)
    case Asking(i) => Asked(q, i)
    case Ticking(active, taken) => Ticked(q, active, taken)
    case Answering(id, during) => if At(q, id, Sent) then Replied(q, id, during) else q
    case Connecting(s, handle, purge, during) => Connected(q, s, handle, purge, during)
    case Dying(s) => Died(q, s)
    case TimersFailing(failures) =>
      FailuresKeep(q, failures);
      q.(failures := failures)
  }

  lemma EmptyIsFine()
    ensures Inv(EMPTY)
  {
    assert forall s: Slave :: EMPTY.slaveRefs[s] == 0;
  }

  function Run(events: seq<Event>): (r: Queue)
    ensures Inv(r)
    decreases |events|
  {
    if events == [] then
      EmptyIsFine();
      EMPTY
    else Step(Run(events[..|events| - 1]), events[|events| - 1])
  }

  lemma RunNext(events: seq<Event>, k: nat)
    requires k < |events|
    ensures Run(events[..k + 1]) == Step(Run(events[..k]), events[k])
  {
    assert events[..k + 1][..k] == events[..k];
  }
}
