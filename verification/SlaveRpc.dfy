/** `slave_rpc.c`: requests to slaves, waiting for a handle, queued for the consumer timer,
    or with com-core. Each function is proved to do to the queues what its counterpart on
    values does. */
module SlaveRpc {
  import opened Errors
  import opened SlaveQueue
  import opened SlaveOrder
  import opened SlaveSteps
  import opened SlaveHandles
  import opened SlaveOutcomes
  import opened SlaveRuns

  class Dispatcher {
    var commandList: seq<Id>
    var consumerTimer: bool
    var failures: nat                // how many of the coming attempts to add the timer fail
    var rpcs: map<Slave, Rpc>
    var commands: seq<Command>
    var ttl: seq<nat>
    var packetRefs: seq<nat>
    ghost var slaveRefs: multiset<Slave>
    var place: seq<Place>
    ghost var called: seq<nat>
    ghost var sent: seq<Id>

    ghost function View(): Queue
      reads this
    {
      Queue(commandList, consumerTimer, failures, rpcs, commands, ttl, packetRefs, slaveRefs, place, called, sent)
    }

    ghost predicate Valid()
      reads this
    {
      Inv(View())
    }

    constructor ()
      ensures View() == EMPTY
    {
      commandList, consumerTimer, failures, rpcs, commands, ttl, packetRefs := [], false, 0, map[], [], [], [];
      slaveRefs, place, called, sent := multiset{}, [], [], [];
    }

    // -------------------------------------------------------------- single statements

    method CreateCommand(c: Command) returns (id: Id)
      requires Valid()
      modifies this
      ensures View() == Create(old(View()), c) && id == |old(commands)|
    {
      id := |commands|;
      commands, ttl, packetRefs := commands + [c], ttl + [DEFAULT_CMD_TTL], packetRefs + [1];
      slaveRefs, place, called := slaveRefs + multiset{c.slave}, place + [Held], called + [0];
    }

    method DestroyCommand(id: Id, fate: Fate)
      requires Shape(View()) && id < |place| && packetRefs[id] > 0
      modifies this
      ensures View() == Destroy(old(View()), id, fate)
    {
      ghost var next := Destroy(View(), id, fate);
      packetRefs := packetRefs[id := packetRefs[id] - 1];
      slaveRefs := slaveRefs - multiset{commands[id].slave};
      place := place[id := Gone(fate)];
      assert View() == next;
    }

    method CallBack(id: Id)
      requires Shape(View()) && (At(View(), id, Held) || At(View(), id, Sent))
      modifies this
      ensures View() == Call(old(View()), id)
    {
      called := called[id := called[id] + if commands[id].callback then 1 else 0];
      place := place[id := Called];
    }

    /** `push_command` and, for `front`, `prepend_command`. */
    method PushCommand(id: Id, front: bool)
      requires Valid() && At(View(), id, Held)
      modifies this
      ensures View() == Pushed(old(View()), id, front)
    {
      if !consumerTimer && failures > 0 {
        Discard(id);
      } else {
        Enlist(id, front);
      }
    }

    method Enlist(id: Id, front: bool)
      requires At(View(), id, Held)
      modifies this
      ensures View() == Enqueue(old(View()), id, front)
    {
      commandList := if front then [id] + commandList else commandList + [id];
      consumerTimer := true;
      place := place[id := Queued];
    }

    /** No timer can be had. */
    method Discard(id: Id)
      requires Valid() && At(View(), id, Held) && failures > 0
      modifies this
      ensures Inv(Unlucky(old(View()))) && View() == Destroy(Unlucky(old(View())), id, NoTimer)
    {
      FailuresKeep(View(), failures - 1);
      failures := failures - 1;
      DestroyCommand(id, NoTimer);
    }

    /** The first command leaves the queue. */
    method PopCommand() returns (id: Id)
      requires Valid() && commandList != []
      modifies this
      ensures At(old(View()), old(commandList)[0], Queued) && id == old(commandList)[0]
      ensures View() == Pop(old(View()))
    {
      PopKeeps(View());
      id := commandList[0];
      commandList := commandList[1..];
      place := place[id := Held];
    }

    method PullCommand(k: nat) returns (id: Id)
      requires Valid() && k < |commandList|
      modifies this
      ensures At(old(View()), old(commandList)[k], Queued) && id == old(commandList)[k]
      ensures View() == Pull(old(View()), k)
    {
      PullKeeps(View(), k);
      id := commandList[k];
      commandList := commandList[..k] + commandList[k + 1..];
      place := place[id := Held];
    }

    method PendCommand(id: Id, front: bool)
      requires At(View(), id, Held) && id < |commands| && commands[id].slave in rpcs
      modifies this
      ensures View() == Pend(old(View()), id, front)
    {
      var s := commands[id].slave;
      var rpc := rpcs[s];
      rpcs := rpcs[s := rpc.(pending := if front then [id] + rpc.pending else rpc.pending + [id])];
      place := place[id := Pending];
    }

    method TakePending(s: Slave) returns (id: Id)
      requires Valid() && s in rpcs && rpcs[s].pending != []
      modifies this
      ensures At(old(View()), old(rpcs)[s].pending[0], Pending) && id == old(rpcs)[s].pending[0]
      ensures View() == Unpend(old(View()), s)
    {
      UnpendKeeps(View(), s);
      var rpc := rpcs[s];
      id := rpc.pending[0];
      rpcs := rpcs[s := rpc.(pending := rpc.pending[1..])];
      place := place[id := Held];
    }

    method HandOver(id: Id)
      requires At(View(), id, Held)
      modifies this
      ensures View() == Hand(old(View()), id)
    {
      place, sent := place[id := Sent], sent + [id];
    }

    method Refuse(id: Id)
      requires Valid() && At(View(), id, Held)
      modifies this
      ensures View() == Refused(old(View()), id)
    {
      CallKeeps(View(), id);
      CallBack(id);
      DestroyKeeps(View(), id, Answered);
      DestroyCommand(id, Answered);
    }

    // -------------------------------------------------------------- requests

    method Dispatch(id: Id, launch: Launch) returns (ret: int)
      requires Valid() && At(View(), id, Held)
      modifies this
      ensures View() == Dispatched(old(View()), id, launch)
      ensures ret == Verdict(old(View()), Issue(old(commands)[id], launch))
    {
      var c := commands[id];
      if c.slave !in rpcs {
        Refuse(id);
        return WIDGET_ERROR_FAULT;
      }
      if rpcs[c.slave].handle < 0 {
        if launch.Fails? {
          Refuse(id);
          return launch.error;
        }
        PendCommand(id, c.urgent);
        return WIDGET_ERROR_NONE;
      }
      PushCommand(id, c.urgent);
      return WIDGET_ERROR_NONE;
    }

    /** `slave_rpc_async_request` and, for a command without callback,
        `slave_rpc_request_only`. */
    method Request(i: Issue) returns (ret: int)
      requires Valid()
      modifies this
      ensures View() == Asked(old(View()), i) && ret == Verdict(old(View()), i)
    {
      CreateKeeps(View(), i.command);
      var id := CreateCommand(i.command);
      ret := Dispatch(id, i.launch);
    }

    /** Requests issued by a callback. */
    method IssueAll(during: seq<Issue>)
      requires Valid()
      modifies this
      ensures View() == AskedAll(old(View()), during)
      decreases |during|
    {
      if during != [] {
        IssueAll(during[..|during| - 1]);
        var ret := Request(during[|during| - 1]);
      }
    }

    // -------------------------------------------------------------- the consumer timer

    /** `command_consumer_cb`. */
    method Consume(active: bool, taken: bool) returns (renew: bool)
      requires Valid()
      modifies this
      ensures View() == Ticked(old(View()), active, taken) && renew == (old(commandList) != [])
    {
      if commandList == [] {
        consumerTimer := false;
        return false;
      }
      PopKeeps(View());
      var id := PopCommand();
      Deliver(id, active, taken);
      return true;
    }

    method Deliver(id: Id, active: bool, taken: bool)
      requires Valid() && At(View(), id, Held)
      modifies this
      ensures View() == Delivered(old(View()), id, active, taken)
    {
      var c := commands[id];
      if !active || c.slave !in rpcs || rpcs[c.slave].handle < 0 {
        Refuse(id);
        return;
      }
      if taken {
        HandKeeps(View(), id);
        HandOver(id);
        if c.noack {
          DestroyKeeps(View(), id, SentOnly);
          DestroyCommand(id, SentOnly);
        }
        return;
      }
      SendAgain(id);
    }

    /** A failed attempt: put back in front, or discarded with the last one. */
    method SendAgain(id: Id)
      requires Valid() && At(View(), id, Held)
      modifies this
      ensures old(ttl)[id] == 1 ==> View() == Destroy(old(View()), id, Expired)
      ensures old(ttl)[id] != 1 ==> Inv(Retry(old(View()), id)) && View() == Pushed(Retry(old(View()), id), id, true)
    {
      if ttl[id] == 1 {
        DestroyKeeps(View(), id, Expired);
        DestroyCommand(id, Expired);
      } else {
        RetryKeeps(View(), id);
        ttl := ttl[id := ttl[id] - 1];
        PushCommand(id, true);
      }
    }

    /** `slave_async_cb`. */
    method Reply(id: Id, during: seq<Issue>)
      requires Valid() && At(View(), id, Sent)
      modifies this
      ensures View() == Replied(old(View()), id, during)
      ensures place[id] == Gone(Answered) && called[id] == old(called[id]) + if commands[id].callback then 1 else 0
      ensures commands == old(commands) + CommandsOf(during)
    {
      RepliedIs(View(), id, during);
      CallKeeps(View(), id);
      CallBack(id);
      IssueAll(during);
      DestroyKeeps(View(), id, Answered);
      DestroyCommand(id, Answered);
    }

    // -------------------------------------------------------------- handles come and go

    /** `slave_rpc_init`. */
    method Init(s: Slave)
      requires Valid()
      modifies this
      ensures View() == Attach(old(View()), s)
    {
      if s !in rpcs {
        rpcs := rpcs[s := Rpc(-1, [])];
      }
    }

    method FlushOne(s: Slave, purge: bool)
      requires Valid() && s in rpcs && rpcs[s].pending != []
      modifies this
      ensures View() == FlushedOne(old(View()), s, purge)
    {
      UnpendKeeps(View(), s);
      var id := TakePending(s);
      if purge && commands[id].create {
        DestroyKeeps(View(), id, Purged);
        DestroyCommand(id, Purged);
      } else {
        PushCommand(id, false);
      }
    }

    /** `EINA_LIST_FREE` on the pending list. */
    method FlushAll(s: Slave, purge: bool)
      requires Valid() && s in rpcs
      modifies this
      ensures View() == FlushedAll(old(View()), s, purge)
    {
      while rpcs[s].pending != []
        invariant Valid() && s in rpcs && FlushedAll(View(), s, purge) == FlushedAll(old(View()), s, purge)
        decreases |rpcs[s].pending|
      {
        FlushedOneShortens(View(), s, purge);
        FlushOne(s, purge);
      }
    }

    /** `slave_rpc_update_handle`. The order of the slave's ordinary commands survives if and
        only if no request of the activation callbacks overtakes one that waits, which can be
        told beforehand. */
    method UpdateHandle(s: Slave, handle: int, purge: bool, during: seq<Issue>) returns (ret: int)
      requires Valid()
      modifies this
      ensures View() == Connected(old(View()), s, handle, purge, during)
      ensures ret == if s in old(rpcs) then WIDGET_ERROR_NONE else WIDGET_ERROR_INVALID_PARAMETER
      ensures s in old(rpcs) && InOrder(old(View()), s) ==>
                (InOrder(View(), s) <==> !Overtakes(old(View()), s, handle, purge, during))
    {
      if s !in rpcs {
        return WIDGET_ERROR_INVALID_PARAMETER;
      }
      if InOrder(View(), s) {
        ConnectedOrder(View(), s, handle, purge, during);
      }
      AssignHandle(s, handle);
      IssueAll(during);
      FlushAll(s, purge);
      return WIDGET_ERROR_NONE;
    }

    method AssignHandle(s: Slave, handle: int)
      requires Valid() && s in rpcs
      modifies this
      ensures Valid() && View() == SetHandle(old(View()), s, handle)
    {
      SetHandleKeeps(View(), s, handle);
      rpcs := rpcs[s := rpcs[s].(handle := handle)];
    }

    method RefusePending(s: Slave)
      requires Valid() && s in rpcs
      modifies this
      ensures View() == RefusedPending(old(View()), s)
    {
      while rpcs[s].pending != []
        invariant Valid() && s in rpcs && RefusedPending(View(), s) == RefusedPending(old(View()), s)
        decreases |rpcs[s].pending|
      {
        RefusedHeadShortens(View(), s);
        RefuseHead(s);
      }
    }

    method RefuseHead(s: Slave)
      requires Valid() && s in rpcs && rpcs[s].pending != []
      modifies this
      ensures View() == RefusedHead(old(View()), s)
    {
      UnpendKeeps(View(), s);
      var id := TakePending(s);
      Refuse(id);
    }

    method RefuseQueued(s: Slave)
      requires Valid()
      modifies this
      ensures View() == RefusedQueued(old(View()), s, 0)
    {
      var i := 0;
      while i < |commandList|
        invariant Valid() && RefusedQueued(View(), s, i) == RefusedQueued(old(View()), s, 0)
        decreases |commandList| - i
      {
        QueuedIsIssued(View(), i);
        if commands[commandList[i]].slave == s {
          PullKeeps(View(), i);
          var id := PullCommand(i);
          Refuse(id);
        } else {
          i := i + 1;
        }
      }
    }

    /** `slave_deactivate_cb`. */
    method Deactivate(s: Slave) returns (ret: int)
      requires Valid()
      modifies this
      ensures View() == Died(old(View()), s)
      ensures ret == if s in old(rpcs) then WIDGET_ERROR_NONE else WIDGET_ERROR_INVALID_PARAMETER
    {
      if s !in rpcs {
        return WIDGET_ERROR_INVALID_PARAMETER;
      }
      if rpcs[s].handle < 0 {
        RefusePending(s);
      } else {
        RefuseQueued(s);
      }
      AssignHandle(s, -1);
      return WIDGET_ERROR_NONE;
    }

    // -------------------------------------------------------------- runs

    /** One turn of the main loop. */
    method Turn(e: Event)
      requires Valid()
      modifies this
      ensures View() == Step(old(View()), e)
    {
      match e {
        case Attaching(s) => Init(s);
        case Asking(i) => var ret := Request(i);
        case Ticking(active, taken) => var renew := Consume(active, taken);
        case Answering(id, during) =>
          if id < |place| && place[id] == Sent {
            Reply(id, during);
          }
        case Connecting(s, handle, purge, during) => var ret := UpdateHandle(s, handle, purge, during);
        case Dying(s) => var ret := Deactivate(s);
        case TimersFailing(n) => failures := n;
      }
    }

    /** Any events at all: what `SlaveRuns` says about runs it says about this program. Among
        it, if activation callbacks issue only urgent requests for the slave just activated,
        ordinary commands to one slave have been handed over in the order of their issue. */
    method AnyRun(events: seq<Event>)
      requires View() == EMPTY
      modifies this
      ensures View() == Run(events) && Valid() && AllAtRest(View()) && FatesFit(View())
      ensures (forall e :: e in events ==> Considerate(e)) ==>
                forall s, i, j ::
                  0 <= i < j < |sent| && Ordinary(commands, s, sent[i]) && Ordinary(commands, s, sent[j]) ==>
                    sent[i] < sent[j]
    {
      var k := 0;
      while k < |events|
        invariant 0 <= k <= |events| && View() == Run(events[..k])
      {
        RunNext(events, k);
        Turn(events[k]);
        k := k + 1;
      }
      assert events[..k] == events;
      RunAtRest(events);
      FatesFitOverRuns(events);
      if forall e :: e in events ==> Considerate(e) {
        forall s, i, j | 0 <= i < j < |sent| && Ordinary(commands, s, sent[i]) && Ordinary(commands, s, sent[j])
          ensures sent[i] < sent[j]
        {
          HandedOverInOrder(events, s, i, j);
        }
      }
    }
  }

  lemma QueuedIsIssued(q: Queue, i: nat)
    requires Inv(q) && i < |q.list|
    ensures q.list[i] < |q.commands|
  {
    assert q.list[i] in q.list;
  }
}
