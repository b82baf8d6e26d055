/** `struct inst_info` and the functions of `instance.c` that move it through its
    lifecycle, statement by statement, each proved to have the effect the state machine of
    module `Lifecycle` gives it. */
module Instances {
  import opened Errors
  import opened Lifecycle

  class Instance {
    var state: State
    var requestedState: State
    var changingState: int
    var refcnt: nat
    var unicastDeleteEvent: bool
    const client: Client
    var clientList: seq<Client>

    ghost var outstanding: seq<Request>
    ghost var holds: nat
    ghost var freed: bool

    ghost function View(): Inst
      reads this
    {
      Inst(state, requestedState, changingState, refcnt, unicastDeleteEvent, client, clientList, outstanding, holds,
           freed)
    }

    /** Between two steps of the outside world. */
    ghost predicate Valid()
      reads this
    {
      Books(View()) && !freed
    }

    /** The part of `instance_create` that makes the record. */
    constructor (client: Client)
      ensures View() == Created(client)
    {
      state, requestedState, changingState, refcnt := INIT, INIT, 0, 1;
      unicastDeleteEvent, this.client, clientList := true, client, [];
      outstanding, holds, freed := [], 0, false;
    }

    // -------------------------------------------------------------- references

    method Ref()
      requires !freed
      modifies this`refcnt
      ensures refcnt == old(refcnt) + 1
    {
      refcnt := refcnt + 1;
    }

    /** `instance_unref`: the last reference destroys the instance. */
    method Unref()
      requires !freed
      modifies this`refcnt, this`freed
      ensures old(refcnt) > 0 ==> refcnt == old(refcnt) - 1 && (freed <==> refcnt == 0)
      ensures old(refcnt) == 0 ==> refcnt == 0 && !freed
    {
      if refcnt == 0 {
        return;
      }
      refcnt := refcnt - 1;
      if refcnt == 0 {
        freed := true;
      }
    }

    // -------------------------------------------------------------- viewers

    method AddClient(viewer: Client) returns (ret: int)
      requires Valid() && viewer !in clientList
      modifies this`refcnt, this`clientList
      ensures View() == AddViewer(old(View()), viewer)
      ensures ret == if viewer == client then WIDGET_ERROR_INVALID_PARAMETER else WIDGET_ERROR_NONE
    {
      if client == viewer {
        return WIDGET_ERROR_INVALID_PARAMETER;
      }
      Ref();
      clientList := clientList + [viewer];
      return WIDGET_ERROR_NONE;
    }

    /** `viewer_deactivated_cb`, for an instance with an owner. */
    method ViewerDeactivated(viewer: Client) returns (ret: int)
      requires Valid() && viewer != client
      modifies this`refcnt, this`clientList, this`freed
      ensures View() == DelViewer(old(View()), viewer)
      ensures ret == if viewer in old(clientList) then -1 else WIDGET_ERROR_NOT_EXIST
    {
      if viewer !in clientList {
        return WIDGET_ERROR_NOT_EXIST;
      }
      var k := IndexIn(clientList, viewer);
      clientList := clientList[..k] + clientList[k + 1..];
      Unref();
      return -1;
    }

    method DelClient(viewer: Client) returns (ret: int)
      requires Valid()
      modifies this`refcnt, this`clientList, this`freed
      ensures View() == DelViewer(old(View()), viewer)
      ensures ret == if viewer == client then WIDGET_ERROR_INVALID_PARAMETER else WIDGET_ERROR_NONE
    {
      if client == viewer {
        return WIDGET_ERROR_INVALID_PARAMETER;
      }
      var removed := ViewerDeactivated(viewer);
      return WIDGET_ERROR_NONE;
    }

    /** `instance_broadcast_deleted_event`: the viewers are told and removed one by one.
        Some reference beside theirs keeps the instance alive meanwhile. */
    method BroadcastDeleted()
      requires Valid() && (state != DESTROYED || Slack(View()) > 0)
      modifies this`refcnt, this`clientList, this`freed
      ensures View() == old(View()).(viewers := [], refcnt := old(refcnt) - |old(clientList)|)
    {
      var l := clientList;
      var i := 0;
      while i < |l|
        invariant 0 <= i <= |l| && clientList == l[i..]
        invariant View() == old(View()).(viewers := l[i..], refcnt := old(refcnt) - i)
        invariant Valid()
      {
        assert clientList[0] == l[i];
        var removed := DelClient(l[i]);
        assert IndexIn(l[i..], l[i]) == 0;
        assert [] + l[i..][1..] == l[i + 1..];
        i := i + 1;
      }
    }

    /** `instance_broadcast_created_event`, as far as it adds the clients that watch the
        package's category. */
    method BroadcastCreated(category: seq<Client>)
      requires Valid()
      modifies this`refcnt, this`clientList, this`unicastDeleteEvent
      ensures View() == AddViewers(old(View()), category).(unicast := false)
    {
      var i := 0;
      assert category[..0] == [];
      while i < |category|
        invariant 0 <= i <= |category|
        invariant View() == AddViewers(old(View()), category[..i])
        invariant Valid()
      {
        assert category[..i + 1][..i] == category[..i];
        if category[i] !in clientList {
          var added := AddClient(category[i]);
        }
        i := i + 1;
      }
      assert category[..|category|] == category;
      unicastDeleteEvent := false;
    }

    // -------------------------------------------------------------- requests

    /** `instance_state_reset`, as far as it moves the state. Note that it leads out of
        DESTROYED, too. */
    method StateReset()
      requires !freed
      modifies this`state, this`requestedState
      ensures state == INIT && requestedState == INIT
    {
      state := INIT;
      requestedState := INIT;
    }

    /** The end all three reply callbacks share; all they do without a packet. */
    method FinishReply()
      requires !freed && refcnt > 0
      modifies this`changingState, this`refcnt, this`freed
      ensures changingState == old(changingState) - 1
      ensures refcnt == old(refcnt) - 1 && (freed <==> refcnt == 0)
    {
      changingState := changingState - 1;
      Unref();
    }

    /** Enter the requesting state and hand the request with a fresh reference to
        `slave_rpc_async_request`, which keeps it or calls back at once. */
    method Request(r: Lifecycle.Request, goal: State, env: Env) returns (ret: int)
      requires Valid() && state != DESTROYED
      modifies this
      ensures View() == Ask(old(View()), r, goal, env)
      ensures ret < 0 <==> !env.accepted
    {
      requestedState := goal;
      state := StateOf(r);
      changingState := changingState + 1;
      Ref();
      if env.accepted {
        outstanding := outstanding + [r];
        return WIDGET_ERROR_NONE;
      }
      FinishReply();
      return WIDGET_ERROR_FAULT;
    }

    /** `instance_activate` (New) and `instance_reactivate` (Renew), which differ in the
        packet, the state and the callback only. */
    method Activate(r: Lifecycle.Request, env: Env) returns (ret: int)
      requires Valid() && r != Delete
      modifies this
      ensures View() == Load(old(View()), r, env)
      ensures ret < 0 <==> LoadFails(old(View()), env)
    {
      if env.fault {
        return WIDGET_ERROR_FAULT;
      }
      match state {
        case REQUEST_TO_REACTIVATE | REQUEST_TO_ACTIVATE | REQUEST_TO_DESTROY =>
          requestedState := ACTIVATED;
          return WIDGET_ERROR_NONE;
        case ACTIVATED | DESTROYED =>
          return WIDGET_ERROR_NONE;
        case INIT =>
      }
      if !env.launched {
        return WIDGET_ERROR_FAULT;
      }
      ret := Request(r, ACTIVATED, env);
    }

    /** `instance_destroy`. */
    method DestroyInstance(gone: bool, env: Env) returns (ret: int)
      requires Valid()
      modifies this
      ensures View() == Destroy(old(View()), gone, env)
      ensures ret < 0 <==> AsksToDelete(old(View()), gone, env) && !env.accepted
    {
      match state {
        case REQUEST_TO_ACTIVATE | REQUEST_TO_DESTROY | REQUEST_TO_REACTIVATE =>
          requestedState := DESTROYED;
          return WIDGET_ERROR_NONE;
        case INIT =>
          state := DESTROYED;
          requestedState := DESTROYED;
          Unref();
          return WIDGET_ERROR_NONE;
        case DESTROYED =>
          requestedState := DESTROYED;
          return WIDGET_ERROR_NONE;
        case ACTIVATED =>
          if gone && !env.slaveActivated {
            if !unicastDeleteEvent {
              BroadcastDeleted();
            }
            state := DESTROYED;
            requestedState := DESTROYED;
            Unref();
            return WIDGET_ERROR_NONE;
          }
      }
      ret := Request(Delete, DESTROYED, env);
    }

    /** Reset and destroy, as many callers do in a row: from INIT no request is sent. */
    method ResetAndDestroy(env: Env)
      requires Valid() && state != DESTROYED
      modifies this
      ensures View() == Bury(old(View()), false)
    {
      StateReset();
      var ret := DestroyInstance(false, env);
    }

    /** `instance_reload`. */
    method ReloadInstance(gone: bool, env: Env) returns (ret: int)
      requires Valid()
      modifies this
      ensures View() == Reload(old(View()), gone, env)
      ensures ret < 0 <==> AsksToDelete(old(View()), gone, env) && !env.accepted
    {
      match state {
        case REQUEST_TO_ACTIVATE | REQUEST_TO_REACTIVATE =>
          return WIDGET_ERROR_NONE;
        case INIT =>
          ret := Activate(New, env);
          return WIDGET_ERROR_NONE;
        case DESTROYED | REQUEST_TO_DESTROY =>
          return WIDGET_ERROR_NONE;
        case ACTIVATED =>
          if gone && !env.slaveActivated {
            state := INIT;
            ret := Activate(New, env);
            return WIDGET_ERROR_NONE;
          }
      }
      ret := Request(Delete, ACTIVATED, env);
    }

    // -------------------------------------------------------------- the slave comes and goes

    /** `instance_destroyed`. */
    method Destroyed(env: Env) returns (ret: int)
      requires Valid()
      modifies this
      ensures View() == Vanish(old(View())) && ret == WIDGET_ERROR_NONE
    {
      match state {
        case INIT | REQUEST_TO_ACTIVATE =>
          if !unicastDeleteEvent {
            BroadcastDeleted();
          }
          ResetAndDestroy(env);
        case REQUEST_TO_REACTIVATE | REQUEST_TO_DESTROY | ACTIVATED =>
          BroadcastDeleted();
          ResetAndDestroy(env);
        case DESTROYED =>
      }
      return WIDGET_ERROR_NONE;
    }

    /** Recovery of an instance the slave had loaded. */
    method RecoverLoaded(env: Env) returns (ret: int)
      requires Valid()
      requires changingState == 0
      requires state == ACTIVATED || state == REQUEST_TO_REACTIVATE || state == REQUEST_TO_DESTROY
      requires env.fault ==> requestedState == DESTROYED
      modifies this
      ensures View() == Recover(old(View()), env)
      ensures ret == if Recovers(old(View()), env) then 1 else 0
    {
      ret := 0;
      match requestedState {
        case ACTIVATED =>
          StateReset();
          var r := Activate(Renew, env);
          ret := 1;
        case DESTROYED =>
          ResetAndDestroy(env);
        case _ =>
      }
    }

    /** Ask the slave anew; without success the instance goes, and everybody is told. */
    method Restart(env: Env) returns (ret: int)
      requires Valid() && state != DESTROYED
      modifies this
      ensures View() == Restarted(old(View()), env)
      ensures ret == if LoadFails(Reset(old(View())), env) then 0 else 1
    {
      StateReset();
      var r := Activate(New, env);
      ret := 1;
      if r < 0 {
        BroadcastDeleted();
        ResetAndDestroy(env);
        ret := 0;
      }
    }

    /** Recovery of an instance the slave had not loaded yet. */
    method RecoverNew(env: Env) returns (ret: int)
      requires Valid()
      requires changingState == 0 && (state == INIT || state == REQUEST_TO_ACTIVATE)
      requires env.fault ==> requestedState == DESTROYED
      modifies this
      ensures View() == Recover(old(View()), env)
      ensures ret == if Recovers(old(View()), env) then 1 else 0
    {
      ret := 0;
      match requestedState {
        case ACTIVATED | INIT =>
          ret := Restart(env);
        case DESTROYED =>
          ResetAndDestroy(env);
        case _ =>
      }
    }

    /** `instance_recover_state`. */
    method RecoverState(env: Env) returns (ret: int)
      requires Valid()
      modifies this
      ensures View() == Recover(old(View()), env)
      ensures ret == if Recovers(old(View()), env) then 1 else 0
    {
      ret := 0;
      if changingState > 0 {
        return;
      }
      if env.fault {
        requestedState := DESTROYED;
      }
      match state {
        case ACTIVATED | REQUEST_TO_REACTIVATE | REQUEST_TO_DESTROY =>
          ret := RecoverLoaded(env);
        case INIT | REQUEST_TO_ACTIVATE =>
          ret := RecoverNew(env);
        case DESTROYED =>
      }
    }

    /** `instance_need_slave`. */
    method NeedsSlave(env: Env) returns (ret: int)
      requires Valid()
      modifies this
      ensures View() == NeedSlave(old(View()), env)
      ensures ret == if state != DESTROYED && (requestedState == INIT || requestedState == ACTIVATED) then 1 else 0
    {
      ret := 0;
      if env.ownerFaulted {
        if state != DESTROYED {
          ResetAndDestroy(env);
        }
        return;
      }
      if state != DESTROYED {
        match requestedState {
          case INIT | ACTIVATED =>
            ret := 1;
          case DESTROYED =>
            ResetAndDestroy(env);
          case _ =>
        }
      }
    }

    // -------------------------------------------------------------- replies

    /** The switch of `deactivate_cb`. Its default branch for a goal other than ACTIVATED and
        DESTROYED cannot be reached, as the source remarks. */
    method Unloaded(ret: int, env: Env)
      requires Valid() && Slack(View()) > 0 && state != DESTROYED
      requires requestedState == ACTIVATED || requestedState == DESTROYED
      modifies this
      ensures View() == Completed(old(View()), Delete, ret, env)
    {
      if ret != 0 {
        BroadcastDeleted();
        ResetAndDestroy(env);
        return;
      }
      match requestedState {
        case ACTIVATED =>
          StateReset();
          var r := Activate(Renew, env);
        case DESTROYED =>
          if !unicastDeleteEvent {
            BroadcastDeleted();
          }
          ResetAndDestroy(env);
        case _ =>
          assert false;
      }
    }

    /** `deactivate_cb`. */
    method DeactivateCb(reply: Reply, env: Env)
      requires Valid() && Protocol(View()) && outstanding == [Delete]
      modifies this
      ensures View() == Answer(old(View()), reply, env)
    {
      outstanding := [];
      if reply.Result? && state != DESTROYED {
        Unloaded(reply.ret, env);
      }
      FinishReply();
    }

    /** The switch of `reactivate_cb`. */
    method Reloaded(ret: int, env: Env)
      requires Valid() && Slack(View()) > 0 && state != DESTROYED
      modifies this
      ensures View() == Completed(old(View()), Renew, ret, env)
    {
      if ret == 0 {
        state := ACTIVATED;
        if requestedState == DESTROYED {
          var r := DestroyInstance(false, env);
        }
      } else {
        BroadcastDeleted();
        ResetAndDestroy(env);
      }
    }

    /** `reactivate_cb`. */
    method ReactivateCb(reply: Reply, env: Env)
      requires Valid() && Protocol(View()) && outstanding == [Renew]
      modifies this
      ensures View() == Answer(old(View()), reply, env)
    {
      outstanding := [];
      if reply.Result? && state != DESTROYED {
        Reloaded(reply.ret, env);
      }
      FinishReply();
    }

    /** The switch of `activate_cb`. */
    method FirstLoaded(ret: int, env: Env)
      requires Valid() && Slack(View()) > 0 && state != DESTROYED
      modifies this
      ensures View() == Completed(old(View()), New, ret, env)
    {
      if ret == 0 || ret == 1 {
        state := ACTIVATED;
        if requestedState == DESTROYED {
          var r := DestroyInstance(false, env);
        } else {
          BroadcastCreated(env.category);
        }
      } else {
        ResetAndDestroy(env);
      }
    }

    /** `activate_cb`. */
    method ActivateCb(reply: Reply, env: Env)
      requires Valid() && Protocol(View()) && outstanding == [New]
      modifies this
      ensures View() == Answer(old(View()), reply, env)
    {
      outstanding := [];
      if reply.Result? && state != DESTROYED {
        FirstLoaded(reply.ret, env);
      }
      FinishReply();
    }

    /** The end of `instance_create`: activate, or give up and free the record. */
    method Start(env: Env) returns (ok: bool)
      requires View() == Created(client)
      modifies this
      ensures ok ==> View() == Load(Created(client), New, env) && outstanding == [New]
      ensures !ok ==> freed && state == DESTROYED
    {
      var r := Activate(New, env);
      if r < 0 {
        ResetAndDestroy(env);
        return false;
      }
      return true;
    }
  }
}
