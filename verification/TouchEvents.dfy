/** `event.c`: touch listeners and the main thread's side of the event pipe. Each function is
    proved to do to the listeners and the threads what its counterpart on values does. */
module TouchEvents {
  import opened Errors
  import opened EventPipe
  import opened Gestures
  import opened Options
  import opened TouchSteps
  import opened TouchCalls
  import opened TouchOutcomes
  import opened TouchRuns

  class Listener {
    ghost const id: Id
    const key: Key
    const slot: int
    const tv: real
    var prevState: State
    var state: State
    var unsetDone: bool

    ghost var trace: seq<Event>   // what the callback has been told
    ghost var refused: bool       // the callback has returned a negative value
    ghost var dropped: bool       // it was told ERROR
    ghost var inputs: seq<Input>  // what has happened to it

    constructor (ghost id: Id, key: Key, slot: int, tv: real)
      ensures this.id == id && Value() == NewEntry(key, slot, tv)
    {
      this.id, this.key, this.slot, this.tv := id, key, slot, tv;
      prevState, state, unsetDone := DEACTIVATED, ACTIVATE, false;
      trace, refused, dropped, inputs := [], false, false, [];
    }

    ghost function Value(): Entry
      reads this
    {
      Entry(key, slot, tv, state, prevState, unsetDone, trace, refused, dropped, inputs)
    }
  }

  function Without(ls: seq<Listener>, l: Listener): (r: seq<Listener>)
    ensures forall m :: m in r ==> m in ls && m != l
  {
    if ls == [] then [] else (if ls[0] == l then [] else [ls[0]]) + Without(ls[1..], l)
  }

  ghost function Ids(ls: seq<Listener>): (ids: seq<Id>)
    ensures |ids| == |ls| && forall i :: 0 <= i < |ls| ==> ids[i] == ls[i].id
  {
    seq(|ls|, i requires 0 <= i < |ls| => ls[i].id)
  }

  ghost function Values(ls: seq<Listener>): (entries: seq<Entry>)
    reads ls
    ensures |entries| == |ls| && forall i :: 0 <= i < |ls| ==> entries[i] == ls[i].Value()
  {
    seq(|ls|, i requires 0 <= i < |ls| reads ls => ls[i].Value())
  }

  /** Numbers tell listeners apart. */
  ghost predicate Numbered(all: seq<Listener>) {
    forall i :: 0 <= i < |all| ==> all[i].id == i
  }

  lemma {:induction false} IdsWithout(all: seq<Listener>, ls: seq<Listener>, l: Listener)
    requires Numbered(all) && l in all && forall m :: m in ls ==> m in all
    ensures Ids(Without(ls, l)) == Omit(Ids(ls), l.id)
  {
    if ls != [] {
      assert ls[0] in ls && ls == [ls[0]] + ls[1..];
      IdsWithout(all, ls[1..], l);
      assert Ids(ls)[1..] == Ids(ls[1..]);
    }
  }

  /** `s_info` of `event.c`, with the bytes in its pipes, the places of the two threads and the
      steps they have taken, and every listener ever registered. */
  class EventInfo {
    const useEventTime: bool
    var listeners: seq<Listener>
    var reactivate: seq<Listener>
    var eventList: seq<Item>
    var evtPipe: seq<Mark>
    var tcbPipe: nat
    var thread: Thread
    var main: Main
    var eventHandler: bool
    var activated: bool

    ghost var run: seq<Step>
    ghost var all: seq<Listener>

    ghost function Threads(): Line
      reads this
    {
      Line(eventList, evtPipe, tcbPipe, thread, main, eventHandler, activated)
    }

    ghost predicate Recorded()
      reads this
    {
      Run(run) == Some(Threads())
    }

    ghost predicate Linked()
      reads this
    {
      Numbered(all) && (forall l :: l in listeners ==> l in all) && (forall l :: l in reactivate ==> l in all)
    }

    ghost function View(): Panel
      reads this, all
    {
      Panel(run, Ids(listeners), Ids(reactivate), Values(all))
    }

    ghost predicate Valid()
      reads this, all
    {
      Recorded() && Linked() && PanelOk(View())
    }

    constructor (useEventTime: bool)
      ensures Valid() && View() == NO_LISTENERS && this.useEventTime == useEventTime
      ensures all == []
    {
      this.useEventTime := useEventTime;
      listeners, reactivate, eventList, evtPipe, tcbPipe := [], [], [], [], 0;
      thread, main, eventHandler, activated := NoThread, Free, false, false;
      run, all := [], [];
      new;
      NothingYet();
      assert View() == NO_LISTENERS;
    }

    // -------------------------------------------------------------- the threads

    /** What the input thread does while the main thread does nothing. */
    method Collect(during: seq<Step>)
      requires Recorded()
      modifies this`eventList, this`evtPipe, this`tcbPipe, this`thread, this`run
      ensures Recorded() && run == Threaded(old(run), during)
    {
      var k := 0;
      while k < |during|
        invariant 0 <= k <= |during| && Recorded() && run == Threaded(old(run), during[..k])
      {
        assert during[..k + 1][..k] == during[..k];
        match during[k] {
          case Collected(item) =>
            if thread == Collecting {
              RunNext(run, Collected(item));
              eventList, thread, run := eventList + [item], Listing, run + [Collected(item)];
            }
          case Signalled =>
            if thread == Listing {
              Signal();
            }
          case Finished(asked) =>
            if thread == Collecting && (asked ==> tcbPipe > 0) {
              Finish(asked);
            }
          case _ =>
        }
        k := k + 1;
      }
      assert during[..k] == during;
    }

    /** The byte of an event. */
    method Signal()
      requires Recorded() && thread == Listing
      modifies this`evtPipe, this`thread, this`run
      ensures Recorded() && thread == Collecting && run == old(run) + [Signalled]
    {
      RunNext(run, Signalled);
      evtPipe, thread, run := evtPipe + [CH], Collecting, run + [Signalled];
    }

    /** The end of `event_thread_main`. */
    method Finish(asked: bool)
      requires Recorded() && thread == Collecting && (asked ==> tcbPipe > 0)
      modifies this`evtPipe, this`tcbPipe, this`thread, this`run
      ensures Recorded() && thread == Ended && run == old(run) + [Finished(asked)]
    {
      RunNext(run, Finished(asked));
      if asked {
        tcbPipe := tcbPipe - 1;
      }
      evtPipe, thread, run := evtPipe + [EXIT], Ended, run + [Finished(asked)];
    }

    /** `event_activate_thread`. */
    method StartThread(outcome: Outcome) returns (ret: int)
      requires Recorded() && main == Free && eventList == []
      modifies this`thread, this`eventHandler, this`activated, this`run
      ensures Recorded() && run == StartedBy(old(run), outcome) && View() == old(View()).(run := run)
      ensures ret == if old(eventHandler) then WIDGET_ERROR_ALREADY_EXIST else outcome
    {
      if eventHandler {
        return WIDGET_ERROR_ALREADY_EXIST;
      }
      if outcome != WIDGET_ERROR_NONE {
        return outcome;
      }
      RunNext(run, Started);
      eventHandler, thread, activated, run := true, Collecting, true, run + [Started];
      return WIDGET_ERROR_NONE;
    }

    /** `push_event_item`, by the main thread. */
    method PushEventItem(item: Option<Item>, during: seq<Step>)
      requires Recorded() && main == Free && activated
      modifies this`eventList, this`evtPipe, this`tcbPipe, this`thread, this`main, this`run
      ensures Recorded() && main == Free && run == PushedBy(old(run), item, during)
    {
      if item == None {
        return;
      }
      RunNext(run, Pushed(item.value));
      eventList, main, run := eventList + [item.value], Pushing, run + [Pushed(item.value)];
      Collect(during);
      RunNext(run, Flagged);
      evtPipe, main, run := evtPipe + [CH], Free, run + [Flagged];
    }

    /** `event_deactivate_thread`: asks the thread to stop and waits for it. */
    method DeactivateThread(during: seq<Step>)
      requires Recorded() && main == Free && activated
      modifies this`eventList, this`evtPipe, this`tcbPipe, this`thread, this`main, this`activated, this`run
      ensures Recorded() && main == Free && !activated && !Threads().Runs()
      ensures run == StoppedBy(old(run), during)
    {
      AskToStop();
      ThreadedKeeps(run, during);
      Collect(during);
      AwaitEnd();
      SeeEnd();
    }

    method AskToStop()
      requires Recorded() && main == Free && activated
      modifies this`tcbPipe, this`main, this`run
      ensures Recorded() && main == Joining && tcbPipe > 0 && run == old(run) + [Stopped]
    {
      RunNext(run, Stopped);
      tcbPipe, main, run := tcbPipe + 1, Joining, run + [Stopped];
    }

    method SeeEnd()
      requires Recorded() && main == Joining && !Threads().Runs()
      modifies this`main, this`activated, this`run
      ensures Recorded() && main == Free && !activated && run == old(run) + [Joined]
    {
      RunNext(run, Joined);
      main, activated, run := Free, false, run + [Joined];
    }

    /** `pthread_join`: the thread takes the byte that asks it to stop when it has sent what it
        owes, if it has not ended before. */
    method AwaitEnd()
      requires Recorded() && (Threads().Runs() ==> tcbPipe > 0)
      modifies this`evtPipe, this`tcbPipe, this`thread, this`run
      ensures Recorded() && !Threads().Runs() && run == EndedBy(old(run))
    {
      if thread == Listing {
        Signal();
      }
      if thread == Collecting {
        Finish(true);
      }
    }

    // -------------------------------------------------------------- one listener

    /** `invoke_event_cb`: tells the listener its state. A negative answer removes it. `time` is
        the time stamp of the event, which keeps it if `exact`. */
    method Invoke(l: Listener, time: real, answers: seq<Answer>, exact: bool)
      returns (deleted: bool, at: real, left: seq<Answer>)
      requires Speaks(l.Value())
      modifies this`listeners, l`trace, l`refused
      ensures var h := Invoked(old(l.Value()), time, answers, exact);
              l.Value() == h.e && deleted == h.gone && at == h.time && left == h.left
      ensures listeners == if deleted then Without(old(listeners), l) else old(listeners)
    {
      deleted, at, left := false, time, answers;
      l.trace := l.trace + [EventOf(l.state)];
      if answers != [] {
        deleted, left := answers[0].refuses, answers[1..];
        l.refused := deleted;
        if !exact {
          at := answers[0].now;
        }
      }
      if deleted {
        listeners := Without(listeners, l);
      }
    }

    /** `clear_listener`: completes the gesture and removes the listener. The event it makes up
        is not the one being dispatched. */
    method ClearListener(l: Listener, answers: seq<Answer>) returns (left: seq<Answer>)
      modifies this`listeners, l
      ensures var h := Cleared(old(l.Value()), 0.0, answers); l.Value() == h.e && left == h.left
      ensures listeners == Without(old(listeners), l)
    {
      var cleared := false;
      left := answers;
      ghost var goal := Cleared(l.Value(), 0.0, answers);
      while !cleared
        invariant if cleared then l.Value() == goal.e && left == goal.left && listeners == Without(old(listeners), l)
                  else Cleared(l.Value(), 0.0, left) == goal && listeners == old(listeners)
        decreases !cleared, Rounds(l.Value())
      {
        cleared, left := ClearOnce(l, left);
      }
    }

    /** One round of it. */
    method ClearOnce(l: Listener, answers: seq<Answer>) returns (cleared: bool, left: seq<Answer>)
      modifies this`listeners, l
      ensures listeners == if cleared then Without(old(listeners), l) else old(listeners)
      ensures var goal := Cleared(old(l.Value()), 0.0, answers);
              if cleared then l.Value() == goal.e && left == goal.left
              else Cleared(l.Value(), 0.0, left) == goal && Rounds(l.Value()) < Rounds(old(l.Value()))
    {
      left := answers;
      var nextState;
      match l.state {
        case ACTIVATE =>
          nextState := ACTIVATED;
        case ACTIVATED =>
          nextState := DEACTIVATE;
        case DEACTIVATE =>
          if l.prevState == ACTIVATE {
            l.state := ACTIVATE;
            nextState := ACTIVATED;
          } else {
            nextState := DEACTIVATED;
          }
        case _ =>
          listeners := Without(listeners, l);
          return true, answers;
      }
      var at;
      cleared, at, left := Invoke(l, 0.0, answers, true);
      if !cleared {
        l.prevState := l.state;
        l.state := nextState;
      }
    }

    /** The switch of `event_read_cb` for one listener in the slot of the event. */
    method OnItem(l: Listener, at: real, answers: seq<Answer>) returns (time: real, left: seq<Answer>)
      modifies this`listeners, l
      ensures var h := Touched(old(l.Value()), at, answers, useEventTime);
              && l.Value() == h.e && time == h.time && left == h.left
              && listeners == if h.gone then Without(old(listeners), l) else old(listeners)
    {
      time, left := at, answers;
      var nextState;
      match l.state {
        case ACTIVATE =>
          l.inputs := l.inputs + [Touch(at)];
          if l.tv > at {
            return;
          }
          nextState := ACTIVATED;
        case DEACTIVATE =>
          if l.tv < at && l.unsetDone {
            ClearedTime(l.Value(), 0.0, at, answers);
            left := ClearListener(l, answers);
            return;
          }
          l.inputs := l.inputs + [Touch(at)];
          if l.tv < at {
            time, left := OnItemLeaving(l, at, answers);
          }
          return;
        case ACTIVATED =>
          l.inputs := l.inputs + [Touch(at)];
          if l.tv > at {
            return;
          }
          nextState := ACTIVATED;
        case _ =>
          listeners := Without(listeners, l);
          return;
      }
      time, left := GoOn(l, at, answers, nextState);
    }

    /** The listener is told its state and goes on to the next one. */
    method GoOn(l: Listener, at: real, answers: seq<Answer>, nextState: State) returns (time: real, left: seq<Answer>)
      requires Speaks(l.Value())
      modifies this`listeners, l
      ensures var h := Moved(Invoked(old(l.Value()), at, answers, useEventTime), old(l.state), nextState);
              && l.Value() == h.e && time == h.time && left == h.left
              && listeners == if h.gone then Without(old(listeners), l) else old(listeners)
    {
      var deleted;
      deleted, time, left := Invoke(l, at, answers, useEventTime);
      if deleted {
        return;
      }
      l.prevState := l.state;
      l.state := nextState;
    }

    /** A listener that is leaving is told events that are older than its leaving. */
    method OnItemLeaving(l: Listener, at: real, answers: seq<Answer>) returns (time: real, left: seq<Answer>)
      requires l.state == DEACTIVATE
      modifies this`listeners, l
      ensures var e := old(l.Value());
              var again := e.(prev := DEACTIVATE, state := if e.prev == ACTIVATE then ACTIVATE else ACTIVATED);
              var h := Moved(Invoked(again, at, answers, useEventTime), ACTIVATED, DEACTIVATE);
              && l.Value() == h.e && time == h.time && left == h.left
              && listeners == if h.gone then Without(old(listeners), l) else old(listeners)
    {
      var was := l.prevState;
      l.prevState := l.state;
      l.state := if was == ACTIVATE then ACTIVATE else ACTIVATED;
      var deleted;
      deleted, time, left := Invoke(l, at, answers, useEventTime);
      if deleted {
        return;
      }
      l.prevState := ACTIVATED;
      l.state := DEACTIVATE;
    }

    // -------------------------------------------------------------- all listeners

    method Visit(l: Listener, at: real, answers: seq<Answer>) returns (time: real, left: seq<Answer>)
      requires Linked() && l in listeners
      modifies this`listeners, l
      ensures Linked() && l.id < |all|
      ensures var h := Touched(old(l.Value()), at, answers, useEventTime);
              View() == Put(old(View()), l.id, h) && time == h.time && left == h.left
    {
      ghost var was, entries := listeners, Values(all);
      time, left := OnItem(l, at, answers);
      IdsWithout(all, was, l);
      OneHasChanged(all, l, entries, Values(all));
    }

    method Clear(l: Listener, answers: seq<Answer>) returns (left: seq<Answer>)
      requires Linked() && l in listeners
      modifies this`listeners, l
      ensures Linked() && l.id < |all|
      ensures var h := Cleared(old(l.Value()), 0.0, answers);
              View() == Put(old(View()), l.id, h) && left == h.left
      ensures listeners == Without(old(listeners), l)
    {
      ghost var was, entries := listeners, Values(all);
      left := ClearListener(l, answers);
      IdsWithout(all, was, l);
      OneHasChanged(all, l, entries, Values(all));
    }

    /** `event_read_cb` on an input event. Without the events' own time the callbacks move its
        time stamp, so that listeners may see different times. */
    method OnEvent(slot: int, at: real, answers: seq<Answer>)
      requires Linked() && Core(View())
      modifies this`listeners, all
      ensures Linked() && View() == Served(old(View()), old(Ids(listeners)), slot, at, answers, useEventTime)
    {
      var ls, time, left, i := listeners, at, answers, 0;
      ghost var ids := Ids(ls);
      ghost var goal := Served(View(), ids, slot, at, answers, useEventTime);
      assert ids[0..] == ids;
      while i < |ls|
        invariant 0 <= i <= |ls| && Linked() && Core(View()) && Listed(View(), ids[i..])
        invariant Served(View(), ids[i..], slot, time, left, useEventTime) == goal
      {
        assert ids[i..][1..] == ids[i + 1..] && ids[i..][0] == ls[i].id;
        time, left := OnListener(ls[i], ids[i..], slot, time, left);
        i := i + 1;
      }
    }

    /** One of them. */
    method OnListener(l: Listener, ghost ids: seq<Id>, slot: int, at: real, answers: seq<Answer>)
      returns (time: real, left: seq<Answer>)
      requires Linked() && l in all && Core(View()) && Listed(View(), ids) && ids != [] && ids[0] == l.id
      modifies this`listeners, all
      ensures Linked() && Core(View()) && Listed(View(), ids[1..])
      ensures Served(View(), ids[1..], slot, time, left, useEventTime)
              == Served(old(View()), ids, slot, at, answers, useEventTime)
    {
      ServedNext(View(), ids, slot, at, answers, useEventTime);
      TheListener(all, listeners, l);
      if l.slot == slot {
        time, left := Visit(l, at, answers);
      } else {
        time, left := at, answers;
      }
    }

    /** `clear_all_listener_list`. */
    method ClearAll(answers: seq<Answer>)
      requires Linked() && Core(View())
      modifies this`listeners, all
      ensures Linked() && View() == ClearedAll(old(View()), answers)
    {
      var left := answers;
      ghost var goal, ls := ClearedAll(View(), answers), listeners;
      while listeners != []
        invariant Linked() && Core(View()) && ClearedAll(View(), left) == goal
        invariant forall l :: l in listeners ==> l in ls
        decreases |listeners|
      {
        var l := listeners[0];
        assert l in listeners;
        ClearedNext(View(), left);
        TheListener(all, listeners, l);
        left := Clear(l, left);
      }
    }

    /** The rest of `event_read_cb` when EVENT_EXIT has found the list empty: those who asked
        meanwhile start anew. They are told ERROR and dropped when their thread cannot be
        started. */
    method Restart(outcome: Outcome)
      requires Linked() && Core(View()) && Recorded() && main == Free && eventList == [] && listeners == []
      modifies this`listeners, this`reactivate, this`thread, this`eventHandler, this`activated, this`run, all
      ensures Recorded() && Linked() && View() == Restarted(old(View()), outcome)
    {
      if reactivate == [] {
        return;
      }
      ghost var p := View();
      var ret := StartThread(outcome);
      if ret == WIDGET_ERROR_NONE {
        ListThem();
        assert View() == p.(run := StartedBy(p.run, outcome), listeners := p.waiting, waiting := []);
      } else {
        DropThem();
        assert View() == p.(entries := DroppedAll(p.entries, p.waiting), waiting := []);
      }
    }

    method ListThem()
      requires Linked()
      modifies this`listeners, this`reactivate
      ensures Linked() && View() == old(View()).(listeners := old(View()).waiting, waiting := [])
    {
      listeners, reactivate := reactivate, [];
    }

    method DropThem()
      requires Linked()
      modifies this`reactivate, all`dropped
      ensures Linked()
      ensures var p := old(View()); View() == p.(entries := DroppedAll(p.entries, p.waiting), waiting := [])
    {
      TellError();
      reactivate := [];
    }

    /** `EINA_LIST_FREE` on those who cannot start. */
    method TellError()
      requires Linked()
      modifies all`dropped
      ensures Values(all) == DroppedAll(old(Values(all)), Ids(reactivate))
    {
      var i := 0;
      while i < |reactivate|
        invariant 0 <= i <= |reactivate|
        invariant forall k :: 0 <= k < |all| ==>
                    all[k].Value() == if all[k] in reactivate[..i] then old(all[k].Value()).(dropped := true)
                                      else old(all[k].Value())
      {
        assert reactivate[i] in reactivate;
        reactivate[i].dropped := true;
        assert reactivate[..i + 1] == reactivate[..i] + [reactivate[i]];
        i := i + 1;
      }
      assert reactivate[..i] == reactivate;
      forall k | 0 <= k < |all| ensures all[k] in reactivate <==> k in Ids(reactivate) {
        TheListener(all, reactivate, all[k]);
      }
    }

    /** What `event_read_cb` does with the byte and the event list. */
    method TakeByte() returns (cleared: bool, item: Option<Item>)
      requires Recorded() && main == Free && eventHandler && evtPipe != []
      modifies this`eventList, this`evtPipe, this`thread, this`eventHandler, this`run
      ensures Recorded() && run == old(run) + [Read]
      ensures cleared <==> Clears(old(run))
      ensures item == if old(eventList) == [] then None else Some(old(eventList[0]))
    {
      RunNext(run, Read);
      var mark := evtPipe[0];
      evtPipe, run := evtPipe[1..], run + [Read];
      cleared, item := false, None;
      if mark == EXIT {
        thread := NoThread;
        if eventList == [] {
          eventHandler := false;
          return true, None;
        }
      }
      if eventList != [] {
        item := Some(eventList[0]);
        eventList := eventList[1..];
      }
    }

    /** `event_read_cb`. At EVENT_EXIT the listeners are cleared and those who wait start anew, if
        and only if no event has been sent late; else EVENT_EXIT is an event like others. */
    method EventReadCb(answers: seq<Answer>, outcome: Outcome)
      requires Valid() && eventHandler && evtPipe != []
      modifies this, all
      ensures Valid() && View() == Reading(old(View()), answers, outcome, useEventTime) && all == old(all)
      ensures old(evtPipe[0]) == EXIT && !Late(old(run)) ==> Completes(old(View()), View(), outcome)
    {
      ghost var p := View();
      ExitFindsNothing(run);
      if Clears(run) {
        ReadingAtExit(p, answers, outcome, useEventTime);
      }
      ReadCb(answers, outcome);
    }

    method ReadCb(answers: seq<Answer>, outcome: Outcome)
      requires Valid() && eventHandler && evtPipe != []
      modifies this, all
      ensures Recorded() && Linked() && all == old(all)
      ensures View() == Reading(old(View()), answers, outcome, useEventTime)
    {
      ghost var p := View();
      ByteRead(p);
      var cleared, item := TakeByte();
      assert View() == p.(run := p.run + [Read]);
      if cleared {
        ClearAndRestart(answers, outcome);
      } else if item != None {
        OnEvent(item.value.slot, item.value.at, answers);
      }
    }

    method ClearAndRestart(answers: seq<Answer>, outcome: Outcome)
      requires Recorded() && Linked() && Core(View()) && main == Free && eventList == []
      modifies this, all
      ensures Recorded() && Linked() && View() == AfterExit(old(View()), answers, outcome) && all == old(all)
    {
      ClearAll(answers);
      Restart(outcome);
    }

    // -------------------------------------------------------------- calls

    method IsRegistered(key: Key, slot: int) returns (listed: bool)
      ensures listed <==> exists i :: 0 <= i < |listeners| && listeners[i].key == key && listeners[i].slot == slot
    {
      var i := 0;
      while i < |listeners|
        invariant 0 <= i <= |listeners|
        invariant forall j :: 0 <= j < i ==> !(listeners[j].key == key && listeners[j].slot == slot)
      {
        if listeners[i].key == key && listeners[i].slot == slot {
          return true;
        }
        i := i + 1;
      }
      return false;
    }

    /** `event_activate`. A listener is registered once per callback, data and slot. While
        events are listed and the thread has been stopped, it waits in the reactivation list.
        With no event listed a thread is started, but not while the handler of the last one is
        still installed: the listener is refused with the same error as one that is registered
        already. */
    method Activate(key: Key, slot: int, tv: real, outcome: Outcome) returns (ret: int)
      requires Valid()
      modifies this
      ensures Valid() && View() == Activating(old(View()), key, slot, tv, outcome)
      ensures ret == ActivateVerdict(old(View()), key, slot, outcome)
      ensures ret == WIDGET_ERROR_ALREADY_EXIST <==>
              || TouchCalls.IsRegistered(old(View()), key, slot)
              || (!old(activated) && old(eventList) == [] && old(eventHandler))
      ensures old(all) <= all && (ret != WIDGET_ERROR_NONE ==> all == old(all))
      ensures ret == WIDGET_ERROR_NONE ==> |all| == |old(all)| + 1 && fresh(all[|old(all)|])
    {
      ghost var p := View();
      SameRegistered(all, listeners, p.entries, key, slot);
      var listed := IsRegistered(key, slot);
      assert listed <==> TouchCalls.IsRegistered(p, key, slot);
      assert StartResult(outcome);
      if listed {
        return WIDGET_ERROR_ALREADY_EXIST;
      }
      ret := Register(key, slot, tv, outcome);
      if ret == WIDGET_ERROR_NONE {
        EnlistedKeeps(p, NewEntry(key, slot, tv), outcome);
      }
    }

    /** The part of `event_activate` behind the search. */
    method Register(key: Key, slot: int, tv: real, outcome: Outcome) returns (ret: int)
      requires Recorded() && Linked() && main == Free
      modifies this
      ensures Recorded() && Linked()
      ensures ret == if !old(activated) && old(eventList) == [] then StartVerdict(old(run), outcome)
                     else WIDGET_ERROR_NONE
      ensures ret != WIDGET_ERROR_NONE ==> View() == old(View()) && all == old(all)
      ensures ret == WIDGET_ERROR_NONE ==> View() == Enlisted(old(View()), NewEntry(key, slot, tv), outcome)
      ensures ret == WIDGET_ERROR_NONE ==> |all| == |old(all)| + 1 && old(all) <= all && fresh(all[|old(all)|])
    {
      ret := WIDGET_ERROR_NONE;
      var waits := !activated && eventList != [];
      if !activated && !waits {
        ret := StartThread(outcome);
        if ret != WIDGET_ERROR_NONE {
          return;
        }
      }
      Enlist(key, slot, tv, waits);
    }

    /** A new listener joins the list, or those who wait. */
    method Enlist(key: Key, slot: int, tv: real, waits: bool)
      requires Linked()
      modifies this`listeners, this`reactivate, this`all
      ensures Linked() && |all| == |old(all)| + 1 && old(all) <= all && fresh(all[|old(all)|])
      ensures var p := old(View());
              var id, entries := |p.entries|, p.entries + [NewEntry(key, slot, tv)];
              View() == if waits then p.(waiting := p.waiting + [id], entries := entries)
                        else p.(listeners := p.listeners + [id], entries := entries)
    {
      var l := new Listener(|all|, key, slot, tv);
      all := all + [l];
      assert Values(all) == old(Values(all)) + [NewEntry(key, slot, tv)];
      if waits {
        reactivate := reactivate + [l];
        assert Ids(reactivate) == old(Ids(reactivate)) + [l.id];
      } else {
        listeners := listeners + [l];
        assert Ids(listeners) == old(Ids(listeners)) + [l.id];
      }
    }

    /** `event_deactivate`: every active listener of the callback, in the slot or, for a
        negative one, in any slot, leaves its active state; nobody is told anything yet. The
        thread is stopped with the last active listener; while one stays, an event is listed
        that makes the handler look at those who left. The branch that frees a listener
        without finishing its gesture is never taken. */
    method Deactivate(key: Key, slot: int, item: Option<Item>, during: seq<Step>) returns (ret: int)
      requires Valid()
      modifies this`eventList, this`evtPipe, this`tcbPipe, this`thread, this`main, this`activated, this`run, all
      ensures Valid() && View() == Deactivating(old(View()), key, slot, item, during)
      ensures ret == if SomebodyHit(old(View()), key, slot) then WIDGET_ERROR_NONE else WIDGET_ERROR_NOT_EXIST
      ensures ret == WIDGET_ERROR_NONE ==>
                if SomebodyActive(View()) then activated && (item.Some? ==> Sent(old(run), item.value, run))
                else !activated && !Threads().Runs()
      ensures ret != WIDGET_ERROR_NONE ==> View() == old(View())
    {
      ghost var p := View();
      if SomebodyHit(p, key, slot) {
        DeactivatingStops(p, key, slot, item, during);
      } else {
        DeactivatingFails(p, key, slot, item, during);
      }
      DeactivatingKeeps(p, key, slot, item, during);
      ret := LeaveAndSettle(key, slot, item, during);
    }

    method LeaveAndSettle(key: Key, slot: int, item: Option<Item>, during: seq<Step>) returns (ret: int)
      requires Valid()
      modifies this`eventList, this`evtPipe, this`tcbPipe, this`thread, this`main, this`activated, this`run, all
      ensures Recorded() && Linked() && View() == Deactivating(old(View()), key, slot, item, during)
      ensures ret == DeactivateVerdict(old(View()), key, slot)
    {
      ghost var p := View();
      ghost var x := Leaving(p.entries, p.listeners, key, slot);
      var last, keep := LeaveAll(key, slot);
      if last == null {
        NobodyLeft(p.entries, p.listeners, key, slot);
        return WIDGET_ERROR_NOT_EXIST;
      }
      HitIsActive(p, key, slot);
      if !activated {
        assert false;
      }
      Settle(last, keep, item, during);
      return WIDGET_ERROR_NONE;
    }

    /** Those who left are seen to by the handler, at the next event or at EVENT_EXIT. */
    method Settle(last: Listener, keep: bool, item: Option<Item>, during: seq<Step>)
      requires Recorded() && Linked() && main == Free && activated && last in all
      modifies this`eventList, this`evtPipe, this`tcbPipe, this`thread, this`main, this`activated, this`run,
               last`unsetDone
      ensures Recorded() && last.id < |all|
      ensures var entries := old(Values(all));
              if keep then
                && run == PushedBy(old(run), item, during)
                && Values(all) == entries[last.id := entries[last.id].(unsetDone := true)]
              else
                run == StoppedBy(old(run), during) && Values(all) == entries
    {
      TheListener(all, all, last);
      if keep {
        Unset(last);
        PushEventItem(item, during);
      } else {
        DeactivateThread(during);
      }
    }

    method Unset(l: Listener)
      requires Linked() && l in all
      modifies l`unsetDone
      ensures l.id < |all| && Values(all) == old(Values(all))[l.id := old(Values(all))[l.id].(unsetDone := true)]
    {
      ghost var entries := Values(all);
      TheListener(all, all, l);
      l.unsetDone := true;
      OneHasChanged(all, l, entries, Values(all));
    }

    /** One listener in the loop of `event_deactivate`. */
    method LeaveOne(l: Listener, key: Key, slot: int) returns (left: bool)
      requires Linked() && l in all
      modifies l
      ensures l.id < |all| && all[l.id] == l && l.Value() == LeftBy(old(l.Value()), key, slot)
      ensures Values(all) == old(Values(all))[l.id := LeftBy(old(l.Value()), key, slot)]
      ensures left <==> IsHit(old(l.Value()), key, slot)
    {
      ghost var before := Values(all);
      left := l.key == key && (slot < 0 || l.slot == slot) && (l.state == ACTIVATE || l.state == ACTIVATED);
      if left {
        l.prevState := l.state;
        l.state := DEACTIVATE;
        l.inputs := l.inputs + [Leave];
      }
      OneHasChanged(all, l, before, Values(all));
    }

    /** The loop of `event_deactivate`: the last listener that left, and whether an active
        one stays. */
    method LeaveAll(key: Key, slot: int) returns (last: Listener?, keep: bool)
      requires Linked() && NoDup(Ids(listeners))
      modifies all
      ensures InRange(Ids(listeners), |all|)
      ensures var x := Leaving(old(Values(all)), Ids(listeners), key, slot);
              && Values(all) == x.entries && keep == x.keep
              && (if last == null then x.last == None else last in listeners && x.last == Some(last.id))
    {
      last, keep := null, false;
      ghost var ids, entries := Ids(listeners), Values(all);
      InAll(all, listeners);
      var i := 0;
      while i < |listeners|
        invariant 0 <= i <= |listeners| && InRange(ids[..i], |entries|)
        invariant var x := Leaving(entries, ids[..i], key, slot);
                  && Values(all) == x.entries && keep == x.keep
                  && (if last == null then x.last == None else last in listeners && x.last == Some(last.id))
      {
        var l := listeners[i];
        TheListener(all, listeners, l);
        LeavingNext(entries, ids, i, key, slot);
        var left := LeaveOne(l, key, slot);
        last := if left then l else last;
        keep := keep || l.state == ACTIVATE || l.state == ACTIVATED;
        i := i + 1;
      }
      assert ids[..i] == ids;
    }

    // -------------------------------------------------------------- runs

    /** One turn of the main loop, or of the input thread. */
    method Take(c: Call)
      requires Valid()
      modifies this, all
      ensures Valid() && View() == Taken(old(View()), c, useEventTime)
      ensures old(all) <= all && forall i :: |old(all)| <= i < |all| ==> fresh(all[i])
    {
      match c {
        case Activate(key, slot, tv, outcome) =>
          var ret := Activate(key, slot, tv, outcome);
        case Deactivate(key, slot, item, during) =>
          var ret := Deactivate(key, slot, item, during);
        case ReadByte(answers, outcome) =>
          Poll(answers, outcome);
        case Meanwhile(during) =>
          LetPass(during);
      }
    }

    /** The handler runs if there is something to read. */
    method Poll(answers: seq<Answer>, outcome: Outcome)
      requires Valid()
      modifies this, all
      ensures Valid() && all == old(all)
      ensures View() == if Readable(old(run)) then Reading(old(View()), answers, outcome, useEventTime) else old(View())
    {
      if eventHandler && evtPipe != [] {
        EventReadCb(answers, outcome);
      }
    }

    method LetPass(during: seq<Step>)
      requires Valid()
      modifies this
      ensures Valid() && View() == old(View()).(run := Threaded(old(run), during)) && all == old(all)
    {
      MeanwhileKeeps(View(), during);
      Collect(during);
    }

    /** What `WholeGestures` says of a listener. */
    lemma Told(calls: seq<Call>, l: Listener)
      requires Linked() && l in all && View() == TakenAll(calls, useEventTime)
      ensures Gesture(l.trace)
      ensures l !in listeners && l !in reactivate ==>
                if l.dropped then l.trace == [] else l.refused || Complete(l.trace)
    {
      TheListener(all, listeners, l);
      TheListener(all, reactivate, l);
      WholeGestures(calls, useEventTime, l.id);
      assert View().entries[l.id] == l.Value();
    }

    method TakeNext(calls: seq<Call>, k: nat)
      requires k < |calls| && Valid() && View() == TakenAll(calls[..k], useEventTime)
      modifies this, all
      ensures Valid() && View() == TakenAll(calls[..k + 1], useEventTime)
      ensures old(all) <= all && forall i :: |old(all)| <= i < |all| ==> fresh(all[i])
    {
      TakenNext(calls, k, useEventTime);
      Take(calls[k]);
    }

    method TakeAll(calls: seq<Call>)
      requires Valid() && View() == NO_LISTENERS && all == []
      modifies this
      ensures Valid() && View() == TakenAll(calls, useEventTime)
    {
      var k := 0;
      while k < |calls|
        invariant 0 <= k <= |calls| && Valid() && forall i :: 0 <= i < |all| ==> fresh(all[i])
        invariant View() == TakenAll(calls[..k], useEventTime)
      {
        TakeNext(calls, k);
        k := k + 1;
      }
      assert calls[..k] == calls;
    }

    /** Calls and events in any order, with any steps of the input thread between them: what
        `TouchRuns` says about runs it says about this program. In particular every listener
        that a call has registered has seen a gesture or the beginning of one, and, once it is
        in no list, all of it, unless its callback refused or it was told ERROR. */
    method AnyRun(calls: seq<Call>)
      requires Valid() && View() == NO_LISTENERS && all == []
      modifies this
      ensures Valid() && View() == TakenAll(calls, useEventTime)
      ensures forall l :: l in all ==>
                && Gesture(l.trace)
                && (l !in listeners && l !in reactivate ==>
                      if l.dropped then l.trace == [] else l.refused || Complete(l.trace))
    {
      TakeAll(calls);
      forall l | l in all
        ensures Gesture(l.trace)
        ensures l !in listeners && l !in reactivate ==>
                  if l.dropped then l.trace == [] else l.refused || Complete(l.trace)
      {
        Told(calls, l);
      }
    }
  }

  /** A listener has been dealt with, and nothing else. */
  lemma OneHasChanged(all: seq<Listener>, l: Listener, before: seq<Entry>, after: seq<Entry>)
    requires Numbered(all) && l in all && |before| == |after| == |all|
    requires forall i :: 0 <= i < |all| && all[i] != l ==> after[i] == before[i]
    ensures l.id < |all| && all[l.id] == l && after == before[l.id := after[l.id]]
  {
  }

  lemma InAll(all: seq<Listener>, ls: seq<Listener>)
    requires Numbered(all) && forall m :: m in ls ==> m in all
    ensures InRange(Ids(ls), |all|)
  {
    forall k | 0 <= k < |ls| ensures Ids(ls)[k] < |all| {
      assert ls[k] in ls;
    }
  }

  lemma SameRegistered(all: seq<Listener>, ls: seq<Listener>, entries: seq<Entry>, key: Key, slot: int)
    requires Numbered(all) && |entries| == |all| && forall m :: m in ls ==> m in all
    requires forall i :: 0 <= i < |all| ==> entries[i].key == all[i].key && entries[i].slot == all[i].slot
    ensures InRange(Ids(ls), |entries|)
    ensures (exists i :: 0 <= i < |ls| && ls[i].key == key && ls[i].slot == slot)
       <==> exists i :: 0 <= i < |ls| && entries[Ids(ls)[i]].key == key && entries[Ids(ls)[i]].slot == slot
  {
    InAll(all, ls);
    forall i | 0 <= i < |ls|
      ensures entries[Ids(ls)[i]].key == ls[i].key && entries[Ids(ls)[i]].slot == ls[i].slot
    {
      assert ls[i] in ls;
      TheListener(all, ls, ls[i]);
    }
  }

  lemma TheListener(all: seq<Listener>, ls: seq<Listener>, l: Listener)
    requires Numbered(all) && l in all && forall m :: m in ls ==> m in all
    ensures l.id < |all| && all[l.id] == l && (l in ls <==> l.id in Ids(ls))
  {
    if l in ls {
      var k :| 0 <= k < |ls| && ls[k] == l;
      assert Ids(ls)[k] == l.id;
    }
    if l.id in Ids(ls) {
      var k :| 0 <= k < |ls| && Ids(ls)[k] == l.id;
      assert ls[k] in ls;
    }
  }

  lemma {:induction false} ClearedTime(e: Entry, time: real, at: real, answers: seq<Answer>)
    ensures Cleared(e, at, answers) == Cleared(e, time, answers).(time := at)
    decreases Rounds(e)
  {
    if Speaks(e) {
      var h := Round(e, time, answers);
      if !h.gone {
        ClearedTime(h.e, time, at, h.left);
      }
    }
  }
}
