/** What each call and each byte of the pipe does to the listeners and to the threads. */
module TouchOutcomes {
  import opened Errors
  import opened EventPipe
  import opened Gestures
  import opened Options
  import opened TouchSteps
  import opened TouchCalls
  import opened TouchRuns

  // ---------------------------------------------------------------- one listener, one event

  /** The first callback to be called refuses. */
  predicate Refuses(answers: seq<Answer>) {
    answers != [] && answers[0].refuses
  }

  /** The listener is told `event` and goes on to `next`, unless its callback refuses. */
  predicate IsTold(before: Entry, h: Heard, event: Event, answers: seq<Answer>, next: State) {
    && h.e.trace == before.trace + [event] && h.gone == h.e.refused == Refuses(answers)
    && h.left == (if answers == [] then [] else answers[1..]) && (!h.gone ==> h.e.state == next)
  }

  /** The time stamp the event has for the next listener: its own if it has one, and otherwise
      the time of the last call of a callback. */
  function StampFor(at: real, answers: seq<Answer>, exact: bool): real {
    if exact || answers == [] then at else answers[0].now
  }

  /** An active listener is told every event that is not older than itself: DOWN first, MOVE
      from then on. */
  lemma ActiveListens(e: Entry, at: real, answers: seq<Answer>, exact: bool)
    requires Live(e) && e.Active()
    ensures var h := Touched(e, at, answers, exact);
            if e.tv <= at then
              && IsTold(e, h, if e.trace == [] then DOWN else MOVE, answers, ACTIVATED)
              && h.time == StampFor(at, answers, exact)
            else
              && h.time == at && h.e.trace == e.trace && !h.gone && h.e.state == e.state && h.left == answers
  {
    HistoryIsGesture(e.tv, e.inputs);
  }

  /** One that is leaving is told every later event too, until it is marked: then it is told
      the rest of its gesture, and goes. */
  lemma LeavingListens(e: Entry, at: real, answers: seq<Answer>, exact: bool)
    requires Live(e) && !e.Active()
    ensures var h := Touched(e, at, answers, exact);
            if e.tv >= at then
              h.time == at && h.e.trace == e.trace && !h.gone && h.e.state == e.state && h.left == answers
            else if e.unsetDone then h.time == at && h.gone && (h.e.refused || Complete(h.e.trace))
            else
              && IsTold(e, h, if e.trace == [] then DOWN else MOVE, answers, DEACTIVATE)
              && h.time == StampFor(at, answers, exact)
  {
    HistoryIsGesture(e.tv, e.inputs);
    TouchedKeeps(e, at, answers, exact);
    if e.tv < at && e.unsetDone {
      OverIsComplete(Touched(e, at, answers, exact).e);
    }
  }

  /** With callbacks that accept, a cleared listener has seen the whole gesture. */
  lemma ClearedAccepts(e: Entry, time: real)
    requires Live(e)
    ensures var h := Cleared(e, time, []); !h.e.refused && Complete(h.e.trace) && h.gone && h.left == []
  {
    HistoryIsGesture(e.tv, e.inputs);
    ClearedIsOver(e, time, []);
    NobodyRefuses(e, time);
    OverIsComplete(Cleared(e, time, []).e);
  }

  lemma {:induction false} NobodyRefuses(e: Entry, time: real)
    requires !e.refused
    ensures !Cleared(e, time, []).e.refused && Cleared(e, time, []).left == []
    decreases Rounds(e)
  {
    if Speaks(e) {
      NobodyRefuses(Round(e, time, []).e, time);
    }
  }

  /** The listeners hear of an event one after the other: the next sees the time stamp, and is
      given the answers, that the one before has left. */
  lemma HeardInTurn(p: Panel, a: Id, b: Id, slot: int, at: real, answers: seq<Answer>, exact: bool)
    requires Core(p) && Listed(p, [a, b]) && a in p.listeners && b in p.listeners
    requires a < |p.entries| && b < |p.entries| && p.entries[a].slot == slot == p.entries[b].slot
    requires p.entries[a].Active() && p.entries[a].tv <= at
    ensures var r, left := Served(p, [a, b], slot, at, answers, exact), if answers == [] then [] else answers[1..];
            && r.entries[a] == Touched(p.entries[a], at, answers, exact).e
            && r.entries[b] == Touched(p.entries[b], StampFor(at, answers, exact), left, exact).e
  {
    assert [a, b][0] == a && [a, b][1] == b && [a, b][1..] == [b] && [b][1..] == [];
    ServedNext(p, [a, b], slot, at, answers, exact);
    var h := Touched(p.entries[a], at, answers, exact);
    ListedIsLive(p, a);
    ActiveListens(p.entries[a], at, answers, exact);
    ServedNext(Put(p, a, h), [b], slot, h.time, h.left, exact);
  }

  // ---------------------------------------------------------------- the input thread

  /** The input thread takes the steps that it can, and those alone. */
  lemma ThreadedTakes(run: seq<Step>, during: seq<Step>, step: Step)
    ensures var r := Threaded(run, during);
            Threaded(run, during + [step]) == if ByThread(step) && Apply(Now(r), step).Some? then r + [step] else r
  {
    assert (during + [step])[..|during|] == during;
  }

  // ---------------------------------------------------------------- registering

  /** `event_activate` that succeeds: a new listener, listed with the thread running for it,
      or waiting because events are still listed for a thread that has been stopped. */
  lemma ActivatingLists(p: Panel, key: Key, slot: int, tv: real, outcome: Outcome)
    requires PanelOk(p) && ActivateVerdict(p, key, slot, outcome) == WIDGET_ERROR_NONE
    ensures var r, s, id := Activating(p, key, slot, tv, outcome), Now(p.run), |p.entries|;
            && |r.entries| == id + 1 && r.entries[..id] == p.entries
            && r.entries[id].key == key && r.entries[id].slot == slot && r.entries[id].tv == tv
            && r.entries[id].trace == [] && r.entries[id].state == ACTIVATE
            && (if s.activated || s.items == [] then
                  r.listeners == p.listeners + [id] && r.waiting == p.waiting && Now(r.run).activated
                else r.listeners == p.listeners && r.waiting == p.waiting + [id] && r.run == p.run)
            && (!s.activated && s.items == [] ==> Now(r.run).installed && Now(r.run).thread == Collecting)
            && (s.activated ==> r.run == p.run)
  {
    if !Now(p.run).activated && Now(p.run).items == [] {
      RunNext(p.run, Started);
    }
  }

  /** Otherwise nothing changes. It fails for a listener that is in the list already, and when
      a thread is needed but the old handler is there or the new thread cannot be made. */
  lemma ActivatingFails(p: Panel, key: Key, slot: int, tv: real, outcome: Outcome)
    requires PanelOk(p)
    ensures ActivateVerdict(p, key, slot, outcome) != WIDGET_ERROR_NONE
       <==> || IsRegistered(p, key, slot)
            || (!Now(p.run).activated && Now(p.run).items == [] &&
                (Now(p.run).installed || outcome != WIDGET_ERROR_NONE))
    ensures ActivateVerdict(p, key, slot, outcome) != WIDGET_ERROR_NONE ==>
              Activating(p, key, slot, tv, outcome) == p
  {
  }

  // ---------------------------------------------------------------- leaving

  /** Somebody in the list is active. */
  ghost predicate SomebodyActive(p: Panel)
    requires InRange(p.listeners, |p.entries|)
  {
    exists k :: 0 <= k < |p.listeners| && p.entries[p.listeners[k]].Active()
  }

  ghost predicate SomebodyHit(p: Panel, key: Key, slot: int)
    requires InRange(p.listeners, |p.entries|)
  {
    exists k :: 0 <= k < |p.listeners| && IsHit(p.entries[p.listeners[k]], key, slot)
  }

  /** The last of the list that leaves. */
  predicate LastHit(p: Panel, key: Key, slot: int, k: nat)
    requires InRange(p.listeners, |p.entries|)
  {
    && k < |p.listeners| && IsHit(p.entries[p.listeners[k]], key, slot)
    && forall j :: k < j < |p.listeners| ==> !IsHit(p.entries[p.listeners[j]], key, slot)
  }

  /** `event_deactivate`: those meant are not active any more, and have been told nothing yet;
      all others are as they were. */
  lemma DeactivatingLeaves(p: Panel, key: Key, slot: int, item: Option<Item>, during: seq<Step>, id: Id)
    requires PanelOk(p) && id in p.listeners
    ensures var r := Deactivating(p, key, slot, item, during);
            && r.listeners == p.listeners && r.waiting == p.waiting && |r.entries| == |p.entries| && id < |p.entries|
            && var e, f := p.entries[id], r.entries[id];
               f.trace == e.trace
               && if IsHit(e, key, slot) then
                    f.state == DEACTIVATE && f.prev == e.state && f.inputs == e.inputs + [Leave]
                  else f.state == e.state && f.prev == e.prev && f.inputs == e.inputs
  {
    LeavingIs(p.entries, p.listeners, key, slot);
    LeavingHits(p.entries, p.listeners, key, slot);
    var k :| 0 <= k < |p.listeners| && p.listeners[k] == id;
    assert IsHit(p.entries[p.listeners[k]], key, slot) ==> Leaving(p.entries, p.listeners, key, slot).last.Some?;
  }

  lemma {:induction false} LeavingLast(entries: seq<Entry>, ids: seq<Id>, key: Key, slot: int, k: nat)
    requires NoDup(ids) && InRange(ids, |entries|) && k < |ids| && IsHit(entries[ids[k]], key, slot)
    requires forall j :: k < j < |ids| ==> !IsHit(entries[ids[j]], key, slot)
    ensures Leaving(entries, ids, key, slot).last == Some(ids[k])
    decreases |ids|
  {
    var n := |ids| - 1;
    AllButLast(ids, |entries|);
    LeavingIs(entries, ids[..n], key, slot);
    if k < n {
      assert forall j :: 0 <= j < n ==> ids[..n][j] == ids[j];
      LeavingLast(entries, ids[..n], key, slot, k);
    }
  }

  lemma SomebodyStays(p: Panel, key: Key, slot: int, item: Option<Item>, during: seq<Step>)
    requires PanelOk(p) && SomebodyHit(p, key, slot)
    ensures var r := Deactivating(p, key, slot, item, during);
            && r.listeners == p.listeners && |r.entries| == |p.entries|
            && (SomebodyActive(r) <==> Leaving(p.entries, p.listeners, key, slot).keep)
  {
    var x := Leaving(p.entries, p.listeners, key, slot);
    var r := Deactivating(p, key, slot, item, during);
    LeavingIs(p.entries, p.listeners, key, slot);
    LeavingHits(p.entries, p.listeners, key, slot);
    LeavingStays(p.entries, p.listeners, key, slot);
    forall k | 0 <= k < |p.listeners|
      ensures r.entries[p.listeners[k]].Active() <==> LeftBy(p.entries[p.listeners[k]], key, slot).Active()
    {
      assert p.listeners[k] in p.listeners;
    }
  }

  /** With the last active listener the thread is stopped, and has ended when the call returns.
      While one stays active an event is listed and its byte sent, if there are coordinates,
      and the last that left is marked to be cleared. */
  lemma DeactivatingStops(p: Panel, key: Key, slot: int, item: Option<Item>, during: seq<Step>)
    requires PanelOk(p) && SomebodyHit(p, key, slot)
    ensures var r := Deactivating(p, key, slot, item, during);
            && InRange(r.listeners, |r.entries|) && |r.entries| == |p.entries|
            && DeactivateVerdict(p, key, slot) == WIDGET_ERROR_NONE
            && (if SomebodyActive(r) then
                  && Now(r.run).activated
                  && (item == None ==> r.run == p.run)
                  && (item.Some? ==> Sent(p.run, item.value, r.run))
                  && (forall k: nat :: LastHit(p, key, slot, k) ==> r.entries[p.listeners[k]].unsetDone)
                else !Now(r.run).activated && !Now(r.run).Runs())
  {
    var x := Leaving(p.entries, p.listeners, key, slot);
    DeactivatingKeeps(p, key, slot, item, during);
    LeavingHits(p.entries, p.listeners, key, slot);
    SomebodyStays(p, key, slot, item, during);
    HitIsActive(p, key, slot);
    if x.keep {
      PushingKeeps(p.run, item, during);
      if item.Some? {
        PushedIsSent(p.run, item.value, during);
      }
      forall k: nat | LastHit(p, key, slot, k)
        ensures Deactivating(p, key, slot, item, during).entries[p.listeners[k]].unsetDone
      {
        LeavingLast(p.entries, p.listeners, key, slot, k);
      }
    } else {
      StoppingKeeps(p.run, during);
    }
  }

  /** The main thread has listed the item and sent its byte. */
  ghost predicate Sent(before: seq<Step>, item: Item, after: seq<Step>) {
    && |after| >= |before| + 2 && before <= after
    && after[|before|] == Pushed(item) && after[|after| - 1] == Flagged
  }

  lemma {:induction false} ThreadedExtends(run: seq<Step>, during: seq<Step>)
    ensures run <= Threaded(run, during)
    decreases |during|
  {
    if during != [] {
      ThreadedExtends(run, during[..|during| - 1]);
    }
  }

  lemma PushedIsSent(run: seq<Step>, item: Item, during: seq<Step>)
    ensures Sent(run, item, PushedBy(run, Some(item), during))
  {
    ThreadedExtends(run + [Pushed(item)], during);
  }

  /** Nobody is meant: nothing changes. */
  lemma DeactivatingFails(p: Panel, key: Key, slot: int, item: Option<Item>, during: seq<Step>)
    requires PanelOk(p) && !SomebodyHit(p, key, slot)
    ensures Deactivating(p, key, slot, item, during) == p
    ensures DeactivateVerdict(p, key, slot) == WIDGET_ERROR_NOT_EXIST
  {
    LeavingHits(p.entries, p.listeners, key, slot);
  }

  // ---------------------------------------------------------------- bytes of the pipe

  /** Every readable byte is taken, and the event listed first with it. */
  lemma ReadingTakes(p: Panel, answers: seq<Answer>, outcome: Outcome, exact: bool)
    requires PanelOk(p) && Readable(p.run) && !Clears(p.run)
    ensures var r := Reading(p, answers, outcome, exact); var s := Now(p.run);
            && r.run == p.run + [Read] && r.waiting == p.waiting
            && Now(r.run).pipe == s.pipe[1..] && Now(r.run).items == if s.items == [] then [] else s.items[1..]
  {
    ByteRead(p);
  }

  lemma ReadAtExit(p: Panel, answers: seq<Answer>, outcome: Outcome, exact: bool)
    requires PanelOk(p) && Readable(p.run) && Clears(p.run)
    ensures var q := p.(run := p.run + [Read]);
            && Sound(q.run) && Core(q) && Now(q.run).items == []
            && !Now(q.run).installed && Now(q.run).thread == NoThread
            && Reading(p, answers, outcome, exact) == AfterExit(q, answers, outcome)
  {
    ByteRead(p);
  }

  /** The listeners have been cleared; those who wait are next. */
  lemma RestartedRun(m: Panel, outcome: Outcome)
    requires Sound(m.run) && Now(m.run).items == [] && !Now(m.run).installed && Now(m.run).thread == NoThread
    ensures var s := Now(Restarted(m, outcome).run);
            if m.waiting != [] && outcome == WIDGET_ERROR_NONE then s.installed && s.activated && s.thread == Collecting
            else !s.installed && s.thread == NoThread
  {
    RunNext(m.run, Started);
  }

  /** After EVENT_EXIT with an empty list the handler is gone; if somebody waited and a thread
      can be started, it is there again, and the thread runs. */
  lemma ExitRestarts(p: Panel, answers: seq<Answer>, outcome: Outcome, exact: bool)
    requires PanelOk(p) && Readable(p.run) && Clears(p.run)
    ensures var s := Now(Reading(p, answers, outcome, exact).run);
            if p.waiting != [] && outcome == WIDGET_ERROR_NONE then s.installed && s.activated && s.thread == Collecting
            else !s.installed && s.thread == NoThread
  {
    ReadAtExit(p, answers, outcome, exact);
    RestartedRun(ClearedAll(p.(run := p.run + [Read]), answers), outcome);
  }

  lemma RestartedDrops(m: Panel, outcome: Outcome, id: Id)
    requires Core(m) && !Now(m.run).installed && id in m.waiting && m.listeners == []
    ensures var r := Restarted(m, outcome);
            && id < |r.entries| && r.entries[id].trace == []
            && (r.entries[id].dropped <==> outcome != WIDGET_ERROR_NONE)
            && (id in r.listeners <==> outcome == WIDGET_ERROR_NONE)
  {
    assert EntryOk(m, id);
  }

  /** Those who waited are told ERROR when no thread can be started for them, and only then. */
  lemma ExitDrops(p: Panel, answers: seq<Answer>, outcome: Outcome, exact: bool, id: Id)
    requires PanelOk(p) && Readable(p.run) && Clears(p.run) && id in p.waiting
    ensures var r := Reading(p, answers, outcome, exact);
            && id < |r.entries| && r.entries[id].trace == []
            && (r.entries[id].dropped <==> outcome != WIDGET_ERROR_NONE)
            && (id in r.listeners <==> outcome == WIDGET_ERROR_NONE)
  {
    ReadAtExit(p, answers, outcome, exact);
    RestartedDrops(ClearedAll(p.(run := p.run + [Read]), answers), outcome, id);
  }
}
