/** Whole runs of `event.c`: what every listener has been told. */
module TouchRuns {
  import opened Errors
  import opened EventPipe
  import opened Gestures
  import opened TouchSteps
  import opened TouchCalls

  /** Over any run every listener ever registered has seen a gesture or the beginning of one:
      while listed what its inputs ask for, and the whole of it once it is in no list, unless
      its callback refused. Who waits, or was told ERROR, has been told nothing. */
  lemma WholeGestures(calls: seq<Call>, exact: bool, id: Id)
    requires id < |TakenAll(calls, exact).entries|
    ensures var p := TakenAll(calls, exact); var e := p.entries[id];
            && Gesture(e.trace)
            && if id in p.listeners then Unfinished(e.trace) && e.Now() == History(e.tv, e.inputs)
               else if id in p.waiting || e.dropped then e.trace == []
               else e.refused || Complete(e.trace)
  {
    var p := TakenAll(calls, exact);
    var e := p.entries[id];
    assert EntryOk(p, id);
    HistoryIsGesture(e.tv, e.inputs);
    if Over(e) && !e.dropped {
      BeginningOfGesture(e.Past().trace + Closing(e.Past().state, e.Past().prev), e.trace);
    }
  }

  /** What a listener was told is only added to, and not at all once it has gone. */
  lemma {:induction false} NothingIsUnsaid(calls: seq<Call>, n: nat, exact: bool)
    requires n <= |calls|
    ensures Leads(TakenAll(calls[..n], exact), TakenAll(calls, exact))
    decreases |calls|
  {
    if n == |calls| {
      assert calls[..n] == calls;
    } else {
      var before := calls[..|calls| - 1];
      assert before[..n] == calls[..n];
      NothingIsUnsaid(before, n, exact);
      LeadsOn(TakenAll(calls[..n], exact), TakenAll(before, exact), TakenAll(calls, exact));
    }
  }

  /** Each successful `event_activate` of a run has made a listener of its own, which has that
      callback and slot for ever. */
  lemma EveryoneIsKnown(calls: seq<Call>, n: nat, exact: bool)
    requires n < |calls| && calls[n].Activate?
    requires var c := calls[n];
             ActivateVerdict(TakenAll(calls[..n], exact), c.key, c.slot, c.outcome) == WIDGET_ERROR_NONE
    ensures var c, id, r := calls[n], |TakenAll(calls[..n], exact).entries|, TakenAll(calls, exact);
            && id < |TakenAll(calls[..n + 1], exact).entries| == id + 1 <= |r.entries|
            && Follows(NewEntry(c.key, c.slot, c.tv), r.entries[id])
  {
    TakenNext(calls, n, exact);
    NothingIsUnsaid(calls, n + 1, exact);
  }

  /** A listener in the list, and an input event. */
  lemma {:induction false} ServedIs(p: Panel, ids: seq<Id>, slot: int, time: real, answers: seq<Answer>,
                                   exact: bool, id: Id)
    returns (at: real, left: seq<Answer>)
    requires Core(p) && Listed(p, ids)
    requires id in ids && id < |p.entries|
    ensures var e, r := p.entries[id], Served(p, ids, slot, time, answers, exact);
            if e.slot != slot then r.entries[id] == e && id in r.listeners
            else
              && r.entries[id] == Touched(e, at, left, exact).e && (exact ==> at == time)
              && (id in r.listeners <==> !Touched(e, at, left, exact).gone)
    decreases |ids|
  {
    var i := ids[0];
    assert ids == [i] + ids[1..];
    ServedNext(p, ids, slot, time, answers, exact);
    at, left := time, answers;
    if p.entries[i].slot == slot {
      var h := Touched(p.entries[i], time, answers, exact);
      TouchedKeeps(p.entries[i], time, answers, exact) by {
        ListedIsLive(p, i);
      }
      var m := Put(p, i, h);
      if id == i {
        ServedOthers(m, ids[1..], slot, h.time, h.left, exact, id);
      } else {
        at, left := ServedIs(m, ids[1..], slot, h.time, h.left, exact, id);
      }
    } else if id == i {
      ServedOthers(p, ids[1..], slot, time, answers, exact, id);
    } else {
      at, left := ServedIs(p, ids[1..], slot, time, answers, exact, id);
    }
  }

  lemma {:induction false} ServedOthers(p: Panel, ids: seq<Id>, slot: int, time: real, answers: seq<Answer>,
                                       exact: bool, id: Id)
    requires Core(p) && Listed(p, ids)
    requires id !in ids && id < |p.entries|
    ensures var r := Served(p, ids, slot, time, answers, exact);
            r.entries[id] == p.entries[id] && (id in r.listeners <==> id in p.listeners)
    decreases |ids|
  {
    if ids != [] {
      var i := ids[0];
      assert i in ids && ids == [i] + ids[1..];
      ListedIsLive(p, i);
      var e := p.entries[i];
      if e.slot == slot {
        var h := Touched(e, time, answers, exact);
        TouchedKeeps(e, time, answers, exact);
        PutKeeps(p, i, h);
        ServedOthers(Put(p, i, h), ids[1..], slot, h.time, h.left, exact, id);
      } else {
        ServedOthers(p, ids[1..], slot, time, answers, exact, id);
      }
    }
  }

  /** The byte of an event, over any run: every listener of its slot sees the event listed
      first, as its state asks for, and no other listener does. */
  lemma EventIsSeen(calls: seq<Call>, answers: seq<Answer>, outcome: Outcome, exact: bool, id: Id)
    returns (at: real, left: seq<Answer>)
    requires var p := TakenAll(calls, exact);
             Readable(p.run) && !Clears(p.run) && Now(p.run).items != [] && id in p.listeners
    ensures var p, r := TakenAll(calls, exact), TakenAll(calls + [ReadByte(answers, outcome)], exact);
            && id < |p.entries| <= |r.entries|
            && var e, item := p.entries[id], Now(p.run).items[0];
               if e.slot != item.slot then r.entries[id] == e && id in r.listeners
               else
                 && r.entries[id] == Touched(e, at, left, exact).e && (exact ==> at == item.at)
                 && (id in r.listeners <==> !Touched(e, at, left, exact).gone)
  {
    var p := TakenAll(calls, exact);
    var item, q := Now(p.run).items[0], p.(run := p.run + [Read]);
    OneMore(calls, ReadByte(answers, outcome), exact);
    ByteRead(p);
    at, left := ServedIs(q, q.listeners, item.slot, item.at, answers, exact, id);
  }

  /** Whoever was listed has gone with a complete gesture; whoever waited is listed now. */
  ghost predicate Completes(p: Panel, r: Panel, outcome: Outcome) {
    && |r.entries| == |p.entries| && r.waiting == []
    && r.listeners == (if outcome == WIDGET_ERROR_NONE then p.waiting else [])
    && forall id: Id :: id < |p.entries| && id in p.listeners ==>
         Gone(r, id) && (r.entries[id].refused || Complete(r.entries[id].trace))
  }

  lemma OverIsComplete(e: Entry)
    requires Over(e) && !e.dropped
    ensures e.refused || Complete(e.trace)
  {
    HistoryIsGesture(e.tv, e.inputs);
  }

  lemma ClearedAllCompletes(q: Panel, answers: seq<Answer>)
    requires Core(q)
    ensures var m := ClearedAll(q, answers);
            forall id: Id :: id < |q.entries| && id in q.listeners ==>
              id !in q.waiting && (m.entries[id].refused || Complete(m.entries[id].trace))
  {
    var m := ClearedAll(q, answers);
    forall id: Id | id < |q.entries| && id in q.listeners
      ensures id !in q.waiting && (m.entries[id].refused || Complete(m.entries[id].trace))
    {
      assert EntryOk(q, id) && EntryOk(m, id);
      OverIsComplete(m.entries[id]);
    }
  }

  lemma AfterExitCompletes(q: Panel, answers: seq<Answer>, outcome: Outcome)
    requires Sound(q.run) && Core(q) && Now(q.run).items == [] && !Now(q.run).installed
    ensures Completes(q, AfterExit(q, answers, outcome), outcome)
  {
    ClearedAllCompletes(q, answers);
  }

  lemma ReadingAtExit(p: Panel, answers: seq<Answer>, outcome: Outcome, exact: bool)
    requires PanelOk(p) && Readable(p.run) && Clears(p.run)
    ensures Completes(p, Reading(p, answers, outcome, exact), outcome)
  {
    ByteRead(p);
    var q := p.(run := p.run + [Read]);
    AfterExitCompletes(q, answers, outcome);
    assert Reading(p, answers, outcome, exact) == AfterExit(q, answers, outcome);
  }

  lemma OneMore(calls: seq<Call>, c: Call, exact: bool)
    ensures TakenAll(calls + [c], exact) == Taken(TakenAll(calls, exact), c, exact)
  {
    assert (calls + [c])[..|calls|] == calls;
  }

  /** EVENT_EXIT, over any run: if no event has been sent late, every listener of the list goes
      with a complete gesture, unless its callback refused, and those who waited are listed, if
      their thread can be started. Otherwise EVENT_EXIT is taken for an event. */
  lemma ExitCompletes(calls: seq<Call>, answers: seq<Answer>, outcome: Outcome, exact: bool)
    requires var p := TakenAll(calls, exact); Readable(p.run) && Now(p.run).pipe[0] == EXIT
    ensures var p, r := TakenAll(calls, exact), TakenAll(calls + [ReadByte(answers, outcome)], exact);
            if Late(p.run) then !Clears(p.run) else Clears(p.run) && Completes(p, r, outcome)
  {
    var p := TakenAll(calls, exact);
    OneMore(calls, ReadByte(answers, outcome), exact);
    ExitFindsNothing(p.run);
    if !Late(p.run) {
      ReadingAtExit(p, answers, outcome, exact);
    }
  }
}
