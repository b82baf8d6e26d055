/** The calls and callbacks of `event.c` on values. */
module TouchCalls {
  import opened Errors
  import opened EventPipe
  import opened Gestures
  import opened Options
  import opened TouchSteps

  // ---------------------------------------------------------------- the threads

  /** Where a run of the threads has led. */
  function Now(run: seq<Step>): Line {
    match Run(run)
    case Some(s) => s
    case None => IDLE
  }

  /** A run of the threads that the main thread is done with. */
  predicate Sound(run: seq<Step>) {
    Run(run).Some? && Now(run).main == Free
  }

  predicate ByThread(step: Step) {
    step.Collected? || step.Signalled? || step.Finished?
  }

  /** The input thread takes those of the steps that it can. */
  function Threaded(run: seq<Step>, during: seq<Step>): seq<Step>
    decreases |during|
  {
    if during == [] then run
    else
      var r, step := Threaded(run, during[..|during| - 1]), during[|during| - 1];
      if ByThread(step) && Apply(Now(r), step).Some? then r + [step] else r
  }

  /** What `event_activate_thread` gets from opening the input device, adding the handler and
      creating the thread. */
  predicate StartResult(outcome: int) {
    outcome == WIDGET_ERROR_NONE || outcome == WIDGET_ERROR_FAULT || outcome == WIDGET_ERROR_IO_ERROR
  }

  type Outcome = r: int | StartResult(r) witness WIDGET_ERROR_NONE

  /** What it returns: the handler of the last thread may still be installed. */
  function StartVerdict(run: seq<Step>, outcome: Outcome): int {
    if Now(run).installed then WIDGET_ERROR_ALREADY_EXIST else outcome
  }

  /** `event_activate_thread`. */
  function StartedBy(run: seq<Step>, outcome: Outcome): seq<Step> {
    if StartVerdict(run, outcome) == WIDGET_ERROR_NONE then run + [Started] else run
  }

  /** `push_event_item`, by the main thread: an event with the coordinates last seen, none
      unless they are complete. The input thread goes on meanwhile. */
  function PushedBy(run: seq<Step>, item: Option<Item>, during: seq<Step>): seq<Step> {
    if item == None then run else Threaded(run + [Pushed(item.value)], during) + [Flagged]
  }

  /** The input thread sends what it owes and takes the byte that asks it to stop, unless it
      has ended before. */
  function EndedBy(run: seq<Step>): seq<Step> {
    var r := if Now(run).thread == Listing then run + [Signalled] else run;
    if Now(r).thread == Collecting then r + [Finished(true)] else r
  }

  /** `event_deactivate_thread`: asks the thread to stop and waits for it. */
  function StoppedBy(run: seq<Step>, during: seq<Step>): seq<Step> {
    EndedBy(Threaded(run + [Stopped], during)) + [Joined]
  }

  /** What the input thread leaves alone. */
  predicate SameMain(s: Line, r: Line) {
    r.main == s.main && r.activated == s.activated && r.installed == s.installed && (r.Runs() ==> r.stops == s.stops)
  }

  lemma ThreadStepKeeps(run: seq<Step>, step: Step)
    requires Run(run).Some? && ByThread(step) && Apply(Now(run), step).Some?
    ensures Run(run + [step]).Some? && SameMain(Now(run), Now(run + [step])) && Now(run).Runs()
  {
    RunNext(run, step);
  }

  lemma {:induction false} ThreadedKeeps(run: seq<Step>, during: seq<Step>)
    requires Run(run).Some?
    ensures Run(Threaded(run, during)).Some? && SameMain(Now(run), Now(Threaded(run, during)))
    ensures !Now(run).Runs() ==> Threaded(run, during) == run
    decreases |during|
  {
    if during != [] {
      var before, step := Threaded(run, during[..|during| - 1]), during[|during| - 1];
      ThreadedKeeps(run, during[..|during| - 1]);
      if ByThread(step) && Apply(Now(before), step).Some? {
        ThreadStepKeeps(before, step);
      }
    }
  }

  lemma StartingKeeps(run: seq<Step>, outcome: Outcome)
    requires Sound(run) && Now(run).items == []
    ensures Sound(StartedBy(run, outcome))
    ensures Now(StartedBy(run, outcome)).activated
            <==> Now(run).activated || StartVerdict(run, outcome) == WIDGET_ERROR_NONE
  {
    RunNext(run, Started);
  }

  lemma PushingKeeps(run: seq<Step>, item: Option<Item>, during: seq<Step>)
    requires Sound(run) && Now(run).activated
    ensures Sound(PushedBy(run, item, during)) && Now(PushedBy(run, item, during)).activated
  {
    if item != None {
      RunNext(run, Pushed(item.value));
      ThreadedKeeps(run + [Pushed(item.value)], during);
      RunNext(Threaded(run + [Pushed(item.value)], during), Flagged);
    }
  }

  lemma EndingKeeps(run: seq<Step>)
    requires Run(run).Some? && (Now(run).Runs() ==> Now(run).stops > 0)
    ensures Run(EndedBy(run)).Some? && !Now(EndedBy(run)).Runs() && SameMain(Now(run), Now(EndedBy(run)))
  {
    RunNext(run, Signalled);
    var r := if Now(run).thread == Listing then run + [Signalled] else run;
    RunNext(r, Finished(true));
  }

  lemma StoppingKeeps(run: seq<Step>, during: seq<Step>)
    requires Sound(run) && Now(run).activated
    ensures Sound(StoppedBy(run, during))
    ensures !Now(StoppedBy(run, during)).activated && !Now(StoppedBy(run, during)).Runs()
  {
    RunNext(run, Stopped);
    var r := Threaded(run + [Stopped], during);
    ThreadedKeeps(run + [Stopped], during);
    EndingKeeps(r);
    RunNext(EndedBy(r), Joined);
  }

  // ---------------------------------------------------------------- the lists

  /** `s_info`: the steps of its threads, `event_listener_list`, `reactivate_list`, and every
      listener ever registered, by number. */
  datatype Panel = Panel(run: seq<Step>, listeners: seq<Id>, waiting: seq<Id>, entries: seq<Entry>)

  const NO_LISTENERS := Panel([], [], [], [])

  ghost predicate NoDup<T(!new)>(s: seq<T>) {
    forall i, j :: 0 <= i < j < |s| ==> s[i] != s[j]
  }

  function Omit(ids: seq<Id>, id: Id): (r: seq<Id>)
    ensures forall i :: i in r <==> i in ids && i != id
  {
    if ids == [] then [] else (if ids[0] == id then [] else [ids[0]]) + Omit(ids[1..], id)
  }

  lemma {:induction false} OmitKeeps(ids: seq<Id>, id: Id)
    requires NoDup(ids)
    ensures NoDup(Omit(ids, id)) && |Omit(ids, id)| <= |ids| && (id in ids ==> |Omit(ids, id)| < |ids|)
  {
    if ids != [] {
      OmitKeeps(ids[1..], id);
      assert ids == [ids[0]] + ids[1..];
      assert ids[0] !in ids[1..];
    }
  }

  predicate InRange(ids: seq<Id>, n: nat) {
    forall k :: 0 <= k < |ids| ==> ids[k] < n
  }

  predicate Gone(p: Panel, id: Id) {
    id !in p.listeners && id !in p.waiting
  }

  /** Registered, and nothing has happened to it. */
  predicate New(e: Entry) {
    e == NewEntry(e.key, e.slot, e.tv)
  }

  ghost predicate EntryOk(p: Panel, id: Id)
    requires id < |p.entries|
  {
    if id in p.listeners then Live(p.entries[id])
    else if id in p.waiting then New(p.entries[id])
    else Over(p.entries[id])
  }

  ghost predicate Core(p: Panel) {
    && NoDup(p.listeners) && NoDup(p.waiting)
    && InRange(p.listeners, |p.entries|) && InRange(p.waiting, |p.entries|)
    && (forall id :: id in p.listeners ==> id !in p.waiting)
    && (forall id: Id :: id < |p.entries| ==> EntryOk(p, id))
  }

  lemma ListedIsLive(p: Panel, id: Id)
    requires Core(p) && id in p.listeners
    ensures id < |p.entries| && Live(p.entries[id])
  {
    assert EntryOk(p, id);
  }

  /** Nobody in the list is active. */
  ghost predicate Quiet(p: Panel)
    requires Core(p)
  {
    forall id :: id in p.listeners ==> !p.entries[id].Active()
  }

  ghost predicate PanelOk(p: Panel) {
    Sound(p.run) && Core(p) && (!Now(p.run).activated ==> Quiet(p))
  }

  /** Listeners are only added, what they were told too; nothing happens any more to those who
      have gone. */
  ghost predicate Leads(p: Panel, r: Panel) {
    && |p.entries| <= |r.entries|
    && forall id: Id :: id < |p.entries| ==>
         Follows(p.entries[id], r.entries[id])
         && (Gone(p, id) ==> Gone(r, id) && r.entries[id] == p.entries[id])
  }

  lemma LeadsOn(p: Panel, m: Panel, r: Panel)
    requires Leads(p, m) && Leads(m, r)
    ensures Leads(p, r)
  {
    forall id: Id | id < |p.entries|
      ensures Follows(p.entries[id], r.entries[id])
      ensures Gone(p, id) ==> Gone(r, id) && r.entries[id] == p.entries[id]
    {
      assert Follows(p.entries[id], m.entries[id]) && Follows(m.entries[id], r.entries[id]);
    }
  }

  /** A listener has been dealt with. */
  function Put(p: Panel, id: Id, h: Heard): Panel
    requires id < |p.entries|
  {
    p.(entries := p.entries[id := h.e], listeners := if h.gone then Omit(p.listeners, id) else p.listeners)
  }

  lemma PutKeeps(p: Panel, id: Id, h: Heard)
    requires Core(p) && id in p.listeners
    requires Follows(p.entries[id], h.e) && if h.gone then Over(h.e) else Live(h.e)
    ensures Core(Put(p, id, h)) && Leads(p, Put(p, id, h))
    ensures forall i :: i in Put(p, id, h).listeners <==> i in p.listeners && (i == id ==> !h.gone)
    ensures Quiet(p) && (!h.gone && !p.entries[id].Active() ==> !h.e.Active()) ==> Quiet(Put(p, id, h))
  {
    var r := Put(p, id, h);
    OmitKeeps(p.listeners, id);
    forall k | 0 <= k < |r.listeners| ensures r.listeners[k] < |r.entries| {
      assert r.listeners[k] in r.listeners;
    }
    forall i: Id | i < |r.entries| ensures EntryOk(r, i) {
      assert EntryOk(p, i);
    }
  }

  // ---------------------------------------------------------------- events

  /** From `p` to `r` some listeners of the list were dealt with; those that stay were in it
      before, and the rest is as it was. */
  ghost predicate Serves(p: Panel, r: Panel) {
    && Core(r) && Leads(p, r) && r.run == p.run && r.waiting == p.waiting && |r.entries| == |p.entries|
    && (forall id :: id in r.listeners ==> id in p.listeners)
    && (forall id: Id :: id < |p.entries| && id !in p.listeners ==> r.entries[id] == p.entries[id])
    && (forall id: Id :: id < |p.entries| ==> r.entries[id].dropped == p.entries[id].dropped)
    && (Core(p) && Quiet(p) ==> Quiet(r))
  }

  lemma ServesOn(p: Panel, m: Panel, r: Panel)
    requires Serves(p, m) && Serves(m, r)
    ensures Serves(p, r)
  {
    LeadsOn(p, m, r);
  }

  lemma PutServes(p: Panel, id: Id, h: Heard)
    requires Core(p) && id in p.listeners && (!h.gone && !p.entries[id].Active() ==> !h.e.Active())
    requires Follows(p.entries[id], h.e) && h.e.dropped == p.entries[id].dropped
    requires if h.gone then Over(h.e) else Live(h.e)
    ensures Serves(p, Put(p, id, h))
  {
    PutKeeps(p, id, h);
  }

  lemma Nothing(p: Panel)
    requires Core(p)
    ensures Serves(p, p)
  {
  }

  /** Listeners of the list. */
  ghost predicate Listed(p: Panel, ids: seq<Id>) {
    NoDup(ids) && forall id :: id in ids ==> id in p.listeners
  }

  /** `event_read_cb` on an input event: the listeners `ids` are looked at in turn. */
  function Served(p: Panel, ids: seq<Id>, slot: int, time: real, answers: seq<Answer>, exact: bool): (r: Panel)
    requires Core(p) && Listed(p, ids)
    ensures Serves(p, r)
    decreases |ids|
  {
    if ids == [] then
      Nothing(p);
      p
    else
      assert ids[0] in ids;
      ListedIsLive(p, ids[0]);
      var e := p.entries[ids[0]];
      if e.slot != slot then Served(p, ids[1..], slot, time, answers, exact)
      else
        var h := Touched(e, time, answers, exact);
        TouchedKeeps(e, time, answers, exact);
        PutServes(p, ids[0], h);
        PutKeeps(p, ids[0], h);
        var r := Served(Put(p, ids[0], h), ids[1..], slot, h.time, h.left, exact);
        ServesOn(p, Put(p, ids[0], h), r);
        r
  }

  /** The first of them. */
  lemma ServedNext(p: Panel, ids: seq<Id>, slot: int, time: real, answers: seq<Answer>, exact: bool)
    requires Core(p) && Listed(p, ids) && ids != []
    ensures ids[0] in p.listeners && ids[0] < |p.entries|
    ensures var e := p.entries[ids[0]]; var h := Touched(e, time, answers, exact);
            if e.slot != slot then
              && Listed(p, ids[1..])
              && Served(p, ids, slot, time, answers, exact) == Served(p, ids[1..], slot, time, answers, exact)
            else
              var m := Put(p, ids[0], h);
              && Core(m) && Listed(m, ids[1..])
              && Served(p, ids, slot, time, answers, exact) == Served(m, ids[1..], slot, h.time, h.left, exact)
  {
    assert ids[0] in ids;
    ListedIsLive(p, ids[0]);
    var e := p.entries[ids[0]];
    if e.slot == slot {
      TouchedKeeps(e, time, answers, exact);
      PutKeeps(p, ids[0], Touched(e, time, answers, exact));
    }
  }

  /** `clear_all_listener_list`. */
  function ClearedAll(p: Panel, answers: seq<Answer>): (r: Panel)
    requires Core(p)
    ensures Serves(p, r) && r.listeners == []
    decreases |p.listeners|
  {
    if p.listeners == [] then
      Nothing(p);
      p
    else
      var id := p.listeners[0];
      ListedIsLive(p, id);
      var h := Cleared(p.entries[id], 0.0, answers);
      ClearedIsOver(p.entries[id], 0.0, answers);
      PutServes(p, id, h);
      OmitKeeps(p.listeners, id);
      var r := ClearedAll(Put(p, id, h), h.left);
      ServesOn(p, Put(p, id, h), r);
      r
  }

  lemma ClearedNext(p: Panel, answers: seq<Answer>)
    requires Core(p) && p.listeners != []
    ensures p.listeners[0] < |p.entries|
    ensures var h := Cleared(p.entries[p.listeners[0]], 0.0, answers); var m := Put(p, p.listeners[0], h);
            && Core(m) && |m.listeners| < |p.listeners| && ClearedAll(p, answers) == ClearedAll(m, h.left)
  {
    var id := p.listeners[0];
    ListedIsLive(p, id);
    ClearedIsOver(p.entries[id], 0.0, answers);
    PutKeeps(p, id, Cleared(p.entries[id], 0.0, answers));
    OmitKeeps(p.listeners, id);
  }

  /** Those who waited are told ERROR. */
  function DroppedAll(entries: seq<Entry>, ids: seq<Id>): (r: seq<Entry>)
    ensures |r| == |entries|
    ensures forall i :: 0 <= i < |entries| ==>
              r[i] == if i in ids then entries[i].(dropped := true) else entries[i]
  {
    seq(|entries|, i requires 0 <= i < |entries| => if i in ids then entries[i].(dropped := true) else entries[i])
  }

  /** The rest of `event_read_cb` when EVENT_EXIT has found the list empty: those who asked
      meanwhile start anew, or are told ERROR when their thread cannot be started. */
  function Restarted(p: Panel, outcome: Outcome): Panel {
    if p.waiting == [] then p
    else if StartVerdict(p.run, outcome) == WIDGET_ERROR_NONE then
      p.(run := StartedBy(p.run, outcome), listeners := p.waiting, waiting := [])
    else p.(entries := DroppedAll(p.entries, p.waiting), waiting := [])
  }

  lemma RestartedKeeps(p: Panel, outcome: Outcome)
    requires Sound(p.run) && Core(p) && p.listeners == [] && Now(p.run).items == []
    ensures PanelOk(Restarted(p, outcome)) && Leads(p, Restarted(p, outcome))
  {
    var r := Restarted(p, outcome);
    StartingKeeps(p.run, outcome);
    forall id: Id | id < |r.entries| ensures EntryOk(r, id) {
      assert EntryOk(p, id);
    }
  }

  predicate Readable(run: seq<Step>) {
    Now(run).installed && Now(run).pipe != []
  }

  /** EVENT_EXIT with an empty list; an input event; a byte without either. */
  predicate Clears(run: seq<Step>) {
    Now(run).pipe != [] && Now(run).pipe[0] == EXIT && Now(run).items == []
  }

  function AfterExit(p: Panel, answers: seq<Answer>, outcome: Outcome): (r: Panel)
    requires Sound(p.run) && Core(p) && Now(p.run).items == []
    ensures PanelOk(r) && Leads(p, r)
  {
    var m := ClearedAll(p, answers);
    RestartedKeeps(m, outcome);
    LeadsOn(p, m, Restarted(m, outcome));
    Restarted(m, outcome)
  }

  lemma ByteRead(p: Panel)
    requires PanelOk(p) && Readable(p.run)
    ensures var q := p.(run := p.run + [Read]);
            && PanelOk(q) && Leads(p, q) && Apply(Now(p.run), Read) == Some(Now(q.run))
            && (Clears(p.run) ==> Now(q.run).items == [])
  {
    RunNext(p.run, Read);
    SameLists(p, p.(run := p.run + [Read]));
  }

  /** `event_read_cb`: one byte of the pipe. */
  function Reading(p: Panel, answers: seq<Answer>, outcome: Outcome, exact: bool): (r: Panel)
    requires PanelOk(p) && Readable(p.run)
    ensures PanelOk(r) && Leads(p, r)
  {
    var items, q := Now(p.run).items, p.(run := p.run + [Read]);
    ByteRead(p);
    if Clears(p.run) then
      LeadsOn(p, q, AfterExit(q, answers, outcome));
      AfterExit(q, answers, outcome)
    else if items == [] then q
    else
      LeadsOn(p, q, Served(q, q.listeners, items[0].slot, items[0].at, answers, exact));
      Served(q, q.listeners, items[0].slot, items[0].at, answers, exact)
  }

  lemma SameLists(p: Panel, q: Panel)
    requires Core(p) && q.listeners == p.listeners && q.waiting == p.waiting && q.entries == p.entries
    ensures Core(q) && Leads(p, q) && (Quiet(p) ==> Quiet(q))
  {
    forall id: Id | id < |q.entries| ensures EntryOk(q, id) {
      assert EntryOk(p, id);
    }
  }

  // ---------------------------------------------------------------- calls

  /** `event_activate` refuses a listener that is in the list already. */
  predicate IsRegistered(p: Panel, key: Key, slot: int)
    requires InRange(p.listeners, |p.entries|)
  {
    exists k :: 0 <= k < |p.listeners| && p.entries[p.listeners[k]].key == key && p.entries[p.listeners[k]].slot == slot
  }

  function ActivateVerdict(p: Panel, key: Key, slot: int, outcome: Outcome): int
    requires InRange(p.listeners, |p.entries|)
  {
    if IsRegistered(p, key, slot) then WIDGET_ERROR_ALREADY_EXIST
    else if Now(p.run).activated || Now(p.run).items != [] then WIDGET_ERROR_NONE
    else StartVerdict(p.run, outcome)
  }

  /** A new listener is registered: it joins the list, with a thread if none is active; or,
      while events are listed and the thread has been stopped, it waits. */
  function Enlisted(p: Panel, e: Entry, outcome: Outcome): Panel {
    var s, id := Now(p.run), |p.entries|;
    if !s.activated && s.items != [] then p.(waiting := p.waiting + [id], entries := p.entries + [e])
    else
      Panel(if s.activated then p.run else StartedBy(p.run, outcome), p.listeners + [id], p.waiting, p.entries + [e])
  }

  lemma NewIsLive(e: Entry)
    requires New(e)
    ensures Live(e)
  {
  }

  lemma NoDupAdd(ids: seq<Id>, id: Id)
    requires NoDup(ids) && id !in ids
    ensures NoDup(ids + [id])
  {
  }

  lemma EnlistedKeeps(p: Panel, e: Entry, outcome: Outcome)
    requires PanelOk(p) && New(e)
    requires Now(p.run).activated || Now(p.run).items != [] || StartVerdict(p.run, outcome) == WIDGET_ERROR_NONE
    ensures PanelOk(Enlisted(p, e, outcome)) && Leads(p, Enlisted(p, e, outcome))
  {
    var r := Enlisted(p, e, outcome);
    NewIsLive(e);
    NoDupAdd(p.listeners, |p.entries|);
    NoDupAdd(p.waiting, |p.entries|);
    if !Now(p.run).activated && Now(p.run).items == [] {
      StartingKeeps(p.run, outcome);
    }
    forall id: Id | id < |r.entries| ensures EntryOk(r, id) {
      if id < |p.entries| {
        assert EntryOk(p, id);
      }
    }
  }

  /** `event_activate`. */
  function Activating(p: Panel, key: Key, slot: int, tv: real, outcome: Outcome): (r: Panel)
    requires PanelOk(p)
    ensures PanelOk(r) && Leads(p, r)
  {
    if ActivateVerdict(p, key, slot, outcome) != WIDGET_ERROR_NONE then p
    else
      EnlistedKeeps(p, NewEntry(key, slot, tv), outcome);
      Enlisted(p, NewEntry(key, slot, tv), outcome)
  }

  /** Whom `event_deactivate` means; a negative slot means any. */
  predicate Meant(e: Entry, key: Key, slot: int) {
    e.key == key && (slot < 0 || e.slot == slot)
  }

  predicate IsHit(e: Entry, key: Key, slot: int) {
    Meant(e, key, slot) && e.Active()
  }

  function LeftBy(e: Entry, key: Key, slot: int): Entry {
    if IsHit(e, key, slot) then
      e.(prev := e.state, state := DEACTIVATE, inputs := e.inputs + [Leave])
    else e
  }

  lemma LeftByKeeps(e: Entry, key: Key, slot: int)
    requires Live(e)
    ensures Follows(e, LeftBy(e, key, slot)) && Live(LeftBy(e, key, slot))
  {
    HistoryNext(e.tv, e.inputs, Leave);
  }

  /** What the loop of `event_deactivate` leaves: the last listener that left, and whether an
      active one stays. */
  datatype Exit = Exit(entries: seq<Entry>, last: Option<Id>, keep: bool)

  function Leaving(entries: seq<Entry>, ids: seq<Id>, key: Key, slot: int): (x: Exit)
    requires InRange(ids, |entries|)
    ensures |x.entries| == |entries|
    ensures x.last.Some? ==> x.last.value in ids
    decreases |ids|
  {
    if ids == [] then Exit(entries, None, false)
    else
      var x, id := Leaving(entries, ids[..|ids| - 1], key, slot), ids[|ids| - 1];
      var e := LeftBy(x.entries[id], key, slot);
      Exit(x.entries[id := e],
           if IsHit(x.entries[id], key, slot) then Some(id) else x.last,
           x.keep || e.Active())
  }

  lemma LeavingNext(entries: seq<Entry>, ids: seq<Id>, i: nat, key: Key, slot: int)
    requires i < |ids| && InRange(ids, |entries|)
    ensures InRange(ids[..i], |entries|) && InRange(ids[..i + 1], |entries|)
    ensures var x := Leaving(entries, ids[..i], key, slot); var e := x.entries[ids[i]];
            Leaving(entries, ids[..i + 1], key, slot)
            == Exit(x.entries[ids[i] := LeftBy(e, key, slot)],
                    if IsHit(e, key, slot) then Some(ids[i]) else x.last,
                    x.keep || LeftBy(e, key, slot).Active())
  {
    assert ids[..i + 1][..i] == ids[..i];
  }

  lemma AllButLast(ids: seq<Id>, n: nat)
    requires ids != [] && NoDup(ids) && InRange(ids, n)
    ensures var before, id := ids[..|ids| - 1], ids[|ids| - 1];
            && ids == before + [id] && id !in before && id in ids && NoDup(before) && InRange(before, n)
            && forall i :: i in ids <==> i in before || i == id
  {
    var before, id := ids[..|ids| - 1], ids[|ids| - 1];
    assert ids == before + [id];
  }

  /** Each of them has left or not; nobody else is concerned. */
  lemma {:induction false} LeavingIs(entries: seq<Entry>, ids: seq<Id>, key: Key, slot: int)
    requires NoDup(ids) && InRange(ids, |entries|)
    ensures forall id: Id :: id < |entries| ==>
              Leaving(entries, ids, key, slot).entries[id] ==
              if id in ids then LeftBy(entries[id], key, slot) else entries[id]
    decreases |ids|
  {
    if ids != [] {
      AllButLast(ids, |entries|);
      LeavingIs(entries, ids[..|ids| - 1], key, slot);
    }
  }

  lemma {:induction false} LeavingHits(entries: seq<Entry>, ids: seq<Id>, key: Key, slot: int)
    requires NoDup(ids) && InRange(ids, |entries|)
    ensures Leaving(entries, ids, key, slot).last == None
            <==> forall k :: 0 <= k < |ids| ==> !IsHit(entries[ids[k]], key, slot)
    decreases |ids|
  {
    if ids != [] {
      var before := ids[..|ids| - 1];
      AllButLast(ids, |entries|);
      LeavingHits(entries, before, key, slot);
      LeavingIs(entries, before, key, slot);
      assert forall k :: 0 <= k < |before| ==> before[k] == ids[k];
    }
  }

  lemma {:induction false} LeavingStays(entries: seq<Entry>, ids: seq<Id>, key: Key, slot: int)
    requires NoDup(ids) && InRange(ids, |entries|)
    ensures Leaving(entries, ids, key, slot).keep
            <==> exists k :: 0 <= k < |ids| && LeftBy(entries[ids[k]], key, slot).Active()
    decreases |ids|
  {
    if ids != [] {
      var before := ids[..|ids| - 1];
      AllButLast(ids, |entries|);
      LeavingStays(entries, before, key, slot);
      LeavingIs(entries, before, key, slot);
      assert forall k :: 0 <= k < |before| ==> before[k] == ids[k];
    }
  }

  lemma NobodyLeft(entries: seq<Entry>, ids: seq<Id>, key: Key, slot: int)
    requires NoDup(ids) && InRange(ids, |entries|) && Leaving(entries, ids, key, slot).last == None
    ensures Leaving(entries, ids, key, slot).entries == entries
  {
    LeavingIs(entries, ids, key, slot);
    LeavingHits(entries, ids, key, slot);
    var x := Leaving(entries, ids, key, slot);
    forall i | 0 <= i < |entries| ensures x.entries[i] == entries[i] {
      if i in ids {
        var k :| 0 <= k < |ids| && ids[k] == i;
        assert !IsHit(entries[ids[k]], key, slot);
      }
    }
  }

  function DeactivateVerdict(p: Panel, key: Key, slot: int): int
    requires InRange(p.listeners, |p.entries|)
  {
    if Leaving(p.entries, p.listeners, key, slot).last == None then WIDGET_ERROR_NOT_EXIST else WIDGET_ERROR_NONE
  }

  /** A listener is active, so the thread is not stopped. */
  lemma HitIsActive(p: Panel, key: Key, slot: int)
    requires PanelOk(p) && Leaving(p.entries, p.listeners, key, slot).last.Some?
    ensures Now(p.run).activated
  {
    LeavingHits(p.entries, p.listeners, key, slot);
    var k :| 0 <= k < |p.listeners| && IsHit(p.entries[p.listeners[k]], key, slot);
    assert p.listeners[k] in p.listeners;
  }

  /** `event_deactivate`. With an active listener left an event is listed that makes the
      handler look at those who are not; else the thread is stopped. */
  function Deactivating(p: Panel, key: Key, slot: int, item: Option<Item>, during: seq<Step>): Panel
    requires InRange(p.listeners, |p.entries|)
  {
    var x := Leaving(p.entries, p.listeners, key, slot);
    if x.last == None then p
    else if x.keep then
      var id := x.last.value;
      p.(entries := x.entries[id := x.entries[id].(unsetDone := true)], run := PushedBy(p.run, item, during))
    else p.(entries := x.entries, run := StoppedBy(p.run, during))
  }

  lemma UnsetKeeps(e: Entry)
    requires Live(e)
    ensures Live(e.(unsetDone := true))
  {
  }

  /** Whatever becomes of the threads, the listeners are in order. */
  lemma LeavingKeeps(p: Panel, key: Key, slot: int, r: Panel)
    requires Core(p) && r.listeners == p.listeners && r.waiting == p.waiting && |r.entries| == |p.entries|
    requires forall id: Id :: id < |p.entries| ==>
               var e := if id in p.listeners then LeftBy(p.entries[id], key, slot) else p.entries[id];
               r.entries[id] == e || (id in p.listeners && r.entries[id] == e.(unsetDone := true))
    ensures Core(r) && Leads(p, r)
  {
    forall id: Id | id < |p.entries| ensures EntryOk(r, id) && Follows(p.entries[id], r.entries[id]) {
      assert EntryOk(p, id);
      if id in p.listeners {
        LeftByKeeps(p.entries[id], key, slot);
        UnsetKeeps(LeftBy(p.entries[id], key, slot));
      }
    }
  }

  lemma DeactivatingKeeps(p: Panel, key: Key, slot: int, item: Option<Item>, during: seq<Step>)
    requires PanelOk(p)
    ensures PanelOk(Deactivating(p, key, slot, item, during)) && Leads(p, Deactivating(p, key, slot, item, during))
  {
    var x, r := Leaving(p.entries, p.listeners, key, slot), Deactivating(p, key, slot, item, during);
    LeavingIs(p.entries, p.listeners, key, slot);
    LeavingHits(p.entries, p.listeners, key, slot);
    LeavingStays(p.entries, p.listeners, key, slot);
    LeavingKeeps(p, key, slot, r);
    if x.last.Some? {
      if x.keep {
        PushingKeeps(p.run, item, during);
      } else {
        StoppingKeeps(p.run, during);
      }
    }
  }

  // ---------------------------------------------------------------- runs

  /** What the main loop has the main thread do, and what the input thread does between. */
  datatype Call =
    | Activate(key: Key, slot: int, tv: real, outcome: Outcome)
    | Deactivate(key: Key, slot: int, item: Option<Item>, during: seq<Step>)
    | ReadByte(answers: seq<Answer>, outcome: Outcome)
    | Meanwhile(during: seq<Step>)

  lemma MeanwhileKeeps(p: Panel, during: seq<Step>)
    requires PanelOk(p)
    ensures PanelOk(p.(run := Threaded(p.run, during))) && Leads(p, p.(run := Threaded(p.run, during)))
  {
    ThreadedKeeps(p.run, during);
    SameLists(p, p.(run := Threaded(p.run, during)));
  }

  /** The handler is called only when its pipe is readable. */
  function Taken(p: Panel, c: Call, exact: bool): (r: Panel)
    requires PanelOk(p)
    ensures PanelOk(r) && Leads(p, r)
  {
    match c
    case Activate(key, slot, tv, outcome) => Activating(p, key, slot, tv, outcome)
    case Deactivate(key, slot, item, during) =>
      DeactivatingKeeps(p, key, slot, item, during);
      Deactivating(p, key, slot, item, during)
    case ReadByte(answers, outcome) => if Readable(p.run) then Reading(p, answers, outcome, exact) else p
    case Meanwhile(during) =>
      MeanwhileKeeps(p, during);
      p.(run := Threaded(p.run, during))
  }

  function TakenAll(calls: seq<Call>, exact: bool): (r: Panel)
    ensures PanelOk(r)
    decreases |calls|
  {
    if calls == [] then
      NothingYet();
      NO_LISTENERS
    else Taken(TakenAll(calls[..|calls| - 1], exact), calls[|calls| - 1], exact)
  }

  lemma NothingYet()
    ensures PanelOk(NO_LISTENERS)
  {
  }

  lemma TakenNext(calls: seq<Call>, k: nat, exact: bool)
    requires k < |calls|
    ensures TakenAll(calls[..k + 1], exact) == Taken(TakenAll(calls[..k], exact), calls[k], exact)
  {
    assert calls[..k + 1][..k] == calls[..k];
  }
}
