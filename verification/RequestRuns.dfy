/** What becomes of each request, by every event and over whole runs. */
module RequestRuns {
  import opened Bytes
  import opened Options
  import opened Requests
  import opened RequestSteps

  // ---------------------------------------------------------------- who goes

  function SweepAt(list: seq<Context>, i: nat): Sweep
    requires i <= |list|
  {
    Sweep(list[..i], list[i..])
  }

  lemma SweptStays(list: seq<Context>, i: nat, handle: int, during: seq<seq<Request>>, n: Id)
    requires i < |list| && Stays(list[i], handle)
    ensures Swept(SweepAt(list, i), handle, during, n) == SweepAt(list, i + 1)
  {
    assert list[i..][1..] + [] == list[i + 1..] && list[..i] + [list[i]] == list[..i + 1];
  }

  lemma SweptVisits(list: seq<Context>, i: nat, handle: int, during: seq<seq<Request>>, n: Id)
    requires i < |list| && !Stays(list[i], handle)
    ensures var rs := Says(list[i], handle, during);
            Swept(SweepAt(list, i), handle, during, n) == SweepAt(Without(list, i) + Contexts(rs, n), i)
  {
    var next := Without(list, i) + Contexts(Says(list[i], handle, during), n);
    assert list[..i] + [] == next[..i];
    assert list[i..][1..] + Contexts(Says(list[i], handle, during), n) == next[i..];
  }

  lemma WholeSweep(list: seq<Context>, i: nat)
    requires i <= |list|
    ensures SweepAt(list, i).kept + SweepAt(list, i).rest == list
  {
  }

  /** The loop makes of the list what `CleanedUp` says. */
  lemma {:induction false} LostFromList(t: Table, i: nat, handle: int, during: seq<seq<Request>>)
    requires Inv(t) && i <= |t.list|
    ensures LostFrom(t, i, handle, during).list == Goal(SweepAt(t.list, i), handle, during, |t.requests|)
    decreases |during|, |t.list| - i
  {
    WholeSweep(t.list, i);
    if i < |t.list| {
      SweepLeads(SweepAt(t.list, i), handle, during, |t.requests|);
      if Stays(t.list[i], handle) {
        SweptStays(t.list, i, handle, during, |t.requests|);
        WholeSweep(t.list, i + 1);
        LostFromList(t, i + 1, handle, during);
      } else {
        LostFromVisits(t, i, handle, during);
      }
    }
  }

  /** A visit in terms of the goal. */
  lemma ListVisits(list: seq<Context>, i: nat, handle: int, during: seq<seq<Request>>, n: Id,
                   next: seq<Context>, nextId: Id)
    requires i < |list| && !Stays(list[i], handle) && nextId == n + |Says(list[i], handle, during)|
    requires next == Without(list, i) + Contexts(Says(list[i], handle, during), n)
    ensures i <= |next|
    ensures Goal(SweepAt(list, i), handle, during, n)
            == if i + 1 == |list| then next
               else Goal(SweepAt(next, i), handle, Unsaid(list[i], handle, during), nextId)
  {
    SweepLeads(SweepAt(list, i), handle, during, n);
    SweptVisits(list, i, handle, during, n);
    WholeSweep(next, i);
  }

  /** `m` is what a visit to entry `i` makes of `t`. */
  lemma GoalVisits(t: Table, i: nat, handle: int, during: seq<seq<Request>>, m: Table)
    requires Inv(t) && i < |t.list| && !Stays(t.list[i], handle)
    requires m == Visited(t, i, Says(t.list[i], handle, during))
    ensures i <= |m.list|
    ensures Goal(SweepAt(t.list, i), handle, during, |t.requests|)
            == if i + 1 == |t.list| then m.list
               else Goal(SweepAt(m.list, i), handle, Unsaid(t.list[i], handle, during), |m.requests|)
  {
    var rs := Says(t.list[i], handle, during);
    VisitedAdds(t, i, rs);
    assert |m.requests| == |t.requests| + |rs|;
    ListVisits(t.list, i, handle, during, |t.requests|, m.list, |m.requests|);
  }

  lemma LostFromNext(t: Table, i: nat, handle: int, during: seq<seq<Request>>)
    requires Inv(t) && i < |t.list| && !Stays(t.list[i], handle)
    ensures var m := Visited(t, i, Says(t.list[i], handle, during));
            LostFrom(t, i, handle, during)
            == if i + 1 == |t.list| then m else LostFrom(m, i, handle, Unsaid(t.list[i], handle, during))
  {
  }

  lemma {:induction false} LostFromVisits(t: Table, i: nat, handle: int, during: seq<seq<Request>>)
    requires Inv(t) && i < |t.list| && !Stays(t.list[i], handle)
    ensures LostFrom(t, i, handle, during).list == Goal(SweepAt(t.list, i), handle, during, |t.requests|)
    decreases |during|, |t.list| - i, 0
  {
    var rs := Says(t.list[i], handle, during);
    var m := Visited(t, i, rs);
    VisitedAdds(t, i, rs);
    GoalVisits(t, i, handle, during, m);
    LostFromNext(t, i, handle, during);
    if i + 1 < |t.list| {
      LostFromList(m, i, handle, Unsaid(t.list[i], handle, during));
    }
  }

  lemma DisconnectedList(t: Table, handle: int, during: seq<seq<Request>>)
    requires Inv(t)
    ensures Disconnected(t, handle, during).list == CleanedUp(t.list, handle, during, |t.requests|)
  {
    LostFromList(t, 0, handle, during);
    assert SweepAt(t.list, 0) == Sweep([], t.list);
  }

  lemma ListedIn(list: seq<Context>, c: Context)
    requires c in list
    ensures Listed(list, c.id)
  {
    var i :| 0 <= i < |list| && list[i] == c;
    assert list[i].id == c.id;
  }

  lemma TheContext(t: Table, id: Id) returns (c: Context)
    requires Inv(t) && Listed(t.list, id)
    ensures c in t.list && c.id == id && ContextOk(t, c) && (InUse(t.list, id) <==> c.inuse)
  {
    var k := Place(t.list, id);
    c := t.list[k];
  }

  /** A lost connection takes its own requests, but for one in use, and no others. */
  lemma DisconnectedSpares(t: Table, handle: int, during: seq<seq<Request>>, id: Id)
    requires Inv(t) && id < |t.requests| && Listed(t.list, id)
    ensures Listed(Disconnected(t, handle, during).list, id)
            <==> t.requests[id].handle != handle || InUse(t.list, id)
  {
    DisconnectedList(t, handle, during);
    assert t.list + [] == t.list;
    OnlyNewRemain(t.list, [], handle, during, |t.requests|, |t.requests|);
    CleanedSpares(t, Disconnected(t, handle, during).list, handle, id);
  }

  lemma CleanedSpares(t: Table, list: seq<Context>, handle: int, id: Id)
    requires Inv(t) && id < |t.requests| && Listed(t.list, id) && Cleaned(t.list, list, handle, |t.requests|)
    ensures Listed(list, id) <==> t.requests[id].handle != handle || InUse(t.list, id)
  {
    var c := TheContext(t, id);
    if Stays(c, handle) {
      SurvivorsAre(t.list, handle);
      var kept := Survivors(t.list, handle);
      assert list == kept + list[|kept|..];
      ListedIn(list, c);
    } else {
      GoneForGood(t.list, list, handle, |t.requests|);
    }
  }

  lemma SameInUse(t: Table, m: Table, id: Id)
    requires Leads(t, m)
    ensures InUse(t.list, id) <==> InUse(m.list, id)
  {
  }

  lemma PerformedSpares(t: Table, n: Nested, id: Id)
    requires Inv(t) && id < |t.requests| && Listed(t.list, id)
    ensures Listed(Performed(t, n).list, id) <==> !Loses(n, t.requests[id].handle) || InUse(t.list, id)
  {
    match n
    case Issue(r) =>
      ListedConcat(t.list, Opened(r, |t.requests|), id);
    case Lose(handle, during) =>
      DisconnectedSpares(t, handle, during, id);
  }

  lemma LosesOneMore(script: seq<Nested>, handle: int)
    requires script != []
    ensures LosesAny(script, handle)
            <==> LosesAny(script[..|script| - 1], handle) || Loses(script[|script| - 1], handle)
  {
    var before := script[..|script| - 1];
    assert forall i :: 0 <= i < |before| ==> before[i] == script[i];
  }

  /** So does a callback, of the connections it closes. */
  lemma {:induction false} ScriptSpares(t: Table, script: seq<Nested>, id: Id)
    requires Inv(t) && id < |t.requests| && Listed(t.list, id)
    ensures Listed(PerformedAll(t, script).list, id)
            <==> !LosesAny(script, t.requests[id].handle) || InUse(t.list, id)
    decreases |script|
  {
    if script != [] {
      var before, last := script[..|script| - 1], script[|script| - 1];
      var m := PerformedAll(t, before);
      ScriptSpares(t, before, id);
      LosesOneMore(script, t.requests[id].handle);
      SameInUse(t, m, id);
      if Listed(m.list, id) {
        PerformedSpares(m, last, id);
      } else {
        assert Follows(m, Performed(m, last), id);
      }
    }
  }

  /** What a callback has done when it has come to its `k`-th action is only added to. */
  lemma {:induction false} ScriptGoesOn(t: Table, script: seq<Nested>, k: nat)
    requires Inv(t) && k <= |script|
    ensures Leads(PerformedAll(t, script[..k]), PerformedAll(t, script))
    decreases |script|
  {
    if k == |script| {
      assert script[..k] == script;
      LeadsItself(PerformedAll(t, script));
    } else {
      var before, last := script[..|script| - 1], script[|script| - 1];
      assert before[..k] == script[..k];
      ScriptGoesOn(t, before, k);
      LeadsOn(PerformedAll(t, script[..k]), PerformedAll(t, before), Performed(PerformedAll(t, before), last));
    }
  }

  lemma LeadsItself(t: Table)
    requires Inv(t)
    ensures Leads(t, t)
  {
  }

  /** Request `id` was issued before the `i`-th action of the callback, which closes its
      connection. */
  ghost predicate LostInScript(t: Table, script: seq<Nested>, i: nat, id: Id)
    requires Inv(t)
  {
    && i < |script| && id < |PerformedAll(t, script[..i]).requests|
    && Loses(script[i], PerformedAll(t, script[..i]).requests[id].handle)
  }

  /** It goes, whether it was issued before the callback or by it, unless it is in use. */
  lemma LossInScript(t: Table, script: seq<Nested>, i: nat, id: Id)
    requires Inv(t) && LostInScript(t, script, i, id)
    ensures Listed(PerformedAll(t, script).list, id) ==> InUse(t.list, id)
  {
    var m, u := PerformedAll(t, script[..i]), PerformedAll(t, script[..i + 1]);
    PerformedNext(t, script, i);
    ScriptGoesOn(t, script, i + 1);
    assert Follows(u, PerformedAll(t, script), id) && Follows(m, u, id);
    if Listed(m.list, id) {
      PerformedSpares(m, script[i], id);
      SameInUse(t, m, id);
    }
  }

  // ---------------------------------------------------------------- one event

  /** The event is the reply to request `id`. */
  predicate Answers(t: Table, e: Event, id: Id) {
    e.Reply? && var k := Find(t.list, e.handle, e.sequence); k.Some? && t.list[k.value].id == id
  }

  /** The event closes the connection, by itself or in the callback of a reply. */
  predicate Closes(t: Table, e: Event, handle: int) {
    match e
    case Own(n) => Loses(n, handle)
    case Reply(h, sequence, script) =>
      var k := Find(t.list, h, sequence);
      k.Some? && t.list[k.value].callback && LosesAny(script, handle)
  }

  function Heard(r: Request, w: Word): seq<Word> {
    if r.callback then [w] else []
  }

  /** What one event makes of a request issued before. */
  ghost predicate Moved(t: Table, e: Event, r: Table, id: Id)
    requires id < |t.requests| == |t.told| && id < |r.told|
  {
    if !Listed(t.list, id) then !Listed(r.list, id) && r.told[id] == t.told[id]
    else if Answers(t, e, id) then !Listed(r.list, id) && r.told[id] == Heard(t.requests[id], Answered)
    else if Closes(t, e, t.requests[id].handle) then
      !Listed(r.list, id) && r.told[id] == Heard(t.requests[id], Lost)
    else Listed(r.list, id) && r.told[id] == []
  }

  lemma OwnMoves(t: Table, n: Nested, id: Id)
    requires Inv(t) && AtRest(t) && id < |t.requests|
    ensures Moved(t, Own(n), Performed(t, n), id)
  {
    assert Follows(t, Performed(t, n), id);
    if Listed(t.list, id) {
      PerformedSpares(t, n, id);
      var c := TheContext(t, id);
    }
  }

  /** A request other than the one answered. */
  lemma ReplyMovesOthers(t: Table, k: nat, script: seq<Nested>, id: Id)
    requires Inv(t) && AtRest(t) && k < |t.list| && t.list[k].callback && t.list[k].id != id < |t.requests|
    requires Inv(Marked(t, k))
    ensures var u := Marked(t, k);
            && (Listed(u.list, id) <==> Listed(t.list, id)) && u.told[id] == t.told[id]
            && (Listed(u.list, id) ==> !InUse(u.list, id))
  {
    SameIds(t.list, Marked(t, k).list, id);
    if Listed(t.list, id) {
      var c := TheContext(Marked(t, k), id);
      assert c in t.list;
    }
  }

  lemma FinishedLeaves(m: Table, answered: Id, id: Id)
    requires Inv(m) && Listed(m.list, answered)
    ensures Listed(Finished(m, answered).list, id) <==> Listed(m.list, id) && id != answered
  {
    GoneWithout(m.list, Place(m.list, answered));
  }

  lemma AnsweredMoves(t: Table, k: nat, script: seq<Nested>, id: Id)
    requires Inv(t) && AtRest(t) && k < |t.list| && t.list[k].callback && id < |t.requests|
    requires !t.list[k].inuse && Inv(Marked(t, k))
    ensures var u, answered := Marked(t, k), t.list[k].id;
            var m := PerformedAll(u, script);
            Listed(m.list, answered)
            && var r := Finished(m, answered);
               if id == answered then !Listed(r.list, id) && r.told[id] == [Answered]
               else if !Listed(t.list, id) then !Listed(r.list, id) && r.told[id] == t.told[id]
               else if LosesAny(script, t.requests[id].handle) then
                 !Listed(r.list, id) && r.told[id] == Heard(t.requests[id], Lost)
               else Listed(r.list, id) && r.told[id] == []
  {
    var u, answered := Marked(t, k), t.list[k].id;
    var m := PerformedAll(u, script);
    StaysListed(t, k, m);
    FinishedLeaves(m, answered, id);
    assert Follows(u, m, id);
    assert u.list[k].id == answered;
    if id == answered {
      assert ContextOk(t, t.list[k]);
    } else {
      ReplyMovesOthers(t, k, script, id);
      if Listed(t.list, id) {
        ScriptSpares(u, script, id);
        var c := TheContext(t, id);
      }
    }
  }

  lemma ReplyMoves(t: Table, handle: int, sequence: word64, script: seq<Nested>, id: Id)
    requires Inv(t) && AtRest(t) && id < |t.requests|
    ensures |Acked(t, handle, sequence, script).told| >= |t.told|
    ensures t.requests <= Acked(t, handle, sequence, script).requests
    ensures Moved(t, Reply(handle, sequence, script), Acked(t, handle, sequence, script), id)
  {
    var found := Find(t.list, handle, sequence);
    if Listed(t.list, id) {
      var c := TheContext(t, id);
    }
    if found.Some? {
      var k := found.value;
      assert t.list[k] in t.list;
      ListedIn(t.list, t.list[k]);
      if t.list[k].callback {
        MarkedKeeps(t, k);
        AnsweredMoves(t, k, script, id);
      } else {
        EndedKeeps(t, k, Answered);
        GoneWithout(t.list, k);
      }
    }
  }

  /** The effect of any event on any request issued before it. */
  lemma StepMoves(t: Table, e: Event, id: Id)
    requires Inv(t) && AtRest(t) && id < |t.requests|
    ensures t.requests <= Step(t, e).requests && Moved(t, e, Step(t, e), id)
  {
    match e
    case Own(n) => OwnMoves(t, n, id);
    case Reply(handle, sequence, script) => ReplyMoves(t, handle, sequence, script, id);
  }

  // ---------------------------------------------------------------- whole runs

  /** Over any run: a request that was refused has heard nothing. One that was accepted and
      has a callback has heard nothing as long as its context is listed, and one word, once
      and for all, from then on. */
  lemma ExactlyOnce(events: seq<Event>, id: Id)
    requires id < |Run(events).requests|
    ensures var t := Run(events); var r := t.requests[id];
            && |t.told[id]| == (if r.Accepted() && r.callback && !Listed(t.list, id) then 1 else 0)
            && (Listed(t.list, id) ==> r.Accepted())
  {
    var t := Run(events);
    if Listed(t.list, id) {
      var c := TheContext(t, id);
    }
  }

  lemma OneMore(events: seq<Event>)
    requires events != []
    ensures Run(events) == Step(Run(events[..|events| - 1]), events[|events| - 1])
  {
  }

  /** Requests are only added, and a context that is gone stays so, with what its callback was
      told. */
  lemma {:induction false} GoneIsForGood(events: seq<Event>, n: nat, id: Id)
    requires n <= |events| && id < |Run(events[..n]).requests|
    ensures var t, r := Run(events[..n]), Run(events);
            && t.requests <= r.requests
            && (!Listed(t.list, id) ==> !Listed(r.list, id) && r.told[id] == t.told[id])
    decreases |events|
  {
    if n == |events| {
      assert events[..n] == events;
    } else {
      var before := events[..|events| - 1];
      assert before[..n] == events[..n];
      GoneIsForGood(before, n, id);
      StepMoves(Run(before), events[|events| - 1], id);
    }
  }

  /** Event number `n` of the run concerns request `id`, which waits: it is its reply. */
  ghost predicate AnsweredAt(events: seq<Event>, n: nat, id: Id) {
    && n < |events| && id < |Run(events[..n]).requests|
    && Listed(Run(events[..n]).list, id) && Answers(Run(events[..n]), events[n], id)
  }

  /** Event number `n` closes the connection of request `id`, which was issued before. */
  ghost predicate LostBy(events: seq<Event>, n: nat, id: Id) {
    && n < |events| && id < |Run(events[..n]).requests|
    && Closes(Run(events[..n]), events[n], Run(events[..n]).requests[id].handle)
  }

  /** And takes it away, unanswered. */
  ghost predicate LostAt(events: seq<Event>, n: nat, id: Id) {
    && LostBy(events, n, id)
    && Listed(Run(events[..n]).list, id) && !Answers(Run(events[..n]), events[n], id)
  }

  /** What happens at event `n`, seen from the end of the run. */
  lemma SeenFromTheEnd(events: seq<Event>, n: nat, id: Id)
    requires n < |events| && id < |Run(events[..n]).requests|
    requires AnsweredAt(events, n, id) || LostAt(events, n, id)
    ensures var t := Run(events);
            && id < |t.requests| && !Listed(t.list, id)
            && t.told[id] == Heard(t.requests[id], if AnsweredAt(events, n, id) then Answered else Lost)
  {
    RunNext(events, n);
    StepMoves(Run(events[..n]), events[n], id);
    GoneIsForGood(events, n + 1, id);
  }

  /** A request that has been answered has left the list, and its callback was given the
      reply; nothing else is ever told it. */
  lemma AnsweredByItsReply(events: seq<Event>, n: nat, id: Id)
    requires AnsweredAt(events, n, id)
    ensures var t := Run(events);
            id < |t.requests| && !Listed(t.list, id) && t.told[id] == Heard(t.requests[id], Answered)
  {
    SeenFromTheEnd(events, n, id);
  }

  /** Once a connection is lost, all requests accepted for it before, whatever became of them,
      have left the list, and each callback has been called exactly once. */
  lemma NoneOutlivesItsConnection(events: seq<Event>, n: nat, id: Id)
    requires LostBy(events, n, id)
    ensures var t := Run(events);
            && id < |t.requests| && !Listed(t.list, id)
            && |t.told[id]| == (if t.requests[id].Accepted() && t.requests[id].callback then 1 else 0)
  {
    if Listed(Run(events[..n]).list, id) {
      SeenFromTheEnd(events, n, id);
    } else {
      GoneIsForGood(events, n, id);
    }
  }

  /** Event number `n` is the reply to a request with a callback, whose `i`-th action closes the
      connection of request `id`, which was issued before that action. */
  ghost predicate LostWithin(events: seq<Event>, n: nat, i: nat, id: Id) {
    && n < |events| && events[n].Reply?
    && var t, e := Run(events[..n]), events[n];
       var k := Find(t.list, e.handle, e.sequence);
       && k.Some? && t.list[k.value].callback && Inv(Marked(t, k.value))
       && LostInScript(Marked(t, k.value), e.script, i, id)
  }

  lemma OnlyAnsweredIsInUse(t: Table, k: nat, id: Id)
    requires Inv(t) && AtRest(t) && k < |t.list| && Inv(Marked(t, k)) && InUse(Marked(t, k).list, id)
    ensures id == t.list[k].id
  {
    var u := Marked(t, k);
    var i :| 0 <= i < |u.list| && u.list[i].id == id && u.list[i].inuse;
    assert forall j :: 0 <= j < |t.list| ==> t.list[j] in t.list;
  }

  lemma LostWithinScript(t: Table, k: nat, script: seq<Nested>, i: nat, id: Id)
    requires Inv(t) && AtRest(t) && k < |t.list| && t.list[k].callback && !t.list[k].inuse
    requires Inv(Marked(t, k)) && LostInScript(Marked(t, k), script, i, id)
    ensures var m := PerformedAll(Marked(t, k), script);
            && id < |m.requests| && Listed(m.list, t.list[k].id)
            && !Listed(Finished(m, t.list[k].id).list, id)
  {
    var u := Marked(t, k);
    var m := PerformedAll(u, script);
    ScriptGoesOn(u, script, i);
    LossInScript(u, script, i, id);
    StaysListed(t, k, m);
    FinishedLeaves(m, t.list[k].id, id);
    if InUse(u.list, id) {
      OnlyAnsweredIsInUse(t, k, id);
    }
  }

  lemma LostWithinStep(t: Table, handle: int, sequence: word64, script: seq<Nested>, k: nat, i: nat, id: Id)
    requires Inv(t) && AtRest(t) && Find(t.list, handle, sequence) == Some(k) && t.list[k].callback
    requires Inv(Marked(t, k)) && LostInScript(Marked(t, k), script, i, id)
    ensures var r := Acked(t, handle, sequence, script); id < |r.requests| && !Listed(r.list, id)
  {
    assert t.list[k] in t.list;
    LostWithinScript(t, k, script, i, id);
  }

  /** The same for a connection that is closed in a callback, and for requests that the callback
      itself has issued before. */
  lemma NoneOutlivesItsConnectionWithin(events: seq<Event>, n: nat, i: nat, id: Id)
    requires LostWithin(events, n, i, id)
    ensures var t := Run(events);
            && id < |t.requests| && !Listed(t.list, id)
            && |t.told[id]| == (if t.requests[id].Accepted() && t.requests[id].callback then 1 else 0)
  {
    var t, e := Run(events[..n]), events[n];
    RunNext(events, n);
    LostWithinStep(t, e.handle, e.sequence, e.script, Find(t.list, e.handle, e.sequence).value, i, id);
    GoneIsForGood(events, n + 1, id);
  }

  /** A request issued in the course of an event. */
  lemma NewInStep(t: Table, e: Event, id: Id)
    requires Inv(t) && AtRest(t) && |t.requests| <= id < |Step(t, e).requests|
    ensures Newly(Step(t, e), id)
  {
    match e
    case Own(n) =>
    case Reply(handle, sequence, script) =>
      var found := Find(t.list, handle, sequence);
      if found.Some? && t.list[found.value].callback {
        var k := found.value;
        var answered := t.list[k].id;
        assert t.list[k] in t.list;
        MarkedKeeps(t, k);
        var m := PerformedAll(Marked(t, k), script);
        assert Newly(m, id);
        StaysListed(t, k, m);
        FinishedLeaves(m, answered, id);
        assert ContextOk(t, t.list[k]);
      }
  }

  /** A callback is given a reply only if there was one to its request. */
  lemma {:induction false} OnlyItsReply(events: seq<Event>, id: Id) returns (n: nat)
    requires id < |Run(events).requests| && Answered in Run(events).told[id]
    ensures AnsweredAt(events, n, id)
    decreases |events|
  {
    var before, last := events[..|events| - 1], events[|events| - 1];
    OneMore(events);
    if id >= |Run(before).requests| {
      NewInStep(Run(before), last, id);
    }
    StepMoves(Run(before), last, id);
    if AnsweredAt(events, |before|, id) {
      n := |before|;
    } else {
      n := OnlyItsReply(before, id);
      assert before[..n] == events[..n];
    }
  }
}
