/** Every request that the program or a callback issues is recorded, in order, and its context
    is listed as long as it waits. */
module RequestOutcomes {
  import opened Bytes
  import opened Options
  import opened Requests
  import opened RequestSteps
  import opened RequestRuns
  import opened Sequences

  /** A request joins the table; one that is accepted leaves its context at the end of the list,
      and nobody is told anything. */
  lemma IssueJoins(t: Table, r: Request)
    requires Inv(t)
    ensures var u := Performed(t, Issue(r));
            && u.requests == t.requests + [r] && u.told == t.told + [[]]
            && |u.list| == |t.list| + (if r.Accepted() then 1 else 0) && u.list[..|t.list|] == t.list
            && (Listed(u.list, |t.requests|) <==> r.Accepted())
  {
    var u := Performed(t, Issue(r));
    NotYetListed(t, |t.requests|);
    ListedConcat(t.list, Opened(r, |t.requests|), |t.requests|);
    if r.Accepted() {
      assert Opened(r, |t.requests|)[0].id == |t.requests|;
    }
  }

  /** The `i`-th action of a callback issues a request: that is the next of the table. */
  lemma IssueInScript(t: Table, script: seq<Nested>, i: nat)
    requires Inv(t) && i < |script| && script[i].Issue?
    ensures var n, r := |PerformedAll(t, script[..i]).requests|, PerformedAll(t, script);
            |t.requests| <= n < |r.requests| && r.requests[n] == script[i].request
  {
    var m := PerformedAll(t, script[..i]);
    PerformedNext(t, script, i);
    ScriptGoesOn(t, script, i + 1);
    assert PerformedAll(t, script[..i + 1]).requests[|m.requests|] == script[i].request;
  }

  /** Event number `n` of a run issues a request: that is the next of the run. */
  lemma IssueInRun(events: seq<Event>, n: nat)
    requires n < |events| && events[n].Own? && events[n].action.Issue?
    ensures var id, t := |Run(events[..n]).requests|, Run(events);
            id < |t.requests| && t.requests[id] == events[n].action.request
  {
    var id := |Run(events[..n]).requests|;
    RunNext(events, n);
    GoneIsForGood(events, n + 1, id);
  }

  /** Event number `n` is the reply to a request with a callback, whose `i`-th action issues a
      request. */
  ghost predicate IssuesWithin(events: seq<Event>, n: nat, i: nat) {
    && n < |events| && events[n].Reply? && i < |events[n].script| && events[n].script[i].Issue?
    && var t, e := Run(events[..n]), events[n];
       var k := Find(t.list, e.handle, e.sequence);
       k.Some? && t.list[k.value].callback
  }

  lemma ReplyIssues(t: Table, handle: int, sequence: word64, script: seq<Nested>, i: nat) returns (id: Id)
    requires Inv(t) && AtRest(t) && i < |script| && script[i].Issue?
    requires var k := Find(t.list, handle, sequence); k.Some? && t.list[k.value].callback
    ensures var r := Acked(t, handle, sequence, script);
            |t.requests| <= id < |r.requests| && r.requests[id] == script[i].request
  {
    var k := Find(t.list, handle, sequence).value;
    assert t.list[k] in t.list;
    MarkedKeeps(t, k);
    IssueInScript(Marked(t, k), script, i);
    id := |PerformedAll(Marked(t, k), script[..i]).requests|;
  }

  /** It is issued in that event, and is there from then on. */
  lemma IssueWithinRun(events: seq<Event>, n: nat, i: nat) returns (id: Id)
    requires IssuesWithin(events, n, i)
    ensures |Run(events[..n]).requests| <= id < |Run(events[..n + 1]).requests|
    ensures var t := Run(events); id < |t.requests| && t.requests[id] == events[n].script[i].request
  {
    var e := events[n];
    RunNext(events, n);
    id := ReplyIssues(Run(events[..n]), e.handle, e.sequence, e.script, i);
    GoneIsForGood(events, n + 1, id);
  }

  // ---------------------------------------------------------------- while a connection is lost

  /** How many words all callbacks together have been told. */
  function Words(told: seq<seq<Word>>): nat {
    if told == [] then 0 else |told[0]| + Words(told[1..])
  }

  lemma {:induction false} OneWordMore(told: seq<seq<Word>>, id: Id, w: Word)
    requires id < |told|
    ensures Words(told[id := told[id] + [w]]) == Words(told) + 1
  {
    var more := told[id := told[id] + [w]];
    if id == 0 {
      assert more[1..] == told[1..];
    } else {
      OneWordMore(told[1..], id - 1, w);
      assert more[1..] == told[1..][id - 1 := told[1..][id - 1] + [w]];
    }
  }

  lemma {:induction false} SilenceAddsNone(told: seq<seq<Word>>, n: nat)
    ensures Words(told + Silence(n)) == Words(told)
    decreases |told| + n
  {
    if told != [] {
      assert (told + Silence(n))[1..] == told[1..] + Silence(n);
      SilenceAddsNone(told[1..], n);
    } else if n > 0 {
      assert (told + Silence(n))[1..] == told + Silence(n - 1);
      SilenceAddsNone(told, n - 1);
    }
  }

  lemma VisitedWords(t: Table, k: nat, rs: seq<Request>)
    requires Inv(t) && k < |t.list| && !t.list[k].inuse
    ensures Words(Visited(t, k, rs).told) == Words(t.told) + if t.list[k].callback then 1 else 0
  {
    EndedKeeps(t, k, Lost);
    IssuedAllTells(Ended(t, k, Lost), rs);
    SilenceAddsNone(Ended(t, k, Lost).told, |rs|);
    if t.list[k].callback {
      OneWordMore(t.told, t.list[k].id, Lost);
    }
  }

  /** All of them, in order. */
  function Joined(during: seq<seq<Request>>): seq<Request> {
    if during == [] then [] else during[0] + Joined(during[1..])
  }

  /** What the first `n` callbacks to be called issue. */
  function SaidBy(during: seq<seq<Request>>, n: nat): seq<Request> {
    Joined(if n <= |during| then during[..n] else during)
  }

  lemma SaidFirst(during: seq<seq<Request>>, n: nat)
    requires during != [] && n > 0
    ensures SaidBy(during, n) == during[0] + SaidBy(during[1..], n - 1)
  {
    if n <= |during| {
      assert during[..n][1..] == during[1..][..n - 1];
    }
  }

  /** The first `n` callbacks told that the connection is lost issue what they are meant to. */
  ghost predicate AllSaid(t: Table, r: Table, during: seq<seq<Request>>) {
    && Words(r.told) >= Words(t.told)
    && r.requests == t.requests + SaidBy(during, Words(r.told) - Words(t.told))
  }

  lemma SaidOn(t: Table, c: Context, handle: int, during: seq<seq<Request>>, m: Table, r: Table)
    requires !Stays(c, handle) && Words(m.told) == Words(t.told) + if c.callback then 1 else 0
    requires m.requests == t.requests + Says(c, handle, during)
    requires AllSaid(m, r, Unsaid(c, handle, during))
    ensures AllSaid(t, r, during)
  {
    var n := Words(r.told) - Words(t.told);
    if c.callback && during != [] {
      SaidFirst(during, n);
      Associative(t.requests, during[0], SaidBy(during[1..], n - 1));
    } else {
      assert t.requests + [] == t.requests;
      assert during == [] ==> SaidBy(during, n) == SaidBy(during, Words(r.told) - Words(m.told));
    }
  }

  lemma {:induction false} LostFromIssues(t: Table, i: nat, handle: int, during: seq<seq<Request>>)
    requires Inv(t)
    ensures AllSaid(t, LostFrom(t, i, handle, during), during)
    decreases |during|, |t.list| - i
  {
    NobodySaid(t, during);
    if i < |t.list| {
      var c := t.list[i];
      if Stays(c, handle) {
        LostFromIssues(t, i + 1, handle, during);
      } else {
        var m := Visited(t, i, Says(c, handle, during));
        VisitedAdds(t, i, Says(c, handle, during));
        VisitedWords(t, i, Says(c, handle, during));
        LostFromNext(t, i, handle, during);
        if i + 1 == |t.list| {
          NobodySaid(m, Unsaid(c, handle, during));
        } else {
          LostFromIssues(m, i, handle, Unsaid(c, handle, during));
        }
        SaidOn(t, c, handle, during, m, LostFrom(t, i, handle, during));
      }
    }
  }

  lemma NobodySaid(t: Table, during: seq<seq<Request>>)
    ensures AllSaid(t, t, during)
  {
    assert during[..0] == [] && t.requests + [] == t.requests;
  }

  /** While a connection is lost, as many callbacks as are told so issue what they are meant to,
      the first the first and so on, and nothing else is issued. */
  lemma LossIssues(t: Table, handle: int, during: seq<seq<Request>>)
    requires Inv(t)
    ensures AllSaid(t, Disconnected(t, handle, during), during)
  {
    LostFromIssues(t, 0, handle, during);
  }
}
