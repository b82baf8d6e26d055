/** What `com-core_packet.c` does with its request contexts, on values: the contexts listed, all
    calls of `com_core_packet_async_send` so far, and what each callback has been told. */
module RequestSteps {
  import opened Bytes
  import opened Options
  import opened Requests
  import opened Sequences

  /** A callback is given the reply, or nothing because the connection is lost. */
  datatype Word = Answered | Lost

  datatype Table = Table(list: seq<Context>, requests: seq<Request>, told: seq<seq<Word>>)

  const NO_REQUESTS := Table([], [], [])

  /** A context belongs to an accepted request. Its callback has been told nothing yet, or is
      just being told the reply. */
  ghost predicate ContextOk(t: Table, c: Context)
    requires |t.told| == |t.requests|
  {
    && c.id < |t.requests|
    && var r := t.requests[c.id];
       && r.Accepted() && c.handle == r.handle && c.sequence == r.sequence && c.callback == r.callback
       && (c.inuse ==> c.callback) && t.told[c.id] == if c.inuse then [Answered] else []
  }

  /** A request whose context is gone: its callback has been told once, if there is one and
      the request was accepted. */
  predicate Over(t: Table, id: Id)
    requires id < |t.requests| == |t.told|
  {
    |t.told[id]| == if t.requests[id].Accepted() && t.requests[id].callback then 1 else 0
  }

  ghost predicate Inv(t: Table) {
    && |t.told| == |t.requests|
    && (forall i, j :: 0 <= i < j < |t.list| ==> t.list[i].id != t.list[j].id)
    && (forall i :: 0 <= i < |t.list| ==> ContextOk(t, t.list[i]))
    && (forall id: Id :: id < |t.requests| && !Listed(t.list, id) ==> Over(t, id))
  }

  ghost predicate InUse(list: seq<Context>, id: Id) {
    exists c :: c in list && c.id == id && c.inuse
  }

  /** No callback of a reply is running. */
  ghost predicate AtRest(t: Table) {
    forall c :: c in t.list ==> !c.inuse
  }

  // ---------------------------------------------------------------- single moves

  /** `com_core_packet_async_send`. */
  function Issued(t: Table, r: Request): Table {
    Table(t.list + Opened(r, |t.requests|), t.requests + [r], t.told + [[]])
  }

  /** The context at `k` goes; its callback is told `w`. */
  function Ended(t: Table, k: nat, w: Word): Table
    requires Inv(t) && k < |t.list|
  {
    var c := t.list[k];
    Table(Without(t.list, k), t.requests, if c.callback then t.told[c.id := t.told[c.id] + [w]] else t.told)
  }

  /** The callback of the context at `k` starts to be told the reply. */
  function Marked(t: Table, k: nat): Table
    requires Inv(t) && k < |t.list|
  {
    var c := t.list[k];
    Table(t.list[k := c.(inuse := true)], t.requests, t.told[c.id := t.told[c.id] + [Answered]])
  }

  ghost function Place(list: seq<Context>, id: Id): (k: nat)
    requires Listed(list, id)
    ensures k < |list| && list[k].id == id
  {
    var k :| 0 <= k < |list| && list[k].id == id; k
  }

  /** The callback of request `id` has returned, and its context goes. */
  ghost function Finished(t: Table, id: Id): Table
    requires Listed(t.list, id)
  {
    t.(list := Without(t.list, Place(t.list, id)))
  }

  lemma IssuedKeeps(t: Table, r: Request)
    requires Inv(t)
    ensures Inv(Issued(t, r))
  {
    var u, n := Issued(t, r), |t.requests|;
    forall id: Id ensures Listed(u.list, id) <==> Listed(t.list, id) || Listed(Opened(r, n), id) {
      ListedConcat(t.list, Opened(r, n), id);
    }
    if r.Accepted() {
      assert Opened(r, n)[0].id == n;
    }
  }

  lemma GoneWithout(list: seq<Context>, k: nat)
    requires k < |list| && forall i, j :: 0 <= i < j < |list| ==> list[i].id != list[j].id
    ensures !Listed(Without(list, k), list[k].id)
    ensures forall id: Id :: id != list[k].id ==> (Listed(Without(list, k), id) <==> Listed(list, id))
    ensures forall c :: c in Without(list, k) <==> c in list && c != list[k]
  {
    forall id: Id | id != list[k].id ensures Listed(Without(list, k), id) <==> Listed(list, id) {
      ListedWithout(list, k, id);
    }
    WithoutKeeps(list, k);
  }

  lemma EndedKeeps(t: Table, k: nat, w: Word)
    requires Inv(t) && k < |t.list| && !t.list[k].inuse
    ensures Inv(Ended(t, k, w))
  {
    GoneWithout(t.list, k);
  }

  lemma MarkedKeeps(t: Table, k: nat)
    requires Inv(t) && k < |t.list| && t.list[k].callback && !t.list[k].inuse
    ensures Inv(Marked(t, k)) && forall id: Id :: Listed(Marked(t, k).list, id) <==> Listed(t.list, id)
  {
    var u := Marked(t, k);
    forall id: Id ensures Listed(u.list, id) <==> Listed(t.list, id) {
      SameIds(t.list, u.list, id);
    }
  }

  lemma SameIds(a: seq<Context>, b: seq<Context>, id: Id)
    requires |a| == |b| && forall i :: 0 <= i < |a| ==> a[i].id == b[i].id
    ensures Listed(a, id) <==> Listed(b, id)
  {
    if i :| 0 <= i < |a| && a[i].id == id {
      assert b[i].id == id;
    }
    if i :| 0 <= i < |b| && b[i].id == id {
      assert a[i].id == id;
    }
  }

  lemma FinishedKeeps(t: Table, id: Id)
    requires Inv(t) && InUse(t.list, id) && Listed(t.list, id)
    ensures Inv(Finished(t, id))
  {
    GoneWithout(t.list, Place(t.list, id));
    var c :| c in t.list && c.id == id && c.inuse;
    assert ContextOk(t, c);
  }

  // ---------------------------------------------------------------- what others see

  /** From `t` to `r` requests were issued and connections lost: the callbacks of contexts that
      have gone were told so, all others nothing, and contexts in use stay. */
  ghost predicate Leads(t: Table, r: Table) {
    && t.requests <= r.requests && |t.told| == |t.requests| && |r.told| == |r.requests|
    && (forall id: Id :: id < |t.requests| ==> Follows(t, r, id))
    && (forall id: Id :: |t.requests| <= id < |r.requests| ==> Newly(r, id))
    && (forall c: Context :: c.inuse ==> (c in t.list <==> c in r.list))
  }

  ghost predicate Follows(t: Table, r: Table, id: Id)
    requires id < |t.requests| == |t.told| && id < |r.told|
  {
    if Listed(t.list, id) && !Listed(r.list, id) then
      r.told[id] == t.told[id] + if t.requests[id].callback then [Lost] else []
    else
      r.told[id] == t.told[id] && (Listed(r.list, id) <==> Listed(t.list, id))
  }

  /** A request issued meanwhile waits, was refused, or has lost its connection. */
  ghost predicate Newly(r: Table, id: Id)
    requires id < |r.requests| == |r.told|
  {
    && (Listed(r.list, id) ==> r.requests[id].Accepted())
    && r.told[id] == (if Listed(r.list, id) || !r.requests[id].Accepted() || !r.requests[id].callback then []
                      else [Lost])
  }

  lemma LeadsOn(t: Table, m: Table, r: Table)
    requires Leads(t, m) && Leads(m, r)
    ensures Leads(t, r)
  {
    forall id: Id | id < |t.requests| ensures Follows(t, r, id) {
      assert Follows(t, m, id) && Follows(m, r, id);
    }
    forall id: Id | |t.requests| <= id < |r.requests| ensures Newly(r, id) {
      if id < |m.requests| {
        assert Newly(m, id) && Follows(m, r, id);
      }
    }
  }

  lemma IssuedLeads(t: Table, r: Request)
    requires Inv(t)
    ensures Leads(t, Issued(t, r))
  {
    var u, n := Issued(t, r), |t.requests|;
    forall id: Id | id < n ensures Follows(t, u, id) {
      ListedConcat(t.list, Opened(r, n), id);
    }
    NotYetListed(t, n);
    ListedConcat(t.list, Opened(r, n), n);
    assert r.Accepted() ==> Opened(r, n)[0].id == n;
  }

  lemma NotYetListed(t: Table, id: Id)
    requires Inv(t) && id >= |t.requests|
    ensures !Listed(t.list, id)
  {
  }

  lemma EndedLeads(t: Table, k: nat)
    requires Inv(t) && k < |t.list| && !t.list[k].inuse
    ensures Leads(t, Ended(t, k, Lost))
  {
    GoneWithout(t.list, k);
    assert Listed(t.list, t.list[k].id);
  }

  // ---------------------------------------------------------------- callbacks and losses

  /** The requests a callback issues. */
  function IssuedAll(t: Table, rs: seq<Request>): (r: Table)
    requires Inv(t)
    ensures Inv(r) && Leads(t, r)
    decreases |rs|
  {
    if rs == [] then t
    else
      var m := IssuedAll(t, rs[..|rs| - 1]);
      IssuedKeeps(m, rs[|rs| - 1]);
      IssuedLeads(m, rs[|rs| - 1]);
      LeadsOn(t, m, Issued(m, rs[|rs| - 1]));
      Issued(m, rs[|rs| - 1])
  }

  function Silence(n: nat): (words: seq<seq<Word>>)
    ensures |words| == n
  {
    seq(n, _ => [])
  }

  lemma {:induction false} IssuedAllAdds(t: Table, rs: seq<Request>)
    requires Inv(t)
    ensures var r := IssuedAll(t, rs);
            r.list == t.list + Contexts(rs, |t.requests|) && r.requests == t.requests + rs
    decreases |rs|
  {
    if rs == [] {
      assert t.list + [] == t.list && t.requests + [] == t.requests;
    } else {
      var before, last := rs[..|rs| - 1], rs[|rs| - 1];
      IssuedAllAdds(t, before);
      ContextsSnoc(before, last, |t.requests|);
      assert before + [last] == rs;
      Associative(t.list, Contexts(before, |t.requests|), Opened(last, |t.requests| + |before|));
      Associative(t.requests, before, [last]);
    }
  }

  lemma {:induction false} IssuedAllTells(t: Table, rs: seq<Request>)
    requires Inv(t)
    ensures IssuedAll(t, rs).told == t.told + Silence(|rs|)
    decreases |rs|
  {
    if rs == [] {
      assert t.told + [] == t.told;
    } else {
      IssuedAllTells(t, rs[..|rs| - 1]);
      assert Silence(|rs|) == Silence(|rs| - 1) + [[]];
      Associative(t.told, Silence(|rs| - 1), [[]]);
    }
  }

  /** An unused context of a lost connection: its callback is told, issues `rs`, and it goes. */
  function Visited(t: Table, k: nat, rs: seq<Request>): (r: Table)
    requires Inv(t) && k < |t.list| && !t.list[k].inuse
    ensures Inv(r) && Leads(t, r)
  {
    EndedKeeps(t, k, Lost);
    EndedLeads(t, k);
    LeadsOn(t, Ended(t, k, Lost), IssuedAll(Ended(t, k, Lost), rs));
    IssuedAll(Ended(t, k, Lost), rs)
  }

  lemma VisitedAdds(t: Table, k: nat, rs: seq<Request>)
    requires Inv(t) && k < |t.list| && !t.list[k].inuse
    ensures var r := Visited(t, k, rs);
            r.list == Without(t.list, k) + Contexts(rs, |t.requests|) && r.requests == t.requests + rs
  {
    EndedKeeps(t, k, Lost);
    IssuedAllAdds(Ended(t, k, Lost), rs);
  }

  /** The loop of `client_disconnected_cb` from entry `i` on. The entry behind an entry is
      fetched before its callback is called. */
  function LostFrom(t: Table, i: nat, handle: int, during: seq<seq<Request>>): (r: Table)
    requires Inv(t)
    ensures Inv(r) && Leads(t, r)
    decreases |during|, |t.list| - i
  {
    if i >= |t.list| then t
    else if Stays(t.list[i], handle) then LostFrom(t, i + 1, handle, during)
    else
      var c := t.list[i];
      var m := Visited(t, i, Says(c, handle, during));
      VisitedAdds(t, i, Says(c, handle, during));
      if i + 1 == |t.list| then m
      else
        LeadsOn(t, m, LostFrom(m, i, handle, Unsaid(c, handle, during)));
        LostFrom(m, i, handle, Unsaid(c, handle, during))
  }

  /** `client_disconnected_cb`. */
  function Disconnected(t: Table, handle: int, during: seq<seq<Request>>): (r: Table)
    requires Inv(t)
    ensures Inv(r) && Leads(t, r)
  {
    LostFrom(t, 0, handle, during)
  }

  function Performed(t: Table, n: Nested): (r: Table)
    requires Inv(t)
    ensures Inv(r) && Leads(t, r)
  {
    match n
    case Issue(r) =>
      IssuedKeeps(t, r);
      IssuedLeads(t, r);
      Issued(t, r)
    case Lose(handle, during) => Disconnected(t, handle, during)
  }

  /** What the callback of a reply does. */
  function PerformedAll(t: Table, script: seq<Nested>): (r: Table)
    requires Inv(t)
    ensures Inv(r) && Leads(t, r)
    decreases |script|
  {
    if script == [] then t
    else
      var m := PerformedAll(t, script[..|script| - 1]);
      LeadsOn(t, m, Performed(m, script[|script| - 1]));
      Performed(m, script[|script| - 1])
  }

  lemma PerformedNext(t: Table, script: seq<Nested>, k: nat)
    requires Inv(t) && k < |script|
    ensures PerformedAll(t, script[..k + 1]) == Performed(PerformedAll(t, script[..k]), script[k])
  {
    assert script[..k + 1][..k] == script[..k];
  }

  lemma StaysListed(t: Table, k: nat, r: Table)
    requires Inv(t) && k < |t.list| && t.list[k].callback && !t.list[k].inuse && Inv(Marked(t, k))
    requires Leads(Marked(t, k), r)
    ensures InUse(r.list, t.list[k].id) && Listed(r.list, t.list[k].id)
  {
    var c := t.list[k].(inuse := true);
    assert Marked(t, k).list[k] == c;
    assert c in r.list;
  }

  /** `packet_ready` for an ACK; `script` is what the callback of its request does. */
  ghost function Acked(t: Table, handle: int, sequence: word64, script: seq<Nested>): (r: Table)
    requires Inv(t) && AtRest(t)
    ensures Inv(r)
  {
    match Find(t.list, handle, sequence)
    case None => t
    case Some(k) =>
      var c := t.list[k];
      assert c in t.list;
      if !c.callback then
        EndedKeeps(t, k, Answered);
        Ended(t, k, Answered)
      else
        MarkedKeeps(t, k);
        var m := PerformedAll(Marked(t, k), script);
        StaysListed(t, k, m);
        FinishedKeeps(m, c.id);
        Finished(m, c.id)
  }

  // ---------------------------------------------------------------- runs

  ghost function Step(t: Table, e: Event): (r: Table)
    requires Inv(t) && AtRest(t)
    ensures Inv(r) && AtRest(r)
  {
    match e
    case Reply(handle, sequence, script) =>
      AckedRests(t, handle, sequence, script);
      Acked(t, handle, sequence, script)
    case Own(n) =>
      RestStays(t, Performed(t, n));
      Performed(t, n)
  }

  lemma RestStays(t: Table, r: Table)
    requires AtRest(t) && Leads(t, r)
    ensures AtRest(r)
  {
    assert forall c: Context :: c.inuse ==> (c in t.list <==> c in r.list);
  }

  /** The one context in use goes. */
  lemma AckedRests(t: Table, handle: int, sequence: word64, script: seq<Nested>)
    requires Inv(t) && AtRest(t)
    ensures AtRest(Acked(t, handle, sequence, script))
  {
    var found := Find(t.list, handle, sequence);
    if found.Some? {
      var k := found.value;
      var c := t.list[k];
      assert c in t.list;
      if c.callback {
        MarkedKeeps(t, k);
        var u := Marked(t, k);
        var m := PerformedAll(u, script);
        StaysListed(t, k, m);
        OneRests(u, m, c.id);
      } else {
        EndedKeeps(t, k, Answered);
        GoneWithout(t.list, k);
      }
    }
  }

  lemma OneRests(u: Table, m: Table, id: Id)
    requires Inv(u) && Inv(m) && Leads(u, m) && Listed(m.list, id)
    requires forall c :: c in u.list && c.inuse ==> c.id == id
    ensures AtRest(Finished(m, id))
  {
    GoneWithout(m.list, Place(m.list, id));
    forall c | c in Finished(m, id).list ensures !c.inuse {
      if c.inuse {
        assert c in u.list;
        assert Listed(Finished(m, id).list, id);
      }
    }
  }

  ghost function Run(events: seq<Event>): (r: Table)
    ensures Inv(r) && AtRest(r)
    decreases |events|
  {
    if events == [] then NO_REQUESTS else Step(Run(events[..|events| - 1]), events[|events| - 1])
  }

  lemma RunNext(events: seq<Event>, k: nat)
    requires k < |events|
    ensures Run(events[..k + 1]) == Step(Run(events[..k]), events[k])
  {
    assert events[..k + 1][..k] == events[..k];
  }
}
