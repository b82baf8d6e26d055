/** `com-core_packet.c`: requests are sent, answered and lost. Each function is proved to do to
    the list what its counterpart on values does. */
module RequestTables {
  import opened Bytes
  import opened Options
  import opened Requests
  import opened RequestRuns
  import opened RequestSteps
  import opened Sequences

  const EIO := 5
  const EINVAL := 22

  class RequestTable {
    var list: seq<Context>
    var issued: nat                    // calls of async_send so far
    ghost var requests: seq<Request>   // all of them
    ghost var told: seq<seq<Word>>     // what the callback of each has been told

    ghost function View(): Table
      reads this
    {
      Table(list, requests, told)
    }

    ghost predicate Numbered()
      reads this
    {
      issued == |requests| == |told|
    }

    ghost predicate Valid()
      reads this
    {
      Numbered() && Inv(View())
    }

    constructor ()
      ensures Valid() && View() == NO_REQUESTS
    {
      list, issued, requests, told := [], 0, [], [];
    }

    /** `com_core_packet_async_send`. The context of a request that could not be sent is taken
        off the list again before anyone looks, so it is not put there here. */
    method AsyncSend(r: Request) returns (ret: int)
      requires Numbered()
      modifies this
      ensures Numbered() && View() == Issued(old(View()), r)
      ensures ret == if !r.Correct() then -EINVAL else if r.sent then 0 else -EIO
      ensures ret == 0 ==>
                list == old(list) + [Context(old(issued), r.handle, r.sequence, r.callback, false)]
      ensures ret != 0 ==> list == old(list)
    {
      var id := issued;
      issued, requests, told := issued + 1, requests + [r], told + [[]];
      assert list + [] == list;
      if !r.Correct() {
        return -EINVAL;
      }
      if !r.sent {
        return -EIO;
      }
      list := list + [Context(id, r.handle, r.sequence, r.callback, false)];
      return 0;
    }

    /** The requests that one callback issues. */
    method IssueAll(rs: seq<Request>)
      requires Numbered()
      modifies this
      ensures Numbered() && list == old(list) + Contexts(rs, old(issued))
      ensures requests == old(requests) + rs && told == old(told) + Silence(|rs|)
    {
      var k := 0;
      while k < |rs|
        invariant 0 <= k <= |rs| && Numbered()
        invariant list == old(list) + Contexts(rs[..k], old(issued))
        invariant requests == old(requests) + rs[..k] && told == old(told) + Silence(k)
      {
        ContextsSnoc(rs[..k], rs[k], old(issued));
        TakeSnoc(rs, k);
        Associative(old(list), Contexts(rs[..k], old(issued)), Opened(rs[k], old(issued) + k));
        Associative(old(requests), rs[..k], [rs[k]]);
        SilenceGrows(old(told), k);
        var _ := AsyncSend(rs[k]);
        assert list == old(list) + Contexts(rs[..k + 1], old(issued));
        k := k + 1;
      }
      assert rs[..k] == rs;
    }

    /** `dlist_find_data` and `dlist_remove` for a context that is in the list. */
    method Remove(id: Id)
      requires Listed(list, id)
      modifies this`list
      ensures exists k :: 0 <= k < |old(list)| && old(list)[k].id == id && list == Without(old(list), k)
    {
      var k := 0;
      while list[k].id != id
        invariant k < |list| && forall i :: 0 <= i < k ==> list[i].id != id
        decreases |list| - k
      {
        k := k + 1;
      }
      list := Without(list, k);
    }

    // -------------------------------------------------------------- a connection is lost

    /** The unused context at `k` of a lost connection: its callback is called with nothing,
        issues `rs`, and when it has returned the context goes. */
    method Visit(k: nat, rs: seq<Request>)
      requires Valid() && k < |list| && !list[k].inuse
      modifies this
      ensures Valid() && View() == Visited(old(View()), k, rs)
    {
      ghost var before, added := list, Contexts(rs, issued);
      var c := list[k];
      if c.callback {
        told := told[c.id := told[c.id] + [Lost]];
      }
      IssueAll(rs);
      ContextsAreNew(rs, old(issued));
      assert list[k].id == c.id && forall i :: 0 <= i < |list| && list[i].id == c.id ==> i == k;
      Remove(c.id);
      WithoutConcat(before, added, k);
      EndedKeeps(old(View()), k, Lost);
      IssuedAllAdds(Ended(old(View()), k, Lost), rs);
      IssuedAllTells(Ended(old(View()), k, Lost), rs);
    }

    /** `client_disconnected_cb`; `during[k]` holds the requests issued by the k-th callback. The
        contexts of the connection are told and removed, but for those in use. */
    method Disconnect(handle: int, during: seq<seq<Request>>)
      requires Valid()
      modifies this
      ensures Valid() && View() == Disconnected(old(View()), handle, during)
      ensures list == CleanedUp(old(list), handle, during, old(issued))
      ensures Cleaned(old(list), list, handle, old(issued))
      ensures forall c :: c in old(list) && c.handle == handle && !c.inuse ==>
                !Listed(list, c.id) && c.id < |told| && told[c.id] == if c.callback then [Lost] else []
      ensures Waiting(list, handle) <==> LastAsksAgain(old(list), handle, during, old(issued))
    {
      ghost var before, n := list, issued;
      DisconnectedList(View(), handle, during);
      CleanUp(handle, during);
      assert before + [] == before;
      OnlyNewRemain(before, [], handle, during, n, n);
      GoneForGood(before, list, handle, n);
      StaysBehind(before, handle, during, n);
      LostAreTold(old(View()), View());
    }

    /** Its loop. The entry behind an entry is fetched before the entry is looked at. */
    method CleanUp(handle: int, during: seq<seq<Request>>)
      requires Valid()
      modifies this
      ensures Valid() && View() == Disconnected(old(View()), handle, during)
    {
      var i: nat, left, more := 0, during, list != [];
      while more
        invariant Valid() && (more ==> i < |list|)
        invariant (if more then LostFrom(View(), i, handle, left) else View())
                  == Disconnected(old(View()), handle, during)
        decreases more, |left|, |list| - i
      {
        i, left, more := CleanOne(i, handle, left);
      }
    }

    /** One turn of it: the context at `i` is told and goes, or stays. */
    method CleanOne(i: nat, handle: int, during: seq<seq<Request>>)
      returns (next: nat, left: seq<seq<Request>>, more: bool)
      requires Valid() && i < |list|
      modifies this
      ensures Valid() && (more ==> next < |list|)
      ensures View() == if Stays(old(list)[i], handle) then old(View())
                        else Visited(old(View()), i, Says(old(list)[i], handle, during))
      ensures (if more then LostFrom(View(), next, handle, left) else View())
              == LostFrom(old(View()), i, handle, during)
      ensures more ==> |left| < |during| || (|left| == |during| && |list| - next < old(|list|) - i)
    {
      var c := list[i];
      more := i + 1 < |list|;
      if Stays(c, handle) {
        return i + 1, during, more;
      }
      VisitedAdds(View(), i, Says(c, handle, during));
      LostFromNext(View(), i, handle, during);
      Visit(i, Says(c, handle, during));
      return i, Unsaid(c, handle, during), more;
    }

    // -------------------------------------------------------------- a reply arrives

    /** One thing the callback of a reply does. */
    method Perform(n: Nested)
      requires Valid()
      modifies this
      ensures Valid() && View() == Performed(old(View()), n)
    {
      match n {
        case Issue(r) =>
          IssuedKeeps(View(), r);
          var _ := AsyncSend(r);
        case Lose(handle, during) =>
          Disconnect(handle, during);
      }
    }

    /** Everything it does. */
    method PerformAll(script: seq<Nested>)
      requires Valid()
      modifies this
      ensures Valid() && View() == PerformedAll(old(View()), script)
    {
      var k := 0;
      while k < |script|
        invariant 0 <= k <= |script| && Valid() && View() == PerformedAll(old(View()), script[..k])
      {
        PerformedNext(old(View()), script, k);
        Perform(script[k]);
        k := k + 1;
      }
      assert script[..k] == script;
    }

    /** The callback of the context at `k` is called with the reply; `script` is what it does.
        Meanwhile the context is marked, so that no lost connection takes it away. */
    method Answer(k: nat, script: seq<Nested>)
      requires Valid() && k < |list| && list[k].callback && !list[k].inuse && Inv(Marked(View(), k))
      modifies this
      ensures Valid() && View() == PerformedAll(Marked(old(View()), k), script)
      ensures Listed(list, old(list)[k].id) && InUse(list, old(list)[k].id)
    {
      var c := list[k];
      ghost var marked := Marked(View(), k);
      list := list[k := c.(inuse := true)];
      told := told[c.id := told[c.id] + [Answered]];
      PerformAll(script);
      StaysListed(old(View()), k, View());
    }

    /** `packet_ready` for an ACK: the callback of its request is called, and when it has
        returned the context goes. */
    method Ack(handle: int, sequence: word64, script: seq<Nested>) returns (found: Option<nat>)
      requires Valid() && AtRest(View())
      modifies this
      ensures Valid() && AtRest(View()) && View() == Acked(old(View()), handle, sequence, script)
      ensures found == Find(old(list), handle, sequence)
      ensures forall id: Id :: id < old(issued) ==>
                id < |told| && Moved(old(View()), Reply(handle, sequence, script), View(), id)
    {
      ghost var before := View();
      AckedRests(before, handle, sequence, script);
      forall id: Id | id < issued
        ensures id < |Acked(before, handle, sequence, script).told|
        ensures Moved(before, Reply(handle, sequence, script), Acked(before, handle, sequence, script), id)
      {
        ReplyMoves(before, handle, sequence, script, id);
      }
      found := FindRequest(list, handle, sequence);
      if found == None {
        return;
      }
      var k := found.value;
      var c := list[k];
      assert c in list;
      if c.callback {
        MarkedKeeps(View(), k);
        Answer(k, script);
        FinishedKeeps(View(), c.id);
      } else {
        EndedKeeps(View(), k, Answered);
      }
      OnlyThere(View(), c.id);
      Remove(c.id);
    }

    // -------------------------------------------------------------- whole runs

    /** One turn of the event loop. */
    method Turn(e: Event)
      requires Valid() && AtRest(View())
      modifies this
      ensures Valid() && View() == Step(old(View()), e)
    {
      match e {
        case Reply(handle, sequence, script) =>
          var _ := Ack(handle, sequence, script);
        case Own(n) =>
          Perform(n);
      }
    }

    method TakeAll(events: seq<Event>)
      requires Valid() && View() == NO_REQUESTS
      modifies this
      ensures Valid() && View() == Run(events)
    {
      var k := 0;
      while k < |events|
        invariant 0 <= k <= |events| && Valid() && View() == Run(events[..k])
      {
        RunNext(events, k);
        Turn(events[k]);
        k := k + 1;
      }
      assert events[..k] == events;
    }

    /** Requests, replies and lost connections in any order: what `RequestRuns` says about runs
        it says about this program. In particular each callback has been called once, when its
        context has left the list, and those of requests accepted for a connection that has
        been lost since have left it. */
    method AnyRun(events: seq<Event>)
      requires Valid() && View() == NO_REQUESTS
      modifies this
      ensures Valid() && View() == Run(events)
      ensures forall id: Id :: id < issued ==>
                |told[id]| == if requests[id].Accepted() && requests[id].callback && !Listed(list, id) then 1 else 0
      ensures forall n, id: Id :: LostBy(events, n, id) ==> id < issued && !Listed(list, id)
    {
      TakeAll(events);
      forall id: Id | id < issued
        ensures |told[id]| == if requests[id].Accepted() && requests[id].callback && !Listed(list, id) then 1 else 0
      {
        ExactlyOnce(events, id);
      }
      forall n, id: Id | LostBy(events, n, id) ensures id < issued && !Listed(list, id) {
        NoneOutlivesItsConnection(events, n, id);
      }
    }
  }

  lemma SilenceGrows(told: seq<seq<Word>>, k: nat)
    ensures told + Silence(k) + [[]] == told + Silence(k + 1)
  {
  }

  lemma OnlyThere(t: Table, id: Id)
    requires Inv(t) && Listed(t.list, id)
    ensures forall k :: 0 <= k < |t.list| && t.list[k].id == id ==> k == Place(t.list, id)
  {
  }

  lemma LostAreTold(t: Table, r: Table)
    requires Inv(t) && Leads(t, r)
    ensures forall c :: c in t.list && !c.inuse && !Listed(r.list, c.id) ==>
              c.id < |r.told| && r.told[c.id] == if c.callback then [Lost] else []
  {
    forall c | c in t.list && !c.inuse && !Listed(r.list, c.id)
      ensures c.id < |r.told| && r.told[c.id] == if c.callback then [Lost] else []
    {
      ListedIn(t.list, c);
      assert ContextOk(t, c) && Follows(t, r, c.id);
    }
  }
}
