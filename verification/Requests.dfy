/** The list of request contexts of `com-core_packet.c`: finding the request of a reply, and
    what remains when a connection is lost while callbacks issue further requests. */
module Requests {
  import opened Bytes
  import opened Options
  import opened Packets
  import opened Sequences

  type Id = nat

  /** `struct request_ctx`; `id` stands for its address. */
  datatype Context = Context(id: Id, handle: int, sequence: word64, callback: bool, inuse: bool)

  /** One call of `com_core_packet_async_send`; `sent` tells whether the whole packet went
      out. */
  datatype Request = Request(handle: int, kind: word32, sequence: word64, callback: bool, sent: bool)
  {
    predicate Correct() {
      handle >= 0 && kind == PACKET_REQ
    }

    predicate Accepted() {
      Correct() && sent
    }
  }

  /** What the callback of a reply may do: issue requests and, by destroying a connection,
      have its contexts cleaned up. `during[k]` holds the requests issued by the k-th callback
      of that clean-up. */
  datatype Nested = Issue(request: Request) | Lose(handle: int, during: seq<seq<Request>>)

  /** What the event loop sees: an ACK, or something done outside any callback. */
  datatype Event = Reply(handle: int, sequence: word64, script: seq<Nested>) | Own(action: Nested)

  predicate Matches(c: Context, handle: int, sequence: word64) {
    c.handle == handle && c.sequence == sequence
  }

  /** `find_request_ctx`. */
  method FindRequest(list: seq<Context>, handle: int, sequence: word64) returns (k: Option<nat>)
    ensures k == Find(list, handle, sequence)
  {
    var i := 0;
    while i < |list|
      invariant 0 <= i <= |list|
      invariant Find(list, handle, sequence) == Shift(Find(list[i..], handle, sequence), i)
    {
      if Matches(list[i], handle, sequence) {
        return Some(i);
      }
      i := i + 1;
    }
    return None;
  }

  function Shift(k: Option<nat>, places: nat): Option<nat> {
    if k == None then None else Some(k.value + places)
  }

  /** The first context of the handle with that sequence number. */
  function Find(list: seq<Context>, handle: int, sequence: word64): (k: Option<nat>)
    ensures k.Some? ==> k.value < |list| && list[k.value].handle == handle && list[k.value].sequence == sequence
    ensures forall i :: 0 <= i < (if k.Some? then k.value else |list|) ==>
              list[i].handle != handle || list[i].sequence != sequence
  {
    if list == [] then None
    else if Matches(list[0], handle, sequence) then Some(0)
    else Shift(Find(list[1..], handle, sequence), 1)
  }

  /** An ACK made from a request reaches that request's context exactly if no earlier context
      of the connection carries the same sequence number. */
  lemma ReplyFindsItsRequest(list: seq<Context>, k: nat, request: Header, payloadSize: int32)
    requires k < |list| && list[k].sequence == request.sequence
    requires request.Valid() && Legible(request.command)
    ensures var reply := ReplyHeader(request, payloadSize);
            reply.kind == PACKET_ACK
            && (Find(list, list[k].handle, reply.sequence) == Some(k)
                <==> forall i :: 0 <= i < k ==>
                       list[i].handle != list[k].handle || list[i].sequence != request.sequence)
  {
    var found := Find(list, list[k].handle, request.sequence);
    if found != Some(k) {
      assert found.value < k;
    }
  }

  /** A lost connection leaves this context alone. */
  function Spared(c: Context, handle: int): seq<Context> {
    if c.handle != handle || c.inuse then [c] else []
  }

  /** The contexts it leaves alone. */
  function Survivors(list: seq<Context>, handle: int): seq<Context> {
    if list == [] then [] else Spared(list[0], handle) + Survivors(list[1..], handle)
  }

  lemma {:induction false} SurvivorsAre(list: seq<Context>, handle: int)
    ensures forall c :: c in Survivors(list, handle) <==> c in list && (c.handle != handle || c.inuse)
  {
    if list != [] {
      SurvivorsAre(list[1..], handle);
      assert list == [list[0]] + list[1..];
    }
  }

  lemma {:induction false} SurvivorsConcat(a: seq<Context>, b: seq<Context>, handle: int)
    ensures Survivors(a + b, handle) == Survivors(a, handle) + Survivors(b, handle)
  {
    if a == [] {
      assert a + b == b;
    } else {
      assert (a + b)[0] == a[0] && (a + b)[1..] == a[1..] + b;
      SurvivorsConcat(a[1..], b, handle);
      Associative(Spared(a[0], handle), Survivors(a[1..], handle), Survivors(b, handle));
    }
  }

  /** What call number `id` adds to the list. */
  function Opened(r: Request, id: Id): seq<Context> {
    if r.Accepted() then [Context(id, r.handle, r.sequence, r.callback, false)] else []
  }

  /** What a sequence of calls adds to the list, the first being number `id`. */
  function Contexts(requests: seq<Request>, id: Id): seq<Context> {
    if requests == [] then [] else Opened(requests[0], id) + Contexts(requests[1..], id + 1)
  }

  lemma ContextsOne(r: Request, id: Id)
    ensures Contexts([r], id) == Opened(r, id)
  {
    assert [r][1..] == [] && Opened(r, id) + [] == Opened(r, id);
  }

  lemma ContextsCons(r: Request, requests: seq<Request>, id: Id)
    ensures Contexts([r] + requests, id) == Opened(r, id) + Contexts(requests, id + 1)
  {
    assert ([r] + requests)[1..] == requests;
  }

  lemma {:induction false} ContextsSnoc(requests: seq<Request>, r: Request, id: Id)
    ensures Contexts(requests + [r], id) == Contexts(requests, id) + Opened(r, id + |requests|)
  {
    if requests == [] {
      ContextsOne(r, id);
      assert requests + [r] == [r];
    } else {
      var first, tail := requests[0], requests[1..];
      ContextsSnoc(tail, r, id + 1);
      HeadFirst(requests, r);
      ContextsCons(first, tail + [r], id);
      calc {
        Contexts(requests + [r], id);
        Opened(first, id) + (Contexts(tail, id + 1) + Opened(r, id + 1 + |tail|));
        { Associative(Opened(first, id), Contexts(tail, id + 1), Opened(r, id + 1 + |tail|)); }
        (Opened(first, id) + Contexts(tail, id + 1)) + Opened(r, id + 1 + |tail|);
      }
    }
  }

  lemma {:induction false} ContextsAreNew(requests: seq<Request>, id: Id)
    ensures forall c :: c in Contexts(requests, id) ==> !c.inuse && id <= c.id < id + |requests|
  {
    if requests == [] {
    } else {
      ContextsAreNew(requests[1..], id + 1);
    }
  }

  /** The connection has a context in the list exactly if one of the requests was for it. */
  lemma {:induction false} ContextsFor(requests: seq<Request>, id: Id, handle: int)
    ensures (exists c :: c in Contexts(requests, id) && c.handle == handle)
            <==> exists r :: r in requests && r.Accepted() && r.handle == handle
  {
    if requests == [] {
    } else {
      var r := requests[0];
      ContextsFor(requests[1..], id + 1, handle);
      assert requests == [r] + requests[1..];
      if r.Accepted() {
        assert Context(id, r.handle, r.sequence, r.callback, false) in Contexts(requests, id);
      }
    }
  }

  predicate Loses(n: Nested, handle: int) {
    n.Lose? && n.handle == handle
  }

  predicate LosesAny(script: seq<Nested>, handle: int) {
    exists i :: 0 <= i < |script| && Loses(script[i], handle)
  }

  ghost predicate Listed(list: seq<Context>, id: Id) {
    exists i :: 0 <= i < |list| && list[i].id == id
  }

  lemma ListedConcat(a: seq<Context>, b: seq<Context>, id: Id)
    ensures Listed(a + b, id) <==> Listed(a, id) || Listed(b, id)
  {
    forall i | 0 <= i < |a| && a[i].id == id ensures Listed(a + b, id) {
      assert (a + b)[i].id == id;
    }
    forall i | 0 <= i < |b| && b[i].id == id ensures Listed(a + b, id) {
      assert (a + b)[|a| + i].id == id;
    }
  }

  function Without(list: seq<Context>, k: nat): seq<Context>
    requires k < |list|
  {
    list[..k] + list[k + 1..]
  }

  lemma ListedWithout(list: seq<Context>, k: nat, id: Id)
    requires k < |list| && list[k].id != id
    ensures Listed(Without(list, k), id) <==> Listed(list, id)
  {
    assert list == list[..k] + ([list[k]] + list[k + 1..]);
    ListedConcat(list[..k], [list[k]] + list[k + 1..], id);
    ListedConcat([list[k]], list[k + 1..], id);
    ListedConcat(list[..k], list[k + 1..], id);
  }

  lemma WithoutKeeps(list: seq<Context>, k: nat)
    requires k < |list|
    ensures forall c :: c in list && c != list[k] ==> c in Without(list, k)
  {
    forall c | c in list && c != list[k] ensures c in Without(list, k) {
      assert list == list[..k] + [list[k]] + list[k + 1..];
    }
  }

  lemma WithoutConcat(a: seq<Context>, b: seq<Context>, k: nat)
    requires k < |a|
    ensures Without(a + b, k) == Without(a, k) + b
  {
  }

  // ---------------------------------------------------------------- a connection is lost

  predicate Stays(c: Context, handle: int) {
    c.handle != handle || c.inuse
  }

  /** Visiting `c` calls a callback, and it is the next that `during` has requests for. */
  predicate Speaks(c: Context, handle: int, during: seq<seq<Request>>) {
    !Stays(c, handle) && c.callback && during != []
  }

  function Says(c: Context, handle: int, during: seq<seq<Request>>): seq<Request> {
    if Speaks(c, handle, during) then during[0] else []
  }

  function Unsaid(c: Context, handle: int, during: seq<seq<Request>>): seq<seq<Request>> {
    if Speaks(c, handle, during) then during[1..] else during
  }

  /** The part of the list from some entry on, when the loop has gone through it. The entry
      behind an entry is fetched before its callback is called: what the callback of the
      last entry adds is not visited. Calls of async_send are numbered from `id`. */
  function CleanedUp(rest: seq<Context>, handle: int, during: seq<seq<Request>>, id: Id): seq<Context>
    decreases |during|, |rest|
  {
    if rest == [] then []
    else
      var added := Says(rest[0], handle, during);
      var next := rest[1..] + Contexts(added, id);
      Spared(rest[0], handle)
      + if |rest| == 1 then next else CleanedUp(next, handle, Unsaid(rest[0], handle, during), id + |added|)
  }

  /** The entry that is last in the list when it is visited is told and has a callback, which
      issues a request for the connection just lost. */
  predicate LastAsksAgain(rest: seq<Context>, handle: int, during: seq<seq<Request>>, id: Id)
    decreases |during|, |rest|
  {
    rest != []
    && var added := Says(rest[0], handle, during);
       if |rest| == 1 then exists r :: r in added && r.Accepted() && r.handle == handle
       else LastAsksAgain(rest[1..] + Contexts(added, id), handle, Unsaid(rest[0], handle, during), id + |added|)
  }

  /** A context of the connection that no callback is using. */
  ghost predicate Waiting(list: seq<Context>, handle: int) {
    exists c :: c in list && c.handle == handle && !c.inuse
  }

  lemma WaitingBehind(c: Context, list: seq<Context>, handle: int)
    ensures Waiting(Spared(c, handle) + list, handle) <==> Waiting(list, handle)
  {
    assert forall d :: d in list ==> d in Spared(c, handle) + list;
  }

  /** An unused context of the lost connection stays behind if and only if the callback of
      the entry visited last has issued a request for the connection. */
  lemma {:induction false} StaysBehind(rest: seq<Context>, handle: int, during: seq<seq<Request>>, id: Id)
    ensures Waiting(CleanedUp(rest, handle, during, id), handle) <==> LastAsksAgain(rest, handle, during, id)
    decreases |during|, |rest|
  {
    if rest != [] {
      var added := Says(rest[0], handle, during);
      var next := rest[1..] + Contexts(added, id);
      if |rest| == 1 {
        ContextsFor(added, id, handle);
        ContextsAreNew(added, id);
        assert next == Contexts(added, id);
        WaitingBehind(rest[0], next, handle);
      } else {
        var left := Unsaid(rest[0], handle, during);
        StaysBehind(next, handle, left, id + |added|);
        WaitingBehind(rest[0], CleanedUp(next, handle, left, id + |added|), handle);
      }
    }
  }

  /** In particular none does if no callback issues requests for the connection. */
  lemma {:induction false} NoneStaysBehind(rest: seq<Context>, handle: int, during: seq<seq<Request>>, id: Id)
    requires forall k, r :: 0 <= k < |during| && r in during[k] ==> r.handle != handle
    ensures !LastAsksAgain(rest, handle, during, id)
    decreases |during|, |rest|
  {
    if |rest| > 1 {
      var added := Says(rest[0], handle, during);
      NoneStaysBehind(rest[1..] + Contexts(added, id), handle, Unsaid(rest[0], handle, during), id + |added|);
    }
  }

  /** It does depend on the last entry, not on the last callback: with one context for
      connection 1 its callback's new request for that connection stays behind; with a
      context for connection 2 behind it, the same request is visited and goes. */
  lemma LastEntryDecides(sequence: word64)
    ensures var again := [[Request(1, PACKET_REQ, sequence, false, true)]];
            var one, other := Context(0, 1, sequence, true, false), Context(1, 2, sequence, true, false);
            && Waiting(CleanedUp([one], 1, again, 2), 1)
            && CleanedUp([one, other], 1, again, 2) == [other]
  {
    var r := Request(1, PACKET_REQ, sequence, false, true);
    var one, other := Context(0, 1, sequence, true, false), Context(1, 2, sequence, true, false);
    ContextsOne(r, 2);
    assert LastAsksAgain([one], 1, [[r]], 2) by {
      assert r in Says(one, 1, [[r]]);
    }
    StaysBehind([one], 1, [[r]], 2);
    OtherBehind(other, Context(2, 1, sequence, false, false));
    assert [one, other][1..] + [Context(2, 1, sequence, false, false)]
           == [other, Context(2, 1, sequence, false, false)];
  }

  lemma OtherBehind(other: Context, late: Context)
    requires other.handle == 2 && late.handle == 1 && !late.inuse && !late.callback
    ensures CleanedUp([other, late], 1, [], 3) == [other]
  {
    assert [other, late][1..] + [] == [late] && [late][1..] + [] == [];
    assert CleanedUp([late], 1, [], 3) == [];
  }

  /** Of the contexts in the list before, exactly the survivors are still there, in order;
      behind them are only contexts made since. */
  ghost predicate Cleaned(before: seq<Context>, list: seq<Context>, handle: int, issued: nat) {
    var kept := Survivors(before, handle);
    kept <= list && forall c :: c in list[|kept|..] ==> !c.inuse && c.id >= issued
  }

  ghost predicate AllNew(list: seq<Context>, issued: nat) {
    forall c :: c in list ==> !c.inuse && c.id >= issued
  }

  /** Whatever the callbacks issue, `extra` being what they have added so far. */
  lemma {:induction false} OnlyNewRemain(before: seq<Context>, extra: seq<Context>, handle: int,
                                         during: seq<seq<Request>>, id: Id, issued: nat)
    requires AllNew(extra, issued) && id >= issued
    ensures Cleaned(before, CleanedUp(before + extra, handle, during, id), handle, issued)
    decreases |during|, |before + extra|
  {
    var rest := before + extra;
    if rest != [] {
      var c := rest[0];
      var added := Contexts(Says(c, handle, during), id);
      ContextsAreNew(Says(c, handle, during), id);
      var older, newer :=
        if before == [] then [] else before[1..], (if before == [] then extra[1..] else extra) + added;
      TailOf(before, extra, added);
      if |rest| == 1 {
        CleanedBy(before, rest, handle, issued, newer);
      } else {
        var left, next := Unsaid(c, handle, during), id + |Says(c, handle, during)|;
        OnlyNewRemain(older, newer, handle, left, next, issued);
        CleanedBy(before, rest, handle, issued, CleanedUp(older + newer, handle, left, next));
      }
    }
  }

  lemma TailOf(before: seq<Context>, extra: seq<Context>, added: seq<Context>)
    requires before + extra != []
    ensures (before + extra)[1..] + added
            == (if before == [] then [] else before[1..]) + ((if before == [] then extra[1..] else extra) + added)
    ensures before == [] ==> (before + extra)[0] in extra
    ensures |before + extra| == 1 ==>
              (before + extra)[1..] + added == (if before == [] then extra[1..] else extra) + added
  {
  }

  lemma CleanedBy(before: seq<Context>, rest: seq<Context>, handle: int, issued: nat, list: seq<Context>)
    requires rest != [] && before <= rest && (before == [] ==> AllNew([rest[0]], issued))
    requires Cleaned(if before == [] then [] else before[1..], list, handle, issued)
    ensures Cleaned(before, Spared(rest[0], handle) + list, handle, issued)
  {
    var all := Spared(rest[0], handle) + list;
    if before == [] {
      assert list[0..] == list && all[0..] == all;
    } else {
      var kept := Survivors(before[1..], handle);
      assert Survivors(before, handle) == Spared(rest[0], handle) + kept;
      assert all[|Spared(rest[0], handle) + kept|..] == list[|kept|..];
    }
  }

  /** What the loss of a connection has removed from the list is not in it any more under
      another guise: numbers are not used twice. */
  lemma GoneForGood(before: seq<Context>, list: seq<Context>, handle: int, issued: nat)
    requires forall i, j :: 0 <= i < j < |before| ==> before[i].id != before[j].id
    requires forall i :: 0 <= i < |before| ==> before[i].id < issued
    requires Cleaned(before, list, handle, issued)
    ensures forall c :: c in before && c.handle == handle && !c.inuse ==> !Listed(list, c.id)
  {
    var kept := Survivors(before, handle);
    SurvivorsAre(before, handle);
    assert list == kept + list[|kept|..];
    forall c | c in before && c.handle == handle && !c.inuse ensures !Listed(list, c.id) {
      forall i | 0 <= i < |list| ensures list[i].id != c.id {
        assert list[i] in kept || list[i] in list[|kept|..];
      }
    }
  }

  /** The entries a turn of the loop has `kept`, and the `rest` of the list. */
  datatype Sweep = Sweep(kept: seq<Context>, rest: seq<Context>)

  function Swept(w: Sweep, handle: int, during: seq<seq<Request>>, id: Id): Sweep
    requires w.rest != []
  {
    Sweep(w.kept + Spared(w.rest[0], handle), w.rest[1..] + Contexts(Says(w.rest[0], handle, during), id))
  }

  /** What the list becomes in the end. */
  function Goal(w: Sweep, handle: int, during: seq<seq<Request>>, id: Id): seq<Context> {
    w.kept + CleanedUp(w.rest, handle, during, id)
  }

  /** One turn comes nearer to the goal. */
  lemma SweepLeads(w: Sweep, handle: int, during: seq<seq<Request>>, id: Id)
    requires w.rest != []
    ensures var c, v := w.rest[0], Swept(w, handle, during, id);
            && Goal(w, handle, during, id)
               == (if |w.rest| == 1 then v.kept + v.rest
                   else Goal(v, handle, Unsaid(c, handle, during), id + |Says(c, handle, during)|))
            && (|w.rest| > 1 ==> v.rest != [])
            && (|Unsaid(c, handle, during)| < |during| || |v.rest| < |w.rest|)
  {
    var c, v := w.rest[0], Swept(w, handle, during, id);
    if |w.rest| == 1 {
      Associative(w.kept, Spared(c, handle), v.rest);
    } else {
      Associative(w.kept, Spared(c, handle),
                  CleanedUp(v.rest, handle, Unsaid(c, handle, during), id + |Says(c, handle, during)|));
    }
  }
}
