/** `invoke_disconn_cb_list` of `com-core.c`: closing a connection calls everybody who wants
    to know, any of whom may close connections in turn; a connection whose closing is under
    way is not closed again. The closings under way are kept in a `dlist`, as pointers. */
module Disconnects {
  import opened Dlist
  import opened Sequences

  /** One call of `com_core_client_destroy` or `com_core_server_destroy` for a descriptor,
      with the calls made by its callbacks, in order. */
  datatype Destroy = Destroy(handle: nat, during: seq<Destroy>)

  /** What ought to be closed, given the descriptors whose closing is under way. */
  function Closes(d: Destroy, active: set<nat>): seq<nat>
    decreases d
  {
    if d.handle in active then [] else ClosesAll(d.during, active + {d.handle}) + [d.handle]
  }

  function ClosesAll(ds: seq<Destroy>, active: set<nat>): seq<nat>
    decreases ds
  {
    if ds == [] then [] else Closes(ds[0], active) + ClosesAll(ds[1..], active)
  }

  /** The list of closings under way and the descriptors closed, in order. */
  datatype Outcome = Outcome(fds: seq<nat>, closed: seq<nat>)

  /** What the code does. */
  function Performed(d: Destroy, fds: seq<nat>): Outcome
    decreases d
  {
    if d.handle in Visible(fds) then Outcome(fds, [])
    else
      var inner := PerformedAll(d.during, fds + [d.handle]);
      Outcome(AfterRemoveData(inner.fds, d.handle), inner.closed + [d.handle])
  }

  function PerformedAll(ds: seq<Destroy>, fds: seq<nat>): Outcome
    decreases ds
  {
    if ds == [] then Outcome(fds, [])
    else
      var first := Performed(ds[0], fds);
      var rest := PerformedAll(ds[1..], first.fds);
      Outcome(rest.fds, first.closed + rest.closed)
  }

  class Connections {
    var disconnFds: seq<nat>
    var closed: seq<nat>

    constructor ()
      ensures disconnFds == [] && closed == []
    {
      disconnFds, closed := [], [];
    }

    /** `com_core_client_destroy`; its callbacks, called in a loop, close `d.during`. */
    method DestroyHandle(d: Destroy)
      modifies this
      ensures disconnFds == Performed(d, old(disconnFds)).fds
      ensures closed == old(closed) + Performed(d, old(disconnFds)).closed
      decreases d
    {
      if d.handle in Visible(disconnFds) {
        return;
      }
      disconnFds := disconnFds + [d.handle];
      DestroyAll(d.during);
      Associative(old(closed), PerformedAll(d.during, old(disconnFds) + [d.handle]).closed, [d.handle]);
      disconnFds := AfterRemoveData(disconnFds, d.handle);
      closed := closed + [d.handle];
    }

    method DestroyAll(ds: seq<Destroy>)
      modifies this
      ensures disconnFds == PerformedAll(ds, old(disconnFds)).fds
      ensures closed == old(closed) + PerformedAll(ds, old(disconnFds)).closed
      decreases ds
    {
      if ds != [] {
        DestroyHandle(ds[0]);
        ghost var first := Performed(ds[0], old(disconnFds));
        DestroyAll(ds[1..]);
        Associative(old(closed), first.closed, PerformedAll(ds[1..], first.fds).closed);
      }
    }
  }

  // ---------------------------------------------------------------- what ought to be

  /** A descriptor whose closing is under way is not closed by anybody meanwhile. */
  lemma {:induction false} ActiveIsNotClosed(d: Destroy, active: set<nat>, h: nat)
    requires h in active
    ensures h !in Closes(d, active)
    decreases d
  {
    if d.handle !in active {
      ActiveIsNotClosedByAll(d.during, active + {d.handle}, h);
    }
  }

  lemma {:induction false} ActiveIsNotClosedByAll(ds: seq<Destroy>, active: set<nat>, h: nat)
    requires h in active
    ensures h !in ClosesAll(ds, active)
    decreases ds
  {
    if ds != [] {
      ActiveIsNotClosed(ds[0], active, h);
      ActiveIsNotClosedByAll(ds[1..], active, h);
    }
  }

  /** So a closing closes its own descriptor exactly once, last of all. */
  lemma ClosedOnceAndLast(d: Destroy, active: set<nat>)
    requires d.handle !in active
    ensures var closed := Closes(d, active);
            closed != [] && closed[|closed| - 1] == d.handle && d.handle !in closed[..|closed| - 1]
  {
    ActiveIsNotClosedByAll(d.during, active + {d.handle}, d.handle);
    assert Closes(d, active)[..|Closes(d, active)| - 1] == ClosesAll(d.during, active + {d.handle});
  }

  // ---------------------------------------------------------------- what the code does

  /** Descriptor 0 is to be closed somewhere: as a pointer it is NULL, which the list
      functions take for its end. */
  predicate ReachesZero(d: Destroy, active: set<nat>)
    decreases d
  {
    d.handle !in active && (d.handle == 0 || ReachesZeroIn(d.during, active + {d.handle}))
  }

  predicate ReachesZeroIn(ds: seq<Destroy>, active: set<nat>)
    decreases ds
  {
    ds != [] && (ReachesZero(ds[0], active) || ReachesZeroIn(ds[1..], active))
  }

  function Members(fds: seq<nat>): set<nat> {
    set h | h in fds
  }

  lemma VisibleAll(fds: seq<nat>)
    requires NULL !in fds
    ensures Visible(fds) == fds
  {
    CountIsLength(fds);
  }

  /** Unless descriptor 0 is reached, the code closes what ought to be closed, in that
      order, and restores the list. */
  lemma {:induction false} ClosesWhatOught(d: Destroy, fds: seq<nat>)
    requires NULL !in fds && !ReachesZero(d, Members(fds))
    ensures Performed(d, fds) == Outcome(fds, Closes(d, Members(fds)))
    decreases d
  {
    VisibleAll(fds);
    if d.handle !in fds {
      assert Members(fds + [d.handle]) == Members(fds) + {d.handle};
      AllCloseWhatOught(d.during, fds + [d.handle]);
      AddThenRemove(fds, d.handle);
    }
  }

  lemma {:induction false} AllCloseWhatOught(ds: seq<Destroy>, fds: seq<nat>)
    requires NULL !in fds && !ReachesZeroIn(ds, Members(fds))
    ensures PerformedAll(ds, fds) == Outcome(fds, ClosesAll(ds, Members(fds)))
    decreases ds
  {
    if ds != [] {
      ClosesWhatOught(ds[0], fds);
      AllCloseWhatOught(ds[1..], fds);
    }
  }

  /** What is forgotten once stays so. */
  lemma {:induction false} NothingKept(d: Destroy)
    ensures Performed(d, []).fds == []
    decreases d
  {
    var h := d.handle;
    if h != 0 {
      assert [] + [h] == [h];
      if ReachesZeroIn(d.during, Members([h])) {
        ZeroForgetsIn(d.during, [h]);
      } else {
        AllCloseWhatOught(d.during, [h]);
      }
      AddThenRemove([], h);
    }
  }

  lemma {:induction false} NothingKeptByAll(ds: seq<Destroy>)
    ensures PerformedAll(ds, []).fds == []
    decreases ds
  {
    if ds != [] {
      NothingKept(ds[0]);
      NothingKeptByAll(ds[1..]);
    }
  }

  /** Closing descriptor 0 forgets every closing under way. */
  lemma {:induction false} ZeroForgets(d: Destroy, fds: seq<nat>)
    requires NULL !in fds && ReachesZero(d, Members(fds))
    ensures Performed(d, fds).fds == []
    decreases d
  {
    VisibleAll(fds);
    if d.handle != 0 {
      assert Members(fds + [d.handle]) == Members(fds) + {d.handle};
      ZeroForgetsIn(d.during, fds + [d.handle]);
    }
  }

  lemma {:induction false} ZeroForgetsIn(ds: seq<Destroy>, fds: seq<nat>)
    requires NULL !in fds && ReachesZeroIn(ds, Members(fds))
    ensures PerformedAll(ds, fds).fds == []
    decreases ds
  {
    if ReachesZero(ds[0], Members(fds)) {
      ZeroForgets(ds[0], fds);
      NothingKeptByAll(ds[1..]);
    } else {
      ClosesWhatOught(ds[0], fds);
      ZeroForgetsIn(ds[1..], fds);
    }
  }

  /** The code restores its list of closings under way if and only if descriptor 0 is not
      reached, or nothing was under way. */
  lemma RestoredUnlessZero(d: Destroy, fds: seq<nat>)
    requires NULL !in fds
    ensures Performed(d, fds).fds == fds <==> (fds == [] || !ReachesZero(d, Members(fds)))
  {
    if fds == [] {
      NothingKept(d);
    } else if ReachesZero(d, Members(fds)) {
      ZeroForgets(d, fds);
    } else {
      ClosesWhatOught(d, fds);
    }
  }

  /** `ds`, and then one more. */
  function ThenClose(ds: seq<Destroy>, h: nat): seq<Destroy> {
    ds + [Destroy(h, [])]
  }

  lemma {:induction false} ThenCloseParts(ds: seq<Destroy>, h: nat, fds: seq<nat>, active: set<nat>)
    ensures var e, first := Destroy(h, []), PerformedAll(ds, fds);
            PerformedAll(ThenClose(ds, h), fds).closed == first.closed + Performed(e, first.fds).closed
    ensures ClosesAll(ThenClose(ds, h), active) == ClosesAll(ds, active) + Closes(Destroy(h, []), active)
    decreases ds
  {
    var e := Destroy(h, []);
    if ds == [] {
      assert ThenClose(ds, h) == [e] && [e][1..] == [];
    } else {
      var first := Performed(ds[0], fds);
      assert ThenClose(ds, h)[0] == ds[0] && ThenClose(ds, h)[1..] == ThenClose(ds[1..], h);
      ThenCloseParts(ds[1..], h, first.fds, active);
      var rest := PerformedAll(ds[1..], first.fds);
      Associative(first.closed, rest.closed, Performed(e, rest.fds).closed);
      Associative(Closes(ds[0], active), ClosesAll(ds[1..], active), Closes(e, active));
    }
  }

  lemma ClosesOne(h: nat, fds: seq<nat>)
    ensures Performed(Destroy(h, []), fds).closed == if h in Visible(fds) then [] else [h]
    ensures Closes(Destroy(h, []), Members(fds)) == if h in fds then [] else [h]
  {
  }

  /** Within a callback: whatever descriptor is to be closed next, those before and that one
      are closed as they ought to be, if and only if descriptor 0 is not reached. */
  lemma ClosesRightlyUnlessZero(ds: seq<Destroy>, fds: seq<nat>)
    requires NULL !in fds && fds != []
    ensures (forall h: nat :: PerformedAll(ThenClose(ds, h), fds).closed == ClosesAll(ThenClose(ds, h), Members(fds)))
       <==> !ReachesZeroIn(ds, Members(fds))
  {
    VisibleAll(fds);
    if ReachesZeroIn(ds, Members(fds)) {
      var h := fds[0];
      ZeroForgetsIn(ds, fds);
      ThenCloseParts(ds, h, fds, Members(fds));
      ClosesOne(h, fds);
      ClosesOne(h, []);
      ActiveIsNotClosedByAll(ds, Members(fds), h);
      assert Visible([]) == [];
      assert h in PerformedAll(ThenClose(ds, h), fds).closed;
    } else {
      forall h: nat
        ensures PerformedAll(ThenClose(ds, h), fds).closed == ClosesAll(ThenClose(ds, h), Members(fds))
      {
        ThenCloseParts(ds, h, fds, Members(fds));
        ClosesOne(h, fds);
        AllCloseWhatOught(ds, fds);
      }
    }
  }

  /** The same for a closing from outside, whose callbacks close `ds` and one more. */
  lemma OutermostClosesRightlyUnlessZero(handle: nat, ds: seq<Destroy>)
    ensures (forall h: nat :: Performed(Destroy(handle, ThenClose(ds, h)), []).closed
                              == Closes(Destroy(handle, ThenClose(ds, h)), {}))
       <==> !ReachesZero(Destroy(handle, ds), {})
  {
    assert Members([handle]) == {handle} && {} + {handle} == {handle};
    if handle == 0 {
      ZeroIsClosedTwice(ds);
    } else {
      ClosesRightlyUnlessZero(ds, [handle]);
      forall h: nat
        ensures Performed(Destroy(handle, ThenClose(ds, h)), []).closed
                == Closes(Destroy(handle, ThenClose(ds, h)), {})
           <==> PerformedAll(ThenClose(ds, h), [handle]).closed == ClosesAll(ThenClose(ds, h), {handle})
      {
        OutermostParts(handle, ThenClose(ds, h));
        SameBefore(PerformedAll(ThenClose(ds, h), [handle]).closed, ClosesAll(ThenClose(ds, h), {handle}), handle);
      }
    }
  }

  lemma {:induction false} ZeroIsNotSeen(fds: seq<nat>)
    ensures 0 !in Visible(fds)
  {
    if fds != [] && fds[0] != NULL {
      ZeroIsNotSeen(fds[1..]);
    }
  }

  /** Nobody sees that descriptor 0 is being closed. */
  lemma ZeroIsClosedTwice(ds: seq<Destroy>)
    ensures Performed(Destroy(0, ThenClose(ds, 0)), []).closed != Closes(Destroy(0, ThenClose(ds, 0)), {})
  {
    OutermostParts(0, ThenClose(ds, 0));
    ThenCloseParts(ds, 0, [0], {0});
    ZeroIsNotSeen(PerformedAll(ds, [0]).fds);
    ActiveIsNotClosedByAll(ds, {0}, 0);
    var done, ought := PerformedAll(ds, [0]).closed + [0], ClosesAll(ds, {0}) + [];
    SameBefore(done, ought, 0);
    assert 0 in done && 0 !in ought;
  }

  lemma SameBefore(a: seq<nat>, b: seq<nat>, x: nat)
    ensures a + [x] == b + [x] <==> a == b
  {
    assert (a + [x])[..|a|] == a && (b + [x])[..|b|] == b && |a + [x]| == |a| + 1 && |b + [x]| == |b| + 1;
  }

  lemma OutermostParts(handle: nat, ds: seq<Destroy>)
    ensures Performed(Destroy(handle, ds), []).closed == PerformedAll(ds, [handle]).closed + [handle]
    ensures Closes(Destroy(handle, ds), {}) == ClosesAll(ds, {handle}) + [handle]
  {
    assert Visible([]) == [] && [] + [handle] == [handle] && {} + {handle} == {handle};
  }

  /** Forgotten means closed twice: here the callback of connection 5 closes connections 0
      and then 5 again. */
  lemma ForgottenIsClosedTwice()
    ensures Performed(Destroy(5, [Destroy(0, []), Destroy(5, [])]), []).closed == [0, 5, 5]
    ensures Closes(Destroy(5, [Destroy(0, []), Destroy(5, [])]), {}) == [0, 5]
  {
    var zero, five := Destroy(0, []), Destroy(5, []);
    assert [zero, five][1..] == [five] && [five][1..] == [];
    assert Performed(zero, [5]) == Outcome([], [0]);
    assert Visible([]) == [];
    assert Performed(five, []).closed == [5];
    assert PerformedAll([five], []).closed == [5];
    assert PerformedAll([zero, five], [5]).closed == [0, 5];
    assert [] + [5] == [5];
    assert ClosesAll([five], {5}) == [];
    assert {} + {5} == {5};
  }
}
