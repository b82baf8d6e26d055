/** The statements of `service_common.c` that touch the packet list and the two pipes, each
    proved to take the step the state machine of module `ServiceDispatch` gives it, from any
    state in which it can be reached. What holds over whole runs is proved there. */
module ServiceThreads {
  import opened Options
  import opened ServiceDispatch

  lemma {:induction false} SelectConcat(a: seq<Info>, b: seq<Info>, t: Tcb, referring: bool)
    ensures Select(a + b, t, referring) == Select(a, t, referring) + Select(b, t, referring)
  {
    if a == [] {
      assert a + b == b;
    } else {
      assert (a + b)[0] == a[0] && (a + b)[1..] == a[1..] + b;
      SelectConcat(a[1..], b, t, referring);
    }
  }

  /** The collecting loop looks at one more entry. */
  lemma SelectOne(done: seq<Info>, e: Info, t: Tcb, referring: bool)
    ensures Select(done + [e], t, referring)
            == Select(done, t, referring) + if e.tcb == Some(t) <==> referring then [e] else []
  {
    SelectConcat(done, [e], t, referring);
    assert [e][1..] == [];
  }

  lemma RemoveBehind(list: seq<Info>, kept: seq<Info>, rest: seq<Info>)
    requires list == kept + rest && rest != []
    ensures list[|kept|] == rest[0] && list[..|kept|] + list[|kept| + 1..] == kept + rest[1..]
    ensures list == (kept + [rest[0]]) + rest[1..]
  {
  }

  /** `struct service_context`, with the log of the calls of its `service_thread_main`. */
  class ServiceContext {
    var packetList: seq<Info>
    var evtPipe: nat
    var tcbPipe: seq<Tcb>
    var threads: map<Tcb, Thread>
    ghost var calls: seq<Call>
    var server: Server               // the statement its server thread is at
    ghost var received: map<Tcb, seq<Packet>>

    ghost function View(): Service
      reads this
    {
      Service(packetList, evtPipe, tcbPipe, threads, server, calls, received)
    }

    constructor ()
      ensures View() == START
    {
      packetList, evtPipe, tcbPipe, threads := [], 0, [], map[];
      calls, server, received := [], Selecting, map[];
    }

    /** A thread appears: a client's with `tcb_create` (`Receiving`), or another one of the
        daemon (`Outside`). */
    method NewThread(t: Tcb, kind: Thread)
      requires t !in threads && (kind == Outside || (kind == Receiving && server == Selecting))
      modifies this`threads, this`received
      ensures Apply(old(View()), if kind == Outside then Join(t) else Connect(t)) == Some(View())
    {
      threads := threads[t := kind];
      received := received[t := []];
    }

    /** A packet joins the list: in `client_packet_pump_main` with the TCB of the thread, in
        `service_common_send_packet_to_service` without one. */
    method AppendPacket(t: Tcb, p: Packet)
      requires t in received && (Is(View(), t, Receiving) || Is(View(), t, Outside))
      modifies this`packetList, this`threads, this`received
      ensures Apply(old(View()), Append(t, p)) == Some(View())
    {
      var mine := threads[t] == Receiving;
      packetList := packetList + [Info(if mine then Some(t) else None, t, p)];
      threads := threads[t := if mine then Appended else Posting];
      received := received[t := received[t] + [p]];
    }

    /** And its event byte the pipe. */
    method WriteEvent(t: Tcb)
      requires Owes(threads, t)
      modifies this`evtPipe, this`threads
      ensures Apply(old(View()), Signal(t)) == Some(View())
    {
      evtPipe := evtPipe + 1;
      threads := threads[t := if threads[t] == Appended then Receiving else Outside];
    }

    /** The loop at the end of `client_packet_pump_main`. */
    method ResetPointers(t: Tcb)
      requires Is(View(), t, Receiving)
      modifies this`packetList, this`threads
      ensures Apply(old(View()), Detach(t)) == Some(View())
      ensures forall e :: e in packetList ==> e.tcb != Some(t)
    {
      var i := 0;
      while i < |packetList|
        invariant 0 <= i <= |packetList| == |old(packetList)| && threads == old(threads)
        invariant forall k :: 0 <= k < i ==> packetList[k] == Detached(old(packetList), t)[k]
        invariant forall k :: i <= k < |packetList| ==> packetList[k] == old(packetList)[k]
      {
        if packetList[i].tcb == Some(t) {
          packetList := packetList[i := packetList[i].(tcb := None)];
        }
        i := i + 1;
      }
      assert packetList == Detached(old(packetList), t);
      threads := threads[t := Ending];
    }

    /** The last statement of a client thread. */
    method WriteTcb(t: Tcb)
      requires Is(View(), t, Ending)
      modifies this`tcbPipe, this`threads
      ensures Apply(old(View()), SignalEnd(t)) == Some(View())
    {
      tcbPipe := tcbPipe + [t];
      threads := threads[t := Ended];
    }

    // -------------------------------------------------------------- server_main

    method ReadEvent()
      requires server == Selecting && evtPipe > 0
      modifies this`evtPipe, this`server
      ensures Apply(old(View()), ReadByte) == Some(View())
    {
      evtPipe := evtPipe - 1;
      server := GotByte;
    }

    method PopPacket() returns (info: Option<Info>)
      requires server == GotByte
      modifies this`packetList, this`server
      ensures Apply(old(View()), Pop) == Some(View())
      ensures server == if info == None then Selecting else Handling(info.value)
    {
      if packetList == [] {
        server := Selecting;
        return None;
      }
      info := Some(packetList[0]);
      packetList := packetList[1..];
      server := Handling(info.value);
    }

    /** `service_thread_main` with a packet. */
    method HandlePacket(info: Info)
      requires server == Handling(info)
      modifies this`calls, this`server
      ensures Apply(old(View()), Handle) == Some(View())
    {
      calls := calls + [Serve(info)];
      server := Selecting;
    }

    /** An ended thread is announced, and its packets are taken out of the list. */
    method CollectTcb() returns (tcb: Tcb, lockfree: seq<Info>)
      requires server == Selecting && tcbPipe != []
      modifies this`packetList, this`tcbPipe, this`server
      ensures Apply(old(View()), ReadTcb) == Some(View()) && server == Collected(tcb, lockfree)
    {
      tcb := tcbPipe[0];
      tcbPipe := tcbPipe[1..];
      lockfree := TakeOut(tcb);
      server := Collected(tcb, lockfree);
    }

    method TakeOut(tcb: Tcb) returns (lockfree: seq<Info>)
      modifies this`packetList
      ensures packetList == Select(old(packetList), tcb, false) && lockfree == Select(old(packetList), tcb, true)
    {
      lockfree := [];
      ghost var done, kept, rest := [], [], packetList;
      var i := 0;
      while i < |packetList|
        invariant i == |kept| && packetList == kept + rest && done + rest == old(packetList)
        invariant kept == Select(done, tcb, false) && lockfree == Select(done, tcb, true)
        decreases |rest|
      {
        var info := packetList[i];
        RemoveBehind(packetList, kept, rest);
        RemoveBehind(old(packetList), done, rest);
        SelectOne(done, info, tcb, false);
        SelectOne(done, info, tcb, true);
        if info.tcb != Some(tcb) {
          i := i + 1;
          kept := kept + [info];
        } else {
          packetList := packetList[..i] + packetList[i + 1..];
          lockfree := lockfree + [info];
        }
        done, rest := done + [info], rest[1..];
      }
      assert done == old(packetList) && kept == packetList;
    }

    /** `service_thread_main` with a packet taken out, for one event byte. */
    method FlushPacket(tcb: Tcb, lockfree: seq<Info>) returns (rest: seq<Info>)
      requires server == Collected(tcb, lockfree) && lockfree != [] && evtPipe > 0
      modifies this`evtPipe, this`calls, this`server
      ensures Apply(old(View()), FlushOne) == Some(View()) && server == Collected(tcb, rest)
    {
      evtPipe := evtPipe - 1;
      calls := calls + [Serve(lockfree[0])];
      rest := lockfree[1..];
      server := Collected(tcb, rest);
    }

    /** `service_thread_main` with the end of a client. */
    method NotifyEnd(tcb: Tcb)
      requires server == Collected(tcb, [])
      modifies this`calls, this`server
      ensures Apply(old(View()), Notify) == Some(View()) && server == Destroying(tcb)
    {
      calls := calls + [Close(tcb)];
      server := Destroying(tcb);
    }

    /** `tcb_destroy`. */
    method DestroyTcb(tcb: Tcb)
      requires server == Destroying(tcb)
      modifies this`threads, this`server
      ensures Apply(old(View()), Destroy) == Some(View())
    {
      threads := threads[tcb := Destroyed];
      server := Selecting;
    }

    // -------------------------------------------------------------- all threads together

    /** The statement `a` of whichever thread it belongs to. */
    method Take(a: Step)
      requires Apply(View(), a).Some?
      modifies this
      ensures Apply(old(View()), a) == Some(View())
    {
      match a {
        case Append(t, p) => AppendPacket(t, p);
        case Signal(t) => WriteEvent(t);
        case Detach(t) => ResetPointers(t);
        case SignalEnd(t) => WriteTcb(t);
        case Join(t) => NewThread(t, Outside);
        case Connect(t) => NewThread(t, Receiving);
        case ReadByte => ReadEvent();
        case Pop => var info := PopPacket();
        case Handle => HandlePacket(server.info);
        case ReadTcb => var tcb, lockfree := CollectTcb();
        case FlushOne => var rest := FlushPacket(server.tcb, server.infos);
        case Notify => NotifyEnd(server.tcb);
        case Destroy => DestroyTcb(server.tcb);
      }
    }

    /** The threads run, interleaved as `steps` tells. The invariant holds throughout, and
        the branch that serves packets of an ended client is never entered. */
    method Interleaved(steps: seq<Step>)
      requires View() == START && Run(steps).Some?
      modifies this
      ensures Run(steps) == Some(View()) && Inv(View())
      ensures FlushOne !in steps
    {
      var i := 0;
      while i < |steps|
        invariant 0 <= i <= |steps| && Run(steps[..i]) == Some(View())
        invariant FlushOne !in steps[..i]
      {
        TakeNext(steps, i);
        assert steps[..i + 1] == steps[..i] + [steps[i]];
        i := i + 1;
      }
      assert steps[..i] == steps;
      RunKeepsInv(steps);
    }

    method TakeNext(steps: seq<Step>, i: nat)
      requires Run(steps).Some? && i < |steps| && Run(steps[..i]) == Some(View())
      modifies this
      ensures Run(steps[..i + 1]) == Some(View()) && steps[i] != FlushOne
    {
      RunNext(steps, i);
      NothingToFlush(steps[..i]);
      Take(steps[i]);
    }
  }

  /** A run can be cut anywhere. */
  lemma {:induction false} RunNext(steps: seq<Step>, i: nat)
    requires Run(steps).Some? && i < |steps|
    ensures Run(steps[..i]).Some? && Run(steps[..i + 1]) == Apply(Run(steps[..i]).value, steps[i])
    ensures Run(steps[..i + 1]).Some?
    decreases |steps|
  {
    var before := steps[..|steps| - 1];
    if i == |before| {
      assert steps[..i + 1] == steps;
    } else {
      RunNext(before, i);
      assert before[..i] == steps[..i] && before[..i + 1] == steps[..i + 1];
    }
  }
}
