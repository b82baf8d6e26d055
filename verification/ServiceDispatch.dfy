/** `service_common.c`: one thread for each client queues packets, the server thread
    dispatches them and collects the threads that have ended.

    Each constructor of `Step` is one atomic statement of one of the threads; a run is any
    interleaving. Client threads end on their own. */
module ServiceDispatch {
  import opened Options
  import opened Sequences

  type Tcb = nat
  type Packet = nat

  /** `struct packet_info`. `owner` is the client it came from, also after `tcb` is reset,
      or the thread of the daemon that posted it without a TCB. */
  datatype Info = Info(tcb: Option<Tcb>, owner: Tcb, packet: Packet)

  /** One call of `service_thread_main`: for a packet, or for the end of `tcb`. */
  datatype Call = Serve(info: Info) | Close(tcb: Tcb)

  /** Where a client thread is: receiving, between the append to the packet list and the
      write of the event byte, past the loop with its pointers reset, ended, or collected.
      Another thread of the daemon is outside or inside
      `service_common_send_packet_to_service`. */
  datatype Thread = Receiving | Appended | Ending | Ended | Destroyed | Outside | Posting

  /** Where the server thread is: in `select`, between the read of an event byte and the pop,
      in the handler of a packet, with an ended thread whose packets it has collected, or
      about to destroy it. */
  datatype Server = Selecting | GotByte | Handling(info: Info) | Collected(tcb: Tcb, infos: seq<Info>)
    | Destroying(tcb: Tcb)

  datatype Service = Service(
    packets: seq<Info>, evtPipe: nat, tcbPipe: seq<Tcb>,
    threads: map<Tcb, Thread>, server: Server,
    calls: seq<Call>, received: map<Tcb, seq<Packet>>)

  datatype Step =
    | Append(t: Tcb, p: Packet) | Signal(t: Tcb) | Detach(t: Tcb) | SignalEnd(t: Tcb)   // client threads
    | Join(t: Tcb)                                                                     // other threads
    | Connect(t: Tcb) | ReadByte | Pop | Handle                                       // server thread
    | ReadTcb | FlushOne | Notify | Destroy

  /** The server thread's work on what is queued. Accepting a connection (`Connect`) is not. */
  predicate ServerStep(a: Step) {
    a.ReadByte? || a.Pop? || a.Handle? || a.ReadTcb? || a.FlushOne? || a.Notify? || a.Destroy?
  }

  const START := Service([], 0, [], map[], Selecting, [], map[])

  function Detached(infos: seq<Info>, t: Tcb): (r: seq<Info>)
    ensures |r| == |infos|
    ensures forall i :: 0 <= i < |infos| ==>
              r[i] == if infos[i].tcb == Some(t) then infos[i].(tcb := None) else infos[i]
  {
    seq(|infos|, i requires 0 <= i < |infos| => if infos[i].tcb == Some(t) then infos[i].(tcb := None) else infos[i])
  }

  /** The entries that refer to `t`, or those that do not. */
  function Select(infos: seq<Info>, t: Tcb, referring: bool): seq<Info> {
    if infos == [] then []
    else (if infos[0].tcb == Some(t) <==> referring then [infos[0]] else []) + Select(infos[1..], t, referring)
  }

  lemma {:induction false} SelectNone(infos: seq<Info>, t: Tcb)
    requires forall e :: e in infos ==> e.tcb != Some(t)
    ensures Select(infos, t, true) == [] && Select(infos, t, false) == infos
  {
    if infos != [] {
      assert infos[0] in infos && forall e :: e in infos[1..] ==> e in infos;
      SelectNone(infos[1..], t);
    }
  }

  predicate Is(s: Service, t: Tcb, p: Thread) {
    t in s.threads && s.threads[t] == p
  }

  function Apply(s: Service, a: Step): Option<Service> {
    match a
    case Append(t, p) =>
      if (Is(s, t, Receiving) || Is(s, t, Outside)) && t in s.received then
        var mine := s.threads[t] == Receiving;
        Some(s.(packets := s.packets + [Info(if mine then Some(t) else None, t, p)],
                received := s.received[t := s.received[t] + [p]],
                threads := s.threads[t := if mine then Appended else Posting]))
      else None
    case Signal(t) =>
      if Is(s, t, Appended) || Is(s, t, Posting) then
        Some(s.(evtPipe := s.evtPipe + 1,
                threads := s.threads[t := if s.threads[t] == Appended then Receiving else Outside]))
      else None
    case Detach(t) =>
      if Is(s, t, Receiving) then Some(s.(packets := Detached(s.packets, t), threads := s.threads[t := Ending]))
      else None
    case SignalEnd(t) =>
      if Is(s, t, Ending) then Some(s.(tcbPipe := s.tcbPipe + [t], threads := s.threads[t := Ended])) else None
    case Join(t) =>
      if t !in s.threads then
        Some(s.(threads := s.threads[t := Outside], received := s.received[t := []]))
      else None
    case Connect(t) =>
      if s.server == Selecting && t !in s.threads then
        Some(s.(threads := s.threads[t := Receiving], received := s.received[t := []]))
      else None
    case ReadByte =>
      if s.server == Selecting && s.evtPipe > 0 then Some(s.(evtPipe := s.evtPipe - 1, server := GotByte)) else None
    case Pop =>
      if s.server != GotByte then None
      else if s.packets == [] then Some(s.(server := Selecting))
      else Some(s.(server := Handling(s.packets[0]), packets := s.packets[1..]))
    case Handle =>
      if s.server.Handling? then Some(s.(server := Selecting, calls := s.calls + [Serve(s.server.info)])) else None
    case ReadTcb =>
      if s.server == Selecting && s.tcbPipe != [] then
        var t := s.tcbPipe[0];
        Some(s.(tcbPipe := s.tcbPipe[1..], packets := Select(s.packets, t, false),
                server := Collected(t, Select(s.packets, t, true))))
      else None
    case FlushOne =>
      if s.server.Collected? && s.server.infos != [] && s.evtPipe > 0 then
        Some(s.(evtPipe := s.evtPipe - 1, calls := s.calls + [Serve(s.server.infos[0])],
                server := Collected(s.server.tcb, s.server.infos[1..])))
      else None
    case Notify =>
      if s.server.Collected? && s.server.infos == [] then
        Some(s.(calls := s.calls + [Close(s.server.tcb)], server := Destroying(s.server.tcb)))
      else None
    case Destroy =>
      if s.server.Destroying? then
        Some(s.(threads := s.threads[s.server.tcb := Destroyed], server := Selecting))
      else None
  }

  function Run(steps: seq<Step>): Option<Service>
    decreases |steps|
  {
    if steps == [] then Some(START)
    else match Run(steps[..|steps| - 1])
    case None => None
    case Some(s) => Apply(s, steps[|steps| - 1])
  }

  // ---------------------------------------------------------------- the invariant

  predicate Running(s: Service, t: Tcb) {
    Is(s, t, Receiving) || Is(s, t, Appended)
  }

  predicate Live(s: Service, t: Tcb) {
    t in s.threads && s.threads[t] != Destroyed
  }

  ghost predicate NoDup(ts: seq<Tcb>) {
    forall i, j :: 0 <= i < j < |ts| ==> ts[i] != ts[j]
  }

  /** The server is about to destroy `t`. */
  predicate Collecting(s: Service, t: Tcb) {
    (s.server.Collected? || s.server.Destroying?) && s.server.tcb == t
  }

  /** The pipe names ended threads, each once, and never the one being collected; and an
      ended thread is there or there. */
  ghost predicate ThreadsOk(s: Service) {
    && s.received.Keys == s.threads.Keys
    && NoDup(s.tcbPipe)
    && (forall t :: t in s.tcbPipe ==> Is(s, t, Ended))
    && (forall t :: Is(s, t, Ended) ==> t in s.tcbPipe || Collecting(s, t))
    && (s.server.Collected? ==> s.server.infos == [])
    && (s.server.Collected? || s.server.Destroying? ==> Is(s, s.server.tcb, Ended) && s.server.tcb !in s.tcbPipe)
  }

  /** A queued packet refers to its own client as long as that runs, and to nothing later. */
  predicate PointerOk(s: Service, e: Info) {
    e.owner in s.threads && e.tcb == if Running(s, e.owner) then Some(e.owner) else None
  }

  /** A packet in the handler does so too, but may still refer to a client that has ended
      meanwhile. */
  predicate HandedOk(s: Service, e: Info) {
    && e.owner in s.threads
    && (e.tcb == None || (e.tcb == Some(e.owner) && Live(s, e.owner) && !FromOutside(s, e.owner)))
    && (Running(s, e.owner) ==> e.tcb == Some(e.owner))
  }

  /** A thread of the daemon that is no client's. */
  predicate FromOutside(s: Service, t: Tcb) {
    Is(s, t, Outside) || Is(s, t, Posting)
  }

  ghost predicate PointersOk(s: Service) {
    && (forall e :: e in s.packets ==> PointerOk(s, e))
    && (s.server.Handling? ==> HandedOk(s, s.server.info))
    && (forall c :: c in s.calls && c.Serve? ==> c.info.owner in s.threads)
  }

  /** A packet of `t` is in the list, its event byte not in the pipe. */
  predicate Owes(threads: map<Tcb, Thread>, t: Tcb) {
    t in threads && (threads[t] == Appended || threads[t] == Posting)
  }

  ghost function Debtors(threads: map<Tcb, Thread>): set<Tcb> {
    set t | t in threads && Owes(threads, t)
  }

  /** One event byte for each packet, but for the threads about to write theirs and the
      server about to take a packet. */
  ghost predicate CountOk(s: Service) {
    |s.packets| == s.evtPipe + |Debtors(s.threads)| + if s.server == GotByte then 1 else 0
  }

  function OwnedBy(infos: seq<Info>, t: Tcb): seq<Packet> {
    if infos == [] then []
    else (if infos[0].owner == t then [infos[0].packet] else []) + OwnedBy(infos[1..], t)
  }

  /** The packets of `t` dispatched so far. */
  function Dispatched(calls: seq<Call>, t: Tcb): seq<Packet> {
    if calls == [] then []
    else
      var last := calls[|calls| - 1];
      Dispatched(calls[..|calls| - 1], t) + if last.Serve? && last.info.owner == t then [last.info.packet] else []
  }

  function InHand(s: Service, t: Tcb): seq<Packet> {
    if s.server.Handling? && s.server.info.owner == t then [s.server.info.packet] else []
  }

  /** Per client: dispatched, then in the handler, then queued, is what was received. */
  predicate Conserved(s: Service, t: Tcb)
    requires t in s.received
  {
    Dispatched(s.calls, t) + InHand(s, t) + OwnedBy(s.packets, t) == s.received[t]
  }

  ghost predicate Inv(s: Service) {
    && ThreadsOk(s) && PointersOk(s) && CountOk(s)
    && forall t :: t in s.received ==> Conserved(s, t)
  }

  // ---------------------------------------------------------------- it is inductive

  lemma DebtorsChange(threads: map<Tcb, Thread>, t: Tcb, p: Thread)
    ensures |Debtors(threads[t := p])|
            == |Debtors(threads)| + (if p == Appended || p == Posting then 1 else 0)
               - (if Owes(threads, t) then 1 else 0)
  {
    var before, after := Debtors(threads), Debtors(threads[t := p]);
    forall u ensures u in after <==> if u == t then p == Appended || p == Posting else u in before {
    }
    if p == Appended || p == Posting {
      assert after == before + {t};
    } else {
      assert after == before - {t};
    }
  }

  /** The counting, for every step. */
  lemma StepKeepsCount(s: Service, a: Step)
    requires CountOk(s) && ThreadsOk(s) && PointersOk(s) && Apply(s, a).Some?
    ensures CountOk(Apply(s, a).value)
  {
    var r := Apply(s, a).value;
    if a.Destroy? {
      DebtorsChange(s.threads, s.server.tcb, Destroyed);
    } else if !ServerStep(a) {
      DebtorsChange(s.threads, a.t, r.threads[a.t]);
    } else {
      assert r.threads == s.threads;
      if a.ReadTcb? {
        CollectsNothing(s);
      }
    }
  }

  /** No queued packet refers to a thread that has ended: there is nothing to collect. */
  lemma CollectsNothing(s: Service)
    requires ThreadsOk(s) && PointersOk(s) && s.tcbPipe != []
    ensures Select(s.packets, s.tcbPipe[0], true) == [] && Select(s.packets, s.tcbPipe[0], false) == s.packets
  {
    assert s.tcbPipe[0] in s.tcbPipe;
    assert forall e :: e in s.packets ==> PointerOk(s, e);
    SelectNone(s.packets, s.tcbPipe[0]);
  }

  lemma StepKeepsThreads(s: Service, a: Step)
    requires ThreadsOk(s) && PointersOk(s) && Apply(s, a).Some?
    ensures ThreadsOk(Apply(s, a).value)
  {
    if a.ReadTcb? {
      ReadTcbKeepsThreads(s);
    } else if a.SignalEnd? {
      SignalEndKeepsThreads(s, a.t);
    } else if ServerStep(a) {
      ServerStepKeepsThreads(s, a);
    } else {
      ClientStepKeepsThreads(s, a);
    }
  }

  lemma ClientStepKeepsThreads(s: Service, a: Step)
    requires ThreadsOk(s) && Apply(s, a).Some? && !ServerStep(a) && !a.SignalEnd?
    ensures ThreadsOk(Apply(s, a).value)
  {
    var r := Apply(s, a).value;
    assert r.tcbPipe == s.tcbPipe && r.server == s.server;
    forall t ensures Is(r, t, Ended) <==> Is(s, t, Ended) {
    }
    assert forall t :: Collecting(s, t) <==> Collecting(r, t);
  }

  lemma SignalEndKeepsThreads(s: Service, t: Tcb)
    requires ThreadsOk(s) && Apply(s, SignalEnd(t)).Some?
    ensures ThreadsOk(Apply(s, SignalEnd(t)).value)
  {
    var r := Apply(s, SignalEnd(t)).value;
    assert t !in s.tcbPipe && r.tcbPipe == s.tcbPipe + [t];
    forall u ensures Is(r, u, Ended) <==> Is(s, u, Ended) || u == t {
    }
    forall u ensures u in r.tcbPipe <==> u in s.tcbPipe || u == t {
      assert r.tcbPipe[|s.tcbPipe|] == t;
    }
    assert forall u :: Collecting(s, u) <==> Collecting(r, u);
  }

  lemma ReadTcbKeepsThreads(s: Service)
    requires ThreadsOk(s) && PointersOk(s) && Apply(s, ReadTcb).Some?
    ensures ThreadsOk(Apply(s, ReadTcb).value)
  {
    var r := Apply(s, ReadTcb).value;
    CollectsNothing(s);
    var t := s.tcbPipe[0];
    assert t in s.tcbPipe && s.tcbPipe == [t] + r.tcbPipe;
    forall u ensures u in s.tcbPipe <==> u == t || u in r.tcbPipe {
    }
  }

  lemma ServerStepKeepsThreads(s: Service, a: Step)
    requires ThreadsOk(s) && Apply(s, a).Some? && ServerStep(a) && !a.ReadTcb?
    ensures ThreadsOk(Apply(s, a).value)
  {
    var r := Apply(s, a).value;
    assert r.tcbPipe == s.tcbPipe;
    if a.Destroy? {
      assert forall t :: Is(r, t, Ended) <==> Is(s, t, Ended) && t != s.server.tcb;
    } else {
      assert r.threads == s.threads;
      assert forall t :: Collecting(s, t) ==> Collecting(r, t);
    }
  }

  lemma StepKeepsPointers(s: Service, a: Step)
    requires ThreadsOk(s) && PointersOk(s) && Apply(s, a).Some?
    ensures PointersOk(Apply(s, a).value)
  {
    if ServerStep(a) {
      ServerStepKeepsPointers(s, a);
    } else if a.Append? {
      AppendKeepsPointers(s, a.t, a.p);
    } else if a.Detach? {
      DetachKeepsPointers(s, a.t);
    } else {
      var r := Apply(s, a).value;
      assert r.packets == s.packets && r.calls == s.calls;
      forall e | e in r.packets ensures PointerOk(r, e) {
        assert PointerOk(s, e);
      }
    }
  }

  lemma AppendKeepsPointers(s: Service, t: Tcb, p: Packet)
    requires PointersOk(s) && Apply(s, Append(t, p)).Some?
    ensures PointersOk(Apply(s, Append(t, p)).value)
  {
    var r := Apply(s, Append(t, p)).value;
    forall e | e in r.packets ensures PointerOk(r, e) {
      assert e in s.packets ==> PointerOk(s, e);
    }
  }

  lemma DetachKeepsPointers(s: Service, t: Tcb)
    requires PointersOk(s) && Apply(s, Detach(t)).Some?
    ensures PointersOk(Apply(s, Detach(t)).value)
  {
    var r := Apply(s, Detach(t)).value;
    forall i | 0 <= i < |r.packets| ensures PointerOk(r, r.packets[i]) {
      assert PointerOk(s, s.packets[i]);
    }
  }

  lemma ServerStepKeepsQueued(s: Service, a: Step)
    requires ThreadsOk(s) && PointersOk(s) && Apply(s, a).Some? && ServerStep(a)
    ensures forall e :: e in Apply(s, a).value.packets ==> e in s.packets && PointerOk(Apply(s, a).value, e)
  {
    var r := Apply(s, a).value;
    if a.ReadTcb? {
      CollectsNothing(s);
    }
    forall e | e in r.packets ensures e in s.packets && PointerOk(r, e) {
      assert PointerOk(s, e);
    }
  }

  lemma ServerStepKeepsPointers(s: Service, a: Step)
    requires ThreadsOk(s) && PointersOk(s) && Apply(s, a).Some? && ServerStep(a)
    ensures PointersOk(Apply(s, a).value)
  {
    var r := Apply(s, a).value;
    ServerStepKeepsQueued(s, a);
    if a.Pop? && s.packets != [] {
      assert PointerOk(s, s.packets[0]);
    }
    assert forall c :: c in r.calls ==> c in s.calls || !c.Serve? || a.Handle?;
  }

  lemma {:induction false} OwnedAppend(infos: seq<Info>, e: Info, t: Tcb)
    ensures OwnedBy(infos + [e], t) == OwnedBy(infos, t) + if e.owner == t then [e.packet] else []
  {
    if infos == [] {
      assert infos + [e] == [e] && [e][1..] == [];
    } else {
      assert (infos + [e])[0] == infos[0] && (infos + [e])[1..] == infos[1..] + [e];
      OwnedAppend(infos[1..], e, t);
      Associative(if infos[0].owner == t then [infos[0].packet] else [], OwnedBy(infos[1..], t),
                  if e.owner == t then [e.packet] else []);
    }
  }

  lemma {:induction false} OwnedDetached(infos: seq<Info>, t: Tcb, u: Tcb)
    ensures OwnedBy(Detached(infos, u), t) == OwnedBy(infos, t)
  {
    if infos != [] {
      assert Detached(infos, u)[1..] == Detached(infos[1..], u);
      OwnedDetached(infos[1..], t, u);
    }
  }

  lemma {:induction false} NothingOwned(infos: seq<Info>, t: Tcb)
    requires forall e :: e in infos ==> e.owner != t
    ensures OwnedBy(infos, t) == []
  {
    if infos != [] {
      assert infos[0] in infos && forall e :: e in infos[1..] ==> e in infos;
      NothingOwned(infos[1..], t);
    }
  }

  lemma DispatchedAppend(calls: seq<Call>, c: Call, t: Tcb)
    ensures Dispatched(calls + [c], t)
            == Dispatched(calls, t) + if c.Serve? && c.info.owner == t then [c.info.packet] else []
  {
    assert (calls + [c])[..|calls|] == calls;
  }

  lemma {:induction false} NothingDispatched(calls: seq<Call>, t: Tcb)
    requires forall c :: c in calls && c.Serve? ==> c.info.owner != t
    ensures Dispatched(calls, t) == []
  {
    if calls != [] {
      assert calls[|calls| - 1] in calls;
      NothingDispatched(calls[..|calls| - 1], t);
    }
  }

  lemma ConservedByNew(s: Service, a: Step, u: Tcb)
    requires Inv(s) && Apply(s, a).Some? && u in Apply(s, a).value.received
    requires a.Connect? || a.Join?
    ensures Conserved(Apply(s, a).value, u)
  {
    if u == a.t {
      assert forall e :: e in s.packets ==> PointerOk(s, e);
      NothingOwned(s.packets, u);
      NothingDispatched(s.calls, u);
    } else {
      assert Conserved(s, u);
    }
  }

  lemma ConservedByClients(s: Service, a: Step, u: Tcb)
    requires Inv(s) && Apply(s, a).Some? && u in Apply(s, a).value.received
    requires !ServerStep(a)
    ensures Conserved(Apply(s, a).value, u)
  {
    match a {
      case Append(t, p) =>
        OwnedAppend(s.packets, Info(if s.threads[t] == Receiving then Some(t) else None, t, p), u);
        Associative(Dispatched(s.calls, u) + InHand(s, u), OwnedBy(s.packets, u), if u == t then [p] else []);
        assert Conserved(s, u);
        assert s.received[u] + [] == s.received[u];
      case Detach(t) =>
        OwnedDetached(s.packets, u, t);
        assert Conserved(s, u);
      case Connect(t) => ConservedByNew(s, a, u);
      case Join(t) => ConservedByNew(s, a, u);
      case Signal(_) => assert Conserved(s, u);
      case SignalEnd(_) => assert Conserved(s, u);
    }
  }

  lemma Regroup(d: seq<Packet>, i: seq<Packet>, o: seq<Packet>)
    ensures (d + i) + [] + o == d + i + o
    ensures d + [] + (i + o) == d + i + o
  {
  }

  lemma ConservedByHandle(s: Service, u: Tcb)
    requires u in s.received && Conserved(s, u) && Apply(s, Handle).Some?
    ensures Conserved(Apply(s, Handle).value, u)
  {
    DispatchedAppend(s.calls, Serve(s.server.info), u);
    Regroup(Dispatched(s.calls, u), InHand(s, u), OwnedBy(s.packets, u));
  }

  lemma ConservedByPop(s: Service, u: Tcb)
    requires u in s.received && Conserved(s, u) && Apply(s, Pop).Some?
    ensures Conserved(Apply(s, Pop).value, u)
  {
    if s.packets != [] {
      var r := Apply(s, Pop).value;
      Regroup(Dispatched(s.calls, u), InHand(r, u), OwnedBy(r.packets, u));
      assert OwnedBy(s.packets, u) == InHand(r, u) + OwnedBy(r.packets, u);
    }
  }

  /** The end of a thread is no dispatch of a packet. */
  lemma ConservedByNotify(s: Service, u: Tcb)
    requires u in s.received && Conserved(s, u) && Apply(s, Notify).Some?
    ensures Conserved(Apply(s, Notify).value, u)
  {
    DispatchedAppend(s.calls, Close(s.server.tcb), u);
    assert Dispatched(s.calls, u) + [] == Dispatched(s.calls, u);
  }

  lemma ConservedByReadTcb(s: Service, u: Tcb)
    requires ThreadsOk(s) && PointersOk(s) && u in s.received && Conserved(s, u) && Apply(s, ReadTcb).Some?
    ensures Conserved(Apply(s, ReadTcb).value, u)
  {
    CollectsNothing(s);
  }

  lemma ConservedByServer(s: Service, a: Step, u: Tcb)
    requires Inv(s) && Apply(s, a).Some? && u in s.received
    requires ServerStep(a)
    ensures Conserved(Apply(s, a).value, u)
  {
    assert Conserved(s, u);
    match a {
      case Handle => ConservedByHandle(s, u);
      case Pop => ConservedByPop(s, u);
      case ReadTcb => ConservedByReadTcb(s, u);
      case Notify => ConservedByNotify(s, u);
      case ReadByte =>
      case Destroy =>
    }
  }

  lemma StepKeepsInv(s: Service, a: Step)
    requires Inv(s) && Apply(s, a).Some?
    ensures Inv(Apply(s, a).value)
  {
    var r := Apply(s, a).value;
    StepKeepsThreads(s, a);
    StepKeepsPointers(s, a);
    StepKeepsCount(s, a);
    forall t | t in r.received ensures Conserved(r, t) {
      if !ServerStep(a) {
        ConservedByClients(s, a, t);
      } else {
        ConservedByServer(s, a, t);
      }
    }
  }

  lemma {:induction false} RunKeepsInv(steps: seq<Step>)
    requires Run(steps).Some?
    ensures Inv(Run(steps).value)
    decreases |steps|
  {
    if steps != [] {
      var before := steps[..|steps| - 1];
      RunKeepsInv(before);
      StepKeepsInv(Run(before).value, steps[|steps| - 1]);
    } else {
      assert Debtors(START.threads) == {};
    }
  }

  // ---------------------------------------------------------------- what it means

  /** An event byte read always finds a queued packet. */
  lemma ByteFindsPacket(steps: seq<Step>)
    requires Run(steps).Some? && Run(steps).value.server == GotByte
    ensures Run(steps).value.packets != []
  {
    RunKeepsInv(steps);
  }

  /** No packet waits without an event byte there or about to be written. */
  lemma PacketHasByte(steps: seq<Step>)
    requires Run(steps).Some? && Run(steps).value.packets != [] && Run(steps).value.server != GotByte
    ensures var s := Run(steps).value; s.evtPipe > 0 || exists t :: Owes(s.threads, t)
  {
    RunKeepsInv(steps);
    var s := Run(steps).value;
    if s.evtPipe == 0 {
      assert Debtors(s.threads) != {};
      var t :| t in Debtors(s.threads);
      assert Owes(s.threads, t);
    }
  }

  /** The handler is given the TCB of the client the packet came from, which exists, unless
      that client has detached or the packet was posted from outside: then it is given NULL. */
  lemma HandlerGetsLiveTcb(steps: seq<Step>)
    requires Run(steps).Some? && Run(steps).value.server.Handling?
    ensures var s := Run(steps).value; var info := s.server.info;
            && (info.tcb == None || (info.tcb == Some(info.owner) && Live(s, info.owner)))
            && (Running(s, info.owner) ==> info.tcb == Some(info.owner))
            && (FromOutside(s, info.owner) ==> info.tcb == None)
  {
    RunKeepsInv(steps);
  }

  /** When a packet is taken for the handler: its client's TCB if that still runs, and else
      NULL. */
  lemma PoppedTcb(steps: seq<Step>)
    requires Run(steps).Some? && Run(steps).value.server == GotByte
    ensures var s, r := Run(steps).value, Run(steps + [Pop]);
            && r.Some? && r.value.server.Handling?
            && var info := r.value.server.info;
               info.tcb == if Running(s, info.owner) then Some(info.owner) else None
  {
    RunKeepsInv(steps);
    ByteFindsPacket(steps);
    var s := Run(steps).value;
    assert (steps + [Pop])[..|steps|] == steps;
    assert PointerOk(s, s.packets[0]);
  }

  /** Each packet received is dispatched once, in the order of its client: what has been
      dispatched, what is in the handler and what is queued make up what was received. */
  lemma DispatchedInOrder(steps: seq<Step>, t: Tcb)
    requires Run(steps).Some? && t in Run(steps).value.received
    ensures var s := Run(steps).value;
            && Dispatched(s.calls, t) + InHand(s, t) + OwnedBy(s.packets, t) == s.received[t]
            && Dispatched(s.calls, t) <= s.received[t]
            && (s.packets == [] && s.server == Selecting ==> Dispatched(s.calls, t) == s.received[t])
  {
    RunKeepsInv(steps);
    var s := Run(steps).value;
    assert Conserved(s, t);
    if s.packets == [] && s.server == Selecting {
      assert Dispatched(s.calls, t) + [] + [] == Dispatched(s.calls, t);
    }
  }

  /** The packets thread `t` has posted. */
  function Posted(steps: seq<Step>, t: Tcb): seq<Packet> {
    if steps == [] then []
    else
      var last := steps[|steps| - 1];
      Posted(steps[..|steps| - 1], t) + if last.Append? && last.t == t then [last.p] else []
  }

  lemma StepPosts(s: Service, a: Step, t: Tcb)
    requires ThreadsOk(s) && Apply(s, a).Some? && (t in s.received <==> t in s.threads)
    ensures var r, posts := Apply(s, a).value, a.Append? && a.t == t;
            && (t in r.received <==> t in r.threads) && (posts ==> t in s.received)
            && (t in s.received ==>
                  t in r.received && r.received[t] == s.received[t] + if posts then [a.p] else [])
            && (t !in s.received && t in r.received ==> r.received[t] == [])
  {
  }

  /** They are what counts as received, and only threads that are known post. */
  lemma {:induction false} ReceivedIsPosted(steps: seq<Step>, t: Tcb)
    requires Run(steps).Some?
    ensures var s := Run(steps).value;
            && (t in s.received <==> t in s.threads)
            && if t in s.received then s.received[t] == Posted(steps, t) else Posted(steps, t) == []
    decreases |steps|
  {
    if steps != [] {
      var n := |steps| - 1;
      ReceivedIsPosted(steps[..n], t);
      RunKeepsInv(steps[..n]);
      StepPosts(Run(steps[..n]).value, steps[n], t);
    }
  }

  /** The packets collected for an ended thread are always none: its own thread has reset
      the pointers before. */
  lemma NothingToFlush(steps: seq<Step>)
    requires Run(steps).Some?
    ensures var s := Run(steps).value;
            && (s.server.Collected? ==> s.server.infos == [])
            && Apply(s, FlushOne) == None
  {
    RunKeepsInv(steps);
  }

  /** While a TCB is announced as ended and then destroyed, no queued packet refers to it. */
  lemma DestroysUnreferenced(steps: seq<Step>)
    requires Run(steps).Some? && (Run(steps).value.server.Collected? || Run(steps).value.server.Destroying?)
    ensures var s := Run(steps).value;
            Live(s, s.server.tcb) && forall e :: e in s.packets ==> e.tcb != Some(s.server.tcb)
  {
    RunKeepsInv(steps);
    var s := Run(steps).value;
    assert forall e :: e in s.packets ==> PointerOk(s, e);
  }

  lemma DestroyedStays(s: Service, a: Step, t: Tcb)
    requires ThreadsOk(s) && Is(s, t, Destroyed) && Apply(s, a).Some?
    ensures Is(Apply(s, a).value, t, Destroyed)
  {
  }

  /** A destroyed TCB never exists again. */
  lemma {:induction false} DestroyedForGood(steps: seq<Step>, n: nat, t: Tcb)
    requires n <= |steps| && Run(steps[..n]).Some? && Run(steps).Some?
    requires Is(Run(steps[..n]).value, t, Destroyed)
    ensures Is(Run(steps).value, t, Destroyed)
    decreases |steps|
  {
    if n == |steps| {
      assert steps[..n] == steps;
    } else {
      var before := steps[..|steps| - 1];
      assert before[..n] == steps[..n];
      DestroyedForGood(before, n, t);
      RunKeepsInv(before);
      DestroyedStays(Run(before).value, steps[|steps| - 1], t);
    }
  }

  /** Step number `n` of a run destroys `t`. */
  ghost predicate Destroys(steps: seq<Step>, n: nat, t: Tcb) {
    && n < |steps| && steps[n].Destroy? && Run(steps[..n]).Some? && Run(steps[..n + 1]).Some?
    && Run(steps[..n]).value.server == Destroying(t)
  }

  lemma NotDestroyedAgain(steps: seq<Step>, i: nat, j: nat, t: Tcb)
    requires Destroys(steps, i, t) && i < j < |steps|
    ensures !Destroys(steps, j, t)
  {
    if Run(steps[..j]).Some? {
      var first := steps[..i + 1];
      assert first[..|first| - 1] == steps[..i] && first[|first| - 1] == steps[i];
      assert steps[..j][..i + 1] == first;
      DestroyedForGood(steps[..j], i + 1, t);
      RunKeepsInv(steps[..j]);
    }
  }

  /** Each TCB is destroyed at most once: no two steps of a run destroy the same one. */
  lemma DestroyedOnce(steps: seq<Step>, i: nat, j: nat, t: Tcb)
    requires Destroys(steps, i, t) && Destroys(steps, j, t)
    ensures i == j
  {
    if i < j {
      NotDestroyedAgain(steps, i, j, t);
    } else if j < i {
      NotDestroyedAgain(steps, j, i, t);
    }
  }

  // ---------------------------------------------------------------- the end of a client

  /** How often the handler has been told of the end of `t`. */
  function Closings(calls: seq<Call>, t: Tcb): nat {
    if calls == [] then 0
    else Closings(calls[..|calls| - 1], t) + if calls[|calls| - 1] == Close(t) then 1 else 0
  }

  /** It is told just before the client is destroyed, once, and is not given its TCB again. */
  ghost predicate ClosesOk(s: Service) {
    && (forall t :: Closings(s.calls, t) == if Is(s, t, Destroyed) || s.server == Destroying(t) then 1 else 0)
    && forall i, j :: 0 <= i < j < |s.calls| && s.calls[i].Close? && s.calls[j].Serve? ==>
         s.calls[j].info.tcb != Some(s.calls[i].tcb)
  }

  lemma ClosingsAppend(calls: seq<Call>, c: Call, t: Tcb)
    ensures Closings(calls + [c], t) == Closings(calls, t) + if c == Close(t) then 1 else 0
  {
    assert (calls + [c])[..|calls|] == calls;
  }

  lemma {:induction false} ClosingFound(calls: seq<Call>, i: nat)
    requires i < |calls| && calls[i].Close?
    ensures Closings(calls, calls[i].tcb) > 0
    decreases |calls|
  {
    if i < |calls| - 1 {
      ClosingFound(calls[..|calls| - 1], i);
    }
  }

  lemma NotifyKeepsCloses(s: Service)
    requires Inv(s) && ClosesOk(s) && Apply(s, Notify).Some?
    ensures ClosesOk(Apply(s, Notify).value)
  {
    var r := Apply(s, Notify).value;
    forall t ensures Closings(r.calls, t) == if Is(r, t, Destroyed) || r.server == Destroying(t) then 1 else 0 {
      ClosingsAppend(s.calls, Close(s.server.tcb), t);
    }
  }

  lemma HandleKeepsCloses(s: Service)
    requires Inv(s) && ClosesOk(s) && Apply(s, Handle).Some?
    ensures ClosesOk(Apply(s, Handle).value)
  {
    var r := Apply(s, Handle).value;
    forall t ensures Closings(r.calls, t) == Closings(s.calls, t) {
      ClosingsAppend(s.calls, Serve(s.server.info), t);
    }
    forall i | 0 <= i < |s.calls| && s.calls[i].Close? ensures s.server.info.tcb != Some(s.calls[i].tcb) {
      ClosingFound(s.calls, i);
    }
  }

  lemma StepKeepsCloses(s: Service, a: Step)
    requires Inv(s) && ClosesOk(s) && Apply(s, a).Some?
    ensures ClosesOk(Apply(s, a).value)
  {
    if a.Notify? {
      NotifyKeepsCloses(s);
    } else if a.Handle? {
      HandleKeepsCloses(s);
    } else {
      OthersKeepCloses(s, a);
    }
  }

  lemma OthersKeepCloses(s: Service, a: Step)
    requires Inv(s) && ClosesOk(s) && Apply(s, a).Some? && !a.Notify? && !a.Handle?
    ensures ClosesOk(Apply(s, a).value)
  {
    var r := Apply(s, a).value;
    if a.ReadTcb? {
      CollectsNothing(s);
    }
    assert r.calls == s.calls;
    forall t ensures Closings(r.calls, t) == if Is(r, t, Destroyed) || r.server == Destroying(t) then 1 else 0 {
      assert Closings(s.calls, t) == if Is(s, t, Destroyed) || s.server == Destroying(t) then 1 else 0;
    }
  }

  /** Over any run the handler is told of the end of each client once, just before that is
      destroyed, and is not given its TCB any more. */
  lemma {:induction false} ClosedOnce(steps: seq<Step>)
    requires Run(steps).Some?
    ensures ClosesOk(Run(steps).value)
    decreases |steps|
  {
    if steps != [] {
      var before := steps[..|steps| - 1];
      RunKeepsInv(before);
      ClosedOnce(before);
      StepKeepsCloses(Run(before).value, steps[|steps| - 1]);
    }
  }

  // ---------------------------------------------------------------- and at least once

  /** The most steps the server can take if nobody else does anything. */
  function Work(s: Service): nat {
    3 * s.evtPipe + 4 * |s.tcbPipe| + match s.server
      case Selecting => 0
      case GotByte => 2
      case Handling(_) => 1
      case Collected(_, _) => 2
      case Destroying(_) => 1
  }

  /** The server blocks in its `select`. */
  ghost predicate Blocked(s: Service) {
    forall a :: ServerStep(a) ==> Apply(s, a) == None
  }

  /** What the steps of the server leave alone. */
  ghost predicate Carries(s: Service, r: Service) {
    && r.received == s.received && Debtors(r.threads) == Debtors(s.threads)
    && forall t :: Is(s, t, Ended) || Is(s, t, Destroyed) ==> Is(r, t, Ended) || Is(r, t, Destroyed)
  }

  lemma ServerStepWorks(s: Service, a: Step)
    requires Inv(s) && ServerStep(a) && Apply(s, a).Some?
    ensures Work(Apply(s, a).value) < Work(s) && Carries(s, Apply(s, a).value)
  {
    var r := Apply(s, a).value;
    assert forall t :: Owes(r.threads, t) <==> Owes(s.threads, t);
  }

  lemma {:induction false} ServerWorks(steps: seq<Step>, more: seq<Step>)
    requires Run(steps).Some? && Run(steps + more).Some? && forall a :: a in more ==> ServerStep(a)
    ensures var s, r := Run(steps).value, Run(steps + more).value; |more| + Work(r) <= Work(s) && Carries(s, r)
    decreases |more|
  {
    if more == [] {
      assert steps + more == steps;
    } else {
      var before, last := more[..|more| - 1], more[|more| - 1];
      var all := steps + more;
      assert all[..|all| - 1] == steps + before && all[|all| - 1] == last;
      ServerWorks(steps, before);
      RunKeepsInv(steps + before);
      ServerStepWorks(Run(steps + before).value, last);
    }
  }

  lemma BlockedSelects(s: Service)
    requires ThreadsOk(s) && Blocked(s)
    ensures s.server == Selecting
  {
    assert s.server.GotByte? ==> Apply(s, Pop).Some?;
    assert s.server.Handling? ==> Apply(s, Handle).Some?;
    assert s.server.Collected? ==> Apply(s, Notify).Some?;
    assert s.server.Destroying? ==> Apply(s, Step.Destroy).Some?;
  }

  lemma BlockedIsIdle(s: Service)
    requires ThreadsOk(s) && Blocked(s)
    ensures s.server == Selecting && s.evtPipe == 0 && s.tcbPipe == []
  {
    BlockedSelects(s);
    assert Apply(s, ReadByte) == None && Apply(s, ReadTcb) == None;
  }

  /** The server left to itself comes to a stop, in whatever order it takes its steps, and
      then every client that had ended is destroyed, and no packet waits but as many as
      threads have still to send a byte for. */
  lemma EverythingIsServed(steps: seq<Step>, more: seq<Step>)
    requires Run(steps).Some? && Run(steps + more).Some? && forall a :: a in more ==> ServerStep(a)
    ensures |more| <= Work(Run(steps).value)
    ensures var s, r := Run(steps).value, Run(steps + more).value;
            Blocked(r) ==>
              && (forall t :: Is(s, t, Ended) ==> Is(r, t, Destroyed))
              && |r.packets| == |Debtors(s.threads)|
              && (Debtors(s.threads) == {} ==> forall t :: t in s.received ==> Dispatched(r.calls, t) == s.received[t])
  {
    ServerWorks(steps, more);
    RunKeepsInv(steps + more);
    var s, r := Run(steps).value, Run(steps + more).value;
    if Blocked(r) {
      BlockedIsIdle(r);
      if Debtors(s.threads) == {} {
        forall t | t in s.received ensures Dispatched(r.calls, t) == s.received[t] {
          DispatchedInOrder(steps + more, t);
        }
      }
    }
  }

  /** As long as it is not blocked it has a step to take, so it gets there. */
  lemma {:induction false} ServerGetsThere(steps: seq<Step>) returns (more: seq<Step>)
    requires Run(steps).Some?
    ensures forall a :: a in more ==> ServerStep(a)
    ensures Run(steps + more).Some? && Blocked(Run(steps + more).value)
    decreases Work(Run(steps).value)
  {
    RunKeepsInv(steps);
    var s := Run(steps).value;
    if Blocked(s) {
      more := [];
      assert steps + [] == steps;
    } else {
      var a :| ServerStep(a) && Apply(s, a) != None;
      var longer := steps + [a];
      assert longer[..|longer| - 1] == steps;
      ServerStepWorks(s, a);
      var rest := ServerGetsThere(longer);
      more := [a] + rest;
      Associative(steps, [a], rest);
    }
  }
}
