/** End to end: packets marshalled by one process, sent as bytes, received through either
    `recv` implementation of the vtable and rebuilt by `service_cb`, come out as they went
    in, in order, with the same fields. */
module EndToEnd {
  import opened Bytes
  import opened Sequences
  import opened Packets
  import opened Reassembly
  import B = PacketBody
  import P = PacketBlock
  import R = ReaderThread
  import W = Wire

  function Frames(sent: seq<Packet>): (frames: seq<bytes>)
    requires forall p :: p in sent ==> p.Valid()
    ensures |frames| == |sent|
    ensures forall i :: 0 <= i < |sent| ==> frames[i] == Frame(sent[i])
  {
    seq(|sent|, i requires 0 <= i < |sent| => Frame(sent[i]))
  }

  /** The bytes on the wire. */
  function Stream(sent: seq<Packet>): bytes
    requires forall p :: p in sent ==> p.Valid()
  {
    Concat(Frames(sent))
  }

  /** Packets the library creates: valid, with the default mask. */
  ghost predicate Sendable(sent: seq<Packet>) {
    forall p :: p in sent ==> p.Valid() && p.head.mask == DEFAULT_MASK
  }

  /** The first packets sent, in order and byte for byte. */
  ghost predicate Arrived(delivered: seq<bytes>, sent: seq<Packet>) {
    |delivered| <= |sent|
    && forall i :: 0 <= i < |delivered| ==> sent[i].Valid() && delivered[i] == Frame(sent[i])
  }

  lemma FramesAreWellFormed(sent: seq<Packet>)
    requires Sendable(sent)
    ensures forall f :: f in Frames(sent) ==> WellFormed(f) && DefaultMask(f)
  {
    forall f | f in Frames(sent) ensures WellFormed(f) && DefaultMask(f) {
      var i :| 0 <= i < |sent| && f == Frame(sent[i]);
      assert sent[i] in sent;
      FrameRoundTrip(sent[i]);
    }
  }

  /** Whatever part of the stream has been received, in whatever pieces, the packets
      delivered are the first ones sent; all of the stream delivers all of them; and the
      receiver always goes on asking for at least one byte. */
  lemma DeliveredIsSent(sent: seq<Packet>, got: bytes, delivered: seq<bytes>, firsts: seq<nat>)
    requires Sendable(sent) && got <= Stream(sent)
    requires |delivered| == |firsts| == |Split(got).frames|
    requires forall i :: 0 <= i < |delivered| ==> delivered[i] == Masked(Split(got).frames[i], firsts[i])
    ensures Arrived(delivered, sent)
    ensures got == Stream(sent) ==> |delivered| == |sent|
    ensures Wanted(Split(got).rest) > 0
  {
    var frames := Frames(sent);
    FramesAreWellFormed(sent);
    SplitOfStream(frames, got);
    forall i | 0 <= i < |delivered|
      ensures sent[i].Valid() && delivered[i] == Frame(sent[i])
    {
      assert Split(got).frames[i] == frames[i] && frames[i] in frames && sent[i] in sent;
      MaskedIsIdentity(frames[i], firsts[i]);
    }
  }

  /** An arrived packet carries the header and the fields it was sent with. */
  lemma FieldsArrive(delivered: seq<bytes>, sent: seq<Packet>, i: nat, fmt: string, args: seq<W.Arg>)
    requires Arrived(delivered, sent) && i < |delivered|
    requires |fmt| == |args| && W.Agree(fmt, args, |args|) && W.Marshalled(args, sent[i].payload, 0)
    ensures |delivered[i]| >= HEADER_SIZE
    ensures Unframe(delivered[i]).head == sent[i].head
    ensures W.Unmarshal(fmt, Unframe(delivered[i]).payload, 0) == W.Reading(W.ReadbackAll(args), W.Done)
  {
    FrameRoundTrip(sent[i]);
    W.RoundTrip(fmt, args, sent[i].payload);
  }

  /** The packet was filled from `args` by `packet_body_filler`, `env` being what the memory
      did. */
  ghost predicate FilledFrom(p: Packet, args: seq<W.Arg>, env: seq<P.growth>) {
    && |env| == |args|
    && var b := B.Body(args, env, |args|);
       b.size <= |b.data| && p.payload == b.data[..b.size]
  }

  /** A packet filled from safe arguments arrives with them, whatever the memory did. */
  lemma SafeArgumentsArrive(delivered: seq<bytes>, sent: seq<Packet>, i: nat,
                            fmt: string, args: seq<W.Arg>, env: seq<P.growth>)
    requires Arrived(delivered, sent) && i < |delivered| && FilledFrom(sent[i], args, env)
    requires |fmt| == |args| && W.Agree(fmt, args, |args|) && P.Safe(B.Layout(args), |args|)
    ensures |delivered[i]| >= HEADER_SIZE
    ensures Unframe(delivered[i]).head == sent[i].head
    ensures W.Unmarshal(fmt, Unframe(delivered[i]).payload, 0) == W.Reading(W.ReadbackAll(args), W.Done)
  {
    B.SafeHoldsArgs(args, env);
    FieldsArrive(delivered, sent, i, fmt, args);
  }

  // ---------------------------------------------------------------- the direct receiver

  const EAGAIN := 11
  const EINTR := 4

  /** How often `select` finds the descriptor readable. */
  function Readable(waits: seq<int>): nat {
    if waits == [] then 0 else Readable(waits[..|waits| - 1]) + if waits[|waits| - 1] > 0 then 1 else 0
  }

  lemma ReadableNext(waits: seq<int>, k: nat)
    requires k < |waits|
    ensures Readable(waits[..k + 1]) == Readable(waits[..k]) + if waits[k] > 0 then 1 else 0
  {
    assert waits[..k + 1][..k] == waits[..k];
  }

  /** A connected socket: bytes on their way, and those already taken by a `recv` that
      returned them; how often it was read, and what the last read returned. */
  class Socket {
    var unread: bytes
    ghost var taken: bytes
    ghost var tries: nat
    ghost var last: int

    ghost predicate Valid(stream: bytes)
      reads this
    {
      taken + unread == stream
    }

    constructor (stream: bytes)
      ensures Valid(stream) && taken == []
    {
      unread, taken, tries, last := stream, [], 0, 0;
    }

    /** `secure_socket_recv_with_fd` as promised to its callers: moves some bytes, at least
        one and no more than asked for, or says closed (0) or failed. */
    method Read(size: nat) returns (ret: int, data: bytes)
      requires size > 0
      modifies this`unread, this`tries, this`last
      ensures ret <= size && last == ret && tries == old(tries) + 1
      ensures ret <= 0 ==> unread == old(unread) && data == []
      ensures ret > 0 ==> ret == |data| && data + unread == old(unread)
    {
      var n: nat := *;
      data := [];
      if 0 < n <= size && n <= |unread| {
        ret, data, unread := n, unread[..n], unread[n..];
        SplitAt(old(unread), n);
      } else {
        ret :| ret <= 0;
      }
      tries, last := tries + 1, ret;
    }

    /** `com_core_recv_with_fd`: loops until the size asked for is there or the timeout
        strikes. `waits` is what `select` returns, one call after the other; when there is no
        more, the timeout strikes. A call fails with what has failed, and breaks off when the
        other side has closed or the time is over. */
    method RecvWithFd(size: nat, waits: seq<int>, ghost stream: bytes) returns (ret: int, data: bytes)
      requires Valid(stream)
      modifies this
      ensures ret <= size
      ensures ret > 0 ==> ret == |data| && Valid(stream) && taken == old(taken) + data
      ensures ret <= 0 ==> taken == old(taken)
      ensures ret < 0 ==> (ret in waits && ret != -EINTR) || (tries > old(tries) && ret == last && ret != -EAGAIN)
      ensures 0 <= ret < size ==>
                || (ret == 0 && tries > old(tries) && last == 0)
                || 0 in waits || tries == old(tries) + Readable(waits)
    {
      var rest, i := size, 0;
      data := [];
      while rest > 0 && i < |waits|
        invariant |data| + rest == size && rest >= 0 && 0 <= i <= |waits|
        invariant taken == old(taken) && data + unread == old(unread)
        invariant tries == old(tries) + Readable(waits[..i])
        decreases |waits| - i
      {
        var wait := waits[i];
        ReadableNext(waits, i);
        i := i + 1;
        if wait < 0 {
          if wait == -EINTR {
            continue;
          }
          return wait, data;
        } else if wait == 0 {
          break;
        }
        var n, piece := Read(rest);
        if n < 0 {
          if n == -EAGAIN {
            continue;
          }
          return n, data;
        } else if n == 0 {
          return 0, data;
        }
        Associative(data, piece, unread);
        data := data + piece;
        rest := rest - n;
      }
      assert waits[..|waits|] == waits;
      Associative(taken, data, unread);
      taken := if |data| > 0 then taken + data else taken;
      return |data|, data;
    }
  }

  // ---------------------------------------------------------------- sessions

  lemma PrefixTransitive(a: bytes, b: bytes, c: bytes)
    requires a <= b <= c
    ensures a <= c
  {
  }

  /** What `service_cb` makes of the return value of its `recv`. */
  function Outcome(ret: int, data: bytes): Recv {
    if ret < 0 then Failed else if ret == 0 then Nothing else Data(data)
  }

  /** A connection served without the reader thread: `rounds` times the descriptor is found
      readable and `service_cb` runs, until it fails. Each run takes at least one byte. */
  method ServeDirect(socket: Socket, rx: Receiver, rounds: nat, ghost sent: seq<Packet>) returns (ret: int)
    requires Sendable(sent)
    requires rx.Valid() && rx.state == INIT && rx.got == [] && socket.taken == []
    requires socket.Valid(Stream(sent))
    modifies socket, rx
    ensures rx.Valid() && rx.got == socket.taken <= Stream(sent)
    ensures ret == 0 ==> |rx.got| >= rounds
    ensures Arrived(rx.delivered, sent)
    ensures rx.got == Stream(sent) ==> |rx.delivered| == |sent|
  {
    ret := 0;
    var i := 0;
    DeliveredIsSent(sent, rx.got, rx.delivered, rx.firsts);
    while i < rounds && ret == 0
      invariant rx.Valid() && (ret == 0 ==> rx.state != READY)
      invariant rx.got == socket.taken && (ret == 0 ==> socket.Valid(Stream(sent)) && |rx.got| >= i)
      invariant rx.got <= Stream(sent)
      invariant Arrived(rx.delivered, sent) && (rx.got == Stream(sent) ==> |rx.delivered| == |sent|)
    {
      rx.WantIsWanted();
      DeliveredIsSent(sent, rx.got, rx.delivered, rx.firsts);
      var verdict: int :| verdict <= 0;
      var size := rx.Want();
      var waits: seq<int> := *;
      var n, data := socket.RecvWithFd(size, waits, Stream(sent));
      ret := rx.ServiceCb(Outcome(n, data), verdict);
      DeliveredIsSent(sent, rx.got, rx.delivered, rx.firsts);
      i := i + 1;
    }
  }

  /** The receive context has taken in exactly what the calls on the reader thread's
      list have returned. */
  ghost predicate InStep(tcb: R.Tcb, rx: Receiver)
    reads tcb, rx
  {
    R.Inv(tcb.View()) && rx.Valid() && rx.got == tcb.returned <= tcb.produced
  }

  /** One run of `evt_pipe_cb`. What is wanted is taken if it is there already; nothing is
      taken only when nothing has been signalled or the stream has ended. */
  method ServeOnce(tcb: R.Tcb, rx: Receiver) returns (ret: int)
    requires InStep(tcb, rx) && tcb.main == R.Idle && rx.state != READY
    modifies tcb, rx
    ensures InStep(tcb, rx)
    ensures ret >= 0 ==> ret == 0 && tcb.main == R.Idle && rx.state != READY
    ensures ret == -ECONNRESET && rx.state != READY && old(Wanted(Split(rx.got).rest)) > 0 ==> rx.got == tcb.produced
    ensures old(rx.got) <= tcb.produced && (ret == 0 ==> |rx.got| > |old(rx.got)|)
    ensures var wanted := old(Wanted(Split(rx.got).rest));
            && (0 < wanted <= |old(tcb.produced)| - |old(tcb.returned)| ==> |rx.got| == |old(rx.got)| + wanted)
            && (wanted > 0 && rx.got == old(rx.got) ==> tcb.evtPipe == [] || rx.got == tcb.produced)
  {
    rx.WantIsWanted();
    var verdict: int :| verdict <= 0;
    var size := rx.Want();
    if size <= 0 {
      // Only a header announcing a negative size leads here.
      ret := rx.ServiceCb(Failed, verdict);
      return;
    }
    var n, data := tcb.RecvWithFd(size);
    ret := rx.ServiceCb(Outcome(n, data), verdict);
  }

  /** A connection served through the reader thread: `rounds` times `evt_pipe_cb` runs
      `service_cb`, while the reader thread appends chunks of any sizes at any moment. As
      long as those are the bytes of `sent`, the packets delivered are the first ones sent;
      and a session that ends because the stream has ended has delivered all that came. */
  method ServeThreaded(tcb: R.Tcb, rx: Receiver, rounds: nat, ghost sent: seq<Packet>) returns (ret: int)
    requires Sendable(sent)
    requires InStep(tcb, rx) && tcb.main == R.Idle && rx.state == INIT && rx.got == []
    modifies tcb, rx
    ensures InStep(tcb, rx) && (ret == 0 ==> |rx.got| >= rounds)
    ensures tcb.produced <= Stream(sent) ==> Arrived(rx.delivered, sent)
    ensures tcb.produced == Stream(sent) && (rx.got == tcb.produced || (ret == -ECONNRESET && rx.state != READY)) ==>
              |rx.delivered| == |sent|
  {
    ret := 0;
    var i := 0;
    while i < rounds && ret == 0
      invariant InStep(tcb, rx)
      invariant ret == 0 ==> tcb.main == R.Idle && rx.state != READY && |rx.got| >= i
      invariant ret == -ECONNRESET && rx.state != READY && tcb.produced <= Stream(sent) ==> rx.got == tcb.produced
    {
      ghost var got, delivered, firsts := rx.got, rx.delivered, rx.firsts;
      assert |delivered| == |firsts| == |Split(got).frames|;
      assert forall i :: 0 <= i < |delivered| ==> delivered[i] == Masked(Split(got).frames[i], firsts[i]);
      ret := ServeOnce(tcb, rx);
      if tcb.produced <= Stream(sent) {
        PrefixTransitive(got, tcb.produced, Stream(sent));
        DeliveredIsSent(sent, got, delivered, firsts);
      }
      i := i + 1;
    }
    if tcb.produced <= Stream(sent) {
      PrefixTransitive(rx.got, tcb.produced, Stream(sent));
      DeliveredIsSent(sent, rx.got, rx.delivered, rx.firsts);
    }
  }
}
