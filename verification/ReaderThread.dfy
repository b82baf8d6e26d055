/** The protocol between a connection's reader thread (`client_cb`) and the main thread
    (`com_core_thread_recv_with_fd`): chunks in a list, one event byte per chunk in a pipe.

    Each constructor of `Step` is one atomic statement of one of the two threads; a run
    is any interleaving of them. Pipe writes succeed and no chunk is empty. */
module ReaderThread {
  import opened Bytes
  import opened Options
  import opened Sequences

  /** `struct chunk`: `offset` bytes of `data` are already taken. */
  datatype Chunk = Chunk(data: bytes, offset: nat)

  datatype Event = EVENT_READY | EVENT_TERM

  /** Where the reader thread is: in its select loop, between `dlist_append` and the write
      of the event byte, past the loop, or ended. */
  datatype Reader = Selecting | Appended | Leaving | Exited

  /** Where the main thread is: outside the function, at the loop head, in `wait_event`
      after seeing an empty list, behind a successful `wait_event`, about to read the byte
      left without a chunk, at the read in `chunk_remove`, between that read and
      `dlist_remove_data`, behind a `break`, or behind a negative return. */
  datatype Main = Idle | Top | Waiting | Waited | Draining | Removing | Popped | Broken | Failed

  datatype System = System(
    chunks: seq<Chunk>, pipe: seq<Event>, reader: Reader, main: Main,
    want: nat, buffer: bytes,            // the call in progress: size asked for, bytes copied
    produced: bytes, returned: bytes,    // all bytes appended, all bytes of finished calls
    drained: Option<Event>)              // the byte read without a chunk, if ever

  datatype Step =
    | Receive(data: bytes) | Signal | Leave | SignalEnd                 // reader thread
    | Call(size: nat) | SeeEmpty | Wait | Interrupt | TimeOut | Copy    // main thread
    | NoChunk | Drain | TakeByte | Unlink | Return

  predicate ReaderStep(a: Step) {
    a.Receive? || a.Signal? || a.Leave? || a.SignalEnd?
  }

  const START := System([], [], Selecting, Idle, 0, [], [], [], None)

  function Left(c: Chunk): (r: bytes)
    requires c.offset <= |c.data|
  {
    c.data[c.offset..]
  }

  /** What the copy of `n` bytes leaves. */
  function Copied(s: System, n: nat): System
    requires s.chunks != [] && s.chunks[0].offset + n <= |s.chunks[0].data|
  {
    var c := s.chunks[0];
    s.(chunks := s.chunks[0 := c.(offset := c.offset + n)],
       buffer := s.buffer + c.data[c.offset..c.offset + n],
       main := if c.offset + n == |c.data| then Removing else Top)
  }

  /** One atomic step; absent when the thread is not there or would block. */
  function Apply(s: System, a: Step): Option<System> {
    match a
    case Receive(data) =>
      if s.reader == Selecting && data != [] then
        Some(s.(chunks := s.chunks + [Chunk(data, 0)], produced := s.produced + data, reader := Appended))
      else None
    case Signal =>
      if s.reader == Appended then Some(s.(pipe := s.pipe + [EVENT_READY], reader := Selecting)) else None
    case Leave =>
      if s.reader == Selecting then Some(s.(reader := Leaving)) else None
    case SignalEnd =>
      if s.reader == Leaving then Some(s.(pipe := s.pipe + [EVENT_TERM], reader := Exited)) else None
    case Call(size) =>
      if s.main == Idle then Some(s.(main := Top, want := size, buffer := [])) else None
    case SeeEmpty =>
      if s.main == Top && |s.buffer| < s.want && s.chunks == [] then Some(s.(main := Waiting)) else None
    case Wait =>
      if s.main == Waiting && s.pipe != [] then Some(s.(main := Waited)) else None
    case Interrupt =>
      if s.main == Waiting then Some(s.(main := Top)) else None
    case TimeOut =>
      if s.main == Waiting && s.pipe == [] then Some(s.(main := Failed)) else None
    case Copy =>
      if ((s.main == Top && |s.buffer| < s.want) || s.main == Waited) && s.chunks != []
         && s.chunks[0].offset <= |s.chunks[0].data| && |s.buffer| <= s.want then
        Some(Copied(s, Min(|s.chunks[0].data| - s.chunks[0].offset, s.want - |s.buffer|)))
      else None
    case NoChunk =>
      if s.main == Waited && s.chunks == [] then Some(s.(main := Draining)) else None
    case Drain =>
      if s.main == Draining && s.pipe != [] then
        Some(s.(pipe := s.pipe[1..], drained := Some(s.pipe[0]), main := Broken))
      else None
    case TakeByte =>
      if s.main == Removing && s.pipe != [] then Some(s.(pipe := s.pipe[1..], main := Popped)) else None
    case Unlink =>
      if s.main == Popped && s.chunks != [] then Some(s.(chunks := s.chunks[1..], main := Top)) else None
    case Return =>
      if s.main == Broken || (s.main == Top && |s.buffer| >= s.want) then
        Some(s.(main := Idle, returned := s.returned + s.buffer, buffer := []))
      else None
  }

  function Run(s: System, steps: seq<Step>): Option<System>
    decreases |steps|
  {
    if steps == [] then Some(s)
    else match Run(s, steps[..|steps| - 1])
    case None => None
    case Some(t) => Apply(t, steps[|steps| - 1])
  }

  // ---------------------------------------------------------------- the invariant

  function Readies(pipe: seq<Event>): nat {
    |pipe| - if pipe != [] && pipe[|pipe| - 1] == EVENT_TERM then 1 else 0
  }

  /** The bytes the list still holds. */
  function Unread(chunks: seq<Chunk>): bytes
    requires forall c :: c in chunks ==> c.offset <= |c.data|
  {
    if chunks == [] then [] else Left(chunks[0]) + Unread(chunks[1..])
  }

  ghost predicate ChunksOk(s: System) {
    && (forall i :: 0 <= i < |s.chunks| ==> s.chunks[i].offset <= |s.chunks[i].data|)
    && (forall i :: 1 <= i < |s.chunks| ==> s.chunks[i].offset == 0 < |s.chunks[i].data|)
    && (s.main == Removing || s.main == Popped ==> s.chunks != [])
    && (s.chunks != [] ==> (s.chunks[0].offset == |s.chunks[0].data| <==> s.main == Removing || s.main == Popped))
  }

  /** READY bytes first, then at most one TERM, present only once the thread has ended. */
  ghost predicate PipeOk(s: System) {
    && (forall i :: 0 <= i < |s.pipe| - 1 ==> s.pipe[i] == EVENT_READY)
    && (EVENT_TERM in s.pipe ==> s.reader == Exited)
    && (s.reader == Exited ==> (EVENT_TERM in s.pipe <==> s.drained == None))
    && (s.drained.Some? ==> s.drained == Some(EVENT_TERM) && s.reader == Exited && s.chunks == [] && s.pipe == [])
  }

  /** The count the source states beside `chunk_append`: one event byte for each chunk. */
  ghost predicate CountOk(s: System) {
    |s.chunks| == Readies(s.pipe) + (if s.reader == Appended then 1 else 0) + (if s.main == Popped then 1 else 0)
  }

  ghost predicate MainOk(s: System) {
    && |s.buffer| <= s.want
    && (s.main == Waiting || s.main == Waited ==> |s.buffer| < s.want)
    && (s.main == Waited ==> s.pipe != [])
    && (s.main == Draining ==> s.pipe == [EVENT_TERM] && s.chunks == [] && s.reader == Exited)
    && (s.main == Broken ==> s.drained.Some?)
    && (s.main == Idle ==> s.buffer == [])
  }

  ghost predicate DataOk(s: System)
    requires ChunksOk(s)
  {
    s.returned + s.buffer + Unread(s.chunks) == s.produced
  }

  ghost predicate Inv(s: System) {
    ChunksOk(s) && PipeOk(s) && CountOk(s) && MainOk(s) && DataOk(s)
  }

  // ---------------------------------------------------------------- it is inductive

  lemma {:induction false} UnreadAppend(chunks: seq<Chunk>, data: bytes)
    requires forall c :: c in chunks ==> c.offset <= |c.data|
    ensures Unread(chunks + [Chunk(data, 0)]) == Unread(chunks) + data
  {
    var all := chunks + [Chunk(data, 0)];
    if chunks == [] {
      assert all[1..] == [] && data[0..] == data;
      assert Unread(all) == data + Unread([]);
    } else {
      UnreadAppend(chunks[1..], data);
      assert all[1..] == chunks[1..] + [Chunk(data, 0)];
      Associative(Left(chunks[0]), Unread(chunks[1..]), data);
    }
  }

  lemma MovePart(returned: bytes, buffer: bytes, part: bytes, left: bytes, rest: bytes)
    ensures returned + buffer + ((part + left) + rest) == returned + (buffer + part) + (left + rest)
  {
  }

  lemma LeftAfter(c: Chunk, n: nat)
    requires c.offset + n <= |c.data|
    ensures Left(c) == c.data[c.offset..c.offset + n] + Left(c.(offset := c.offset + n))
  {
  }

  lemma CopyKeepsData(s: System, n: nat)
    requires ChunksOk(s) && DataOk(s)
    requires s.chunks != [] && s.chunks[0].offset + n <= |s.chunks[0].data|
    ensures ChunksOk(Copied(s, n)) && DataOk(Copied(s, n))
  {
    var c, t := s.chunks[0], Copied(s, n);
    var rest := s.chunks[1..];
    assert t.chunks[0] == c.(offset := c.offset + n) && t.chunks[1..] == rest;
    LeftAfter(c, n);
    MovePart(s.returned, s.buffer, c.data[c.offset..c.offset + n], Left(t.chunks[0]), Unread(rest));
  }

  lemma CopyKeepsInv(s: System)
    requires Inv(s) && Apply(s, Copy).Some?
    ensures Inv(Apply(s, Copy).value)
  {
    CopyKeepsData(s, Min(|s.chunks[0].data| - s.chunks[0].offset, s.want - |s.buffer|));
  }

  /** The copy moves at least one byte. */
  lemma CopyMoves(s: System, n: int)
    requires Inv(s) && s.chunks != [] && |s.buffer| < s.want && (s.main == Top || s.main == Waited)
    requires n == Min(|s.chunks[0].data| - s.chunks[0].offset, s.want - |s.buffer|)
    ensures n > 0 && s.chunks[0].offset + n <= |s.chunks[0].data|
    ensures Apply(s, Copy) == Some(Copied(s, n)) && Inv(Copied(s, n))
  {
    CopyKeepsInv(s);
  }

  lemma UnlinkKeepsData(s: System)
    requires Inv(s) && Apply(s, Unlink).Some?
    ensures Inv(Apply(s, Unlink).value)
  {
    assert Left(s.chunks[0]) == [];
    assert Unread(s.chunks) == Unread(s.chunks[1..]);
  }

  lemma ReceiveKeepsData(s: System, data: bytes)
    requires Inv(s) && Apply(s, Receive(data)).Some?
    ensures Inv(Apply(s, Receive(data)).value)
  {
    UnreadAppend(s.chunks, data);
    Associative(s.returned + s.buffer, Unread(s.chunks), data);
  }

  lemma ReaderKeepsInv(s: System, a: Step)
    requires Inv(s) && ReaderStep(a) && Apply(s, a).Some?
    ensures Inv(Apply(s, a).value)
  {
    match a {
      case Receive(data) => ReceiveKeepsData(s, data);
      case _ =>
    }
  }

  lemma ReturnKeepsInv(s: System)
    requires Inv(s) && Apply(s, Return).Some?
    ensures Inv(Apply(s, Return).value)
  {
    assert s.returned + s.buffer + [] == s.returned + s.buffer;
  }

  /** Steps of the main thread that touch neither list nor pipe. */
  predicate Local(a: Step) {
    a.Call? || a.SeeEmpty? || a.Wait? || a.Interrupt? || a.TimeOut? || a.NoChunk? || a.Return?
  }

  lemma LocalKeepsInv(s: System, a: Step)
    requires Inv(s) && Apply(s, a).Some? && Local(a)
    ensures Inv(Apply(s, a).value)
    ensures var t := Apply(s, a).value;
            t == s.(main := t.main, want := t.want, buffer := t.buffer, returned := t.returned)
  {
    if a.Return? {
      ReturnKeepsInv(s);
    }
  }

  lemma ReadingKeepsInv(s: System, a: Step)
    requires Inv(s) && Apply(s, a).Some? && (a.Drain? || a.TakeByte?)
    ensures Inv(Apply(s, a).value)
  {
  }

  lemma StepKeepsInv(s: System, a: Step)
    requires Inv(s) && Apply(s, a).Some?
    ensures Inv(Apply(s, a).value)
  {
    if ReaderStep(a) {
      ReaderKeepsInv(s, a);
    } else if a.Drain? || a.TakeByte? {
      ReadingKeepsInv(s, a);
    } else if a.Copy? {
      CopyKeepsInv(s);
    } else if a.Unlink? {
      UnlinkKeepsData(s);
    } else {
      LocalKeepsInv(s, a);
    }
  }

  /** The invariant holds in every state of every interleaving. */
  lemma {:induction false} RunKeepsInv(steps: seq<Step>)
    requires Run(START, steps).Some?
    ensures Inv(Run(START, steps).value)
    decreases |steps|
  {
    if steps != [] {
      var before := steps[..|steps| - 1];
      RunKeepsInv(before);
      StepKeepsInv(Run(START, before).value, steps[|steps| - 1]);
    }
  }

  // ---------------------------------------------------------------- what it means

  /** The byte read without a chunk is always TERM: the "Failed to get a new chunk" branch
      is never taken. */
  lemma DrainedByteIsTerm(steps: seq<Step>)
    requires Run(START, steps + [Drain]).Some?
    ensures Run(START, steps + [Drain]).value.drained == Some(EVENT_TERM)
  {
    RunKeepsInv(steps + [Drain]);
  }

  /** The byte `chunk_remove` reads is always READY, and when the pipe is empty at that
      point the reader thread is about to write it: the read neither eats TERM nor blocks
      for ever. */
  lemma RemovedByteIsReady(steps: seq<Step>)
    requires Run(START, steps).Some? && Run(START, steps).value.main == Removing
    ensures var s := Run(START, steps).value;
            if s.pipe == [] then s.reader == Appended else s.pipe[0] == EVENT_READY
  {
    RunKeepsInv(steps);
  }

  /** No wake-up is lost: while the main thread is outside the function, a chunk in the
      list has its event byte in the pipe or about to be written. */
  lemma NoLostWakeUp(steps: seq<Step>)
    requires Run(START, steps).Some?
    requires Run(START, steps).value.main == Idle && Run(START, steps).value.chunks != []
    ensures EVENT_READY in Run(START, steps).value.pipe || Run(START, steps).value.reader == Appended
  {
    RunKeepsInv(steps);
    var s := Run(START, steps).value;
    if |s.pipe| > 0 {
      assert s.pipe[0] in s.pipe;
    }
  }

  /** At every moment the finished calls and the one in progress have returned, in order
      and without gaps, the beginning of what the reader thread produced; once TERM has
      been read they have returned all of it. */
  lemma ReturnedInOrder(steps: seq<Step>)
    requires Run(START, steps).Some?
    ensures var s := Run(START, steps).value;
            && s.returned + s.buffer <= s.produced
            && (s.drained.Some? ==> s.returned + s.buffer == s.produced)
  {
    RunKeepsInv(steps);
    var s := Run(START, steps).value;
    assert Unread([]) == [];
  }

  /** What the reader thread has received from the socket. */
  function Received(steps: seq<Step>): bytes {
    if steps == [] then []
    else
      var last := steps[|steps| - 1];
      Received(steps[..|steps| - 1]) + if last.Receive? then last.data else []
  }

  /** All of it has been queued, in order. */
  lemma {:induction false} ProducedIsReceived(steps: seq<Step>)
    requires Run(START, steps).Some?
    ensures Run(START, steps).value.produced == Received(steps)
    decreases |steps|
  {
    if steps != [] {
      ProducedIsReceived(steps[..|steps| - 1]);
    }
  }

  /** A call that returns with less than was asked for has met the end of the stream. */
  lemma ShortReturnIsTheEnd(steps: seq<Step>)
    requires Run(START, steps).Some? && Run(START, steps).value.main == Broken
    ensures var s := Run(START, steps).value;
            s.reader == Exited && s.returned + s.buffer == s.produced
  {
    RunKeepsInv(steps);
    ReturnedInOrder(steps);
  }

  // ---------------------------------------------------------------- the receiving side

  lemma DrainingHasTerm(s: System)
    requires Inv(s) && s.main == Draining
    ensures s.pipe == [EVENT_TERM] && Apply(s, Drain).Some?
  {
  }

  const ETIMEDOUT := 110
  const EAGAIN := 11

  /** `struct tcb` as the main thread works on it. The reader thread may run between any
      two of its statements (`OtherThread`). */
  class Tcb {
    var chunks: seq<Chunk>
    var evtPipe: seq<Event>
    var reader: Reader
    ghost var main: Main
    ghost var want: nat
    ghost var buffer: bytes
    ghost var produced: bytes
    ghost var returned: bytes
    ghost var drained: Option<Event>

    ghost function View(): System
      reads this
    {
      System(chunks, evtPipe, reader, main, want, buffer, produced, returned, drained)
    }

    constructor ()
      ensures View() == START
    {
      chunks, evtPipe, reader, main := [], [], Selecting, Idle;
      want, buffer, produced, returned, drained := 0, [], [], [], None;
    }

    /** The reader thread has moved: the main thread's part of the state is as before, and
        list, pipe and stream have only grown. */
    twostate predicate OnlyReaderMoved()
      reads this
    {
      && main == old(main) && want == old(want) && buffer == old(buffer)
      && returned == old(returned) && drained == old(drained)
      && old(produced) <= produced && old(chunks) <= chunks && old(evtPipe) <= evtPipe
    }

    /** `chunk_append` up to its write: the chunk is in the list, its byte not in the pipe. */
    method ChunkAppend(data: bytes)
      requires Inv(View()) && reader == Selecting && data != []
      modifies this`chunks, this`reader, this`produced
      ensures Apply(old(View()), Receive(data)) == Some(View()) && Inv(View())
      ensures OnlyReaderMoved()
    {
      ReaderKeepsInv(View(), Receive(data));
      chunks := chunks + [Chunk(data, 0)];
      produced := produced + data;
      reader := Appended;
    }

    /** The rest of `chunk_append`: the event byte. */
    method Signal()
      requires Inv(View()) && reader == Appended
      modifies this`evtPipe, this`reader
      ensures Apply(old(View()), Step.Signal) == Some(View()) && Inv(View())
      ensures OnlyReaderMoved() && evtPipe != []
    {
      ReaderKeepsInv(View(), Step.Signal);
      evtPipe := evtPipe + [EVENT_READY];
      reader := Selecting;
    }

    /** The end of `client_cb`: out of the loop, then the TERM byte. */
    method End()
      requires Inv(View()) && (reader == Selecting || reader == Leaving)
      modifies this`evtPipe, this`reader
      ensures Inv(View()) && OnlyReaderMoved()
      ensures Apply(old(View()), if old(reader) == Selecting then Leave else SignalEnd) == Some(View())
    {
      if reader == Selecting {
        ReaderKeepsInv(View(), Leave);
        reader := Leaving;
      } else {
        ReaderKeepsInv(View(), SignalEnd);
        evtPipe := evtPipe + [EVENT_TERM];
        reader := Exited;
      }
    }

    /** The scheduler lets the reader thread run for any number of its statements. */
    method OtherThread()
      requires Inv(View())
      modifies this`chunks, this`evtPipe, this`reader, this`produced
      ensures Inv(View()) && OnlyReaderMoved()
    {
      var turns: nat := *;
      while turns > 0
        invariant Inv(View()) && OnlyReaderMoved()
      {
        var data: bytes := *;
        if * {
          if reader == Selecting && data != [] {
            ChunkAppend(data);
          }
        } else if reader == Appended {
          Signal();
        } else if reader != Exited {
          End();
        }
        turns := turns - 1;
      }
    }

    /** A step of the main thread that touches neither list nor pipe. */
    ghost method Move(a: Step)
      requires Inv(View()) && Apply(View(), a).Some?
      requires Local(a)
      modifies this`main, this`want, this`buffer, this`returned
      ensures Inv(View()) && Apply(old(View()), a) == Some(View())
    {
      var next := Apply(View(), a).value;
      LocalKeepsInv(View(), a);
      main, want, buffer, returned := next.main, next.want, next.buffer, next.returned;
    }

    /** A read of the event pipe that has something to read. */
    method ReadByte(ghost a: Step) returns (event: Event)
      requires Inv(View()) && (a.TakeByte? || a.Drain?) && Apply(View(), a).Some?
      modifies this`evtPipe, this`main, this`drained
      ensures Inv(View()) && Apply(old(View()), a) == Some(View())
      ensures event == if a.TakeByte? then EVENT_READY else EVENT_TERM
    {
      ghost var next := Apply(View(), a).value;
      ReadingKeepsInv(View(), a);
      event := evtPipe[0];
      evtPipe := evtPipe[1..];
      main, drained := next.main, next.drained;
    }

    /** `dlist_remove_data` on the chunk just used up. */
    method UnlinkFirst()
      requires Inv(View()) && main == Popped
      modifies this`chunks, this`main
      ensures Inv(View()) && main == Top
      ensures Apply(old(View()), Unlink) == Some(View())
    {
      UnlinkKeepsData(View());
      chunks := chunks[1..];
      main := Top;
    }

    /** `wait_event`: the pipe becomes readable, the timeout expires, or a signal comes
        (`interrupt`). */
    method WaitEvent(interrupt: bool) returns (ret: int)
      requires Inv(View()) && main == Waiting
      modifies this`chunks, this`evtPipe, this`reader, this`produced, this`main, this`want, this`buffer, this`returned
      ensures Inv(View()) && old(produced) <= produced
      ensures want == old(want) && buffer == old(buffer) && returned == old(returned)
      ensures ret == 0 || ret == -ETIMEDOUT || ret == -EAGAIN
      ensures ret == -EAGAIN <==> interrupt
      ensures main == if ret == 0 then Waited else if ret == -EAGAIN then Top else Failed
      ensures ret == -ETIMEDOUT ==> evtPipe == []
    {
      OtherThread();
      if interrupt {
        Move(Interrupt);
        return -EAGAIN;
      }
      if evtPipe == [] {
        Move(TimeOut);
        return -ETIMEDOUT;
      }
      Move(Wait);
      return 0;
    }

    /** The blocking read of the pipe in `chunk_remove` ends: an empty pipe means that the
        reader thread is about to write. The byte is never TERM. */
    method ReadSignal() returns (event: Event)
      requires Inv(View()) && main == Removing
      modifies this`evtPipe, this`reader, this`main, this`drained
      ensures Inv(View()) && main == Popped && event == EVENT_READY
    {
      if evtPipe == [] {
        Signal();
      }
      event := ReadByte(TakeByte);
    }

    /** `chunk_remove`. */
    method ChunkRemove()
      requires Inv(View()) && main == Removing
      modifies this
      ensures Inv(View()) && main == Top && old(produced) <= produced
      ensures want == old(want) && buffer == old(buffer) && returned == old(returned)
    {
      OtherThread();
      var event := ReadSignal();
      OtherThread();
      UnlinkFirst();
    }

    /** `memcpy` of `n` bytes of the first chunk. */
    method CopyBytes(n: nat) returns (part: bytes)
      requires chunks != [] && chunks[0].offset + n <= |chunks[0].data|
      modifies this`chunks, this`buffer, this`main
      ensures View() == Copied(old(View()), n) && buffer == old(buffer) + part && |part| == n
    {
      var chunk := chunks[0];
      part := chunk.data[chunk.offset..chunk.offset + n];
      chunks := chunks[0 := chunk.(offset := chunk.offset + n)];
      buffer := buffer + part;
      main := if chunk.offset + n == |chunk.data| then Removing else Top;
    }

    /** The copy in the loop of `com_core_thread_recv_with_fd`: as much of the first chunk
        as is there and still wanted. */
    method CopyChunk(size: nat, readsize: nat) returns (part: bytes)
      requires Inv(View()) && (main == Top || main == Waited) && chunks != []
      requires want == size && |buffer| == readsize < size
      modifies this`chunks, this`buffer, this`main
      ensures Inv(View()) && part != [] && Apply(old(View()), Copy) == Some(View())
      ensures buffer == old(buffer) + part && |buffer| <= size
      ensures chunks != [] && main == if chunks[0].offset == |chunks[0].data| then Removing else Top
    {
      var n := |chunks[0].data| - chunks[0].offset;
      n := if n > size - readsize then size - readsize else n;
      CopyMoves(View(), n);
      part := CopyBytes(n);
    }

    /** What the loop does with a chunk: part of it is copied, and it goes when it is used up. */
    method TakePart(size: nat, readsize: nat) returns (part: bytes)
      requires Inv(View()) && (main == Top || main == Waited) && chunks != []
      requires want == size && |buffer| == readsize < size
      modifies this
      ensures Inv(View()) && main == Top && part != [] && old(produced) <= produced
      ensures want == old(want) && returned == old(returned)
      ensures buffer == old(buffer) + part && |buffer| <= size
    {
      part := CopyChunk(size, readsize);
      if chunks[0].offset == |chunks[0].data| {
        ChunkRemove();
      }
    }

    ghost method BeginDrain()
      requires Inv(View()) && main == Waited && chunks == []
      modifies this`main, this`want, this`buffer, this`returned
      ensures Inv(View()) && main == Draining
      ensures want == old(want) && buffer == old(buffer) && returned == old(returned)
    {
      Move(NoChunk);
    }

    method EndDrain()
      requires Inv(View()) && main == Draining
      modifies this`evtPipe, this`main, this`drained
      ensures Inv(View()) && main == Broken && drained == Some(EVENT_TERM)
    {
      DrainingHasTerm(View());
      var event := ReadByte(Drain);
    }

    /** No chunk behind a readable pipe: the byte is consumed. */
    method DrainByte()
      requires Inv(View()) && main == Waited && chunks == []
      modifies this
      ensures Inv(View()) && main == Broken && drained == Some(EVENT_TERM)
      ensures old(produced) <= produced
      ensures want == old(want) && buffer == old(buffer) && returned == old(returned)
    {
      BeginDrain();
      OtherThread();
      EndDrain();
    }

    /** The part of the loop that finds a chunk to work on, waiting for one only if there is
        none, and giving up only when nothing has been signalled. */
    method FindChunk(interrupt: bool) returns (ret: int)
      requires Inv(View()) && main == Top && |buffer| < want
      modifies this
      ensures Inv(View()) && old(produced) <= produced
      ensures want == old(want) && buffer == old(buffer) && returned == old(returned)
      ensures old(chunks) != [] ==> ret == 1
      ensures ret == -ETIMEDOUT ==> evtPipe == []
      ensures ret <= 1 && (ret == -EAGAIN ==> interrupt && main == Top)
      ensures ret < 0 && ret != -EAGAIN ==> ret == -ETIMEDOUT && main == Failed
      ensures ret == 0 ==> main == Broken && drained == Some(EVENT_TERM)
      ensures ret > 0 ==> chunks != [] && (main == Top || main == Waited)
    {
      OtherThread();
      if chunks != [] {
        return 1;
      }
      Move(SeeEmpty);
      ret := WaitEvent(interrupt);
      if ret < 0 {
        return;
      }
      OtherThread();
      if chunks != [] {
        return 1;
      }
      DrainByte();
      return 0;
    }

    ghost method BeginCall(size: nat)
      requires Inv(View()) && main == Idle
      modifies this`main, this`want, this`buffer, this`returned
      ensures Inv(View()) && main == Top && want == size && buffer == [] && returned == old(returned)
    {
      Move(Call(size));
    }

    ghost method EndCall()
      requires Inv(View()) && (main == Broken || (main == Top && |buffer| == want))
      modifies this`main, this`want, this`buffer, this`returned
      ensures Inv(View()) && main == Idle
      ensures returned == old(returned) + old(buffer) <= produced
      ensures old(main) == Broken ==> drained == Some(EVENT_TERM) && returned == produced
    {
      Move(Return);
      EndOfCall(View());
    }

    /** `com_core_thread_recv_with_fd`: whatever the reader thread does meanwhile, a
        non-negative return brings exactly the next bytes of the stream, as many as asked
        for unless the stream has ended. Bytes that are there already are returned without
        waiting, and a call times out only when nothing has been signalled. */
    method RecvWithFd(size: nat) returns (ret: int, data: bytes)
      requires Inv(View()) && main == Idle
      modifies this
      ensures Inv(View()) && old(produced) <= produced
      ensures ret >= 0 ==> main == Idle && ret == |data| <= size
                           && returned == old(returned) + data <= produced
      ensures 0 <= ret < size ==> drained == Some(EVENT_TERM) && returned == produced
      ensures ret < 0 ==> ret == -ETIMEDOUT && main == Failed && returned == old(returned) && evtPipe == []
      ensures |old(produced)| - |old(returned)| >= size ==> ret == size
    {
      BeginCall(size);
      var readsize := 0;
      data := [];
      var found, interrupts: nat := 1, *;
      while readsize < size
        invariant Inv(View()) && main == Top && want == size && buffer == data
        invariant |data| == readsize <= size
        invariant old(produced) <= produced && returned == old(returned)
        decreases size - readsize, interrupts
      {
        StillUnread(View());
        var interrupt: bool := *;
        found := FindChunk(interrupt && interrupts > 0);
        if found == -EAGAIN {
          interrupts := interrupts - 1;
          continue;
        }
        if found < 0 {
          return found, data;
        }
        if found == 0 {
          break;
        }
        var part := TakePart(size, readsize);
        readsize := readsize + |part|;
        data := data + part;
      }
      EndCall();
      ret := readsize;
    }
  }

  /** Bytes that are neither returned nor copied are in the list. */
  lemma StillUnread(s: System)
    requires Inv(s)
    ensures |s.produced| > |s.returned| + |s.buffer| ==> s.chunks != []
  {
    assert Unread([]) == [];
  }

  lemma EndOfCall(s: System)
    requires Inv(s) && s.main == Idle
    ensures s.returned <= s.produced
    ensures s.drained.Some? ==> s.returned == s.produced
  {
    assert s.returned + s.buffer == s.returned;
    assert Unread([]) == [];
  }
}
