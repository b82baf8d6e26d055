/** `service_cb`: rebuilding packets from arbitrary short reads. The reference is `Split`,
    which cuts a whole byte string into frames without any notion of reads. */
module Reassembly {
  import opened Bytes
  import opened Options
  import opened Sequences
  import opened Packets

  // ---------------------------------------------------------------- reference

  /** `s` begins with one whole frame. */
  predicate Complete(s: bytes) {
    |s| >= HEADER_SIZE && HEADER_SIZE <= FrameSize(s) <= |s|
  }

  datatype Parsed = Parsed(frames: seq<bytes>, rest: bytes)

  function Split(s: bytes): (r: Parsed)
    ensures !Complete(r.rest)
    decreases |s|
  {
    if Complete(s) then
      var tail := Split(s[FrameSize(s)..]);
      Parsed([s[..FrameSize(s)]] + tail.frames, tail.rest)
    else
      Parsed([], s)
  }

  function Concat(frames: seq<bytes>): bytes {
    if frames == [] then [] else frames[0] + Concat(frames[1..])
  }

  lemma SizeOfLonger(s: bytes, t: bytes)
    requires |s| >= HEADER_SIZE && s <= t
    ensures FrameSize(t) == FrameSize(s)
  {
    assert t[SIZE_AT..SIZE_AT + 4] == s[SIZE_AT..SIZE_AT + 4];
  }

  /** Nothing is lost or invented by cutting. */
  lemma {:induction false} SplitIsExact(s: bytes)
    ensures Concat(Split(s).frames) + Split(s).rest == s
    ensures forall f :: f in Split(s).frames ==> WellFormed(f)
    decreases |s|
  {
    if Complete(s) {
      var n := FrameSize(s);
      SplitIsExact(s[n..]);
      var tail := Split(s[n..]);
      assert Split(s).frames[1..] == tail.frames;
      SizeOfLonger(s[..n], s);
      Associative(s[..n], Concat(tail.frames), tail.rest);
      SplitAt(s, n);
    } else {
      assert Concat(Split(s).frames) + s == s;
    }
  }

  /** Cutting can stop anywhere and go on with what was left over. */
  lemma {:induction false} SplitResumes(s: bytes, more: bytes)
    ensures var a := Split(s);
            var b := Split(a.rest + more);
            Split(s + more) == Parsed(a.frames + b.frames, b.rest)
    decreases |s|
  {
    if Complete(s) {
      var n := FrameSize(s);
      SizeOfLonger(s, s + more);
      SplitResumes(s[n..], more);
      assert (s + more)[n..] == s[n..] + more && (s + more)[..n] == s[..n];
      var a, tail := Split(s), Split(s[n..]);
      Associative([s[..n]], tail.frames, Split(a.rest + more).frames);
    } else {
      assert [] + Split(s + more).frames == Split(s + more).frames;
    }
  }

  /** One more read that does not reach past the current frame completes it or leaves a
      longer remainder. */
  lemma SplitOneRead(rest: bytes, data: bytes)
    requires !Complete(rest) && |data| <= Wanted(rest)
    ensures Split(rest + data)
            == if Complete(rest + data) then Parsed([rest + data], []) else Parsed([], rest + data)
    ensures |rest| < HEADER_SIZE ==> |rest + data| <= HEADER_SIZE
    ensures Complete(rest + data) ==> WellFormed(rest + data)
  {
    var s := rest + data;
    if Complete(s) {
      if |rest| >= HEADER_SIZE {
        SizeOfLonger(rest, s);
      }
      assert FrameSize(s) == |s|;
      assert s[|s|..] == [] && s[..|s|] == s;
      assert Split([]) == Parsed([], []);
    }
  }

  lemma AppendOne(got: bytes, data: bytes)
    requires |data| <= Wanted(Split(got).rest)
    ensures var before, frame := Split(got), Split(got).rest + data;
            Split(got + data)
            == if Complete(frame) then Parsed(before.frames + [frame], []) else Parsed(before.frames, frame)
    ensures Complete(Split(got).rest + data) ==> WellFormed(Split(got).rest + data)
  {
    SplitResumes(got, data);
    SplitOneRead(Split(got).rest, data);
    assert Split(got).frames + [] == Split(got).frames;
  }

  /** The size of the read `service_cb` makes when `rest` is what it holds: the missing
      part of the header, or the missing part of the body. */
  function Wanted(rest: bytes): int {
    if |rest| < HEADER_SIZE then HEADER_SIZE - |rest| else FrameSize(rest) - |rest|
  }

  /** The frames cut out of any prefix of a stream of well-formed frames are the first of
      them; the whole stream gives all of them; and until then there is something to read. */
  lemma {:induction false} SplitOfStream(sent: seq<bytes>, got: bytes)
    requires forall f :: f in sent ==> WellFormed(f)
    requires got <= Concat(sent)
    ensures Split(got).frames <= sent
    ensures got == Concat(sent) ==> Split(got) == Parsed(sent, [])
    ensures got != Concat(sent) ==> 0 < Wanted(Split(got).rest) <= |Concat(sent)| - |got|
    decreases sent
  {
    if sent == [] {
    } else {
      var f, tail := sent[0], Concat(sent[1..]);
      assert f in sent && forall g :: g in sent[1..] ==> g in sent;
      PrefixOfConcat(got, f, tail);
      if |got| >= |f| {
        SplitOfStream(sent[1..], got[|f|..]);
        WholeFrame(got, f);
        PrefixCons(f, Split(got[|f|..]).frames, sent[1..]);
        assert [f] + sent[1..] == sent;
      } else {
        PartOfFrame(got, f);
      }
    }
  }

  lemma PrefixCons(f: bytes, a: seq<bytes>, b: seq<bytes>)
    requires a <= b
    ensures [f] + a <= [f] + b
  {
  }

  lemma WholeFrame(got: bytes, f: bytes)
    requires WellFormed(f) && |got| >= |f| && got[..|f|] == f
    ensures var later := Split(got[|f|..]);
            Split(got) == Parsed([f] + later.frames, later.rest)
  {
    SizeOfLonger(f, got);
  }

  lemma PartOfFrame(got: bytes, f: bytes)
    requires WellFormed(f) && got <= f && |got| < |f|
    ensures Split(got) == Parsed([], got) && 0 < Wanted(got) <= |f| - |got|
  {
    if |got| >= HEADER_SIZE {
      SizeOfLonger(got, f);
    }
  }

  lemma PrefixOfConcat(got: bytes, f: bytes, tail: bytes)
    requires got <= f + tail
    ensures |got| >= |f| ==> got[..|f|] == f && got[|f|..] <= tail && got == f + got[|f|..]
    ensures |got| < |f| ==> got <= f
  {
    if |got| >= |f| {
      assert got[..|f|] == (f + tail)[..|f|];
      assert got[|f|..] == (f + tail)[|f|..|got|];
    } else {
      assert got == (f + tail)[..|got|] == f[..|got|];
    }
  }

  // ---------------------------------------------------------------- the mask field

  /** What `packet_build` leaves of a frame whose first read brought `k` bytes: those of
      the mask bytes that came with it are replaced by the default mask. */
  function Masked(f: bytes, k: nat): (m: bytes)
    ensures |m| == |f|
    ensures forall i :: 0 <= i < |f| && !(MASK_AT <= i < Min(k, HEADER_SIZE)) ==> m[i] == f[i]
  {
    seq(|f|, i requires 0 <= i < |f| =>
      if MASK_AT <= i < Min(k, HEADER_SIZE) then EncodeWord64(DEFAULT_MASK)[i - MASK_AT] else f[i])
  }

  /** A frame is delivered unchanged exactly when the mask bytes of its first read are
      those of the default mask. */
  lemma MaskedIsIdentity(f: bytes, k: nat)
    requires |f| >= HEADER_SIZE
    ensures Masked(f, k) == f
            <==> forall i :: MASK_AT <= i < Min(k, HEADER_SIZE) ==> f[i] == EncodeWord64(DEFAULT_MASK)[i - MASK_AT]
    ensures DefaultMask(f) ==> Masked(f, k) == f
  {
    if DefaultMask(f) {
      forall i | MASK_AT <= i < HEADER_SIZE ensures f[i] == EncodeWord64(DEFAULT_MASK)[i - MASK_AT] {
        assert f[MASK_AT..HEADER_SIZE][i - MASK_AT] == f[i];
      }
    }
    if Masked(f, k) == f {
      forall i | MASK_AT <= i < Min(k, HEADER_SIZE)
        ensures f[i] == EncodeWord64(DEFAULT_MASK)[i - MASK_AT]
      {
        assert Masked(f, k)[i] == f[i];
      }
    }
  }

  lemma MaskedKeepsSize(f: bytes, k: nat)
    requires |f| >= HEADER_SIZE
    ensures FrameSize(Masked(f, k)) == FrameSize(f)
  {
    assert Masked(f, k)[SIZE_AT..SIZE_AT + 4] == f[SIZE_AT..SIZE_AT + 4];
  }

  // ---------------------------------------------------------------- service_cb

  const ENOMEM := 12
  const EIO := 5
  const ECONNRESET := 104

  datatype State = INIT | HEADER | BODY | READY

  /** How the one `recv_with_fd` call of a `service_cb` run ends. */
  datatype Recv = Data(data: bytes) | Nothing | Failed

  /** `packet_build`: the first piece makes the packet and resets its mask, later pieces
      are copied in at `offset`. A first piece away from offset 0 is refused. The whole mask
      is written, `past` bytes of it behind the end of a first piece shorter than a header. */
  method PacketBuild(packet: Option<bytes>, offset: nat, data: bytes) returns (r: Option<bytes>, past: nat)
    requires packet.Some? ==> offset <= |packet.value|
    ensures packet == None ==> r == if offset == 0 then Some(Masked(data, |data|)) else None
    ensures packet.Some? ==> r == Some(packet.value[..offset] + data)
    ensures past > 0 <==> packet == None && offset == 0 && |data| < HEADER_SIZE
    ensures past > 0 ==> past == Min(HEADER_SIZE - |data|, HEADER_SIZE - MASK_AT)
  {
    past := 0;
    match packet {
      case None =>
        if offset != 0 {
          return None, 0;
        }
        var built := data;
        var i := MASK_AT;
        while i < HEADER_SIZE
          invariant MASK_AT <= i <= HEADER_SIZE && |built| == |data|
          invariant past == if i <= |data| then 0 else Min(i - |data|, i - MASK_AT)
          invariant forall j :: 0 <= j < |data| ==>
                      built[j] == if MASK_AT <= j < i then EncodeWord64(DEFAULT_MASK)[j - MASK_AT] else data[j]
        {
          if i < |data| {
            built := built[i := EncodeWord64(DEFAULT_MASK)[i - MASK_AT]];
          } else {
            past := past + 1;
          }
          i := i + 1;
        }
        assert built == Masked(data, |data|);
        return Some(built), past;
      case Some(built) =>
        return Some(built[..offset] + data), 0;
    }
  }

  /** `struct recv_ctx` of one connection, with the log of the packets handed to
      `packet_ready`. The ghost fields record every byte received so far and, for each
      packet, how many bytes its first read brought. */
  class Receiver {
    var state: State
    var offset: nat
    var packet: Option<bytes>
    var delivered: seq<bytes>

    ghost var got: bytes
    ghost var firsts: seq<nat>
    ghost var first: nat

    /** Every frame of the stream so far was delivered, up to its mask. */
    ghost predicate Logged(frames: seq<bytes>)
      reads this
    {
      && |firsts| == |delivered| == |frames|
      && forall i :: 0 <= i < |delivered| ==> delivered[i] == Masked(frames[i], firsts[i])
    }

    /** The receive context holds the bytes `rest`. */
    ghost predicate Holds(rest: bytes)
      reads this
    {
      && offset == |rest|
      && (offset == 0 ==> packet == None)
      && (offset > 0 ==> 0 < first <= offset && packet == Some(Masked(rest, first)))
    }

    ghost predicate Valid()
      reads this
    {
      var parsed := Split(got);
      && Logged(parsed.frames)
      && (state != READY ==> Holds(parsed.rest) && (state == BODY <==> offset >= HEADER_SIZE))
      && (state == INIT ==> offset == 0)
      && (state == READY ==> parsed.rest == [] && delivered != [])
    }

    constructor ()
      ensures Valid() && state == INIT && got == [] && delivered == []
    {
      state, offset, packet, delivered := INIT, 0, None, [];
      got, firsts, first := [], [], 0;
    }

    /** `recreate_recv_ctx`. */
    method Recreate()
      modifies this`packet, this`state, this`offset
      ensures packet == None && state == INIT && offset == 0
    {
      packet := None;
      state := INIT;
      offset := 0;
    }

    /** The size of the next read. */
    function Want(): int
      reads this
      requires state == BODY ==> packet.Some? && |packet.value| >= HEADER_SIZE
    {
      match state
      case INIT => HEADER_SIZE
      case HEADER => HEADER_SIZE - offset
      case BODY => FrameSize(packet.value) - offset
      case READY => 0
    }

    lemma WantIsWanted()
      requires Valid() && state != READY
      ensures state == BODY ==> packet.Some? && |packet.value| >= HEADER_SIZE
      ensures Want() == Wanted(Split(got).rest)
    {
      if state == BODY {
        MaskedKeepsSize(Split(got).rest, first);
      }
    }

    /** One piece of a packet: `packet_build` and the bookkeeping behind it. Bytes are
        written past the piece exactly when it is the first of its packet and shorter than
        a header. */
    method Accept(data: bytes, ghost rest: bytes) returns (past: nat)
      requires Holds(rest) && 0 < |data|
      modifies this`packet, this`offset, this`first
      ensures Holds(rest + data)
      ensures past > 0 <==> rest == [] && |data| < HEADER_SIZE
    {
      packet, past := PacketBuild(packet, offset, data);
      if offset == 0 {
        first := |data|;
        assert rest + data == data;
      } else {
        assert Masked(rest, first)[..offset] == Masked(rest, first);
        assert Masked(rest, first) + data == Masked(rest + data, first);
      }
      offset := offset + |data|;
    }

    /** The state changes behind a read: header done, or packet done. */
    method Advance(ghost frame: bytes)
      requires Holds(frame) && |frame| > 0
      requires (state == HEADER && |frame| <= HEADER_SIZE)
               || (state == BODY && HEADER_SIZE < |frame| <= FrameSize(frame))
      modifies this`state
      ensures state == READY <==> Complete(frame)
      ensures state != READY ==> (state == BODY <==> |frame| >= HEADER_SIZE) && state != INIT
    {
      if |frame| >= HEADER_SIZE {
        MaskedKeepsSize(frame, first);
      }
      if state == HEADER {
        if offset == HEADER_SIZE {
          if FrameSize(packet.value) == offset {
            state := READY;
          } else {
            state := BODY;
          }
        }
      } else if offset == FrameSize(packet.value) {
        state := READY;
      }
    }

    /** `packet_ready` and, unless it failed, a fresh context. */
    method Deliver(verdict: int, ghost frames: seq<bytes>, ghost frame: bytes) returns (ret: int)
      requires state == READY && verdict <= 0
      requires Logged(frames) && frame != [] && Holds(frame)
      modifies this`state, this`offset, this`packet, this`delivered, this`firsts
      ensures Logged(frames + [frame]) && ret == verdict
      ensures old(delivered) < delivered && old(firsts) < firsts
      ensures if verdict < 0 then state == READY else state == INIT && Holds([])
    {
      delivered := delivered + [packet.value];
      firsts := firsts + [first];
      ret := verdict;
      if ret == 0 {
        Recreate();
      }
    }

    /** The part of `service_cb` behind a successful read. */
    method Consume(data: bytes, verdict: int) returns (ret: int)
      requires Valid() && (state == HEADER || state == BODY)
      requires 0 < |data| <= Wanted(Split(got).rest) && verdict <= 0
      modifies this
      ensures Valid() && got == old(got) + data
      ensures old(delivered) <= delivered && old(firsts) <= firsts
      ensures var completed := |Split(got).frames| > |old(Split(got)).frames|;
              && ret == (if completed then verdict else 0)
              && (state == READY <==> completed && verdict < 0)
              && |delivered| == |old(delivered)| + (if completed then 1 else 0)
    {
      ghost var frames, rest := Split(got).frames, Split(got).rest;
      ghost var frame := rest + data;
      AppendOne(got, data);
      if |rest| >= HEADER_SIZE {
        SizeOfLonger(rest, frame);
      }
      got := got + data;
      var past := Accept(data, rest);
      Advance(frame);
      if state == READY {
        ret := Deliver(verdict, frames, frame);
      } else {
        ret := 0;
      }
    }

    /** `service_cb`. `recv` is the outcome of its read, which never brings more than was
        asked for; `verdict` is what `packet_ready` returns if a packet completes. */
    method ServiceCb(recv: Recv, verdict: int) returns (ret: int)
      requires Valid() && state != READY && verdict <= 0
      requires recv.Data? ==> 0 < |recv.data|
      requires recv.Data? && Wanted(Split(got).rest) >= 0 ==> |recv.data| <= Wanted(Split(got).rest)
      modifies this
      ensures Valid()
      ensures var wanted := old(Wanted(Split(got).rest));
              && (wanted < 0 ==> ret == -ENOMEM)
              && (wanted >= 0 && recv == Failed ==> ret == -EIO)
              && (wanted >= 0 && recv == Nothing ==> ret == -ECONNRESET)
              && got == old(got) + (if wanted >= 0 && recv.Data? then recv.data else [])
      ensures old(delivered) <= delivered && old(firsts) <= firsts
      ensures var completed := |Split(got).frames| > |old(Split(got)).frames|;
              && (state == READY <==> completed && verdict < 0)
              && |delivered| == |old(delivered)| + (if completed then 1 else 0)
              && (got != old(got) ==> ret == if completed then verdict else 0)
    {
      WantIsWanted();
      if state == INIT {
        state := HEADER;
        offset := 0;
      }
      var size := Want();
      if size < 0 {
        return -ENOMEM;
      }
      match recv {
        case Failed =>
          return -EIO;
        case Nothing =>
          return -ECONNRESET;
        case Data(data) =>
          ret := Consume(data, verdict);
      }
    }
  }
}
