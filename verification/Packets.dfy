/** The packet header and the frame it makes with its payload (the 64-bit layout of
    `struct data`: 72 bytes, a multiple of 8). */
module Packets {
  import opened Bytes
  import opened Options
  import opened Wire

  const HEADER_SIZE: nat := 72
  const SIZE_AT: nat := 4
  const MASK_AT: nat := 64
  const MAX_CMD: nat := 24

  /** 0xFFFFFFFF in an eight-byte mask field. */
  const DEFAULT_MASK: word64 := TWO_32 - 1

  const PACKET_REQ: word32 := 0
  const PACKET_ACK: word32 := 1
  const PACKET_REQ_NOACK: word32 := 2

  datatype Header = Header(
    version: int32, payloadSize: int32, command: bytes, kind: word32, flag: word32,
    sequence: word64, source: word64, destination: word64, mask: word64)
  {
    predicate Valid() {
      |command| == MAX_CMD
    }
  }

  function EncodeHeader(h: Header): (b: bytes)
    requires h.Valid()
    ensures |b| == HEADER_SIZE
  {
    EncodeInt32(h.version) + EncodeInt32(h.payloadSize) + h.command + EncodeWord32(h.kind)
    + EncodeWord32(h.flag) + EncodeWord64(h.sequence) + EncodeWord64(h.source)
    + EncodeWord64(h.destination) + EncodeWord64(h.mask)
  }

  function DecodeHeader(b: bytes): (h: Header)
    requires |b| >= HEADER_SIZE
    ensures h.Valid()
  {
    Header(DecodeInt32(b[0..4]), DecodeInt32(b[4..8]), b[8..32], DecodeWord32(b[32..36]),
           DecodeWord32(b[36..40]), DecodeWord64(b[40..48]), DecodeWord64(b[48..56]),
           DecodeWord64(b[56..64]), DecodeWord64(b[64..72]))
  }

  lemma HeaderLayout(h: Header, payload: bytes)
    requires h.Valid()
    ensures var b := EncodeHeader(h) + payload;
            b[0..4] == EncodeInt32(h.version) && b[4..8] == EncodeInt32(h.payloadSize)
            && b[8..32] == h.command && b[32..36] == EncodeWord32(h.kind)
            && b[36..40] == EncodeWord32(h.flag) && b[40..48] == EncodeWord64(h.sequence)
            && b[48..56] == EncodeWord64(h.source) && b[56..64] == EncodeWord64(h.destination)
            && b[64..72] == EncodeWord64(h.mask) && b[72..] == payload
  {
    var version, size, kind, flag :=
      EncodeInt32(h.version), EncodeInt32(h.payloadSize), EncodeWord32(h.kind), EncodeWord32(h.flag);
    var front := version + size + h.command + kind + flag;
    var sequence, source, destination, mask :=
      EncodeWord64(h.sequence), EncodeWord64(h.source), EncodeWord64(h.destination), EncodeWord64(h.mask);
    var back := sequence + source + destination + mask;
    FiveParts(version, size, h.command, kind, flag);
    FiveParts(sequence, source, destination, mask, payload);
    var b := EncodeHeader(h) + payload;
    assert b == front + (back + payload);
    Shifted(front, back + payload, 0, 8);
    Shifted(front, back + payload, 8, 16);
    Shifted(front, back + payload, 16, 24);
    Shifted(front, back + payload, 24, 32);
    assert b[0..4] == front[0..4] && b[4..8] == front[4..8] && b[8..32] == front[8..32];
    assert b[32..36] == front[32..36] && b[36..40] == front[36..40];
    assert b[72..] == (back + payload)[32..];
  }

  lemma FiveParts(a: bytes, b: bytes, c: bytes, d: bytes, e: bytes)
    ensures var s := a + b + c + d + e;
            var i, j, k, m := |a|, |a| + |b|, |a| + |b| + |c|, |a| + |b| + |c| + |d|;
            s[0..i] == a && s[i..j] == b && s[j..k] == c && s[k..m] == d && s[m..] == e
  {
  }

  lemma Shifted(front: bytes, back: bytes, i: nat, j: nat)
    requires i <= j <= |back|
    ensures (front + back)[|front| + i..|front| + j] == back[i..j]
  {
  }

  lemma HeaderRoundTrip(h: Header, payload: bytes)
    requires h.Valid()
    ensures DecodeHeader(EncodeHeader(h) + payload) == h
  {
    HeaderLayout(h, payload);
    ScalarRoundTrips();
  }

  /** `packet_size`: header plus payload size, narrowed to an `int`. */
  function FrameSize(b: bytes): (r: int32)
    requires |b| >= HEADER_SIZE
  {
    ToInt32(HEADER_SIZE + DecodeInt32(b[SIZE_AT..SIZE_AT + 4]))
  }

  /** A frame whose header announces its own length. */
  predicate WellFormed(f: bytes) {
    |f| >= HEADER_SIZE && FrameSize(f) == |f|
  }

  predicate DefaultMask(f: bytes) {
    |f| >= HEADER_SIZE && f[MASK_AT..HEADER_SIZE] == EncodeWord64(DEFAULT_MASK)
  }

  datatype Packet = Packet(head: Header, payload: bytes) {
    predicate Valid() {
      head.Valid() && head.payloadSize == |payload| && HEADER_SIZE + |payload| < TWO_31
    }
  }

  function Frame(p: Packet): bytes
    requires p.Valid()
  {
    EncodeHeader(p.head) + p.payload
  }

  function Unframe(f: bytes): Packet
    requires |f| >= HEADER_SIZE
  {
    Packet(DecodeHeader(f), f[HEADER_SIZE..])
  }

  lemma FrameRoundTrip(p: Packet)
    requires p.Valid()
    ensures WellFormed(Frame(p)) && Unframe(Frame(p)) == p
    ensures p.head.mask == DEFAULT_MASK ==> DefaultMask(Frame(p))
  {
    HeaderRoundTrip(p.head, p.payload);
    HeaderLayout(p.head, p.payload);
    ScalarRoundTrips();
  }

  // ---------------------------------------------------------------- made headers

  const VERSION: int32 := 3
  const CMD_INT_TAG: byte := 1

  function Zeros(n: nat): (s: bytes)
    ensures |s| == n && forall i :: 0 <= i < n ==> s[i] == 0
  {
    seq(n, _ => 0)
  }

  /** There is a command at `cmd`: a tagged number in four bytes, or a string. */
  predicate Legible(cmd: bytes) {
    cmd != [] && if cmd[0] == CMD_INT_TAG then |cmd| >= 4 else StringEnd(cmd, 0) < |cmd|
  }

  /** It fits the field of the header. */
  predicate Fits(cmd: bytes) {
    StringEnd(cmd, 0) < MAX_CMD
  }

  /** The field of a zeroed header after the command has been copied to it. */
  function CommandField(cmd: bytes): (field: bytes)
    requires Legible(cmd) && (cmd[0] == CMD_INT_TAG || Fits(cmd))
    ensures |field| == MAX_CMD
  {
    var n := if cmd[0] == CMD_INT_TAG then 4 else StringEnd(cmd, 0);
    cmd[..n] + Zeros(MAX_CMD - n)
  }

  /** Both are read as the same command. */
  predicate SameCommand(a: bytes, b: bytes) {
    && Legible(a) && Legible(b) && a[0] == b[0]
    && if a[0] == CMD_INT_TAG then a[..4] == b[..4] else a[..StringEnd(a, 0)] == b[..StringEnd(b, 0)]
  }

  /** The header of `packet_create` and `packet_create_noack`, which refuse a command that is
      too long. */
  function CreatedHeader(cmd: bytes, kind: word32, sequence: word64, payloadSize: int32): Option<Header>
    requires Legible(cmd)
  {
    if !Fits(cmd) then None
    else Some(Header(VERSION, payloadSize, CommandField(cmd), kind, 0, sequence, 0, 0, DEFAULT_MASK))
  }

  /** The header `packet_create_reply` derives from a request. `strcpy` asks for a string
      that ends in the field. */
  function ReplyHeader(h: Header, payloadSize: int32): (r: Header)
    requires h.Valid() && Legible(h.command)
    ensures r.Valid()
  {
    Header(h.version, payloadSize, CommandField(h.command), PACKET_ACK, 0, h.sequence, h.destination, h.source,
           DEFAULT_MASK)
  }

  lemma FieldIsCommand(cmd: bytes)
    requires Legible(cmd) && (cmd[0] == CMD_INT_TAG || Fits(cmd))
    ensures var field := CommandField(cmd);
            SameCommand(cmd, field) && Fits(field) && CommandField(field) == field
  {
    var field := CommandField(cmd);
    if cmd[0] == CMD_INT_TAG {
      assert field[..4] == cmd[..4] && field[0] == cmd[..4][0];
      assert field[4] == 0 && field[0..MAX_CMD] == field;
    } else {
      var n := StringEnd(cmd, 0);
      StringEndAt(field, 0, cmd[..n]) by {
        assert cmd[..n] == cmd[0..n];
        assert field[0..n + 1] == cmd[..n] + [0];
      }
      assert field[..n] == cmd[..n];
      assert n > 0 ==> field[0] == cmd[0];
    }
  }

  /** A created packet is the one asked for, with its command in a field of its own, unless the
      command is too long. */
  lemma CreatedIs(cmd: bytes, kind: word32, sequence: word64, payloadSize: int32)
    requires Legible(cmd)
    ensures var r := CreatedHeader(cmd, kind, sequence, payloadSize);
            && (r.Some? <==> StringEnd(cmd, 0) < MAX_CMD)
            && (r.Some? ==>
                  var h := r.value;
                  && h.Valid() && h.version == VERSION && SameCommand(cmd, h.command) && Fits(h.command)
                  && h.kind == kind && h.sequence == sequence && h.payloadSize == payloadSize
                  && h.mask == DEFAULT_MASK && h.source == 0 && h.destination == 0)
  {
    if Fits(cmd) {
      FieldIsCommand(cmd);
    }
  }

  /** A reply is an ACK with the number, the version and the command of its request; it goes
      to where that came from, and what is said to it in turn comes back. */
  lemma ReplyGoesBack(h: Header, payloadSize: int32, more: int32)
    requires h.Valid() && Legible(h.command)
    ensures var r := ReplyHeader(h, payloadSize);
            && r.kind == PACKET_ACK && r.sequence == h.sequence && r.version == h.version
            && r.payloadSize == payloadSize && r.mask == DEFAULT_MASK
            && r.destination == h.source && r.source == h.destination
            && SameCommand(h.command, r.command) && Fits(r.command)
            && ReplyHeader(r, more) == r.(source := h.source, destination := h.destination, payloadSize := more)
  {
    FieldIsCommand(h.command);
  }
}
