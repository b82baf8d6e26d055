/** Bytes, C integer widths and the little-endian layout in which the header and
    payload fields travel. */
module Bytes {

  type byte = b: int | 0 <= b < 256
  type bytes = seq<byte>

  const TWO_31: int := 0x8000_0000
  const TWO_32: int := 0x1_0000_0000
  const TWO_64: int := 0x1_0000_0000_0000_0000

  type int32 = i: int | -TWO_31 <= i < TWO_31
  type word32 = w: int | 0 <= w < TWO_32
  type word64 = w: int | 0 <= w < TWO_64

  /** What a C conversion to `int` leaves of an arbitrary integer. */
  function ToInt32(i: int): (r: int32)
    ensures (r - i) % TWO_32 == 0
    ensures -TWO_31 <= i < TWO_31 ==> r == i
  {
    var w := i % TWO_32;
    if w < TWO_31 then w else w - TWO_32
  }

  function Min(a: int, b: int): int {
    if a < b then a else b
  }

  function Power256(k: nat): (p: nat)
    ensures p > 0
  {
    if k == 0 then 1 else 256 * Power256(k - 1)
  }

  /** The `k` low-order bytes of `n`, least significant first. */
  function LittleEndian(n: nat, k: nat): (s: bytes)
    ensures |s| == k
  {
    if k == 0 then [] else [n % 256] + LittleEndian(n / 256, k - 1)
  }

  function FromLittleEndian(s: bytes): nat {
    if s == [] then 0 else s[0] + 256 * FromLittleEndian(s[1..])
  }

  lemma {:induction false} LittleEndianRoundTrip(n: nat, k: nat)
    requires n < Power256(k)
    ensures FromLittleEndian(LittleEndian(n, k)) == n
  {
    if k == 0 {
    } else {
      LittleEndianRoundTrip(n / 256, k - 1);
    }
  }

  lemma {:induction false} LittleEndianOnto(s: bytes)
    ensures FromLittleEndian(s) < Power256(|s|)
    ensures LittleEndian(FromLittleEndian(s), |s|) == s
  {
    if s == [] {
    } else {
      LittleEndianOnto(s[1..]);
    }
  }

  lemma Widths()
    ensures Power256(4) == TWO_32 && Power256(8) == TWO_64
  {
    assert Power256(3) == 256 * Power256(2);
    assert Power256(2) == 256 * Power256(1);
    assert Power256(6) == 256 * Power256(5);
    assert Power256(8) == 256 * Power256(7);
    assert Power256(7) == 256 * Power256(6);
    assert Power256(5) == 256 * Power256(4);
  }

  function EncodeWord32(w: word32): (s: bytes)
    ensures |s| == 4
  {
    LittleEndian(w, 4)
  }

  function EncodeWord64(w: word64): (s: bytes)
    ensures |s| == 8
  {
    LittleEndian(w, 8)
  }

  /** Two's complement. */
  function EncodeInt32(i: int32): (s: bytes)
    ensures |s| == 4
  {
    LittleEndian(i % TWO_32, 4)
  }

  function DecodeWord32(s: bytes): word32
    requires |s| == 4
  {
    LittleEndianOnto(s);
    Widths();
    FromLittleEndian(s)
  }

  function DecodeWord64(s: bytes): word64
    requires |s| == 8
  {
    LittleEndianOnto(s);
    Widths();
    FromLittleEndian(s)
  }

  function DecodeInt32(s: bytes): int32
    requires |s| == 4
  {
    ToInt32(DecodeWord32(s))
  }

  lemma ScalarRoundTrips()
    ensures forall w: word32 :: DecodeWord32(EncodeWord32(w)) == w
    ensures forall w: word64 :: DecodeWord64(EncodeWord64(w)) == w
    ensures forall i: int32 :: DecodeInt32(EncodeInt32(i)) == i
  {
    Widths();
    forall w: word32 ensures DecodeWord32(EncodeWord32(w)) == w {
      LittleEndianRoundTrip(w, 4);
    }
    forall w: word64 ensures DecodeWord64(EncodeWord64(w)) == w {
      LittleEndianRoundTrip(w, 8);
    }
    forall i: int32 ensures DecodeInt32(EncodeInt32(i)) == i {
      LittleEndianRoundTrip(i % TWO_32, 4);
    }
  }

  /** The order of the bytes, and what a negative number looks like. */
  lemma LeastFirst()
    ensures EncodeInt32(0x0403_0201) == [1, 2, 3, 4]
    ensures EncodeInt32(-2) == [254, 255, 255, 255]
  {
    FirstByte(0x0403_0201, 4);
    FirstByte(0x04_0302, 3);
    FirstByte(0x0403, 2);
    FirstByte(4, 1);
    FirstByte(0xFFFF_FFFE, 4);
    FirstByte(0xFF_FFFF, 3);
    FirstByte(0xFFFF, 2);
    FirstByte(255, 1);
  }

  lemma FirstByte(n: nat, k: nat)
    requires k > 0
    ensures LittleEndian(n, k) == [n % 256] + LittleEndian(n / 256, k - 1)
  {
  }
}
