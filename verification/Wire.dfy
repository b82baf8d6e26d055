/** Payload marshalling: `packet_body_filler` writes a list of typed arguments behind
    alignment padding, `packet_get` reads them back under a format string.

    The payload starts on an 8-byte boundary, so the padding of a field depends on its
    offset alone. Nothing depends on what padding bytes hold. */
module Wire {
  import opened Bytes
  import opened Options
  import opened Sequences

  /** A C string: no NUL inside. */
  type cstring = s: bytes | 0 !in s

  datatype Kind = KInt | KDouble | KStr

  /** One variadic argument of `packet_create`; a double is its 64-bit pattern. */
  datatype Arg = IntArg(i: int32) | DoubleArg(d: word64) | StrArg(s: Option<cstring>)

  /** One value stored through a pointer argument of `packet_get`. */
  datatype Value = IntVal(i: int32) | DoubleVal(d: word64) | StrVal(s: cstring)

  function KindOf(c: char): Option<Kind> {
    if c == 'i' || c == 'I' then Some(KInt)
    else if c == 's' || c == 'S' then Some(KStr)
    else if c == 'd' || c == 'D' then Some(KDouble)
    else None
  }

  function ArgKind(a: Arg): Kind {
    match a
    case IntArg(_) => KInt
    case DoubleArg(_) => KDouble
    case StrArg(_) => KStr
  }

  function Alignment(k: Kind): (n: nat)
    ensures n > 0
  {
    match k
    case KInt => 4
    case KDouble => 8
    case KStr => 1
  }

  /** The least number of bytes that brings `off` to the alignment of `k`. */
  function Padding(off: nat, k: Kind): (pad: nat)
    ensures (off + pad) % Alignment(k) == 0
    ensures pad < Alignment(k)
  {
    match k
    case KInt => (4 - off % 4) % 4
    case KDouble => (8 - off % 8) % 8
    case KStr => 0
  }

  function Encode(a: Arg): (s: bytes)
    ensures |s| > 0
  {
    match a
    case IntArg(i) => EncodeInt32(i)
    case DoubleArg(d) => EncodeWord64(d)
    case StrArg(None) => [0]
    case StrArg(Some(s)) => s + [0]
  }

  /** The characters of a format, with either case, and the size and the alignment of a field of
      each kind; an argument ends where its own bytes end. */
  lemma KindNames(c: char, a: Arg)
    ensures KindOf(c).Some? <==> c in "iIsSdD"
    ensures c in "iI" <==> KindOf(c) == Some(KInt)
    ensures c in "sS" <==> KindOf(c) == Some(KStr)
    ensures c in "dD" <==> KindOf(c) == Some(KDouble)
    ensures a.IntArg? ==> |Encode(a)| == Alignment(ArgKind(a)) == 4
    ensures a.DoubleArg? ==> |Encode(a)| == Alignment(ArgKind(a)) == 8
    ensures a.StrArg? ==> Alignment(ArgKind(a)) == 1 && |Encode(a)| == |Readback(a).s| + 1
  {
  }

  /** What a reader sees of a written argument: NULL strings read back as empty. */
  function Readback(a: Arg): Value {
    match a
    case IntArg(i) => IntVal(i)
    case DoubleArg(d) => DoubleVal(d)
    case StrArg(None) => StrVal([])
    case StrArg(Some(s)) => StrVal(s)
  }

  function ReadbackAll(args: seq<Arg>): (vs: seq<Value>)
    ensures |vs| == |args|
    ensures forall i :: 0 <= i < |args| ==> vs[i] == Readback(args[i])
  {
    seq(|args|, i requires 0 <= i < |args| => Readback(args[i]))
  }

  /** The remainder taken off the alignment, as both loops of the source compute it. */
  method AlignmentGap(off: nat, k: Kind) returns (align: nat)
    ensures align == Padding(off, k)
  {
    align := 0;
    match k {
      case KInt =>
        align := off % 4;
        if align != 0 {
          align := 4 - align;
        }
      case KDouble =>
        align := off % 8;
        if align != 0 {
          align := 8 - align;
        }
      case KStr =>
    }
  }

  /** Where the field after `a` begins when `a` is placed at `off`. */
  function Next(a: Arg, off: nat): (next: nat)
    ensures next > off
  {
    off + Padding(off, ArgKind(a)) + |Encode(a)|
  }

  ghost predicate FieldAt(a: Arg, p: bytes, off: nat) {
    Next(a, off) <= |p| && p[Next(a, off) - |Encode(a)|..Next(a, off)] == Encode(a)
  }

  /** `p` from offset `off` on holds exactly `args`, each behind its padding. */
  ghost predicate Marshalled(args: seq<Arg>, p: bytes, off: nat) {
    if args == [] then off == |p|
    else FieldAt(args[0], p, off) && Marshalled(args[1..], p, Next(args[0], off))
  }

  /** The first `n` characters of the format are valid and name the kinds of the first
      `n` arguments. */
  ghost predicate Agree(fmt: string, args: seq<Arg>, n: nat) {
    n <= |fmt| && n <= |args|
    && forall i :: 0 <= i < n ==> KindOf(fmt[i]) == Some(ArgKind(args[i]))
  }

  ghost predicate ValidUpTo(fmt: string, n: nat) {
    n <= |fmt| && forall i :: 0 <= i < n ==> KindOf(fmt[i]).Some?
  }

  /** The caller passes an argument of the right kind for every character up to the first
      invalid one. */
  ghost predicate Supplies(fmt: string, args: seq<Arg>) {
    forall n :: ValidUpTo(fmt, n) ==> Agree(fmt, args, n)
  }

  lemma FieldAtLonger(a: Arg, p: bytes, q: bytes, off: nat)
    requires FieldAt(a, p, off) && p <= q
    ensures FieldAt(a, q, off)
  {
    var n, m := Next(a, off), |Encode(a)|;
    assert q[n - m..n] == p[n - m..n];
  }

  lemma FieldAtEnd(a: Arg, p: bytes, gap: bytes)
    requires |gap| == Padding(|p|, ArgKind(a))
    ensures FieldAt(a, p + gap + Encode(a), |p|)
    ensures Next(a, |p|) == |p + gap + Encode(a)|
  {
    var enc := Encode(a);
    assert (p + gap + enc)[|p| + |gap|..|p| + |gap| + |enc|] == enc;
  }

  lemma {:induction false} MarshalledAppend(args: seq<Arg>, a: Arg, p: bytes, gap: bytes, off: nat)
    requires Marshalled(args, p, off)
    requires |gap| == Padding(|p|, ArgKind(a))
    ensures Marshalled(args + [a], p + gap + Encode(a), off)
  {
    var q := p + gap + Encode(a);
    if args == [] {
      FieldAtEnd(a, p, gap);
      assert args + [a] == [a] && [a][1..] == [];
    } else {
      assert p <= q;
      FieldAtLonger(args[0], p, q, off);
      MarshalledAppend(args[1..], a, p, gap, Next(args[0], off));
      assert (args + [a])[0] == args[0] && (args + [a])[1..] == args[1..] + [a];
    }
  }

  // ---------------------------------------------------------------- reading

  /** Index of the first NUL at or after `off`, or the length when there is none. */
  function StringEnd(p: bytes, off: nat): (e: nat)
    requires off <= |p|
    ensures off <= e <= |p|
    ensures e < |p| ==> p[e] == 0
    ensures 0 !in p[off..e]
    decreases |p| - off
  {
    if off == |p| || p[off] == 0 then off
    else
      var e := StringEnd(p, off + 1);
      assert p[off..e] == [p[off]] + p[off + 1..e];
      e
  }

  /** Reads one field at `off`; absent when it would run past the payload. */
  function ReadField(k: Kind, p: bytes, off: nat): (r: Option<(Value, nat)>)
    requires off <= |p|
    ensures r.Some? ==> off < r.value.1 <= |p|
  {
    var start := off + Padding(off, k);
    match k
    case KInt =>
      if start + 4 <= |p| then Some((IntVal(DecodeInt32(p[start..start + 4])), start + 4)) else None
    case KDouble =>
      if start + 8 <= |p| then Some((DoubleVal(DecodeWord64(p[start..start + 8])), start + 8)) else None
    case KStr =>
      var e := StringEnd(p, off);
      if e < |p| then Some((StrVal(p[off..e]), e + 1)) else None
  }

  datatype Status = Done | BadFormat | OutOfBounds

  /** The values stored, and how the reading ended. */
  datatype Reading = Reading(values: seq<Value>, status: Status)

  /** Reading stops at the end of the format or of the payload, whichever comes first. */
  function Unmarshal(fmt: string, p: bytes, off: nat): (r: Reading)
    requires off <= |p|
    ensures |r.values| <= |fmt|
  {
    if fmt == "" || off == |p| then Reading([], Done)
    else match KindOf(fmt[0])
    case None => Reading([], BadFormat)
    case Some(k) =>
      match ReadField(k, p, off)
      case None => Reading([], OutOfBounds)
      case Some((v, next)) =>
        var rest := Unmarshal(fmt[1..], p, next);
        Reading([v] + rest.values, rest.status)
  }

  const EINVAL := 22

  /** `strlen` on the payload. */
  method StrLen(p: bytes, off: nat) returns (n: nat)
    requires off <= |p| && StringEnd(p, off) < |p|
    ensures off + n == StringEnd(p, off)
  {
    n := 0;
    while p[off + n] != 0
      invariant off + n < |p|
      invariant StringEnd(p, off + n) == StringEnd(p, off)
      decreases |p| - n
    {
      n := n + 1;
    }
  }

  /** The reading `r` behind the values `got` before. */
  function Behind(got: seq<Value>, r: Reading): Reading {
    Reading(got + r.values, r.status)
  }

  lemma StoreNext(got: seq<Value>, before: seq<Value>, value: Value)
    requires |got| < |before|
    ensures (got + before[|got|..])[|got| := value] == (got + [value]) + before[|got| + 1..]
  {
  }

  lemma UnmarshalStart(fmt: string, p: bytes)
    ensures Behind([], Unmarshal(fmt[0..], p, 0)) == Unmarshal(fmt, p, 0)
  {
    assert fmt[0..] == fmt;
    assert [] + Unmarshal(fmt, p, 0).values == Unmarshal(fmt, p, 0).values;
  }

  lemma UnmarshalEnd(fmt: string, p: bytes, off: nat, got: seq<Value>)
    requires off <= |p| && (fmt == "" || off == |p|)
    ensures Behind(got, Unmarshal(fmt, p, off)) == Reading(got, Done)
  {
  }

  lemma UnmarshalStep(fmt: string, k: nat, p: bytes, off: nat, got: seq<Value>)
    requires k < |fmt| && off < |p|
    ensures KindOf(fmt[k]) == None ==> Behind(got, Unmarshal(fmt[k..], p, off)) == Reading(got, BadFormat)
    ensures KindOf(fmt[k]).Some? && ReadField(KindOf(fmt[k]).value, p, off) == None ==>
              Unmarshal(fmt[k..], p, off).status == OutOfBounds
    ensures KindOf(fmt[k]).Some? && ReadField(KindOf(fmt[k]).value, p, off).Some? ==>
              var field := ReadField(KindOf(fmt[k]).value, p, off).value;
              Behind(got, Unmarshal(fmt[k..], p, off)) == Behind(got + [field.0], Unmarshal(fmt[k + 1..], p, field.1))
  {
    assert fmt[k..][0] == fmt[k] && fmt[k..][1..] == fmt[k + 1..];
    if KindOf(fmt[k]).Some? && ReadField(KindOf(fmt[k]).value, p, off).Some? {
      var field := ReadField(KindOf(fmt[k]).value, p, off).value;
      Associative(got, [field.0], Unmarshal(fmt[k + 1..], p, field.1).values);
    }
  }

  /** One turn of the switch in `packet_get`. */
  method GetField(k: Kind, p: bytes, off: nat) returns (value: Value, next: nat)
    requires off <= |p| && ReadField(k, p, off).Some?
    ensures ReadField(k, p, off) == Some((value, next))
  {
    var align := AlignmentGap(off, k);
    match k {
      case KInt =>
        value := IntVal(DecodeInt32(p[off + align..off + align + 4]));
        next := off + 4 + align;
      case KDouble =>
        value := DoubleVal(DecodeWord64(p[off + align..off + align + 8]));
        next := off + 8 + align;
      case KStr =>
        var n := StrLen(p, off);
        value := StrVal(p[off..off + n]);
        next := off + n + 1;
    }
  }

  /** `packet_get`: stores one value per format character through `outs` and returns how
      many, or -EINVAL at an invalid character. Reading past the payload is undefined in
      the source and excluded here. */
  method PacketGet(p: bytes, fmt: string, outs: array<Value>) returns (ret: int)
    requires Unmarshal(fmt, p, 0).status != OutOfBounds
    requires |fmt| <= outs.Length
    modifies outs
    ensures var r := Unmarshal(fmt, p, 0);
            ret == (if r.status == BadFormat then -EINVAL else |r.values|)
            && outs[..] == r.values + old(outs[..])[|r.values|..]
  {
    var k, offset := 0, 0;
    ghost var got, before: seq<Value> := [], outs[..];
    ghost var whole := Unmarshal(fmt, p, 0);
    UnmarshalStart(fmt, p);
    while k < |fmt| && offset < |p|
      invariant 0 <= k == |got| <= |fmt| && 0 <= offset <= |p|
      invariant whole == Behind(got, Unmarshal(fmt[k..], p, offset))
      invariant outs[..] == got + before[k..]
    {
      UnmarshalStep(fmt, k, p, offset, got);
      var kind := KindOf(fmt[k]);
      if kind == None {
        return -EINVAL;
      }
      var value: Value;
      value, offset := GetField(kind.value, p, offset);
      StoreNext(got, before, value);
      outs[k] := value;
      got := got + [value];
      k := k + 1;
    }
    UnmarshalEnd(fmt[k..], p, offset, got);
    return k;
  }

  // ---------------------------------------------------------------- laws

  lemma StringEndAt(p: bytes, off: nat, s: cstring)
    requires off + |s| < |p|
    requires p[off..off + |s| + 1] == s + [0]
    ensures StringEnd(p, off) == off + |s|
  {
    var t := s + [0];
    assert t[|s|] == 0;
    assert p[off..off + |s| + 1][|s|] == p[off + |s|];
    assert p[off..off + |s|] == s by {
      assert p[off..off + |s|] == p[off..off + |s| + 1][..|s|];
    }
  }

  lemma ReadFieldOfEncode(a: Arg, p: bytes, off: nat)
    requires FieldAt(a, p, off)
    ensures ReadField(ArgKind(a), p, off) == Some((Readback(a), Next(a, off)))
  {
    ScalarRoundTrips();
    match a
    case IntArg(i) =>
    case DoubleArg(d) =>
    case StrArg(None) =>
      assert p[off..off + 1] == [] + [0];
      ReadStringAt(p, off, []);
    case StrArg(Some(s)) =>
      ReadStringAt(p, off, s);
  }

  lemma ReadStringAt(p: bytes, off: nat, s: cstring)
    requires off + |s| < |p| && p[off..off + |s| + 1] == s + [0]
    ensures ReadField(KStr, p, off) == Some((StrVal(s), off + |s| + 1))
  {
    StringEndAt(p, off, s);
    assert p[off..off + |s|] == p[off..off + |s| + 1][..|s|];
  }

  lemma {:induction false} MarshalledBound(args: seq<Arg>, p: bytes, off: nat)
    requires Marshalled(args, p, off)
    ensures off <= |p| && (args != [] ==> off < |p|)
  {
    if args != [] {
      MarshalledBound(args[1..], p, Next(args[0], off));
    }
  }

  /** A marshalled payload, read under a format that agrees with it as far as both go:
      the values come back, and reading ends with whichever is shorter. This covers the
      format the payload was written with, every prefix of it and every extension, even
      one that goes on with invalid characters. */
  lemma {:induction false} UnmarshalMarshalled(fmt: string, args: seq<Arg>, p: bytes, off: nat)
    requires off <= |p| && Marshalled(args, p, off)
    requires Agree(fmt, args, Min(|fmt|, |args|))
    ensures Unmarshal(fmt, p, off) == Reading(ReadbackAll(args[..Min(|fmt|, |args|)]), Done)
  {
    if fmt == "" || args == [] {
    } else {
      var n := Min(|fmt|, |args|);
      AgreeTail(fmt, args, n);
      ReadFieldOfEncode(args[0], p, off);
      MarshalledBound(args[1..], p, Next(args[0], off));
      UnmarshalMarshalled(fmt[1..], args[1..], p, Next(args[0], off));
      ReadbackHead(args, n);
    }
  }

  lemma AgreeTail(fmt: string, args: seq<Arg>, n: nat)
    requires 0 < n && Agree(fmt, args, n)
    ensures Agree(fmt[1..], args[1..], n - 1) && KindOf(fmt[0]) == Some(ArgKind(args[0]))
  {
    assert forall i :: 0 <= i < n - 1 ==> fmt[1..][i] == fmt[i + 1] && args[1..][i] == args[i + 1];
  }

  lemma ReadbackHead(args: seq<Arg>, n: nat)
    requires 0 < n <= |args|
    ensures ReadbackAll(args[..n]) == [Readback(args[0])] + ReadbackAll(args[1..][..n - 1])
  {
  }

  /** What was written under a format reads back under it. */
  lemma RoundTrip(fmt: string, args: seq<Arg>, p: bytes)
    requires |fmt| == |args| && Agree(fmt, args, |args|) && Marshalled(args, p, 0)
    ensures Unmarshal(fmt, p, 0) == Reading(ReadbackAll(args), Done)
  {
    assert args[..|args|] == args;
    UnmarshalMarshalled(fmt, args, p, 0);
  }

  /** A payload determines what was written: no two argument lists of the same format,
      beyond NULL against the empty string, share a payload. */
  lemma MarshalledInjective(fmt: string, a: seq<Arg>, b: seq<Arg>, p: bytes)
    requires |a| == |b| == |fmt| && Agree(fmt, a, |a|) && Agree(fmt, b, |b|)
    requires Marshalled(a, p, 0) && Marshalled(b, p, 0)
    ensures ReadbackAll(a) == ReadbackAll(b)
  {
    RoundTrip(fmt, a, p);
    RoundTrip(fmt, b, p);
  }
}
