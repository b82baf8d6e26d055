/** `packet_body_filler`: the arguments of a packet are written into a block that grows as they
    come. Whether the packet holds them in the end depends on the memory. */
module PacketBody {
  import opened Bytes
  import opened Options
  import opened PacketBlock
  import opened Wire

  /** Where argument `k` ends. */
  function ArgEnd(args: seq<Arg>, k: nat): (end: nat)
    requires k < |args|
  {
    Next(args[k], if k == 0 then 0 else ArgEnd(args, k - 1))
  }

  function Place(args: seq<Arg>, k: nat): (f: Field)
    requires k < |args|
    ensures f.text == Encode(args[k]) && f.End() == ArgEnd(args, k)
  {
    Field(ArgEnd(args, k) - |Encode(args[k])|, Encode(args[k]))
  }

  /** The arguments as fields, each behind its padding. */
  function Layout(args: seq<Arg>): (fields: seq<Field>)
    ensures |fields| == |args|
    ensures forall k :: 0 <= k < |args| ==> fields[k] == Place(args, k)
  {
    seq(|args|, k requires 0 <= k < |args| => Place(args, k))
  }

  lemma {:induction false} ArgEndsAscend(args: seq<Arg>, j: nat, k: nat)
    requires j < k < |args|
    ensures ArgEnd(args, j) <= Place(args, k).at
  {
    if j < k - 1 {
      ArgEndsAscend(args, j, k - 1);
    }
  }

  lemma LayoutIsOrdered(args: seq<Arg>)
    ensures Ordered(Layout(args))
  {
    forall j, k | 0 <= j < k < |args| ensures ArgEnd(args, j) <= Place(args, k).at {
      ArgEndsAscend(args, j, k);
    }
  }

  /** An argument put behind what is there. */
  function Extended(b: Block, a: Arg, g: growth): Block {
    Put(b, Field(b.size + Padding(b.size, ArgKind(a)), Encode(a)), g)
  }

  /** The packet after the first `n` arguments. */
  function Body(args: seq<Arg>, env: seq<growth>, n: nat): Block
    requires n <= |args| && n <= |env|
  {
    if n == 0 then FRESH else Extended(Body(args, env, n - 1), args[n - 1], env[n - 1])
  }

  lemma PutAllExtends(args: seq<Arg>, env: seq<growth>, k: nat)
    requires k < |args| && k < |env|
    ensures PutAll(Layout(args), env, k + 1) == Extended(PutAll(Layout(args), env, k), args[k], env[k])
  {
    PutAllSize(Layout(args), env, k);
  }

  lemma {:induction false} BodyIsPutAll(args: seq<Arg>, env: seq<growth>, n: nat)
    requires n <= |args| && n <= |env|
    ensures Body(args, env, n) == PutAll(Layout(args), env, n)
  {
    if n > 0 {
      BodyIsPutAll(args, env, n - 1);
      PutAllExtends(args, env, n - 1);
    }
  }

  /** The payload of the packet is what a reader takes to be `args`. */
  ghost predicate HoldsArgs(b: Block, args: seq<Arg>) {
    b.size <= |b.data| && Marshalled(args, b.data[..b.size], 0)
  }

  lemma TailMarshalled(args: seq<Arg>, p: bytes, k: nat, at: nat)
    requires k < |args|
    ensures Marshalled(args[k..], p, at) <==>
            FieldAt(args[k], p, at) && Marshalled(args[k + 1..], p, Next(args[k], at))
  {
    assert args[k..][0] == args[k] && args[k..][1..] == args[k + 1..];
  }

  lemma LaidIsFieldAt(a: Arg, at: nat, f: Field, p: bytes)
    requires f.text == Encode(a) && f.End() == Next(a, at)
    ensures Laid(f, p) <==> FieldAt(a, p, at)
  {
  }

  /** The switch of a reader, one argument on. */
  lemma MarshalledStep(args: seq<Arg>, p: bytes, fields: seq<Field>, k: nat)
    requires k < |args| && fields == Layout(args)
    ensures var at, end := EndOf(fields, k), EndOf(fields, k + 1);
            Marshalled(args[k..], p, at) <==> Laid(fields[k], p) && Marshalled(args[k + 1..], p, end)
  {
    var at, end := EndOf(fields, k), EndOf(fields, k + 1);
    assert end == Next(args[k], at);
    TailMarshalled(args, p, k, at);
    LaidIsFieldAt(args[k], at, fields[k], p);
  }

  lemma {:induction false} Chain(rest: nat -> bool, link: nat -> bool, k: nat, n: nat)
    requires k <= n && forall j :: k <= j < n ==> (rest(j) <==> link(j) && rest(j + 1))
    ensures rest(k) <==> rest(n) && forall j :: k <= j < n ==> link(j)
    decreases n - k
  {
    if k < n {
      Chain(rest, link, k + 1, n);
    }
  }

  lemma LaidIsMarshalled(args: seq<Arg>, p: bytes)
    ensures Marshalled(args, p, 0) <==>
            (EndOf(Layout(args), |args|) == |p| && forall k :: 0 <= k < |args| ==> Laid(Layout(args)[k], p))
  {
    var rest := (k: nat) => k <= |args| && Marshalled(args[k..], p, EndOf(Layout(args), k));
    var link := (k: nat) => k < |args| && Laid(Layout(args)[k], p);
    forall k | 0 <= k < |args| ensures rest(k) <==> link(k) && rest(k + 1) {
      MarshalledStep(args, p, Layout(args), k);
    }
    Chain(rest, link, 0, |args|);
    assert args[0..] == args && args[|args|..] == [];
    assert forall k :: 0 <= k < |args| ==> (link(k) <==> Laid(Layout(args)[k], p));
  }

  ghost predicate Laid(f: Field, p: bytes) {
    f.End() <= |p| && p[f.at..f.End()] == f.text
  }

  lemma LaidByByte(f: Field, p: bytes)
    requires |f.text| > 0
    ensures Laid(f, p) <==> InPlace(f, p)
  {
    if Laid(f, p) {
      forall i | 0 <= i < |f.text| ensures f.at + i < |p| && p[f.at + i] == f.text[i] {
        assert p[f.at..f.End()][i] == p[f.at + i];
      }
    }
    if InPlace(f, p) {
      var last := f.text[|f.text| - 1];
      assert f.End() <= |p|;
      assert p[f.at..f.End()] == f.text;
    }
  }

  /** In terms of the block. */
  lemma InPlaceInBlock(f: Field, b: Block)
    requires b.size <= |b.data| && f.End() <= b.size
    ensures InPlace(f, b.data[..b.size]) <==> InPlace(f, b.data)
  {
    var p := b.data[..b.size];
    assert forall k :: 0 <= k < b.size ==> p[k] == b.data[k];
  }

  /** Holding the fields and being read as the arguments are the same. */
  lemma HoldsIsMarshalled(b: Block, args: seq<Arg>)
    ensures HoldsArgs(b, args) <==> (b.size <= |b.data| && Holds(b, Layout(args), |args|))
  {
    LayoutIsOrdered(args);
    if b.size <= |b.data| && b.size == EndOf(Layout(args), |args|) {
      var fields, p := Layout(args), b.data[..b.size];
      forall k | 0 <= k < |args| ensures Laid(fields[k], p) <==> InPlace(fields[k], b.data) {
        LaidByByte(fields[k], p);
        InPlaceInBlock(fields[k], b);
      }
    }
    if b.size <= |b.data| {
      LaidIsMarshalled(args, b.data[..b.size]);
    }
  }

  /** Whatever the memory does, the packet holds its arguments if and only if they are safe:
      their fields end before the block does, or one of nothing but zeros ends just there and
      the others before the block has to grow again. */
  lemma HoldsArgsIffSafe(args: seq<Arg>)
    ensures (forall env: seq<growth> :: |env| == |args| ==> HoldsArgs(Body(args, env, |args|), args))
       <==> Safe(Layout(args), |args|)
  {
    LayoutIsOrdered(args);
    HoldsIffSafe(Layout(args));
    if Safe(Layout(args), |args|) {
      forall env: seq<growth> | |env| == |args| ensures HoldsArgs(Body(args, env, |args|), args) {
        SafeHoldsArgs(args, env);
      }
    } else {
      var env :| |env| == |args| && !Holds(PutAll(Layout(args), env, |args|), Layout(args), |args|);
      BodyIsPutAll(args, env, |args|);
      HoldsIsMarshalled(Body(args, env, |args|), args);
    }
  }

  lemma SafeHoldsArgs(args: seq<Arg>, env: seq<growth>)
    requires |env| == |args| && Safe(Layout(args), |args|)
    ensures HoldsArgs(Body(args, env, |args|), args)
  {
    LayoutIsOrdered(args);
    SafeHolds(Layout(args), env, |args|);
    BodyIsPutAll(args, env, |args|);
    HoldsIsMarshalled(Body(args, env, |args|), args);
  }

  /** What was written under a format reads back under it, if it is safe. */
  lemma SafeRoundTrip(fmt: string, args: seq<Arg>, env: seq<growth>)
    requires |fmt| == |args| == |env| && Agree(fmt, args, |args|) && Safe(Layout(args), |args|)
    ensures var b := Body(args, env, |args|);
            b.size <= |b.data| && Unmarshal(fmt, b.data[..b.size], 0) == Reading(ReadbackAll(args), Done)
  {
    var b := Body(args, env, |args|);
    SafeHoldsArgs(args, env);
    RoundTrip(fmt, args, b.data[..b.size]);
  }

  /** Arguments nobody reads do not matter. */
  lemma {:induction false} BodyOfPrefix(args: seq<Arg>, env: seq<growth>, n: nat, k: nat)
    requires k <= n <= |args| && n <= |env|
    ensures Body(args[..n], env[..n], k) == Body(args, env, k)
  {
    if k > 0 {
      BodyOfPrefix(args, env, n, k - 1);
      assert env[..n][k - 1] == env[k - 1];
    }
  }

  lemma SafeHoldsFirst(args: seq<Arg>, env: seq<growth>, n: nat)
    requires n <= |args| && n <= |env| && Safe(Layout(args[..n]), n)
    ensures HoldsArgs(Body(args, env, n), args[..n])
  {
    SafeHoldsArgs(args[..n], env[..n]);
    BodyOfPrefix(args, env, n, n);
  }

  /** A string of 8191 bytes or more (8192 with its NUL) is not safe, for one. */
  lemma LongStringIsUnsafe(s: cstring)
    ensures Safe(Layout([StrArg(Some(s))]), 1) <==> |s| < BUFSIZ - 1
  {
    var args := [StrArg(Some(s))];
    var f := Layout(args)[0];
    assert f == Field(0, s + [0]);
    if |s| > 0 {
      assert f.text[0] == s[0] != 0;
    }
  }

  // ---------------------------------------------------------------- writing

  /** The packet under construction: the payload part of its block and `head.payload_size`. */
  class PacketBuffer {
    var block: array<byte>
    var payloadSize: nat

    ghost function View(): Block
      reads this, block
    {
      Block(block[..], payloadSize)
    }

    constructor ()
      ensures fresh(block) && View() == FRESH
    {
      block := new byte[BUFSIZ](_ => 0);
      payloadSize := 0;
      new;
      assert block[..] == Filled(BUFSIZ, 0);
    }

    /** `check_and_expand_packet`: enlarges the block by BUFSIZ, whatever is needed. */
    method CheckAndExpand(g: growth)
      modifies this`block
      ensures block == old(block) || fresh(block)
      ensures block != old(block) <==> payloadSize >= old(block.Length)
      ensures block[..] == Expanded(old(block[..]), payloadSize, g)
    {
      if payloadSize < block.Length {
        return;
      }
      var grown := new byte[block.Length + BUFSIZ];
      forall i | 0 <= i < grown.Length {
        grown[i] := if i < block.Length then block[i] else g.added[i - block.Length];
      }
      block := grown;
    }

    /** The bytes of the field that fall into `target`. */
    static method Write(target: array<byte>, f: Field)
      modifies target
      ensures target[..] == Overlay(old(target[..]), f)
    {
      var i := 0;
      while i < |f.text|
        invariant 0 <= i <= |f.text|
        invariant forall j :: 0 <= j < target.Length ==>
                    target[j] == if f.at <= j < f.at + i then f.text[j - f.at] else old(target[j])
      {
        if f.at + i < target.Length {
          target[f.at + i] := f.text[i];
        }
        i := i + 1;
      }
    }

    /** One turn of the switch: the payload pointer is taken before the block grows. */
    method PutArg(a: Arg, g: growth)
      modifies this, block
      ensures block == old(block) || fresh(block)
      ensures View() == Extended(old(View()), a, g)
    {
      var payload := block;
      var align := AlignmentGap(payloadSize, ArgKind(a));
      var field := Field(payloadSize + align, Encode(a));
      payloadSize := field.End();
      CheckAndExpand(g);
      ghost var data := block[..];
      // A block enlarged in place is still where the pointer points.
      if block != payload && g.moved {
        Write(payload, field);
        assert block[..] == data;
      } else {
        Write(block, field);
        assert block[..] == Overlay(data, field);
      }
    }

    /** The same, as one of a list of arguments. */
    method PutNext(a: Arg, g: growth, ghost args: seq<Arg>, ghost env: seq<growth>, ghost k: nat)
      requires k < |args| && k < |env| && a == args[k] && g == env[k]
      requires View() == Body(args, env, k)
      modifies this, block
      ensures block == old(block) || fresh(block)
      ensures View() == Body(args, env, k + 1)
    {
      PutArg(a, g);
    }

    /** Writes the arguments in turn; `env` is what `realloc` would do at each. An invalid
        format character makes the whole packet NULL (`ok` is false). */
    method BodyFiller(fmt: string, args: seq<Arg>, env: seq<growth>) returns (ok: bool)
      requires View() == FRESH && Supplies(fmt, args) && |env| == |fmt|
      modifies this, block
      ensures ok <==> ValidUpTo(fmt, |fmt|)
      ensures ok ==> Agree(fmt, args, |fmt|) && View() == Body(args, env, |fmt|)
      ensures ok && Safe(Layout(args[..|fmt|]), |fmt|) ==> HoldsArgs(View(), args[..|fmt|])
    {
      ok := PutArgs(fmt, args, env);
      if ok && Safe(Layout(args[..|fmt|]), |fmt|) {
        SafeHoldsFirst(args, env, |fmt|);
      }
    }

    /** Its loop. */
    method PutArgs(fmt: string, args: seq<Arg>, env: seq<growth>) returns (ok: bool)
      requires View() == FRESH && Supplies(fmt, args) && |env| == |fmt|
      modifies this, block
      ensures ok <==> ValidUpTo(fmt, |fmt|)
      ensures ok ==> Agree(fmt, args, |fmt|) && View() == Body(args, env, |fmt|)
    {
      var k := 0;
      while k < |fmt|
        invariant ValidUpTo(fmt, k) && Agree(fmt, args, k)
        invariant block == old(block) || fresh(block)
        invariant View() == Body(args, env, k)
      {
        if KindOf(fmt[k]) == None {
          return false;
        }
        assert ValidUpTo(fmt, k + 1);
        PutNext(args[k], env[k], args, env, k);
        k := k + 1;
      }
      return true;
    }
  }
}
