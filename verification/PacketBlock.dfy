/** The block a packet is written into: it grows by a fixed amount, whatever is needed, while
    the field is written to where the block was before. When are all fields there? */
module PacketBlock {
  import opened Bytes

  const BUFSIZ: nat := 8192

  /** What `realloc` does when it is called: whether it moves the block, and what the bytes
      it adds hold. */
  datatype Growth = Growth(moved: bool, added: bytes)

  type growth = g: Growth | |g.added| == BUFSIZ witness Growth(true, Filled(BUFSIZ, 0))

  function Filled(n: nat, b: byte): (s: bytes)
    ensures |s| == n && forall i :: 0 <= i < n ==> s[i] == b
  {
    seq(n, _ => b)
  }

  /** The payload bytes of the block a packet holds, and `head.payload_size`. */
  datatype Block = Block(data: bytes, size: nat)

  /** As `calloc` makes it. */
  const FRESH := Block(Filled(BUFSIZ, 0), 0)

  /** The bytes of an argument and where they belong. */
  datatype Field = Field(at: nat, text: bytes) {
    function End(): nat { at + |text| }
  }

  /** `field` written at its place; what does not fit the block does not become part of it. */
  function Overlay(data: bytes, f: Field): (r: bytes)
    ensures |r| == |data|
    ensures forall i :: 0 <= i < |data| ==> r[i] == if f.at <= i < f.End() then f.text[i - f.at] else data[i]
  {
    seq(|data|, i requires 0 <= i < |data| => if f.at <= i < f.End() then f.text[i - f.at] else data[i])
  }

  /** `payload_size` has grown: the block does too, once, unless there is room. */
  function Expanded(data: bytes, size: nat, g: growth): bytes {
    if size < |data| then data else data + g.added
  }

  /** A field is put to where the payload was before the block grew: it is lost if the block
      has moved. */
  function Put(b: Block, f: Field, g: growth): Block {
    var data := Expanded(b.data, f.End(), g);
    if f.End() >= |b.data| && g.moved then Block(data, f.End()) else Block(Overlay(data, f), f.End())
  }

  /** The first `n` fields have been put into a new packet. */
  function PutAll(fields: seq<Field>, env: seq<growth>, n: nat): Block
    requires n <= |fields| && n <= |env|
  {
    if n == 0 then FRESH else Put(PutAll(fields, env, n - 1), fields[n - 1], env[n - 1])
  }

  /** Where the first `n` fields end. */
  function EndOf(fields: seq<Field>, n: nat): nat
    requires n <= |fields|
  {
    if n == 0 then 0 else fields[n - 1].End()
  }

  /** One behind the other, and none is empty. */
  ghost predicate Ordered(fields: seq<Field>) {
    && (forall k :: 0 <= k < |fields| ==> |fields[k].text| > 0)
    && (forall j, k :: 0 <= j < k < |fields| ==> fields[j].End() <= fields[k].at)
  }

  /** The first `n` fields are in the packet, each at its place. */
  ghost predicate Holds(b: Block, fields: seq<Field>, n: nat)
    requires n <= |fields|
  {
    b.size == EndOf(fields, n) && forall k :: 0 <= k < n ==> InPlace(fields[k], b.data)
  }

  ghost predicate InPlace(f: Field, data: bytes) {
    forall i :: 0 <= i < |f.text| ==> f.at + i < |data| && data[f.at + i] == f.text[i]
  }

  predicate AllZero(s: bytes) {
    forall i :: 0 <= i < |s| ==> s[i] == 0
  }

  /** The field ends with the block as it was made, and is nothing but zeros. */
  predicate EndsZero(f: Field) {
    f.End() == BUFSIZ && AllZero(f.text)
  }

  /** The first `n` fields end before the block does; or one ends just there and is nothing
      but zeros, and the others end before the block has to grow again. */
  ghost predicate Safe(fields: seq<Field>, n: nat)
    requires n <= |fields|
  {
    || EndOf(fields, n) < BUFSIZ
    || (EndOf(fields, n) < 2 * BUFSIZ && exists k :: 0 <= k < n && EndsZero(fields[k]))
  }

  lemma PutAllSize(fields: seq<Field>, env: seq<growth>, n: nat)
    requires n <= |fields| && n <= |env|
    ensures PutAll(fields, env, n).size == EndOf(fields, n)
  {
  }

  // ---------------------------------------------------------------- when nothing is lost

  /** A field that is written into the block. */
  lemma PutWritten(b: Block, fields: seq<Field>, n: nat, g: growth)
    requires Ordered(fields) && n < |fields| && Holds(b, fields, n)
    requires var end := fields[n].End(); end < |b.data| || (!g.moved && end < |b.data| + BUFSIZ)
    ensures Holds(Put(b, fields[n], g), fields, n + 1)
  {
  }

  /** A field of zeros that ends where the block ended. */
  lemma PutZeros(b: Block, fields: seq<Field>, n: nat, g: growth)
    requires Ordered(fields) && n < |fields| && Holds(b, fields, n)
    requires fields[n].End() == |b.data| && AllZero(fields[n].text)
    requires forall i :: fields[n].at <= i < |b.data| ==> b.data[i] == 0
    ensures Holds(Put(b, fields[n], g), fields, n + 1)
  {
  }

  /** Before the block has to grow. */
  lemma {:induction false} HoldsInside(fields: seq<Field>, env: seq<growth>, n: nat)
    requires Ordered(fields) && n <= |fields| && n <= |env| && EndOf(fields, n) < BUFSIZ
    ensures var b := PutAll(fields, env, n);
            && Holds(b, fields, n) && |b.data| == BUFSIZ
            && forall i :: b.size <= i < BUFSIZ ==> b.data[i] == 0
  {
    if n > 0 {
      HoldsInside(fields, env, n - 1);
      PutWritten(PutAll(fields, env, n - 1), fields, n - 1, env[n - 1]);
    }
  }

  /** Behind a field of zeros at its end. */
  lemma {:induction false} HoldsBehindZeros(fields: seq<Field>, env: seq<growth>, k: nat, n: nat)
    requires Ordered(fields) && k < n <= |fields| && n <= |env|
    requires EndsZero(fields[k]) && EndOf(fields, n) < 2 * BUFSIZ
    ensures var b := PutAll(fields, env, n); Holds(b, fields, n) && |b.data| == 2 * BUFSIZ
  {
    if k == n - 1 {
      HoldsInside(fields, env, k);
      PutZeros(PutAll(fields, env, k), fields, k, env[k]);
    } else {
      HoldsBehindZeros(fields, env, k, n - 1);
      PutWritten(PutAll(fields, env, n - 1), fields, n - 1, env[n - 1]);
    }
  }

  lemma SafeHolds(fields: seq<Field>, env: seq<growth>, n: nat)
    requires Ordered(fields) && n <= |fields| && n <= |env| && Safe(fields, n)
    ensures var b := PutAll(fields, env, n); Holds(b, fields, n) && b.size < |b.data|
  {
    if EndOf(fields, n) < BUFSIZ {
      HoldsInside(fields, env, n);
    } else {
      var k :| 0 <= k < n && EndsZero(fields[k]);
      HoldsBehindZeros(fields, env, k, n);
    }
  }

  // ---------------------------------------------------------------- when something is lost

  /** The memory at its worst: the block moves, and the bytes added hold `fill`. */
  function Moves(fill: byte): growth {
    Growth(true, Filled(BUFSIZ, fill))
  }

  function Worst(n: nat, fill: byte): (env: seq<growth>)
    ensures AtWorst(env, n, fill)
  {
    seq(n, _ => Moves(fill))
  }

  ghost predicate AtWorst(env: seq<growth>, n: nat, fill: byte) {
    |env| == n && forall i :: 0 <= i < n ==> env[i] == Moves(fill)
  }

  /** What nobody has written. */
  function Garbage(i: nat, fill: byte): byte {
    if i < BUFSIZ then 0 else fill
  }

  lemma {:induction false} Unwritten(fields: seq<Field>, env: seq<growth>, fill: byte, n: nat)
    requires Ordered(fields) && n <= |fields| && AtWorst(env, |fields|, fill)
    ensures var b := PutAll(fields, env, n);
            && b.size == EndOf(fields, n) && |b.data| >= BUFSIZ
            && forall i :: b.size <= i < |b.data| ==> b.data[i] == Garbage(i, fill)
  {
    if n > 0 {
      Unwritten(fields, env, fill, n - 1);
    }
  }

  /** The fields have passed byte `i` of the payload, which stays what it was, if it is part
      of the block at all. */
  ghost predicate Lost(b: Block, i: nat, fill: byte) {
    i < b.size && (i < |b.data| ==> b.data[i] == Garbage(i, fill)) && |b.data| >= BUFSIZ
  }

  lemma PutKeepsLost(b: Block, f: Field, fill: byte, i: nat)
    requires Lost(b, i, fill) && b.size <= f.at
    ensures Lost(Put(b, f, Moves(fill)), i, fill)
  {
  }

  /** A field that makes the block grow and move does not get into it. */
  lemma PutLoses(b: Block, f: Field, fill: byte, i: nat)
    requires f.End() >= |b.data| >= BUFSIZ && b.size <= f.at <= i < f.End()
    requires forall j :: b.size <= j < |b.data| ==> b.data[j] == Garbage(j, fill)
    ensures Lost(Put(b, f, Moves(fill)), i, fill)
  {
  }

  lemma {:induction false} LostForGood(fields: seq<Field>, env: seq<growth>, fill: byte, i: nat, k: nat, n: nat)
    requires Ordered(fields) && k <= n <= |fields| && AtWorst(env, |fields|, fill)
    requires Lost(PutAll(fields, env, k), i, fill)
    ensures Lost(PutAll(fields, env, n), i, fill)
  {
    if k < n {
      LostForGood(fields, env, fill, i, k, n - 1);
      Unwritten(fields, env, fill, n - 1);
      PutKeepsLost(PutAll(fields, env, n - 1), fields[n - 1], fill, i);
    }
  }

  lemma FieldIsLost(fields: seq<Field>, env: seq<growth>, fill: byte, k: nat, i: nat)
    requires Ordered(fields) && k < |fields| && AtWorst(env, |fields|, fill)
    requires fields[k].End() >= |PutAll(fields, env, k).data| && fields[k].at <= i < fields[k].End()
    ensures Lost(PutAll(fields, env, |fields|), i, fill)
  {
    Unwritten(fields, env, fill, k);
    var b := PutAll(fields, env, k);
    PutLoses(b, fields[k], fill, i);
    assert PutAll(fields, env, k + 1) == Put(b, fields[k], Moves(fill));
    LostForGood(fields, env, fill, i, k + 1, |fields|);
  }

  /** So the packet does not hold a field that differs anywhere from what is there anyway. */
  lemma FieldIsMissed(fields: seq<Field>, env: seq<growth>, fill: byte, k: nat, i: nat)
    requires Ordered(fields) && k < |fields| && AtWorst(env, |fields|, fill)
    requires fields[k].End() >= |PutAll(fields, env, k).data|
    requires i < |fields[k].text| && fields[k].text[i] != Garbage(fields[k].at + i, fill)
    ensures !Holds(PutAll(fields, env, |fields|), fields, |fields|)
  {
    FieldIsLost(fields, env, fill, k, fields[k].at + i);
    LostIsMissed(PutAll(fields, env, |fields|), fields[k], fill, i);
  }

  lemma LostIsMissed(b: Block, f: Field, fill: byte, i: nat)
    requires Lost(b, f.at + i, fill) && i < |f.text| && f.text[i] != Garbage(f.at + i, fill)
    ensures !InPlace(f, b.data)
  {
  }

  lemma FirstReaching(fields: seq<Field>, bound: nat) returns (k: nat)
    requires 0 < bound <= EndOf(fields, |fields|)
    ensures k < |fields| && EndOf(fields, k) < bound <= fields[k].End()
  {
    k := 0;
    while fields[k].End() < bound
      invariant k < |fields| && EndOf(fields, k) < bound
      decreases |fields| - k
    {
      k := k + 1;
    }
  }

  /** Behind a field that ends with the block, the block has grown once. */
  lemma {:induction false} GrownOnce(fields: seq<Field>, env: seq<growth>, k: nat, n: nat)
    requires Ordered(fields) && k < n <= |fields| && n <= |env|
    requires fields[k].End() == BUFSIZ && EndOf(fields, n) < 2 * BUFSIZ
    ensures |PutAll(fields, env, n).data| == 2 * BUFSIZ
  {
    if k == n - 1 {
      HoldsInside(fields, env, k);
    } else {
      GrownOnce(fields, env, k, n - 1);
    }
  }

  /** A byte that differs from `b`. */
  function Other(b: byte): byte {
    if b == 0 then 1 else 0
  }

  /** The first field to reach the end of the block is lost, or, when that one is nothing but
      zeros, the first to reach the end of the enlarged block. */
  lemma UnsafeIsLost(fields: seq<Field>) returns (env: seq<growth>)
    requires Ordered(fields) && !Safe(fields, |fields|)
    ensures |env| == |fields| && !Holds(PutAll(fields, env, |fields|), fields, |fields|)
  {
    var k := FirstReaching(fields, BUFSIZ);
    if EndsZero(fields[k]) {
      env := UnsafeLater(fields, k);
    } else {
      env := UnsafeAtOnce(fields, k);
    }
  }

  lemma UnsafeAtOnce(fields: seq<Field>, k: nat) returns (env: seq<growth>)
    requires Ordered(fields) && k < |fields| && EndOf(fields, k) < BUFSIZ <= fields[k].End()
    requires !EndsZero(fields[k])
    ensures |env| == |fields| && !Holds(PutAll(fields, env, |fields|), fields, |fields|)
  {
    var text := fields[k].text;
    var fill := Other(text[|text| - 1]);
    env := Worst(|fields|, fill);
    HoldsInside(fields, env, k);
    if fields[k].End() > BUFSIZ {
      FieldIsMissed(fields, env, fill, k, |text| - 1);
    } else {
      var i :| 0 <= i < |text| && text[i] != 0;
      FieldIsMissed(fields, env, fill, k, i);
    }
  }

  lemma UnsafeLater(fields: seq<Field>, k: nat) returns (env: seq<growth>)
    requires Ordered(fields) && k < |fields| && EndsZero(fields[k]) && EndOf(fields, |fields|) >= 2 * BUFSIZ
    ensures |env| == |fields| && !Holds(PutAll(fields, env, |fields|), fields, |fields|)
  {
    var j := FirstReaching(fields, 2 * BUFSIZ);
    var text := fields[j].text;
    var fill := Other(text[|text| - 1]);
    env := Worst(|fields|, fill);
    GrownOnce(fields, env, k, j);
    FieldIsMissed(fields, env, fill, j, |text| - 1);
  }

  /** Whatever the memory does, the packet holds its fields if and only if they are safe. */
  lemma HoldsIffSafe(fields: seq<Field>)
    requires Ordered(fields)
    ensures (forall env: seq<growth> :: |env| == |fields| ==>
               Holds(PutAll(fields, env, |fields|), fields, |fields|))
       <==> Safe(fields, |fields|)
  {
    if Safe(fields, |fields|) {
      forall env: seq<growth> | |env| == |fields|
        ensures Holds(PutAll(fields, env, |fields|), fields, |fields|)
      {
        SafeHolds(fields, env, |fields|);
      }
    } else {
      var env := UnsafeIsLost(fields);
    }
  }
}
