/** The modified doubly linked list: the head's `prev` is the tail, the tail's `next` is
    NULL. Every operation is proved on the heap against a sequence of nodes. */
module Dlist {
  import opened Options
  import opened Sequences

  /** A `void *` value; 0 is NULL. */
  type Pointer = nat
  const NULL: Pointer := 0

  class Node {
    var next: Node?
    var prev: Node?
    var data: Pointer

    constructor (data: Pointer)
      ensures this.data == data && next == null
    {
      this.data := data;
      next := null;
    }
  }

  /** `list` is the head of the list made of `nodes`. */
  ghost predicate IsList(list: Node?, nodes: seq<Node>)
    reads nodes
  {
    && (nodes == [] ==> list == null)
    && (nodes != [] ==> list == nodes[0] && nodes[0].prev == nodes[|nodes| - 1] && nodes[|nodes| - 1].next == null)
    && (forall i {:trigger nodes[i].next} :: 0 <= i < |nodes| - 1 ==> nodes[i].next == nodes[i + 1])
    && (forall i {:trigger nodes[i].prev} :: 1 <= i < |nodes| ==> nodes[i].prev == nodes[i - 1])
    && (forall i, j :: 0 <= i < j < |nodes| ==> nodes[i] != nodes[j])
  }

  ghost function Contents(nodes: seq<Node>): (c: seq<Pointer>)
    reads nodes
    ensures |c| == |nodes|
    ensures forall i :: 0 <= i < |nodes| ==> c[i] == nodes[i].data
  {
    seq(|nodes|, i requires 0 <= i < |nodes| reads nodes => nodes[i].data)
  }

  function Without<T>(s: seq<T>, k: nat): seq<T>
    requires k < |s|
  {
    s[..k] + s[k + 1..]
  }

  lemma WithoutIsPart<T>(s: seq<T>, k: nat)
    requires k < |s|
    ensures forall x :: x in Without(s, k) ==> x in s
  {
  }

  /** `dlist_append`; its assertion that the tail has no successor always holds. */
  method Append(list: Node?, data: Pointer, ghost nodes: seq<Node>) returns (r: Node, ghost item: Node)
    requires IsList(list, nodes)
    modifies if nodes == [] then {} else {nodes[0], nodes[|nodes| - 1]}
    ensures fresh(item) && IsList(r, nodes + [item])
    ensures Contents(nodes + [item]) == old(Contents(nodes)) + [data]
  {
    var added := new Node(data);
    item := added;
    if list == null {
      added.prev := added;
      r := added;
    } else {
      added.prev := list.prev;
      added.prev.next := added;
      list.prev := added;
      r := list;
    }
    assert r.prev != null && r.prev.next == null;
  }

  /** `dlist_prepend`; the branch that patches the tail's `next` is never taken. */
  method Prepend(list: Node?, data: Pointer, ghost nodes: seq<Node>) returns (item: Node)
    requires IsList(list, nodes)
    modifies if nodes == [] then {} else {nodes[0], nodes[|nodes| - 1]}
    ensures fresh(item) && IsList(item, [item] + nodes)
    ensures Contents([item] + nodes) == [data] + old(Contents(nodes))
  {
    item := new Node(data);
    if list == null {
      item.prev := item;
      item.next := null;
    } else {
      if list.prev.next != null {
        assert false;
      }
      item.prev := list.prev;
      item.next := list;
      list.prev := item;
    }
  }

  /** `dlist_remove` from its relinking on. */
  method Unlink(list: Node, l: Node, ghost nodes: seq<Node>, ghost k: nat) returns (r: Node?)
    requires IsList(list, nodes) && k < |nodes| && l == nodes[k]
    modifies nodes
    ensures IsList(r, Without(nodes, k))
    ensures forall i :: 0 <= i < |nodes| ==> nodes[i].data == old(nodes[i].data)
  {
    r := list;
    if l == r {
      r := l.next;
    } else {
      l.prev.next := l.next;
    }
    if l.next != null {
      l.next.prev := l.prev;
    } else if r != null {
      r.prev := l.prev;
    }
  }

  /** `dlist_remove`. A NULL list or a NULL node gives NULL: the caller who stores the
      result then has no list any more. */
  method Remove(list: Node?, l: Node?, ghost nodes: seq<Node>, ghost k: nat) returns (r: Node?)
    requires IsList(list, nodes)
    requires l != null ==> k < |nodes| && l == nodes[k]
    modifies nodes
    ensures list == null || l == null ==> r == null && forall n :: n in nodes ==> unchanged(n)
    ensures l != null ==> IsList(r, Without(nodes, k))
    ensures l != null ==> Contents(Without(nodes, k)) == Without(old(Contents(nodes)), k)
  {
    if list == null || l == null {
      return null;
    }
    ghost var c := Contents(nodes);
    r := Unlink(list, l, nodes, k);
    SameContents(nodes, k, c);
  }

  lemma SameContents(nodes: seq<Node>, k: nat, c: seq<Pointer>)
    requires k < |nodes| == |c| && forall i :: 0 <= i < |nodes| ==> nodes[i].data == c[i]
    ensures Contents(Without(nodes, k)) == Without(c, k)
  {
    var rest := Without(nodes, k);
    assert |Contents(rest)| == |Without(c, k)|;
    forall i | 0 <= i < |rest| ensures Contents(rest)[i] == Without(c, k)[i] {
      assert rest[i] == nodes[if i < k then i else i + 1];
    }
  }

  // ---------------------------------------------------------------- searching

  /** What `dlist_foreach` visits: the entries before the first NULL one. */
  function Visible(c: seq<Pointer>): (v: seq<Pointer>)
    ensures v <= c && NULL !in v
    ensures |v| < |c| ==> c[|v|] == NULL
  {
    if c == [] || c[0] == NULL then [] else [c[0]] + Visible(c[1..])
  }

  function IndexOf(c: seq<Pointer>, x: Pointer): (k: Option<nat>)
    ensures k == None ==> x !in c
    ensures k.Some? ==> k.value < |c| && c[k.value] == x && x !in c[..k.value]
  {
    if c == [] then None
    else if c[0] == x then Some(0)
    else match IndexOf(c[1..], x)
         case None => None
         case Some(k) => Some(k + 1)
  }

  lemma IndexOfIs(c: seq<Pointer>, x: Pointer, k: nat)
    requires k < |c| && c[k] == x && x !in c[..k]
    ensures IndexOf(c, x) == Some(k)
  {
    assert c[k] in c;
  }

  /** The visible prefix is the longest one without NULL. */
  lemma {:induction false} VisibleIs(c: seq<Pointer>, n: nat)
    requires n <= |c| && NULL !in c[..n] && (n < |c| ==> c[n] == NULL)
    ensures Visible(c) == c[..n]
  {
    if n == 0 {
    } else {
      assert c[..n][0] == c[0] && c[1..][..n - 1] == c[..n][1..];
      VisibleIs(c[1..], n - 1);
    }
  }

  /** `dlist_find_data`: the first entry holding `data`, among those before any NULL. */
  method FindData(list: Node?, data: Pointer, ghost nodes: seq<Node>) returns (l: Node?)
    requires IsList(list, nodes)
    ensures l == null <==> IndexOf(Visible(Contents(nodes)), data) == None
    ensures l != null ==> l == nodes[IndexOf(Visible(Contents(nodes)), data).value] && l.data == data
  {
    ghost var c, k := Contents(nodes), 0;
    l := list;
    while l != null && l.data != NULL
      invariant k <= |nodes|
      invariant if k < |nodes| then l == nodes[k] else l == null
      invariant NULL !in c[..k] && data !in c[..k]
      decreases |nodes| - k
    {
      TakeSnoc(c, k);
      if data == l.data {
        var end := NextNull(c, k);
        VisibleIs(c, end);
        assert Visible(c)[..k] == c[..k];
        IndexOfIs(Visible(c), data, k);
        return;
      }
      l := l.next;
      k := k + 1;
    }
    VisibleIs(c, k);
    return null;
  }

  lemma NextNull(c: seq<Pointer>, k: nat) returns (end: nat)
    requires k < |c| && NULL !in c[..k] && c[k] != NULL
    ensures k < end <= |c| && NULL !in c[..end] && (end < |c| ==> c[end] == NULL)
  {
    end := k + 1;
    TakeSnoc(c, k);
    while end < |c| && c[end] != NULL
      invariant k < end <= |c| && NULL !in c[..end]
    {
      TakeSnoc(c, end);
      end := end + 1;
    }
  }

  /** `dlist_count`. */
  method Count(l: Node?, ghost nodes: seq<Node>) returns (i: nat)
    requires IsList(l, nodes)
    ensures i == |Visible(Contents(nodes))|
  {
    ghost var c := Contents(nodes);
    i := 0;
    var n := l;
    while n != null && n.data != NULL
      invariant i <= |nodes|
      invariant if i < |nodes| then n == nodes[i] else n == null
      invariant NULL !in c[..i]
      decreases |nodes| - i
    {
      TakeSnoc(c, i);
      n := n.next;
      i := i + 1;
    }
    VisibleIs(c, i);
  }

  /** `dlist_nth`. */
  method Nth(l: Node?, nth: int, ghost nodes: seq<Node>) returns (n: Node?)
    requires IsList(l, nodes)
    ensures n == if 0 <= nth < |nodes| then nodes[nth] else null
  {
    var i := 0;
    n := l;
    while n != null
      invariant 0 <= i <= |nodes|
      invariant if i < |nodes| then n == nodes[i] else n == null
      invariant 0 <= nth < |nodes| ==> i <= nth
      decreases |nodes| - i
    {
      if i == nth {
        return;
      }
      i := i + 1;
      n := n.next;
    }
  }

  /** The count is the length exactly when no entry is NULL. */
  lemma CountIsLength(c: seq<Pointer>)
    ensures |Visible(c)| == |c| <==> NULL !in c
  {
    if NULL !in c {
      assert c[..|c|] == c;
      VisibleIs(c, |c|);
    }
  }

  // ---------------------------------------------------------------- removing by data

  /** What `dlist_remove_data` leaves: without a visible entry `x` nothing at all. */
  function AfterRemoveData(c: seq<Pointer>, x: Pointer): seq<Pointer> {
    match IndexOf(Visible(c), x)
    case None => []
    case Some(k) => Without(c, k)
  }

  /** The macro `dlist_remove_data`, which stores the result of `dlist_remove` even when
      the search found nothing. */
  method RemoveData(list: Node?, data: Pointer, ghost nodes: seq<Node>) returns (r: Node?, ghost rest: seq<Node>)
    requires IsList(list, nodes)
    modifies nodes
    ensures IsList(r, rest) && (forall n :: n in rest ==> n in nodes)
    ensures Contents(rest) == AfterRemoveData(old(Contents(nodes)), data)
  {
    var l := FindData(list, data, nodes);
    ghost var k := if l == null then 0 else IndexOf(Visible(Contents(nodes)), data).value;
    assert AfterRemoveData(Contents(nodes), data) == if l == null then [] else Without(Contents(nodes), k);
    r := Remove(list, l, nodes, k);
    rest := [];
    if l != null {
      rest := Without(nodes, k);
      WithoutIsPart(nodes, k);
    }
  }

  /** The macro removes the first occurrence of `x` and keeps everything else if and only
      if there is a visible occurrence or nothing else to keep; otherwise the whole list is
      lost. */
  lemma RemoveDataKeepsTheRest(c: seq<Pointer>, x: Pointer)
    ensures (match IndexOf(c, x)
             case None => AfterRemoveData(c, x) == c
             case Some(k) => AfterRemoveData(c, x) == Without(c, k))
            <==> (x in Visible(c) || c == [] || c == [x])
  {
    match IndexOf(Visible(c), x) {
      case Some(k) =>
        assert Visible(c)[..k] == c[..k];
        IndexOfIs(c, x, k);
      case None =>
        if c != [] && IndexOf(c, x).Some? {
          assert |Without(c, IndexOf(c, x).value)| == |c| - 1;
        }
    }
  }

  /** Removing what was just appended or prepended gives the old list back. */
  lemma AddThenRemove(c: seq<Pointer>, x: Pointer)
    requires x != NULL && x !in c && NULL !in c
    ensures AfterRemoveData(c + [x], x) == c && AfterRemoveData([x] + c, x) == c
  {
    CountIsLength(c + [x]);
    CountIsLength([x] + c);
    assert Visible(c + [x]) == c + [x] && Visible([x] + c) == [x] + c;
    assert (c + [x])[..|c|] == c;
    IndexOfIs(c + [x], x, |c|);
    IndexOfIs([x] + c, x, 0);
  }
}
