/** The order in which the non-urgent commands of one slave are handed to com-core. */
module SlaveOrder {
  import opened SlaveQueue

  /** A non-urgent command for `s`. */
  predicate Ordinary(commands: seq<Command>, s: Slave, id: Id) {
    id < |commands| && commands[id].slave == s && !commands[id].urgent
  }

  /** The ordinary commands for `s` among `ids`. */
  function Picks(commands: seq<Command>, s: Slave, ids: seq<Id>): (r: seq<Id>)
    ensures forall id :: id in r ==> id in ids && Ordinary(commands, s, id)
  {
    if ids == [] then []
    else (if Ordinary(commands, s, ids[0]) then [ids[0]] else []) + Picks(commands, s, ids[1..])
  }

  ghost predicate Increasing(ids: seq<Id>) {
    forall i, j :: 0 <= i < j < |ids| ==> ids[i] < ids[j]
  }

  /** What has been handed over to `s`, then what is queued for it, then what waits for its
      handle. */
  function Line(q: Queue, s: Slave): seq<Id> {
    Picks(q.commands, s, q.sent) + Picks(q.commands, s, q.list) + Picks(q.commands, s, PendingOf(q, s))
  }

  /** Issue numbers only grow along the line. */
  ghost predicate InOrder(q: Queue, s: Slave) {
    Increasing(Line(q, s))
  }

  /** A slave with a handle has nothing waiting for it. */
  ghost predicate Flushed(q: Queue, s: Slave) {
    s in q.rpcs && q.rpcs[s].handle >= 0 ==> q.rpcs[s].pending == []
  }

  lemma {:induction false} PicksConcat(commands: seq<Command>, s: Slave, a: seq<Id>, b: seq<Id>)
    ensures Picks(commands, s, a + b) == Picks(commands, s, a) + Picks(commands, s, b)
  {
    if a == [] {
      assert a + b == b;
    } else {
      assert (a + b)[0] == a[0] && (a + b)[1..] == a[1..] + b;
      PicksConcat(commands, s, a[1..], b);
    }
  }

  /** Commands issued later do not change what is picked. */
  lemma {:induction false} PicksGrow(commands: seq<Command>, more: seq<Command>, s: Slave, ids: seq<Id>)
    requires forall id :: id in ids ==> id < |commands|
    ensures Picks(commands + more, s, ids) == Picks(commands, s, ids)
  {
    if ids != [] {
      assert ids[0] in ids && forall id :: id in ids[1..] ==> id in ids;
      PicksGrow(commands, more, s, ids[1..]);
    }
  }

  lemma PicksOne(commands: seq<Command>, s: Slave, id: Id)
    ensures Picks(commands, s, [id]) == if Ordinary(commands, s, id) then [id] else []
  {
    assert [id][1..] == [];
  }

  lemma PicksInsert(commands: seq<Command>, s: Slave, ids: seq<Id>, id: Id, front: bool)
    ensures Picks(commands, s, if front then [id] + ids else ids + [id])
            == var one := if Ordinary(commands, s, id) then [id] else [];
               if front then one + Picks(commands, s, ids) else Picks(commands, s, ids) + one
  {
    PicksOne(commands, s, id);
    PicksConcat(commands, s, [id], ids);
    PicksConcat(commands, s, ids, [id]);
  }

  lemma PicksHead(commands: seq<Command>, s: Slave, ids: seq<Id>)
    requires ids != []
    ensures Picks(commands, s, ids)
            == (if Ordinary(commands, s, ids[0]) then [ids[0]] else []) + Picks(commands, s, ids[1..])
  {
  }

  lemma IncreasingWithout(a: seq<Id>, b: seq<Id>, c: seq<Id>)
    requires Increasing(a + b + c)
    ensures Increasing(a + c)
  {
    var whole, part := a + b + c, a + c;
    forall i, j | 0 <= i < j < |part| ensures part[i] < part[j] {
      var i', j' := if i < |a| then i else i + |b|, if j < |a| then j else j + |b|;
      assert whole[i'] == part[i] && whole[j'] == part[j];
    }
  }

  lemma IncreasingSnoc(a: seq<Id>, id: Id)
    requires Increasing(a) && forall x :: x in a ==> x < id
    ensures Increasing(a + [id])
  {
    var whole := a + [id];
    forall i, j | 0 <= i < j < |whole| ensures whole[i] < whole[j] {
      assert whole[i] == a[i] && a[i] in a;
    }
  }

  /** Later numbers `late` between the parts of an increasing line of smaller ones keep it
      increasing exactly when they are at its end, or not there. */
  lemma Overtaking(early: seq<Id>, late: seq<Id>, rest: seq<Id>, n: nat)
    requires Increasing(early + rest) && Increasing(late)
    requires (forall x :: x in early + rest ==> x < n) && (forall x :: x in late ==> n <= x)
    ensures Increasing(early + late + rest) <==> late == [] || rest == []
  {
    var whole := early + late + rest;
    if late == [] {
      assert whole == early + rest;
    } else if rest == [] {
      forall i, j | 0 <= i < j < |whole| ensures whole[i] < whole[j] {
        if i < |early| {
          assert whole[i] == (early + rest)[i];
          assert (early + rest)[i] in early + rest;
          if j < |early| {
            assert whole[j] == (early + rest)[j];
          } else {
            assert whole[j] == late[j - |early|] && late[j - |early|] in late;
          }
        } else {
          assert whole[i] == late[i - |early|] && whole[j] == late[j - |early|];
        }
      }
    } else {
      var i, j := |early|, |early| + |late|;
      assert whole[i] == late[0] && late[0] in late;
      assert whole[j] == rest[0] && (early + rest)[|early|] == rest[0] && rest[0] in early + rest;
      assert whole[i] > whole[j];
    }
  }

  /** In order means: of two ordinary commands of one slave handed over, the one handed over
      first was issued first. */
  lemma HandedInIssueOrder(q: Queue, s: Slave, i: nat, j: nat)
    requires InOrder(q, s) && i < j < |q.sent|
    requires Ordinary(q.commands, s, q.sent[i]) && Ordinary(q.commands, s, q.sent[j])
    ensures q.sent[i] < q.sent[j]
  {
    var x, y := q.sent[..i], q.sent[i + 1..];
    var px, py := Picks(q.commands, s, x), Picks(q.commands, s, y);
    assert Picks(q.commands, s, q.sent) == px + [q.sent[i]] + py by {
      assert q.sent == x + [q.sent[i]] + y;
      PicksConcat(q.commands, s, x + [q.sent[i]], y);
      PicksConcat(q.commands, s, x, [q.sent[i]]);
      PicksOne(q.commands, s, q.sent[i]);
    }
    assert y[j - i - 1] == q.sent[j];
    var k := PicksFinds(q.commands, s, y, j - i - 1);
    IncreasingAcross(px, q.sent[i], py, k, Picks(q.commands, s, q.list), Picks(q.commands, s, PendingOf(q, s)));
  }

  lemma IncreasingAcross(a: seq<Id>, x: Id, b: seq<Id>, k: nat, c: seq<Id>, d: seq<Id>)
    requires Increasing(a + [x] + b + c + d) && k < |b|
    ensures x < b[k]
  {
    var whole := a + [x] + b + c + d;
    assert whole[|a|] == x && whole[|a| + 1 + k] == b[k];
  }

  lemma {:induction false} PicksFinds(commands: seq<Command>, s: Slave, ids: seq<Id>, i: nat) returns (k: nat)
    requires i < |ids| && Ordinary(commands, s, ids[i])
    ensures k < |Picks(commands, s, ids)| && Picks(commands, s, ids)[k] == ids[i]
  {
    if i == 0 {
      k := 0;
    } else {
      k := PicksFinds(commands, s, ids[1..], i - 1);
      k := k + if Ordinary(commands, s, ids[0]) then 1 else 0;
    }
  }
}
