/** The lifecycle of a client-owned widget instance as a state machine: what each
    operation, reply and event leaves behind, and what holds over every run.

    The slave is an environment. It accepts a request or refuses it at once (`Env`), and
    answers every accepted request at most once, at any later time or never. */
module Lifecycle {
  import opened Options

  datatype State =
    INIT | ACTIVATED | REQUEST_TO_ACTIVATE | REQUEST_TO_REACTIVATE | DESTROYED | REQUEST_TO_DESTROY

  /** CMD_NEW, CMD_RENEW and CMD_DELETE, with the callback each one comes with. */
  datatype Request = New | Renew | Delete

  function StateOf(r: Request): State {
    match r
    case New => REQUEST_TO_ACTIVATE
    case Renew => REQUEST_TO_REACTIVATE
    case Delete => REQUEST_TO_DESTROY
  }

  predicate Requesting(s: State) {
    s == REQUEST_TO_ACTIVATE || s == REQUEST_TO_REACTIVATE || s == REQUEST_TO_DESTROY
  }

  type Client = nat

  /** An instance. `outstanding` are the accepted requests not answered yet, `holds` the
      references kept by other pending callback data. */
  datatype Inst = Inst(
    state: State, goal: State, changing: int, refcnt: nat, unicast: bool,
    owner: Client, viewers: seq<Client>,
    outstanding: seq<Request>, holds: nat, freed: bool)

  /** What the rest of the system answers during one step: the package is faulty, its slave
      is activated, `slave_activate` succeeds, the request is taken over (otherwise its
      callback runs at once without a packet), the owner is gone, and who watches the
      package's category. */
  datatype Env = Env(
    fault: bool, slaveActivated: bool, launched: bool, accepted: bool, ownerFaulted: bool,
    category: seq<Client>)

  /** What a reply callback is given. */
  datatype Reply = NoPacket | Malformed | Result(ret: int)

  ghost predicate Distinct(s: seq<Client>) {
    forall i, j :: 0 <= i < j < |s| ==> s[i] != s[j]
  }

  /** References beyond the accounted ones: the creation reference until DESTROYED, one per
      outstanding request, viewer and hold. It is the number of replies being processed. */
  function Slack(v: Inst): int {
    v.refcnt - (if v.state == DESTROYED then 0 else 1) - |v.outstanding| - |v.viewers| - v.holds
  }

  /** The counters agree with what they count. */
  ghost predicate Books(v: Inst) {
    && Slack(v) >= 0 && v.changing == |v.outstanding| + Slack(v)
    && (v.freed <==> v.refcnt == 0)
    && Distinct(v.viewers) && v.owner !in v.viewers
  }

  // ---------------------------------------------------------------- effects

  /** Nobody is told any more: DESTROYED, and the creation reference is dropped, together
      with those of all viewers if they are removed. */
  function Bury(v: Inst, everyone: bool): (w: Inst)
    requires Books(v) && v.state != DESTROYED
    ensures Books(w) && Slack(w) == Slack(v)
  {
    var viewers := if everyone then [] else v.viewers;
    var refcnt := v.refcnt - 1 - |v.viewers| + |viewers|;
    v.(state := DESTROYED, goal := DESTROYED, viewers := viewers, refcnt := refcnt, freed := refcnt == 0)
  }

  /** A request goes out, or is refused and its callback has already run. */
  function Ask(v: Inst, r: Request, goal: State, env: Env): (w: Inst)
    requires Books(v) && v.state != DESTROYED
    ensures Books(w) && Slack(w) == Slack(v)
  {
    var w := v.(state := StateOf(r), goal := goal);
    if env.accepted then w.(changing := w.changing + 1, refcnt := w.refcnt + 1, outstanding := w.outstanding + [r])
    else w
  }

  /** `instance_destroy`; `gone` when the package is uninstalled or upgraded. */
  function Destroy(v: Inst, gone: bool, env: Env): (w: Inst)
    requires Books(v)
    ensures Books(w) && Slack(w) == Slack(v)
  {
    if Requesting(v.state) || v.state == DESTROYED then v.(goal := DESTROYED)
    else if v.state == INIT then Bury(v, false)
    else if gone && !env.slaveActivated then Bury(v, !v.unicast)
    else Ask(v, Delete, DESTROYED, env)
  }

  /** Destroying and reloading send CMD_DELETE. */
  predicate AsksToDelete(v: Inst, gone: bool, env: Env) {
    v.state == ACTIVATED && !(gone && !env.slaveActivated)
  }

  /** `instance_activate` (`New`) and `instance_reactivate` (`Renew`). */
  function Load(v: Inst, r: Request, env: Env): (w: Inst)
    requires Books(v)
    ensures Books(w) && Slack(w) == Slack(v)
  {
    if env.fault then v
    else if Requesting(v.state) then v.(goal := ACTIVATED)
    else if v.state == INIT && env.launched then Ask(v, r, ACTIVATED, env)
    else v
  }

  /** Their return value is negative. */
  predicate LoadFails(v: Inst, env: Env) {
    env.fault || (v.state == INIT && !(env.launched && env.accepted))
  }

  function Reset(v: Inst): (w: Inst)
    requires Books(v) && v.state != DESTROYED
    ensures Books(w) && Slack(w) == Slack(v)
  {
    v.(state := INIT, goal := INIT)
  }

  /** `instance_reload`. */
  function Reload(v: Inst, gone: bool, env: Env): (w: Inst)
    requires Books(v)
    ensures Books(w) && Slack(w) == Slack(v)
  {
    if v.state == INIT then Load(v, New, env)
    else if v.state != ACTIVATED then v
    else if gone && !env.slaveActivated then Load(v.(state := INIT), New, env)
    else Ask(v, Delete, ACTIVATED, env)
  }

  /** `instance_destroyed`: the slave says it is gone. */
  function Vanish(v: Inst): (w: Inst)
    requires Books(v)
    ensures Books(w) && Slack(w) == Slack(v)
  {
    if v.state == DESTROYED then v
    else Bury(v, !v.unicast || !(v.state == INIT || v.state == REQUEST_TO_ACTIVATE))
  }

  /** Loaded anew, or buried when that fails at once. */
  function Restarted(v: Inst, env: Env): (w: Inst)
    requires Books(v) && v.state != DESTROYED
    ensures Books(w) && Slack(w) == Slack(v)
  {
    var w := Load(Reset(v), New, env);
    if LoadFails(Reset(v), env) then Bury(w, true) else w
  }

  /** `instance_recover_state`: the slave is back. */
  function Recover(v: Inst, env: Env): (w: Inst)
    requires Books(v)
    ensures Books(w) && Slack(w) == Slack(v)
  {
    if v.changing > 0 then v
    else
      var u := if env.fault then v.(goal := DESTROYED) else v;
      if u.state == DESTROYED then u
      else if u.goal == DESTROYED then Bury(u, false)
      else if u.state == INIT || u.state == REQUEST_TO_ACTIVATE then
        if u.goal == ACTIVATED || u.goal == INIT then
          Restarted(u, env)
        else u
      else if u.goal == ACTIVATED then Load(Reset(u), Renew, env)
      else u
  }

  /** It returns 1: the instance is on its way to the slave again. */
  ghost predicate Recovers(v: Inst, env: Env)
    requires Books(v)
  {
    v.changing <= 0 && !env.fault && v.state != DESTROYED
    && (if v.state == INIT || v.state == REQUEST_TO_ACTIVATE then
          (v.goal == ACTIVATED || v.goal == INIT) && !LoadFails(Reset(v), env)
        else v.goal == ACTIVATED)
  }

  /** `instance_need_slave`: the slave is lost. */
  function NeedSlave(v: Inst, env: Env): (w: Inst)
    requires Books(v)
    ensures Books(w) && Slack(w) == Slack(v)
  {
    if v.state != DESTROYED && (env.ownerFaulted || v.goal == DESTROYED) then Bury(v, false) else v
  }

  /** `instance_add_client`, called for clients that are not viewers yet. */
  function AddViewer(v: Inst, c: Client): (w: Inst)
    requires Books(v) && c !in v.viewers
    ensures Books(w) && Slack(w) == Slack(v)
  {
    if c == v.owner then v
    else v.(viewers := v.viewers + [c], refcnt := v.refcnt + 1, freed := false)
  }

  function IndexIn(s: seq<Client>, c: Client): (k: nat)
    requires c in s
    ensures k < |s| && s[k] == c
  {
    if s[0] == c then 0 else 1 + IndexIn(s[1..], c)
  }

  function Remove(s: seq<Client>, c: Client): (r: seq<Client>)
    ensures c !in s ==> r == s
    ensures c in s ==> |r| == |s| - 1 && r == s[..IndexIn(s, c)] + s[IndexIn(s, c) + 1..]
  {
    if c in s then var k := IndexIn(s, c); s[..k] + s[k + 1..] else s
  }

  lemma WithoutDistinct(s: seq<Client>, k: nat)
    requires Distinct(s) && k < |s|
    ensures var r := s[..k] + s[k + 1..]; Distinct(r) && forall d :: d in r <==> d in s && d != s[k]
  {
    var r := s[..k] + s[k + 1..];
    forall d | d in s && d != s[k] ensures d in r {
      var i :| 0 <= i < |s| && s[i] == d;
      assert r[if i < k then i else i - 1] == d;
    }
  }

  lemma RemoveDistinct(s: seq<Client>, c: Client)
    requires Distinct(s)
    ensures Distinct(Remove(s, c))
    ensures forall d :: d in Remove(s, c) <==> d in s && d != c
  {
    if c in s {
      WithoutDistinct(s, IndexIn(s, c));
    }
  }

  /** `instance_del_client`, also the end of a viewer's connection. */
  function DelViewer(v: Inst, c: Client): (w: Inst)
    requires Books(v)
    ensures Books(w) && Slack(w) == Slack(v)
  {
    if c == v.owner || c !in v.viewers then v
    else
      RemoveDistinct(v.viewers, c);
      v.(viewers := Remove(v.viewers, c), refcnt := v.refcnt - 1, freed := v.refcnt == 1)
  }

  function AddViewers(v: Inst, cs: seq<Client>): (w: Inst)
    requires Books(v)
    ensures Books(w) && Slack(w) == Slack(v)
    ensures w == v.(viewers := w.viewers, refcnt := w.refcnt, freed := w.freed)
    decreases |cs|
  {
    if cs == [] then v
    else
      var n := |cs| - 1;
      var u := AddViewers(v, cs[..n]);
      if cs[n] in u.viewers then u else AddViewer(u, cs[n])
  }

  /** The switch of the callback of request `r` when the slave returned `ret`. */
  function Completed(v: Inst, r: Request, ret: int, env: Env): (w: Inst)
    requires Books(v) && v.state != DESTROYED
    ensures Books(w) && Slack(w) == Slack(v)
  {
    match r
    case Delete =>
      if ret != 0 then Bury(v, true)
      else if v.goal == ACTIVATED then Load(Reset(v), Renew, env)
      else if v.goal == DESTROYED then Bury(v, !v.unicast)
      else v
    case Renew =>
      if ret != 0 then Bury(v, true)
      else Loaded(v, env)
    case New =>
      if ret != 0 && ret != 1 then Bury(v, false)
      else if v.goal == DESTROYED then Loaded(v, env)
      else AddViewers(Loaded(v, env), env.category).(unicast := false)
  }

  /** The slave has it: keep it, or destroy it if that was asked for meanwhile. */
  function Loaded(v: Inst, env: Env): (w: Inst)
    requires Books(v) && v.state != DESTROYED
    ensures Books(w) && Slack(w) == Slack(v)
  {
    if v.goal == DESTROYED then Ask(v, Delete, DESTROYED, env) else v.(state := ACTIVATED)
  }

  /** A reply callback from its call to its end. */
  function Answer(v: Inst, reply: Reply, env: Env): (w: Inst)
    requires Books(v) && v.outstanding != []
    ensures Books(w) && Slack(w) == Slack(v)
  {
    var u := v.(outstanding := v.outstanding[1..]);
    var w :=
      if reply.Result? && v.state != DESTROYED then Completed(u, v.outstanding[0], reply.ret, env) else u;
    w.(changing := w.changing - 1, refcnt := w.refcnt - 1, freed := w.refcnt == 1)
  }

  // ---------------------------------------------------------------- runs

  datatype Op =
    | OpLoad(r: Request) | OpDestroy(gone: bool) | OpReload(gone: bool) | OpVanish | OpRecover | OpNeedSlave
    | OpAddViewer(c: Client) | OpDelViewer(c: Client) | OpHold | OpRelease | OpAnswer(reply: Reply)

  /** Who can do what: nothing is done to a freed instance, only outstanding requests are
      answered, only held references are released, and only new viewers are added. */
  predicate Enabled(v: Inst, op: Op) {
    match op
    case OpAnswer(_) => v.outstanding != []
    case OpRelease => v.holds > 0
    case OpAddViewer(c) => !v.freed && c !in v.viewers
    case OpLoad(r) => !v.freed && r != Delete
    case _ => !v.freed
  }

  function Step(v: Inst, op: Op, env: Env): (w: Inst)
    requires Books(v) && Enabled(v, op)
    ensures Books(w) && Slack(w) == Slack(v)
  {
    match op
    case OpLoad(r) => Load(v, r, env)
    case OpDestroy(gone) => Destroy(v, gone, env)
    case OpReload(gone) => Reload(v, gone, env)
    case OpVanish => Vanish(v)
    case OpRecover => Recover(v, env)
    case OpNeedSlave => NeedSlave(v, env)
    case OpAddViewer(c) => AddViewer(v, c)
    case OpDelViewer(c) => DelViewer(v, c)
    case OpHold => v.(holds := v.holds + 1, refcnt := v.refcnt + 1, freed := false)
    case OpRelease => v.(holds := v.holds - 1, refcnt := v.refcnt - 1, freed := v.refcnt == 1)
    case OpAnswer(reply) => Answer(v, reply, env)
  }

  function Created(owner: Client): (v: Inst)
    ensures Books(v) && Slack(v) == 0
  {
    Inst(INIT, INIT, 0, 1, true, owner, [], [], 0, false)
  }

  /** One thing that happens, and how the rest of the system answers. */
  datatype Event = Event(op: Op, env: Env)

  /** What a sequence of events makes of a new instance; absent if one of them cannot
      happen. */
  function Run(owner: Client, events: seq<Event>): (r: Option<Inst>)
    ensures r.Some? ==> Books(r.value)
    decreases |events|
  {
    if events == [] then Some(Created(owner))
    else match Run(owner, events[..|events| - 1])
    case None => None
    case Some(v) =>
      var e := events[|events| - 1];
      if Enabled(v, e.op) then Some(Step(v, e.op, e.env)) else None
  }

  // ---------------------------------------------------------------- the invariant

  /** At most one request is outstanding; while one is, the state names it or is DESTROYED;
      the goal is always one the current state can have. */
  ghost predicate Protocol(v: Inst) {
    && |v.outstanding| <= 1
    && (v.outstanding != [] ==> v.state == DESTROYED || v.state == StateOf(v.outstanding[0]))
    && (Requesting(v.state) ==> v.goal == ACTIVATED || v.goal == DESTROYED)
    && (v.state == ACTIVATED ==> v.goal == ACTIVATED)
    && (v.state == INIT ==> v.goal == INIT || v.goal == ACTIVATED)
    && (v.state == DESTROYED ==> v.goal == DESTROYED)
  }

  ghost predicate Inv(v: Inst) {
    Books(v) && Slack(v) == 0 && Protocol(v)
  }

  lemma AnswerKeepsProtocol(v: Inst, reply: Reply, env: Env)
    requires Inv(v) && v.outstanding != []
    ensures Protocol(Answer(v, reply, env))
  {
    var u := v.(outstanding := v.outstanding[1..]);
    assert u.outstanding == [];
    if reply.Result? && v.state != DESTROYED {
      assert Protocol(Completed(u, v.outstanding[0], reply.ret, env));
    }
  }

  lemma StepKeepsInv(v: Inst, op: Op, env: Env)
    requires Inv(v) && Enabled(v, op)
    ensures Inv(Step(v, op, env))
  {
    match op {
      case OpAnswer(reply) => AnswerKeepsProtocol(v, reply, env);
      case OpRecover => RecoverKeepsProtocol(v, env);
      case OpReload(gone) => ReloadKeepsProtocol(v, gone, env);
      case _ =>
    }
  }

  lemma RecoverKeepsProtocol(v: Inst, env: Env)
    requires Inv(v)
    ensures Protocol(Recover(v, env))
  {
  }

  lemma ReloadKeepsProtocol(v: Inst, gone: bool, env: Env)
    requires Inv(v)
    ensures Protocol(Reload(v, gone, env))
  {
  }

  lemma {:induction false} RunKeepsInv(owner: Client, events: seq<Event>)
    requires Run(owner, events).Some?
    ensures Inv(Run(owner, events).value)
    decreases |events|
  {
    if events != [] {
      var before := events[..|events| - 1];
      RunKeepsInv(owner, before);
      var e := events[|events| - 1];
      StepKeepsInv(Run(owner, before).value, e.op, e.env);
    }
  }

  // ---------------------------------------------------------------- what it means

  /** `changing_state` is the number of unanswered requests: 0 or 1, never negative, and 1
      only in the state that names the request or in DESTROYED. */
  lemma ChangingCountsRequests(owner: Client, events: seq<Event>)
    requires Run(owner, events).Some?
    ensures var v := Run(owner, events).value;
            && v.changing == |v.outstanding| && 0 <= v.changing <= 1
            && (v.changing == 1 ==> v.state == DESTROYED || v.state == StateOf(v.outstanding[0]))
            && (v.state == INIT || v.state == ACTIVATED ==> v.changing == 0)
  {
    RunKeepsInv(owner, events);
  }

  /** The reference count counts holders, and the instance is freed exactly when it is
      DESTROYED and the last of them has left. In particular a reply still to come, a
      viewer or a hold keeps it alive. */
  lemma FreedWithTheLastHolder(owner: Client, events: seq<Event>)
    requires Run(owner, events).Some?
    ensures var v := Run(owner, events).value;
            && v.refcnt == (if v.state == DESTROYED then 0 else 1) + |v.outstanding| + |v.viewers| + v.holds
            && (v.freed <==> v.state == DESTROYED && v.outstanding == [] && v.viewers == [] && v.holds == 0)
  {
    RunKeepsInv(owner, events);
  }

  lemma DestroyedStep(v: Inst, op: Op, env: Env)
    requires Inv(v) && Enabled(v, op) && v.state == DESTROYED
    ensures Step(v, op, env).state == DESTROYED
  {
  }

  /** DESTROYED is for ever, although `instance_state_reset` would lead out of it. */
  lemma {:induction false} DestroyedIsForEver(owner: Client, events: seq<Event>, n: nat)
    requires Run(owner, events).Some? && n <= |events|
    requires Run(owner, events[..n]).Some? && Run(owner, events[..n]).value.state == DESTROYED
    ensures Run(owner, events).value.state == DESTROYED
    decreases |events|
  {
    if n == |events| {
      assert events[..n] == events;
    } else {
      var before := events[..|events| - 1];
      assert before[..n] == events[..n];
      DestroyedIsForEver(owner, before, n);
      RunKeepsInv(owner, before);
      DestroyedStep(Run(owner, before).value, events[|events| - 1].op, events[|events| - 1].env);
    }
  }

  /** Event number `n` of a run takes the instance into DESTROYED. */
  ghost predicate Destroys(owner: Client, events: seq<Event>, n: nat) {
    && n < |events| && Run(owner, events[..n]).Some? && Run(owner, events[..n + 1]).Some?
    && Run(owner, events[..n]).value.state != DESTROYED && Run(owner, events[..n + 1]).value.state == DESTROYED
  }

  lemma NotDestroyedAgain(owner: Client, events: seq<Event>, i: nat, j: nat)
    requires Destroys(owner, events, i) && i < j < |events| && Run(owner, events[..j]).Some?
    ensures !Destroys(owner, events, j)
  {
    assert events[..j][..i + 1] == events[..i + 1];
    DestroyedIsForEver(owner, events[..j], i + 1);
  }

  /** The creation reference is dropped at most once: no two events of a run enter
      DESTROYED. */
  lemma DestroyedOnce(owner: Client, events: seq<Event>, i: nat, j: nat)
    requires Destroys(owner, events, i) && Destroys(owner, events, j)
    ensures i == j
  {
    if i < j {
      NotDestroyedAgain(owner, events, i, j);
    } else if j < i {
      NotDestroyedAgain(owner, events, j, i);
    }
  }

  lemma DoomedStep(v: Inst, op: Op, env: Env)
    requires Inv(v) && Enabled(v, op)
    requires op.OpDestroy? || (v.goal == DESTROYED && !op.OpLoad?)
    ensures Step(v, op, env).goal == DESTROYED
  {
  }

  lemma {:induction false} GoalStays(owner: Client, events: seq<Event>, n: nat)
    requires Run(owner, events).Some? && n < |events| && events[n].op.OpDestroy?
    requires forall k :: n < k < |events| ==> !events[k].op.OpLoad?
    ensures Run(owner, events).value.goal == DESTROYED
    decreases |events|
  {
    var before, last := events[..|events| - 1], events[|events| - 1];
    RunKeepsInv(owner, before);
    if n < |before| {
      GoalStays(owner, before, n);
    }
    var v := Run(owner, before).value;
    DoomedStep(v, last.op, last.env);
    assert Run(owner, events).value == Step(v, last.op, last.env);
  }

  /** A destroy request is never forgotten: until somebody asks for activation again, no
      reply, slave loss or recovery brings the instance back to ACTIVATED. */
  lemma DestroyIsRemembered(owner: Client, events: seq<Event>, n: nat)
    requires Run(owner, events).Some? && n < |events| && events[n].op.OpDestroy?
    requires forall k :: n < k < |events| ==> !events[k].op.OpLoad?
    ensures var v := Run(owner, events).value; v.goal == DESTROYED && v.state != ACTIVATED && v.state != INIT
  {
    GoalStays(owner, events, n);
    RunKeepsInv(owner, events);
  }

  /** And it is carried out: with the slave taking requests and answering success, at most
      two answers lead from there to DESTROYED. */
  lemma DestroyIsCarriedOut(v: Inst, env1: Env, env2: Env)
    requires Inv(v) && v.goal == DESTROYED && v.outstanding != [] && env1.accepted
    ensures var w := Answer(v, Result(0), env1);
            w.state == DESTROYED || (w.outstanding == [Delete] && Answer(w, Result(0), env2).state == DESTROYED)
  {
    AnswerKeepsProtocol(v, Result(0), env1);
    var u := v.(outstanding := v.outstanding[1..]);
    assert u.outstanding == [];
  }

  /** Nothing leaks: a DESTROYED instance whose request is answered in any way, whose
      viewers leave and whose holds are released, is freed by the last of these steps. */
  lemma {:induction false} DestroyedIsFreed(v: Inst, env: Env) returns (ops: seq<Op>, w: Inst)
    requires Inv(v) && v.state == DESTROYED
    ensures Inv(w) && w.freed && Leads(v, ops, env, w)
    ensures forall op :: op in ops ==> op.OpAnswer? || op.OpDelViewer? || op.OpRelease?
    decreases v.refcnt
  {
    if v.refcnt == 0 {
      return [], v;
    }
    var op := if v.outstanding != [] then OpAnswer(NoPacket)
              else if v.viewers != [] then OpDelViewer(v.viewers[0])
              else OpRelease;
    StepKeepsInv(v, op, env);
    DestroyedStep(v, op, env);
    var next := Step(v, op, env);
    assert v.viewers != [] ==> v.viewers[0] in v.viewers;
    var rest;
    rest, w := DestroyedIsFreed(next, env);
    ops := [op] + rest;
    assert ops[1..] == rest;
  }

  /** `ops`, all in the environment `env`, lead from `v` to `w`. */
  ghost predicate Leads(v: Inst, ops: seq<Op>, env: Env, w: Inst)
    decreases |ops|
  {
    if ops == [] then v == w
    else Books(v) && Enabled(v, ops[0]) && Leads(Step(v, ops[0], env), ops[1..], env, w)
  }
}
