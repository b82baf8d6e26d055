/** What becomes of an instance: where each request, answer and event leads. */
module LifecycleOutcomes {
  import opened Lifecycle

  /** The package is not faulty, and the slave can be launched and takes requests. */
  predicate Willing(env: Env) {
    !env.fault && env.launched && env.accepted
  }

  // ---------------------------------------------------------------- activation

  /** Activation of an instance that is not loaded: its request is on its way, and the
      instance is to become ACTIVATED. */
  lemma ActivationIsAsked(v: Inst, r: Request, env: Env)
    requires Inv(v) && v.state == INIT && r != Delete && Willing(env)
    ensures var w := Step(v, OpLoad(r), env);
            && w.outstanding == [r] && w.goal == ACTIVATED && w.viewers == v.viewers && w.holds == v.holds
            && w.state == (if r == New then REQUEST_TO_ACTIVATE else REQUEST_TO_REACTIVATE)
  {
    assert v.outstanding == [];
  }

  /** It fails at once, with an error, when the package is faulty, the slave cannot be launched
      or the request is refused; then no request is on its way. */
  lemma ActivationFails(v: Inst, r: Request, env: Env)
    requires Inv(v) && v.state == INIT && r != Delete && !Willing(env)
    ensures LoadFails(v, env)
    ensures var w := Step(v, OpLoad(r), env);
            w.outstanding == [] && w.viewers == v.viewers && (env.fault || !env.launched ==> w == v)
  {
    assert v.outstanding == [];
  }

  /** Only then is there an error, but for a faulty package. */
  lemma ActivationSucceeds(v: Inst, env: Env)
    requires Inv(v)
    ensures v.state == INIT ==> (LoadFails(v, env) <==> !Willing(env))
    ensures v.state != INIT ==> (LoadFails(v, env) <==> env.fault)
  {
  }

  /** While another request is unanswered, activation is remembered; if it is loaded or
      DESTROYED already, or its package is faulty, nothing happens. */
  lemma ActivationIsRemembered(v: Inst, r: Request, env: Env)
    requires Inv(v) && v.state != INIT && !v.freed && r != Delete
    ensures var w := Step(v, OpLoad(r), env);
            w == if Requesting(v.state) && !env.fault then v.(goal := ACTIVATED) else v
  {
  }

  /** Who is told of the new instance when the answer to CMD_NEW comes. */
  lemma {:induction false} EverybodyIsAdded(v: Inst, cs: seq<Client>)
    requires Books(v)
    ensures var w := AddViewers(v, cs);
            && w.state == v.state && w.goal == v.goal && w.outstanding == v.outstanding && w.holds == v.holds
            && forall c :: c in w.viewers <==> c in v.viewers || (c in cs && c != v.owner)
    decreases |cs|
  {
    if cs != [] {
      var n := |cs| - 1;
      EverybodyIsAdded(v, cs[..n]);
      assert cs == cs[..n] + [cs[n]];
    }
  }

  /** The answer says that the slave has done it: 0, or 1 for CMD_NEW. */
  predicate Done(r: Request, ret: int) {
    ret == 0 || (r == New && ret == 1)
  }

  /** Activation is carried out: with a slave that takes requests and answers success, the
      answer leads to ACTIVATED, or to CMD_RENEW and its answer does. */
  lemma ActivationIsCarriedOut(v: Inst, ret: int, env1: Env, env2: Env)
    requires Inv(v) && v.goal == ACTIVATED && v.outstanding != [] && Done(v.outstanding[0], ret) && Willing(env1)
    ensures var w := Step(v, OpAnswer(Result(ret)), env1);
            if v.outstanding == [Delete] then
              && w.outstanding == [Renew] && w.goal == ACTIVATED && w.viewers == v.viewers
              && Step(w, OpAnswer(Result(0)), env2).state == ACTIVATED
              && Step(w, OpAnswer(Result(0)), env2).outstanding == []
            else w.state == ACTIVATED && w.outstanding == []
  {
    AnswerKeepsProtocol(v, Result(ret), env1);
    var u := v.(outstanding := v.outstanding[1..]);
    assert u.outstanding == [];
    EverybodyIsAdded(u.(state := ACTIVATED), env1.category);
  }

  /** And with the answer to CMD_NEW everybody who watches the category becomes a viewer, and
      the instance is made known to all. */
  lemma ActivationIsMadeKnown(v: Inst, ret: int, env: Env)
    requires Inv(v) && v.goal == ACTIVATED && v.outstanding == [New] && Done(New, ret)
    ensures var w := Step(v, OpAnswer(Result(ret)), env);
            && !w.unicast
            && forall c :: c in w.viewers <==> c in v.viewers || (c in env.category && c != v.owner)
  {
    var u := v.(outstanding := []);
    assert v.outstanding[1..] == [];
    EverybodyIsAdded(u.(state := ACTIVATED), env.category);
  }

  // ---------------------------------------------------------------- answers that fail

  /** The slave failed: the instance is DESTROYED, and nobody views it any more, unless it was
      never created. */
  lemma FailureDestroys(v: Inst, ret: int, env: Env)
    requires Inv(v) && v.outstanding != [] && v.state != DESTROYED && !Done(v.outstanding[0], ret)
    ensures var w := Step(v, OpAnswer(Result(ret)), env);
            && w.state == DESTROYED && w.outstanding == []
            && w.viewers == (if v.outstanding == [New] then v.viewers else [])
  {
    assert v.outstanding[1..] == [];
  }

  /** No answer, or one that cannot be read: the request is over, and nothing else changes. */
  lemma NoAnswerChangesNothing(v: Inst, reply: Reply, env: Env)
    requires Inv(v) && v.outstanding != [] && (!reply.Result? || v.state == DESTROYED)
    ensures var w := Step(v, OpAnswer(reply), env);
            && w.state == v.state && w.goal == v.goal && w.viewers == v.viewers && w.holds == v.holds
            && w.outstanding == [] && w.refcnt == v.refcnt - 1
  {
    assert v.outstanding[1..] == [];
  }

  // ---------------------------------------------------------------- destruction

  /** A loaded instance is destroyed by way of its slave, unless its package is being removed
      and the slave is gone. */
  lemma DestructionIsAsked(v: Inst, gone: bool, env: Env)
    requires Inv(v) && v.state == ACTIVATED && !v.freed
    ensures var w := Step(v, OpDestroy(gone), env);
            && w.goal == DESTROYED && w.holds == v.holds
            && (if gone && !env.slaveActivated then
                  w.state == DESTROYED && w.outstanding == [] && w.viewers == (if v.unicast then v.viewers else [])
                else w.state == REQUEST_TO_DESTROY && w.outstanding == (if env.accepted then [Delete] else [])
                     && w.viewers == v.viewers)
  {
    assert v.outstanding == [];
  }

  /** One that is not loaded is destroyed at once; one with a request unanswered, when the
      answer comes. */
  lemma DestructionElsewhere(v: Inst, gone: bool, env: Env)
    requires Inv(v) && v.state != ACTIVATED && !v.freed
    ensures var w := Step(v, OpDestroy(gone), env);
            && w.goal == DESTROYED && w.viewers == v.viewers && w.holds == v.holds && w.outstanding == v.outstanding
            && w.state == if v.state == INIT then DESTROYED else v.state
  {
  }

  /** The answer to CMD_DELETE after a destroy request: DESTROYED, and everybody who knew the
      instance is told; while only its owner knows it, the owner. */
  lemma DestructionIsCarriedOut(v: Inst, env: Env)
    requires Inv(v) && v.goal == DESTROYED && v.outstanding == [Delete] && v.state != DESTROYED
    ensures var w := Step(v, OpAnswer(Result(0)), env);
            w.state == DESTROYED && w.outstanding == [] && w.viewers == if v.unicast then v.viewers else []
  {
    assert v.outstanding[1..] == [];
  }

  /** A destroy request that comes before CMD_NEW or CMD_RENEW is answered: CMD_DELETE goes out
      with the answer. */
  lemma DestructionFollowsTheAnswer(v: Inst, ret: int, env: Env)
    requires Inv(v) && v.goal == DESTROYED && v.state != DESTROYED && env.accepted
    requires (v.outstanding == [New] || v.outstanding == [Renew]) && Done(v.outstanding[0], ret)
    ensures var w := Step(v, OpAnswer(Result(ret)), env);
            w.state == REQUEST_TO_DESTROY && w.outstanding == [Delete] && w.goal == DESTROYED && w.viewers == v.viewers
  {
    assert v.outstanding[1..] == [];
  }

  // ---------------------------------------------------------------- reloading

  /** A loaded instance that is reloaded comes back: CMD_DELETE, CMD_RENEW, ACTIVATED, and
      nobody loses sight of it. */
  lemma ReloadComesBack(v: Inst, gone: bool, env1: Env, env2: Env, env3: Env)
    requires Inv(v) && v.state == ACTIVATED && !v.freed && env1.accepted && Willing(env2)
    requires gone ==> env1.slaveActivated
    ensures var w := Step(v, OpReload(gone), env1);
            && w.outstanding == [Delete] && w.goal == ACTIVATED
            && var x := Step(w, OpAnswer(Result(0)), env2);
               && x.outstanding == [Renew]
               && var y := Step(x, OpAnswer(Result(0)), env3);
                  y.state == ACTIVATED && y.outstanding == [] && y.viewers == v.viewers && y.holds == v.holds
  {
    assert v.outstanding == [];
    var w := Step(v, OpReload(gone), env1);
    StepKeepsInv(v, OpReload(gone), env1);
    assert w.outstanding == [Delete] && w.outstanding[1..] == [];
    ActivationIsCarriedOut(w, 0, env2, env3);
  }

  /** One that is not loaded, or whose package is being replaced without its slave, is created
      anew; requests unanswered are not disturbed. */
  lemma ReloadElsewhere(v: Inst, gone: bool, env: Env)
    requires Inv(v) && !v.freed && !(v.state == ACTIVATED && !(gone && !env.slaveActivated))
    ensures var w := Step(v, OpReload(gone), env);
            if (v.state == INIT || v.state == ACTIVATED) && Willing(env) then
              w.state == REQUEST_TO_ACTIVATE && w.outstanding == [New] && w.goal == ACTIVATED && w.viewers == v.viewers
            else
              w.viewers == v.viewers && w.outstanding == v.outstanding
              && (Requesting(v.state) || v.state == DESTROYED ==> w == v)
  {
  }

  // ---------------------------------------------------------------- slaves go and come

  /** The slave says that the instance is gone: so it is, for all who have seen it. */
  lemma VanishedIsDestroyed(v: Inst, env: Env)
    requires Inv(v) && !v.freed
    ensures var w := Step(v, OpVanish, env);
            && w.state == DESTROYED && w.outstanding == v.outstanding && w.holds == v.holds
            && w.viewers == if v.state == DESTROYED
                               || (v.unicast && (v.state == INIT || v.state == REQUEST_TO_ACTIVATE))
                            then v.viewers else []
  {
  }

  /** The slave is lost: an instance to be destroyed, or whose owner is gone, goes with it; all
      others wait for it. */
  lemma LosingTheSlave(v: Inst, env: Env)
    requires Inv(v) && !v.freed
    ensures var w := Step(v, OpNeedSlave, env);
            && (w.state == DESTROYED <==> v.state == DESTROYED || env.ownerFaulted || v.goal == DESTROYED)
            && (w.state != DESTROYED ==> w == v) && w.viewers == v.viewers && w.outstanding == v.outstanding
  {
  }

  /** The slave is back: an instance that was loaded, or to be loaded, is asked for again, with
      CMD_NEW if it was never there and with CMD_RENEW if it was, and the answer makes it
      ACTIVATED. */
  lemma RecoveryComesBack(v: Inst, env1: Env, env2: Env)
    requires Inv(v) && !v.freed && v.outstanding == [] && Willing(env1)
    requires v.state != DESTROYED && (v.goal == ACTIVATED || v.goal == INIT)
    ensures var w := Step(v, OpRecover, env1);
            && w.outstanding == (if v.state == INIT || v.state == REQUEST_TO_ACTIVATE then [New] else [Renew])
            && w.goal == ACTIVATED && w.viewers == v.viewers && w.holds == v.holds
            && Step(w, OpAnswer(Result(0)), env2).state == ACTIVATED
  {
    var w := Step(v, OpRecover, env1);
    StepKeepsInv(v, OpRecover, env1);
    assert w.outstanding[1..] == [];
    EverybodyIsAdded(w.(outstanding := [], state := ACTIVATED), env2.category);
  }

  /** One that is to be destroyed, or whose package has become faulty, is destroyed; unanswered
      requests are not disturbed. */
  lemma RecoveryElsewhere(v: Inst, env: Env)
    requires Inv(v) && !v.freed
    ensures var w := Step(v, OpRecover, env);
            && (v.outstanding != [] ==> w == v)
            && (v.outstanding == [] && (v.goal == DESTROYED || env.fault) ==>
                  w.state == DESTROYED && w.viewers == v.viewers && w.outstanding == [])
  {
  }

  /** It cannot be loaded at once: an instance that was never there is given up, one that was
      there waits. */
  lemma RecoveryFails(v: Inst, env: Env)
    requires Inv(v) && !v.freed && v.outstanding == [] && v.state != DESTROYED && !env.fault && !env.launched
    requires v.goal == ACTIVATED || v.goal == INIT
    ensures var w := Step(v, OpRecover, env);
            && w.outstanding == []
            && (if v.state == INIT || v.state == REQUEST_TO_ACTIVATE then w.state == DESTROYED && w.viewers == []
                else w.state == INIT && w.viewers == v.viewers)
  {
  }

  // ---------------------------------------------------------------- viewers and holds

  /** Viewers come and go with a reference each, and the owner is none. */
  lemma ViewersComeAndGo(v: Inst, c: Client, env: Env)
    requires Inv(v) && !v.freed
    ensures var w := Step(v, OpDelViewer(c), env);
            && (forall d :: d in w.viewers <==> d in v.viewers && d != c)
            && w.refcnt == v.refcnt - (if c in v.viewers then 1 else 0)
            && w.state == v.state && w.outstanding == v.outstanding && w.holds == v.holds
    ensures c !in v.viewers ==>
              var w := Step(v, OpAddViewer(c), env);
              && (forall d :: d in w.viewers <==> d in v.viewers || (d == c && c != v.owner))
              && w.refcnt == v.refcnt + (if c != v.owner then 1 else 0)
              && w.state == v.state && w.outstanding == v.outstanding && w.holds == v.holds
  {
    RemoveDistinct(v.viewers, c);
  }

  lemma HoldsComeAndGo(v: Inst, env: Env)
    requires Inv(v) && !v.freed
    ensures var w := Step(v, OpHold, env);
            && w == v.(holds := v.holds + 1, refcnt := v.refcnt + 1)
            && Step(w, OpRelease, env) == v
  {
  }
}
