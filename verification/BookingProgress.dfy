/** Every transaction finishes: bounded steps, and from every reachable state a way to the end. */
module BookingProgress {
  import opened Scheduling
  import opened BookingProtocol
  import opened BookingLocks
  import opened BookingSafety

  /** How many of the actions are steps of transaction t. */
  function StepsOf(actions: seq<Action>, t: TxId): nat {
    if actions == [] then 0 else
      var a := actions[|actions| - 1];
      StepsOf(actions[..|actions| - 1], t) + if a.Step? && a.t == t then 1 else 0
  }

  function Progress(w: World, t: TxId): nat {
    if t in w.txs then Rank(w.txs[t].phase) else 0
  }

  lemma ActionMakesProgress(cfg: Config, w: World, a: Action, t: TxId)
    requires cfg.Valid() && Invariant(cfg, w) && Allowed(cfg, w, a)
    ensures Progress(Do(cfg, w, a), t) >= Progress(w, t) + if a.Step? && a.t == t then 1 else 0
  {
    hide Next, Safe, Checked;
    if a.Step? {
      NextShape(cfg, w, a.t, a.choice);
    }
  }

  /** In every run a transaction takes at most twelve steps, so with no deadlock all of them finish. */
  lemma {:induction false} StepsAreBounded(cfg: Config, w: World, actions: seq<Action>, t: TxId)
    requires cfg.Valid() && Initial(cfg, w) && Run(cfg, w, actions).Some?
    ensures StepsOf(actions, t) <= Progress(Run(cfg, w, actions).value, t) <= Rank(Committed)
  {
    hide Do, Allowed, Invariant, Initial, Rank;
    if actions != [] {
      var prefix := actions[..|actions| - 1];
      StepsAreBounded(cfg, w, prefix, t);
      RunKeepsInvariant(cfg, w, prefix);
      ActionMakesProgress(cfg, Run(cfg, w, prefix).value, actions[|actions| - 1], t);
    }
    RankBound(Run(cfg, w, actions).value, t);
  }

  lemma RankBound(w: World, t: TxId)
    ensures Progress(w, t) <= Rank(Committed)
  {
  }

  /** The step numbers each transaction still has before it. */
  ghost function Left(w: World): set<(TxId, nat)> {
    set t, k: nat | t in w.txs && k < Rank(Committed) && Rank(w.txs[t].phase) <= k :: (t, k)
  }

  lemma StepLeavesLess(cfg: Config, w: World, t: TxId, ch: Choice)
    requires cfg.Valid() && Invariant(cfg, w) && Allowed(cfg, w, Step(t, ch))
    ensures Left(Next(cfg, w, t, ch)) < Left(w) && Next(cfg, w, t, ch).txs.Keys == w.txs.Keys
  {
    NextShape(cfg, w, t, ch);
    hide Next, Safe, Checked, LocksMatch, Allowed, Left, Rank;
    LaterPhaseLeavesLess(w, Next(cfg, w, t, ch), t);
  }

  lemma LaterPhaseLeavesLess(w: World, w': World, t: TxId)
    requires t in w.txs && t in w'.txs && w'.txs == w.txs[t := w'.txs[t]]
    requires Rank(w.txs[t].phase) < Rank(w'.txs[t].phase)
    ensures Left(w') < Left(w)
  {
    RankBound(w', t);
    hide Rank;
    assert (t, Rank(w.txs[t].phase)) in Left(w) && (t, Rank(w.txs[t].phase)) !in Left(w');
  }

  lemma {:induction false} RunConcat(cfg: Config, w: World, first: seq<Action>, then': seq<Action>)
    requires cfg.Valid() && Run(cfg, w, first).Some?
    ensures Run(cfg, w, first + then') == Run(cfg, Run(cfg, w, first).value, then')
  {
    hide Do, Allowed;
    if then' == [] {
      assert first + then' == first;
    } else {
      RunConcat(cfg, w, first, then'[..|then'| - 1]);
      assert (first + then')[..|first + then'| - 1] == first + then'[..|then'| - 1];
    }
  }

  lemma RunOfOne(cfg: Config, w: World, a: Action)
    requires cfg.Valid() && Allowed(cfg, w, a)
    ensures Run(cfg, w, [a]) == Some(Do(cfg, w, a))
  {
    hide Do, Allowed;
    assert Run(cfg, w, [a][..0]) == Some(w);
  }

  lemma FinishAll(cfg: Config, w: World) returns (more: seq<Action>)
    requires cfg.Valid() && Invariant(cfg, w)
    ensures forall a :: a in more ==> a.Step?
    ensures Run(cfg, w, more).Some?
    ensures var w' := Run(cfg, w, more).value;
      w'.txs.Keys == w.txs.Keys && forall t :: t in w'.txs ==> !w'.txs[t].Unfinished()
    decreases Left(w)
  {
    hide Invariant, Next, Allowed, Left;
    if t :| t in w.txs && w.txs[t].Unfinished() {
      assert Consistent(cfg, w) by {
        InvariantIsConsistent(cfg, w);
      }
      hide Consistent;
      var u := SomeoneCanStep(cfg, w, t);
      var ch := EnabledMeansStep(cfg, w, u);
      var a := Step(u, ch);
      ActionKeepsInvariant(cfg, w, a);
      StepLeavesLess(cfg, w, u, ch);
      RunOfOne(cfg, w, a);
      var rest := FinishAll(cfg, Do(cfg, w, a));
      RunConcat(cfg, w, [a], rest);
      more := [a] + rest;
    } else {
      more := [];
    }
  }

  lemma InvariantIsConsistent(cfg: Config, w: World)
    ensures Invariant(cfg, w) ==> Consistent(cfg, w)
  {
  }

  /**
   * After any run there is a way to go on, with steps of the transactions alone, that finishes
   * every one of them, and in which the bookings stay in order.
   */
  lemma {:induction false} EveryRunCanFinish(cfg: Config, w: World, actions: seq<Action>) returns (more: seq<Action>)
    requires cfg.Valid() && Initial(cfg, w) && Run(cfg, w, actions).Some?
    ensures forall a :: a in more ==> a.Step?
    ensures Run(cfg, w, actions + more).Some?
    ensures var now, w' := Run(cfg, w, actions).value, Run(cfg, w, actions + more).value;
      && w'.txs.Keys == now.txs.Keys && (forall t :: t in w'.txs ==> !w'.txs[t].Unfinished())
      && Safe(cfg, w'.bookings)
  {
    hide Run, Initial;
    RunKeepsInvariant(cfg, w, actions);
    more := FinishAll(cfg, Run(cfg, w, actions).value);
    RunConcat(cfg, w, actions, more);
    RunKeepsInvariant(cfg, w, actions + more);
  }
}
