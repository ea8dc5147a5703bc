/** One whole sweep, row by row, as a run of the sweep state machine. */
module SweepRefinement {
  import opened Scheduling
  import opened NotificationSweep

  /** A row after stale claims have been taken back. */
  function AfterReclaim(cfg: Settings, row: Row, now: Instant): Row {
    if Stale(cfg, row, now) then Reclaimed(row, now) else row
  }

  /** What one sweep does to one of the rows it chose. */
  function SweptRow(cfg: Settings, row: Row, now: Instant, outcome: Outcome, at: Instant): Row {
    var due := AfterReclaim(cfg, row, now);
    Recorded(cfg, Claimed(due, now), due.retries, outcome, at)
  }

  /** The first n chosen rows have their result, the rest are claimed, and no other row is touched. */
  ghost predicate SweptTo(cfg: Settings, before: map<NotificationId, Row>, after: map<NotificationId, Row>,
                          chosen: seq<NotificationId>, outcomes: seq<(Outcome, Instant)>, now: Instant, n: nat)
  {
    && n <= |chosen| == |outcomes|
    && after.Keys == before.Keys && (forall i :: 0 <= i < |chosen| ==> chosen[i] in before)
    && (forall i :: 0 <= i < n ==>
          after[chosen[i]] == SweptRow(cfg, before[chosen[i]], now, outcomes[i].0, outcomes[i].1))
    && (forall i :: n <= i < |chosen| ==>
          after[chosen[i]] == Claimed(AfterReclaim(cfg, before[chosen[i]], now), now))
    && (forall id :: id in before && id !in chosen ==> after[id] == AfterReclaim(cfg, before[id], now))
  }

  /** The database may choose these rows, each once, and every send finishes within the lease. */
  ghost predicate Sweepable(cfg: Settings, w: World, limit: nat, chosen: seq<NotificationId>,
                            outcomes: seq<(Outcome, Instant)>)
  {
    && |chosen| <= limit && |outcomes| == |chosen|
    && (forall i, j :: 0 <= i < j < |chosen| ==> chosen[i] != chosen[j])
    && (forall id :: id in chosen ==> id in w.rows && Due(AfterReclaim(cfg, w.rows[id], w.now), w.now))
    && (forall i :: 0 <= i < |chosen| ==> w.now <= outcomes[i].1 <= w.now + cfg.lease)
    && (forall i, j :: 0 <= i < j < |chosen| ==> outcomes[i].1 <= outcomes[j].1)
  }

  function IdsOf(chosen: seq<NotificationId>): set<NotificationId> {
    set id | id in chosen
  }

  /** The actions of a sweep up to the result of its n-th row. */
  ghost function SweepActions(sweep: nat, limit: nat, chosen: seq<NotificationId>,
                              outcomes: seq<(Outcome, Instant)>, n: nat): seq<Action>
    requires n <= |chosen| == |outcomes|
  {
    if n == 0 then [Reclaim] + [ClaimDue(limit, IdsOf(chosen))] else
      var key := ClaimKey(sweep, chosen[n - 1]);
      SweepActions(sweep, limit, chosen, outcomes, n - 1)
      + [Tick(outcomes[n - 1].1)] + [Send(key, outcomes[n - 1].0)] + [Record(key)]
  }

  /** Where a sweep of w has got to after n rows. */
  ghost predicate SweepAt(cfg: Settings, w: World, w': World, chosen: seq<NotificationId>,
                          outcomes: seq<(Outcome, Instant)>, n: nat)
  {
    && SweptTo(cfg, w.rows, w'.rows, chosen, outcomes, w.now, n)
    && w'.now == (if n == 0 then w.now else outcomes[n - 1].1)
    && forall i :: n <= i < |chosen| ==>
      var key := ClaimKey(w.sweeps, chosen[i]);
      key in w'.claims && w'.claims[key] == Claim(AfterReclaim(cfg, w.rows[chosen[i]], w.now).retries, w.now, None)
  }

  lemma {:induction false} FewerDistinct(chosen: seq<NotificationId>)
    ensures |IdsOf(chosen)| <= |chosen|
  {
    if chosen != [] {
      FewerDistinct(chosen[1..]);
      assert chosen == [chosen[0]] + chosen[1..];
      assert IdsOf(chosen) == {chosen[0]} + IdsOf(chosen[1..]);
    }
  }

  lemma ReclaimStep(cfg: Settings, w: World)
    ensures Allowed(cfg, w, Reclaim)
    ensures Do(cfg, w, Reclaim) == w.(rows := map id | id in w.rows :: AfterReclaim(cfg, w.rows[id], w.now))
  {
  }

  lemma SweepStarts(cfg: Settings, w: World, limit: nat, chosen: seq<NotificationId>, outcomes: seq<(Outcome, Instant)>)
    requires Sweepable(cfg, w, limit, chosen, outcomes)
    ensures var r := Run(cfg, w, SweepActions(w.sweeps, limit, chosen, outcomes, 0));
      r.Some? && SweepAt(cfg, w, r.value, chosen, outcomes, 0)
  {
    hide AfterReclaim, Due, Stale, Run;
    FewerDistinct(chosen);
    ReclaimStep(cfg, w);
    EmptyRun(cfg, w);
    RunExtends(cfg, w, [], Reclaim);
    assert [] + [Reclaim] == [Reclaim];
    RunExtends(cfg, w, [Reclaim], ClaimDue(limit, IdsOf(chosen)));
  }

  lemma EmptyRun(cfg: Settings, w: World)
    ensures Run(cfg, w, []) == Some(w)
  {
  }

  lemma SweepContinues(cfg: Settings, w: World, limit: nat, chosen: seq<NotificationId>,
                       outcomes: seq<(Outcome, Instant)>, w': World, n: nat)
    requires Sweepable(cfg, w, limit, chosen, outcomes) && 0 < n <= |chosen|
    requires SweepAt(cfg, w, w', chosen, outcomes, n - 1)
    ensures var key, outcome, at := ClaimKey(w.sweeps, chosen[n - 1]), outcomes[n - 1].0, outcomes[n - 1].1;
      && Allowed(cfg, w', Tick(at))
      && var w1 := Do(cfg, w', Tick(at));
      && Allowed(cfg, w1, Send(key, outcome))
      && var w2 := Do(cfg, w1, Send(key, outcome));
      && Allowed(cfg, w2, Record(key))
      && SweepAt(cfg, w, Do(cfg, w2, Record(key)), chosen, outcomes, n)
  {
    hide Recorded, AfterReclaim, Due;
  }

  /**
   * A sweep that meets its lease is a run of the machine, so what is proved of every run is
   * proved of it: the rows it leaves are those of the run.
   */
  lemma {:induction false} SweepIsRun(cfg: Settings, w: World, limit: nat, chosen: seq<NotificationId>,
                                      outcomes: seq<(Outcome, Instant)>, n: nat)
    requires Sweepable(cfg, w, limit, chosen, outcomes) && n <= |chosen|
    ensures var r := Run(cfg, w, SweepActions(w.sweeps, limit, chosen, outcomes, n));
      r.Some? && SweepAt(cfg, w, r.value, chosen, outcomes, n)
  {
    if n == 0 {
      SweepStarts(cfg, w, limit, chosen, outcomes);
    } else {
      hide SweepAt, Run, Do, Allowed, Sweepable;
      SweepIsRun(cfg, w, limit, chosen, outcomes, n - 1);
      var actions := SweepActions(w.sweeps, limit, chosen, outcomes, n - 1);
      var key, outcome, at := ClaimKey(w.sweeps, chosen[n - 1]), outcomes[n - 1].0, outcomes[n - 1].1;
      SweepContinues(cfg, w, limit, chosen, outcomes, Run(cfg, w, actions).value, n);
      RunExtends(cfg, w, actions, Tick(at));
      RunExtends(cfg, w, actions + [Tick(at)], Send(key, outcome));
      RunExtends(cfg, w, actions + [Tick(at)] + [Send(key, outcome)], Record(key));
    }
  }
}
