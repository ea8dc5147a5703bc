/** How many emails the sweeps send for one row, crashes and lost results included. */
module NotificationEmails {
  import opened Scheduling
  import opened NotificationSweep

  // ----- Claims, emails and recorded results -----

  /** A claim has sent what it says it has; a recorded result is of an email sent, by a claim that is over. */
  ghost predicate KeyFits(cfg: Settings, w: World, k: ClaimKey) {
    && (k in w.sends ==> k.sweep < w.sweeps)
    && (k in w.claims ==> k !in w.recorded && (w.claims[k].outcome.Some? <==> k in w.sends))
    && (k in w.claims && k in w.sends ==> w.claims[k].outcome == Some(w.sends[k].outcome))
    && (k in w.recorded ==> k in w.sends)
    && (k in w.recorded && w.sends[k].outcome.Delivered? ==> k.id in w.rows && w.rows[k.id].status.Sent?)
  }

  /** No email for a row is later than a live claim on it, or than a recorded delivery. */
  ghost predicate IsLast(cfg: Settings, w: World, k: ClaimKey, k': ClaimKey) {
    k' in w.sends && k.id == k'.id ==>
      && (k in w.claims && Live(cfg, w, w.claims[k]) ==> k'.sweep <= k.sweep)
      && (k in w.recorded && k in w.sends && w.sends[k].outcome.Delivered? ==> k'.sweep <= k.sweep)
  }

  ghost predicate EmailInvariant(cfg: Settings, w: World) {
    (forall k :: KeyFits(cfg, w, k)) && (forall k, k' :: IsLast(cfg, w, k, k'))
  }

  lemma ActionKeepsKeys(cfg: Settings, w: World, a: Action, k: ClaimKey)
    requires LeaseInvariant(cfg, w) && EmailInvariant(cfg, w) && Allowed(cfg, w, a)
    ensures KeyFits(cfg, Do(cfg, w, a), k)
  {
    assert KeyFits(cfg, w, k);
    if a.Send? || a.Record? {
      assert ClaimFits(cfg, w, a.key) && KeyFits(cfg, w, a.key);
    }
  }

  lemma ActionKeepsOrder(cfg: Settings, w: World, a: Action, k: ClaimKey, k': ClaimKey)
    requires LeaseInvariant(cfg, w) && EmailInvariant(cfg, w) && Allowed(cfg, w, a)
    ensures IsLast(cfg, Do(cfg, w, a), k, k')
  {
    hide Recorded, RecordedNow, Claimed, Reclaimed, Stale, Upserted, CancelledRow, WithFailure;
    assert IsLast(cfg, w, k, k') && KeyFits(cfg, w, k) && KeyFits(cfg, w, k');
    if a.Send? || a.Record? {
      assert ClaimFits(cfg, w, a.key) && KeyFits(cfg, w, a.key) && NotBothLive(cfg, w, k, a.key);
      assert IsLast(cfg, w, a.key, k');
    }
  }

  lemma ActionKeepsEmails(cfg: Settings, w: World, a: Action)
    requires LeaseInvariant(cfg, w) && EmailInvariant(cfg, w) && Allowed(cfg, w, a)
    ensures EmailInvariant(cfg, Do(cfg, w, a))
  {
    hide KeyFits, IsLast, Do, Allowed, LeaseInvariant;
    forall k ensures KeyFits(cfg, Do(cfg, w, a), k) {
      ActionKeepsKeys(cfg, w, a, k);
    }
    forall k, k' ensures IsLast(cfg, Do(cfg, w, a), k, k') {
      ActionKeepsOrder(cfg, w, a, k, k');
    }
  }

  lemma InitialEmails(cfg: Settings, w: World)
    ensures Initial(w) ==> LeaseInvariant(cfg, w) && EmailInvariant(cfg, w)
  {
  }

  lemma {:induction false} RunKeepsEmails(cfg: Settings, w: World, actions: seq<Action>)
    requires Initial(w) && Run(cfg, w, actions).Some?
    ensures EmailInvariant(cfg, Run(cfg, w, actions).value)
  {
    hide LeaseInvariant, EmailInvariant, Do, Allowed, Initial;
    InitialEmails(cfg, w);
    if actions != [] {
      var prefix := actions[..|actions| - 1];
      RunKeepsEmails(cfg, w, prefix);
      RunKeepsLease(cfg, w, prefix);
      ActionKeepsEmails(cfg, Run(cfg, w, prefix).value, actions[|actions| - 1]);
    }
  }

  // ----- Counting -----

  /** The sweeps' emails for one row. */
  function EmailsFor(w: World, id: NotificationId): set<ClaimKey> {
    set k | k in w.sends && k.id == id
  }

  function DeliveriesFor(w: World, id: NotificationId): set<ClaimKey> {
    set k | k in w.sends && k.id == id && w.sends[k].outcome.Delivered?
  }

  /** A set all of whose elements are one has at most one. */
  lemma AtMostOne<T>(s: set<T>)
    requires forall x, y :: x in s && y in s ==> x == y
    ensures |s| <= 1
  {
    if x :| x in s {
      assert s == {x};
    }
  }

  lemma SplitSet<T>(s: set<T>, t: set<T>)
    ensures |s| == |s * t| + |s - t|
  {
    assert s == s * t + (s - t) && s * t !! s - t;
  }

  /**
   * In every run, crashes, lost results and re-deliveries included, the emails delivered for a
   * row are at most one more than the deliveries whose result was never recorded, and the one
   * whose result was recorded is the last.
   */
  lemma {:induction false} DeliveredOnceButForLostResults(cfg: Settings, w: World, actions: seq<Action>, id: NotificationId)
    requires Initial(w) && Run(cfg, w, actions).Some?
    ensures var w' := Run(cfg, w, actions).value;
      && |DeliveriesFor(w', id)| <= 1 + |DeliveriesFor(w', id) - w'.recorded|
      && forall k, k' :: k in DeliveriesFor(w', id) * w'.recorded && k' in EmailsFor(w', id) ==> k'.sweep <= k.sweep
  {
    hide Run, Initial;
    RunKeepsEmails(cfg, w, actions);
    var w' := Run(cfg, w, actions).value;
    var recorded := DeliveriesFor(w', id) * w'.recorded;
    forall k, k' | k in recorded && k' in EmailsFor(w', id) ensures k'.sweep <= k.sweep {
      assert IsLast(cfg, w', k, k');
    }
    forall k, k' | k in recorded && k' in recorded ensures k == k' {
      assert IsLast(cfg, w', k, k') && IsLast(cfg, w', k', k);
    }
    AtMostOne(recorded);
    SplitSet(DeliveriesFor(w', id), w'.recorded);
  }

  lemma {:induction false} RecordedIsCounted(cfg: Settings, w: World, actions: seq<Action>, id: NotificationId)
    requires Initial(w) && Run(cfg, w, actions).Some?
    ensures |set k | k in Run(cfg, w, actions).value.recorded && k.id == id| == RecordsOf(actions, id)
  {
    hide LeaseInvariant, EmailInvariant, Allowed;
    if actions != [] {
      var prefix, a := actions[..|actions| - 1], actions[|actions| - 1];
      RecordedIsCounted(cfg, w, prefix, id);
      RunKeepsEmails(cfg, w, prefix);
      RecordedGrows(cfg, Run(cfg, w, prefix).value, a, id);
    }
  }

  lemma RecordedGrows(cfg: Settings, w: World, a: Action, id: NotificationId)
    requires EmailInvariant(cfg, w) && Allowed(cfg, w, a)
    ensures |set k | k in Do(cfg, w, a).recorded && k.id == id|
         == |set k | k in w.recorded && k.id == id| + if a.Record? && a.key.id == id then 1 else 0
  {
    var before := set k | k in w.recorded && k.id == id;
    var after := set k | k in Do(cfg, w, a).recorded && k.id == id;
    if a.Record? && a.key.id == id {
      assert KeyFits(cfg, w, a.key);
      assert after == before + {a.key};
    } else {
      assert after == before;
    }
  }

  /**
   * In every run with nothing enqueued twice, the sweeps email a row at most as often as the cap
   * allows, plus once for each send whose result was never recorded.
   */
  lemma {:induction false} EmailsAreBounded(cfg: Settings, w: World, actions: seq<Action>, id: NotificationId)
    requires 1 <= cfg.maxAttempts && Initial(w) && Run(cfg, w, actions).Some?
    requires forall a :: a in actions ==> !a.ReEnqueue?
    ensures var w' := Run(cfg, w, actions).value;
      |EmailsFor(w', id)| <= cfg.maxAttempts + |EmailsFor(w', id) - w'.recorded|
  {
    hide Run, Initial, RecordsOf;
    var w' := Run(cfg, w, actions).value;
    RunKeepsEmails(cfg, w, actions);
    RecordsAreBounded(cfg, w, actions, id);
    RecordedIsCounted(cfg, w, actions, id);
    forall k | k in w'.recorded ensures k in w'.sends {
      assert KeyFits(cfg, w', k);
    }
    assert EmailsFor(w', id) * w'.recorded == set k | k in w'.recorded && k.id == id;
    SplitSet(EmailsFor(w', id), w'.recorded);
  }
}
