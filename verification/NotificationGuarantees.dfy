/**
 * What the sweep promises, said of statuses, outcomes, retries and instants alone: what each
 * action does to the rows, and what becomes of transient and permanent failures.
 */
module NotificationGuarantees {
  import opened Scheduling
  import opened NotificationSweep
  import opened NotificationEmails

  // ----- What each action does -----

  /** No row but this one is different. */
  ghost predicate OnlyRow(before: map<NotificationId, Row>, after: map<NotificationId, Row>, id: NotificationId) {
    forall i :: i != id ==> (i in after <==> i in before) && (i in before ==> after[i] == before[i])
  }

  /**
   * A sweep's result: delivered is SENT; a permanent failure is FAILED; a transient one is
   * RETRYING, due after a backoff of B times its number, if and only if it leaves retries below
   * the cap, and FAILED otherwise.
   */
  lemma RecordDoes(cfg: Settings, w: World, key: ClaimKey)
    requires LeaseInvariant(cfg, w) && Allowed(cfg, w, Record(key))
    ensures var w' := Do(cfg, w, Record(key));
      var row, outcome := w.rows[key.id], w.claims[key].outcome.value;
      && OnlyRow(w.rows, w'.rows, key.id) && key.id in w'.rows
      && var row' := w'.rows[key.id];
      && row.status == Sending && row'.lastAttempt == Some(w.now) && row'.entity == row.entity
      && (outcome == Delivered ==> row'.status == Sent && row'.retries == row.retries)
      && (outcome != Delivered ==> row'.retries == row.retries + 1)
      && (outcome == Permanent ==> row'.status == Failed)
      && (outcome == Transient ==>
            if row.retries + 1 < cfg.maxAttempts
            then row'.status == Retrying && row'.sendAt == Some(w.now + cfg.backoff * (row.retries + 1))
            else row'.status == Failed)
  {
    assert ClaimFits(cfg, w, key);
  }

  /** An immediate send's result is final either way. */
  lemma RecordNowDoes(cfg: Settings, w: World, id: NotificationId, outcome: Outcome)
    requires Allowed(cfg, w, RecordNow(id, outcome))
    ensures var w' := Do(cfg, w, RecordNow(id, outcome));
      && OnlyRow(w.rows, w'.rows, id) && id in w'.rows && w'.rows[id].lastAttempt == Some(w.now)
      && w'.rows[id].status == (if outcome == Delivered then Sent else Failed)
      && w'.rows[id].retries == w.rows[id].retries + (if outcome == Delivered then 0 else 1)
  {
  }

  /** Exactly the SENDING rows last attempted more than a lease ago become RETRYING, due at once. */
  lemma ReclaimDoes(cfg: Settings, w: World, id: NotificationId)
    requires id in w.rows
    ensures var row, w' := w.rows[id], Do(cfg, w, Reclaim);
      && id in w'.rows
      && w'.rows[id] == if row.status == Sending && row.lastAttempt.Some? && row.lastAttempt.value + cfg.lease < w.now
                        then row.(status := Retrying, sendAt := Some(w.now)) else row
  {
  }

  /** A row may be claimed if and only if it is SCHEDULED or RETRYING and due; exactly the claimed rows become SENDING. */
  lemma ClaimDoes(cfg: Settings, w: World, limit: nat, ids: set<NotificationId>)
    ensures Allowed(cfg, w, ClaimDue(limit, ids)) <==>
      && |ids| <= limit
      && forall id :: id in ids ==>
           && id in w.rows && (w.rows[id].status == Scheduled || w.rows[id].status == Retrying)
           && w.rows[id].sendAt.Some? && w.rows[id].sendAt.value <= w.now
    ensures Allowed(cfg, w, ClaimDue(limit, ids)) ==>
      var w' := Do(cfg, w, ClaimDue(limit, ids));
      && w'.rows.Keys == w.rows.Keys
      && forall id :: id in w.rows ==>
           w'.rows[id] == if id in ids then w.rows[id].(status := Sending, lastAttempt := Some(w.now)) else w.rows[id]
  {
  }

  /** Exactly the entity's SCHEDULED, PENDING and RETRYING rows are cancelled. */
  lemma CancelDoes(cfg: Settings, w: World, entity: EntityId, id: NotificationId)
    requires id in w.rows
    ensures var row, w' := w.rows[id], Do(cfg, w, CancelEntity(entity));
      && id in w'.rows
      && w'.rows[id] == if row.entity == entity && (row.status == Scheduled || row.status == Status.Pending || row.status == Retrying)
                        then row.(status := Status.Cancelled) else row
  {
  }

  /** A key seen again leaves a sent or cancelled row alone and resets any other, keeping its retries. */
  lemma ReEnqueueDoes(cfg: Settings, w: World, id: NotificationId, status: Status, sendAt: Option<Instant>, entity: EntityId)
    requires Allowed(cfg, w, ReEnqueue(id, status, sendAt, entity))
    ensures var row, w' := w.rows[id], Do(cfg, w, ReEnqueue(id, status, sendAt, entity));
      && OnlyRow(w.rows, w'.rows, id) && id in w'.rows
      && if row.status == Sent || row.status == Status.Cancelled then w'.rows[id] == row && w'.inFlight == w.inFlight
         else
           && w'.rows[id] == Row(status, row.retries, sendAt, row.lastAttempt, entity)
           && (id in w'.inFlight <==> status == Status.Pending)
  {
  }

  /** A new key is stored as asked, with no attempt made; one to be sent at once is under way. */
  lemma EnqueueDoes(cfg: Settings, w: World, id: NotificationId, status: Status, sendAt: Option<Instant>, entity: EntityId)
    requires Allowed(cfg, w, Enqueue(id, status, sendAt, entity))
    ensures var w' := Do(cfg, w, Enqueue(id, status, sendAt, entity));
      && OnlyRow(w.rows, w'.rows, id) && id in w'.rows && w'.rows[id] == Row(status, 0, sendAt, None, entity)
      && w'.inFlight == if status == Status.Pending then w.inFlight + {id} else w.inFlight
  {
  }

  /** Sending, crashing, losing a result and the clock change no row. */
  lemma OthersDoNothingToRows(cfg: Settings, w: World, a: Action)
    requires Allowed(cfg, w, a) && (a.Send? || a.Crash? || a.LoseResult? || a.AbandonNow? || a.Tick?)
    ensures Do(cfg, w, a).rows == w.rows
    ensures forall k :: k in Do(cfg, w, a).claims <==>
      k in w.claims && (a.Crash? ==> k.sweep != a.sweep) && (a.LoseResult? ==> k != a.key)
    ensures forall k :: k in Do(cfg, w, a).claims ==>
      Do(cfg, w, a).claims[k] == if a == Send(k, if a.Send? then a.outcome else Delivered)
                                 then w.claims[k].(outcome := Some(a.outcome)) else w.claims[k]
    ensures forall id :: id in Do(cfg, w, a).inFlight <==> id in w.inFlight && a != AbandonNow(id)
  {
  }

  // ----- Why a row failed -----

  /** Some sweep's recorded result for the row was a permanent failure. */
  ghost predicate FailedForGood(w: World, id: NotificationId) {
    exists k :: k in w.recorded && k in w.sends && k.id == id && w.sends[k].outcome == Permanent
  }

  lemma ResultsStay(cfg: Settings, w: World, a: Action, k: ClaimKey)
    requires EmailInvariant(cfg, w) && Allowed(cfg, w, a) && k in w.recorded
    ensures var w' := Do(cfg, w, a); k in w.sends && k in w'.recorded && k in w'.sends && w'.sends[k] == w.sends[k]
  {
    assert KeyFits(cfg, w, k);
    if a.Send? {
      assert KeyFits(cfg, w, a.key);
    }
  }

  lemma FailsForAReason(cfg: Settings, w: World, a: Action, id: NotificationId)
    requires LeaseInvariant(cfg, w) && EmailInvariant(cfg, w) && RetryInvariant(cfg, w) && Allowed(cfg, w, a)
    requires !a.ReEnqueue? && !(a.RecordNow? && a.id == id)
    requires id in w.rows && w.rows[id].status == Failed && |FailuresOf(w, id)| < cfg.maxAttempts ==> FailedForGood(w, id)
    ensures var w' := Do(cfg, w, a);
      id in w'.rows && w'.rows[id].status == Failed && |FailuresOf(w', id)| < cfg.maxAttempts ==> FailedForGood(w', id)
  {
    var w' := Do(cfg, w, a);
    if id in w.rows && w.rows[id].status == Failed {
      TerminalRowStays(cfg, w, a, id);
      SettledFailuresStay(cfg, w, a, id);
      if FailedForGood(w, id) {
        var k :| k in w.recorded && k in w.sends && k.id == id && w.sends[k].outcome == Permanent;
        ResultsStay(cfg, w, a, k);
      }
    } else if a.Record? && a.key.id == id {
      RecordDoes(cfg, w, a.key);
      assert KeyFits(cfg, w, a.key) && RowPaced(cfg, w.rows[id], FailuresOf(w, id));
    } else {
      BecomesFailedOnlyByResult(cfg, w, a, id);
    }
  }

  lemma SettledFailuresStay(cfg: Settings, w: World, a: Action, id: NotificationId)
    requires LeaseInvariant(cfg, w) && Allowed(cfg, w, a) && !a.ReEnqueue? && !(a.RecordNow? && a.id == id)
    requires id in w.rows && w.rows[id].status.Terminal()
    ensures FailuresOf(Do(cfg, w, a), id) == FailuresOf(w, id)
  {
    if a.Record? {
      assert ClaimFits(cfg, w, a.key);
    }
  }

  lemma BecomesFailedOnlyByResult(cfg: Settings, w: World, a: Action, id: NotificationId)
    requires Allowed(cfg, w, a) && !a.ReEnqueue? && !(a.RecordNow? && a.id == id) && !(a.Record? && a.key.id == id)
    requires id in w.rows ==> w.rows[id].status != Failed
    ensures var w' := Do(cfg, w, a); id in w'.rows ==> w'.rows[id].status != Failed
  {
    hide Recorded, Stale;
  }

  /**
   * In every run with nothing enqueued twice, a row that failed before using up its attempts,
   * and not by an immediate send, had a permanent failure recorded.
   */
  lemma {:induction false} EarlyFailureWasPermanent(cfg: Settings, w: World, actions: seq<Action>, id: NotificationId)
    requires 1 <= cfg.maxAttempts && Initial(w) && Run(cfg, w, actions).Some?
    requires forall a :: a in actions ==> !a.ReEnqueue? && !(a.RecordNow? && a.id == id)
    ensures var w' := Run(cfg, w, actions).value;
      id in w'.rows && w'.rows[id].status == Failed && |FailuresOf(w', id)| < cfg.maxAttempts ==> FailedForGood(w', id)
  {
    hide Do, Allowed, LeaseInvariant, RetryInvariant, EmailInvariant, FailedForGood;
    if actions != [] {
      var prefix := actions[..|actions| - 1];
      EarlyFailureWasPermanent(cfg, w, prefix, id);
      InitialKeepsInvariants(cfg, w);
      RunKeepsLease(cfg, w, prefix);
      RunKeepsPace(cfg, w, prefix);
      RunKeepsEmails(cfg, w, prefix);
      FailsForAReason(cfg, Run(cfg, w, prefix).value, actions[|actions| - 1], id);
    }
  }

  // ----- What follows a permanent failure -----

  /** After a recorded permanent failure the row is FAILED and no email for it is later. */
  ghost predicate PermanentIsLast(w: World, id: NotificationId) {
    forall k :: k in w.recorded && k in w.sends && k.id == id && w.sends[k].outcome == Permanent ==>
      && id in w.rows && w.rows[id].status == Failed
      && forall k' :: k' in w.sends && k'.id == id ==> k'.sweep <= k.sweep
  }

  lemma ActionKeepsPermanentLast(cfg: Settings, w: World, a: Action, id: NotificationId)
    requires LeaseInvariant(cfg, w) && EmailInvariant(cfg, w) && Allowed(cfg, w, a)
    requires PermanentIsLast(w, id) && !(a.ReEnqueue? && a.id == id)
    ensures PermanentIsLast(Do(cfg, w, a), id)
  {
    var w' := Do(cfg, w, a);
    forall k | k in w'.recorded && k in w'.sends && k.id == id && w'.sends[k].outcome == Permanent
      ensures id in w'.rows && w'.rows[id].status == Failed
      ensures forall k' :: k' in w'.sends && k'.id == id ==> k'.sweep <= k.sweep
    {
      if k in w.recorded {
        ResultsStay(cfg, w, a, k);
        TerminalRowStays(cfg, w, a, id);
      } else {
        NewResultIsRecord(cfg, w, a, k);
        RecordDoes(cfg, w, k);
        assert KeyFits(cfg, w, k);
        forall k' | k' in w'.sends && k'.id == id ensures k'.sweep <= k.sweep {
          assert IsLast(cfg, w, k, k');
        }
      }
    }
  }

  lemma NewResultIsRecord(cfg: Settings, w: World, a: Action, k: ClaimKey)
    requires Allowed(cfg, w, a) && k !in w.recorded && k in Do(cfg, w, a).recorded
    ensures a == Record(k)
  {
  }

  /** In every run that does not enqueue the row again, no sweep emails it after a recorded permanent failure. */
  lemma {:induction false} NoEmailAfterPermanentFailure(cfg: Settings, w: World, actions: seq<Action>, id: NotificationId)
    requires Initial(w) && Run(cfg, w, actions).Some?
    requires forall a :: a in actions && a.ReEnqueue? ==> a.id != id
    ensures PermanentIsLast(Run(cfg, w, actions).value, id)
  {
    hide Do, Allowed, LeaseInvariant, EmailInvariant;
    if actions != [] {
      hide PermanentIsLast;
      var prefix := actions[..|actions| - 1];
      NoEmailAfterPermanentFailure(cfg, w, prefix, id);
      InitialEmails(cfg, w);
      RunKeepsLease(cfg, w, prefix);
      RunKeepsEmails(cfg, w, prefix);
      ActionKeepsPermanentLast(cfg, Run(cfg, w, prefix).value, actions[|actions| - 1], id);
    }
  }
}
