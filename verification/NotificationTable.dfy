/** The notification rows as the service updates them, and the sweep and immediate send paths. */
module NotificationTable {
  import opened Scheduling
  import opened NotificationSweep
  import opened SweepRefinement

  type Rows = map<NotificationId, Row>

  datatype SendResult = NoRecord | Skipped(status: Status) | EmailSent | Retried | Threw

  class Table {
    const cfg: Settings
    var rows: Rows

    constructor (cfg: Settings)
      ensures this.cfg == cfg && rows == map[]
    {
      this.cfg := cfg;
      rows := map[];
    }

    // ----- Row updates -----

    /** Finds by key, leaves a sent or cancelled row alone, else creates or resets it. */
    method CreateOrUpsert(id: NotificationId, status: Status, sendAt: Option<Instant>, entity: EntityId)
      returns (record: Row)
      modifies this`rows
      ensures rows == old(rows)[id := record]
      ensures record == if id in old(rows) then Upserted(old(rows)[id], status, sendAt, entity)
                        else Row(status, 0, sendAt, None, entity)
    {
      if id in rows && (rows[id].status.Sent? || rows[id].status.Cancelled?) {
        return rows[id];
      }
      if id in rows {
        record := rows[id].(status := status, sendAt := sendAt, entity := entity);
      } else {
        record := Row(status, 0, sendAt, None, entity);
      }
      rows := rows[id := record];
    }

    method MarkSent(id: NotificationId, now: Instant)
      modifies this`rows
      ensures rows == if id in old(rows) then old(rows)[id := MarkedSent(old(rows[id]), now)] else old(rows)
    {
      if id in rows {
        rows := rows[id := rows[id].(status := Sent, lastAttempt := Some(now))];
      }
    }

    method MarkFailed(id: NotificationId, now: Instant)
      modifies this`rows
      ensures rows == if id in old(rows) then old(rows)[id := MarkedFailed(old(rows[id]), now)] else old(rows)
    {
      if id in rows {
        var row := rows[id];
        rows := rows[id := row.(status := Failed, retries := row.retries + 1, lastAttempt := Some(now))];
      }
    }

    method MarkForRetry(id: NotificationId, record: Row, now: Instant)
      modifies this`rows
      ensures rows == if id in old(rows) then old(rows)[id := MarkedForRetry(cfg, old(rows[id]), record.retries, now)]
                      else old(rows)
    {
      var nextRetries := record.retries + 1;
      var backoffMs := cfg.backoff * nextRetries;
      if id in rows {
        rows := rows[id := rows[id].(status := Retrying, retries := nextRetries,
                                     sendAt := Some(now + backoffMs), lastAttempt := Some(now))];
      }
    }

    /** Flips the due rows the database chose to SENDING in one statement and returns them. */
    method ClaimDue(limit: nat, chosen: seq<NotificationId>, now: Instant) returns (batch: seq<(NotificationId, Row)>)
      requires |chosen| <= limit && forall i, j :: 0 <= i < j < |chosen| ==> chosen[i] != chosen[j]
      requires forall id :: id in chosen ==> id in rows && Due(rows[id], now)
      modifies this`rows
      ensures rows.Keys == old(rows).Keys
      ensures forall id :: id in rows ==>
        rows[id] == if id in chosen then Claimed(old(rows)[id], now) else old(rows)[id]
      ensures |batch| == |chosen|
      ensures forall i :: 0 <= i < |chosen| ==> batch[i] == (chosen[i], rows[chosen[i]])
    {
      rows := map id | id in rows :: if id in chosen then Claimed(rows[id], now) else rows[id];
      batch := seq(|chosen|, i requires 0 <= i < |chosen| && chosen[i] in rows reads this => (chosen[i], rows[chosen[i]]));
    }

    method ReclaimStale(now: Instant) returns (count: nat)
      modifies this`rows
      ensures rows.Keys == old(rows).Keys
      ensures forall id :: id in rows ==>
        rows[id] == AfterReclaim(cfg, old(rows)[id], now)
      ensures count == |set id | id in old(rows) && Stale(cfg, old(rows)[id], now)|
    {
      count := |set id | id in rows && Stale(cfg, rows[id], now)|;
      rows := map id | id in rows :: if Stale(cfg, rows[id], now) then Reclaimed(rows[id], now) else rows[id];
    }

    method CancelByEntity(entity: EntityId) returns (count: nat)
      modifies this`rows
      ensures rows.Keys == old(rows).Keys
      ensures forall id | id in rows ::
        rows[id] == (if old(rows)[id].entity == entity && old(rows)[id].status.Cancellable()
                     then CancelledRow(old(rows)[id]) else old(rows)[id])
      ensures count == |set id | id in old(rows) && old(rows)[id].entity == entity && old(rows)[id].status.Cancellable()|
    {
      count := |set id | id in rows && rows[id].entity == entity && rows[id].status.Cancellable()|;
      rows := map id | id in rows ::
        if rows[id].entity == entity && rows[id].status.Cancellable() then CancelledRow(rows[id]) else rows[id];
    }

    // ----- Sending -----

    /**
     * Sends one record and records how it went. Only the scheduler may leave a row retrying,
     * and only for a transient failure below the cap; every other failure is final and thrown.
     */
    method SendStored(id: NotificationId, record: Row, outcome: Outcome, allowSchedulerRetry: bool, now: Instant)
      returns (result: SendResult)
      modifies this`rows
      ensures var skip := record.status.Sent? || record.status.Cancelled?;
        && (skip ==> rows == old(rows) && result == Skipped(record.status))
        && (!skip && id !in old(rows) ==> rows == old(rows))
        && (!skip && id in old(rows) && allowSchedulerRetry ==>
              rows == old(rows)[id := Recorded(cfg, old(rows[id]), record.retries, outcome, now)])
        && (!skip && id in old(rows) && !allowSchedulerRetry ==>
              rows == old(rows)[id := if outcome.Delivered? then MarkedSent(old(rows[id]), now)
                                      else MarkedFailed(old(rows[id]), now)])
        && (!skip ==> (result.EmailSent? <==> outcome.Delivered?))
        && (result.Retried? <==>
              !skip && allowSchedulerRetry && outcome == Transient && record.retries + 1 < cfg.maxAttempts)
        && (result.Threw? <==> !skip && !result.EmailSent? && !result.Retried?)
    {
      if record.status.Sent? || record.status.Cancelled? {
        return Skipped(record.status);
      }
      if outcome.Delivered? {
        MarkSent(id, now);
        return EmailSent;
      }
      if allowSchedulerRetry && CanRetry(cfg, record.retries, outcome) {
        MarkForRetry(id, record, now);
        return Retried;
      }
      MarkFailed(id, now);
      return Threw;
    }

    /** One sweep: reclaim, claim a batch, send each record; a thrown send does not stop the rest. */
    method ProcessScheduled(limit: nat, chosen: seq<NotificationId>, now: Instant, outcomes: seq<(Outcome, Instant)>)
      returns (processed: nat)
      requires |chosen| <= limit && |outcomes| == |chosen|
      requires forall i, j :: 0 <= i < j < |chosen| ==> chosen[i] != chosen[j]
      requires forall id :: id in chosen ==> id in rows && Due(AfterReclaim(cfg, rows[id], now), now)
      modifies this`rows
      ensures processed == |chosen|
      ensures SweptTo(cfg, old(rows), rows, chosen, outcomes, now, |chosen|)
    {
      hide Recorded, Due, AfterReclaim;
      var _ := ReclaimStale(now);
      var batch := ClaimDue(limit, chosen, now);
      for n := 0 to |batch|
        invariant SweptTo(cfg, old(rows), rows, chosen, outcomes, now, n)
      {
        var (id, record) := batch[n];
        var (outcome, at) := outcomes[n];
        var _ := SendStored(id, record, outcome, true, at);
      }
      return |batch|;
    }

    /** The immediate path: schedule for later, skip what is settled, else send once and for all. */
    method SendNotification(id: NotificationId, sendAt: Option<Instant>, entity: EntityId, outcome: Outcome, now: Instant)
      returns (result: SendResult)
      modifies this`rows
      ensures var later := sendAt.Some? && sendAt.value > now;
        var settled := id in old(rows) && (old(rows[id]).status.Sent? || old(rows[id]).status.Cancelled?);
        && id in rows && (forall other :: other in old(rows) && other != id ==> other in rows && rows[other] == old(rows)[other])
        && (settled ==> rows == old(rows) && result == Skipped(old(rows[id]).status))
        && (!settled && later ==> rows[id].status.Scheduled? && rows[id].sendAt == sendAt && result.NoRecord?)
        && (!settled && !later ==>
              && rows[id] == RecordedNow(if id in old(rows) then Upserted(old(rows[id]), Status.Pending, sendAt, entity)
                                         else Row(Status.Pending, 0, sendAt, None, entity), outcome, now)
              && (result.Threw? <==> !outcome.Delivered?))
    {
      var later := sendAt.Some? && sendAt.value > now;
      var record := CreateOrUpsert(id, if later then Scheduled else Status.Pending, sendAt, entity);
      if record.status.Sent? || record.status.Cancelled? {
        return Skipped(record.status);
      }
      if later {
        return NoRecord;
      }
      result := SendStored(id, record, outcome, false, now);
    }
  }
}
