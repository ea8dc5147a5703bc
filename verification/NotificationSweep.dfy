/**
 * The scheduled-notification sweep as a state machine: any number of sweeps claim, send,
 * record, crash and are reclaimed from, in any order, over one table of rows, beside the
 * immediate sends of rows that were not scheduled.
 */
module NotificationSweep {
  import opened Scheduling

  type NotificationId = nat
  type EntityId = nat

  datatype Status = Pending | Scheduled | Sending | Sent | Failed | Retrying | Cancelled {
    predicate Terminal() {
      Sent? || Failed? || Cancelled?
    }

    predicate Claimable() {
      Scheduled? || Retrying?
    }

    predicate Cancellable() {
      Scheduled? || Pending? || Retrying?
    }
  }

  datatype Row = Row(status: Status, retries: nat, sendAt: Option<Instant>, lastAttempt: Option<Instant>, entity: EntityId)

  /** Attempt cap, backoff base and claim lease, from the environment. */
  datatype Settings = Settings(maxAttempts: nat, backoff: nat, lease: nat)

  datatype Outcome = Delivered | Transient | Permanent

  // ----- What each statement does to a row -----

  predicate Due(row: Row, now: Instant) {
    row.status.Claimable() && row.sendAt.Some? && row.sendAt.value <= now
  }

  function Claimed(row: Row, now: Instant): Row {
    row.(status := Sending, lastAttempt := Some(now))
  }

  predicate Stale(cfg: Settings, row: Row, now: Instant) {
    row.status.Sending? && row.lastAttempt.Some? && row.lastAttempt.value < now - cfg.lease
  }

  function Reclaimed(row: Row, now: Instant): Row {
    row.(status := Retrying, sendAt := Some(now))
  }

  function MarkedSent(row: Row, now: Instant): Row {
    row.(status := Sent, lastAttempt := Some(now))
  }

  function MarkedFailed(row: Row, now: Instant): Row {
    row.(status := Failed, retries := row.retries + 1, lastAttempt := Some(now))
  }

  /** The retry count written is the claimed record's plus one, and so is the backoff factor. */
  function MarkedForRetry(cfg: Settings, row: Row, recordRetries: nat, now: Instant): Row {
    row.(status := Retrying, retries := recordRetries + 1,
         sendAt := Some(now + cfg.backoff * (recordRetries + 1)), lastAttempt := Some(now))
  }

  predicate CanRetry(cfg: Settings, recordRetries: nat, outcome: Outcome) {
    outcome.Transient? && recordRetries + 1 < cfg.maxAttempts
  }

  /** How the scheduler path records the outcome of a send. */
  function Recorded(cfg: Settings, row: Row, recordRetries: nat, outcome: Outcome, now: Instant): Row {
    if outcome.Delivered? then MarkedSent(row, now)
    else if CanRetry(cfg, recordRetries, outcome) then MarkedForRetry(cfg, row, recordRetries, now)
    else MarkedFailed(row, now)
  }

  function CancelledRow(row: Row): Row {
    row.(status := Status.Cancelled)
  }

  /** A re-delivered notification: sent and cancelled rows are left alone, others are reset. */
  function Upserted(row: Row, status: Status, sendAt: Option<Instant>, entity: EntityId): Row {
    if row.status.Sent? || row.status.Cancelled? then row
    else row.(status := status, sendAt := sendAt, entity := entity)
  }

  // ----- The state machine -----

  /** One sweep's claim on one row. */
  datatype ClaimKey = ClaimKey(sweep: nat, id: NotificationId)

  /** What the claim returned, and the result of the send once there is one. */
  datatype Claim = Claim(retries: nat, at: Instant, outcome: Option<Outcome>)

  /** An email a sweep sent: the status its row had at that moment, and how the send went. */
  datatype Email = Email(status: Status, outcome: Outcome)

  /**
   * The table, the sweeps' claims in progress, the rows an immediate send is under way for, the
   * clock, and the history: the sweeps' emails, which of their results were recorded, and when
   * failures were recorded.
   */
  datatype World = World(
    rows: map<NotificationId, Row>,
    claims: map<ClaimKey, Claim>,
    inFlight: set<NotificationId>,
    sweeps: nat,
    now: Instant,
    sends: map<ClaimKey, Email>,
    recorded: set<ClaimKey>,
    failures: map<NotificationId, seq<Instant>>)

  /** A sweep that has not recorded a result within the lease takes no further step on the claim. */
  predicate Live(cfg: Settings, w: World, c: Claim) {
    w.now <= c.at + cfg.lease
  }

  /**
   * Enqueue and ReEnqueue are the upsert of a key seen for the first time and again; a row left
   * PENDING is sent at once, and RecordNow records how that went. A crash abandons all of a
   * sweep's claims, a result whose update was lost abandons one, and AbandonNow an immediate send.
   */
  datatype Action =
    | Tick(later: Instant)
    | Enqueue(id: NotificationId, status: Status, sendAt: Option<Instant>, entity: EntityId)
    | ReEnqueue(id: NotificationId, status: Status, sendAt: Option<Instant>, entity: EntityId)
    | RecordNow(id: NotificationId, outcome: Outcome)
    | AbandonNow(id: NotificationId)
    | Reclaim
    | ClaimDue(limit: nat, ids: set<NotificationId>)
    | Send(key: ClaimKey, outcome: Outcome)
    | Record(key: ClaimKey)
    | Crash(sweep: nat)
    | LoseResult(key: ClaimKey)
    | CancelEntity(entity: EntityId)

  predicate Allowed(cfg: Settings, w: World, a: Action) {
    match a
    case Tick(later) => w.now <= later
    case Enqueue(id, status, sendAt, _) =>
      id !in w.rows && (status.Pending? || (status.Scheduled? && sendAt.Some? && sendAt.value > w.now))
    case ReEnqueue(id, status, sendAt, _) =>
      && id in w.rows && !w.rows[id].status.Sending? && id !in w.inFlight
      && (status.Pending? || (status.Scheduled? && sendAt.Some?))
    case RecordNow(id, _) => id in w.inFlight && id in w.rows
    case AbandonNow(id) => id in w.inFlight
    case Reclaim => true
    case ClaimDue(limit, ids) => |ids| <= limit && forall id :: id in ids ==> id in w.rows && Due(w.rows[id], w.now)
    case Send(key, _) => key in w.claims && Live(cfg, w, w.claims[key]) && w.claims[key].outcome.None?
    case Record(key) => key in w.claims && Live(cfg, w, w.claims[key]) && w.claims[key].outcome.Some? && key.id in w.rows
    case Crash(_) => true
    case LoseResult(_) => true
    case CancelEntity(_) => true
  }

  function FailuresOf(w: World, id: NotificationId): seq<Instant> {
    if id in w.failures then w.failures[id] else []
  }

  function WithFailure(w: World, id: NotificationId, outcome: Outcome): map<NotificationId, seq<Instant>> {
    if outcome.Delivered? then w.failures else w.failures[id := FailuresOf(w, id) + [w.now]]
  }

  function RecordResult(cfg: Settings, w: World, key: ClaimKey): World
    requires Allowed(cfg, w, Record(key))
  {
    var c := w.claims[key];
    w.(rows := w.rows[key.id := Recorded(cfg, w.rows[key.id], c.retries, c.outcome.value, w.now)],
       claims := w.claims - {key},
       recorded := w.recorded + {key},
       failures := WithFailure(w, key.id, c.outcome.value))
  }

  /** Marks a row after its immediate send, whatever the row's status has become meanwhile. */
  function RecordedNow(row: Row, outcome: Outcome, now: Instant): Row {
    if outcome.Delivered? then MarkedSent(row, now) else MarkedFailed(row, now)
  }

  function StartSweep(w: World, ids: set<NotificationId>): World
    requires forall id :: id in ids ==> id in w.rows
  {
    var keys := set id | id in ids :: ClaimKey(w.sweeps, id);
    w.(rows := map id | id in w.rows :: if id in ids then Claimed(w.rows[id], w.now) else w.rows[id],
       claims := w.claims + map k | k in keys :: Claim(if k.id in w.rows then w.rows[k.id].retries else 0, w.now, None),
       sweeps := w.sweeps + 1)
  }

  function Do(cfg: Settings, w: World, a: Action): World
    requires Allowed(cfg, w, a)
  {
    match a
    case Tick(later) => w.(now := later)
    case Enqueue(id, status, sendAt, entity) =>
      w.(rows := w.rows[id := Row(status, 0, sendAt, None, entity)],
         inFlight := if status.Pending? then w.inFlight + {id} else w.inFlight)
    case ReEnqueue(id, status, sendAt, entity) =>
      w.(rows := w.rows[id := Upserted(w.rows[id], status, sendAt, entity)],
         inFlight := if status.Pending? && !w.rows[id].status.Sent? && !w.rows[id].status.Cancelled?
                     then w.inFlight + {id} else w.inFlight)
    case RecordNow(id, outcome) =>
      w.(rows := w.rows[id := RecordedNow(w.rows[id], outcome, w.now)],
         inFlight := w.inFlight - {id},
         failures := WithFailure(w, id, outcome))
    case AbandonNow(id) => w.(inFlight := w.inFlight - {id})
    case Reclaim =>
      w.(rows := map id | id in w.rows :: if Stale(cfg, w.rows[id], w.now) then Reclaimed(w.rows[id], w.now) else w.rows[id])
    case ClaimDue(_, ids) => StartSweep(w, ids)
    case Send(key, outcome) =>
      w.(claims := w.claims[key := w.claims[key].(outcome := Some(outcome))],
         sends := w.sends[key := Email(if key.id in w.rows then w.rows[key.id].status else Status.Pending, outcome)])
    case Record(key) => RecordResult(cfg, w, key)
    case Crash(sweep) => w.(claims := map k | k in w.claims && k.sweep != sweep :: w.claims[k])
    case LoseResult(key) => w.(claims := w.claims - {key})
    case CancelEntity(entity) =>
      w.(rows := map id | id in w.rows ::
           if w.rows[id].entity == entity && w.rows[id].status.Cancellable() then CancelledRow(w.rows[id]) else w.rows[id])
  }

  // ----- Lease exclusivity -----

  /** A live claim's row is being sent, and is as the claim left it. */
  ghost predicate ClaimFits(cfg: Settings, w: World, k: ClaimKey) {
    k in w.claims && Live(cfg, w, w.claims[k]) ==>
      && k.id in w.rows && w.rows[k.id].status.Sending?
      && w.rows[k.id].lastAttempt == Some(w.claims[k].at) && w.rows[k.id].retries == w.claims[k].retries
  }

  /** Two claims on the same row are not both live. */
  ghost predicate NotBothLive(cfg: Settings, w: World, k: ClaimKey, k': ClaimKey) {
    k in w.claims && k' in w.claims && k.id == k'.id && k != k' ==>
      !Live(cfg, w, w.claims[k]) || !Live(cfg, w, w.claims[k'])
  }

  /** No two live claims are on the same row. */
  ghost predicate OneHolder(cfg: Settings, w: World) {
    forall k, k' :: NotBothLive(cfg, w, k, k')
  }

  /** A row with an immediate send under way is pending, or has been cancelled since. */
  ghost predicate InFlightFits(w: World) {
    forall id :: id in w.inFlight ==> id in w.rows && (w.rows[id].status.Pending? || w.rows[id].status.Cancelled?)
  }

  ghost predicate LeaseInvariant(cfg: Settings, w: World) {
    && (forall k :: ClaimFits(cfg, w, k)) && OneHolder(cfg, w) && InFlightFits(w)
    && (forall k :: k in w.claims ==> k.sweep < w.sweeps && w.claims[k].at <= w.now)
    && (forall k :: k in w.sends ==> w.sends[k].status == Sending)
  }

  lemma ClaimKeepsLease(cfg: Settings, w: World, limit: nat, ids: set<NotificationId>)
    requires LeaseInvariant(cfg, w) && Allowed(cfg, w, ClaimDue(limit, ids))
    ensures LeaseInvariant(cfg, StartSweep(w, ids))
  {
    var w' := StartSweep(w, ids);
    forall k | k in w.claims && k.id in ids ensures !Live(cfg, w, w.claims[k]) {
      assert ClaimFits(cfg, w, k);
    }
    forall k ensures ClaimFits(cfg, w', k) {
      assert ClaimFits(cfg, w, k);
    }
    forall k, k' ensures NotBothLive(cfg, w', k, k') {
      assert NotBothLive(cfg, w, k, k');
    }
  }

  lemma RecordKeepsLease(cfg: Settings, w: World, key: ClaimKey)
    requires LeaseInvariant(cfg, w) && Allowed(cfg, w, Record(key))
    ensures LeaseInvariant(cfg, RecordResult(cfg, w, key))
  {
    hide Recorded;
    var w' := RecordResult(cfg, w, key);
    assert ClaimFits(cfg, w, key);
    forall k ensures ClaimFits(cfg, w', k) {
      assert ClaimFits(cfg, w, k) && NotBothLive(cfg, w, k, key);
    }
    forall k, k' ensures NotBothLive(cfg, w', k, k') {
      assert NotBothLive(cfg, w, k, k');
    }
  }

  lemma ActionKeepsLease(cfg: Settings, w: World, a: Action)
    requires LeaseInvariant(cfg, w) && Allowed(cfg, w, a)
    ensures LeaseInvariant(cfg, Do(cfg, w, a))
  {
    hide RecordResult, StartSweep;
    if a.ClaimDue? {
      ClaimKeepsLease(cfg, w, a.limit, a.ids);
    } else if a.Record? {
      RecordKeepsLease(cfg, w, a.key);
    } else {
      var w' := Do(cfg, w, a);
      forall k ensures ClaimFits(cfg, w', k) {
        assert ClaimFits(cfg, w, k);
      }
      forall k, k' ensures NotBothLive(cfg, w', k, k') {
        assert NotBothLive(cfg, w, k, k');
      }
      if a.Send? {
        assert ClaimFits(cfg, w, a.key);
      }
    }
  }

  /**
   * A settled row no immediate send is under way for never changes again and is never sent
   * again, except that a failed one may be enqueued again.
   */
  lemma TerminalRowStays(cfg: Settings, w: World, a: Action, id: NotificationId)
    requires LeaseInvariant(cfg, w) && Allowed(cfg, w, a)
    requires id in w.rows && w.rows[id].status.Terminal() && id !in w.inFlight
    requires w.rows[id].status.Failed? && a.ReEnqueue? ==> a.id != id
    ensures var w' := Do(cfg, w, a);
      && id in w'.rows && w'.rows[id] == w.rows[id] && id !in w'.inFlight
      && (forall k :: k in w'.sends && k.id == id ==> k in w.sends && w'.sends[k] == w.sends[k])
  {
    if a.Send? || a.Record? {
      assert ClaimFits(cfg, w, a.key);
    }
  }

  /** Settled rows stay settled, in whichever way. */
  lemma TerminalStaysTerminal(cfg: Settings, w: World, a: Action, id: NotificationId)
    requires LeaseInvariant(cfg, w) && Allowed(cfg, w, a) && id in w.rows && w.rows[id].status.Terminal()
    requires !a.ReEnqueue?
    ensures var w' := Do(cfg, w, a); id in w'.rows && w'.rows[id].status.Terminal()
    ensures a.Record? ==> a.key.id != id
  {
    if a.Send? || a.Record? {
      assert ClaimFits(cfg, w, a.key);
    }
  }

  // ----- Retries and backoff -----

  /** Failure n+1 comes at least n backoff units after failure n. */
  ghost predicate Paced(cfg: Settings, fs: seq<Instant>) {
    forall n :: 0 < n < |fs| ==> fs[n] >= fs[n - 1] + cfg.backoff * n
  }

  /** The earliest instant at which the next attempt may be recorded. */
  function Earliest(cfg: Settings, fs: seq<Instant>): Instant
    requires fs != []
  {
    fs[|fs| - 1] + cfg.backoff * |fs|
  }

  ghost predicate RowPaced(cfg: Settings, row: Row, fs: seq<Instant>) {
    && row.retries == |fs| <= cfg.maxAttempts
    && (!row.status.Terminal() ==> row.retries < cfg.maxAttempts)
    && Paced(cfg, fs)
    && (row.status.Pending? ==> fs == [])
    && (fs != [] && row.status.Claimable() ==> row.sendAt.Some? && row.sendAt.value >= Earliest(cfg, fs))
    && (fs != [] && row.status.Sending? ==> row.lastAttempt.Some? && row.lastAttempt.value >= Earliest(cfg, fs))
  }

  ghost predicate RetryInvariant(cfg: Settings, w: World) {
    && 1 <= cfg.maxAttempts
    && w.failures.Keys <= w.rows.Keys
    && (forall id :: id in w.inFlight ==> FailuresOf(w, id) == [])
    && forall id :: id in w.rows ==> RowPaced(cfg, w.rows[id], FailuresOf(w, id))
  }

  lemma RecordIsPaced(cfg: Settings, row: Row, fs: seq<Instant>, outcome: Outcome, now: Instant)
    requires RowPaced(cfg, row, fs) && row.status.Sending? && row.lastAttempt.Some? && row.lastAttempt.value <= now
    ensures RowPaced(cfg, Recorded(cfg, row, row.retries, outcome, now), if outcome.Delivered? then fs else fs + [now])
  {
    hide Earliest;
    if !outcome.Delivered? {
      EarliestUnfolds(cfg, fs);
      EarliestUnfolds(cfg, fs + [now]);
    }
  }

  lemma EarliestUnfolds(cfg: Settings, fs: seq<Instant>)
    ensures fs != [] ==> Earliest(cfg, fs) == fs[|fs| - 1] + cfg.backoff * |fs|
  {
  }

  lemma ClaimedIsPaced(cfg: Settings, row: Row, fs: seq<Instant>, now: Instant)
    ensures RowPaced(cfg, row, fs) && Due(row, now) ==> RowPaced(cfg, Claimed(row, now), fs)
  {
  }

  lemma ReclaimedIsPaced(cfg: Settings, row: Row, fs: seq<Instant>, now: Instant)
    ensures RowPaced(cfg, row, fs) && Stale(cfg, row, now) ==> RowPaced(cfg, Reclaimed(row, now), fs)
  {
  }

  lemma CancelledIsPaced(cfg: Settings, row: Row, fs: seq<Instant>)
    ensures RowPaced(cfg, row, fs) && row.status.Cancellable() ==> RowPaced(cfg, CancelledRow(row), fs)
  {
  }

  lemma NewIsPaced(cfg: Settings, status: Status, sendAt: Option<Instant>, entity: EntityId)
    requires 1 <= cfg.maxAttempts
    ensures RowPaced(cfg, Row(status, 0, sendAt, None, entity), [])
  {
  }

  /** What one action does to one row keeps it paced. */
  lemma RowKeepsPace(cfg: Settings, w: World, a: Action, id: NotificationId)
    requires LeaseInvariant(cfg, w) && RetryInvariant(cfg, w) && Allowed(cfg, w, a) && !a.ReEnqueue?
    requires id in Do(cfg, w, a).rows
    ensures RowPaced(cfg, Do(cfg, w, a).rows[id], FailuresOf(Do(cfg, w, a), id))
  {
    hide RowPaced, Recorded, RecordedNow, Stale, Claimed, Reclaimed, CancelledRow;
    var fs := FailuresOf(w, id);
    if id in w.rows {
      var row := w.rows[id];
      assert RowPaced(cfg, row, fs);
      ClaimedIsPaced(cfg, row, fs, w.now);
      ReclaimedIsPaced(cfg, row, fs, w.now);
      CancelledIsPaced(cfg, row, fs);
      if a.Record? && a.key.id == id {
        assert ClaimFits(cfg, w, a.key);
        RecordIsPaced(cfg, row, fs, w.claims[a.key].outcome.value, w.now);
      } else if a.RecordNow? && a.id == id {
        RecordNowIsPaced(cfg, row, fs, a.outcome, w.now);
      }
    } else if a.Enqueue? {
      NewIsPaced(cfg, a.status, a.sendAt, a.entity);
    }
  }

  lemma ActionKeepsPace(cfg: Settings, w: World, a: Action)
    requires LeaseInvariant(cfg, w) && RetryInvariant(cfg, w) && Allowed(cfg, w, a) && !a.ReEnqueue?
    ensures RetryInvariant(cfg, Do(cfg, w, a))
  {
    hide RowPaced, Recorded, RecordedNow, Stale;
    var w' := Do(cfg, w, a);
    if a.Record? {
      assert ClaimFits(cfg, w, a.key);
    }
    forall id | id in w'.rows ensures RowPaced(cfg, w'.rows[id], FailuresOf(w', id)) {
      RowKeepsPace(cfg, w, a, id);
    }
  }

  lemma RecordNowIsPaced(cfg: Settings, row: Row, fs: seq<Instant>, outcome: Outcome, now: Instant)
    requires 1 <= cfg.maxAttempts && RowPaced(cfg, row, fs) && fs == []
    ensures RowPaced(cfg, RecordedNow(row, outcome, now), if outcome.Delivered? then fs else fs + [now])
  {
  }

  lemma TriangleStep(b: int, k: int)
    ensures b * (k * (k + 1)) == b * ((k - 1) * k) + 2 * (b * k)
  {
    assert k * (k + 1) == (k - 1) * k + 2 * k;
    assert b * ((k - 1) * k + 2 * k) == b * ((k - 1) * k) + b * (2 * k);
  }

  /** Pacing adds up: failure k+1 comes no earlier than backoff * k(k+1)/2 after the first. */
  lemma {:induction false} PacingAddsUp(cfg: Settings, fs: seq<Instant>, k: nat)
    requires Paced(cfg, fs) && k < |fs|
    ensures 2 * (fs[k] - fs[0]) >= cfg.backoff * (k * (k + 1))
  {
    if k > 0 {
      PacingAddsUp(cfg, fs, k - 1);
      TriangleStep(cfg.backoff, k);
    }
  }

  // ----- Every run -----

  ghost predicate Initial(w: World) {
    && w.rows == map[] && w.claims == map[] && w.inFlight == {}
    && w.sends == map[] && w.recorded == {} && w.failures == map[]
  }

  ghost function Run(cfg: Settings, w: World, actions: seq<Action>): Option<World> {
    if actions == [] then Some(w) else
      var before := Run(cfg, w, actions[..|actions| - 1]);
      var a := actions[|actions| - 1];
      if before.Some? && Allowed(cfg, before.value, a) then Some(Do(cfg, before.value, a)) else None
  }

  lemma {:induction false} RunKeepsLease(cfg: Settings, w: World, actions: seq<Action>)
    requires LeaseInvariant(cfg, w) && Run(cfg, w, actions).Some?
    ensures LeaseInvariant(cfg, Run(cfg, w, actions).value)
  {
    hide LeaseInvariant, Do, Allowed;
    if actions != [] {
      RunKeepsLease(cfg, w, actions[..|actions| - 1]);
      ActionKeepsLease(cfg, Run(cfg, w, actions[..|actions| - 1]).value, actions[|actions| - 1]);
    }
  }

  /**
   * Whatever the interleaving, a row being sent has at most one live holder, and every email
   * ever sent was for a row that was SENDING at that moment, so never for a cancelled one.
   */
  lemma EveryRunKeepsLease(cfg: Settings, w: World, actions: seq<Action>)
    requires Initial(w) && Run(cfg, w, actions).Some?
    ensures var w' := Run(cfg, w, actions).value;
      OneHolder(cfg, w') && forall k :: k in w'.sends ==> w'.sends[k].status == Sending
  {
    RunKeepsLease(cfg, w, actions);
  }

  lemma RunExtends(cfg: Settings, w: World, actions: seq<Action>, a: Action)
    requires Run(cfg, w, actions).Some? && Allowed(cfg, Run(cfg, w, actions).value, a)
    ensures Run(cfg, w, actions + [a]) == Some(Do(cfg, Run(cfg, w, actions).value, a))
  {
    assert (actions + [a])[..|actions|] == actions;
  }

  /**
   * Once a row is sent, cancelled, or failed and not enqueued again, and no immediate send of
   * it is under way, no run changes it or sends it again.
   */
  lemma {:induction false} TerminalRowStaysForever(cfg: Settings, w: World, actions: seq<Action>, id: NotificationId)
    requires LeaseInvariant(cfg, w) && Run(cfg, w, actions).Some?
    requires id in w.rows && w.rows[id].status.Terminal() && id !in w.inFlight
    requires w.rows[id].status.Failed? ==> forall a :: a in actions && a.ReEnqueue? ==> a.id != id
    ensures var w' := Run(cfg, w, actions).value;
      && id in w'.rows && w'.rows[id] == w.rows[id] && id !in w'.inFlight
      && (forall k :: k in w'.sends && k.id == id ==> k in w.sends && w'.sends[k] == w.sends[k])
  {
    hide LeaseInvariant, Do, Allowed;
    if actions != [] {
      var prefix := actions[..|actions| - 1];
      TerminalRowStaysForever(cfg, w, prefix, id);
      RunKeepsLease(cfg, w, prefix);
      TerminalRowStays(cfg, Run(cfg, w, prefix).value, actions[|actions| - 1], id);
    }
  }

  /** A cancelled row stays as it is in every run if and only if no immediate send of it is under way. */
  lemma CancelledRowStaysIff(cfg: Settings, w: World, id: NotificationId)
    requires LeaseInvariant(cfg, w) && id in w.rows && w.rows[id].status.Cancelled?
    ensures (forall actions: seq<Action> :: Run(cfg, w, actions).Some? ==>
               id in Run(cfg, w, actions).value.rows && Run(cfg, w, actions).value.rows[id] == w.rows[id])
      <==> id !in w.inFlight
  {
    if id in w.inFlight {
      var a := RecordNow(id, Delivered);
      RunExtends(cfg, w, [], a);
      assert [] + [a] == [a];
    } else {
      hide LeaseInvariant, Run;
      forall actions: seq<Action> | Run(cfg, w, actions).Some?
        ensures id in Run(cfg, w, actions).value.rows && Run(cfg, w, actions).value.rows[id] == w.rows[id]
      {
        TerminalRowStaysForever(cfg, w, actions, id);
      }
    }
  }

  function StatusOf(w: World, id: NotificationId): Option<Status> {
    if id in w.rows then Some(w.rows[id].status) else None
  }

  /** Such a run: a reminder is sent at once, its booking is cancelled meanwhile, and the row ends up SENT. */
  lemma CancelledThenSent(cfg: Settings, w: World, id: NotificationId, entity: EntityId)
    requires Initial(w)
    ensures var first := [Enqueue(id, Status.Pending, None, entity)] + [CancelEntity(entity)];
      var then' := first + [RecordNow(id, Delivered)];
      && Run(cfg, w, first).Some? && Run(cfg, w, then').Some?
      && StatusOf(Run(cfg, w, first).value, id) == Some(Status.Cancelled)
      && StatusOf(Run(cfg, w, then').value, id) == Some(Sent)
  {
    var a, b := Enqueue(id, Status.Pending, None, entity), CancelEntity(entity);
    RunExtends(cfg, w, [], a);
    assert [] + [a] == [a];
    RunExtends(cfg, w, [a], b);
    RunExtends(cfg, w, [a] + [b], RecordNow(id, Delivered));
  }

  lemma {:induction false} RunKeepsPace(cfg: Settings, w: World, actions: seq<Action>)
    requires LeaseInvariant(cfg, w) && RetryInvariant(cfg, w) && Run(cfg, w, actions).Some?
    requires forall a :: a in actions ==> !a.ReEnqueue?
    ensures RetryInvariant(cfg, Run(cfg, w, actions).value)
  {
    hide LeaseInvariant, RetryInvariant, Do, Allowed;
    if actions != [] {
      var prefix := actions[..|actions| - 1];
      RunKeepsPace(cfg, w, prefix);
      RunKeepsLease(cfg, w, prefix);
      ActionKeepsPace(cfg, Run(cfg, w, prefix).value, actions[|actions| - 1]);
    }
  }

  /**
   * With nothing enqueued twice, and through any crashes and reclaims: a row never fails more
   * than the cap, one still in play has failed less, and its failures keep their distance.
   */
  lemma EveryRunBoundsRetries(cfg: Settings, w: World, actions: seq<Action>, id: NotificationId, k: nat)
    requires 1 <= cfg.maxAttempts && Initial(w) && Run(cfg, w, actions).Some?
    requires forall a :: a in actions ==> !a.ReEnqueue?
    requires id in Run(cfg, w, actions).value.rows && k < |FailuresOf(Run(cfg, w, actions).value, id)|
    ensures var w' := Run(cfg, w, actions).value;
      var row, fs := w'.rows[id], FailuresOf(w', id);
      && row.retries == |fs| <= cfg.maxAttempts && (!row.status.Terminal() ==> |fs| < cfg.maxAttempts)
      && 2 * (fs[k] - fs[0]) >= cfg.backoff * (k * (k + 1))
  {
    hide Run;
    RunKeepsPace(cfg, w, actions);
    PacingAddsUp(cfg, FailuresOf(Run(cfg, w, actions).value, id), k);
  }

  // ----- Every row settles -----

  /** How many results the run has recorded for a row. */
  function RecordsOf(actions: seq<Action>, id: NotificationId): nat {
    if actions == [] then 0 else
      var a := actions[|actions| - 1];
      RecordsOf(actions[..|actions| - 1], id) + if a.Record? && a.key.id == id then 1 else 0
  }

  /** A row still in play was in play before, or is new, and a result recorded for it was a failure. */
  lemma RecordIsFailureInPlay(cfg: Settings, w: World, a: Action, id: NotificationId)
    requires LeaseInvariant(cfg, w) && RetryInvariant(cfg, w) && Allowed(cfg, w, a) && !a.ReEnqueue?
    ensures var w' := Do(cfg, w, a);
      && (id in w.rows ==> id in w'.rows)
      && (a.Record? && a.key.id == id ==> id in w.rows)
      && (id in w'.rows && id !in w.rows ==> FailuresOf(w', id) == [])
      && (id in w.rows && !w'.rows[id].status.Terminal() ==>
            && !w.rows[id].status.Terminal()
            && |FailuresOf(w', id)| == |FailuresOf(w, id)| + if a.Record? && a.key.id == id then 1 else 0)
  {
    hide LeaseInvariant, RetryInvariant, Stale;
    if id in w.rows && w.rows[id].status.Terminal() {
      TerminalStaysTerminal(cfg, w, a, id);
    }
    FailuresAreOfRows(cfg, w);
  }

  lemma FailuresAreOfRows(cfg: Settings, w: World)
    ensures RetryInvariant(cfg, w) ==> w.failures.Keys <= w.rows.Keys
  {
  }

  lemma {:induction false} RecordsInPlayAreFailures(cfg: Settings, w: World, actions: seq<Action>, id: NotificationId)
    requires 1 <= cfg.maxAttempts && Initial(w) && Run(cfg, w, actions).Some?
    requires forall a :: a in actions ==> !a.ReEnqueue?
    ensures var w' := Run(cfg, w, actions).value;
      && (id !in w'.rows ==> RecordsOf(actions, id) == 0)
      && (id in w'.rows && !w'.rows[id].status.Terminal() ==> RecordsOf(actions, id) == |FailuresOf(w', id)|)
  {
    hide Do, Allowed, LeaseInvariant, RetryInvariant;
    if actions != [] {
      var prefix := actions[..|actions| - 1];
      RecordsInPlayAreFailures(cfg, w, prefix, id);
      InitialKeepsInvariants(cfg, w);
      RunKeepsLease(cfg, w, prefix);
      RunKeepsPace(cfg, w, prefix);
      RecordIsFailureInPlay(cfg, Run(cfg, w, prefix).value, actions[|actions| - 1], id);
    }
  }

  lemma InitialKeepsInvariants(cfg: Settings, w: World)
    ensures Initial(w) ==> LeaseInvariant(cfg, w) && (1 <= cfg.maxAttempts ==> RetryInvariant(cfg, w))
  {
  }

  /**
   * With nothing enqueued twice, and through any crashes and reclaims, a row whose result has
   * been recorded as many times as the cap allows is settled.
   */
  lemma {:induction false} EnoughRecordsSettle(cfg: Settings, w: World, actions: seq<Action>, id: NotificationId)
    requires 1 <= cfg.maxAttempts && Initial(w) && Run(cfg, w, actions).Some?
    requires forall a :: a in actions ==> !a.ReEnqueue?
    requires cfg.maxAttempts <= RecordsOf(actions, id)
    ensures var w' := Run(cfg, w, actions).value;
      id in w'.rows && w'.rows[id].status.Terminal()
  {
    hide Run, RecordsOf, Initial, LeaseInvariant;
    RecordsInPlayAreFailures(cfg, w, actions, id);
    InitialKeepsInvariants(cfg, w);
    RunKeepsPace(cfg, w, actions);
  }

  /** In every such run no more results are recorded for a row than the cap allows. */
  lemma {:induction false} RecordsAreBounded(cfg: Settings, w: World, actions: seq<Action>, id: NotificationId)
    requires 1 <= cfg.maxAttempts && Initial(w) && Run(cfg, w, actions).Some?
    requires forall a :: a in actions ==> !a.ReEnqueue?
    ensures RecordsOf(actions, id) <= cfg.maxAttempts
  {
    hide Do, Allowed, LeaseInvariant, RetryInvariant, Initial;
    if actions != [] {
      var prefix, a := actions[..|actions| - 1], actions[|actions| - 1];
      var before := Run(cfg, w, prefix).value;
      RecordsAreBounded(cfg, w, prefix, id);
      InitialKeepsInvariants(cfg, w);
      RunKeepsLease(cfg, w, prefix);
      if id in before.rows && before.rows[id].status.Terminal() {
        TerminalStaysTerminal(cfg, before, a, id);
      } else if RecordsOf(prefix, id) == cfg.maxAttempts {
        EnoughRecordsSettle(cfg, w, prefix, id);
      }
    }
  }

  // ----- Crash-free processing -----

  /** A row claimed and recorded once per outcome; outcomes after a terminal state are not used. */
  function Processed(cfg: Settings, row: Row, outcomes: seq<(Outcome, Instant)>): Row
    decreases |outcomes|
  {
    if outcomes == [] || row.status.Terminal() then row
    else
      var claimed := Claimed(row, outcomes[0].1);
      Processed(cfg, Recorded(cfg, claimed, row.retries, outcomes[0].0, outcomes[0].1), outcomes[1..])
  }

  /** Without crashes, as many attempts as the cap leaves are enough to reach a terminal state. */
  lemma {:induction false} ProcessingEnds(cfg: Settings, row: Row, outcomes: seq<(Outcome, Instant)>)
    requires !row.status.Terminal() ==> row.retries < cfg.maxAttempts <= row.retries + |outcomes|
    ensures Processed(cfg, row, outcomes).status.Terminal()
    ensures row.retries <= cfg.maxAttempts ==> Processed(cfg, row, outcomes).retries <= cfg.maxAttempts
    decreases |outcomes|
  {
    if !row.status.Terminal() {
      var (outcome, at) := outcomes[0];
      ProcessingEnds(cfg, Recorded(cfg, Claimed(row, at), row.retries, outcome, at), outcomes[1..]);
    }
  }
}
