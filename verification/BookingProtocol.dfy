/**
 * Create, reschedule, follow-up and cancel as interleaved transactions over committed rows
 * and row locks. Every read sees the rows committed so far; a transaction's own writes
 * become visible, and its locks are released, when it commits or rolls back.
 */
module BookingProtocol {
  import opened Scheduling
  import opened CoachConflicts
  import opened Assignment
  import opened CoachSelection

  type TxId = nat
  type TeamId = nat

  datatype Kind = Create | Reschedule | FollowUp | Cancel {
    /** Inserts a row, as opposed to updating one. */
    predicate Inserts() {
      Create? || FollowUp?
    }
  }

  /**
   * What a caller asked for, with what was read before the transaction began. A cancellation
   * uses only the booking, the token flag and the current time.
   */
  datatype Request = Request(
    kind: Kind,
    id: BookingId,
    event: EventId,
    email: Email,
    start: Instant,
    end: Instant,
    preferred: Option<CoachId>,
    byToken: bool,
    now: Instant)

  /** The next thing a transaction will do. */
  datatype Phase =
    | LockSession | ReadSession | SelectTeam | LockRouting | LockCoach | CheckCapacity
    | UpsertStudent | LockStudent | CheckOverlap | ReadBooking | Write | Commit
    | Committed | RolledBack

  function Rank(p: Phase): nat {
    match p
    case LockSession => 0
    case ReadSession => 1
    case SelectTeam => 2
    case LockRouting => 3
    case LockCoach => 4
    case CheckCapacity => 5
    case UpsertStudent => 6
    case LockStudent => 7
    case CheckOverlap => 8
    case ReadBooking => 9
    case Write => 10
    case Commit => 11
    case Committed => 12
    case RolledBack => 12
  }

  datatype Tx = Tx(req: Request, phase: Phase, seen: Option<Team>, team: Team, cursor: Option<int>) {
    predicate Unfinished() {
      !phase.Committed? && !phase.RolledBack?
    }

    /** Has got past a phase of the booking path and has not finished. */
    predicate Past(p: Phase) {
      Unfinished() && !req.kind.Cancel? && Rank(phase) > Rank(p)
    }
  }

  datatype Lock =
    | OnSlot(slot: SlotId) | OnEvent(event: EventId) | OnRouting(routing: EventId)
    | OnCoach(coach: CoachId) | OnStudent(email: Email) | OnBooking(booking: BookingId)

  /** The class order in which every transaction takes its locks. */
  function LockClass(l: Lock): nat {
    match l
    case OnSlot(_) => 0
    case OnEvent(_) => 0
    case OnRouting(_) => 1
    case OnCoach(_) => 2
    case OnStudent(_) => 3
    case OnBooking(_) => 4
  }

  type Bookings = map<BookingId, Booking>

  /** Settings that no booking transaction changes. */
  datatype Config = Config(
    events: EventId -> EventConfig,
    slotAt: (EventId, Instant) -> Option<SlotId>,
    slotCoach: SlotId -> Option<CoachId>,
    slotCapacity: SlotId -> Option<nat>,
    teamOf: EventId -> TeamId,
    slotLoads: TeamId -> seq<(Option<CoachId>, nat)>,
    buffers: Buffers) {

    ghost predicate Valid() {
      forall e :: Ranked(events(e).pool)
    }

    /** The coach an admin assigned to the slot at this time, if there is a slot and a coach. */
    function AssignedCoach(e: EventId, start: Instant): Option<CoachId> {
      var slot := slotAt(e, start);
      if slot.Some? then slotCoach(slot.value) else None
    }

    function EffectiveMax(e: EventId, start: Instant): Option<nat> {
      var ev, slot := events(e), slotAt(e, start);
      if !ev.interaction.MultipleParticipants() then Some(1)
      else if ev.mode.FixedSlots? && slot.Some? && slotCapacity(slot.value).Some? then slotCapacity(slot.value)
      else ev.maxParticipants
    }
  }

  datatype World = World(
    bookings: Bookings,
    students: set<Email>,
    cursors: map<EventId, int>,
    locks: map<Lock, TxId>,
    txs: map<TxId, Tx>)

  // ----- Reads -----

  predicate InGroup(b: Booking, e: EventId, start: Instant) {
    b.event == e && b.start == start && !b.status.Cancelled?
  }

  function TeamOf(b: Booking): Team {
    Team(b.coach, b.coHosts)
  }

  /** The first booking found in the group, if any; which one is found is up to the database. */
  predicate ReadsSession(bookings: Bookings, e: EventId, start: Instant, seen: Option<Team>) {
    if seen.Some? then exists i :: i in bookings && InGroup(bookings[i], e, start) && TeamOf(bookings[i]) == seen.value
    else forall i :: i in bookings ==> !InGroup(bookings[i], e, start)
  }

  /** Some active booking other than the one being moved blocks the coach for [start, end). */
  predicate Busy(cfg: Config, bookings: Bookings, r: Request, c: CoachId) {
    exists i :: i in bookings && !(r.kind.Reschedule? && i == r.id) && bookings[i].status.Active()
      && bookings[i].Has(c)
      && InRange(bookings[i].start, bookings[i].end, r.start - LOOKBACK, r.end)
      && Meets(OfBooking(BookingRow(i, bookings[i]), cfg.buffers), r.start, r.end)
  }

  function Group(bookings: Bookings, e: EventId, start: Instant): set<BookingId> {
    set i | i in bookings && InGroup(bookings[i], e, start)
  }

  function GroupSize(bookings: Bookings, e: EventId, start: Instant): nat {
    |Group(bookings, e, start)|
  }

  predicate IsFull(cfg: Config, bookings: Bookings, r: Request) {
    var max := cfg.EffectiveMax(r.event, r.start);
    cfg.events(r.event).mode.FixedSlots? && max.Some? && GroupSize(bookings, r.event, r.start) >= max.value
  }

  predicate StudentClash(bookings: Bookings, r: Request) {
    exists i :: i in bookings && !(r.kind.Reschedule? && i == r.id)
      && bookings[i].email == r.email && bookings[i].status.Active()
      && Overlaps(bookings[i].start, bookings[i].end, r.start, r.end)
  }

  function LedBookings(cfg: Config, bookings: Bookings, team: TeamId, c: CoachId): set<BookingId> {
    set i | i in bookings && cfg.teamOf(bookings[i].event) == team && bookings[i].coach == Some(c)
            && !bookings[i].status.Cancelled?
  }

  /** The non-cancelled bookings each coach of the pool leads, over all events of the team. */
  function BookingLoads(cfg: Config, bookings: Bookings, e: EventId): Loads {
    var pool := set x | x in cfg.events(e).pool :: x.id;
    map c | c in pool :: |LedBookings(cfg, bookings, cfg.teamOf(e), c)|
  }

  /** The stored rotation cursor; an event that has not rotated yet starts at 1. */
  function StoredCursor(cursors: map<EventId, int>, e: EventId): int {
    if e in cursors then cursors[e] else 1
  }

  // ----- One transaction's next step -----

  /** What the environment supplies to a step: which session row is found, and who is free by calendar. */
  datatype Choice = Choice(seen: Option<Team>, calendar: CoachId -> bool)

  function SessionLock(cfg: Config, r: Request): Lock {
    var slot := cfg.slotAt(r.event, r.start);
    if slot.Some? then OnSlot(slot.value) else OnEvent(r.event)
  }

  /** The row the next step must lock, if it must lock one. */
  function Wants(cfg: Config, w: World, x: Tx): Option<Lock> {
    match x.phase
    case LockSession => Some(SessionLock(cfg, x.req))
    case LockRouting => Some(OnRouting(x.req.event))
    case LockCoach => if x.team.lead.Some? then Some(OnCoach(x.team.lead.value)) else None
    case UpsertStudent => Some(OnStudent(x.req.email))
    case LockStudent =>
      if x.req.kind.Inserts() || x.req.email in w.students then Some(OnStudent(x.req.email)) else None
    case Write => if x.req.kind.Inserts() then None else Some(OnBooking(x.req.id))
    case _ => None
  }

  predicate CanLock(w: World, t: TxId, l: Lock) {
    l in w.locks ==> w.locks[l] == t
  }

  predicate Enabled(cfg: Config, w: World, t: TxId) {
    && t in w.txs && w.txs[t].Unfinished()
    && (Wants(cfg, w, w.txs[t]).Some? ==> CanLock(w, t, Wants(cfg, w, w.txs[t]).value))
  }

  /** The row found is one that is there; single-participant events do not look. */
  predicate ChoiceFits(cfg: Config, w: World, x: Tx, ch: Choice) {
    x.phase.ReadSession? ==>
      if cfg.events(x.req.event).interaction.MultipleParticipants()
      then ReadsSession(w.bookings, x.req.event, x.req.start, ch.seen) else ch.seen == None
  }

  function Release(locks: map<Lock, TxId>, t: TxId): map<Lock, TxId> {
    map l | l in locks && locks[l] != t :: locks[l]
  }

  function Rollback(w: World, t: TxId): World
    requires t in w.txs
  {
    w.(locks := Release(w.locks, t), txs := w.txs[t := w.txs[t].(phase := RolledBack)])
  }

  /** Whether a coach can be offered: free by calendar and, outside shared slots, not busy. */
  function Offered(cfg: Config, w: World, r: Request, ch: Choice): CoachId -> bool {
    if cfg.events(r.event).mode.FixedSlots? then ch.calendar
    else (c: CoachId) => ch.calendar(c) && !Busy(cfg, w.bookings, r, c)
  }

  /** What selection reads inside the transaction: counts, cursor, and who can be offered. */
  function ReadsFor(cfg: Config, w: World, r: Request, ch: Choice): Reads {
    Reads(TotalLoads(BookingLoads(cfg, w.bookings, r.event), cfg.slotLoads(cfg.teamOf(r.event))),
          StoredCursor(w.cursors, r.event), Offered(cfg, w, r, ch))
  }

  function SelectionFor(cfg: Config, w: World, x: Tx, ch: Choice): Selection
    requires forall c :: c in cfg.events(x.req.event).pool ==> 0 < c.order
  {
    ResolveSelection(cfg.events(x.req.event), x.req.preferred, x.seen, cfg.AssignedCoach(x.req.event, x.req.start),
                     ReadsFor(cfg, w, x.req, ch))
  }

  /** The row a booking request writes. */
  function RowOf(cfg: Config, x: Tx): Booking {
    Booking(x.req.event, x.req.email, x.team.lead, x.team.coHosts, cfg.slotAt(x.req.event, x.req.start),
            x.req.start, x.req.end, Confirmed)
  }

  function Written(cfg: Config, bookings: Bookings, x: Tx): Bookings {
    var id := x.req.id;
    match x.req.kind
    case Create => bookings[id := RowOf(cfg, x)]
    case FollowUp => bookings[id := RowOf(cfg, x)]
    case Reschedule =>
      if id !in bookings then bookings else
        bookings[id := bookings[id].(start := x.req.start, end := x.req.end, coach := x.team.lead,
                                     coHosts := x.team.coHosts, slot := cfg.slotAt(x.req.event, x.req.start),
                                     status := Confirmed)]
    case Cancel =>
      if id !in bookings then bookings else bookings[id := bookings[id].(status := Cancelled)]
  }

  function CommitTx(cfg: Config, w: World, t: TxId): World
    requires t in w.txs
  {
    var x := w.txs[t];
    World(Written(cfg, w.bookings, x),
          if x.req.kind.Inserts() then w.students + {x.req.email} else w.students,
          if x.cursor.Some? then w.cursors[x.req.event := x.cursor.value] else w.cursors,
          Release(w.locks, t),
          w.txs[t := x.(phase := Committed)])
  }

  /** The token path refuses a booking that is not active or has started. */
  predicate MayCancel(w: World, r: Request) {
    && r.id in w.bookings
    && (r.byToken ==> w.bookings[r.id].status.Active() && r.now < w.bookings[r.id].start)
  }

  datatype Outcome = Proceed(x: Tx) | Fail

  /** The transaction after a step other than its commit, or its failure. */
  function After(cfg: Config, w: World, x: Tx, ch: Choice): Outcome
    requires x.Unfinished() && !x.phase.Commit?
    requires forall c :: c in cfg.events(x.req.event).pool ==> 0 < c.order
  {
    var r := x.req;
    match x.phase
    case LockSession => Proceed(x.(phase := ReadSession))
    case ReadSession => Proceed(x.(phase := SelectTeam, seen := ch.seen))
    case SelectTeam => (
      match SelectionFor(cfg, w, x, ch)
      case Refused(_) => Fail
      case Selected(team, cursor) =>
        Proceed(x.(phase := if cursor.Some? then LockRouting else LockCoach, team := team, cursor := cursor)))
    case LockRouting => Proceed(x.(phase := LockCoach))
    case LockCoach => if r.kind.FollowUp? && x.team.lead.None? then Fail else Proceed(x.(phase := CheckCapacity))
    case CheckCapacity =>
      if IsFull(cfg, w.bookings, r) then Fail
      else Proceed(x.(phase := if r.kind.Inserts() then UpsertStudent else LockStudent))
    case UpsertStudent => Proceed(x.(phase := LockStudent))
    case LockStudent => Proceed(x.(phase := CheckOverlap))
    case CheckOverlap => if StudentClash(w.bookings, r) then Fail else Proceed(x.(phase := Write))
    case ReadBooking => if MayCancel(w, r) then Proceed(x.(phase := Write)) else Fail
    case Write => if !r.kind.Inserts() && r.id !in w.bookings then Fail else Proceed(x.(phase := Commit))
  }

  /** A step takes the lock it wants and goes on; a failed one gives everything up. */
  function Next(cfg: Config, w: World, t: TxId, ch: Choice): World
    requires Enabled(cfg, w, t)
    requires forall c :: c in cfg.events(w.txs[t].req.event).pool ==> 0 < c.order
  {
    var x := w.txs[t];
    if x.phase.Commit? then CommitTx(cfg, w, t) else
      match After(cfg, w, x, ch)
      case Fail => Rollback(w, t)
      case Proceed(x') =>
        var wanted := Wants(cfg, w, x);
        w.(locks := if wanted.Some? then w.locks[wanted.value := t] else w.locks, txs := w.txs[t := x'])
  }

  // ----- Runs -----

  datatype Action =
    | Begin(t: TxId, req: Request)
    | Step(t: TxId, choice: Choice)
    | Abort(t: TxId)
    | Patch(id: BookingId, status: BookingStatus)

  /** Ids of new bookings are never drawn twice; a reschedule has read its booking; slots must match. */
  predicate MayBegin(cfg: Config, w: World, t: TxId, r: Request) {
    && t !in w.txs
    && (r.kind.Inserts() ==>
          r.id !in w.bookings && forall u :: u in w.txs && w.txs[u].req.kind.Inserts() ==> w.txs[u].req.id != r.id)
    && (r.kind.Reschedule? ==>
          && r.id in w.bookings && w.bookings[r.id].email == r.email && w.bookings[r.id].event == r.event
          && w.bookings[r.id].coach == r.preferred)
    && (!r.kind.Cancel? && cfg.events(r.event).mode.FixedSlots? ==> cfg.slotAt(r.event, r.start).Some?)
  }

  /** An admin status edit that does not bring a booking back. */
  predicate MayPatch(w: World, id: BookingId, status: BookingStatus) {
    && id in w.bookings && OnBooking(id) !in w.locks
    && (status.Active() ==> w.bookings[id].status.Active())
    && (!status.Cancelled? ==> !w.bookings[id].status.Cancelled?)
  }

  ghost predicate Allowed(cfg: Config, w: World, a: Action) {
    match a
    case Begin(t, r) => MayBegin(cfg, w, t, r)
    case Step(t, ch) => Enabled(cfg, w, t) && ChoiceFits(cfg, w, w.txs[t], ch)
    case Abort(t) => t in w.txs && w.txs[t].Unfinished()
    case Patch(id, status) => MayPatch(w, id, status)
  }

  function Started(r: Request): Tx {
    Tx(r, if r.kind.Cancel? then ReadBooking else LockSession, None, Team(None, []), None)
  }

  function Do(cfg: Config, w: World, a: Action): World
    requires cfg.Valid() && Allowed(cfg, w, a)
  {
    match a
    case Begin(t, r) => w.(txs := w.txs[t := Started(r)])
    case Step(t, ch) => Next(cfg, w, t, ch)
    case Abort(t) => Rollback(w, t)
    case Patch(id, status) => w.(bookings := w.bookings[id := w.bookings[id].(status := status)])
  }
}
