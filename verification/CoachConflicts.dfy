/**
 * Which stored rows block a coach for a session: the per-coach query, and the batched
 * tables that stand in for it when many coaches or many slots are checked at once.
 * Sessions are checked without a same-session exclusion, as COACH_AVAILABILITY events are.
 */
module CoachConflicts {
  import opened Scheduling

  /** How far before a session the queries look for rows whose buffer may reach into it. */
  const LOOKBACK: Instant := 120 * MINUTE

  /** Minutes an event keeps its coach blocked after a session ends. */
  type Buffers = EventId -> nat

  datatype Database = Database(bookings: seq<BookingRow>, slots: seq<SlotRow>, buffers: Buffers)

  /** A row in the shape the overlap filter needs. */
  datatype Conflict = Conflict(
    start: Instant, end: Instant, slot: Option<SlotId>, event: EventId, bufferMinutes: nat)

  function OfBooking(row: BookingRow, buffers: Buffers): Conflict {
    var b := row.booking;
    Conflict(b.start, b.end, b.slot, b.event, buffers(b.event))
  }

  function OfSlot(s: SlotRow, buffers: Buffers): Conflict {
    Conflict(s.start, s.end, Some(s.id), s.event, buffers(s.event))
  }

  /** The row's session plus its buffer meets [start, end). */
  predicate Meets(x: Conflict, start: Instant, end: Instant) {
    start < x.end + x.bufferMinutes * MINUTE && x.start < end
  }

  predicate InRange(s: Instant, e: Instant, from: Instant, to: Instant) {
    s < to && e > from
  }

  predicate BookingBlocks(row: BookingRow, exclude: Option<BookingId>) {
    row.booking.status.Active() && Some(row.id) != exclude
  }

  predicate SlotBlocks(s: SlotRow) {
    s.isActive && !s.isCancelled
  }

  /** x is one of the rows that keep coach c busy at some time. */
  ghost predicate KeepsBusy(db: Database, c: CoachId, exclude: Option<BookingId>, x: Conflict) {
    || (exists b :: b in db.bookings && b.booking.Has(c) && BookingBlocks(b, exclude) && OfBooking(b, db.buffers) == x)
    || (exists s :: s in db.slots && s.assignedCoach == Some(c) && SlotBlocks(s) && OfSlot(s, db.buffers) == x)
  }

  ghost predicate BuffersWithinLookback(buffers: Buffers) {
    forall e :: buffers(e) * MINUTE <= LOOKBACK
  }

  // ----- The per-coach query -----

  function GetCoachConflicts(db: Database, c: CoachId, start: Instant, end: Instant, exclude: Option<BookingId>)
    : seq<Conflict>
  {
    var lookbackStart := start - LOOKBACK;
    var bookings := Filter((b: BookingRow) => b.booking.Has(c) && BookingBlocks(b, exclude)
                      && InRange(b.booking.start, b.booking.end, lookbackStart, end), db.bookings);
    var slots := Filter((s: SlotRow) => s.assignedCoach == Some(c) && SlotBlocks(s)
                   && InRange(s.start, s.end, lookbackStart, end), db.slots);
    var rows := Map((b: BookingRow) => OfBooking(b, db.buffers), bookings)
              + Map((s: SlotRow) => OfSlot(s, db.buffers), slots);
    Filter((x: Conflict) => Meets(x, start, end), rows)
  }

  lemma QueryMembers(db: Database, c: CoachId, start: Instant, end: Instant, exclude: Option<BookingId>, x: Conflict)
    ensures x in GetCoachConflicts(db, c, start, end, exclude)
      <==> KeepsBusy(db, c, exclude, x) && InRange(x.start, x.end, start - LOOKBACK, end) && Meets(x, start, end)
  {
  }

  /** The query returns exactly the rows whose buffered session meets the one asked about. */
  lemma QueryIsExact(db: Database, c: CoachId, start: Instant, end: Instant, exclude: Option<BookingId>)
    requires BuffersWithinLookback(db.buffers)
    ensures forall x :: x in GetCoachConflicts(db, c, start, end, exclude)
              <==> KeepsBusy(db, c, exclude, x) && Meets(x, start, end)
  {
    forall x ensures x in GetCoachConflicts(db, c, start, end, exclude)
               <==> KeepsBusy(db, c, exclude, x) && Meets(x, start, end)
    {
      QueryMembers(db, c, start, end, exclude, x);
      assert KeepsBusy(db, c, exclude, x) ==> x.bufferMinutes == db.buffers(x.event);
    }
  }

  /**
   * The fixed lookback is enough for an event's rows, over every session, if and only if
   * the event's buffer is at most 120 minutes. Nothing in the schema bounds the buffer.
   */
  lemma LookbackSufficesIff(buffer: nat)
    ensures (forall x: Conflict, start, end :: x.bufferMinutes == buffer && Meets(x, start, end) ==>
               InRange(x.start, x.end, start - LOOKBACK, end))
        <==> buffer <= 120
  {
    if buffer > 120 {
      var x := Conflict(0, HOUR, None, 0, buffer);
      var start := HOUR + LOOKBACK;
      assert Meets(x, start, start + HOUR) && !InRange(x.start, x.end, start - LOOKBACK, start + HOUR);
    }
  }

  // ----- The batched tables -----

  /** The rows fetched once for a set of coaches, over a range of instants. */
  function FetchBookings(db: Database, pool: set<CoachId>, exclude: Option<BookingId>,
                         from: Instant, to: Instant): seq<BookingRow>
  {
    Filter((b: BookingRow) => ((b.booking.coach.Some? && b.booking.coach.value in pool)
                               || exists c :: c in pool && c in b.booking.coHosts)
             && BookingBlocks(b, exclude) && InRange(b.booking.start, b.booking.end, from, to), db.bookings)
  }

  function FetchSlots(db: Database, pool: set<CoachId>, from: Instant, to: Instant): seq<SlotRow> {
    Filter((s: SlotRow) => s.assignedCoach.Some? && s.assignedCoach.value in pool && SlotBlocks(s)
             && InRange(s.start, s.end, from, to), db.slots)
  }

  type ConflictTable = map<CoachId, seq<Conflict>>

  function Lookup(table: ConflictTable, c: CoachId): seq<Conflict> {
    if c in table then table[c] else []
  }

  /** x comes from one of these booking rows that has c as lead or co-host. */
  ghost predicate FromBookings(rows: seq<BookingRow>, c: CoachId, buffers: Buffers, x: Conflict) {
    exists b :: b in rows && b.booking.Has(c) && OfBooking(b, buffers) == x
  }

  ghost predicate FromSlots(rows: seq<SlotRow>, c: CoachId, buffers: Buffers, x: Conflict) {
    exists s :: s in rows && s.assignedCoach == Some(c) && OfSlot(s, buffers) == x
  }

  function AddConflict(table: ConflictTable, c: CoachId, x: Conflict): ConflictTable {
    table[c := Lookup(table, c) + [x]]
  }

  lemma AddedAtKey(table: ConflictTable, c: CoachId, x: Conflict)
    ensures forall d, y ::
      y in Lookup(AddConflict(table, c, x), d) <==> y in Lookup(table, d) || (d == c && y == x)
  {
  }

  /** One booking goes to its lead and to each co-host that is in the pool. */
  method DistributeBooking(table: ConflictTable, pool: set<CoachId>, b: Booking, x: Conflict)
    returns (result: ConflictTable)
    ensures forall c, y :: c in pool ==>
      (y in Lookup(result, c) <==> y in Lookup(table, c) || (b.Has(c) && y == x))
  {
    hide Lookup, AddConflict;
    result := table;
    if b.coach.Some? && b.coach.value in pool {
      AddedAtKey(result, b.coach.value, x);
      result := AddConflict(result, b.coach.value, x);
    }
    for j := 0 to |b.coHosts|
      invariant forall c, y :: c in pool ==>
        (y in Lookup(result, c) <==>
          y in Lookup(table, c) || ((b.coach == Some(c) || c in b.coHosts[..j]) && y == x))
    {
      assert b.coHosts[..j + 1] == b.coHosts[..j] + [b.coHosts[j]];
      if b.coHosts[j] in pool {
        AddedAtKey(result, b.coHosts[j], x);
        result := AddConflict(result, b.coHosts[j], x);
      }
    }
    assert b.coHosts[..|b.coHosts|] == b.coHosts;
  }

  lemma OneMoreBooking(rows: seq<BookingRow>, row: BookingRow, c: CoachId, buffers: Buffers, x: Conflict)
    ensures FromBookings(rows + [row], c, buffers, x)
      <==> FromBookings(rows, c, buffers, x) || (row.booking.Has(c) && OfBooking(row, buffers) == x)
  {
    assert row in rows + [row];
  }

  lemma OneMoreSlot(rows: seq<SlotRow>, s: SlotRow, c: CoachId, buffers: Buffers, x: Conflict)
    ensures FromSlots(rows + [s], c, buffers, x)
      <==> FromSlots(rows, c, buffers, x) || (s.assignedCoach == Some(c) && OfSlot(s, buffers) == x)
  {
    assert s in rows + [s];
  }

  /** Distributes fetched rows to the coaches of the pool. */
  method BuildConflictTable(pool: set<CoachId>, bookings: seq<BookingRow>, slots: seq<SlotRow>, buffers: Buffers)
    returns (table: ConflictTable)
    ensures forall c, x :: c in pool ==>
      (x in Lookup(table, c) <==> FromBookings(bookings, c, buffers, x) || FromSlots(slots, c, buffers, x))
  {
    table := map[];
    for i := 0 to |bookings|
      invariant forall c, x :: c in pool ==> (x in Lookup(table, c) <==> FromBookings(bookings[..i], c, buffers, x))
    {
      hide FromBookings, Lookup, OfBooking;
      var row := bookings[i];
      table := DistributeBooking(table, pool, row.booking, OfBooking(row, buffers));
      assert bookings[..i + 1] == bookings[..i] + [row];
      forall c: CoachId, x ensures FromBookings(bookings[..i + 1], c, buffers, x)
                     <==> FromBookings(bookings[..i], c, buffers, x) || (row.booking.Has(c) && OfBooking(row, buffers) == x)
      {
        OneMoreBooking(bookings[..i], row, c, buffers, x);
      }
    }
    assert bookings[..|bookings|] == bookings;
    for i := 0 to |slots|
      invariant forall c, x :: c in pool ==>
        (x in Lookup(table, c) <==> FromBookings(bookings, c, buffers, x) || FromSlots(slots[..i], c, buffers, x))
    {
      hide FromBookings, FromSlots, OfSlot, Lookup, AddConflict;
      var s := slots[i];
      assert slots[..i + 1] == slots[..i] + [s];
      forall c: CoachId, x ensures FromSlots(slots[..i + 1], c, buffers, x)
                     <==> FromSlots(slots[..i], c, buffers, x) || (s.assignedCoach == Some(c) && OfSlot(s, buffers) == x)
      {
        OneMoreSlot(slots[..i], s, c, buffers, x);
      }
      if s.assignedCoach.Some? && s.assignedCoach.value in pool {
        AddedAtKey(table, s.assignedCoach.value, OfSlot(s, buffers));
        table := AddConflict(table, s.assignedCoach.value, OfSlot(s, buffers));
      }
    }
    assert slots[..|slots|] == slots;
  }

  /** The in-memory filter for one session; rows of the shared slot it belongs to are not conflicts. */
  function FilterConflictsForSlot(all: seq<Conflict>, start: Instant, end: Instant, shared: Option<SlotId>): seq<Conflict> {
    Filter((x: Conflict) => InRange(x.start, x.end, start - LOOKBACK, end)
                            && !(shared.Some? && x.slot == shared) && Meets(x, start, end), all)
  }

  /** A fetch keeps, for each coach of the pool, all the rows that reach into the range. */
  lemma FetchMembers(db: Database, pool: set<CoachId>, exclude: Option<BookingId>, from: Instant, to: Instant,
                     c: CoachId, x: Conflict)
    requires c in pool
    ensures FromBookings(FetchBookings(db, pool, exclude, from, to), c, db.buffers, x)
         || FromSlots(FetchSlots(db, pool, from, to), c, db.buffers, x)
      <==> KeepsBusy(db, c, exclude, x) && InRange(x.start, x.end, from, to)
  {
  }

  /** The table of one batched fetch: each coach's blocking rows that reach into the range. */
  ghost predicate TableHolds(db: Database, pool: set<CoachId>, exclude: Option<BookingId>, from: Instant, to: Instant,
                             table: ConflictTable)
  {
    forall c, x :: c in pool ==>
      (x in Lookup(table, c) <==> KeepsBusy(db, c, exclude, x) && InRange(x.start, x.end, from, to))
  }

  /**
   * One batched fetch serves every session inside its range: for each coach of the pool,
   * filtering the table for the session leaves exactly what the coach's own query returns.
   */
  method BatchConflicts(db: Database, pool: set<CoachId>, exclude: Option<BookingId>, from: Instant, to: Instant)
    returns (table: ConflictTable)
    ensures TableHolds(db, pool, exclude, from, to, table)
    ensures forall c, start, end, x :: c in pool && from <= start - LOOKBACK && end <= to ==>
      (x in FilterConflictsForSlot(Lookup(table, c), start, end, None)
       <==> x in GetCoachConflicts(db, c, start, end, exclude))
  {
    var bookings := FetchBookings(db, pool, exclude, from, to);
    var slots := FetchSlots(db, pool, from, to);
    table := BuildConflictTable(pool, bookings, slots, db.buffers);
    forall c, x | c in pool
      ensures x in Lookup(table, c) <==> KeepsBusy(db, c, exclude, x) && InRange(x.start, x.end, from, to)
    {
      FetchMembers(db, pool, exclude, from, to, c, x);
    }
    forall c, start, end, x | c in pool && from <= start - LOOKBACK && end <= to
      ensures x in FilterConflictsForSlot(Lookup(table, c), start, end, None)
         <==> x in GetCoachConflicts(db, c, start, end, exclude)
    {
      QueryMembers(db, c, start, end, exclude, x);
    }
  }

  // ----- Sessions in a shared slot -----

  /** SQL's NOT (slot = wanted): unknown when the slot is null. */
  function DiffersFrom(slot: Option<SlotId>, wanted: SlotId): Option<bool> {
    if slot.None? then None else Some(slot.value != wanted)
  }

  /**
   * The per-coach query for a session in a shared slot. WHERE keeps a row only when the
   * exclusion is known to hold, so a booking without a slot is dropped.
   */
  function GetSlotConflicts(db: Database, c: CoachId, start: Instant, end: Instant, exclude: Option<BookingId>,
                            wanted: SlotId): seq<Conflict>
  {
    var bookings := Filter((b: BookingRow) => b.booking.Has(c) && BookingBlocks(b, exclude)
                      && InRange(b.booking.start, b.booking.end, start - LOOKBACK, end)
                      && DiffersFrom(b.booking.slot, wanted) == Some(true), db.bookings);
    var slots := Filter((s: SlotRow) => s.assignedCoach == Some(c) && SlotBlocks(s)
                   && InRange(s.start, s.end, start - LOOKBACK, end) && s.id != wanted, db.slots);
    var rows := Map((b: BookingRow) => OfBooking(b, db.buffers), bookings)
              + Map((s: SlotRow) => OfSlot(s, db.buffers), slots);
    Filter((x: Conflict) => Meets(x, start, end), rows)
  }

  lemma SlotQueryMembers(db: Database, c: CoachId, start: Instant, end: Instant, exclude: Option<BookingId>,
                         wanted: SlotId, x: Conflict)
    ensures x in GetSlotConflicts(db, c, start, end, exclude, wanted)
      <==> KeepsBusy(db, c, exclude, x) && InRange(x.start, x.end, start - LOOKBACK, end) && Meets(x, start, end)
           && x.slot.Some? && x.slot.value != wanted
  {
  }

  /** A row of the coach that meets the session and belongs to no slot, as a booking by availability does. */
  ghost predicate UnslottedConflict(db: Database, c: CoachId, exclude: Option<BookingId>, start: Instant, end: Instant,
                                    x: Conflict)
  {
    && KeepsBusy(db, c, exclude, x) && x.slot == None
    && InRange(x.start, x.end, start - LOOKBACK, end) && Meets(x, start, end)
  }

  /**
   * For a shared slot the table and the query do not always agree: the table also keeps exactly
   * the coach's conflicting bookings without a slot. They agree if and only if there are none.
   */
  lemma SharedTableAgreesIff(db: Database, pool: set<CoachId>, exclude: Option<BookingId>, from: Instant, to: Instant,
                             table: ConflictTable, c: CoachId, start: Instant, end: Instant, wanted: SlotId)
    requires TableHolds(db, pool, exclude, from, to, table) && c in pool && from <= start - LOOKBACK && end <= to
    ensures var fromTable := FilterConflictsForSlot(Lookup(table, c), start, end, Some(wanted));
      var fromQuery := GetSlotConflicts(db, c, start, end, exclude, wanted);
      && (forall x :: x in fromTable <==> x in fromQuery || UnslottedConflict(db, c, exclude, start, end, x))
      && ((forall x :: x in fromTable <==> x in fromQuery)
          <==> forall x :: !UnslottedConflict(db, c, exclude, start, end, x))
  {
    hide KeepsBusy, GetSlotConflicts, Lookup;
    var fromTable := FilterConflictsForSlot(Lookup(table, c), start, end, Some(wanted));
    var fromQuery := GetSlotConflicts(db, c, start, end, exclude, wanted);
    forall x
      ensures x in fromTable <==> x in fromQuery || UnslottedConflict(db, c, exclude, start, end, x)
      ensures !(x in fromQuery && UnslottedConflict(db, c, exclude, start, end, x))
    {
      SlotQueryMembers(db, c, start, end, exclude, wanted, x);
    }
  }

  /** Coach 1 has one confirmed booking without a slot, in the first hour. */
  function OneUnslotted(): BookingRow {
    BookingRow(0, Booking(0, 0, Some(1), [], None, 0, HOUR, Confirmed))
  }

  /** For shared slot 5 at that hour every such table keeps the booking and the query returns nothing. */
  lemma UnslottedBookingDivides(table: ConflictTable)
    requires TableHolds(Database([OneUnslotted()], [], (e: EventId) => 0), {1}, None, -LOOKBACK, HOUR, table)
    ensures FilterConflictsForSlot(Lookup(table, 1), 0, HOUR, Some(5)) != []
    ensures GetSlotConflicts(Database([OneUnslotted()], [], (e: EventId) => 0), 1, 0, HOUR, None, 5) == []
  {
    hide GetSlotConflicts, Lookup, FilterConflictsForSlot;
    var db := Database([OneUnslotted()], [], (e: EventId) => 0);
    var x := OfBooking(OneUnslotted(), db.buffers);
    assert db.bookings[0] == OneUnslotted();
    assert UnslottedConflict(db, 1, None, 0, HOUR, x);
    SharedTableAgreesIff(db, {1}, None, -LOOKBACK, HOUR, table, 1, 0, HOUR, 5);
    var fromQuery := GetSlotConflicts(db, 1, 0, HOUR, None, 5);
    if fromQuery != [] {
      SlotQueryMembers(db, 1, 0, HOUR, None, 5, fromQuery[0]);
      assert false;
    }
  }

  /**
   * Listing a shared slot asks the query, with the buffer; booking it asks the table, without.
   * A coach the listing finds no conflict for has one when booked if and only if one of the
   * coach's bookings without a slot meets the session.
   */
  lemma ListedSharedSlotConflictsIff(db: Database, pool: set<CoachId>, exclude: Option<BookingId>, from: Instant, to: Instant,
                                     table: ConflictTable, c: CoachId, start: Instant, end: Instant,
                                     bufferedEnd: Instant, wanted: SlotId)
    requires TableHolds(db, pool, exclude, from, to, table) && c in pool && from <= start - LOOKBACK && end <= to
    requires end <= bufferedEnd && GetSlotConflicts(db, c, start, bufferedEnd, exclude, wanted) == []
    ensures FilterConflictsForSlot(Lookup(table, c), start, end, Some(wanted)) != []
      <==> exists x :: UnslottedConflict(db, c, exclude, start, end, x)
  {
    hide GetSlotConflicts, Lookup, FilterConflictsForSlot, KeepsBusy, TableHolds;
    var fromTable := FilterConflictsForSlot(Lookup(table, c), start, end, Some(wanted));
    SharedTableAgreesIff(db, pool, exclude, from, to, table, c, start, end, wanted);
    forall x ensures x !in GetSlotConflicts(db, c, start, end, exclude, wanted) {
      SlotQueryMembers(db, c, start, end, exclude, wanted, x);
      SlotQueryMembers(db, c, start, bufferedEnd, exclude, wanted, x);
    }
    if fromTable != [] {
      assert fromTable[0] in fromTable;
    }
  }
}
