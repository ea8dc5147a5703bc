/** Instants, intervals and the stored rows shared by availability and bookings. */
module Scheduling {

  /** Milliseconds since the Unix epoch. */
  type Instant = int

  type BookingId = nat
  type CoachId = nat
  type Email = nat
  type EventId = nat
  type SlotId = nat

  const SECOND: Instant := 1_000
  const MINUTE: Instant := 60_000
  const HOUR: Instant := 3_600_000
  const DAY: Instant := 86_400_000

  datatype Option<+T> = None | Some(value: T)

  datatype BookingStatus = Pending | Confirmed | Cancelled | Completed | NoShow {
    /** The statuses that occupy a student's and a coach's time. */
    predicate Active() {
      Pending? || Confirmed?
    }
  }

  datatype Booking = Booking(
    event: EventId,
    email: Email,
    coach: Option<CoachId>,
    coHosts: seq<CoachId>,
    slot: Option<SlotId>,
    start: Instant,
    end: Instant,
    status: BookingStatus) {

    /** The coach leads or co-hosts this booking. */
    predicate Has(c: CoachId) {
      coach == Some(c) || c in coHosts
    }
  }

  datatype BookingRow = BookingRow(id: BookingId, booking: Booking)

  /** A pre-created slot, to which a coach may be assigned before anyone books it. */
  datatype SlotRow = SlotRow(
    id: SlotId,
    event: EventId,
    assignedCoach: Option<CoachId>,
    start: Instant,
    end: Instant,
    isActive: bool,
    isCancelled: bool)

  /** Half-open intervals [s, e) and [s', e') share an instant (for non-empty intervals). */
  predicate Overlaps(s: Instant, e: Instant, s': Instant, e': Instant) {
    s < e' && s' < e
  }

  function Max(x: int, y: int): int {
    if x < y then y else x
  }

  function Min(x: int, y: int): int {
    if x < y then x else y
  }

  function Filter<T(!new)>(p: T -> bool, s: seq<T>): (r: seq<T>)
    ensures forall x :: x in r <==> x in s && p(x)
  {
    if s == [] then [] else
      (if p(s[0]) then [s[0]] else []) + Filter(p, s[1..])
  }

  lemma {:induction false} FilterAppend<T(!new)>(p: T -> bool, a: seq<T>, b: seq<T>)
    ensures Filter(p, a + b) == Filter(p, a) + Filter(p, b)
  {
    if a == [] {
      assert a + b == b;
    } else {
      FilterAppend(p, a[1..], b);
      assert (a + b)[0] == a[0] && (a + b)[1..] == a[1..] + b;
      var head := if p(a[0]) then [a[0]] else [];
      assert head + (Filter(p, a[1..]) + Filter(p, b)) == head + Filter(p, a[1..]) + Filter(p, b);
    }
  }

  function Map<T(!new), U(!new)>(f: T -> U, s: seq<T>): (r: seq<U>)
    ensures forall y :: y in r <==> exists x :: x in s && f(x) == y
  {
    if s == [] then [] else [f(s[0])] + Map(f, s[1..])
  }
}
