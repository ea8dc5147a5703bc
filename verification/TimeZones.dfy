/**
 * Inverting a zone's offset function: wall clock to instant, and local midnight of a date.
 * A wall-clock reading is the instant whose UTC reading shows the same fields.
 */
module TimeZones {
  import opened Scheduling

  /** Offset from UTC, in milliseconds east, in force at an instant. */
  type Offsets = Instant -> int

  function Reading(off: Offsets, t: Instant): Instant {
    t + off(t)
  }

  /** The wall clock to the minute, as the formatters show it. */
  function UtcToZoned(off: Offsets, t: Instant): Instant {
    var local := Reading(off, t);
    local - local % MINUTE
  }

  /** Two passes: guess with the offset at the naive instant, then correct by the drift. */
  function ZonedToUtc(off: Offsets, wall: Instant): Instant {
    var result := wall + (wall - UtcToZoned(off, wall));
    var back := UtcToZoned(off, result);
    if back != wall then result + (wall - back) else result
  }

  /**
   * Around an instant the zone has offset a before t0 and b from t0 on, both whole minutes
   * and within 14 hours of UTC (a == b is a zone with no transition nearby).
   */
  ghost predicate OneTransition(off: Offsets, near: Instant, a: int, b: int, t0: Instant) {
    && a % MINUTE == 0 && b % MINUTE == 0 && t0 % MINUTE == 0
    && -14 * HOUR <= a <= 14 * HOUR && -14 * HOUR <= b <= 14 * HOUR
    && forall t :: near - 3 * DAY <= t <= near + 3 * DAY ==> off(t) == if t < t0 then a else b
  }

  /** Wall-clock times skipped when the clock goes forward. */
  predicate InGap(wall: Instant, a: int, b: int, t0: Instant) {
    t0 + a <= wall < t0 + b
  }

  /** Wall-clock times shown twice when the clock goes back. */
  predicate Ambiguous(wall: Instant, a: int, b: int, t0: Instant) {
    t0 + b <= wall < t0 + a
  }

  lemma AlignedReading(off: Offsets, near: Instant, a: int, b: int, t0: Instant, t: Instant)
    requires OneTransition(off, near, a, b, t0)
    requires near - 3 * DAY <= t <= near + 3 * DAY && t % MINUTE == 0
    ensures off(t) == (if t < t0 then a else b) && UtcToZoned(off, t) == t + off(t)
    ensures (t + off(t)) % MINUTE == 0
  {
    var o := if t < t0 then a else b;
    assert t + o == MINUTE * (t / MINUTE + o / MINUTE);
  }

  /** What the two passes compute, whichever side of the transition each of them lands on. */
  lemma TwoPasses(off: Offsets, wall: Instant, a: int, b: int, t0: Instant)
    requires OneTransition(off, wall, a, b, t0) && wall % MINUTE == 0
    ensures var first := wall - off(wall);
      && ZonedToUtc(off, wall) == wall - off(first)
      && UtcToZoned(off, ZonedToUtc(off, wall)) == Reading(off, ZonedToUtc(off, wall))
      && wall - 14 * HOUR <= ZonedToUtc(off, wall) <= wall + 14 * HOUR
      && ZonedToUtc(off, wall) % MINUTE == 0
  {
    AlignedReading(off, wall, a, b, t0, wall);
    var first := wall - off(wall);
    AlignedOffset(wall, off(wall));
    AlignedReading(off, wall, a, b, t0, first);
    AlignedOffset(wall, off(first));
    AlignedReading(off, wall, a, b, t0, wall - off(first));
  }

  lemma AlignedOffset(t: Instant, o: int)
    requires t % MINUTE == 0 && o % MINUTE == 0
    ensures (t - o) % MINUTE == 0
  {
    assert t - o == MINUTE * (t / MINUTE - o / MINUTE);
  }

  /** A wall-clock time survives the round trip if and only if it is not in a gap. */
  lemma WallClockRoundTripIff(off: Offsets, wall: Instant, a: int, b: int, t0: Instant)
    requires OneTransition(off, wall, a, b, t0) && wall % MINUTE == 0
    ensures UtcToZoned(off, ZonedToUtc(off, wall)) == wall <==> !InGap(wall, a, b, t0)
  {
    TwoPasses(off, wall, a, b, t0);
  }

  /**
   * Inside a gap the result reads later than asked, by the width of the gap, exactly when the
   * naive instant is past the transition, and earlier by as much otherwise. East of UTC the
   * first always holds, west of UTC the second, so the result does not always advance.
   */
  lemma GapDirection(off: Offsets, wall: Instant, a: int, b: int, t0: Instant)
    requires OneTransition(off, wall, a, b, t0) && wall % MINUTE == 0 && InGap(wall, a, b, t0)
    ensures UtcToZoned(off, ZonedToUtc(off, wall)) == if t0 <= wall then wall + (b - a) else wall - (b - a)
    ensures (0 <= a ==> t0 <= wall) && (b <= 0 ==> wall < t0)
  {
    TwoPasses(off, wall, a, b, t0);
  }

  /**
   * The nearest valid instant to a time in a gap is the transition. The result is that instant
   * if and only if the time asked for is the first of the gap and not before the naive transition.
   */
  lemma GapGivesTransitionIff(off: Offsets, wall: Instant, a: int, b: int, t0: Instant)
    requires OneTransition(off, wall, a, b, t0) && wall % MINUTE == 0 && InGap(wall, a, b, t0)
    ensures ZonedToUtc(off, wall) == t0 <==> wall == t0 + a && t0 <= wall
  {
    TwoPasses(off, wall, a, b, t0);
  }

  /** A clock that changes from one offset to another. */
  function ChangesAt(a: int, b: int, t0: Instant): Offsets {
    (t: Instant) => if t < t0 then a else b
  }

  lemma ChangesOnce(a: int, b: int, t0: Instant, near: Instant)
    requires a % MINUTE == 0 && b % MINUTE == 0 && t0 % MINUTE == 0
    requires -14 * HOUR <= a <= 14 * HOUR && -14 * HOUR <= b <= 14 * HOUR
    ensures OneTransition(ChangesAt(a, b, t0), near, a, b, t0)
  {
  }

  /** At -5 h going to -4 h at 07:00 UTC, the skipped 02:30 reads back as 01:30. */
  lemma WesternGapMovesBack()
    ensures var off := ChangesAt(-5 * HOUR, -4 * HOUR, 7 * HOUR);
      var wall := 2 * HOUR + 30 * MINUTE;
      && InGap(wall, -5 * HOUR, -4 * HOUR, 7 * HOUR)
      && UtcToZoned(off, ZonedToUtc(off, wall)) == 1 * HOUR + 30 * MINUTE
  {
    ChangesOnce(-5 * HOUR, -4 * HOUR, 7 * HOUR, 2 * HOUR + 30 * MINUTE);
    GapDirection(ChangesAt(-5 * HOUR, -4 * HOUR, 7 * HOUR), 2 * HOUR + 30 * MINUTE, -5 * HOUR, -4 * HOUR, 7 * HOUR);
  }

  /** At +1 h going to +2 h at 01:00 UTC, the skipped 02:30 becomes 03:30, not the transition's 03:00. */
  lemma EasternGapOvershoots()
    ensures var off := ChangesAt(1 * HOUR, 2 * HOUR, 1 * HOUR);
      var wall := 2 * HOUR + 30 * MINUTE;
      && InGap(wall, 1 * HOUR, 2 * HOUR, 1 * HOUR)
      && UtcToZoned(off, ZonedToUtc(off, wall)) == 3 * HOUR + 30 * MINUTE && UtcToZoned(off, 1 * HOUR) == 3 * HOUR
  {
    ChangesOnce(1 * HOUR, 2 * HOUR, 1 * HOUR, 2 * HOUR + 30 * MINUTE);
    GapDirection(ChangesAt(1 * HOUR, 2 * HOUR, 1 * HOUR), 2 * HOUR + 30 * MINUTE, 1 * HOUR, 2 * HOUR, 1 * HOUR);
  }

  /**
   * An instant survives the opposite round trip unless its reading is ambiguous and the
   * naive instant lies on the other side of the transition.
   */
  lemma InstantRoundTripIff(off: Offsets, t: Instant, a: int, b: int, t0: Instant)
    requires OneTransition(off, UtcToZoned(off, t), a, b, t0) && t % MINUTE == 0
    requires -14 * HOUR <= off(t) <= 14 * HOUR
    ensures var wall := UtcToZoned(off, t);
      ZonedToUtc(off, wall) == t <==> !Ambiguous(wall, a, b, t0) || (t < t0 <==> wall < t0)
  {
    var wall := UtcToZoned(off, t);
    assert wall % MINUTE == 0 by {
      assert wall == MINUTE * (Reading(off, t) / MINUTE);
    }
    AlignedReading(off, wall, a, b, t0, t);
    TwoPasses(off, wall, a, b, t0);
  }

  // ----- Local midnight -----

  /** Milliseconds since the last local midnight, to the second. */
  function TimeOfDay(off: Offsets, t: Instant): int {
    var ms := Reading(off, t) % DAY;
    ms - ms % SECOND
  }

  /** The hour field shown on the clock at t. */
  function HourShown(off: Offsets, t: Instant): int {
    TimeOfDay(off, t) / HOUR
  }

  /** Noon UTC of the date, moved to near local midnight, then corrected once. */
  function LocalMidnight(off: Offsets, date: int): Instant {
    var noon := date * DAY + 12 * HOUR;
    var near := noon - TimeOfDay(off, noon);
    var rest := TimeOfDay(off, near);
    if rest == 0 then near
    else if HourShown(off, near) > 12 then near + DAY - rest
    else near - rest
  }

  method StartOfDayInTimezone(off: Offsets, date: int) returns (utcMs: Instant)
    ensures utcMs == LocalMidnight(off, date)
  {
    utcMs := date * DAY + 12 * HOUR;
    utcMs := utcMs - TimeOfDay(off, utcMs);
    var rest := TimeOfDay(off, utcMs);
    if rest != 0 {
      if HourShown(off, utcMs) > 12 {
        utcMs := utcMs + (DAY - rest);
      } else {
        utcMs := utcMs - rest;
      }
    }
  }

  /** Noon UTC of the date, where the search starts. */
  function NoonUtc(date: int): Instant {
    date * DAY + 12 * HOUR
  }

  /** The local date it is at noon UTC of the date: the same one from -12 h up to +12 h. */
  function DateAtNoon(off: Offsets, date: int): int {
    date + (12 * HOUR + off(NoonUtc(date))) / DAY
  }

  /** Where the first pass lands: local midnight of that date, by the offset at noon UTC. */
  function FirstGuess(off: Offsets, date: int): Instant {
    DateAtNoon(off, date) * DAY - off(NoonUtc(date))
  }

  function SecondOffset(off: Offsets, date: int): int {
    off(FirstGuess(off, date))
  }

  /** How far the offset found on the second look is from the one at noon UTC. */
  function Shift(off: Offsets, date: int): int {
    SecondOffset(off, date) - off(NoonUtc(date))
  }

  /** The offset change the hour test of the second pass can tell apart. */
  predicate ShiftIsSmall(off: Offsets, date: int) {
    -11 * HOUR <= Shift(off, date) < 13 * HOUR
  }

  /**
   * The passes return midnight of the date it is at noon UTC by the second offset, moved by a
   * whole number of days that is zero if and only if the two offsets are no further apart than
   * the hour test can tell.
   */
  lemma PassesLandOn(off: Offsets, date: int)
    requires off(NoonUtc(date)) % SECOND == 0 && SecondOffset(off, date) % SECOND == 0
    ensures var days := (Shift(off, date) + 11 * HOUR) / DAY;
      && LocalMidnight(off, date) == (DateAtNoon(off, date) + days) * DAY - SecondOffset(off, date)
      && (days == 0 <==> ShiftIsSmall(off, date))
  {
    hide TimeOfDay;
    var noon, near, shown := NoonUtc(date), FirstGuess(off, date), DateAtNoon(off, date);
    var shift := Shift(off, date);
    WholeSeconds(date, 0);
    WholeSeconds(shown, off(noon));
    TimeOfDayAt(off, noon, shown, (12 * HOUR + off(noon)) % DAY);
    TimeOfDayAt(off, near, shown + shift / DAY, shift % DAY);
  }

  /** The first guess is never after noon, so the second offset is the later or the earlier one. */
  lemma OffsetsSeen(off: Offsets, date: int, a: int, b: int, t0: Instant)
    requires OneTransition(off, date * DAY, a, b, t0)
    ensures date * DAY - 14 * HOUR <= FirstGuess(off, date) <= NoonUtc(date)
    ensures off(NoonUtc(date)) == (if NoonUtc(date) < t0 then a else b)
    ensures SecondOffset(off, date) == (if FirstGuess(off, date) < t0 then a else b)
    ensures Shift(off, date) == 0 || Shift(off, date) == a - b
    ensures off(NoonUtc(date)) % SECOND == 0 && SecondOffset(off, date) % SECOND == 0
    ensures (DateAtNoon(off, date) == date <==> -12 * HOUR <= off(NoonUtc(date)) < 12 * HOUR)
    ensures (DateAtNoon(off, date) == date + 1 <==> 12 * HOUR <= off(NoonUtc(date)))
    ensures date - 1 <= DateAtNoon(off, date) <= date + 1
  {
    WholeMinutesAreSeconds(a);
    WholeMinutesAreSeconds(b);
  }

  /**
   * Around one transition of less than 11 hours the result reads 00:00:00 of the date if and
   * only if the offset at noon UTC is from -12 h up to +12 h and the date's midnight is not
   * skipped by the clock.
   */
  lemma LocalMidnightIsExactIff(off: Offsets, date: int, a: int, b: int, t0: Instant)
    requires OneTransition(off, date * DAY, a, b, t0) && -11 * HOUR <= a - b < 13 * HOUR
    ensures Reading(off, LocalMidnight(off, date)) == date * DAY
      <==> -12 * HOUR <= off(NoonUtc(date)) < 12 * HOUR && !InGap(date * DAY, a, b, t0)
  {
    hide LocalMidnight, Shift, SecondOffset, FirstGuess, DateAtNoon;
    OffsetsSeen(off, date, a, b, t0);
    PassesLandOn(off, date);
    assert LocalMidnight(off, date) == DateAtNoon(off, date) * DAY - SecondOffset(off, date);
    FirstGuessIs(off, date);
  }

  lemma FirstGuessIs(off: Offsets, date: int)
    ensures FirstGuess(off, date) == DateAtNoon(off, date) * DAY - off(NoonUtc(date))
  {
  }

  /** Transitions of any size, with that offset at noon: the change must also be one the hour test can tell. */
  lemma LargeShiftIsExactIff(off: Offsets, date: int, a: int, b: int, t0: Instant)
    requires OneTransition(off, date * DAY, a, b, t0) && -12 * HOUR <= off(NoonUtc(date)) < 12 * HOUR
    ensures Reading(off, LocalMidnight(off, date)) == date * DAY
      <==> ShiftIsSmall(off, date) && !InGap(date * DAY, a, b, t0)
  {
    hide LocalMidnight;
    OffsetsSeen(off, date, a, b, t0);
    PassesLandOn(off, date);
    var days := (Shift(off, date) + 11 * HOUR) / DAY;
    assert -1 <= days <= 1;
    if days != 0 {
      MissesByADay(off, LocalMidnight(off, date), FirstGuess(off, date), date, days);
    }
  }

  /** At +13 h before 02:00 UTC of the date and +12 h after, no midnight is skipped; the result reads the next date. */
  lemma FarEastReadsNextDate()
    ensures var off := ChangesAt(13 * HOUR, 12 * HOUR, 2 * HOUR);
      && !InGap(0, 13 * HOUR, 12 * HOUR, 2 * HOUR)
      && Reading(off, LocalMidnight(off, 0)) == DAY
  {
    hide LocalMidnight;
    var off := ChangesAt(13 * HOUR, 12 * HOUR, 2 * HOUR);
    ChangesOnce(13 * HOUR, 12 * HOUR, 2 * HOUR, 0);
    OffsetsSeen(off, 0, 13 * HOUR, 12 * HOUR, 2 * HOUR);
    PassesLandOn(off, 0);
  }

  lemma WholeMinutesAreSeconds(offset: int)
    requires offset % MINUTE == 0
    ensures offset % SECOND == 0
  {
    assert offset == SECOND * (60 * (offset / MINUTE));
  }

  /** A result a day away could read midnight of the date only across a change of a whole day. */
  lemma MissesByADay(off: Offsets, t: Instant, near: Instant, date: int, days: int)
    requires days != 0 && t == date * DAY - off(near) + days * DAY
    requires off(t) == off(near) - days * DAY ==> t == near
    ensures Reading(off, t) != date * DAY
  {
  }

  lemma WholeSeconds(date: int, offset: int)
    requires offset % SECOND == 0
    ensures (date * DAY + 12 * HOUR) % SECOND == 0 && (date * DAY - offset) % SECOND == 0
  {
    assert date * DAY + 12 * HOUR == SECOND * (86_400 * date + 43_200);
    assert date * DAY - offset == SECOND * (86_400 * date - offset / SECOND);
  }

  lemma TimeOfDayAt(off: Offsets, t: Instant, date: int, ms: int)
    requires Reading(off, t) == date * DAY + ms && 0 <= ms < DAY
    requires t % SECOND == 0 && off(t) % SECOND == 0
    ensures TimeOfDay(off, t) == ms
  {
    assert (date * DAY + ms) % DAY == ms;
    assert Reading(off, t) == SECOND * (t / SECOND + off(t) / SECOND);
    assert ms == SECOND * (t / SECOND + off(t) / SECOND - date * 86_400);
  }

  /** With one constant offset the result is local midnight if and only if -12 h <= offset < +12 h. */
  lemma ConstantOffsetExactIff(offset: int, date: int)
    requires -24 * HOUR < offset < 24 * HOUR && offset % SECOND == 0
    ensures var off := (t: Instant) => offset;
      Reading(off, LocalMidnight(off, date)) == date * DAY <==> -12 * HOUR <= offset < 12 * HOUR
  {
    hide TimeOfDay, HourShown;
    var off := (t: Instant) => offset;
    var noon := date * DAY + 12 * HOUR;
    var shown := if offset < -12 * HOUR then date - 1 else if offset < 12 * HOUR then date else date + 1;
    WholeSeconds(date, offset);
    WholeSeconds(shown, offset);
    TimeOfDayAt(off, noon, shown, (date - shown) * DAY + 12 * HOUR + offset);
    TimeOfDayAt(off, shown * DAY - offset, shown, 0);
  }

  // ----- The booking window -----

  function LocalDate(off: Offsets, t: Instant): int {
    Reading(off, t) / DAY
  }

  /** The last bookable millisecond: just before midnight of today + daysAhead + 1; UTC if the zone is unreadable. */
  method EndOfBookingWindow(zone: Option<Offsets>, now: Instant, daysAhead: int) returns (windowEnd: Instant)
    ensures zone.None? ==> windowEnd == (now / DAY + daysAhead + 1) * DAY - 1
    ensures zone.Some? ==>
      windowEnd + 1 == LocalMidnight(zone.value, LocalDate(zone.value, now) + daysAhead + 1)
  {
    match zone
    case None =>
      var day := now / DAY + daysAhead;
      windowEnd := day * DAY + (DAY - 1);
    case Some(off) =>
      var utcMs := StartOfDayInTimezone(off, LocalDate(off, now) + daysAhead + 1);
      windowEnd := utcMs - 1;
  }

  /**
   * Every instant is inside the window that ends before local midnight of the date if and only
   * if its local date is an earlier one.
   */
  ghost predicate WindowIsWholeDays(off: Offsets, date: int) {
    forall t :: t <= LocalMidnight(off, date) - 1 <==> LocalDate(off, t) < date
  }

  /** Far from the transition, dates are those of any offset within a day of UTC. */
  ghost predicate OffsetsWithinDay(off: Offsets) {
    forall t :: -DAY < off(t) < DAY
  }

  /**
   * Around one transition the window is a whole number of local days if and only if the offset
   * at noon UTC is below +12 h and the midnight it ends at is shown exactly once, or is the very
   * minute a gap begins.
   */
  lemma WindowIsWholeDaysIff(off: Offsets, date: int, a: int, b: int, t0: Instant)
    requires OneTransition(off, date * DAY, a, b, t0) && OffsetsWithinDay(off)
    requires -12 * HOUR <= a && -12 * HOUR <= b && -11 * HOUR <= a - b < 13 * HOUR
    ensures WindowIsWholeDays(off, date)
      <==> off(NoonUtc(date)) < 12 * HOUR
           && !Ambiguous(date * DAY, a, b, t0) && (InGap(date * DAY, a, b, t0) ==> date * DAY == t0 + a)
  {
    hide LocalMidnight, Shift, SecondOffset, FirstGuess, DateAtNoon, NoonUtc;
    OffsetsSeen(off, date, a, b, t0);
    PassesLandOn(off, date);
    FirstGuessIs(off, date);
    assert NoonUtc(date) == date * DAY + 12 * HOUR by {
      NoonIs(date);
    }
    var midnight := date * DAY;
    var end := LocalMidnight(off, date);
    if 12 * HOUR <= off(NoonUtc(date)) {
      assert Reading(off, end - 1) >= midnight;
      DateIsBefore(off, end - 1, date);
    } else if Ambiguous(midnight, a, b, t0) {
      assert Reading(off, t0 - 1) >= midnight && t0 - 1 <= end - 1;
      DateIsBefore(off, t0 - 1, date);
    } else if InGap(midnight, a, b, t0) && midnight != t0 + a {
      assert Reading(off, t0) >= midnight && t0 <= end - 1;
      DateIsBefore(off, t0, date);
    } else {
      forall t ensures t <= end - 1 <==> LocalDate(off, t) < date {
        DateIsBefore(off, t, date);
      }
    }
  }

  lemma NoonIs(date: int)
    ensures NoonUtc(date) == date * DAY + 12 * HOUR
  {
  }

  /**
   * When the clock goes back an hour at 01:00 of day 1, midnight is shown twice: half past
   * midnight, the first time, is inside the window although it is already day 1.
   */
  lemma RepeatedMidnightIsInsideWindow()
    ensures var off := ChangesAt(HOUR, 0, DAY);
      var t := DAY - 30 * MINUTE;
      && Ambiguous(1 * DAY, HOUR, 0, DAY)
      && LocalDate(off, t) == 1 && t <= LocalMidnight(off, 1) - 1
  {
    hide LocalMidnight;
    var off := ChangesAt(HOUR, 0, DAY);
    ChangesOnce(HOUR, 0, DAY, DAY);
    OffsetsSeen(off, 1, HOUR, 0, DAY);
    PassesLandOn(off, 1);
  }

  lemma DateIsBefore(off: Offsets, t: Instant, date: int)
    ensures LocalDate(off, t) < date <==> Reading(off, t) < date * DAY
  {
  }

  /** In a zone with one offset it is if and only if -12 h <= offset < +12 h. */
  lemma ConstantWindowIsWholeDaysIff(offset: int, date: int)
    requires -24 * HOUR < offset < 24 * HOUR && offset % SECOND == 0
    ensures WindowIsWholeDays((t: Instant) => offset, date) <==> -12 * HOUR <= offset < 12 * HOUR
  {
    hide LocalMidnight;
    var off := (t: Instant) => offset;
    ConstantOffsetExactIff(offset, date);
    var end, exact := LocalMidnight(off, date), date * DAY - offset;
    forall t ensures LocalDate(off, t) < date <==> t < exact {
      DateIsBefore(off, t, date);
    }
    if end != exact {
      var t := if end < exact then end else exact;
      assert !(t <= end - 1 <==> LocalDate(off, t) < date);
    }
  }
}
