/**
 * What the verdict, the conflict query, the slot list and the slot report promise, said of
 * stored rows, instants and wall-clock minutes alone.
 */
module AvailabilityGuarantees {
  import opened Scheduling
  import opened Availability
  import opened CoachConflicts
  import opened SlotListing
  import opened SlotDebug

  // ----- The verdict -----

  /** The exception found for a date is the first one stored within that UTC day. */
  lemma {:induction false} FirstOnDate(exceptions: seq<DayException>, date: int)
    ensures match FindException(exceptions, date)
      case None => forall i :: 0 <= i < |exceptions| ==> !(date * 86_400_000 <= exceptions[i].date < (date + 1) * 86_400_000)
      case Some(x) =>
        exists i :: 0 <= i < |exceptions| && exceptions[i] == x
          && date * 86_400_000 <= x.date < (date + 1) * 86_400_000
          && forall j :: 0 <= j < i ==> !(date * 86_400_000 <= exceptions[j].date < (date + 1) * 86_400_000)
  {
    if exceptions != [] && exceptions[0].date / DAY != date {
      var rest := exceptions[1..];
      FirstOnDate(rest, date);
      assert forall i :: 1 <= i < |exceptions| ==> exceptions[i] == rest[i - 1];
      if FindException(rest, date).Some? {
        var i :| 0 <= i < |rest| && rest[i] == FindException(rest, date).value
          && date * 86_400_000 <= rest[i].date < (date + 1) * 86_400_000
          && forall j :: 0 <= j < i ==> !(date * 86_400_000 <= rest[j].date < (date + 1) * 86_400_000);
        assert exceptions[i + 1] == rest[i];
      }
    } else if exceptions != [] {
      assert exceptions[0] == FindException(exceptions, date).value;
    }
  }

  /** Weekdays follow each other from a Thursday, 1 January 1970; the local fields count up minute by minute. */
  lemma FieldsCountUp(t: Instant, offset: int)
    ensures ToLocal(0, 0) == LocalInfo(0, 4, 0)
    ensures var now, next := ToLocal(t, offset), ToLocal(t + 60_000, offset);
      && ToLocal(t, offset + 1) == next
      && if now.minute < 1439 then next == now.(minute := now.minute + 1)
         else next == LocalInfo(0, (now.dayOfWeek + 1) % 7, now.date + 1)
    ensures 0 <= ToLocal(t, offset).minute <= 1439 && ToLocal(t, offset) == ToLocal(t - t % 60_000, offset)
  {
    assert (t + 60_000) / 60_000 == t / 60_000 + 1;
  }

  /** The local minutes from the reading at start to the reading at end plus the buffer, as the verdict vouches for them. */
  ghost predicate FreeWithBuffer(cal: Calendar, offset: int, start: Instant, end: Instant, buffer: nat) {
    var from, to := start / 60_000 + offset, end / 60_000 + offset + buffer;
    forall m :: from <= m < to && !(m % 1440 == 1439 && m / 1440 == from / 1440 && m + 1 <= to && from / 1440 != to / 1440) ==>
      FreeAt(cal, m)
  }

  /** Whole minutes, one offset in force, and less than a day with the buffer. */
  ghost predicate PlainWithBuffer(zone: Zone, start: Instant, end: Instant, buffer: nat) {
    && start % 60_000 == 0 && end % 60_000 == 0
    && start < end + buffer * 60_000 < start + 86_400_000
    && zone(start) == zone(end + buffer * 60_000)
  }

  lemma SessionShape(zone: Zone, start: Instant, end: Instant, buffer: nat)
    requires PlainWithBuffer(zone, start, end, buffer)
    ensures PlainSession(zone, start, EffectiveEnd(end, buffer))
    ensures LocalMinute(start, zone(start)) == start / 60_000 + zone(start)
    ensures LocalMinute(EffectiveEnd(end, buffer), zone(start)) == end / 60_000 + zone(start) + buffer
  {
    assert (end + buffer * 60_000) / 60_000 == end / 60_000 + buffer;
  }

  lemma SameClaims(cal: Calendar, zone: Zone, start: Instant, end: Instant, buffer: nat)
    requires PlainWithBuffer(zone, start, end, buffer)
    ensures FreeWithBuffer(cal, zone(start), start, end, buffer)
      <==> FreeButForMidnightMinute(cal, LocalMinute(start, zone(start)), LocalMinute(EffectiveEnd(end, buffer), zone(start)))
  {
    hide FreeAt;
    SessionShape(zone, start, end, buffer);
    var from, to := LocalMinute(start, zone(start)), LocalMinute(EffectiveEnd(end, buffer), zone(start));
    assert from < to < from + 1440 + 1;
    var midnight := (from / 1440 + 1) * 1440;
    forall m | from <= m < to
      ensures m % 1440 == 1439 && m / 1440 == from / 1440 && m + 1 <= to && from / 1440 != to / 1440
        <==> midnight <= to && m == midnight - 1
    {
    }
  }

  /**
   * "Available" for a session with a buffer means no conflict, and the coach free at every
   * claimed minute from the start's reading to the end's reading plus the buffer, by the event's
   * own weekly hours where it has any.
   */
  lemma AvailableMeans(hasConflict: bool, calendar: Calendar, weeklyOverride: seq<WeeklyWindow>, zone: Zone,
                       start: Instant, end: Instant, buffer: nat)
    requires PlainWithBuffer(zone, start, end, buffer)
    requires Evaluate(hasConflict, calendar, weeklyOverride, false, Some(zone), start, end, buffer) == Available
    ensures !hasConflict
    ensures FreeWithBuffer(if weeklyOverride == [] then calendar else Calendar(weeklyOverride, calendar.exceptions),
                           zone(start), start, end, buffer)
  {
    hide Evaluate;
    SessionShape(zone, start, end, buffer);
    AvailableIsSound(hasConflict, calendar, weeklyOverride, zone, start, end, buffer);
    SameClaims(EffectiveCalendar(calendar, weeklyOverride), zone, start, end, buffer);
  }

  /** With joined windows, and clear of the two midnight edges, it means exactly that. */
  lemma AvailableMeansExactly(hasConflict: bool, calendar: Calendar, weeklyOverride: seq<WeeklyWindow>, zone: Zone,
                              start: Instant, end: Instant, buffer: nat)
    requires PlainWithBuffer(zone, start, end, buffer)
    requires (start / 60_000 + zone(start)) % 1440 != 1439 && (end / 60_000 + zone(start) + buffer) % 1440 != 0
    requires var cal := if weeklyOverride == [] then calendar else Calendar(weeklyOverride, calendar.exceptions);
      cal.Valid() && cal.Joined()
    ensures Evaluate(hasConflict, calendar, weeklyOverride, false, Some(zone), start, end, buffer) == Available
      <==> !hasConflict
           && FreeWithBuffer(if weeklyOverride == [] then calendar else Calendar(weeklyOverride, calendar.exceptions),
                             zone(start), start, end, buffer)
  {
    hide Evaluate;
    SessionShape(zone, start, end, buffer);
    AvailableIffFree(hasConflict, calendar, weeklyOverride, zone, start, end, buffer);
    SameClaims(EffectiveCalendar(calendar, weeklyOverride), zone, start, end, buffer);
  }

  /** A conflict is reported before anything else, an unreadable time zone next, and neither otherwise. */
  lemma ReasonsInOrder(hasConflict: bool, calendar: Calendar, weeklyOverride: seq<WeeklyWindow>, ignoreWeekly: bool,
                       zone: Option<Zone>, start: Instant, end: Instant, buffer: nat)
    ensures var v := Evaluate(hasConflict, calendar, weeklyOverride, ignoreWeekly, zone, start, end, buffer);
      && (v == Unavailable(Reason.Conflict) <==> hasConflict)
      && (v == Unavailable(InvalidTimezone) <==> !hasConflict && zone == None)
  {
  }

  /** Ignoring weekly hours, a session across local midnight is always available, and one within a date unless its exception forbids it. */
  lemma IgnoringWeekly(calendar: Calendar, weeklyOverride: seq<WeeklyWindow>, zone: Zone, start: Instant, end: Instant, buffer: nat)
    ensures var effectiveEnd := end + buffer * 60_000;
      var s, e := ToLocal(start, zone(start)), ToLocal(effectiveEnd, zone(effectiveEnd));
      var v := Evaluate(false, calendar, weeklyOverride, true, Some(zone), start, end, buffer);
      && (s.date != e.date ==> v == Available)
      && (s.date == e.date ==>
            v == if ResolveFromException(FindException(calendar.exceptions, s.date), s, e) == Some(false)
                 then Unavailable(ExceptionBlock) else Available)
  {
  }

  // ----- The conflict query -----

  /** A pending or confirmed booking, other than the excluded one, that the coach leads or co-hosts. */
  predicate Engages(b: BookingRow, c: CoachId, exclude: Option<BookingId>) {
    && (b.booking.status == Pending || b.booking.status == Confirmed)
    && Some(b.id) != exclude && (b.booking.coach == Some(c) || c in b.booking.coHosts)
  }

  /**
   * The query finds something if and only if one of the coach's bookings, or an active slot that
   * is not cancelled and assigned to the coach, ends less than two hours before the session and,
   * with its own event's buffer, meets it.
   */
  lemma QueryFindsIff(db: Database, c: CoachId, start: Instant, end: Instant, exclude: Option<BookingId>)
    ensures GetCoachConflicts(db, c, start, end, exclude) != [] <==>
      || (exists b :: b in db.bookings && Engages(b, c, exclude)
            && b.booking.start < end && start - 7_200_000 < b.booking.end
            && start < b.booking.end + db.buffers(b.booking.event) * 60_000)
      || (exists s :: s in db.slots && s.assignedCoach == Some(c) && s.isActive && !s.isCancelled
            && s.start < end && start - 7_200_000 < s.end && start < s.end + db.buffers(s.event) * 60_000)
  {
    var found := GetCoachConflicts(db, c, start, end, exclude);
    hide GetCoachConflicts;
    if found != [] {
      QueryMembers(db, c, start, end, exclude, found[0]);
      assert KeepsBusy(db, c, exclude, found[0]);
    }
    forall b | b in db.bookings && Engages(b, c, exclude)
      && b.booking.start < end && start - 7_200_000 < b.booking.end
      && start < b.booking.end + db.buffers(b.booking.event) * 60_000
      ensures found != []
    {
      QueryMembers(db, c, start, end, exclude, OfBooking(b, db.buffers));
    }
    forall s | s in db.slots && s.assignedCoach == Some(c) && s.isActive && !s.isCancelled
      && s.start < end && start - 7_200_000 < s.end && start < s.end + db.buffers(s.event) * 60_000
      ensures found != []
    {
      QueryMembers(db, c, start, end, exclude, OfSlot(s, db.buffers));
    }
  }

  // ----- The slot list and the slot report -----

  /** A slot is shown if and only if it is in time and the coach who must be free, or some coach, is. */
  lemma ShownIff(l: Listing, startDate: Instant, finalEnd: Instant, t: Instant)
    ensures Accepts(l, startDate, finalEnd, t) <==>
      && l.now + 120_000 < t < finalEnd && l.now + l.noticeMinutes * 60_000 <= t
      && if l.onlyPrimary
         then l.coaches != [] && CoachVerdict(l, l.coaches[0], startDate, finalEnd, t) == Available
         else exists c :: c in l.coaches && CoachVerdict(l, c, startDate, finalEnd, t) == Available
  {
    hide CoachVerdict;
    if l.onlyPrimary && l.coaches != [] {
      assert Deciding(l)[0] == l.coaches[0];
    }
  }

  /**
   * A coach shown as free for a slot has no row that meets the slot with the event's buffer
   * after it, and is free at every claimed minute of it.
   */
  lemma ShownCoachIsFree(l: Listing, c: CoachId, startDate: Instant, finalEnd: Instant, t: Instant, zone: Zone)
    requires CoachVerdict(l, c, startDate, finalEnd, t) == Available && l.profiles(c).zone == Some(zone)
    ensures forall b :: b in l.db.bookings && Engages(b, c, l.exclude) && t - 7_200_000 < b.booking.end ==>
      !(b.booking.start < t + l.duration + l.bufferAfterMinutes * 60_000
        && t < b.booking.end + l.db.buffers(b.booking.event) * 60_000)
    ensures forall s | s in l.db.slots && s.assignedCoach == Some(c) && s.isActive && !s.isCancelled
                       && t - 7_200_000 < s.end ::
      !(s.start < t + l.duration + l.bufferAfterMinutes * 60_000 && t < s.end + l.db.buffers(s.event) * 60_000)
    ensures PlainWithBuffer(zone, t, t + l.duration, l.bufferAfterMinutes) ==>
      FreeWithBuffer(
        Calendar(if l.profiles(c).weeklyOverride == [] then l.profiles(c).calendar.weekly else l.profiles(c).weeklyOverride,
                 ListedCalendar(l.profiles(c).calendar, startDate, l.FetchEnd(finalEnd)).exceptions),
        zone(t), t, t + l.duration, l.bufferAfterMinutes)
  {
    hide GetCoachConflicts, Evaluate, Filter, PlainWithBuffer, FreeWithBuffer;
    var p := l.profiles(c);
    var listed := ListedCalendar(p.calendar, startDate, l.FetchEnd(finalEnd));
    var found := GetCoachConflicts(l.db, c, t, l.BufferedEnd(t), l.exclude);
    ReasonsInOrder(found != [], listed, p.weeklyOverride, false, p.zone, t, l.SlotEnd(t), l.bufferAfterMinutes);
    QueryFindsIff(l.db, c, t, l.BufferedEnd(t), l.exclude);
    if PlainWithBuffer(zone, t, t + l.duration, l.bufferAfterMinutes) {
      AvailableMeans(found != [], listed, p.weeklyOverride, zone, t, t + l.duration, l.bufferAfterMinutes);
    }
  }

  /** The listing refuses a coach for a conflict if and only if a row meets the slot and the buffer after it. */
  lemma RefusedForConflictIff(l: Listing, c: CoachId, startDate: Instant, finalEnd: Instant, t: Instant)
    ensures CoachVerdict(l, c, startDate, finalEnd, t) == Unavailable(Reason.Conflict) <==>
      || (exists b :: b in l.db.bookings && Engages(b, c, l.exclude)
            && b.booking.start < t + l.duration + l.bufferAfterMinutes * 60_000 && t - 7_200_000 < b.booking.end
            && t < b.booking.end + l.db.buffers(b.booking.event) * 60_000)
      || (exists s :: s in l.db.slots && s.assignedCoach == Some(c) && s.isActive && !s.isCancelled
            && s.start < t + l.duration + l.bufferAfterMinutes * 60_000 && t - 7_200_000 < s.end
            && t < s.end + l.db.buffers(s.event) * 60_000)
  {
    hide GetCoachConflicts, Evaluate, Filter;
    var p := l.profiles(c);
    ReasonsInOrder(GetCoachConflicts(l.db, c, t, l.BufferedEnd(t), l.exclude) != [],
                   ListedCalendar(p.calendar, startDate, l.FetchEnd(finalEnd)), p.weeklyOverride, false, p.zone,
                   t, l.SlotEnd(t), l.bufferAfterMinutes);
    QueryFindsIff(l.db, c, t, l.BufferedEnd(t), l.exclude);
  }

  /** The booking path's verdict does not depend on the event's own buffer. */
  lemma BookingIgnoresBuffer(l: Listing, c: CoachId, p: CoachProfile, t: Instant, buffer: nat)
    ensures BookingVerdict(l.(bufferAfterMinutes := buffer), c, p, t) == BookingVerdict(l, c, p, t)
  {
  }

  /** Over a day, the report shows as visible exactly the slots the public list of that day shows, inside the booking window. */
  lemma VisibleIffShown(l: Listing, dayStart: Instant, windowEnd: Option<Instant>, t: Instant)
    requires t < dayStart + 86_400_000
    ensures BuildSlot(l, dayStart, windowEnd, t).visible <==>
      Accepts(l, dayStart, dayStart + 86_400_000, t) && (windowEnd.Some? ==> t < windowEnd.value)
  {
    hide CoachVerdict, Map;
    ShownIff(l, dayStart, dayStart + 86_400_000, t);
    FirstVerdict(l, dayStart, t);
  }

  lemma FirstVerdict(l: Listing, dayStart: Instant, t: Instant)
    ensures var verdicts := DebugVerdicts(l, dayStart, t);
      && (verdicts == [] <==> l.coaches == [])
      && (l.coaches != [] ==> verdicts[0] == CoachVerdict(l, l.coaches[0], dayStart, dayStart + 86_400_000, t))
      && (Available in verdicts <==> exists c :: c in l.coaches && CoachVerdict(l, c, dayStart, dayStart + 86_400_000, t) == Available)
  {
    hide CoachVerdict;
  }

  /**
   * The pre-filter keeps a coach if and only if the time zone can be read and the start date's
   * exception grants the session or, saying nothing of it, some window of the weekly hours in
   * use holds the session, or its start when it ends on another date.
   */
  lemma InWindowIff(cal: Calendar, weeklyOverride: seq<WeeklyWindow>, zone: Option<Zone>, start: Instant, end: Instant)
    ensures InCoachWindow(cal, weeklyOverride, zone, start, end) <==>
      zone.Some? &&
      var s, e := ToLocal(start, zone.value(start)), ToLocal(end, zone.value(end));
      match ResolveFromException(FindException(cal.exceptions, s.date), s, e)
      case Some(granted) => granted
      case None =>
        exists v :: v in (if weeklyOverride == [] then cal.weekly else weeklyOverride) && v.dayOfWeek == s.dayOfWeek
          && v.start <= s.minute && if s.date == e.date then e.minute <= v.end else s.minute < v.end
  {
    hide ToLocal, FindException, ResolveFromException;
  }

  /** The report keeps an interval if and only if some coach's window has it and not every coach is outside hours. */
  lemma {:induction false} KeptIff(l: Listing, dayStart: Instant, windowEnd: Option<Instant>, n: nat, slot: DebugSlot)
    ensures slot in KeptReport(l, dayStart, windowEnd, n) <==>
      exists k :: 0 <= k < n && slot == NthSlot(l, dayStart, windowEnd, k)
        && (exists c :: c in l.coaches && CoachInWindow(l, c, dayStart, dayStart + k * 900_000))
        && !(slot.block == None && slot.verdicts != []
             && forall v :: v in slot.verdicts ==> v == Unavailable(OutsideAvailability))
  {
    hide NthSlot, CoachInWindow;
    if n > 0 {
      KeptIff(l, dayStart, windowEnd, n - 1, slot);
    }
  }

  /** A slot is blocked for the event as a whole by the first of these that holds: too soon, past the window, short notice. */
  lemma BlocksInOrder(l: Listing, dayStart: Instant, windowEnd: Option<Instant>, t: Instant)
    ensures BuildSlot(l, dayStart, windowEnd, t).block ==
      if t <= l.now + 120_000 then Some(InThePast)
      else if windowEnd.Some? && windowEnd.value <= t then Some(BookingWindow)
      else if t < l.now + l.noticeMinutes * 60_000 then Some(NoticeWindow)
      else None
  {
    hide DebugVerdicts;
  }
}
