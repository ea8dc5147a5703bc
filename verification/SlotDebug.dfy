/** The admin's per-slot report and the two trims that keep it short. */
module SlotDebug {
  import opened Scheduling
  import opened Availability
  import opened CoachConflicts
  import opened SlotListing

  const SLOTS_PER_DAY := 96

  datatype EventBlock = InThePast | BookingWindow | NoticeWindow

  datatype DebugSlot = DebugSlot(start: Instant, visible: bool, block: Option<EventBlock>, verdicts: seq<Verdict>)

  predicate StartWithinWindow(weekly: seq<WeeklyWindow>, s: LocalInfo) {
    exists w :: w in weekly && w.dayOfWeek == s.dayOfWeek && w.start <= s.minute < w.end
  }

  /**
   * The pre-filter for one coach. Across midnight it compares the wrapped end time against
   * the start day's exception, and only the start against the weekly windows.
   */
  predicate InCoachWindow(cal: Calendar, weeklyOverride: seq<WeeklyWindow>, zone: Option<Zone>,
                          start: Instant, effectiveEnd: Instant)
  {
    zone.Some? &&
    var s, e := ToLocal(start, zone.value(start)), ToLocal(effectiveEnd, zone.value(effectiveEnd));
    var weekly := EffectiveCalendar(cal, weeklyOverride).weekly;
    var decision := ResolveFromException(FindException(cal.exceptions, s.date), s, e);
    if decision.Some? then decision.value
    else if s.date == e.date then WithinWeekly(weekly, s, e)
    else StartWithinWindow(weekly, s)
  }

  /** The pre-filter never refuses an available coach whose session starts before 23:59 local. */
  lemma PreFilterKeepsAvailable(hasConflict: bool, cal: Calendar, weeklyOverride: seq<WeeklyWindow>,
                                zone: Option<Zone>, start: Instant, end: Instant, buffer: nat)
    requires EffectiveCalendar(cal, weeklyOverride).Valid()
    requires zone.Some? ==> ToLocal(start, zone.value(start)).minute != LAST_MINUTE
    requires Evaluate(hasConflict, cal, weeklyOverride, false, zone, start, end, buffer) == Available
    ensures InCoachWindow(cal, weeklyOverride, zone, start, EffectiveEnd(end, buffer))
  {
    var s := ToLocal(start, zone.value(start));
    FoundIsListed(cal.exceptions, s.date);
  }

  /** In this zone no quarter hour of UTC is 23:59 local. */
  predicate GridMissesLastMinute(offset: int) {
    offset % 15 != 14
  }

  /** A quarter hour of UTC shows minute offset % 15 of a local quarter hour. */
  lemma GridStartMinute(t: Instant, offset: int)
    requires t % GRID == 0
    ensures ToLocal(t, offset).minute % 15 == offset % 15
    ensures ToLocal(t, offset).minute == LAST_MINUTE ==> offset % 15 == 14
  {
    assert t / MINUTE == 15 * (t / GRID);
    var m := LocalMinute(t, offset);
    assert m == 15 * (t / GRID + offset / 15) + offset % 15;
    assert m % MINUTES_PER_DAY == m - m / MINUTES_PER_DAY * 96 * 15;
  }

  /** No quarter hour of UTC shows 23:59 on the zone's clock. */
  ghost predicate ZoneMissesLastMinute(zone: Zone) {
    forall t :: t % GRID == 0 ==> ToLocal(t, zone(t)).minute != LAST_MINUTE
  }

  /** So it is with every zone whose offsets are quarter hours, as all current ones are. */
  lemma OffsetsMissLastMinute(zone: Zone)
    requires forall t :: GridMissesLastMinute(zone(t))
    ensures ZoneMissesLastMinute(zone)
  {
    forall t | t % GRID == 0 ensures ToLocal(t, zone(t)).minute != LAST_MINUTE {
      GridStartMinute(t, zone(t));
    }
  }

  /** Hours that hold the last minute of one weekday and all of the next. */
  function AcrossMidnight(dayOfWeek: int): Calendar {
    Calendar([WeeklyWindow(dayOfWeek, 1380, LAST_MINUTE), WeeklyWindow((dayOfWeek + 1) % 7, 0, LAST_MINUTE)], [])
  }

  /** A session that starts at 23:59 and ends on another date is available there, and filtered. */
  lemma LastMinuteIsFiltered(zone: Zone, start: Instant, end: Instant)
    requires ToLocal(start, zone(start)).minute == LAST_MINUTE
    requires ToLocal(end, zone(end)).date != ToLocal(start, zone(start)).date
    ensures var cal := AcrossMidnight(ToLocal(start, zone(start)).dayOfWeek);
      && cal.Valid()
      && Evaluate(false, cal, [], false, Some(zone), start, end, 0) == Available
      && !InCoachWindow(cal, [], Some(zone), start, end)
  {
    var cal := AcrossMidnight(ToLocal(start, zone(start)).dayOfWeek);
    assert cal.weekly[0] in cal.weekly && cal.weekly[1] in cal.weekly;
  }

  /** Half an hour later where that is another date, else two days later, as offsets differ by less than a day. */
  function EndOnAnotherDate(zone: Zone, start: Instant): Instant {
    var soon := start + 30 * MINUTE;
    if ToLocal(soon, zone(soon)).date != ToLocal(start, zone(start)).date then soon else start + 2 * DAY
  }

  /**
   * Over every valid calendar and every start the report considers, the pre-filter keeps the
   * zone's available coaches if and only if none of those starts is 23:59 local.
   */
  lemma ZonePreFilterLosslessIff(zone: Zone)
    requires forall t, u :: zone(t) - zone(u) < MINUTES_PER_DAY
    ensures (forall cal: Calendar, start, end | cal.Valid() && start % GRID == 0
               && Evaluate(false, cal, [], false, Some(zone), start, end, 0) == Available ::
               InCoachWindow(cal, [], Some(zone), start, end))
        <==> ZoneMissesLastMinute(zone)
  {
    if ZoneMissesLastMinute(zone) {
      forall cal: Calendar, start, end | cal.Valid() && start % GRID == 0
        && Evaluate(false, cal, [], false, Some(zone), start, end, 0) == Available
        ensures InCoachWindow(cal, [], Some(zone), start, end)
      {
        PreFilterKeepsAvailable(false, cal, [], Some(zone), start, end, 0);
      }
    } else {
      var t :| t % GRID == 0 && ToLocal(t, zone(t)).minute == LAST_MINUTE;
      var end := EndOnAnotherDate(zone, t);
      assert ToLocal(end, zone(end)).date != ToLocal(t, zone(t)).date by {
        TwoDaysLaterIsAnotherDate(zone, t);
      }
      LastMinuteIsFiltered(zone, t, end);
    }
  }

  lemma TwoDaysLaterIsAnotherDate(zone: Zone, t: Instant)
    requires forall t, u :: zone(t) - zone(u) < MINUTES_PER_DAY
    ensures ToLocal(t, zone(t)).date < ToLocal(t + 2 * DAY, zone(t + 2 * DAY)).date
  {
    assert zone(t) - zone(t + 2 * DAY) < MINUTES_PER_DAY;
    assert LocalMinute(t, zone(t)) + MINUTES_PER_DAY < LocalMinute(t + 2 * DAY, zone(t + 2 * DAY));
  }

  /** The quarter hour of UTC that is 23:59 of local day 0, where there is one. */
  function LastMinuteStart(offset: int): Instant {
    (LAST_MINUTE - offset) * MINUTE
  }

  lemma LastMinuteStartIsOnGrid(offset: int)
    requires !GridMissesLastMinute(offset)
    ensures LastMinuteStart(offset) % GRID == 0
    ensures ToLocal(LastMinuteStart(offset), offset) == LocalInfo(LAST_MINUTE, 4, 0)
  {
    assert LastMinuteStart(offset) == GRID * (95 - offset / 15);
    assert LastMinuteStart(offset) / MINUTE == LAST_MINUTE - offset;
  }

  /** With one offset, that is if and only if the offset is not a minute short of a quarter hour. */
  lemma PreFilterLosslessIff(offset: int)
    ensures (forall cal: Calendar, start, end | cal.Valid() && start % GRID == 0
               && Evaluate(false, cal, [], false, Some(FixedZone(offset)), start, end, 0) == Available ::
               InCoachWindow(cal, [], Some(FixedZone(offset)), start, end))
        <==> GridMissesLastMinute(offset)
  {
    var zone := FixedZone(offset);
    ZonePreFilterLosslessIff(zone);
    if GridMissesLastMinute(offset) {
      OffsetsMissLastMinute(zone);
    } else {
      LastMinuteStartIsOnGrid(offset);
      assert zone(LastMinuteStart(offset)) == offset;
    }
  }

  // ----- The report for one UTC day -----

  predicate InAnyCoachWindow(l: Listing, dayStart: Instant, slotStart: Instant) {
    exists c :: c in l.coaches && CoachInWindow(l, c, dayStart, slotStart)
  }

  predicate CoachInWindow(l: Listing, c: CoachId, dayStart: Instant, slotStart: Instant) {
    var p := l.profiles(c);
    InCoachWindow(ListedCalendar(p.calendar, dayStart, l.FetchEnd(dayStart + DAY)), p.weeklyOverride, p.zone,
                  slotStart, l.BufferedEnd(slotStart))
  }

  function EventLevelBlock(l: Listing, windowEnd: Option<Instant>, slotStart: Instant): Option<EventBlock> {
    if slotStart <= l.now + LEAD_TIME then Some(InThePast)
    else if windowEnd.Some? && slotStart >= windowEnd.value then Some(BookingWindow)
    else if slotStart - l.now < l.noticeMinutes * MINUTE then Some(NoticeWindow)
    else None
  }

  function DebugVerdict(l: Listing, c: CoachId, dayStart: Instant, slotStart: Instant): Verdict {
    CoachVerdict(l, c, dayStart, dayStart + DAY, slotStart)
  }

  function DebugVerdicts(l: Listing, dayStart: Instant, slotStart: Instant): seq<Verdict> {
    Map((c: CoachId) => DebugVerdict(l, c, dayStart, slotStart), l.coaches)
  }

  /** Visible when the primary coach is free under direct assignment, else when any coach is. */
  function BuildSlot(l: Listing, dayStart: Instant, windowEnd: Option<Instant>, slotStart: Instant): DebugSlot {
    var block := EventLevelBlock(l, windowEnd, slotStart);
    if block.Some? then DebugSlot(slotStart, false, block, []) else
      var verdicts := DebugVerdicts(l, dayStart, slotStart);
      var visible := if l.onlyPrimary then verdicts != [] && verdicts[0] == Available else Available in verdicts;
      DebugSlot(slotStart, visible, None, verdicts)
  }

  predicate AllOutsideHours(slot: DebugSlot) {
    && slot.block == None && slot.verdicts != []
    && forall v :: v in slot.verdicts ==> v == Unavailable(OutsideAvailability)
  }

  function NthSlot(l: Listing, dayStart: Instant, windowEnd: Option<Instant>, k: nat): DebugSlot {
    BuildSlot(l, dayStart, windowEnd, dayStart + k * GRID)
  }

  /** The report with nothing trimmed, first n intervals. */
  function FullReport(l: Listing, dayStart: Instant, windowEnd: Option<Instant>, n: nat): seq<DebugSlot> {
    if n == 0 then [] else
      FullReport(l, dayStart, windowEnd, n - 1) + [NthSlot(l, dayStart, windowEnd, n - 1)]
  }

  function VisibleOnly(slots: seq<DebugSlot>): seq<DebugSlot> {
    Filter((d: DebugSlot) => d.visible, slots)
  }

  ghost predicate ZonesMissLastMinute(l: Listing) {
    forall c :: c in l.coaches && l.profiles(c).zone.Some? ==> ZoneMissesLastMinute(l.profiles(c).zone.value)
  }

  ghost predicate ValidCalendars(l: Listing) {
    forall c :: c in l.coaches ==>
      EffectiveCalendar(l.profiles(c).calendar, l.profiles(c).weeklyOverride).Valid()
  }

  /** An interval outside every coach's window has no available coach, so it is not visible. */
  lemma DroppedSlotIsInvisible(l: Listing, dayStart: Instant, windowEnd: Option<Instant>, slotStart: Instant)
    requires ZonesMissLastMinute(l) && ValidCalendars(l) && slotStart % GRID == 0
    requires !InAnyCoachWindow(l, dayStart, slotStart)
    ensures forall c :: c in l.coaches ==> DebugVerdict(l, c, dayStart, slotStart) != Available
    ensures !BuildSlot(l, dayStart, windowEnd, slotStart).visible
  {
    hide Evaluate, InCoachWindow, ToLocal, GetCoachConflicts;
    forall c | c in l.coaches
      ensures DebugVerdict(l, c, dayStart, slotStart) != Available
    {
      var p := l.profiles(c);
      var cal := ListedCalendar(p.calendar, dayStart, l.FetchEnd(dayStart + DAY));
      assert EffectiveCalendar(cal, p.weeklyOverride).Valid();
      assert !CoachInWindow(l, c, dayStart, slotStart);
      if DebugVerdict(l, c, dayStart, slotStart) == Available {
        PreFilterKeepsAvailable(
          GetCoachConflicts(l.db, c, slotStart, l.BufferedEnd(slotStart), l.exclude) != [],
          cal, p.weeklyOverride, p.zone, slotStart, l.SlotEnd(slotStart), l.bufferAfterMinutes);
      }
    }
  }

  /** The intervals neither trim drops, of the first n. */
  function KeptReport(l: Listing, dayStart: Instant, windowEnd: Option<Instant>, n: nat): seq<DebugSlot> {
    if n == 0 then [] else
      var slot := NthSlot(l, dayStart, windowEnd, n - 1);
      KeptReport(l, dayStart, windowEnd, n - 1)
      + if InAnyCoachWindow(l, dayStart, dayStart + (n - 1) * GRID) && !AllOutsideHours(slot) then [slot] else []
  }

  /**
   * Trims the day to the coaches' hours. Exactly the slots a student would see survive, in
   * order, and an interval that is missing from the report had no available coach.
   */
  method SlotReport(l: Listing, dayStart: Instant, windowEnd: Option<Instant>) returns (slots: seq<DebugSlot>)
    requires dayStart % DAY == 0 && ZonesMissLastMinute(l) && ValidCalendars(l)
    ensures slots == KeptReport(l, dayStart, windowEnd, SLOTS_PER_DAY)
    ensures VisibleOnly(slots) == VisibleOnly(FullReport(l, dayStart, windowEnd, SLOTS_PER_DAY))
    ensures forall k :: 0 <= k < SLOTS_PER_DAY && NthSlot(l, dayStart, windowEnd, k) !in slots ==>
      Available !in DebugVerdicts(l, dayStart, dayStart + k * GRID)
  {
    hide BuildSlot, DebugVerdicts, InAnyCoachWindow, Filter, ZonesMissLastMinute, ValidCalendars;
    slots := [];
    for k := 0 to SLOTS_PER_DAY
      invariant slots == KeptReport(l, dayStart, windowEnd, k)
      invariant VisibleOnly(slots) == VisibleOnly(FullReport(l, dayStart, windowEnd, k))
      invariant forall j :: 0 <= j < k && NthSlot(l, dayStart, windowEnd, j) !in slots ==>
        Available !in DebugVerdicts(l, dayStart, dayStart + j * GRID)
    {
      var slotStart := dayStart + k * GRID;
      var built := NthSlot(l, dayStart, windowEnd, k);
      AppendVisible(FullReport(l, dayStart, windowEnd, k), built);
      AppendVisible(slots, built);
      if !InAnyCoachWindow(l, dayStart, slotStart) {
        OutsideWindowsIsInvisible(l, dayStart, windowEnd, k);
      } else if AllOutsideHours(built) {
        OutsideHoursIsInvisible(l, dayStart, windowEnd, k);
      } else {
        slots := slots + [built];
      }
    }
  }

  lemma AppendVisible(slots: seq<DebugSlot>, slot: DebugSlot)
    ensures VisibleOnly(slots + [slot]) == VisibleOnly(slots) + if slot.visible then [slot] else []
  {
    FilterAppend((d: DebugSlot) => d.visible, slots, [slot]);
  }

  lemma DayGridIsAligned(dayStart: Instant, k: nat)
    ensures dayStart % DAY == 0 ==> (dayStart + k * GRID) % GRID == 0
  {
    var days := dayStart / DAY;
    assert dayStart % DAY == 0 ==> dayStart == 86_400_000 * days;
    assert dayStart % DAY == 0 ==> dayStart + 900_000 * k == 900_000 * (96 * days + k);
  }

  lemma OutsideWindowsIsInvisible(l: Listing, dayStart: Instant, windowEnd: Option<Instant>, k: nat)
    requires dayStart % DAY == 0 && ZonesMissLastMinute(l) && ValidCalendars(l)
    requires !InAnyCoachWindow(l, dayStart, dayStart + k * GRID)
    ensures !NthSlot(l, dayStart, windowEnd, k).visible
    ensures Available !in DebugVerdicts(l, dayStart, dayStart + k * GRID)
  {
    hide BuildSlot, InAnyCoachWindow, ZonesMissLastMinute, ValidCalendars, DebugVerdict;
    DayGridIsAligned(dayStart, k);
    DroppedSlotIsInvisible(l, dayStart, windowEnd, dayStart + k * GRID);
  }

  lemma OutsideHoursIsInvisible(l: Listing, dayStart: Instant, windowEnd: Option<Instant>, k: nat)
    requires AllOutsideHours(NthSlot(l, dayStart, windowEnd, k))
    ensures !NthSlot(l, dayStart, windowEnd, k).visible
    ensures Available !in DebugVerdicts(l, dayStart, dayStart + k * GRID)
  {
    hide DebugVerdicts;
    assert NthSlot(l, dayStart, windowEnd, k).verdicts == DebugVerdicts(l, dayStart, dayStart + k * GRID);
  }
}
