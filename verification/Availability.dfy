/**
 * The coach availability verdict: conflicts first, then one-off exceptions, then weekly
 * hours, over local wall-clock minutes, with a split at local midnight.
 */
module Availability {
  import opened Scheduling

  const MINUTES_PER_DAY := 1440

  /** 23:59, the last wall-clock minute a window or exception can name. */
  const LAST_MINUTE := 1439

  /** Offset from UTC, in whole minutes east, in force at an instant. */
  type Zone = Instant -> int

  /** A zone with one offset throughout. */
  function FixedZone(offset: int): Zone {
    (t: Instant) => offset
  }

  datatype LocalInfo = LocalInfo(minute: int, dayOfWeek: int, date: int)

  /** Minutes since the local epoch; ToLocal cuts this into a date and a minute of day. */
  function LocalMinute(t: Instant, offset: int): int {
    t / MINUTE + offset
  }

  /** 1970-01-01 was a Thursday. */
  function DayOfWeek(date: int): int {
    (date + 4) % 7
  }

  function ToLocal(t: Instant, offset: int): LocalInfo {
    var m := LocalMinute(t, offset);
    LocalInfo(m % MINUTES_PER_DAY, DayOfWeek(m / MINUTES_PER_DAY), m / MINUTES_PER_DAY)
  }

  datatype WeeklyWindow = WeeklyWindow(dayOfWeek: int, start: int, end: int) {
    predicate Valid() {
      0 <= dayOfWeek < 7 && 0 <= start < end <= LAST_MINUTE
    }

    /** This window holds all of both others, on their weekday. */
    predicate Spans(v: WeeklyWindow, w: WeeklyWindow) {
      dayOfWeek == v.dayOfWeek && start <= v.start && start <= w.start && v.end <= end && w.end <= end
    }
  }

  /** A one-off rule for one calendar day; `date` is an instant within that UTC day. */
  datatype DayException = DayException(
    date: Instant, isUnavailable: bool, start: Option<int>, end: Option<int>) {

    predicate Valid() {
      start.Some? && end.Some? ==> 0 <= start.value < end.value <= LAST_MINUTE
    }

    /** Opens the coach's day between two times instead of blocking it. */
    predicate Grants() {
      !isUnavailable && start.Some? && end.Some?
    }
  }

  datatype Calendar = Calendar(weekly: seq<WeeklyWindow>, exceptions: seq<DayException>) {
    ghost predicate Valid() {
      && (forall w :: w in weekly ==> w.Valid())
      && (forall x :: x in exceptions ==> x.Valid())
    }

    /** Any two windows of one weekday that meet or touch lie inside one window. */
    ghost predicate Joined() {
      forall v, w | Adjoin(v, w) :: exists u :: u in weekly && u.Spans(v, w)
    }

    /** Two windows of one weekday that meet or touch. */
    predicate Adjoin(v: WeeklyWindow, w: WeeklyWindow) {
      v in weekly && w in weekly && v.dayOfWeek == w.dayOfWeek && v.start <= w.end && w.start <= v.end
    }
  }

  function FindException(exceptions: seq<DayException>, date: int): Option<DayException> {
    if exceptions == [] then None
    else if exceptions[0].date / DAY == date then Some(exceptions[0])
    else FindException(exceptions[1..], date)
  }

  /** Three-valued: Some(false) blocks, Some(true) grants, None defers to the weekly hours. */
  function ResolveFromException(x: Option<DayException>, s: LocalInfo, e: LocalInfo): Option<bool> {
    if x.None? then None
    else if x.value.isUnavailable && x.value.start.None? then Some(false)
    else if x.value.isUnavailable && x.value.start.Some? && x.value.end.Some? then
      if s.minute < x.value.end.value && e.minute > x.value.start.value then Some(false) else None
    else if !x.value.isUnavailable && x.value.start.Some? && x.value.end.Some? then
      Some(s.minute >= x.value.start.value && e.minute <= x.value.end.value)
    else None
  }

  predicate WithinWeekly(weekly: seq<WeeklyWindow>, s: LocalInfo, e: LocalInfo) {
    exists w :: w in weekly && w.dayOfWeek == s.dayOfWeek && w.start <= s.minute && e.minute <= w.end
  }

  /** Exception first, then weekly hours, for a stretch inside one local day. */
  predicate DayAllows(cal: Calendar, s: LocalInfo, e: LocalInfo) {
    var decision := ResolveFromException(FindException(cal.exceptions, s.date), s, e);
    if decision.Some? then decision.value else WithinWeekly(cal.weekly, s, e)
  }

  /** The session is cut at local midnight: start to 23:59, then 00:00 to the end. */
  predicate AvailableAcrossMidnight(cal: Calendar, start: LocalInfo, end: LocalInfo) {
    var beforeMidnight := LocalInfo(LAST_MINUTE, start.dayOfWeek, start.date);
    var atMidnight := LocalInfo(0, (start.dayOfWeek + 1) % 7, start.date + 1);
    DayAllows(cal, start, beforeMidnight) && DayAllows(cal, atMidnight, end)
  }

  datatype Reason = Conflict | ExceptionBlock | OutsideAvailability | InvalidTimezone

  datatype Verdict = Available | Unavailable(reason: Reason)

  function EffectiveEnd(end: Instant, bufferAfterMinutes: nat): Instant {
    end + bufferAfterMinutes * MINUTE
  }

  /** An event-specific weekly schedule, when there is one, replaces the coach's own. */
  function EffectiveCalendar(cal: Calendar, weeklyOverride: seq<WeeklyWindow>): Calendar {
    if weeklyOverride != [] then cal.(weekly := weeklyOverride) else cal
  }

  /**
   * The verdict for [start, end + buffer]. `hasConflict` says whether the conflict query
   * returned a row; a zone of None is a coach whose stored time zone cannot be read.
   */
  function Evaluate(hasConflict: bool, calendar: Calendar, weeklyOverride: seq<WeeklyWindow>,
                    ignoreWeekly: bool, zone: Option<Zone>,
                    start: Instant, end: Instant, bufferAfterMinutes: nat): Verdict
  {
    if hasConflict then Unavailable(Conflict) else
    if zone.None? then Unavailable(InvalidTimezone) else
    var effectiveEnd := EffectiveEnd(end, bufferAfterMinutes);
    var cal := if ignoreWeekly then calendar else EffectiveCalendar(calendar, weeklyOverride);
    var s := ToLocal(start, zone.value(start));
    var e := ToLocal(effectiveEnd, zone.value(effectiveEnd));
    if s.date != e.date then
      if ignoreWeekly || AvailableAcrossMidnight(cal, s, e) then Available
      else Unavailable(OutsideAvailability)
    else
      var decision := ResolveFromException(FindException(cal.exceptions, s.date), s, e);
      if decision.Some? then (if decision.value then Available else Unavailable(ExceptionBlock))
      else if ignoreWeekly || WithinWeekly(cal.weekly, s, e) then Available
      else Unavailable(OutsideAvailability)
  }

  // ----- What "free" means, minute by minute -----

  /** What an exception says about one wall-clock minute of its day. */
  ghost function DecisionAt(x: Option<DayException>, m: int): Option<bool> {
    match x
    case None => None
    case Some(DayException(_, true, None, _)) => Some(false)
    case Some(DayException(_, true, Some(from), Some(to))) => if from <= m < to then Some(false) else None
    case Some(DayException(_, false, Some(from), Some(to))) => Some(from <= m < to)
    case Some(_) => None
  }

  ghost predicate InSomeWindow(weekly: seq<WeeklyWindow>, dayOfWeek: int, m: int) {
    exists w :: w in weekly && w.dayOfWeek == dayOfWeek && w.start <= m < w.end
  }

  /** The coach is free during one local minute: the day's exception decides, else weekly hours. */
  ghost predicate FreeAt(cal: Calendar, localMinute: int) {
    var date, m := localMinute / MINUTES_PER_DAY, localMinute % MINUTES_PER_DAY;
    var decision := DecisionAt(FindException(cal.exceptions, date), m);
    if decision.Some? then decision.value else InSomeWindow(cal.weekly, DayOfWeek(date), m)
  }

  ghost predicate FreeThroughout(cal: Calendar, from: int, to: int) {
    forall m :: from <= m < to ==> FreeAt(cal, m)
  }

  function InDay(date: int, minute: int): LocalInfo {
    LocalInfo(minute, DayOfWeek(date), date)
  }

  lemma DaySound(cal: Calendar, date: int, s: int, e: int)
    requires 0 <= s && e <= MINUTES_PER_DAY
    requires DayAllows(cal, InDay(date, s), InDay(date, e))
    ensures FreeThroughout(cal, date * MINUTES_PER_DAY + s, date * MINUTES_PER_DAY + e)
  {
    forall k | date * MINUTES_PER_DAY + s <= k < date * MINUTES_PER_DAY + e
      ensures FreeAt(cal, k)
    {
      assert k / MINUTES_PER_DAY == date && k % MINUTES_PER_DAY == k - date * MINUTES_PER_DAY;
    }
  }

  /** Every minute from s to e is inside some window of the weekday. */
  ghost predicate Covered(weekly: seq<WeeklyWindow>, dayOfWeek: int, s: int, e: int) {
    forall m :: s <= m < e ==> InSomeWindow(weekly, dayOfWeek, m)
  }

  predicate InOneWindow(weekly: seq<WeeklyWindow>, dayOfWeek: int, s: int, e: int) {
    exists w :: w in weekly && w.dayOfWeek == dayOfWeek && w.start <= s && e <= w.end
  }

  /** With joined windows, minutes that are all inside some window are inside one window. */
  lemma {:induction false} OneWindowCovers(cal: Calendar, dayOfWeek: int, s: int, e: int) returns (w: WeeklyWindow)
    requires cal.Joined() && s < e && Covered(cal.weekly, dayOfWeek, s, e)
    ensures w in cal.weekly && w.dayOfWeek == dayOfWeek && w.start <= s && e <= w.end
    decreases e - s
  {
    assert InSomeWindow(cal.weekly, dayOfWeek, e - 1);
    if s + 1 == e {
      w :| w in cal.weekly && w.dayOfWeek == dayOfWeek && w.start <= s < w.end;
    } else {
      var u := OneWindowCovers(cal, dayOfWeek, s, e - 1);
      var v :| v in cal.weekly && v.dayOfWeek == dayOfWeek && v.start <= e - 1 < v.end;
      assert cal.Adjoin(u, v);
      w :| w in cal.weekly && w.Spans(u, v);
    }
  }

  /** Two windows that meet or touch cover everything between their ends. */
  lemma MeetingWindowsCover(cal: Calendar, v: WeeklyWindow, w: WeeklyWindow)
    requires cal.Valid() && cal.Adjoin(v, w)
    ensures Covered(cal.weekly, v.dayOfWeek, Min(v.start, w.start), Max(v.end, w.end))
  {
  }

  /** That is exactly when being covered minute by minute puts a stretch inside one window. */
  lemma CoverageIsContainmentIffJoined(cal: Calendar)
    requires cal.Valid()
    ensures cal.Joined()
      <==> forall dayOfWeek, s, e :: s < e && Covered(cal.weekly, dayOfWeek, s, e) ==>
             InOneWindow(cal.weekly, dayOfWeek, s, e)
  {
    if cal.Joined() {
      forall dayOfWeek, s, e | s < e && Covered(cal.weekly, dayOfWeek, s, e)
        ensures InOneWindow(cal.weekly, dayOfWeek, s, e)
      {
        var w := OneWindowCovers(cal, dayOfWeek, s, e);
      }
    } else {
      var v, w := MeetingWithoutSpan(cal);
      MeetingWindowsCover(cal, v, w);
      assert !InOneWindow(cal.weekly, v.dayOfWeek, Min(v.start, w.start), Max(v.end, w.end));
    }
  }

  lemma MeetingWithoutSpan(cal: Calendar) returns (v: WeeklyWindow, w: WeeklyWindow)
    requires cal.Valid() && !cal.Joined()
    ensures cal.Adjoin(v, w)
    ensures !InOneWindow(cal.weekly, v.dayOfWeek, Min(v.start, w.start), Max(v.end, w.end))
  {
    v, w :| cal.Adjoin(v, w) && forall u :: u in cal.weekly ==> !u.Spans(v, w);
    if InOneWindow(cal.weekly, v.dayOfWeek, Min(v.start, w.start), Max(v.end, w.end)) {
      var u :| u in cal.weekly && u.dayOfWeek == v.dayOfWeek
        && u.start <= Min(v.start, w.start) && Max(v.end, w.end) <= u.end;
      assert u.Spans(v, w);
    }
  }

  lemma DayComplete(cal: Calendar, date: int, s: int, e: int)
    requires cal.Valid() && cal.Joined()
    requires 0 <= s < e <= MINUTES_PER_DAY
    requires FreeThroughout(cal, date * MINUTES_PER_DAY + s, date * MINUTES_PER_DAY + e)
    ensures DayAllows(cal, InDay(date, s), InDay(date, e))
  {
    var x := FindException(cal.exceptions, date);
    FoundIsListed(cal.exceptions, date);
    forall m | s <= m < e
      ensures var decision := DecisionAt(x, m);
        if decision.Some? then decision.value else InSomeWindow(cal.weekly, DayOfWeek(date), m)
    {
      var k := date * MINUTES_PER_DAY + m;
      assert k / MINUTES_PER_DAY == date && k % MINUTES_PER_DAY == m;
      assert FreeAt(cal, k);
    }
    var meet := if x.Some? && x.value.start.Some? then Max(s, x.value.start.value) else s;
    assert s <= meet < e ==> DecisionAt(x, meet) != Some(false);
    assert DecisionAt(x, s) != Some(false) && DecisionAt(x, e - 1) != Some(false);
    if ResolveFromException(x, InDay(date, s), InDay(date, e)) == None {
      forall m | s <= m < e
        ensures InSomeWindow(cal.weekly, DayOfWeek(date), m)
      {
        assert DecisionAt(x, m) == None;
      }
      assert Covered(cal.weekly, DayOfWeek(date), s, e);
      var w := OneWindowCovers(cal, DayOfWeek(date), s, e);
    }
  }

  lemma {:induction false} FoundIsListed(exceptions: seq<DayException>, date: int)
    ensures var x := FindException(exceptions, date);
      x.Some? ==> x.value in exceptions && x.value.date / DAY == date
  {
    if exceptions != [] {
      FoundIsListed(exceptions[1..], date);
    }
  }

  // ----- The verdict against minute-by-minute freedom -----

  /** A minute-aligned session shorter than a day, with one offset in force over it. */
  ghost predicate PlainSession(zone: Zone, start: Instant, effectiveEnd: Instant) {
    && start % MINUTE == 0 && effectiveEnd % MINUTE == 0
    && start < effectiveEnd < start + DAY
    && zone(start) == zone(effectiveEnd)
  }

  /** The local minutes whose freedom the verdict vouches for: all but day 1's 23:59 when crossing. */
  ghost predicate FreeButForMidnightMinute(cal: Calendar, from: int, to: int) {
    var midnight := (from / MINUTES_PER_DAY + 1) * MINUTES_PER_DAY;
    forall m :: from <= m < to && (midnight <= to ==> m != midnight - 1) ==> FreeAt(cal, m)
  }

  /** The clock reads later at the end than at the start, by less than a day. */
  predicate ReadsForward(zone: Zone, start: Instant, effectiveEnd: Instant) {
    var from, to := LocalMinute(start, zone(start)), LocalMinute(effectiveEnd, zone(effectiveEnd));
    from < to < from + MINUTES_PER_DAY
  }

  lemma LocalShape(zone: Zone, start: Instant, effectiveEnd: Instant)
    requires ReadsForward(zone, start, effectiveEnd)
    ensures var s := ToLocal(start, zone(start));
      var e := ToLocal(effectiveEnd, zone(effectiveEnd));
      && s == InDay(s.date, s.minute) && e == InDay(e.date, e.minute)
      && 0 <= s.minute <= LAST_MINUTE && 0 <= e.minute <= LAST_MINUTE
      && LocalMinute(start, zone(start)) == s.date * MINUTES_PER_DAY + s.minute
      && LocalMinute(effectiveEnd, zone(effectiveEnd)) == e.date * MINUTES_PER_DAY + e.minute
      && (e.date == s.date ==> s.minute < e.minute)
      && (e.date != s.date ==> e.date == s.date + 1)
      && InDay(s.date + 1, 0) == LocalInfo(0, (s.dayOfWeek + 1) % 7, s.date + 1)
  {
  }

  lemma PlainReadsForward(zone: Zone, start: Instant, effectiveEnd: Instant)
    requires PlainSession(zone, start, effectiveEnd)
    ensures ReadsForward(zone, start, effectiveEnd)
  {
  }

  /** Whatever the offsets at the two ends, "available" vouches for the minutes between the two readings. */
  lemma ReadingsAreVouchedFor(hasConflict: bool, calendar: Calendar, weeklyOverride: seq<WeeklyWindow>,
                              zone: Zone, start: Instant, end: Instant, buffer: nat)
    requires ReadsForward(zone, start, EffectiveEnd(end, buffer))
    requires Evaluate(hasConflict, calendar, weeklyOverride, false, Some(zone), start, end, buffer) == Available
    ensures var effectiveEnd := EffectiveEnd(end, buffer);
      FreeButForMidnightMinute(EffectiveCalendar(calendar, weeklyOverride),
                               LocalMinute(start, zone(start)), LocalMinute(effectiveEnd, zone(effectiveEnd)))
  {
    var cal := EffectiveCalendar(calendar, weeklyOverride);
    var effectiveEnd := EffectiveEnd(end, buffer);
    var s := ToLocal(start, zone(start));
    var e := ToLocal(effectiveEnd, zone(effectiveEnd));
    LocalShape(zone, start, effectiveEnd);
    if s.date == e.date {
      DaySound(cal, s.date, s.minute, e.minute);
    } else {
      DaySound(cal, s.date, s.minute, LAST_MINUTE);
      DaySound(cal, s.date + 1, 0, e.minute);
    }
  }

  /** The verdict is sound: "available" means no conflict and a coach free at every minute claimed. */
  lemma AvailableIsSound(hasConflict: bool, calendar: Calendar, weeklyOverride: seq<WeeklyWindow>,
                         zone: Zone, start: Instant, end: Instant, buffer: nat)
    requires PlainSession(zone, start, EffectiveEnd(end, buffer))
    requires Evaluate(hasConflict, calendar, weeklyOverride, false, Some(zone), start, end, buffer) == Available
    ensures !hasConflict
    ensures FreeButForMidnightMinute(EffectiveCalendar(calendar, weeklyOverride),
              LocalMinute(start, zone(start)), LocalMinute(EffectiveEnd(end, buffer), zone(start)))
  {
    PlainReadsForward(zone, start, EffectiveEnd(end, buffer));
    ReadingsAreVouchedFor(hasConflict, calendar, weeklyOverride, zone, start, end, buffer);
  }

  /**
   * With joined windows the verdict is exact: available if and only if there is no conflict
   * and every claimed minute is free. Both halves of a crossing session must be non-empty:
   * a start at 23:59 or an end at 00:00 leaves a half with no minute in it.
   */
  lemma AvailableIffFree(hasConflict: bool, calendar: Calendar, weeklyOverride: seq<WeeklyWindow>,
                         zone: Zone, start: Instant, end: Instant, buffer: nat)
    requires PlainSession(zone, start, EffectiveEnd(end, buffer))
    requires EffectiveCalendar(calendar, weeklyOverride).Valid()
    requires EffectiveCalendar(calendar, weeklyOverride).Joined()
    requires ToLocal(start, zone(start)).minute != LAST_MINUTE
    requires ToLocal(EffectiveEnd(end, buffer), zone(start)).minute != 0
    ensures Evaluate(hasConflict, calendar, weeklyOverride, false, Some(zone), start, end, buffer) == Available
      <==> !hasConflict &&
           FreeButForMidnightMinute(EffectiveCalendar(calendar, weeklyOverride),
             LocalMinute(start, zone(start)), LocalMinute(EffectiveEnd(end, buffer), zone(start)))
  {
    var cal := EffectiveCalendar(calendar, weeklyOverride);
    var effectiveEnd := EffectiveEnd(end, buffer);
    var from, to := LocalMinute(start, zone(start)), LocalMinute(effectiveEnd, zone(start));
    var s := ToLocal(start, zone(start));
    var e := ToLocal(effectiveEnd, zone(effectiveEnd));
    PlainReadsForward(zone, start, effectiveEnd);
    LocalShape(zone, start, effectiveEnd);
    if Evaluate(hasConflict, calendar, weeklyOverride, false, Some(zone), start, end, buffer) == Available {
      AvailableIsSound(hasConflict, calendar, weeklyOverride, zone, start, end, buffer);
    } else if !hasConflict && FreeButForMidnightMinute(cal, from, to) {
      if s.date == e.date {
        assert FreeThroughout(cal, from, to);
        DayComplete(cal, s.date, s.minute, e.minute);
      } else {
        var midnight := (s.date + 1) * MINUTES_PER_DAY;
        assert FreeThroughout(cal, from, midnight - 1) && FreeThroughout(cal, midnight, to);
        DayComplete(cal, s.date, s.minute, LAST_MINUTE);
        DayComplete(cal, s.date + 1, 0, e.minute);
      }
    }
  }

  /** For this calendar and session, with no conflict, the verdict says exactly whether the coach is free. */
  ghost predicate VerdictIsFreedom(cal: Calendar, zone: Zone, start: Instant, end: Instant, buffer: nat) {
    Evaluate(false, cal, [], false, Some(zone), start, end, buffer) == Available
    <==> FreeButForMidnightMinute(cal, LocalMinute(start, zone(start)),
                                  LocalMinute(EffectiveEnd(end, buffer), zone(start)))
  }

  /** A calendar that frees only the minutes the session claims, in one window. */
  function OnlyWindow(zone: Zone, start: Instant, effectiveEnd: Instant): Calendar {
    var s, e := ToLocal(start, zone(start)), ToLocal(effectiveEnd, zone(start));
    if s.minute < LAST_MINUTE then Calendar([WeeklyWindow(s.dayOfWeek, s.minute, LAST_MINUTE)], [])
    else if 0 < e.minute then Calendar([WeeklyWindow(e.dayOfWeek, 0, e.minute)], [])
    else Calendar([], [])
  }

  /** At either edge a free coach can be refused. */
  lemma EdgeRefusesFreeCoach(zone: Zone, start: Instant, end: Instant, buffer: nat)
    requires PlainSession(zone, start, EffectiveEnd(end, buffer))
    requires ToLocal(start, zone(start)).minute == LAST_MINUTE || ToLocal(EffectiveEnd(end, buffer), zone(start)).minute == 0
    ensures var cal := OnlyWindow(zone, start, EffectiveEnd(end, buffer));
      cal.Valid() && cal.Joined() && !VerdictIsFreedom(cal, zone, start, end, buffer)
  {
    var effectiveEnd := EffectiveEnd(end, buffer);
    var cal := OnlyWindow(zone, start, effectiveEnd);
    var s, e := ToLocal(start, zone(start)), ToLocal(effectiveEnd, zone(start));
    var from, to := LocalMinute(start, zone(start)), LocalMinute(effectiveEnd, zone(start));
    PlainReadsForward(zone, start, effectiveEnd);
    LocalShape(zone, start, effectiveEnd);
    assert cal.weekly != [] ==> cal.weekly[0] in cal.weekly;
    assert cal.Joined() by {
      assert forall v, w :: cal.Adjoin(v, w) ==> v == w && v in cal.weekly && v.Spans(v, w);
    }
    var midnight := (s.date + 1) * MINUTES_PER_DAY;
    forall m | from <= m < to && m != midnight - 1 ensures FreeAt(cal, m) {
      if s.minute < LAST_MINUTE {
        assert m / MINUTES_PER_DAY == s.date && s.minute <= m % MINUTES_PER_DAY < LAST_MINUTE;
      } else {
        assert m / MINUTES_PER_DAY == e.date && 0 <= m % MINUTES_PER_DAY < e.minute;
      }
    }
  }

  /**
   * For any session, the verdict is exact over every valid calendar with joined windows if and
   * only if the session neither starts at 23:59 nor ends at 00:00, local time.
   */
  lemma VerdictIsExactIff(zone: Zone, start: Instant, end: Instant, buffer: nat)
    requires PlainSession(zone, start, EffectiveEnd(end, buffer))
    ensures (forall cal: Calendar :: cal.Valid() && cal.Joined() ==> VerdictIsFreedom(cal, zone, start, end, buffer))
      <==> ToLocal(start, zone(start)).minute != LAST_MINUTE
           && ToLocal(EffectiveEnd(end, buffer), zone(start)).minute != 0
  {
    if ToLocal(start, zone(start)).minute != LAST_MINUTE && ToLocal(EffectiveEnd(end, buffer), zone(start)).minute != 0 {
      forall cal: Calendar | cal.Valid() && cal.Joined() ensures VerdictIsFreedom(cal, zone, start, end, buffer) {
        AvailableIffFree(false, cal, [], zone, start, end, buffer);
      }
    } else {
      EdgeRefusesFreeCoach(zone, start, end, buffer);
    }
  }

  /** A session in UTC of the first week that has the weekday, between two of its minutes. */
  function OnWeekday(dayOfWeek: int, minute: int): Instant {
    ((dayOfWeek + 3) % 7 * MINUTES_PER_DAY + minute) * MINUTE
  }

  lemma WeekdayShape(dayOfWeek: int, s: int, e: int)
    requires 0 <= dayOfWeek < 7 && 0 <= s < e <= LAST_MINUTE
    ensures PlainSession(FixedZone(0), OnWeekday(dayOfWeek, s), OnWeekday(dayOfWeek, e))
    ensures ToLocal(OnWeekday(dayOfWeek, s), 0) == LocalInfo(s, dayOfWeek, (dayOfWeek + 3) % 7)
    ensures ToLocal(OnWeekday(dayOfWeek, e), 0) == LocalInfo(e, dayOfWeek, (dayOfWeek + 3) % 7)
  {
  }

  /**
   * For any weekly hours, the verdict is exact over every session clear of those edges if and
   * only if the windows are joined: adjacent windows refuse a session that spans them.
   */
  lemma WeeklyHoursAreExactIff(weekly: seq<WeeklyWindow>)
    requires Calendar(weekly, []).Valid()
    ensures (forall start, end | PlainSession(FixedZone(0), start, end)
                                 && ToLocal(start, 0).minute != LAST_MINUTE && ToLocal(end, 0).minute != 0 ::
               VerdictIsFreedom(Calendar(weekly, []), FixedZone(0), start, end, 0))
      <==> Calendar(weekly, []).Joined()
  {
    var cal := Calendar(weekly, []);
    if cal.Joined() {
      forall start, end | PlainSession(FixedZone(0), start, end)
        && ToLocal(start, 0).minute != LAST_MINUTE && ToLocal(end, 0).minute != 0
        ensures VerdictIsFreedom(cal, FixedZone(0), start, end, 0)
      {
        AvailableIffFree(false, cal, [], FixedZone(0), start, end, 0);
      }
    } else {
      var v, w := MeetingWithoutSpan(cal);
      SpanningSessionIsRefused(cal, v, w);
    }
  }

  lemma SpanningSessionIsRefused(cal: Calendar, v: WeeklyWindow, w: WeeklyWindow)
    requires cal.Valid() && cal.exceptions == [] && cal.Adjoin(v, w)
    requires !InOneWindow(cal.weekly, v.dayOfWeek, Min(v.start, w.start), Max(v.end, w.end))
    ensures var start := OnWeekday(v.dayOfWeek, Min(v.start, w.start));
      var end := OnWeekday(v.dayOfWeek, Max(v.end, w.end));
      && PlainSession(FixedZone(0), start, end) && ToLocal(start, 0).minute != LAST_MINUTE && ToLocal(end, 0).minute != 0
      && !VerdictIsFreedom(cal, FixedZone(0), start, end, 0)
  {
    var s, e := Min(v.start, w.start), Max(v.end, w.end);
    var start, end := OnWeekday(v.dayOfWeek, s), OnWeekday(v.dayOfWeek, e);
    WeekdayShape(v.dayOfWeek, s, e);
    PlainReadsForward(FixedZone(0), start, end);
    LocalShape(FixedZone(0), start, end);
    MeetingWindowsCover(cal, v, w);
    var date := (v.dayOfWeek + 3) % 7;
    forall k | date * MINUTES_PER_DAY + s <= k < date * MINUTES_PER_DAY + e ensures FreeAt(cal, k) {
      assert k / MINUTES_PER_DAY == date && k % MINUTES_PER_DAY == k - date * MINUTES_PER_DAY;
      assert InSomeWindow(cal.weekly, v.dayOfWeek, k - date * MINUTES_PER_DAY);
    }
    assert !WithinWeekly(cal.weekly, ToLocal(start, 0), ToLocal(end, 0)) by {
      if WithinWeekly(cal.weekly, ToLocal(start, 0), ToLocal(end, 0)) {
        assert InOneWindow(cal.weekly, v.dayOfWeek, s, e);
      }
    }
  }

  // ----- When the clock changes during a session -----

  /** The offset goes from a to b at t0, inside a minute-aligned session shorter than a day on the clock. */
  ghost predicate ChangesInside(zone: Zone, start: Instant, effectiveEnd: Instant, a: int, b: int, t0: Instant) {
    && start % MINUTE == 0 && effectiveEnd % MINUTE == 0 && t0 % MINUTE == 0
    && start < t0 < effectiveEnd < start + DAY - (b - a) * MINUTE
    && forall t :: start <= t <= effectiveEnd ==> zone(t) == if t < t0 then a else b
  }

  /** The coach is free at every minute the clock shows during the session, but for 23:59 of its first date. */
  ghost predicate FreeAllAlong(cal: Calendar, zone: Zone, start: Instant, effectiveEnd: Instant) {
    var midnight := (LocalMinute(start, zone(start)) / MINUTES_PER_DAY + 1) * MINUTES_PER_DAY;
    forall t :: start <= t < effectiveEnd && LocalMinute(t, zone(t)) != midnight - 1 ==>
      FreeAt(cal, LocalMinute(t, zone(t)))
  }

  /** Neither end of the change is outside the readings at the session's own ends. */
  predicate ChangeStaysBetween(start: Instant, effectiveEnd: Instant, a: int, b: int, t0: Instant) {
    LocalMinute(start, a) <= LocalMinute(t0, b) && LocalMinute(t0, a) <= LocalMinute(effectiveEnd, b)
  }

  /** Going forward, it always does. */
  lemma ForwardStaysBetween(zone: Zone, start: Instant, effectiveEnd: Instant, a: int, b: int, t0: Instant)
    requires ChangesInside(zone, start, effectiveEnd, a, b, t0)
    ensures a <= b ==> ChangeStaysBetween(start, effectiveEnd, a, b, t0)
  {
  }

  /** Then "available" still means free at every minute of the session. */
  lemma AvailableIsSoundAcrossChange(hasConflict: bool, calendar: Calendar, weeklyOverride: seq<WeeklyWindow>, zone: Zone,
                                     start: Instant, end: Instant, buffer: nat, a: int, b: int, t0: Instant)
    requires ChangesInside(zone, start, EffectiveEnd(end, buffer), a, b, t0)
    requires ChangeStaysBetween(start, EffectiveEnd(end, buffer), a, b, t0)
    requires Evaluate(hasConflict, calendar, weeklyOverride, false, Some(zone), start, end, buffer) == Available
    ensures FreeAllAlong(EffectiveCalendar(calendar, weeklyOverride), zone, start, EffectiveEnd(end, buffer))
  {
    hide Evaluate, FreeAt;
    var effectiveEnd := EffectiveEnd(end, buffer);
    assert zone(start) == a && zone(effectiveEnd) == b;
    assert LocalMinute(start, a) < LocalMinute(t0, a) && LocalMinute(t0, b) < LocalMinute(effectiveEnd, b);
    ReadingsAreVouchedFor(hasConflict, calendar, weeklyOverride, zone, start, end, buffer);
    forall t | start <= t < effectiveEnd
      ensures LocalMinute(start, a) <= LocalMinute(t, zone(t)) < LocalMinute(effectiveEnd, b)
    {
    }
  }

  /** Open every day from start to end of day. */
  function AllWeek(): seq<WeeklyWindow> {
    [WeeklyWindow(0, 0, LAST_MINUTE), WeeklyWindow(1, 0, LAST_MINUTE), WeeklyWindow(2, 0, LAST_MINUTE),
     WeeklyWindow(3, 0, LAST_MINUTE), WeeklyWindow(4, 0, LAST_MINUTE), WeeklyWindow(5, 0, LAST_MINUTE),
     WeeklyWindow(6, 0, LAST_MINUTE)]
  }

  lemma AllWeekHolds(s: LocalInfo, e: LocalInfo)
    requires 0 <= s.minute && e.minute <= LAST_MINUTE && 0 <= s.dayOfWeek < 7
    ensures WithinWeekly(AllWeek(), s, e)
  {
    assert AllWeek()[s.dayOfWeek] in AllWeek();
  }

  /** Always open but for one minute. */
  function BusyMinute(localMinute: int): Calendar {
    var m := localMinute % MINUTES_PER_DAY;
    Calendar(AllWeek(), [DayException(localMinute / MINUTES_PER_DAY * DAY, true, Some(m), Some(m + 1))])
  }

  /** All four readings fall on one local date, before its last minute. */
  predicate OnOneDate(start: Instant, effectiveEnd: Instant, a: int, b: int, t0: Instant) {
    var date := LocalMinute(start, a) / MINUTES_PER_DAY;
    && date * MINUTES_PER_DAY <= LocalMinute(t0, b) && date * MINUTES_PER_DAY <= LocalMinute(effectiveEnd, b)
    && LocalMinute(t0, a) <= date * MINUTES_PER_DAY + LAST_MINUTE
    && LocalMinute(effectiveEnd, b) <= date * MINUTES_PER_DAY + LAST_MINUTE
    && LocalMinute(t0, b) < date * MINUTES_PER_DAY + LAST_MINUTE
  }

  /** A minute the clock shows, outside what the endpoints claim, can be busy and go unnoticed. */
  lemma UnclaimedMinuteGoesUnnoticed(zone: Zone, start: Instant, end: Instant, a: int, b: int, t0: Instant, t: Instant)
    requires ChangesInside(zone, start, end, a, b, t0) && OnOneDate(start, end, a, b, t0)
    requires start <= t < end
    requires var m := LocalMinute(t, zone(t));
      var date := LocalMinute(start, a) / MINUTES_PER_DAY;
      && date * MINUTES_PER_DAY <= m < date * MINUTES_PER_DAY + LAST_MINUTE
      && (m < LocalMinute(start, a) || LocalMinute(end, b) <= m)
    ensures var cal := BusyMinute(LocalMinute(t, zone(t)));
      && cal.Valid() && Evaluate(false, cal, [], false, Some(zone), start, end, 0) == Available
      && !FreeAllAlong(cal, zone, start, end)
  {
    hide AllWeek;
    var m, date := LocalMinute(t, zone(t)), LocalMinute(start, a) / MINUTES_PER_DAY;
    var cal := BusyMinute(m);
    assert zone(start) == a && zone(end) == b;
    var s, e := ToLocal(start, a), ToLocal(end, b);
    assert m / MINUTES_PER_DAY == date && s.date == date && e.date == date;
    assert FindException(cal.exceptions, date) == Some(cal.exceptions[0]);
    assert s.minute == LocalMinute(start, a) - date * MINUTES_PER_DAY;
    assert e.minute == LocalMinute(end, b) - date * MINUTES_PER_DAY;
    AllWeekHolds(s, e);
    AllWeekIsValid();
    assert !FreeAt(cal, m);
  }

  lemma AllWeekIsValid()
    ensures forall w :: w in AllWeek() ==> w.Valid()
  {
  }

  /**
   * For a session on one local date during which the clock changes, "available" means free all
   * along, over every valid calendar, if and only if the change stays between the readings at
   * the session's ends.
   */
  lemma SoundAcrossChangeIff(zone: Zone, start: Instant, end: Instant, a: int, b: int, t0: Instant)
    requires ChangesInside(zone, start, end, a, b, t0) && OnOneDate(start, end, a, b, t0)
    ensures (forall cal: Calendar :: cal.Valid() && Evaluate(false, cal, [], false, Some(zone), start, end, 0) == Available ==>
               FreeAllAlong(cal, zone, start, end))
      <==> ChangeStaysBetween(start, end, a, b, t0)
  {
    hide Evaluate, FreeAllAlong, OnOneDate;
    if ChangeStaysBetween(start, end, a, b, t0) {
      forall cal: Calendar | cal.Valid() && Evaluate(false, cal, [], false, Some(zone), start, end, 0) == Available
        ensures FreeAllAlong(cal, zone, start, end)
      {
        AvailableIsSoundAcrossChange(false, cal, [], zone, start, end, 0, a, b, t0);
      }
    } else {
      var t := if LocalMinute(t0, b) < LocalMinute(start, a) then t0 else t0 - MINUTE;
      UnclaimedReading(zone, start, end, a, b, t0);
      UnclaimedMinuteGoesUnnoticed(zone, start, end, a, b, t0, t);
    }
  }

  lemma UnclaimedReading(zone: Zone, start: Instant, end: Instant, a: int, b: int, t0: Instant)
    requires ChangesInside(zone, start, end, a, b, t0) && OnOneDate(start, end, a, b, t0)
    requires !ChangeStaysBetween(start, end, a, b, t0)
    ensures var t := if LocalMinute(t0, b) < LocalMinute(start, a) then t0 else t0 - MINUTE;
      var m := LocalMinute(t, zone(t));
      var date := LocalMinute(start, a) / MINUTES_PER_DAY;
      && start <= t < end && date * MINUTES_PER_DAY <= m < date * MINUTES_PER_DAY + LAST_MINUTE
      && (m < LocalMinute(start, a) || LocalMinute(end, b) <= m)
  {
    assert zone(t0) == b && zone(t0 - MINUTE) == a;
    assert LocalMinute(t0 - MINUTE, a) == LocalMinute(t0, a) - 1;
  }

  // ----- Shorter sessions are easier -----

  lemma DayAntitone(cal: Calendar, s: LocalInfo, e: LocalInfo, e': LocalInfo)
    requires e.minute <= e'.minute
    requires DayAllows(cal, s, e')
    ensures DayAllows(cal, s, e)
  {
  }

  /** Available up to a later end implies available up to an earlier one. */
  lemma {:induction false} VerdictIsAntitone(hasConflict: bool, hasConflict': bool, calendar: Calendar,
                          weeklyOverride: seq<WeeklyWindow>, zone: Zone,
                          start: Instant, end: Instant, end': Instant)
    requires start < end <= end' < start + DAY
    requires zone(start) == zone(end) == zone(end')
    requires hasConflict ==> hasConflict'
    requires Evaluate(hasConflict', calendar, weeklyOverride, false, Some(zone), start, end', 0) == Available
    ensures Evaluate(hasConflict, calendar, weeklyOverride, false, Some(zone), start, end, 0) == Available
  {
    var cal := EffectiveCalendar(calendar, weeklyOverride);
    var s, e, e' := ToLocal(start, zone(start)), ToLocal(end, zone(end)), ToLocal(end', zone(end'));
    var atMidnight := LocalInfo(0, (s.dayOfWeek + 1) % 7, s.date + 1);
    assert s.date <= e.date <= e'.date <= s.date + 1;
    if s.date == e'.date {
      DayAntitone(cal, s, e, e');
    } else if s.date == e.date {
      DayAntitone(cal, s, e, LocalInfo(LAST_MINUTE, s.dayOfWeek, s.date));
    } else {
      DayAntitone(cal, atMidnight, e, e');
    }
  }

  /**
   * The exactness above fails at the edge it leaves out: a Monday session from 23:00 to
   * midnight, with Monday hours 22:00-23:59, is refused although every minute it claims is free.
   */
  lemma EndingAtMidnightIsRefused()
    ensures var cal := Calendar([WeeklyWindow(1, 1320, LAST_MINUTE)], []);
      var zone := FixedZone(0);
      var start, end := 4 * DAY + 23 * HOUR, 5 * DAY;
      && cal.Valid() && cal.Joined() && PlainSession(zone, start, end)
      && FreeButForMidnightMinute(cal, LocalMinute(start, 0), LocalMinute(end, 0))
      && Evaluate(false, cal, [], false, Some(zone), start, end, 0) == Unavailable(OutsideAvailability)
  {
    var cal := Calendar([WeeklyWindow(1, 1320, LAST_MINUTE)], []);
    var w := cal.weekly[0];
    forall m | LocalMinute(4 * DAY + 23 * HOUR, 0) <= m < LocalMinute(5 * DAY, 0) - 1
      ensures FreeAt(cal, m)
    {
      assert w in cal.weekly && m / MINUTES_PER_DAY == 4 && w.start <= m % MINUTES_PER_DAY < w.end;
    }
  }

  // ----- Grants as documented -----

  /** The documented rule: a grant the session is not inside leaves the decision to the weekly hours. */
  function ResolveAsDocumented(x: Option<DayException>, s: LocalInfo, e: LocalInfo): Option<bool> {
    if x.Some? && x.value.Grants() then
      if x.value.start.value <= s.minute && e.minute <= x.value.end.value then Some(true) else None
    else ResolveFromException(x, s, e)
  }

  predicate DayAllowsAsDocumented(cal: Calendar, s: LocalInfo, e: LocalInfo) {
    var decision := ResolveAsDocumented(FindException(cal.exceptions, s.date), s, e);
    if decision.Some? then decision.value else WithinWeekly(cal.weekly, s, e)
  }

  /** The day has a grant, the stretch is not inside it, and the weekly hours would allow it. */
  predicate GrantInTheWay(cal: Calendar, s: LocalInfo, e: LocalInfo) {
    var x := FindException(cal.exceptions, s.date);
    && x.Some? && x.value.Grants()
    && (s.minute < x.value.start.value || x.value.end.value < e.minute)
    && WithinWeekly(cal.weekly, s, e)
  }

  /** The stretches of one local day that a session is cut into. */
  function Stretches(s: LocalInfo, e: LocalInfo): seq<(LocalInfo, LocalInfo)> {
    if s.date == e.date then [(s, e)]
    else [(s, LocalInfo(LAST_MINUTE, s.dayOfWeek, s.date)), (LocalInfo(0, (s.dayOfWeek + 1) % 7, s.date + 1), e)]
  }

  predicate DocumentedAllows(cal: Calendar, s: LocalInfo, e: LocalInfo) {
    forall p :: p in Stretches(s, e) ==> DayAllowsAsDocumented(cal, p.0, p.1)
  }

  lemma DayDiffersIff(cal: Calendar, s: LocalInfo, e: LocalInfo)
    ensures DayAllowsAsDocumented(cal, s, e) <==> DayAllows(cal, s, e) || GrantInTheWay(cal, s, e)
    ensures !(DayAllows(cal, s, e) && GrantInTheWay(cal, s, e))
  {
  }

  /**
   * The verdict meets the documented rule if and only if no grant is in the way of a stretch
   * of the session. Where one is, the coach is refused although the documented rule offers them.
   */
  lemma VerdictIsAsDocumentedIff(calendar: Calendar, weeklyOverride: seq<WeeklyWindow>, zone: Zone,
                                 start: Instant, end: Instant, buffer: nat)
    ensures var effectiveEnd, cal := EffectiveEnd(end, buffer), EffectiveCalendar(calendar, weeklyOverride);
      var s, e := ToLocal(start, zone(start)), ToLocal(effectiveEnd, zone(effectiveEnd));
      var available := Evaluate(false, calendar, weeklyOverride, false, Some(zone), start, end, buffer) == Available;
      && (available ==> DocumentedAllows(cal, s, e))
      && (DocumentedAllows(cal, s, e) ==>
            (available <==> forall p :: p in Stretches(s, e) ==> !GrantInTheWay(cal, p.0, p.1)))
  {
    hide ToLocal, DayAllows, DayAllowsAsDocumented, GrantInTheWay;
    var effectiveEnd, cal := EffectiveEnd(end, buffer), EffectiveCalendar(calendar, weeklyOverride);
    var s, e := ToLocal(start, zone(start)), ToLocal(effectiveEnd, zone(effectiveEnd));
    SplitIsAllStretches(calendar, weeklyOverride, zone, start, end, buffer);
    forall p | p in Stretches(s, e)
      ensures DayAllowsAsDocumented(cal, p.0, p.1) <==> DayAllows(cal, p.0, p.1) || GrantInTheWay(cal, p.0, p.1)
      ensures !(DayAllows(cal, p.0, p.1) && GrantInTheWay(cal, p.0, p.1))
    {
      DayDiffersIff(cal, p.0, p.1);
    }
  }

  /** With no conflict the verdict is that of every stretch. */
  lemma SplitIsAllStretches(calendar: Calendar, weeklyOverride: seq<WeeklyWindow>, zone: Zone,
                            start: Instant, end: Instant, buffer: nat)
    ensures var effectiveEnd, cal := EffectiveEnd(end, buffer), EffectiveCalendar(calendar, weeklyOverride);
      var s, e := ToLocal(start, zone(start)), ToLocal(effectiveEnd, zone(effectiveEnd));
      Evaluate(false, calendar, weeklyOverride, false, Some(zone), start, end, buffer) == Available
      <==> forall p :: p in Stretches(s, e) ==> DayAllows(cal, p.0, p.1)
  {
    hide ToLocal, ResolveFromException, FindException, WithinWeekly;
    var effectiveEnd, cal := EffectiveEnd(end, buffer), EffectiveCalendar(calendar, weeklyOverride);
    var s, e := ToLocal(start, zone(start)), ToLocal(effectiveEnd, zone(effectiveEnd));
    if s.date == e.date {
      assert Stretches(s, e)[0] == (s, e);
    } else {
      assert Stretches(s, e)[0].0 == s && Stretches(s, e)[1].1 == e;
    }
  }

  /**
   * On a Monday with hours 09:00-17:00 and an evening grant 18:00-20:00, the morning session
   * from 10:00 to 11:00 is refused; the documented rule allows it.
   */
  lemma EveningGrantClosesTheMorning()
    ensures var grant := DayException(4 * DAY, false, Some(1080), Some(1200));
      var cal := Calendar([WeeklyWindow(1, 540, 1020)], [grant]);
      var start, end := 4 * DAY + 10 * HOUR, 4 * DAY + 11 * HOUR;
      && cal.Valid() && DocumentedAllows(cal, ToLocal(start, 0), ToLocal(end, 0))
      && Evaluate(false, cal, [], false, Some(FixedZone(0)), start, end, 0) == Unavailable(ExceptionBlock)
  {
    var cal := Calendar([WeeklyWindow(1, 540, 1020)], [DayException(4 * DAY, false, Some(1080), Some(1200))]);
    assert cal.weekly[0] in cal.weekly;
    assert ToLocal(4 * DAY + 10 * HOUR, 0) == LocalInfo(600, 1, 4) && ToLocal(4 * DAY + 11 * HOUR, 0) == LocalInfo(660, 1, 4);
  }

  // ----- The 48-hour exception read -----

  /** The exceptions the verdict reads: 48 hours either side of the buffered session. */
  function ExceptionsRead(all: seq<DayException>, start: Instant, effectiveEnd: Instant): seq<DayException> {
    Filter((x: DayException) => start - 48 * HOUR <= x.date <= effectiveEnd + 48 * HOUR, all)
  }

  lemma {:induction false} FindSurvivesFilter(all: seq<DayException>, keep: DayException -> bool, date: int)
    requires forall x :: x in all && x.date / DAY == date ==> keep(x)
    ensures FindException(Filter(keep, all), date) == FindException(all, date)
  {
    if all != [] {
      FindSurvivesFilter(all[1..], keep, date);
      if keep(all[0]) {
        assert Filter(keep, all) == [all[0]] + Filter(keep, all[1..]);
        assert Filter(keep, all)[1..] == Filter(keep, all[1..]);
      } else {
        assert Filter(keep, all) == Filter(keep, all[1..]);
      }
    }
  }

  /** The verdict depends on the exceptions of the local start date and, across midnight, of the day after. */
  lemma VerdictReadsItsDates(hasConflict: bool, cal: Calendar, exceptions: seq<DayException>,
                             weeklyOverride: seq<WeeklyWindow>, ignoreWeekly: bool, zone: Zone,
                             start: Instant, end: Instant, buffer: nat)
    requires var date := ToLocal(start, zone(start)).date;
      var effectiveEnd := EffectiveEnd(end, buffer);
      && FindException(exceptions, date) == FindException(cal.exceptions, date)
      && (ToLocal(effectiveEnd, zone(effectiveEnd)).date != date ==>
            FindException(exceptions, date + 1) == FindException(cal.exceptions, date + 1))
    ensures Evaluate(hasConflict, cal.(exceptions := exceptions), weeklyOverride, ignoreWeekly, Some(zone), start, end, buffer)
         == Evaluate(hasConflict, cal, weeklyOverride, ignoreWeekly, Some(zone), start, end, buffer)
  {
    hide ToLocal, FindException;
  }

  /** Midnight UTC of a local date is at most 36 hours before and 14 hours after the instant. */
  lemma LocalDateIsNear(t: Instant, offset: int)
    requires -12 * 60 <= offset <= 14 * 60
    ensures var midnight := ToLocal(t, offset).date * DAY; t - 36 * HOUR - MINUTE < midnight <= t + 14 * HOUR
  {
    assert t / MINUTE * MINUTE <= t < t / MINUTE * MINUTE + MINUTE;
  }

  lemma ReadCoversDate(all: seq<DayException>, start: Instant, effectiveEnd: Instant, date: int)
    requires forall x :: x in all ==> x.date % DAY == 0
    requires start - 48 * HOUR <= date * DAY <= effectiveEnd + 48 * HOUR
    ensures FindException(ExceptionsRead(all, start, effectiveEnd), date) == FindException(all, date)
  {
    FindSurvivesFilter(all, (x: DayException) => start - 48 * HOUR <= x.date <= effectiveEnd + 48 * HOUR, date);
  }

  /**
   * No exception on a local date the verdict looks at falls outside the range read, for any
   * offsets from -12 h to +14 h, one offset or several. Exceptions are stored at midnight UTC.
   */
  lemma ExceptionReadLosesNothing(hasConflict: bool, all: Calendar, weeklyOverride: seq<WeeklyWindow>,
                                  ignoreWeekly: bool, zone: Zone, start: Instant, end: Instant, buffer: nat)
    requires start <= end
    requires forall t :: -12 * 60 <= zone(t) <= 14 * 60
    requires forall x :: x in all.exceptions ==> x.date % DAY == 0
    ensures Evaluate(hasConflict, all.(exceptions := ExceptionsRead(all.exceptions, start, EffectiveEnd(end, buffer))),
                     weeklyOverride, ignoreWeekly, Some(zone), start, end, buffer)
         == Evaluate(hasConflict, all, weeklyOverride, ignoreWeekly, Some(zone), start, end, buffer)
  {
    var effectiveEnd := EffectiveEnd(end, buffer);
    var date := ToLocal(start, zone(start)).date;
    LocalDateIsNear(start, zone(start));
    ReadCoversDate(all.exceptions, start, effectiveEnd, date);
    ReadCoversDate(all.exceptions, start, effectiveEnd, date + 1);
    VerdictReadsItsDates(hasConflict, all, ExceptionsRead(all.exceptions, start, effectiveEnd),
                         weeklyOverride, ignoreWeekly, zone, start, end, buffer);
  }
}
