/** The public slot list of a COACH_AVAILABILITY event, and what a listed slot promises the booking path. */
module SlotListing {
  import opened Scheduling
  import opened Availability
  import opened CoachConflicts

  const GRID: Instant := 15 * MINUTE

  /** A slot must start later than this after now. */
  const LEAD_TIME: Instant := 2 * MINUTE

  datatype CoachProfile = CoachProfile(calendar: Calendar, weeklyOverride: seq<WeeklyWindow>, zone: Option<Zone>)

  /**
   * The event, the coaches eligible to serve it, and the stored rows, at a fixed now. The
   * public list excludes no booking; a reschedule excludes the booking being moved.
   */
  datatype Listing = Listing(
    db: Database,
    coaches: seq<CoachId>,
    profiles: CoachId -> CoachProfile,
    onlyPrimary: bool,
    duration: Instant,
    bufferAfterMinutes: nat,
    noticeMinutes: int,
    now: Instant,
    exclude: Option<BookingId>) {

    function SlotEnd(slotStart: Instant): Instant {
      slotStart + duration
    }

    function BufferedEnd(slotStart: Instant): Instant {
      EffectiveEnd(SlotEnd(slotStart), bufferAfterMinutes)
    }

    /** The end of the range the batched reads cover. */
    function FetchEnd(finalEnd: Instant): Instant {
      finalEnd + duration + bufferAfterMinutes * MINUTE
    }
  }

  /** Listing reads only the exceptions dated from startDate to the end of the fetch. */
  function ListedCalendar(cal: Calendar, from: Instant, to: Instant): Calendar {
    cal.(exceptions := Filter((x: DayException) => from <= x.date <= to, cal.exceptions))
  }

  /** The verdict for one coach and one slot, from the coach's own conflict query. */
  function CoachVerdict(l: Listing, c: CoachId, startDate: Instant, finalEnd: Instant, slotStart: Instant): Verdict {
    ListedVerdict(l, c, l.profiles(c), startDate, finalEnd, slotStart)
  }

  function ListedVerdict(l: Listing, c: CoachId, p: CoachProfile, startDate: Instant, finalEnd: Instant, slotStart: Instant)
    : Verdict
  {
    Evaluate(GetCoachConflicts(l.db, c, slotStart, l.BufferedEnd(slotStart), l.exclude) != [],
             ListedCalendar(p.calendar, startDate, l.FetchEnd(finalEnd)), p.weeklyOverride, false, p.zone,
             slotStart, l.SlotEnd(slotStart), l.bufferAfterMinutes)
  }

  /** The coaches whose verdict decides: the first one under direct assignment, else any. */
  function Deciding(l: Listing): seq<CoachId> {
    if l.onlyPrimary && l.coaches != [] then l.coaches[..1] else l.coaches
  }

  predicate Accepts(l: Listing, startDate: Instant, finalEnd: Instant, slotStart: Instant) {
    && l.now + LEAD_TIME < slotStart < finalEnd
    && slotStart - l.now >= l.noticeMinutes * MINUTE
    && exists c :: c in Deciding(l) && CoachVerdict(l, c, startDate, finalEnd, slotStart) == Available
  }

  /** The same verdict, from the batched table. */
  function TableVerdict(l: Listing, table: ConflictTable, c: CoachId,
                        startDate: Instant, finalEnd: Instant, slotStart: Instant): Verdict
  {
    var p := l.profiles(c);
    Evaluate(FilterConflictsForSlot(Lookup(table, c), slotStart, l.BufferedEnd(slotStart), None) != [],
             ListedCalendar(p.calendar, startDate, l.FetchEnd(finalEnd)), p.weeklyOverride, false, p.zone,
             slotStart, l.SlotEnd(slotStart), l.bufferAfterMinutes)
  }

  lemma TableAgrees(l: Listing, table: ConflictTable, c: CoachId,
                    startDate: Instant, finalEnd: Instant, slotStart: Instant)
    requires c in l.coaches && TableServes(l, table, slotStart)
    ensures TableVerdict(l, table, c, startDate, finalEnd, slotStart) == CoachVerdict(l, c, startDate, finalEnd, slotStart)
  {
    var conflicts := FilterConflictsForSlot(Lookup(table, c), slotStart, l.BufferedEnd(slotStart), None);
    var fromQuery := GetCoachConflicts(l.db, c, slotStart, l.BufferedEnd(slotStart), l.exclude);
    assert conflicts != [] ==> conflicts[0] in fromQuery;
    assert fromQuery != [] ==> fromQuery[0] in conflicts;
  }

  /** The table answers for this coach and slot what the coach's own query would. */
  ghost predicate TableServes(l: Listing, table: ConflictTable, slotStart: Instant) {
    forall c, x :: c in l.coaches ==>
      (x in FilterConflictsForSlot(Lookup(table, c), slotStart, l.BufferedEnd(slotStart), None)
       <==> x in GetCoachConflicts(l.db, c, slotStart, l.BufferedEnd(slotStart), l.exclude))
  }

  /** Checks one slot against the prefetched table, stopping at the first free coach. */
  method SlotIsAvailable(l: Listing, table: ConflictTable, startDate: Instant, finalEnd: Instant, slotStart: Instant)
    returns (available: bool)
    requires TableServes(l, table, slotStart)
    ensures available == Accepts(l, startDate, finalEnd, slotStart)
  {
    hide CoachVerdict, TableVerdict, TableServes, Evaluate, Lookup, Filter;
    if slotStart <= l.now + LEAD_TIME || slotStart >= finalEnd || slotStart - l.now < l.noticeMinutes * MINUTE {
      return false;
    }
    var deciding := Deciding(l);
    for i := 0 to |deciding|
      invariant forall c :: c in deciding[..i] ==> CoachVerdict(l, c, startDate, finalEnd, slotStart) != Available
    {
      var c := deciding[i];
      var verdict := TableVerdict(l, table, c, startDate, finalEnd, slotStart);
      TableAgrees(l, table, c, startDate, finalEnd, slotStart);
      if verdict == Available {
        return true;
      }
    }
    assert deciding[..|deciding|] == deciding;
    return false;
  }

  /** One batched read covers every slot the walk will visit. */
  method FetchTable(l: Listing, startDate: Instant, finalEnd: Instant) returns (table: ConflictTable)
    ensures forall t :: startDate <= t < finalEnd ==> TableServes(l, table, t)
  {
    var pool := set c | c in l.coaches;
    table := BatchConflicts(l.db, pool, l.exclude, startDate - LOOKBACK, l.FetchEnd(finalEnd));
  }

  ghost predicate StrictlyIncreasing(s: seq<Instant>) {
    forall i, j :: 0 <= i < j < |s| ==> s[i] < s[j]
  }

  ghost function Accepted(l: Listing, startDate: Instant, finalEnd: Instant): iset<Instant> {
    iset t | Accepts(l, startDate, finalEnd, t)
  }

  lemma AcceptedMeans(l: Listing, startDate: Instant, finalEnd: Instant, t: Instant)
    ensures t in Accepted(l, startDate, finalEnd) <==> Accepts(l, startDate, finalEnd, t)
  {
  }

  /** The slots the listing must show below a bound, and no others. */
  ghost predicate ListsExactly(accepted: iset<Instant>, startDate: Instant, finalEnd: Instant, below: Instant,
                               slots: seq<Instant>)
  {
    && StrictlyIncreasing(slots)
    && forall t :: t in slots <==> t % GRID == 0 && startDate <= t < finalEnd && t < below && t in accepted
  }

  lemma ExtendList(accepted: iset<Instant>, startDate: Instant, finalEnd: Instant, below: Instant, slots: seq<Instant>)
    requires ListsExactly(accepted, startDate, finalEnd, below, slots) && below % GRID == 0
    ensures (below + GRID) % GRID == 0
    ensures startDate <= below < finalEnd && below in accepted ==>
      ListsExactly(accepted, startDate, finalEnd, below + GRID, slots + [below])
    ensures !(startDate <= below < finalEnd && below in accepted) ==>
      ListsExactly(accepted, startDate, finalEnd, below + GRID, slots)
  {
    forall t | t % GRID == 0 && t < below + GRID ensures t <= below {
    }
    forall i | 0 <= i < |slots| ensures slots[i] < below {
      assert slots[i] in slots;
    }
  }

  /** Quarter hours tile a day. */
  lemma GridStep(t: int)
    requires t % GRID == 0
    ensures (t + GRID) % GRID == 0 && (t + DAY) % GRID == 0
    ensures t < DAY ==> t + GRID <= DAY
  {
    assert t == t / GRID * GRID && DAY == 96 * GRID;
  }

  lemma DaysAreOnGrid(days: int)
    ensures (86_400_000 * days) % GRID == 0
  {
    assert 86_400_000 * days == 900_000 * (96 * days);
  }

  /** Midnight UTC of the day an instant falls in. */
  function UtcMidnight(t: Instant): (midnight: Instant)
    ensures midnight <= t < midnight + DAY && midnight % GRID == 0
  {
    DaysAreOnGrid(t / DAY);
    t - t % DAY
  }

  /**
   * Walks UTC days from startDate's and quarter hours within each day. The result is, in
   * increasing order and without repeats, exactly the grid instants in [startDate, finalEnd)
   * that the slot check accepts.
   */
  method GetAvailableSlots(l: Listing, startDate: Instant, endDate: Instant, windowEnd: Option<Instant>)
    returns (slots: seq<Instant>)
    ensures var finalEnd := if windowEnd.Some? && windowEnd.value < endDate then windowEnd.value else endDate;
      StrictlyIncreasing(slots) &&
      forall t :: t in slots <==> t % GRID == 0 && startDate <= t < finalEnd && Accepts(l, startDate, finalEnd, t)
  {
    var finalEnd := if windowEnd.Some? && windowEnd.value < endDate then windowEnd.value else endDate;
    ghost var accepted := Accepted(l, startDate, finalEnd);
    var table := FetchTable(l, startDate, finalEnd);
    slots := [];
    var currentStart := UtcMidnight(startDate);
    while currentStart < finalEnd
      invariant currentStart % GRID == 0
      invariant ListsExactly(accepted, startDate, finalEnd, currentStart, slots)
      decreases finalEnd - currentStart
    {
      GridStep(currentStart);
      slots := AppendDay(l, table, accepted, startDate, finalEnd, currentStart, slots);
      currentStart := currentStart + DAY;
    }
    SkipToEnd(accepted, startDate, finalEnd, currentStart, finalEnd, slots);
  }

  /** The inner walk over one UTC day's quarter hours. */
  method AppendDay(l: Listing, table: ConflictTable, ghost accepted: iset<Instant>,
                   startDate: Instant, finalEnd: Instant, dayStart: Instant, listed: seq<Instant>)
    returns (slots: seq<Instant>)
    requires forall t :: startDate <= t < finalEnd ==> TableServes(l, table, t)
    requires accepted == Accepted(l, startDate, finalEnd) && dayStart % GRID == 0
    requires ListsExactly(accepted, startDate, finalEnd, dayStart, listed)
    ensures ListsExactly(accepted, startDate, finalEnd, dayStart + DAY, slots)
  {
    hide Accepted, TableServes, Accepts;
    slots := listed;
    GridStep(dayStart);
    var ms := 0;
    while ms < DAY
      invariant 0 <= ms <= DAY && ms % GRID == 0 && (dayStart + ms) % GRID == 0
      invariant ListsExactly(accepted, startDate, finalEnd, dayStart + ms, slots)
      decreases DAY - ms
    {
      var slotStart := dayStart + ms;
      if slotStart >= finalEnd {
        SkipToEnd(accepted, startDate, finalEnd, slotStart, dayStart + DAY, slots);
        return;
      }
      ExtendList(accepted, startDate, finalEnd, slotStart, slots);
      GridStep(ms);
      if startDate <= slotStart {
        var available := SlotIsAvailable(l, table, startDate, finalEnd, slotStart);
        AcceptedMeans(l, startDate, finalEnd, slotStart);
        if available {
          slots := slots + [slotStart];
        }
      }
      ms := ms + GRID;
    }
  }

  lemma SkipToEnd(accepted: iset<Instant>, startDate: Instant, finalEnd: Instant, below: Instant, below': Instant,
                  slots: seq<Instant>)
    requires ListsExactly(accepted, startDate, finalEnd, below, slots)
    requires finalEnd <= below && finalEnd <= below'
    ensures ListsExactly(accepted, startDate, finalEnd, below', slots)
  {
  }

  // ----- What a listed slot promises -----

  /** The booking path's own check of a coach: no buffer, and exceptions within 48 hours. */
  function BookingVerdict(l: Listing, c: CoachId, p: CoachProfile, slotStart: Instant): Verdict {
    var end := l.SlotEnd(slotStart);
    Evaluate(GetCoachConflicts(l.db, c, slotStart, end, l.exclude) != [],
             p.calendar.(exceptions := ExceptionsRead(p.calendar.exceptions, slotStart, end)),
             p.weeklyOverride, false, p.zone, slotStart, end, 0)
  }

  /** The local date an instant falls on. */
  function DateAt(zone: Zone, t: Instant): int {
    ToLocal(t, zone(t)).date
  }

  /** The listing's read left out none of the profile's exceptions for this date. */
  ghost predicate DateWasRead(l: Listing, p: CoachProfile, startDate: Instant, finalEnd: Instant, date: int) {
    forall x :: x in p.calendar.exceptions && x.date / DAY == date ==> startDate <= x.date <= l.FetchEnd(finalEnd)
  }

  /** Exceptions are stored at midnight UTC of their date. */
  ghost predicate MidnightDated(p: CoachProfile) {
    forall x :: x in p.calendar.exceptions ==> x.date % DAY == 0
  }

  /** A slot shorter than a day, buffer included, with one offset in force over it. */
  ghost predicate PlainSlot(l: Listing, zone: Zone, slotStart: Instant) {
    && 0 < l.duration && l.BufferedEnd(slotStart) < slotStart + DAY
    && (forall t :: -12 * 60 <= zone(t) <= 14 * 60)
    && zone(slotStart) == zone(l.SlotEnd(slotStart)) == zone(l.BufferedEnd(slotStart))
  }

  /**
   * A coach the listing finds free, with its buffer and its batched table, is one the booking
   * path finds free: same rows, no buffer, its own queries.
   */
  lemma ListedSlotIsBookable(l: Listing, c: CoachId, p: CoachProfile, zone: Zone,
                             startDate: Instant, finalEnd: Instant, slotStart: Instant)
    requires PlainSlot(l, zone, slotStart) && p.zone == Some(zone) && MidnightDated(p)
    requires DateWasRead(l, p, startDate, finalEnd, DateAt(zone, slotStart))
    requires DateAt(zone, l.SlotEnd(slotStart)) != DateAt(zone, slotStart) ==>
      DateWasRead(l, p, startDate, finalEnd, DateAt(zone, slotStart) + 1)
    requires ListedVerdict(l, c, p, startDate, finalEnd, slotStart) == Available
    ensures BookingVerdict(l, c, p, slotStart) == Available
  {
    hide GetCoachConflicts, FindException, ToLocal, DateWasRead;
    var end, bufferedEnd := l.SlotEnd(slotStart), l.BufferedEnd(slotStart);
    var listed := ListedCalendar(p.calendar, startDate, l.FetchEnd(finalEnd));
    var blocked, blocked' := GetCoachConflicts(l.db, c, slotStart, end, l.exclude),
                             GetCoachConflicts(l.db, c, slotStart, bufferedEnd, l.exclude);
    if blocked != [] {
      QueryMembers(l.db, c, slotStart, end, l.exclude, blocked[0]);
      QueryMembers(l.db, c, slotStart, bufferedEnd, l.exclude, blocked[0]);
    }
    VerdictIsAntitone(blocked != [], blocked' != [], listed, p.weeklyOverride, zone, slotStart, end, bufferedEnd);
    ListedExceptionsSuffice(l, p, startDate, finalEnd, DateAt(zone, slotStart));
    ListedExceptionsSuffice(l, p, startDate, finalEnd, DateAt(zone, slotStart) + 1);
    VerdictReadsItsDates(blocked != [], p.calendar, listed.exceptions, p.weeklyOverride, false, zone, slotStart, end, 0);
    ExceptionReadLosesNothing(blocked != [], p.calendar, p.weeklyOverride, false, zone, slotStart, end, 0);
  }

  lemma ListedExceptionsSuffice(l: Listing, p: CoachProfile, startDate: Instant, finalEnd: Instant, date: int)
    ensures DateWasRead(l, p, startDate, finalEnd, date) ==>
      FindException(ListedCalendar(p.calendar, startDate, l.FetchEnd(finalEnd)).exceptions, date)
        == FindException(p.calendar.exceptions, date)
  {
    if DateWasRead(l, p, startDate, finalEnd, date) {
      FindSurvivesFilter(p.calendar.exceptions, (x: DayException) => startDate <= x.date <= l.FetchEnd(finalEnd), date);
    }
  }

  /** Midnight UTC of the date is inside the range of exceptions the listing reads. */
  predicate Covers(l: Listing, startDate: Instant, finalEnd: Instant, date: int) {
    startDate <= date * DAY <= l.FetchEnd(finalEnd)
  }

  /** The listing reads the exceptions of every local date the session touches. */
  predicate CoversSession(l: Listing, zone: Zone, startDate: Instant, finalEnd: Instant, slotStart: Instant) {
    && Covers(l, startDate, finalEnd, DateAt(zone, slotStart))
    && (DateAt(zone, l.SlotEnd(slotStart)) != DateAt(zone, slotStart) ==>
          Covers(l, startDate, finalEnd, DateAt(zone, slotStart) + 1))
  }

  /** Always open but for a vacation on one date. */
  function OnVacation(zone: Zone, date: int): CoachProfile {
    CoachProfile(Calendar(AllWeek(), [DayException(date * DAY, true, None, None)]), [], Some(zone))
  }

  lemma OpenWithoutExceptions(zone: Zone, start: Instant, end: Instant, buffer: nat)
    requires start < EffectiveEnd(end, buffer) < start + DAY && zone(start) == zone(EffectiveEnd(end, buffer))
    ensures Evaluate(false, Calendar(AllWeek(), []), [], false, Some(zone), start, end, buffer) == Available
  {
    hide AllWeek, WithinWeekly;
    var effectiveEnd := EffectiveEnd(end, buffer);
    var s, e := ToLocal(start, zone(start)), ToLocal(effectiveEnd, zone(effectiveEnd));
    AllWeekHolds(s, e);
    AllWeekHolds(s, LocalInfo(LAST_MINUTE, s.dayOfWeek, s.date));
    AllWeekHolds(LocalInfo(0, (s.dayOfWeek + 1) % 7, s.date + 1), e);
  }

  /** A vacation the listing did not read, on a date the session touches: listed, then refused. */
  lemma UnreadVacationIsListed(l: Listing, c: CoachId, zone: Zone, startDate: Instant, finalEnd: Instant,
                               slotStart: Instant, date: int)
    requires PlainSlot(l, zone, slotStart)
    requires GetCoachConflicts(l.db, c, slotStart, l.BufferedEnd(slotStart), l.exclude) == []
    requires !Covers(l, startDate, finalEnd, date)
    requires date == DateAt(zone, slotStart)
      || (date == DateAt(zone, slotStart) + 1 && DateAt(zone, l.SlotEnd(slotStart)) != DateAt(zone, slotStart))
    ensures var p := OnVacation(zone, date);
      && p.calendar.Valid() && MidnightDated(p)
      && ListedVerdict(l, c, p, startDate, finalEnd, slotStart) == Available
      && BookingVerdict(l, c, p, slotStart) != Available
  {
    hide Evaluate, GetCoachConflicts, ToLocal, AllWeek, Filter;
    var p := OnVacation(zone, date);
    var end := l.SlotEnd(slotStart);
    OneFiltered((x: DayException) => startDate <= x.date <= l.FetchEnd(finalEnd), p.calendar.exceptions[0]);
    OpenWithoutExceptions(zone, slotStart, end, l.bufferAfterMinutes);
    OneFiltered((x: DayException) => slotStart - 48 * HOUR <= x.date <= end + 48 * HOUR, p.calendar.exceptions[0]);
    VacationIsNear(zone, slotStart, date);
    VacationBlocks(GetCoachConflicts(l.db, c, slotStart, end, l.exclude) != [], zone, slotStart, end, date);
    VacationIsValid(zone, date);
  }

  lemma VacationIsNear(zone: Zone, start: Instant, date: int)
    requires -12 * 60 <= zone(start) <= 14 * 60
    requires DateAt(zone, start) <= date <= DateAt(zone, start) + 1
    ensures start - 48 * HOUR <= date * DAY <= start + 48 * HOUR
  {
    LocalDateIsNear(start, zone(start));
  }

  lemma VacationIsValid(zone: Zone, date: int)
    ensures OnVacation(zone, date).calendar.Valid() && MidnightDated(OnVacation(zone, date))
  {
  }

  lemma OneFiltered<T(!new)>(p: T -> bool, x: T)
    ensures Filter(p, [x]) == if p(x) then [x] else []
  {
  }

  lemma VacationBlocks(hasConflict: bool, zone: Zone, start: Instant, end: Instant, date: int)
    requires date == DateAt(zone, start) || (date == DateAt(zone, start) + 1 && DateAt(zone, end) != DateAt(zone, start))
    ensures Evaluate(hasConflict, OnVacation(zone, date).calendar, [], false, Some(zone), start, end, 0) != Available
  {
    hide ToLocal, AllWeek, WithinWeekly;
    var x := DayException(date * DAY, true, None, None);
    assert FindException([x], date) == Some(x);
  }

  /**
   * Whatever the coach's hours and exceptions, a listed slot is bookable: that holds if and only
   * if a stored row already blocks the coach, so the slot is never listed for them, or the
   * listing reads the exceptions of every local date the session touches.
   */
  lemma ListedIsBookableIff(l: Listing, c: CoachId, zone: Zone, startDate: Instant, finalEnd: Instant, slotStart: Instant)
    requires PlainSlot(l, zone, slotStart)
    ensures (forall p: CoachProfile | p.zone == Some(zone) && p.calendar.Valid() && MidnightDated(p)
               && ListedVerdict(l, c, p, startDate, finalEnd, slotStart) == Available ::
               BookingVerdict(l, c, p, slotStart) == Available)
      <==> GetCoachConflicts(l.db, c, slotStart, l.BufferedEnd(slotStart), l.exclude) != []
           || CoversSession(l, zone, startDate, finalEnd, slotStart)
  {
    hide Evaluate, GetCoachConflicts, ToLocal, DateAt, Covers, BookingVerdict, OnVacation, PlainSlot;
    if GetCoachConflicts(l.db, c, slotStart, l.BufferedEnd(slotStart), l.exclude) != [] {
      forall p: CoachProfile ensures ListedVerdict(l, c, p, startDate, finalEnd, slotStart) != Available {
        ConflictIsNotListed(l, c, p, startDate, finalEnd, slotStart);
      }
    } else if CoversSession(l, zone, startDate, finalEnd, slotStart) {
      forall p: CoachProfile | p.zone == Some(zone) && p.calendar.Valid() && MidnightDated(p)
        && ListedVerdict(l, c, p, startDate, finalEnd, slotStart) == Available
        ensures BookingVerdict(l, c, p, slotStart) == Available
      {
        CoveredDateWasRead(l, p, startDate, finalEnd, DateAt(zone, slotStart));
        CoveredDateWasRead(l, p, startDate, finalEnd, DateAt(zone, slotStart) + 1);
        ListedSlotIsBookable(l, c, p, zone, startDate, finalEnd, slotStart);
      }
    } else {
      var date := DateAt(zone, slotStart)
        + if Covers(l, startDate, finalEnd, DateAt(zone, slotStart)) then 1 else 0;
      UnreadVacationIsListed(l, c, zone, startDate, finalEnd, slotStart, date);
      assert OnVacation(zone, date).zone == Some(zone) by {
        VacationZone(zone, date);
      }
    }
  }

  lemma VacationZone(zone: Zone, date: int)
    ensures OnVacation(zone, date).zone == Some(zone)
  {
  }

  lemma ConflictIsNotListed(l: Listing, c: CoachId, p: CoachProfile, startDate: Instant, finalEnd: Instant, slotStart: Instant)
    ensures GetCoachConflicts(l.db, c, slotStart, l.BufferedEnd(slotStart), l.exclude) != [] ==>
      ListedVerdict(l, c, p, startDate, finalEnd, slotStart) != Available
  {
  }

  lemma CoveredDateWasRead(l: Listing, p: CoachProfile, startDate: Instant, finalEnd: Instant, date: int)
    ensures Covers(l, startDate, finalEnd, date) && MidnightDated(p) ==> DateWasRead(l, p, startDate, finalEnd, date)
  {
  }

  /**
   * The condition does fail in use. Listing from 10:00 misses the vacation stored at that day's
   * midnight, shows the 12:00 slot, and the booking path then refuses it.
   */
  lemma ListingMissesTodaysVacation()
    ensures var zone := FixedZone(0);
      var l := Listing(Database([], [], (e: EventId) => 0), [0], (c: CoachId) => OnVacation(zone, 4),
                       false, HOUR, 0, 0, 0, None);
      var startDate, finalEnd, slotStart := 4 * DAY + 10 * HOUR, 5 * DAY, 4 * DAY + 12 * HOUR;
      && Accepts(l, startDate, finalEnd, slotStart)
      && BookingVerdict(l, 0, l.profiles(0), slotStart) != Available
  {
    hide OnVacation, Evaluate;
    var zone := FixedZone(0);
    var l := Listing(Database([], [], (e: EventId) => 0), [0], (c: CoachId) => OnVacation(zone, 4),
                     false, HOUR, 0, 0, 0, None);
    var startDate, finalEnd, slotStart := 4 * DAY + 10 * HOUR, 5 * DAY, 4 * DAY + 12 * HOUR;
    assert GetCoachConflicts(l.db, 0, slotStart, slotStart + HOUR, None) == [];
    UnreadVacationIsListed(l, 0, zone, startDate, finalEnd, slotStart, 4);
    assert Deciding(l)[0] == 0 && l.profiles(0) == OnVacation(zone, 4);
    assert CoachVerdict(l, 0, startDate, finalEnd, slotStart) == Available;
  }
}
