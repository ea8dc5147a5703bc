# Booking and scheduling: a verified model

This project models the parts of the booking platform in which a mistake double-books somebody, and
proves what they are meant to guarantee. It covers four things.

* **Booking transactions.** Create, reschedule, follow-up and cancel run concurrently against one
  database. Each is a program counter plus row locks; steps of any number of transactions interleave,
  each read sees the rows committed so far (READ COMMITTED), and a failure rolls back. `Database` is
  the same thing as mutable tables updated one step at a time.
* **Choosing a coach.** Least-loaded round robin with a rotating cursor, direct assignment, fixed
  leads, the cyclic co-host scan, and the reuse of a group session's team.
* **Availability.** The verdict on one coach and one session, compared with a minute-by-minute notion
  of "free"; the queries and batched tables behind it; the public slot list, the admin's slot report,
  and the time zone arithmetic under them.
* **The notification sweep.** Any number of workers claim, send, record, crash and are reclaimed from,
  beside immediate sends of the same rows.

Instants are integers in milliseconds since the Unix epoch. Times of day are minutes of the day, and
a time zone is an arbitrary function from instants to offsets. Who is free by calendar is supplied to a
transaction by its environment, so the invariants hold whatever the calendars say. The outcome of a send is one of delivered, transient failure and permanent failure.

The three `...Guarantees` files say the results over again of the stored rows alone, in statuses, fields,
instants and counts, so that they do not lean on the functions the operations compute with.

## How the files fit together

| file | content |
|---|---|
| `Scheduling.dfy` | stored rows, intervals, and the filter and map used by the queries |
| `CoachConflicts.dfy` | which rows block a coach: the per-coach query and the batched tables |
| `Availability.dfy` | the verdict and its minute-by-minute meaning |
| `SlotListing.dfy`, `SlotDebug.dfy` | the public slot list and the trimmed admin report |
| `AvailabilityGuarantees.dfy` | what the verdict, the query, the list and the report mean, row by row |
| `TimeZones.dfy` | wall clock to instant and back, local midnight, the booking window |
| `Assignment.dfy`, `CoachSelection.dfy` | strategies, fairness, co-hosts, the decision tree |
| `BookingProtocol.dfy` | transactions, locks, steps and runs |
| `BookingLocks.dfy` | lock ownership over all interleavings, deadlock freedom |
| `BookingSafety.dfy` | the invariants of the committed bookings |
| `BookingGuarantees.dfy` | what transactions check, write and promise, row by row |
| `BookingProgress.dfy` | every transaction finishes |
| `CrossEventCoaches.dfy` | exactly when two events can book one coach at once |
| `BookingDatabase.dfy` | the tables as a class whose methods keep those invariants |
| `NotificationSweep.dfy` | the sweep as a state machine |
| `NotificationGuarantees.dfy` | what each action does to the rows, transient and permanent failures |
| `NotificationEmails.dfy` | how many emails the sweeps send for one row |
| `SweepRefinement.dfy`, `NotificationTable.dfy` | one whole sweep as a run of that machine; the rows as a class |

## Where the code and its comments disagree

The model follows the code. Each point of difference is a lemma that says exactly when the code does
what is said of it.

* A lookback of 120 minutes is said to cover buffered bookings. The schema does not bound a buffer, and
  the lookback is enough if and only if the buffer is at most 120 minutes (`LookbackSufficesIff`).
* The in-memory conflict filter is said to be the equivalent of the query. For a session in a shared slot
  it also keeps the coach's bookings without a slot: a NOT over a null column is unknown in SQL and drops
  the row. The two agree if and only if there is no such booking (`SharedTableAgreesIff`,
  `UnslottedBookingDivides`), and that is exactly when a listed shared slot meets no conflict when booked
  (`ListedSharedSlotConflictsIff`).
* A grant exception is documented to defer to the weekly hours when the session is not inside it. The code
  refuses the session instead. The verdict is the documented one if and only if no grant stands between a
  stretch of the session and weekly hours that contain it (`VerdictIsAsDocumentedIff`); an evening grant
  closes the morning (`EveningGrantClosesTheMorning`).
* Endpoint comparisons stand in for minute-by-minute freedom. For a session this is exact over every
  calendar with joined windows if and only if it neither starts at 23:59 nor ends at 00:00 local
  (`VerdictIsExactIff`), and for a set of weekly hours it is exact over every other session if and only if
  any two windows that meet or touch lie inside one window (`WeeklyHoursAreExactIff`).
* "Available" is meant to hold all through a session. When the clock changes during a session on one local
  date it does, over every calendar, if and only if the change stays between the readings at the session's
  ends (`SoundAcrossChangeIff`). Going forward it always does; going back, a busy minute can go unnoticed.
* A time inside a spring-forward gap is said to advance to the nearest valid instant, which is the
  transition. The result is the transition if and only if the time asked for is the first of the gap and the
  naive instant is not before the transition (`GapGivesTransitionIff`). Otherwise it moves by the whole gap:
  forward east of UTC (`EasternGapOvershoots`), backward west of it (`WesternGapMovesBack`).
* The local-midnight search is said to serve offsets from -12 h to +14 h. With a constant offset it is right
  if and only if -12 h <= offset < +12 h (`ConstantOffsetExactIff`). Around a change of offset of less than
  11 hours it is right if and only if the offset at noon UTC is in that range and the midnight is not skipped
  (`LocalMidnightIsExactIff`); further east it reads the next date (`FarEastReadsNextDate`).
* The booking window is said to end with a local day. Around a change of offset it does if and only if the
  offset at noon UTC is below +12 h and the midnight is shown once, or is the very minute a gap begins
  (`WindowIsWholeDaysIff`); a midnight shown twice leaves an instant of the next day inside
  (`RepeatedMidnightIsInsideWindow`).
* Cancelling a notification is meant to settle it. A cancelled row stays as it is, in every run, if and only
  if no immediate send of it is under way (`CancelledRowStaysIff`); one that is under way marks the row SENT
  (`CancelledThenSent`).
* The slot report's pre-filter is said to lose nothing it should keep. It loses nothing if and only if
  no quarter hour it considers is 23:59 local (`ZonePreFilterLosslessIff`): for a constant offset, if and
  only if that is not one minute short of a quarter hour (`PreFilterLosslessIff`).
* A listed slot is meant to be bookable. For a coach no stored row blocks, it is, whatever the calendar, if
  and only if the listing reads the exceptions of every local date the session touches
  (`ListedIsBookableIff`). A listing that starts during a day does not (`ListingMissesTodaysVacation`).
* The coach's row is locked to prevent double booking. Across two events of free coach choice it is
  prevented if and only if no coach may serve both (`EventsShareNoCoachIff`), and it takes another booking
  committed between the selection and the commit (`SharedOnlyIfBookedBetween`).

## Model

| member | source | states |
|---|---|---|
| BookingSafety.EveryRunIsSafe | backend/src/domain/bookings/booking.service.ts:170-1013 | After any run of any number of interleaved create, reschedule, follow-up and cancel transactions, aborted at any point, from bookings in order: no student has two overlapping active bookings, no coach of a single-participant COACH_AVAILABILITY event is on two overlapping ones of that event, no fixed slot is over capacity, and all participants of a group session have the same co-coaches and, where promised, the same coach. In order means these four, and that the bookings of anonymous events, and of single-coach events in slots with an assigned coach, have the team the settings name |
| BookingGuarantees.StudentIsInOnePlace | backend/src/domain/bookings/booking.shared.ts:276-299 | After every run, two PENDING or CONFIRMED bookings of one student that share an instant are one booking |
| BookingGuarantees.CoachIsInOnePlace | backend/src/domain/bookings/bookingAssignmentResolver.service.ts:405-713 | After every run, so are two of one single-participant COACH_AVAILABILITY event that share an instant and a coach, as lead or co-host |
| BookingGuarantees.OneSeat | backend/src/domain/scheduling/eventRules.ts:29-53 | After every run, a fixed slot of an event without several participants holds one booking that is not cancelled |
| BookingGuarantees.SeatsSuffice | backend/src/domain/scheduling/eventRules.ts:29-59 | After every run, no set of bookings, not cancelled, in a fixed slot of an event with several participants is larger than the slot's capacity, or without one than the event's maximum |
| BookingGuarantees.ParticipantsMeetOneTeam | backend/src/domain/bookings/bookingAssignmentResolver.service.ts:619-654 | After every run, two participants of one group session have the same co-coaches, and the same coach when the slot has none assigned or the leadership is SINGLE_COACH |
| BookingGuarantees.SlotCoachLeads | backend/src/domain/bookings/bookingAssignmentResolver.service.ts:612-676 | After every run, each booking of a single-coach event in a slot with an assigned coach is led by that coach alone, and an anonymous event's bookings name nobody |
| BookingGuarantees.CapacityRefusesIff | backend/src/domain/bookings/booking.service.ts:327-331 | The capacity step refuses if and only if the event has fixed slots and the bookings there that are not cancelled already take every seat |
| BookingGuarantees.OverlapRefusesIff | backend/src/domain/bookings/booking.shared.ts:276-299 | The overlap step refuses if and only if the student has another PENDING or CONFIRMED booking that overlaps |
| BookingGuarantees.OfferedIff | backend/src/domain/availability/availabilityConflict.service.ts:13-85 | A coach is offered if and only if the calendar allows it and, outside fixed slots, no other PENDING or CONFIRMED booking of theirs runs into the session with its buffer |
| BookingGuarantees.CancelAllowedIff | backend/src/domain/scheduling/bookingRules.ts:28-46 | A cancellation goes ahead if and only if the booking exists and, by token, is PENDING or CONFIRMED and has not started |
| BookingGuarantees.OtherStepsRefuseIff | backend/src/domain/bookings/booking.service.ts:170-206 | No other step refuses, but selection for its own reasons, a follow-up that nobody leads, and a write of a missing booking |
| BookingGuarantees.FirstLockIs | backend/src/domain/bookings/booking.service.ts:183-187 | The session is locked by its slot's row where there is one, so that other slots of the event need not wait, and by its event's row otherwise |
| BookingGuarantees.CommitsHoldingAll | backend/src/domain/bookings/booking.service.ts:183-205 | A booking commits holding its session, its rotation row if it moves it, its coach, its student and, when moved, itself |
| BookingGuarantees.FailureLeavesNoTrace | backend/src/domain/bookings/booking.service.ts:384-398 | A failed or aborted transaction changes no row and no cursor, gives up its locks and leaves everybody else's |
| BookingGuarantees.CommitCreates | backend/src/domain/bookings/booking.service.ts:346-379 | A committed create or follow-up has added the confirmed booking asked for, field by field, and left every other row |
| BookingGuarantees.CommitMoves | backend/src/domain/bookings/booking.service.ts:594-603 | A committed reschedule has moved and confirmed the booking with its new team, kept its event and student, and left every other row |
| BookingGuarantees.CommitCancels | backend/src/domain/bookings/booking.service.ts:718-724 | A committed cancellation has made the booking CANCELLED, kept its other fields, and left every other row |
| BookingGuarantees.CommitEnds | backend/src/domain/bookings/booking.service.ts:294-379 | A commit ends its own transaction, gives up its own locks alone, and puts on file the student of a new booking alone |
| BookingGuarantees.CancellationFreesForGood | backend/src/domain/bookings/booking.service.ts:693-742 | In every run after it, until something touches the booking again, a cancelled booking stays cancelled and student, coach and capacity checks answer as if it were not there |
| BookingGuarantees.UntouchedStays | backend/src/domain/bookings/booking.service.ts:294-379 | No run changes a booking that no commit of its own transaction and no edit touches |
| BookingGuarantees.CommitMovesCursor | backend/src/domain/bookings/assignment.service.ts:112-134 | Only a commit moves an event's rotation cursor, to what its selection returned; an event that has not rotated starts at 1 |
| BookingGuarantees.EachBookingCountsOnce | backend/src/domain/bookings/assignment.service.ts:173-182 | A booking adds exactly one to the load of the coach who leads it, in its team, unless it is cancelled, and nothing to anybody else's |
| BookingGuarantees.SelectionSeesTotals | backend/src/domain/bookings/assignment.service.ts:168-197 | The load selection sees is those bookings plus the team's slot assignments, and the cursor is the stored one |
| BookingSafety.NoRunDeadlocks | backend/src/domain/bookings/booking.service.ts:183-205 | After any run with an unfinished transaction, some transaction has an allowed step: locks are never waited for in a circle |
| BookingProgress.StepsAreBounded | backend/src/domain/bookings/booking.service.ts:294-379 | In every run, however interleaved, no transaction takes more than twelve steps |
| BookingProgress.EveryRunCanFinish | backend/src/domain/bookings/booking.service.ts:183-205 | After any run, some continuation made of the transactions' own steps alone finishes every one of them, with the bookings still in order |
| BookingSafety.ActionKeepsInvariant | backend/src/domain/bookings/booking.service.ts:294-379 | Begin, any step, abort and a non-reactivating status edit each keep the whole invariant, including what every other transaction in progress has already checked |
| BookingSafety.WriteIsSafe | backend/src/domain/bookings/booking.service.ts:327-379 | Writing the row a transaction has checked breaks none of the four properties |
| BookingSafety.WriteKeepsOthersChecks | backend/src/domain/bookings/booking.repository.ts:47-67 | A commit invalidates no check another transaction has passed: whoever could be affected holds the same session or student lock, and two transactions never do |
| BookingSafety.CommitKeepsInvariant | backend/src/domain/bookings/booking.service.ts:558-628 | Committing a create, a reschedule (onto its own time included), a follow-up or a cancellation keeps the bookings safe and every check standing |
| BookingSafety.WeakenedIsSafe | backend/src/domain/bookings/booking.service.ts:498-523 | Status changes that reactivate nothing, such as cancelling, cannot break the four properties |
| BookingSafety.SelectionIsFree | backend/src/domain/bookings/bookingAssignmentResolver.service.ts:605-713 | Whichever branch of the decision tree chose the team of a single-participant COACH_AVAILABILITY event, none of its members is on an overlapping active booking, of any event, at that moment |
| BookingSafety.SelectionIsGroups | backend/src/domain/bookings/bookingAssignmentResolver.service.ts:619-676 | When a group session already exists and its slot has no assigned coach or a single leader, the chosen team is the one on every booking of that group |
| BookingSafety.StepChecks | backend/src/domain/bookings/booking.shared.ts:276-299 | A transaction that passes its selection, capacity or student-overlap step has really established that property of the rows committed at that moment |
| BookingSafety.WrittenGroup | backend/src/domain/bookings/booking.repository.ts:69-81 | Writing one row raises the participant count of no group but its own, and that by at most one, moved rows included |
| BookingLocks.ActionKeepsConsistent | backend/src/domain/bookings/booking.repository.ts:47-67 | In every interleaving the lock table holds exactly the rows each transaction's program counter says it has locked |
| BookingLocks.LocksAreTakenInClassOrder | backend/src/domain/bookings/booking.service.ts:183-205 | A transaction asks for a row only while every other row it holds is of an earlier class: slot or event, routing state, coach, student, booking |
| BookingLocks.SomeoneCanStep | backend/src/domain/bookings/booking.service.ts:183-205 | Following who waits for whom from any unfinished transaction ends at one that can step |
| BookingLocks.NextHolds | backend/src/domain/bookings/assignment.service.ts:123-134 | A step that does not end its transaction adds exactly the lock it asked for, and drops none |
| BookingLocks.StepKeepsConsistent | backend/src/domain/bookings/booking.service.ts:294-379 | One step of one transaction keeps lock ownership, program counters and the targets of all others consistent |
| BookingDatabase.Database.Advance | backend/src/domain/bookings/booking.service.ts:294-379 | One step on the mutable tables either waits, changing nothing, exactly when the row it needs is locked by another, or has the effect of the transaction's next step, with the session, the conflicts, the coach loads and the rotation cursor read from the tables as they are; the bookings stay safe either way |
| BookingDatabase.Database.BeginTransaction | backend/src/domain/bookings/booking.service.ts:294-320 | A transaction begins holding nothing, with the tables otherwise unchanged and still safe |
| BookingDatabase.Database.RollbackTransaction | backend/src/domain/bookings/booking.service.ts:384-398 | A failed transaction leaves no trace in the tables and no lock |
| BookingDatabase.Database.WriteBooking | backend/src/domain/bookings/booking.service.ts:594-603 | Inserts the checked row, or updates times, coaches, slot and status of the stored one, and touches no other row |
| BookingDatabase.Database.CommitTransaction | backend/src/domain/bookings/booking.service.ts:346-379 | The new row, the student on file, the rotation cursor and the released locks become visible together |
| BookingDatabase.Database.LockRow | backend/src/domain/bookings/booking.repository.ts:47-67 | A row lock is granted if and only if nobody else holds it, and then only that row changes hands |
| BookingDatabase.Database.FindSession | backend/src/domain/bookings/bookingAssignmentResolver.service.ts:621-632 | Finds the team of some non-cancelled booking of the event and start, or says that there is none |
| BookingDatabase.Database.SelectFor | backend/src/domain/bookings/booking.service.ts:189-199 | Resolves the team from the counts, cursor and conflicts in the tables as they are, with the refusals of the decision tree |
| CrossEventCoaches.EventsShareNoCoachIff | backend/src/domain/bookings/booking.repository.ts:57-60 | Two single-participant COACH_AVAILABILITY events keep their coaches off overlapping active bookings of both, in every run from an empty database, if and only if no coach may serve both under their pools, leads and co-host targets |
| CrossEventCoaches.DoubleBooking | backend/src/domain/bookings/booking.service.ts:183-205 | For any coach who may serve both events there is an allowed interleaving, each selecting before the other commits, that books the coach twice for the same hour |
| CrossEventCoaches.DisjointPoolsShareNoCoach | backend/src/domain/bookings/booking.service.ts:183-205 | Events whose pools have no coach in common never share one, in any run |
| CrossEventCoaches.OnlyThoseWhoMayServe | backend/src/domain/bookings/bookingAssignmentResolver.service.ts:405-713 | Whatever is read, a selected team holds only coaches the event's settings let serve |
| CrossEventCoaches.OneWhoMayServeDoes | backend/src/domain/bookings/bookingAssignmentResolver.service.ts:405-713 | Conversely, each such coach is on the team when only they and the lead the settings pin are free |
| CrossEventCoaches.RunKeepsTeams | backend/src/domain/bookings/booking.service.ts:170-1013 | In every run the coaches of each such event's bookings, and of its transactions past selection, are ones its settings let serve |
| CrossEventCoaches.SharedOnlyIfBookedBetween | backend/src/domain/bookings/booking.service.ts:183-205 | From any reachable state: if a member of a selected team is on an overlapping active booking of any event before the transaction ends, another transaction has committed a booking since the selection |
| CoachSelection.ChosenTeamIsAvailable | backend/src/domain/bookings/bookingAssignmentResolver.service.ts:405-713 | In every branch that is not anonymous, reused or fixed by the slot, the chosen team has a lead, all its members are in the pool and available, and nobody is on it twice |
| CoachSelection.SelectedIffSomeoneMayLead | backend/src/domain/bookings/bookingAssignmentResolver.service.ts:405-713 | A session with no team yet is refused if and only if no available coach of the pool may lead it under its leadership, strategy, fixed lead and requested coach; the requested coach leads whenever they may, and the rotation then does not move |
| CoachSelection.RefusalIsHonest | backend/src/domain/bookings/bookingAssignmentResolver.service.ts:405-491 | Each refusal gives its true reason: empty pool, nobody free, coach not in the pool, coach not available, lead not set |
| CoachSelection.SettledTeams | backend/src/domain/bookings/bookingAssignmentResolver.service.ts:619-676 | A session already held keeps its co-hosts and its lead, but for a fixed slot's assigned coach, who leads; a new single-coach session in a slot is led by that coach alone; neither moves the rotation |
| CoachSelection.ResolveTeam | backend/src/domain/bookings/bookingAssignmentResolver.service.ts:605-713 | Walking the branches, with the counting, search and scan loops run only where they are needed, gives the selection of the decision tree, team, cursor and refusal alike |
| CoachSelection.ResolveCoHosts | backend/src/domain/bookings/bookingAssignmentResolver.service.ts:493-585 | The modular loop returns exactly the first target-many available non-lead coaches in cyclic order from the cursor, and leaves the cursor just past the last of them |
| CoachSelection.CoHostScanIsComplete | backend/src/domain/bookings/bookingAssignmentResolver.service.ts:532-573 | No co-host appears twice, never the lead, never one too many, and a list shorter than the target means every other coach is unavailable |
| CoachSelection.CoHostsComeFirst | backend/src/domain/bookings/bookingAssignmentResolver.service.ts:511-570 | The chosen co-hosts are in rotation order from the cursor, and every other coach who could have co-hosted comes after all of them |
| CoachSelection.CursorIsPastLastCoHost | backend/src/domain/bookings/bookingAssignmentResolver.service.ts:566-572 | The cursor is written if and only if somebody was chosen, and the next search starts just past the last of them |
| CoachSelection.CoHostsFollowLead | backend/src/domain/bookings/bookingAssignmentResolver.service.ts:680-713 | Co-hosts are searched for from where the lead's round robin left the cursor, or from the stored one when the lead is pinned |
| CoachSelection.StrategyLeadIsAvailable | backend/src/domain/bookings/bookingAssignmentResolver.service.ts:358-403 | The lead either strategy picks is an available member of the pool |
| CoachSelection.SortedPoolAscends | backend/src/domain/bookings/bookingAssignmentResolver.service.ts:511-512 | The scan walks all of the pool in strictly ascending coachOrder |
| CoachSelection.EnoughFound | backend/src/domain/bookings/bookingAssignmentResolver.service.ts:539-540 | Stopping the scan as soon as the target is reached gives what scanning the rest would have given |
| Assignment.ResolveRoundRobin | backend/src/domain/bookings/assignment.service.ts:161-226 | The counting loop and the search loop compute the round-robin choice over bookings plus slot assignments, with its two refusals |
| Assignment.RoundRobinIsLeast | backend/src/domain/bookings/assignment.service.ts:199-226 | The assigned coach is available and has the fewest sessions, first in the rotation from the cursor among equals; nobody is assigned if and only if nobody is available |
| Assignment.RoundRobinMovesOn | backend/src/domain/bookings/assignment.service.ts:123-134 | From the cursor it returns, the next search starts at the coach after the assigned one, wrapping after the last |
| Assignment.PickIsUniqueMinimum | backend/src/domain/bookings/assignment.service.ts:199-221 | With distinct positive orders the pick is the one available coach with the smallest (load, rotation key); there is none if and only if nobody is available |
| Assignment.TotalIsSum | backend/src/domain/bookings/assignment.service.ts:193-197 | A coach's load is its bookings plus all of its slot assignments, and unassigned slots count for nobody |
| Assignment.SpreadNeverGrows | backend/src/domain/bookings/assignment.service.ts:201-212 | Over any number of assignments with everyone available, the gap between the most and the least loaded coach never exceeds the larger of 1 and the initial gap |
| Assignment.RotationVisitsEveryone | backend/src/domain/bookings/assignment.service.ts:123-134 | From equal loads, n successive assignments take n different coaches in cyclic order from the cursor, so as many assignments as coaches visit each once |
| Assignment.CursorAdvances | backend/src/domain/bookings/assignment.service.ts:128-133 | After a coach is assigned, the search from the new cursor starts at the next coach, wrapping after the last, whatever gaps the orders have |
| Assignment.Ranking.SortOrders | backend/src/domain/bookings/assignment.service.ts:203-212 | Sorting keeps every candidate and leaves none before one that ranks ahead of it |
| Assignment.RankingIsTotal | backend/src/domain/bookings/assignment.service.ts:203-212 | Distinct orders give distinct rotation keys, so of two coaches exactly one ranks first |
| CoachConflicts.QueryIsExact | backend/src/domain/availability/availabilityConflict.service.ts:13-85 | With buffers of at most 120 minutes the prefiltered query returns exactly the bookings and slot assignments of the coach whose buffered session meets the one asked about |
| CoachConflicts.LookbackSufficesIff | backend/src/domain/availability/availabilityConflict.service.ts:30-35 | The fixed lookback misses no row of an event, over all sessions, if and only if its buffer is at most 120 minutes |
| CoachConflicts.QueryMembers | backend/src/domain/availability/availabilityConflict.service.ts:36-84 | For any buffers, membership of the query's result: the row keeps the coach busy, is inside the lookback range, and its buffered session meets the session |
| AvailabilityGuarantees.QueryFindsIff | backend/src/domain/availability/availabilityConflict.service.ts:13-85 | The query finds something if and only if a PENDING or CONFIRMED booking the coach leads or co-hosts, or an active assigned slot that is not cancelled, meets the session with its own buffer and ends less than two hours before it |
| CoachConflicts.BatchConflicts | backend/src/domain/bookings/bookingAssignmentResolver.service.ts:64-214 | One batched fetch answers for every coach of the pool and every session inside its range exactly what that coach's own query answers |
| CoachConflicts.SharedTableAgreesIff | backend/src/domain/scheduling/conflictRules.ts:14-52 | For a session in a shared slot the table keeps, beyond what the per-coach query returns, exactly the coach's conflicting bookings without a slot; the two agree if and only if there are none |
| CoachConflicts.SlotQueryMembers | backend/src/domain/availability/availability.shared.ts:114-136 | The shared-slot query returns exactly the coach's conflicting rows known to belong to another slot |
| CoachConflicts.UnslottedBookingDivides | backend/src/domain/scheduling/conflictRules.ts:14-52 | One confirmed booking without a slot, at the hour of a shared slot: every such table keeps it, the query returns nothing |
| CoachConflicts.ListedSharedSlotConflictsIff | backend/src/domain/availability/availability.service.ts:285-352 | A coach the listing of a shared slot finds no conflict for, buffer included, has one on the booking path if and only if one of the coach's bookings without a slot meets the session |
| CoachConflicts.BuildConflictTable | backend/src/domain/availability/availability.service.ts:213-241 | The distribution loops give each coach the rows it leads, co-hosts or is assigned to, and no others |
| CoachConflicts.DistributeBooking | backend/src/domain/availability/availability.service.ts:213-226 | A booking reaches its lead and each of its co-hosts in the pool, and nobody else |
| CoachConflicts.FetchMembers | backend/src/domain/availability/availability.service.ts:205-211 | The fetch for many coaches keeps, for each of them, all of its blocking rows that reach into the range |
| Availability.AvailableIsSound | backend/src/domain/availability/coachAvailability.service.ts:139-278 | "Available" means no conflict and every local minute of the buffered session free under exceptions, then weekly hours, across midnight too, where only day 1's 23:59 is not vouched for |
| AvailabilityGuarantees.AvailableMeans | backend/src/domain/availability/coachAvailability.service.ts:139-278 | "Available" for [start, end) with buffer b means no conflict and freedom at every claimed minute from start's reading to end's reading plus b, by the event's own weekly hours where it has any |
| AvailabilityGuarantees.AvailableMeansExactly | backend/src/domain/availability/coachAvailability.service.ts:139-278 | With joined windows and clear of the two midnight edges, it means exactly that |
| AvailabilityGuarantees.ReasonsInOrder | backend/src/domain/availability/coachAvailability.service.ts:204-246 | A conflict is the reason if and only if there is one, an unreadable zone if and only if there is none and the zone cannot be read |
| AvailabilityGuarantees.IgnoringWeekly | backend/src/domain/availability/coachAvailability.service.ts:248-272 | Ignoring weekly hours, a session across local midnight is always available, and one within a date unless its exception forbids it |
| AvailabilityGuarantees.FieldsCountUp | backend/src/domain/availability/availability.shared.ts:163-204 | Local minute, weekday and date count up together, minute by minute, from Thursday 1 January 1970 |
| AvailabilityGuarantees.FirstOnDate | backend/src/domain/availability/availability.shared.ts:206-213 | The exception found for a date is the first one stored within that UTC day, if there is one |
| Availability.ReadingsAreVouchedFor | backend/src/domain/availability/coachAvailability.service.ts:139-278 | Whatever the offsets at the two ends, "available" vouches for the local minutes between the two readings |
| Availability.AvailableIsSoundAcrossChange | backend/src/domain/availability/coachAvailability.service.ts:225-258 | When the offset changes inside the session and the change stays between the readings at its ends, "available" still means free at every minute the clock shows |
| Availability.SoundAcrossChangeIff | backend/src/domain/availability/coachAvailability.service.ts:225-258 | For each session on one local date with a change of offset inside: "available" means free all along, over every valid calendar, if and only if the change stays between the readings at its ends |
| Availability.UnclaimedMinuteGoesUnnoticed | backend/src/domain/availability/coachAvailability.service.ts:225-258 | Any minute the clock shows during such a session, outside the readings at its ends, can be the coach's one busy minute and the session still be available |
| Availability.AvailableIffFree | backend/src/domain/availability/coachAvailability.service.ts:37-86 | With weekly windows joined wherever they meet or touch, and clear of the two midnight edges, the verdict is "available" if and only if there is no conflict and every such minute is free |
| Availability.VerdictIsExactIff | backend/src/domain/availability/coachAvailability.service.ts:37-86 | For each session: the verdict is exactly minute-by-minute freedom, over every valid calendar with joined windows, if and only if the session neither starts at 23:59 nor ends at 00:00 local |
| Availability.WeeklyHoursAreExactIff | backend/src/domain/availability/availability.shared.ts:266-290 | For each set of weekly hours: the verdict is exact over every session clear of those edges if and only if any two windows that meet or touch lie inside one; adjacent windows do refuse a session that spans them |
| Availability.CoverageIsContainmentIffJoined | backend/src/domain/availability/availability.shared.ts:278-290 | Being inside some window at every minute means being inside one window, for all stretches, if and only if the windows are joined |
| Availability.EdgeRefusesFreeCoach | backend/src/domain/availability/coachAvailability.service.ts:37-86 | For every session at either edge there is a calendar, free at every minute the session claims, that is refused |
| Availability.EndingAtMidnightIsRefused | backend/src/domain/availability/coachAvailability.service.ts:248-256 | One such case: a Monday session from 23:00 to midnight, inside Monday's hours, is refused |
| Availability.VerdictIsAntitone | backend/src/domain/availability/coachAvailability.service.ts:248-277 | Available up to a later end implies available up to any earlier one, also when the later end crosses local midnight and the earlier does not |
| Availability.DaySound | backend/src/domain/availability/availability.shared.ts:234-290 | The endpoint comparisons of one day imply freedom at each of its minutes |
| Availability.DayComplete | backend/src/domain/availability/availability.shared.ts:234-290 | Conversely, freedom at each minute implies the endpoint comparisons accept |
| Availability.VerdictIsAsDocumentedIff | backend/src/domain/availability/availability.shared.ts:222-272 | An available coach is always one the documented grant rule allows; a coach that rule allows is available if and only if no stretch of the session lies outside a grant of its day and inside weekly hours |
| Availability.EveningGrantClosesTheMorning | backend/src/domain/availability/availability.shared.ts:255-260 | A grant for the evening makes the verdict refuse a morning session within weekly hours, which the documented rule allows |
| Availability.OneWindowCovers | backend/src/domain/availability/availability.shared.ts:278-290 | Minutes that are each inside some weekly window are together inside one window, when windows are joined |
| Availability.ExceptionReadLosesNothing | backend/src/domain/availability/coachAvailability.service.ts:189-198 | Reading exceptions only 48 hours either side of the session gives the verdict of reading them all, for any offsets from -12 h to +14 h |
| Availability.VerdictReadsItsDates | backend/src/domain/availability/coachAvailability.service.ts:37-86 | The verdict depends on no exception but those of the local start date and, for a session that ends on another date, of the day after |
| Availability.FindSurvivesFilter | backend/src/domain/availability/availability.shared.ts:206-220 | A range read that keeps all of a date's exceptions does not change which one is found for it |
| SlotListing.GetAvailableSlots | backend/src/domain/availability/availability.service.ts:438-460 | The nested loops end and list, strictly increasing, exactly the 15-minute UTC instants in [startDate, finalEnd) that the slot check accepts |
| SlotListing.SlotIsAvailable | backend/src/domain/availability/availability.service.ts:245-370 | Checking a slot against the prefetched table gives the answer of checking every deciding coach with a query of its own |
| AvailabilityGuarantees.ShownIff | backend/src/domain/availability/availability.service.ts:245-352 | A slot is shown if and only if it starts more than two minutes from now, inside the range and with the notice, and the first coach, under direct assignment, or some coach is free |
| AvailabilityGuarantees.ShownCoachIsFree | backend/src/domain/availability/availability.service.ts:274-352 | A coach shown as free has no row that meets the slot and the event's buffer after it, and is free at every claimed minute of it |
| AvailabilityGuarantees.RefusedForConflictIff | backend/src/domain/availability/availability.service.ts:274-352 | A coach is refused a listed slot for a conflict if and only if a row meets the slot and the event's buffer after it |
| AvailabilityGuarantees.BookingIgnoresBuffer | backend/src/domain/bookings/bookingAssignmentResolver.service.ts:216-231 | The booking path's verdict does not depend on the event's own buffer |
| SlotListing.FetchTable | backend/src/domain/availability/availability.service.ts:173-241 | One prefetch serves every slot that starts in the listed range, also those that end after it |
| SlotListing.AppendDay | backend/src/domain/availability/availability.service.ts:443-456 | The inner loop extends an exact list up to a day's midnight to an exact list up to the next |
| SlotListing.ListedSlotIsBookable | backend/src/domain/bookings/bookingAssignmentResolver.service.ts:258-303 | A coach the listing finds free, with buffer and batched reads, is one the booking path finds free with its own, provided the listing left out none of the coach's exceptions for the local dates the session touches |
| SlotListing.ListedIsBookableIff | backend/src/domain/availability/availability.service.ts:173-187 | For each slot and zone: every calendar that lists the slot for the coach books it, if and only if a stored row blocks the coach anyway or the listing's range holds the midnight of the slot's local start date and, when the session ends on the next date, of that one |
| SlotListing.ListingMissesTodaysVacation | backend/src/domain/availability/availability.service.ts:183-187 | The condition fails in use: a listing from 10:00 shows a slot that day's vacation makes the booking path refuse |
| SlotDebug.SlotReport | backend/src/domain/availability/availabilityDebug.service.ts:480-513 | The loop returns exactly the intervals neither trim drops; the visible ones, in order, are those of the untrimmed report, and whatever was dropped had no available coach |
| AvailabilityGuarantees.VisibleIffShown | backend/src/domain/availability/availabilityDebug.service.ts:407-452 | Over a day, the report marks visible exactly the slots the public list of that day shows, inside the booking window |
| AvailabilityGuarantees.InWindowIff | backend/src/domain/availability/availabilityDebug.service.ts:272-314 | The pre-filter keeps a coach if and only if the start date's exception grants the session or, saying nothing of it, a window in use holds the session, or its start when it ends on another date |
| AvailabilityGuarantees.KeptIff | backend/src/domain/availability/availabilityDebug.service.ts:480-513 | The report keeps an interval if and only if some coach's window has it and not every coach is outside hours |
| AvailabilityGuarantees.BlocksInOrder | backend/src/domain/availability/availabilityDebug.service.ts:375-404 | An event-level block names the first that holds of too soon, past the window, short notice |
| SlotDebug.DroppedSlotIsInvisible | backend/src/domain/availability/availabilityDebug.service.ts:272-314 | In zones where no quarter hour is 23:59 local, an interval outside every coach's window has no coach the evaluation finds available, even across midnight, where the filter compares a wrapped end |
| SlotDebug.PreFilterKeepsAvailable | backend/src/domain/availability/availabilityDebug.service.ts:283-310 | For any session that starts before 23:59 local, the filter keeps every coach whose verdict is "available" |
| SlotDebug.ZonePreFilterLosslessIff | backend/src/domain/availability/availabilityDebug.service.ts:272-314 | For each zone: over every valid calendar and every quarter-hour start, the filter keeps the available coaches if and only if no such start is 23:59 local |
| SlotDebug.PreFilterLosslessIff | backend/src/domain/availability/availabilityDebug.service.ts:272-314 | For each offset: over every valid calendar and every quarter-hour start, the filter keeps the available coaches if and only if the offset is not one minute short of a quarter hour |
| SlotDebug.OutsideHoursIsInvisible | backend/src/domain/availability/availabilityDebug.service.ts:500-507 | The post-filter drops only intervals with no available coach |
| TimeZones.WallClockRoundTripIff | frontend/src/utils/dateTimezone.ts:13-80 | Around any one transition, a wall-clock minute converted to an instant and back is itself if and only if it is not in a spring-forward gap |
| TimeZones.InstantRoundTripIff | frontend/src/utils/dateTimezone.ts:13-80 | An aligned instant converted to wall clock and back is itself if and only if its reading is unambiguous or its naive reading falls on the same side of the transition |
| TimeZones.GapDirection | frontend/src/utils/dateTimezone.ts:32-80 | Inside a gap the result reads later by the gap's width when the naive instant is past the transition, as it always is east of UTC, and earlier by as much otherwise, as it always is west of it |
| TimeZones.GapGivesTransitionIff | frontend/src/utils/dateTimezone.ts:37-80 | Inside a gap the result is the nearest valid instant, the transition, if and only if the time asked for is the first of the gap and the naive instant is not before the transition |
| TimeZones.EasternGapOvershoots | frontend/src/utils/dateTimezone.ts:37-80 | East of UTC, 02:30 in a gap from 02:00 to 03:00 becomes 03:30 |
| TimeZones.WesternGapMovesBack | frontend/src/utils/dateTimezone.ts:37-80 | West of UTC, 02:30 in such a gap becomes 01:30 |
| TimeZones.TwoPasses | frontend/src/utils/dateTimezone.ts:43-80 | Two passes converge on the offset in force at the first guess, whichever side of the transition each pass lands on |
| TimeZones.StartOfDayInTimezone | frontend/src/utils/dateTimezone.ts:93-124 | The updates in place compute the instant the exactness lemmas are about |
| TimeZones.LocalMidnightIsExactIff | frontend/src/utils/dateTimezone.ts:93-124 | Around any one transition of less than 11 hours, the result reads 00:00:00 of the date if and only if the offset at noon UTC is in [-12 h, +12 h) and that midnight is not skipped |
| TimeZones.PassesLandOn | frontend/src/utils/dateTimezone.ts:109-121 | For any offset function the two passes return midnight of the date it is at noon UTC by the second offset, moved by a whole number of days that is zero if and only if the offsets are no further apart than the hour test can tell |
| TimeZones.LargeShiftIsExactIff | frontend/src/utils/dateTimezone.ts:93-124 | Transitions of any size, with that offset at noon: the result reads 00:00:00 of the date if and only if the midnight is not skipped and the hour test can tell the change |
| TimeZones.FarEastReadsNextDate | frontend/src/utils/dateTimezone.ts:106-110 | With +13 h going to +12 h at 02:00 UTC of the date, where no midnight is skipped, the result reads the next date |
| TimeZones.ConstantOffsetExactIff | frontend/src/utils/dateTimezone.ts:104-110 | With one offset, the result reads 00:00:00 of the date if and only if -12 h <= offset < +12 h |
| TimeZones.EndOfBookingWindow | backend/src/domain/availability/availability.service.ts:31-77 | The window ends 1 ms before local midnight of today + N + 1, or of that UTC day when the zone cannot be read |
| TimeZones.WindowIsWholeDaysIff | backend/src/domain/availability/availability.service.ts:31-77 | Around any one transition, an instant is inside the window exactly when its local date is not past the last day, for all instants, if and only if the offset at noon UTC is below +12 h and the closing midnight is shown once or is the very minute a gap begins |
| TimeZones.RepeatedMidnightIsInsideWindow | backend/src/domain/availability/availability.service.ts:31-77 | Where the closing midnight is shown twice, an instant after its first showing is still inside the window |
| TimeZones.ConstantWindowIsWholeDaysIff | backend/src/domain/availability/availability.service.ts:31-77 | With one offset the window is a whole number of local days if and only if -12 h <= offset < +12 h |
| NotificationSweep.EveryRunKeepsLease | notification-service/src/services/notificationRepository.ts:119-155 | In every run of any number of sweeps, a row has at most one live holder, and every email the sweep sent was for a row in SENDING at that moment, never a cancelled one |
| NotificationSweep.ActionKeepsLease | notification-service/src/services/notificationRepository.ts:114-155 | Claims, sends, results, crashes, lost results, reclaims, cancellations, re-deliveries and immediate sends each keep one live holder per row, whose row is as its claim left it |
| NotificationGuarantees.RecordDoes | notification-service/src/services/notificationService.ts:66-112 | A delivered email leaves its row SENT, a permanent failure FAILED, a transient one RETRYING after B times its number if and only if retries stay below MAX and FAILED otherwise; no other row changes |
| NotificationGuarantees.RecordNowDoes | notification-service/src/services/notificationService.ts:66-112 | An immediate send's result is final either way |
| NotificationGuarantees.ClaimDoes | notification-service/src/services/notificationRepository.ts:119-137 | Rows may be claimed if and only if they are SCHEDULED or RETRYING and due; exactly those claimed become SENDING |
| NotificationGuarantees.ReclaimDoes | notification-service/src/services/notificationRepository.ts:143-155 | Exactly the SENDING rows last attempted more than a lease ago become RETRYING, due at once |
| NotificationGuarantees.CancelDoes | notification-service/src/services/notificationRepository.ts:181-201 | Exactly the entity's SCHEDULED, PENDING and RETRYING rows are cancelled |
| NotificationGuarantees.ReEnqueueDoes | notification-service/src/services/notificationRepository.ts:15-70 | A key seen again leaves a sent or cancelled row alone and resets any other, keeping its retries |
| NotificationGuarantees.EnqueueDoes | notification-service/src/services/notificationRepository.ts:15-70 | A new key is stored as asked, with no attempt made |
| NotificationGuarantees.OthersDoNothingToRows | notification-service/src/services/scheduledNotificationService.ts:10-34 | Sending, crashing and losing a result change no row, and end exactly the claims they are about |
| NotificationSweep.TerminalRowStaysForever | notification-service/src/services/notificationRepository.ts:181-201 | In every run, a row that is SENT or CANCELLED, or FAILED and not enqueued again, and of which no immediate send is under way, never changes and is never sent again |
| NotificationSweep.CancelledRowStaysIff | notification-service/src/services/notificationService.ts:137-208 | In every reachable state, a cancelled row stays as it is in every continuation if and only if no immediate send of it is under way |
| NotificationSweep.CancelledThenSent | notification-service/src/services/notificationRepository.ts:72-89 | A run in which a row is cancelled while its immediate send is under way and ends up SENT |
| NotificationSweep.EveryRunBoundsRetries | notification-service/src/services/notificationRepository.ts:157-179 | In every run, through crashes and reclaims, a row has at most MAX recorded failures, fewer while it is in play, and recorded failure k+1 comes no earlier than B*k*(k+1)/2 after the first |
| NotificationSweep.RecordsAreBounded | notification-service/src/services/notificationService.ts:85-112 | In every run with nothing enqueued twice, no more results of sends are recorded for a row than MAX, the delivered one included |
| NotificationGuarantees.EarlyFailureWasPermanent | notification-service/src/services/notificationService.ts:85-112 | In every run with nothing enqueued twice, a row that failed with fewer than MAX failures, and not by an immediate send, had a permanent failure recorded |
| NotificationGuarantees.NoEmailAfterPermanentFailure | notification-service/src/services/notificationService.ts:85-112 | In every run that does not enqueue the row again, a row with a recorded permanent failure is FAILED and no sweep emails it later |
| NotificationEmails.EmailsAreBounded | notification-service/src/services/notificationService.ts:55-114 | In every such run the sweeps email a row at most MAX times plus once for each send whose result was never recorded |
| NotificationEmails.DeliveredOnceButForLostResults | notification-service/src/services/notificationRepository.ts:72-89 | In every run, re-deliveries included, the emails the sweeps delivered for a row are at most one more than those whose result was never recorded, and the one that was recorded is the last |
| NotificationEmails.ActionKeepsEmails | notification-service/src/services/notificationRepository.ts:119-155 | Every action keeps each email tied to one claim, and no email for a row later than a live claim on it or than a recorded delivery |
| NotificationSweep.EnoughRecordsSettle | notification-service/src/services/notificationService.ts:85-112 | In every run with nothing enqueued twice, crashes, lost results and reclaims included, a row whose result has been recorded MAX times is in a terminal state |
| NotificationSweep.RecordsInPlayAreFailures | notification-service/src/services/notificationRepository.ts:157-179 | In every such run, the results recorded for a row still in play are exactly its failures |
| NotificationSweep.ActionKeepsPace | notification-service/src/services/notificationService.ts:85-112 | Every action keeps the count of failures equal to the stored retries and the next attempt no earlier than its backoff |
| NotificationSweep.RecordIsPaced | notification-service/src/services/notificationService.ts:85-112 | The retry-or-fail decision keeps a row below the cap while it is in play and spaces its next attempt |
| NotificationSweep.PacingAddsUp | notification-service/src/services/notificationRepository.ts:166-167 | Linear backoff steps add up to the quadratic bound |
| NotificationSweep.ProcessingEnds | notification-service/src/services/notificationService.ts:85-112 | Attempts made one after another, as many as the cap leaves, bring one row to a terminal state without passing the cap |
| SweepRefinement.SweepIsRun | notification-service/src/services/scheduledNotificationService.ts:10-34 | A whole sweep that meets its lease is a run of the state machine that ends with the same rows, so every run's guarantees are the sweep's |
| NotificationTable.Table.ProcessScheduled | notification-service/src/services/scheduledNotificationService.ts:10-34 | The sweep loop leaves each chosen row with the result of its own send and every other row reclaimed if stale and otherwise unchanged |
| NotificationTable.Table.SendStored | notification-service/src/services/notificationService.ts:55-114 | Settled rows are skipped; a failure is retried only by the scheduler, only if transient and below the cap; any other is final and thrown |
| NotificationTable.Table.SendNotification | notification-service/src/services/notificationService.ts:137-208 | Settled rows are skipped untouched, future ones are only scheduled, others end as one immediate send leaves them, and no other row changes |
| NotificationTable.Table.CreateOrUpsert | notification-service/src/services/notificationRepository.ts:15-70 | Re-delivery of a key leaves a sent or cancelled row as it is, resets any other without clearing its retries, and creates a missing one |
| NotificationTable.Table.ClaimDue | notification-service/src/services/notificationRepository.ts:119-137 | Exactly the chosen due rows become SENDING, stamped now, and are returned as stored |
| NotificationTable.Table.ReclaimStale | notification-service/src/services/notificationRepository.ts:143-155 | Exactly the SENDING rows older than the lease become due again, their retries unchanged, and are counted |
| NotificationTable.Table.CancelByEntity | notification-service/src/services/notificationRepository.ts:181-201 | Exactly the entity's rows not yet being sent or settled are cancelled, and counted |
| NotificationTable.Table.MarkForRetry | notification-service/src/services/notificationRepository.ts:162-179 | The row is due again a backoff proportional to its attempt number later, counted from the record claimed |
| NotificationTable.Table.MarkFailed | notification-service/src/services/notificationRepository.ts:91-112 | One row becomes FAILED with one more retry; a missing row is not an error |
| NotificationTable.Table.MarkSent | notification-service/src/services/notificationRepository.ts:72-89 | One row becomes SENT with its retries unchanged; a missing row is not an error |

## Left out

- BookingSafety.SelectionIsFree: is about the moment of selection; what may happen to the coach between events afterwards is the subject of EventsShareNoCoachIff.
- Availability.SoundAcrossChangeIff: is for sessions on one local date; across midnight only the direction of AvailableIsSoundAcrossChange is proved.
- CrossEventCoaches.EventsShareNoCoachIff: is about single-participant COACH_AVAILABILITY events that have no pre-created slots, without calendars or buffers that happen to keep bookings apart.
- BookingSafety.EveryRunIsSafe: starts from bookings in order, and allows an admin status edit only when it does not bring a cancelled or finished booking back, and no edit of co-hosts, because the code checks nothing when one does.
- BookingSafety.NoRunDeadlocks: covers explicit row locks and the rows each transaction writes, not the key-share locks the database takes for foreign keys.
- BookingDatabase.Database.Advance: makes selection one step; in the code the reads inside it can be separated by other commits, which the session lock makes harmless within an event.
- CoachConflicts.SharedTableAgreesIff: covers the exclusion by slot. The exclusion by event and times, for a shared session without a slot, is never reached, since shared sessions are always matched to a slot.
- SlotListing.GetAvailableSlots: is the walk for COACH_AVAILABILITY events with a fixed now. Listing pre-created slots, replenishing them, and the recurrence limits are not modelled.
- SlotListing.ListedSlotIsBookable: is about one coach's verdict; the two paths may still pick different coaches.
- NotificationSweep.EveryRunKeepsLease: assumes one clock, that a sweep does not touch a claim after its lease, and that a key is not enqueued again while a sweep or an immediate send of it is under way. A slower worker can send twice.
- NotificationSweep.EveryRunBoundsRetries: excludes enqueuing a key again, which puts a failed row back in play without resetting its retries.
- NotificationSweep.EnoughRecordsSettle: excludes it likewise.
- NotificationTable.Table.ClaimDue: takes the database's choice of rows as given, so neither the order by due time nor the skipping of rows locked by others is modelled.
- NotificationTable.Table.CreateOrUpsert: makes the read and the upsert one step; in the code two deliveries of one key can pass the read together.
- NotificationTable.Table.SendNotification: runs alone; the state machine interleaves its upsert and its result with everything else, but not two deliveries of one message at once.
- TimeZones.WindowIsWholeDaysIff: takes offsets of at least -12 h, as documented, and changes of less than 11 hours.
- Coach exclusivity in FIXED_SLOTS events: who is free there is supplied by the environment, since such events ignore weekly hours and share a session's rows.
- Availability with weekly hours ignored: that mode accepts any session that crosses midnight, so it has no minute-by-minute meaning.
- Symmetric buffers: the booking path applies only the buffer of the booking already there.
- Time zone names, Intl and the IANA tables: a zone is an offset function, and an unreadable name is a missing zone.
- HH:mm strings, dates as strings and their parsing: minutes of the day and day numbers stand for them.
- The library sort: modelled as a stable insertion sort.
- Fresh ids, tokens and join links: an insert's id is required to be new; token rotation and who may cancel which booking are not modelled, except that the token path refuses inactive and started bookings.
- Student names, notes, custom questions, notice and validation before the transaction: they refuse requests without touching a booking.
- Notifications, delivery feedback, the activity timeline, calendars and meeting links written after commit: best effort, and they change no booking.
- Controllers, routes, schemas, sign-in, pages, templates, message broker and SMTP: input, output and wrappers.
