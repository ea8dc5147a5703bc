/**
 * What the transactions promise, said of the stored rows alone: statuses, fields, instants and
 * counts, without the functions the transactions compute with.
 */
module BookingGuarantees {
  import opened Scheduling
  import opened CoachConflicts
  import opened Assignment
  import opened CoachSelection
  import opened BookingProtocol
  import opened BookingLocks
  import opened BookingSafety

  // ----- After every run -----

  /** Two pending or confirmed bookings of one student that share an instant are the same booking. */
  lemma {:induction false} StudentIsInOnePlace(cfg: Config, w: World, actions: seq<Action>, i: BookingId, j: BookingId, t: Instant)
    requires cfg.Valid() && Initial(cfg, w) && Run(cfg, w, actions).Some?
    requires var bs := Run(cfg, w, actions).value.bookings;
      && i in bs && j in bs && bs[i].email == bs[j].email
      && (bs[i].status == Pending || bs[i].status == Confirmed) && (bs[j].status == Pending || bs[j].status == Confirmed)
      && bs[i].start <= t < bs[i].end && bs[j].start <= t < bs[j].end
    ensures i == j
  {
    hide Run, Initial;
    EveryRunIsSafe(cfg, w, actions);
  }

  /** So are two bookings of one single-participant event of free coach choice that share an instant and a coach. */
  lemma {:induction false} CoachIsInOnePlace(cfg: Config, w: World, actions: seq<Action>, i: BookingId, j: BookingId,
                                             t: Instant, c: CoachId)
    requires cfg.Valid() && Initial(cfg, w) && Run(cfg, w, actions).Some?
    requires var bs := Run(cfg, w, actions).value.bookings;
      && i in bs && j in bs && bs[i].event == bs[j].event
      && (bs[i].status == Pending || bs[i].status == Confirmed) && (bs[j].status == Pending || bs[j].status == Confirmed)
      && bs[i].start <= t < bs[i].end && bs[j].start <= t < bs[j].end
      && (bs[i].coach == Some(c) || c in bs[i].coHosts) && (bs[j].coach == Some(c) || c in bs[j].coHosts)
    requires var ev := cfg.events(Run(cfg, w, actions).value.bookings[i].event);
      ev.mode == CoachAvailability && (ev.interaction == OneToOne || ev.interaction == ManyToOne)
    requires forall s :: cfg.slotAt(Run(cfg, w, actions).value.bookings[i].event, s) == None
    ensures i == j
  {
    hide Run, Initial;
    EveryRunIsSafe(cfg, w, actions);
    var bs := Run(cfg, w, actions).value.bookings;
    assert bs[i].Has(c) && bs[j].Has(c) && SoloEvent(cfg, bs[i].event);
    assert Overlaps(bs[i].start, bs[i].end, bs[j].start, bs[j].end);
  }

  /** A fixed slot of a single-participant event holds one booking that is not cancelled. */
  lemma {:induction false} OneSeat(cfg: Config, w: World, actions: seq<Action>, i: BookingId, j: BookingId)
    requires cfg.Valid() && Initial(cfg, w) && Run(cfg, w, actions).Some?
    requires var bs := Run(cfg, w, actions).value.bookings;
      && i in bs && j in bs && bs[i].event == bs[j].event && bs[i].start == bs[j].start
      && bs[i].status != Cancelled && bs[j].status != Cancelled
    requires var ev := cfg.events(Run(cfg, w, actions).value.bookings[i].event);
      ev.mode == FixedSlots && (ev.interaction == OneToOne || ev.interaction == ManyToOne)
    ensures i == j
  {
    hide Run, Initial;
    EveryRunIsSafe(cfg, w, actions);
    var bs := Run(cfg, w, actions).value.bookings;
    var e, s := bs[i].event, bs[i].start;
    assert GroupSize(bs, e, s) <= 1;
    SubsetIsSmaller({i, j}, Group(bs, e, s));
  }

  /**
   * A fixed slot of an event with several participants holds at most as many bookings that are
   * not cancelled as its own capacity, or, without one, as the event's maximum.
   */
  lemma {:induction false} SeatsSuffice(cfg: Config, w: World, actions: seq<Action>, e: EventId, s: Instant,
                                        ids: set<BookingId>, n: nat)
    requires cfg.Valid() && Initial(cfg, w) && Run(cfg, w, actions).Some?
    requires var ev := cfg.events(e);
      ev.mode == FixedSlots && (ev.interaction == OneToMany || ev.interaction == ManyToMany)
    requires match cfg.slotAt(e, s)
      case None => cfg.events(e).maxParticipants == Some(n)
      case Some(slot) =>
        cfg.slotCapacity(slot) == Some(n) || (cfg.slotCapacity(slot) == None && cfg.events(e).maxParticipants == Some(n))
    requires var bs := Run(cfg, w, actions).value.bookings;
      forall i :: i in ids ==> i in bs && bs[i].event == e && bs[i].start == s && bs[i].status != Cancelled
    ensures |ids| <= n
  {
    hide Run, Initial;
    EveryRunIsSafe(cfg, w, actions);
    var bs := Run(cfg, w, actions).value.bookings;
    assert GroupSize(bs, e, s) <= n;
    SubsetIsSmaller(ids, Group(bs, e, s));
  }

  /**
   * The participants of one group session have the same co-coaches, and the same coach unless
   * the slot has an assigned coach and the session more than a single leader.
   */
  lemma {:induction false} ParticipantsMeetOneTeam(cfg: Config, w: World, actions: seq<Action>, i: BookingId, j: BookingId)
    requires cfg.Valid() && Initial(cfg, w) && Run(cfg, w, actions).Some?
    requires var bs := Run(cfg, w, actions).value.bookings;
      && i in bs && j in bs && bs[i].event == bs[j].event && bs[i].start == bs[j].start
      && bs[i].status != Cancelled && bs[j].status != Cancelled
    requires var ev := cfg.events(Run(cfg, w, actions).value.bookings[i].event);
      ev.interaction == OneToMany || ev.interaction == ManyToMany
    ensures var bs := Run(cfg, w, actions).value.bookings;
      var ev, slot := cfg.events(bs[i].event), cfg.slotAt(bs[i].event, bs[i].start);
      && bs[i].coHosts == bs[j].coHosts
      && (ev.leadership == SingleCoach || slot == None || cfg.slotCoach(slot.value) == None ==> bs[i].coach == bs[j].coach)
  {
    hide Run, Initial;
    EveryRunIsSafe(cfg, w, actions);
  }

  /** The coach assigned to a slot leads every booking of a single-coach event there, alone; an anonymous event names nobody. */
  lemma {:induction false} SlotCoachLeads(cfg: Config, w: World, actions: seq<Action>, i: BookingId)
    requires cfg.Valid() && Initial(cfg, w) && Run(cfg, w, actions).Some?
    requires var bs := Run(cfg, w, actions).value.bookings; i in bs && bs[i].status != Cancelled
    ensures var b := Run(cfg, w, actions).value.bookings[i];
      var ev, slot := cfg.events(b.event), cfg.slotAt(b.event, b.start);
      && (ev.allowAnonymous ==> b.coach == None && b.coHosts == [])
      && (!ev.allowAnonymous && ev.leadership == SingleCoach && slot.Some? && cfg.slotCoach(slot.value).Some? ==>
            b.coach == cfg.slotCoach(slot.value) && b.coHosts == [])
  {
    hide Run, Initial;
    RunKeepsInvariant(cfg, w, actions);
  }

  // ----- What each check refuses -----

  /** The capacity step refuses if and only if the seats of a fixed slot are taken. */
  lemma CapacityRefusesIff(cfg: Config, w: World, x: Tx, ch: Choice)
    requires cfg.Valid() && x.phase.CheckCapacity?
    ensures var e, s := x.req.event, x.req.start;
      var ev, slot := cfg.events(e), cfg.slotAt(e, s);
      var taken := |set i | i in w.bookings && w.bookings[i].event == e && w.bookings[i].start == s
                            && w.bookings[i].status != Cancelled|;
      After(cfg, w, x, ch).Fail? <==>
        && ev.mode == FixedSlots
        && if ev.interaction == OneToOne || ev.interaction == ManyToOne then 1 <= taken
           else if slot.Some? && cfg.slotCapacity(slot.value).Some? then cfg.slotCapacity(slot.value).value <= taken
           else ev.maxParticipants.Some? && ev.maxParticipants.value <= taken
  {
    var e, s := x.req.event, x.req.start;
    assert Group(w.bookings, e, s)
        == set i | i in w.bookings && w.bookings[i].event == e && w.bookings[i].start == s && w.bookings[i].status != Cancelled;
  }

  /** The overlap step refuses if and only if the student has another pending or confirmed booking then. */
  lemma OverlapRefusesIff(cfg: Config, w: World, x: Tx, ch: Choice)
    requires cfg.Valid() && x.phase.CheckOverlap?
    ensures After(cfg, w, x, ch).Fail? <==>
      exists i :: i in w.bookings && (x.req.kind == Reschedule ==> i != x.req.id) && w.bookings[i].email == x.req.email
        && (w.bookings[i].status == Pending || w.bookings[i].status == Confirmed)
        && w.bookings[i].start < x.req.end && x.req.start < w.bookings[i].end
  {
  }

  /**
   * A coach is offered if and only if the calendar allows it and, outside fixed slots, no other
   * pending or confirmed booking of theirs that ends less than two hours before runs into the
   * session, its own event's buffer included.
   */
  lemma OfferedIff(cfg: Config, w: World, r: Request, ch: Choice, c: CoachId)
    ensures Offered(cfg, w, r, ch)(c) <==>
      && ch.calendar(c)
      && (cfg.events(r.event).mode == CoachAvailability ==>
            !exists i :: i in w.bookings && (r.kind == Reschedule ==> i != r.id)
              && (w.bookings[i].status == Pending || w.bookings[i].status == Confirmed)
              && (w.bookings[i].coach == Some(c) || c in w.bookings[i].coHosts)
              && w.bookings[i].start < r.end && r.start - 7_200_000 < w.bookings[i].end
              && r.start < w.bookings[i].end + cfg.buffers(w.bookings[i].event) * 60_000)
  {
    if Busy(cfg, w.bookings, r, c) {
      var i :| i in w.bookings && !(r.kind.Reschedule? && i == r.id) && w.bookings[i].status.Active()
        && w.bookings[i].Has(c)
        && InRange(w.bookings[i].start, w.bookings[i].end, r.start - LOOKBACK, r.end)
        && Meets(OfBooking(BookingRow(i, w.bookings[i]), cfg.buffers), r.start, r.end);
      assert i in w.bookings;
    }
  }

  /** A cancellation goes ahead if and only if the booking exists and, by token, is active and has not started. */
  lemma CancelAllowedIff(cfg: Config, w: World, x: Tx, ch: Choice)
    requires cfg.Valid() && x.phase.ReadBooking?
    ensures After(cfg, w, x, ch).Proceed? <==>
      && x.req.id in w.bookings
      && (x.req.byToken ==>
            && (w.bookings[x.req.id].status == Pending || w.bookings[x.req.id].status == Confirmed)
            && x.req.now < w.bookings[x.req.id].start)
  {
  }

  /** No other step refuses, but selection its own way, a follow-up that nobody leads, and a write of a missing booking. */
  lemma OtherStepsRefuseIff(cfg: Config, w: World, x: Tx, ch: Choice)
    requires cfg.Valid() && x.Unfinished() && x.phase != Commit
    requires x.phase != CheckCapacity && x.phase != CheckOverlap && x.phase != ReadBooking
    ensures After(cfg, w, x, ch).Fail? <==>
      || (x.phase == SelectTeam && SelectionFor(cfg, w, x, ch).Refused?)
      || (x.phase == LockCoach && x.req.kind == FollowUp && x.team.lead == None)
      || (x.phase == Write && (x.req.kind == Reschedule || x.req.kind == Cancel) && x.req.id !in w.bookings)
  {
    hide SelectionFor;
  }

  /** The first row locked is the slot's where there is a slot, so that other slots of the event need not wait, else the event's. */
  lemma FirstLockIs(cfg: Config, w: World, x: Tx)
    requires x.phase == LockSession
    ensures Wants(cfg, w, x) == match cfg.slotAt(x.req.event, x.req.start)
      case None => Some(OnEvent(x.req.event))
      case Some(slot) => Some(OnSlot(slot))
  {
  }

  /** A booking commits holding every row it relies on: session, rotation, coach, student and, when moved, itself. */
  lemma CommitsHoldingAll(cfg: Config, w: World, t: TxId)
    requires Invariant(cfg, w) && t in w.txs && w.txs[t].phase == Commit && w.txs[t].req.kind != Cancel
    ensures var x := w.txs[t];
      var r := x.req;
      && (match cfg.slotAt(r.event, r.start)
          case None => Owns(w, t, OnEvent(r.event))
          case Some(slot) => Owns(w, t, OnSlot(slot)))
      && (x.cursor.Some? ==> Owns(w, t, OnRouting(r.event)))
      && (x.team.lead.Some? ==> Owns(w, t, OnCoach(x.team.lead.value)))
      && Owns(w, t, OnStudent(r.email)) && (r.kind == Reschedule ==> Owns(w, t, OnBooking(r.id)))
  {
    hide Invariant, Owns;
    var x := w.txs[t];
    WhatIsHeldIsOwned(cfg, w, t, SessionLock(cfg, x.req));
    WhatIsHeldIsOwned(cfg, w, t, OnStudent(x.req.email));
    WhatIsHeldIsOwned(cfg, w, t, OnRouting(x.req.event));
    WhatIsHeldIsOwned(cfg, w, t, OnBooking(x.req.id));
    if x.team.lead.Some? {
      WhatIsHeldIsOwned(cfg, w, t, OnCoach(x.team.lead.value));
    }
  }

  lemma WhatIsHeldIsOwned(cfg: Config, w: World, t: TxId, l: Lock)
    requires Invariant(cfg, w) && t in w.txs
    ensures Holds(cfg, w.txs[t], l) ==> Owns(w, t, l)
  {
    hide Holds, Safe, Checked, Owns;
  }

  /** A failed or aborted transaction changes no row and no cursor, gives up its locks and leaves everybody else's. */
  lemma FailureLeavesNoTrace(cfg: Config, w: World, t: TxId, ch: Choice)
    requires cfg.Valid() && t in w.txs && w.txs[t].Unfinished()
    ensures var w' := Do(cfg, w, Abort(t));
      && w'.bookings == w.bookings && w'.students == w.students && w'.cursors == w.cursors
      && (forall l :: l in w'.locks <==> l in w.locks && w.locks[l] != t)
      && (forall l :: l in w'.locks ==> w'.locks[l] == w.locks[l])
      && w'.txs == w.txs[t := w.txs[t].(phase := RolledBack)]
    ensures Enabled(cfg, w, t) && w.txs[t].phase != Commit && After(cfg, w, w.txs[t], ch).Fail? ==>
      Next(cfg, w, t, ch) == Do(cfg, w, Abort(t))
  {
    hide After, Wants;
  }

  // ----- What a commit leaves behind -----

  /** A create or follow-up adds the confirmed booking asked for, with the team selected, and changes no other row. */
  lemma CommitCreates(cfg: Config, w: World, t: TxId, ch: Choice)
    requires cfg.Valid() && Invariant(cfg, w) && t in w.txs && w.txs[t].phase.Commit? && Enabled(cfg, w, t)
    requires w.txs[t].req.kind == Create || w.txs[t].req.kind == FollowUp
    ensures var x, w' := w.txs[t], Next(cfg, w, t, ch);
      var r := x.req;
      && r.id !in w.bookings && w'.bookings.Keys == w.bookings.Keys + {r.id}
      && (forall i :: i in w.bookings ==> w'.bookings[i] == w.bookings[i])
      && w'.bookings[r.id].event == r.event && w'.bookings[r.id].email == r.email
      && w'.bookings[r.id].start == r.start && w'.bookings[r.id].end == r.end
      && w'.bookings[r.id].status == Confirmed && w'.bookings[r.id].slot == cfg.slotAt(r.event, r.start)
      && w'.bookings[r.id].coach == x.team.lead && w'.bookings[r.id].coHosts == x.team.coHosts
      && (r.kind == FollowUp ==> w'.bookings[r.id].coach.Some?)
      && r.email in w'.students && w.students <= w'.students
  {
    ReachedFits(cfg, w, t);
    hide Invariant;
  }

  /** A reschedule moves the booking, with the team selected, confirms it, and changes nothing else. */
  lemma CommitMoves(cfg: Config, w: World, t: TxId, ch: Choice)
    requires cfg.Valid() && Invariant(cfg, w) && t in w.txs && w.txs[t].phase.Commit? && Enabled(cfg, w, t)
    requires w.txs[t].req.kind == Reschedule
    ensures var x, w' := w.txs[t], Next(cfg, w, t, ch);
      var r := x.req;
      && r.id in w.bookings && w'.bookings.Keys == w.bookings.Keys
      && (forall i :: i in w.bookings && i != r.id ==> w'.bookings[i] == w.bookings[i])
      && w'.bookings[r.id].event == w.bookings[r.id].event == r.event
      && w'.bookings[r.id].email == w.bookings[r.id].email == r.email
      && w'.bookings[r.id].start == r.start && w'.bookings[r.id].end == r.end
      && w'.bookings[r.id].status == Confirmed && w'.bookings[r.id].slot == cfg.slotAt(r.event, r.start)
      && w'.bookings[r.id].coach == x.team.lead && w'.bookings[r.id].coHosts == x.team.coHosts
  {
    ReachedFits(cfg, w, t);
    hide Invariant;
  }

  /** A cancellation cancels the booking and changes nothing else about it or any other row. */
  lemma CommitCancels(cfg: Config, w: World, t: TxId, ch: Choice)
    requires cfg.Valid() && Invariant(cfg, w) && t in w.txs && w.txs[t].phase.Commit? && Enabled(cfg, w, t)
    requires w.txs[t].req.kind == Cancel
    ensures var id, w' := w.txs[t].req.id, Next(cfg, w, t, ch);
      && id in w.bookings && w'.bookings.Keys == w.bookings.Keys
      && (forall i :: i in w.bookings && i != id ==> w'.bookings[i] == w.bookings[i])
      && w'.bookings[id].status == Cancelled
      && w'.bookings[id].event == w.bookings[id].event && w'.bookings[id].email == w.bookings[id].email
      && w'.bookings[id].start == w.bookings[id].start && w'.bookings[id].end == w.bookings[id].end
      && w'.bookings[id].slot == w.bookings[id].slot
      && w'.bookings[id].coach == w.bookings[id].coach && w'.bookings[id].coHosts == w.bookings[id].coHosts
  {
    ReachedFits(cfg, w, t);
    hide Invariant;
  }

  /** A commit ends its transaction and gives up its locks alone; only a new booking's student is new on file. */
  lemma CommitEnds(cfg: Config, w: World, t: TxId, ch: Choice)
    requires cfg.Valid() && t in w.txs && w.txs[t].phase.Commit? && Enabled(cfg, w, t)
    ensures var w', kind := Next(cfg, w, t, ch), w.txs[t].req.kind;
      && (forall l :: l in w'.locks <==> l in w.locks && w.locks[l] != t)
      && (forall l :: l in w'.locks ==> w'.locks[l] == w.locks[l])
      && w'.txs == w.txs[t := w.txs[t].(phase := Committed)]
      && w'.students == if kind == Create || kind == FollowUp then w.students + {w.txs[t].req.email} else w.students
  {
  }

  lemma ReachedFits(cfg: Config, w: World, t: TxId)
    ensures Invariant(cfg, w) && t in w.txs ==> PhaseFits(w.txs[t]) && TargetFits(w, w.txs[t])
  {
  }

  /** Only a commit that wrote the cursor moves it, to what the selection returned; elsewhere it stays. */
  lemma CommitMovesCursor(cfg: Config, w: World, t: TxId, ch: Choice, e: EventId)
    requires cfg.Valid() && t in w.txs && w.txs[t].phase.Commit? && Enabled(cfg, w, t)
    ensures var x := w.txs[t];
      StoredCursor(Next(cfg, w, t, ch).cursors, e)
        == if x.cursor.Some? && x.req.event == e then x.cursor.value else StoredCursor(w.cursors, e)
    ensures e !in w.cursors ==> StoredCursor(w.cursors, e) == 1
  {
  }

  // ----- What stays as it is -----

  /** The action may write the booking: a commit of its transaction, or an edit. */
  predicate Touches(w: World, a: Action, id: BookingId) {
    match a
    case Step(t, _) => t in w.txs && w.txs[t].phase == Commit && w.txs[t].req.id == id
    case Patch(i, _) => i == id
    case Begin(_, _) => false
    case Abort(_) => false
  }

  ghost predicate TouchedAt(cfg: Config, w: World, actions: seq<Action>, id: BookingId, n: nat)
    requires cfg.Valid() && n < |actions|
  {
    Run(cfg, w, actions[..n]).Some? && Touches(Run(cfg, w, actions[..n]).value, actions[n], id)
  }

  lemma UntouchedOnce(cfg: Config, w: World, a: Action, id: BookingId)
    requires cfg.Valid() && Allowed(cfg, w, a) && id in w.bookings && !Touches(w, a, id)
    ensures id in Do(cfg, w, a).bookings && Do(cfg, w, a).bookings[id] == w.bookings[id]
  {
    hide After, Wants, RowOf;
  }

  /** No run changes a booking it does not touch. */
  lemma {:induction false} UntouchedStays(cfg: Config, w: World, actions: seq<Action>, id: BookingId)
    requires cfg.Valid() && id in w.bookings && Run(cfg, w, actions).Some?
    requires forall n :: 0 <= n < |actions| ==> !TouchedAt(cfg, w, actions, id, n)
    ensures var w' := Run(cfg, w, actions).value; id in w'.bookings && w'.bookings[id] == w.bookings[id]
  {
    hide Do, Allowed, Touches;
    if actions != [] {
      var prefix := actions[..|actions| - 1];
      forall n | 0 <= n < |prefix| ensures !TouchedAt(cfg, w, prefix, id, n) {
        assert prefix[..n] == actions[..n] && !TouchedAt(cfg, w, actions, id, n);
      }
      UntouchedStays(cfg, w, prefix, id);
      assert !TouchedAt(cfg, w, actions, id, |prefix|);
      UntouchedOnce(cfg, Run(cfg, w, prefix).value, actions[|actions| - 1], id);
    }
  }

  /** A cancelled booking blocks neither its student nor its coaches nor its seat: all is as if it were not there. */
  lemma CancelledBlocksNobody(cfg: Config, w: World, id: BookingId, x: Tx, ch: Choice, c: CoachId)
    requires cfg.Valid() && id in w.bookings && w.bookings[id].status == Cancelled
    ensures var w0 := w.(bookings := w.bookings - {id});
      && (x.phase.CheckOverlap? || x.phase.CheckCapacity? ==> (After(cfg, w, x, ch).Fail? <==> After(cfg, w0, x, ch).Fail?))
      && (Offered(cfg, w, x.req, ch)(c) <==> Offered(cfg, w0, x.req, ch)(c))
  {
    var w0 := w.(bookings := w.bookings - {id});
    hide SelectionFor, MayCancel;
    assert Group(w.bookings, x.req.event, x.req.start) == Group(w0.bookings, x.req.event, x.req.start);
    SameClash(w.bookings, id, x.req);
    SameBusy(cfg, w.bookings, id, x.req, c);
    hide Busy, StudentClash;
  }

  lemma SameClash(bs: Bookings, id: BookingId, r: Request)
    requires id in bs && bs[id].status == Cancelled
    ensures StudentClash(bs, r) <==> StudentClash(bs - {id}, r)
  {
    if StudentClash(bs, r) {
      var i :| i in bs && !(r.kind.Reschedule? && i == r.id) && bs[i].email == r.email && bs[i].status.Active()
        && Overlaps(bs[i].start, bs[i].end, r.start, r.end);
      assert i in bs - {id};
    }
  }

  lemma SameBusy(cfg: Config, bs: Bookings, id: BookingId, r: Request, c: CoachId)
    requires id in bs && bs[id].status == Cancelled
    ensures Busy(cfg, bs, r, c) <==> Busy(cfg, bs - {id}, r, c)
  {
    if Busy(cfg, bs, r, c) {
      var i :| i in bs && !(r.kind.Reschedule? && i == r.id) && bs[i].status.Active() && bs[i].Has(c)
        && InRange(bs[i].start, bs[i].end, r.start - LOOKBACK, r.end)
        && Meets(OfBooking(BookingRow(i, bs[i]), cfg.buffers), r.start, r.end);
      assert i in bs - {id};
    }
  }

  /** Once its cancellation has committed, the booking blocks nobody in any run, until something touches it again. */
  lemma {:induction false} CancellationFreesForGood(cfg: Config, w: World, t: TxId, choice: Choice, actions: seq<Action>,
                                                    x: Tx, ch: Choice, c: CoachId)
    requires cfg.Valid() && Invariant(cfg, w) && t in w.txs && w.txs[t].phase.Commit? && Enabled(cfg, w, t)
    requires w.txs[t].req.kind == Cancel && Run(cfg, Next(cfg, w, t, choice), actions).Some?
    requires forall n :: 0 <= n < |actions| ==> !TouchedAt(cfg, Next(cfg, w, t, choice), actions, w.txs[t].req.id, n)
    ensures var id, w' := w.txs[t].req.id, Run(cfg, Next(cfg, w, t, choice), actions).value;
      var w0 := w'.(bookings := w'.bookings - {id});
      && id in w'.bookings && w'.bookings[id].status == Cancelled
      && (x.phase.CheckOverlap? || x.phase.CheckCapacity? ==> (After(cfg, w', x, ch).Fail? <==> After(cfg, w0, x, ch).Fail?))
      && (Offered(cfg, w', x.req, ch)(c) <==> Offered(cfg, w0, x.req, ch)(c))
  {
    hide Run, Next, After, Offered, Invariant, TouchedAt;
    CommitCancels(cfg, w, t, choice);
    UntouchedStays(cfg, Next(cfg, w, t, choice), actions, w.txs[t].req.id);
    CancelledBlocksNobody(cfg, Run(cfg, Next(cfg, w, t, choice), actions).value, w.txs[t].req.id, x, ch, c);
  }

  // ----- The loads selection reads -----

  /** One booking counts once, for the coach who leads it, in its team, unless cancelled. */
  lemma EachBookingCountsOnce(cfg: Config, bs: Bookings, id: BookingId, e: EventId, p: Candidate)
    requires id in bs && p in cfg.events(e).pool
    ensures Load(BookingLoads(cfg, bs, e), p.id) == Load(BookingLoads(cfg, bs - {id}, e), p.id)
      + if cfg.teamOf(bs[id].event) == cfg.teamOf(e) && bs[id].coach == Some(p.id) && bs[id].status != Cancelled then 1 else 0
  {
    var led := LedBookings(cfg, bs, cfg.teamOf(e), p.id);
    assert led == LedBookings(cfg, bs - {id}, cfg.teamOf(e), p.id) + if id in led then {id} else {};
  }

  lemma NoBookingsNoLoad(cfg: Config, e: EventId, c: CoachId)
    ensures Load(BookingLoads(cfg, map[], e), c) == 0
  {
    assert LedBookings(cfg, map[], cfg.teamOf(e), c) == {};
  }

  /** Selection sees those bookings and the team's slot assignments, and the cursor as it is stored. */
  lemma SelectionSeesTotals(cfg: Config, w: World, r: Request, ch: Choice, c: CoachId)
    ensures Load(ReadsFor(cfg, w, r, ch).loads, c)
         == Load(BookingLoads(cfg, w.bookings, r.event), c) + SlotShare(cfg.slotLoads(cfg.teamOf(r.event)), c)
    ensures ReadsFor(cfg, w, r, ch).cursor == StoredCursor(w.cursors, r.event)
  {
    TotalIsSum(BookingLoads(cfg, w.bookings, r.event), cfg.slotLoads(cfg.teamOf(r.event)), c);
  }
}
