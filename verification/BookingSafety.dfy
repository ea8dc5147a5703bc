/**
 * What holds of the committed bookings after every run of interleaved transactions:
 * student exclusivity, coach exclusivity within an event, slot capacity and group consistency.
 */
module BookingSafety {
  import opened Scheduling
  import opened CoachConflicts
  import opened Assignment
  import opened CoachSelection
  import opened BookingProtocol
  import opened BookingLocks

  // ----- The four properties -----

  /** No student has two active bookings that overlap. */
  ghost predicate StudentsExclusive(bs: Bookings) {
    forall i, j | i in bs && j in bs && i != j && bs[i].email == bs[j].email
                  && bs[i].status.Active() && bs[j].status.Active() ::
      !Overlaps(bs[i].start, bs[i].end, bs[j].start, bs[j].end)
  }

  /** One participant a session, selection under the event lock. */
  ghost predicate SoloEvent(cfg: Config, e: EventId) {
    && cfg.events(e).mode.CoachAvailability? && !cfg.events(e).interaction.MultipleParticipants()
    && forall s :: cfg.slotAt(e, s) == None
  }

  /** No coach, lead or co-host, is on two overlapping active bookings of one such event. */
  ghost predicate CoachesExclusive(cfg: Config, bs: Bookings) {
    forall i, j, c | i in bs && j in bs && i != j && bs[i].event == bs[j].event && SoloEvent(cfg, bs[i].event)
                     && bs[i].status.Active() && bs[j].status.Active()
                     && Overlaps(bs[i].start, bs[i].end, bs[j].start, bs[j].end) ::
      !(bs[i].Has(c) && bs[j].Has(c))
  }

  /** The seats of every fixed slot suffice for its bookings. */
  ghost predicate WithinCapacity(cfg: Config, bs: Bookings) {
    forall e, s :: cfg.events(e).mode.FixedSlots? && cfg.EffectiveMax(e, s).Some? ==>
      GroupSize(bs, e, s) <= cfg.EffectiveMax(e, s).value
  }

  /** Group sessions whose slot has no assigned coach, or has one and a single leader. */
  ghost predicate SharedTeamExpected(cfg: Config, e: EventId, s: Instant) {
    && cfg.events(e).interaction.MultipleParticipants()
    && (cfg.AssignedCoach(e, s).None? || cfg.events(e).leadership.SingleCoach?)
  }

  /** All participants of a group session have the same co-coaches, and of one such session the same coach. */
  ghost predicate GroupsConsistent(cfg: Config, bs: Bookings) {
    forall i, j | i in bs && j in bs && bs[i].event == bs[j].event && bs[i].start == bs[j].start
                  && !bs[i].status.Cancelled? && !bs[j].status.Cancelled?
                  && cfg.events(bs[i].event).interaction.MultipleParticipants() ::
      && bs[i].coHosts == bs[j].coHosts
      && (SharedTeamExpected(cfg, bs[i].event, bs[i].start) ==> bs[i].coach == bs[j].coach)
  }

  /** Where the settings alone decide the team, it is that team. */
  ghost predicate TeamFits(cfg: Config, e: EventId, s: Instant, team: Team) {
    && (cfg.events(e).allowAnonymous ==> team == Team(None, []))
    && (!cfg.events(e).allowAnonymous && cfg.events(e).leadership.SingleCoach? && cfg.AssignedCoach(e, s).Some? ==>
          team == Team(cfg.AssignedCoach(e, s), []))
  }

  ghost predicate TeamsFit(cfg: Config, bs: Bookings) {
    forall i :: i in bs && !bs[i].status.Cancelled? ==> TeamFits(cfg, bs[i].event, bs[i].start, TeamOf(bs[i]))
  }

  ghost predicate Safe(cfg: Config, bs: Bookings) {
    && StudentsExclusive(bs) && CoachesExclusive(cfg, bs) && WithinCapacity(cfg, bs)
    && GroupsConsistent(cfg, bs) && TeamsFit(cfg, bs)
  }

  // ----- What a transaction has checked and its locks keep true -----

  ghost predicate StudentIsFree(bs: Bookings, r: Request) {
    forall i :: i in bs && i != r.id && bs[i].email == r.email && bs[i].status.Active() ==>
      !Overlaps(bs[i].start, bs[i].end, r.start, r.end)
  }

  ghost predicate TeamIsFree(cfg: Config, bs: Bookings, x: Tx) {
    SoloEvent(cfg, x.req.event) ==>
      forall i, c | i in bs && i != x.req.id && bs[i].event == x.req.event && bs[i].status.Active()
                    && Overlaps(bs[i].start, bs[i].end, x.req.start, x.req.end) ::
        !(bs[i].Has(c) && OnTeam(x.team, c))
  }

  ghost predicate HasSeat(cfg: Config, bs: Bookings, r: Request) {
    cfg.events(r.event).mode.FixedSlots? && cfg.EffectiveMax(r.event, r.start).Some? ==>
      GroupSize(bs, r.event, r.start) < cfg.EffectiveMax(r.event, r.start).value
  }

  /** The session row read still speaks for the whole group. */
  ghost predicate SeenIsGroup(cfg: Config, bs: Bookings, x: Tx) {
    && (x.seen.Some? ==> TeamFits(cfg, x.req.event, x.req.start, x.seen.value))
    && (cfg.events(x.req.event).interaction.MultipleParticipants() ==>
          forall i :: i in bs && InGroup(bs[i], x.req.event, x.req.start) ==>
            && x.seen.Some? && x.seen.value.coHosts == bs[i].coHosts
            && (SharedTeamExpected(cfg, x.req.event, x.req.start) ==> x.seen.value.lead == bs[i].coach))
  }

  ghost predicate TeamIsGroups(cfg: Config, bs: Bookings, x: Tx) {
    && TeamFits(cfg, x.req.event, x.req.start, x.team)
    && (cfg.events(x.req.event).interaction.MultipleParticipants() ==>
          forall i :: i in bs && InGroup(bs[i], x.req.event, x.req.start) ==>
            && x.team.coHosts == bs[i].coHosts
            && (SharedTeamExpected(cfg, x.req.event, x.req.start) ==> x.team.lead == bs[i].coach))
  }

  ghost predicate Checked(cfg: Config, bs: Bookings, x: Tx) {
    && (x.Past(ReadSession) ==> SeenIsGroup(cfg, bs, x))
    && (x.Past(SelectTeam) ==> TeamIsFree(cfg, bs, x) && TeamIsGroups(cfg, bs, x))
    && (x.Past(CheckCapacity) ==> HasSeat(cfg, bs, x.req))
    && (x.Past(CheckOverlap) ==> StudentIsFree(bs, x.req))
  }

  ghost predicate Invariant(cfg: Config, w: World) {
    && Consistent(cfg, w) && Safe(cfg, w.bookings)
    && forall t :: t in w.txs ==> Checked(cfg, w.bookings, w.txs[t])
  }

  // ----- Rows only ever lose standing, except by a write -----

  predicate Weaker(b: Booking, b': Booking) {
    && b' == b.(status := b'.status)
    && (b'.status.Active() ==> b.status.Active())
    && (!b'.status.Cancelled? ==> !b.status.Cancelled?)
  }

  ghost predicate Weakened(bs: Bookings, bs': Bookings) {
    bs'.Keys == bs.Keys && forall i :: i in bs ==> Weaker(bs[i], bs'[i])
  }

  lemma {:induction false} SubsetIsSmaller<T>(a: set<T>, b: set<T>)
    requires a <= b
    ensures |a| <= |b|
    decreases a
  {
    if a != {} {
      var x :| x in a;
      SubsetIsSmaller(a - {x}, b - {x});
    }
  }

  lemma WeakenedGroup(bs: Bookings, bs': Bookings, e: EventId, s: Instant)
    requires Weakened(bs, bs')
    ensures GroupSize(bs', e, s) <= GroupSize(bs, e, s)
  {
    SubsetIsSmaller(Group(bs', e, s), Group(bs, e, s));
  }

  lemma WeakenedIsSafe(cfg: Config, bs: Bookings, bs': Bookings)
    requires Weakened(bs, bs') && Safe(cfg, bs)
    ensures Safe(cfg, bs')
  {
    hide SoloEvent, SharedTeamExpected, TeamFits, GroupSize, Overlaps;
    forall e, s ensures GroupSize(bs', e, s) <= GroupSize(bs, e, s) {
      WeakenedGroup(bs, bs', e, s);
    }
  }

  lemma WeakenedKeepsChecks(cfg: Config, bs: Bookings, bs': Bookings, x: Tx)
    requires Weakened(bs, bs') && Checked(cfg, bs, x)
    ensures Checked(cfg, bs', x)
  {
    hide SoloEvent, SharedTeamExpected, TeamFits, GroupSize, Overlaps;
    WeakenedGroup(bs, bs', x.req.event, x.req.start);
  }

  // ----- A write -----

  lemma WrittenGroup(bs: Bookings, id: BookingId, b: Booking, e: EventId, s: Instant)
    ensures GroupSize(bs[id := b], e, s) <= GroupSize(bs, e, s) + if InGroup(b, e, s) then 1 else 0
  {
    var before := Group(bs, e, s);
    SubsetIsSmaller(Group(bs[id := b], e, s), if InGroup(b, e, s) then before + {id} else before);
  }

  /** Writing what has been checked keeps the four properties. */
  lemma WriteIsSafe(cfg: Config, bs: Bookings, x: Tx)
    requires Safe(cfg, bs) && Checked(cfg, bs, x) && x.Past(CheckOverlap)
    ensures Safe(cfg, bs[x.req.id := RowOf(cfg, x)])
  {
    hide SoloEvent, SharedTeamExpected, TeamFits, GroupSize;
    var bs' := bs[x.req.id := RowOf(cfg, x)];
    forall e, s ensures GroupSize(bs', e, s) <= GroupSize(bs, e, s) + if InGroup(RowOf(cfg, x), e, s) then 1 else 0 {
      WrittenGroup(bs, x.req.id, RowOf(cfg, x), e, s);
    }
    assert forall c :: RowOf(cfg, x).Has(c) <==> OnTeam(x.team, c);
  }

  /** Two different transactions never hold the same lock. */
  lemma LocksExclude(cfg: Config, w: World, t: TxId, u: TxId, l: Lock)
    requires LocksMatch(cfg, w) && t in w.txs && u in w.txs
    requires Holds(cfg, w.txs[t], l) && Holds(cfg, w.txs[u], l)
    ensures t == u
  {
    assert Owns(w, t, l) && Owns(w, u, l);
  }

  /** What another transaction has checked survives the write, because of the locks both hold. */
  lemma WriteKeepsOthersChecks(cfg: Config, w: World, t: TxId, u: TxId)
    requires LocksMatch(cfg, w) && t in w.txs && u in w.txs && t != u
    requires w.txs[t].phase == Commit && !w.txs[t].req.kind.Cancel? && Checked(cfg, w.bookings, w.txs[u])
    ensures Checked(cfg, w.bookings[w.txs[t].req.id := RowOf(cfg, w.txs[t])], w.txs[u])
  {
    hide LocksMatch, SharedTeamExpected, TeamFits, GroupSize;
    var x, y := w.txs[t], w.txs[u];
    if y.Past(LockSession) && SessionLock(cfg, x.req) == SessionLock(cfg, y.req) {
      LocksExclude(cfg, w, t, u, SessionLock(cfg, x.req));
    }
    if y.Past(LockStudent) && x.req.email == y.req.email {
      LocksExclude(cfg, w, t, u, OnStudent(x.req.email));
    }
    WrittenGroup(w.bookings, x.req.id, RowOf(cfg, x), y.req.event, y.req.start);
  }

  // ----- Passing a check -----

  /** No member of the team is on an overlapping active booking of any event. */
  ghost predicate TeamIsFreeEverywhere(bs: Bookings, x: Tx) {
    forall i, c | i in bs && i != x.req.id && bs[i].status.Active()
                  && Overlaps(bs[i].start, bs[i].end, x.req.start, x.req.end) ::
      !(bs[i].Has(c) && OnTeam(x.team, c))
  }

  lemma SelectionIsFree(cfg: Config, w: World, x: Tx, ch: Choice)
    requires cfg.Valid() && TargetFits(w, x) && x.phase.SelectTeam?
    requires SelectionFor(cfg, w, x, ch).Selected? && SoloEvent(cfg, x.req.event)
    ensures TeamIsFreeEverywhere(w.bookings, x.(team := SelectionFor(cfg, w, x, ch).team))
    ensures TeamIsFree(cfg, w.bookings, x.(team := SelectionFor(cfg, w, x, ch).team))
  {
    var ev := cfg.events(x.req.event);
    var s := SelectionFor(cfg, w, x, ch);
    if !ev.allowAnonymous {
      var rd := ReadsFor(cfg, w, x.req, ch);
      hide SingleHost, WithCoHosts;
      assert s == ResolveSelection(ev, x.req.preferred, None, None, rd);
      ChosenTeamIsAvailable(ev, x.req.preferred, rd);
      hide ResolveSelection;
      forall i, c | i in w.bookings && i != x.req.id && w.bookings[i].status.Active()
        && Overlaps(w.bookings[i].start, w.bookings[i].end, x.req.start, x.req.end) && OnTeam(s.team, c)
        ensures !w.bookings[i].Has(c)
      {
        assert rd.available(c) && !Busy(cfg, w.bookings, x.req, c);
      }
    }
  }

  lemma SelectionIsGroups(cfg: Config, w: World, x: Tx, ch: Choice)
    requires cfg.Valid() && x.phase.SelectTeam?
    requires SelectionFor(cfg, w, x, ch).Selected?
    requires SeenIsGroup(cfg, w.bookings, x) && TeamsFit(cfg, w.bookings)
    ensures TeamIsGroups(cfg, w.bookings, x.(team := SelectionFor(cfg, w, x, ch).team))
  {
    hide SingleHost, WithCoHosts, StrategyLead, FixedLeadOf;
  }

  /** Reading the session: single-participant events read nothing, others a row of the group. */
  lemma SessionReadIsGroup(cfg: Config, w: World, x: Tx, ch: Choice)
    requires x.phase.ReadSession? && ChoiceFits(cfg, w, x, ch)
    requires GroupsConsistent(cfg, w.bookings) && TeamsFit(cfg, w.bookings)
    ensures SeenIsGroup(cfg, w.bookings, x.(seen := ch.seen))
  {
    hide SharedTeamExpected, TeamFits;
    if !cfg.events(x.req.event).interaction.MultipleParticipants() {
      assert !SharedTeamExpected(cfg, x.req.event, x.req.start) by {
        SoloSharesNoTeam(cfg, x.req.event, x.req.start);
      }
    }
  }

  lemma SoloSharesNoTeam(cfg: Config, e: EventId, s: Instant)
    ensures !cfg.events(e).interaction.MultipleParticipants() ==> !SharedTeamExpected(cfg, e, s)
  {
  }

  /** What a transaction has checked after its own step, given what it had checked before. */
  lemma StepChecks(cfg: Config, w: World, x: Tx, ch: Choice)
    requires cfg.Valid() && PhaseFits(x) && TargetFits(w, x) && Safe(cfg, w.bookings)
    requires x.Unfinished() && !x.phase.Commit? && ChoiceFits(cfg, w, x, ch) && Checked(cfg, w.bookings, x)
    ensures var o := After(cfg, w, x, ch); o.Proceed? ==> Checked(cfg, w.bookings, o.x)
  {
    hide SelectionFor, GroupSize, TeamIsFree, TeamIsGroups, SeenIsGroup;
    if After(cfg, w, x, ch).Proceed? {
      var x' := After(cfg, w, x, ch).x;
      SameTeamSameChecks(cfg, w.bookings, x, x');
      if x.phase.ReadSession? {
        SessionReadIsGroup(cfg, w, x, ch);
        SameTeamSameChecks(cfg, w.bookings, x.(seen := ch.seen), x');
      } else if x.phase.SelectTeam? {
        var chosen := x.(team := SelectionFor(cfg, w, x, ch).team);
        SelectionIsGroups(cfg, w, x, ch);
        if SoloEvent(cfg, x.req.event) {
          SelectionIsFree(cfg, w, x, ch);
        } else {
          SharedEventNeedsNoFreedom(cfg, w.bookings, chosen);
        }
        SameTeamSameChecks(cfg, w.bookings, chosen, x');
      }
    }
  }

  lemma SharedEventNeedsNoFreedom(cfg: Config, bs: Bookings, x: Tx)
    ensures !SoloEvent(cfg, x.req.event) ==> TeamIsFree(cfg, bs, x)
  {
  }

  lemma SameTeamSameChecks(cfg: Config, bs: Bookings, x: Tx, x': Tx)
    requires x'.req == x.req
    ensures x'.seen == x.seen && SeenIsGroup(cfg, bs, x) ==> SeenIsGroup(cfg, bs, x')
    ensures x'.team == x.team && TeamIsFree(cfg, bs, x) ==> TeamIsFree(cfg, bs, x')
    ensures x'.team == x.team && TeamIsGroups(cfg, bs, x) ==> TeamIsGroups(cfg, bs, x')
  {
  }

  /** A committed booking request replaces its row with the one it checked; a cancellation weakens its row. */
  lemma CommitEffect(cfg: Config, w: World, t: TxId)
    requires t in w.txs && w.txs[t].phase == Commit && TargetFits(w, w.txs[t])
    ensures var x := w.txs[t];
      if x.req.kind.Cancel? then Weakened(w.bookings, Written(cfg, w.bookings, x))
      else Written(cfg, w.bookings, x) == w.bookings[x.req.id := RowOf(cfg, x)]
  {
  }

  lemma FinishedChecksNothing(cfg: Config, bs: Bookings, x: Tx)
    ensures !x.Unfinished() || Rank(x.phase) == 0 || x.req.kind.Cancel? ==> Checked(cfg, bs, x)
  {
  }

  lemma CommitKeepsInvariant(cfg: Config, w: World, t: TxId)
    requires Invariant(cfg, w) && t in w.txs && w.txs[t].phase == Commit
    ensures Safe(cfg, CommitTx(cfg, w, t).bookings)
    ensures forall u :: u in w.txs ==> Checked(cfg, CommitTx(cfg, w, t).bookings, CommitTx(cfg, w, t).txs[u])
  {
    hide Safe, Checked, LocksMatch, TargetFits, Written, RowOf;
    var x := w.txs[t];
    var bs' := CommitTx(cfg, w, t).bookings;
    assert TargetFits(w, x) && Checked(cfg, w.bookings, x);
    CommitEffect(cfg, w, t);
    if x.req.kind.Cancel? {
      WeakenedIsSafe(cfg, w.bookings, bs');
    } else {
      WriteIsSafe(cfg, w.bookings, x);
    }
    forall u | u in w.txs ensures Checked(cfg, bs', CommitTx(cfg, w, t).txs[u]) {
      if u == t {
        FinishedChecksNothing(cfg, bs', CommitTx(cfg, w, t).txs[u]);
      } else if x.req.kind.Cancel? {
        WeakenedKeepsChecks(cfg, w.bookings, bs', w.txs[u]);
      } else {
        WriteKeepsOthersChecks(cfg, w, t, u);
      }
    }
  }

  lemma StepKeepsInvariant(cfg: Config, w: World, t: TxId, ch: Choice)
    requires cfg.Valid() && Invariant(cfg, w) && Allowed(cfg, w, Step(t, ch))
    ensures Invariant(cfg, Next(cfg, w, t, ch))
  {
    StepKeepsConsistent(cfg, w, t, ch);
    hide Safe, Checked, Written, RowOf, After, ChoiceFits, Wants;
    if w.txs[t].phase.Commit? {
      CommitKeepsInvariant(cfg, w, t);
    } else {
      StepChecks(cfg, w, w.txs[t], ch);
      FinishedChecksNothing(cfg, w.bookings, Next(cfg, w, t, ch).txs[t]);
    }
  }

  lemma ActionKeepsInvariant(cfg: Config, w: World, a: Action)
    requires cfg.Valid() && Invariant(cfg, w) && Allowed(cfg, w, a)
    ensures Invariant(cfg, Do(cfg, w, a))
  {
    ActionKeepsConsistent(cfg, w, a);
    hide Safe, Checked, Next, Consistent;
    var w' := Do(cfg, w, a);
    match a
    case Begin(t, r) => FinishedChecksNothing(cfg, w.bookings, Started(r));
    case Step(t, ch) => StepKeepsInvariant(cfg, w, t, ch);
    case Abort(t) => FinishedChecksNothing(cfg, w.bookings, w'.txs[t]);
    case Patch(id, status) =>
      assert Weakened(w.bookings, w'.bookings);
      WeakenedIsSafe(cfg, w.bookings, w'.bookings);
      forall u | u in w.txs ensures Checked(cfg, w'.bookings, w.txs[u]) {
        WeakenedKeepsChecks(cfg, w.bookings, w'.bookings, w.txs[u]);
      }
  }

  // ----- Every run -----

  /** No transaction has begun, every booking's student is on file, and the bookings are in order. */
  ghost predicate Initial(cfg: Config, w: World) {
    w.txs == map[] && w.locks == map[] && StudentsKnown(w) && Safe(cfg, w.bookings)
  }

  /** The world after a sequence of actions, if each was allowed when its turn came. */
  ghost function Run(cfg: Config, w: World, actions: seq<Action>): Option<World>
    requires cfg.Valid()
  {
    if actions == [] then Some(w) else
      var before := Run(cfg, w, actions[..|actions| - 1]);
      var a := actions[|actions| - 1];
      if before.Some? && Allowed(cfg, before.value, a) then Some(Do(cfg, before.value, a)) else None
  }

  lemma {:induction false} RunKeepsInvariant(cfg: Config, w: World, actions: seq<Action>)
    requires cfg.Valid() && Initial(cfg, w) && Run(cfg, w, actions).Some?
    ensures Invariant(cfg, Run(cfg, w, actions).value)
  {
    hide Do, Allowed;
    if actions != [] {
      hide Invariant, Safe;
      RunKeepsInvariant(cfg, w, actions[..|actions| - 1]);
      ActionKeepsInvariant(cfg, Run(cfg, w, actions[..|actions| - 1]).value, actions[|actions| - 1]);
    }
  }

  /**
   * After any run of any number of interleaved create, reschedule, follow-up and cancel
   * transactions, aborted or not, and of status edits that reactivate nothing.
   */
  lemma {:induction false} EveryRunIsSafe(cfg: Config, w: World, actions: seq<Action>)
    requires cfg.Valid() && Initial(cfg, w) && Run(cfg, w, actions).Some?
    ensures var bs := Run(cfg, w, actions).value.bookings;
      StudentsExclusive(bs) && CoachesExclusive(cfg, bs) && WithinCapacity(cfg, bs) && GroupsConsistent(cfg, bs)
  {
    hide Run;
    RunKeepsInvariant(cfg, w, actions);
  }

  /** After any run with an unfinished transaction, one of them can take its next step. */
  lemma {:induction false} NoRunDeadlocks(cfg: Config, w: World, actions: seq<Action>, t: TxId) returns (u: TxId, ch: Choice)
    requires cfg.Valid() && Initial(cfg, w) && Run(cfg, w, actions).Some?
    requires var now := Run(cfg, w, actions).value; t in now.txs && now.txs[t].Unfinished()
    ensures Allowed(cfg, Run(cfg, w, actions).value, Step(u, ch))
  {
    hide Run;
    RunKeepsInvariant(cfg, w, actions);
    var now := Run(cfg, w, actions).value;
    u := SomeoneCanStep(cfg, now, t);
    ch := EnabledMeansStep(cfg, now, u);
  }
}
