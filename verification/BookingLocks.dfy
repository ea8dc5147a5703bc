/** Lock ownership over all interleavings, and why transactions cannot wait for each other forever. */
module BookingLocks {
  import opened Scheduling
  import opened CoachSelection
  import opened BookingProtocol

  /** The locks a transaction holds, read off its phase. */
  predicate Holds(cfg: Config, x: Tx, l: Lock) {
    match l
    case OnSlot(_) => x.Past(LockSession) && l == SessionLock(cfg, x.req)
    case OnEvent(_) => x.Past(LockSession) && l == SessionLock(cfg, x.req)
    case OnRouting(e) => x.Past(LockRouting) && x.cursor.Some? && e == x.req.event
    case OnCoach(c) => x.Past(LockCoach) && x.team.lead == Some(c)
    case OnStudent(m) =>
      m == x.req.email && (x.Past(LockStudent) || (x.Past(UpsertStudent) && x.req.kind.Inserts()))
    case OnBooking(i) => x.phase.Commit? && !x.req.kind.Inserts() && i == x.req.id
  }

  predicate Owns(w: World, t: TxId, l: Lock) {
    l in w.locks && w.locks[l] == t
  }

  ghost predicate LocksMatch(cfg: Config, w: World) {
    forall t, l :: Owns(w, t, l) <==> t in w.txs && Holds(cfg, w.txs[t], l)
  }

  /** Cancellations and bookings go through their own phases; nothing is chosen before selection. */
  predicate PhaseFits(x: Tx) {
    && (x.Unfinished() && x.req.kind.Cancel? ==> Rank(x.phase) >= Rank(ReadBooking))
    && (x.phase.ReadBooking? ==> x.req.kind.Cancel?)
    && (x.phase.LockRouting? ==> x.cursor.Some?)
    && (x.phase.UpsertStudent? ==> x.req.kind.Inserts())
    && (x.Past(LockCoach) && x.req.kind.FollowUp? ==> x.team.lead.Some?)
    && (!x.Past(SelectTeam) && x.Unfinished() ==> x.team == Team(None, []) && x.cursor == None)
  }

  /** The rows a transaction relies on are as it found them when it began. */
  predicate TargetFits(w: World, x: Tx) {
    x.Unfinished() ==>
      && (x.req.kind.Inserts() ==> x.req.id !in w.bookings)
      && (x.req.kind.Reschedule? ==>
            && x.req.id in w.bookings
            && w.bookings[x.req.id].email == x.req.email && w.bookings[x.req.id].event == x.req.event)
      && (x.req.kind.Cancel? && !x.phase.ReadBooking? ==> x.req.id in w.bookings)
  }

  ghost predicate StudentsKnown(w: World) {
    forall i :: i in w.bookings ==> w.bookings[i].email in w.students
  }

  ghost predicate IdsDistinct(w: World) {
    forall t, u :: t in w.txs && u in w.txs && t != u && w.txs[t].req.kind.Inserts() && w.txs[u].req.kind.Inserts() ==>
      w.txs[t].req.id != w.txs[u].req.id
  }

  ghost predicate Consistent(cfg: Config, w: World) {
    && LocksMatch(cfg, w) && StudentsKnown(w) && IdsDistinct(w)
    && forall t :: t in w.txs ==> PhaseFits(w.txs[t]) && TargetFits(w, w.txs[t])
  }

  // ----- One step -----

  /** A step moves its own transaction forward. */
  lemma AfterShape(cfg: Config, w: World, x: Tx, ch: Choice)
    requires cfg.Valid() && x.Unfinished() && !x.phase.Commit? && PhaseFits(x) && TargetFits(w, x)
    ensures var o := After(cfg, w, x, ch);
      o.Proceed? ==>
        && o.x.Unfinished() && o.x.req == x.req && PhaseFits(o.x) && TargetFits(w, o.x)
        && Rank(x.phase) < Rank(o.x.phase) && (x.Past(SelectTeam) ==> o.x.team == x.team)
  {
    hide SelectionFor, IsFull, StudentClash;
  }

  /** The locks it holds are those of before and the one it wanted. */
  lemma AfterHolds(cfg: Config, w: World, x: Tx, ch: Choice, l: Lock)
    requires cfg.Valid() && x.Unfinished() && !x.phase.Commit? && PhaseFits(x) && TargetFits(w, x) && StudentsKnown(w)
    requires After(cfg, w, x, ch).Proceed?
    ensures Holds(cfg, After(cfg, w, x, ch).x, l) <==> Holds(cfg, x, l) || Wants(cfg, w, x) == Some(l)
  {
    if l.OnStudent? || l.OnBooking? {
      AfterHoldsLate(cfg, w, x, ch, l);
    } else {
      AfterHoldsEarly(cfg, w, x, ch, l);
    }
  }

  lemma AfterHoldsEarly(cfg: Config, w: World, x: Tx, ch: Choice, l: Lock)
    requires cfg.Valid() && x.Unfinished() && !x.phase.Commit? && PhaseFits(x)
    requires After(cfg, w, x, ch).Proceed? && !l.OnStudent? && !l.OnBooking?
    ensures Holds(cfg, After(cfg, w, x, ch).x, l) <==> Holds(cfg, x, l) || Wants(cfg, w, x) == Some(l)
  {
    hide SelectionFor, IsFull, StudentClash, MayCancel;
    var x' := After(cfg, w, x, ch).x;
    match l
    case OnSlot(_) =>
    case OnEvent(_) =>
    case OnRouting(_) =>
    case OnCoach(_) =>
  }

  lemma AfterHoldsLate(cfg: Config, w: World, x: Tx, ch: Choice, l: Lock)
    requires cfg.Valid() && x.Unfinished() && !x.phase.Commit? && PhaseFits(x) && TargetFits(w, x) && StudentsKnown(w)
    requires After(cfg, w, x, ch).Proceed? && (l.OnStudent? || l.OnBooking?)
    ensures Holds(cfg, After(cfg, w, x, ch).x, l) <==> Holds(cfg, x, l) || Wants(cfg, w, x) == Some(l)
  {
    hide SelectionFor, IsFull, StudentClash, MayCancel;
    var x' := After(cfg, w, x, ch).x;
    match l
    case OnStudent(_) =>
    case OnBooking(_) =>
  }

  lemma NextShape(cfg: Config, w: World, t: TxId, ch: Choice)
    requires cfg.Valid() && Enabled(cfg, w, t) && PhaseFits(w.txs[t]) && TargetFits(w, w.txs[t])
    ensures var x, w' := w.txs[t], Next(cfg, w, t, ch);
      && t in w'.txs && w'.txs == w.txs[t := w'.txs[t]]
      && w'.txs[t].req == x.req && PhaseFits(w'.txs[t])
      && Rank(x.phase) < Rank(w'.txs[t].phase)
      && (x.phase != Commit ==>
            w'.bookings == w.bookings && w'.students == w.students && TargetFits(w', w'.txs[t]))
      && (x.phase == Commit ==> w' == CommitTx(cfg, w, t))
      && (x.Past(SelectTeam) ==> w'.txs[t].team == x.team)
      && (!w'.txs[t].Unfinished() ==> w'.locks == Release(w.locks, t))
      && (w'.txs[t].Unfinished() ==>
            w'.locks == if Wants(cfg, w, x).Some? then w.locks[Wants(cfg, w, x).value := t] else w.locks)
  {
    hide After, Written, Wants;
    if !w.txs[t].phase.Commit? {
      AfterShape(cfg, w, w.txs[t], ch);
    }
  }

  lemma NextHolds(cfg: Config, w: World, t: TxId, ch: Choice, l: Lock)
    requires cfg.Valid() && StudentsKnown(w)
    requires Enabled(cfg, w, t) && PhaseFits(w.txs[t]) && TargetFits(w, w.txs[t])
    requires Next(cfg, w, t, ch).txs[t].Unfinished()
    ensures Holds(cfg, Next(cfg, w, t, ch).txs[t], l)
      <==> Holds(cfg, w.txs[t], l) || Wants(cfg, w, w.txs[t]) == Some(l)
  {
    hide After, Wants, Holds, Written, StudentsKnown;
    AfterHolds(cfg, w, w.txs[t], ch, l);
  }

  lemma LocksFollow(cfg: Config, w: World, t: TxId, w': World, wanted: Option<Lock>)
    requires LocksMatch(cfg, w) && t in w.txs && t in w'.txs && w'.txs == w.txs[t := w'.txs[t]]
    requires wanted.Some? ==> CanLock(w, t, wanted.value)
    requires !w'.txs[t].Unfinished() ==> w'.locks == Release(w.locks, t)
    requires w'.txs[t].Unfinished() ==>
      && w'.locks == (if wanted.Some? then w.locks[wanted.value := t] else w.locks)
      && forall l :: Holds(cfg, w'.txs[t], l) <==> Holds(cfg, w.txs[t], l) || wanted == Some(l)
    ensures LocksMatch(cfg, w')
  {
    hide Holds;
    forall u, l ensures Owns(w', u, l) <==> u in w'.txs && Holds(cfg, w'.txs[u], l) {
      assert Owns(w, u, l) <==> u in w.txs && Holds(cfg, w.txs[u], l);
      FinishedHoldsNothing(cfg, w'.txs[t], l);
    }
  }

  lemma FinishedHoldsNothing(cfg: Config, x: Tx, l: Lock)
    ensures !x.Unfinished() ==> !Holds(cfg, x, l)
  {
  }

  /** A committed row keeps the email and event a pending reschedule of it relies on. */
  lemma CommitKeepsTargets(cfg: Config, w: World, t: TxId, u: TxId)
    requires Consistent(cfg, w) && t in w.txs && w.txs[t].phase == Commit && u in w.txs && u != t
    ensures TargetFits(CommitTx(cfg, w, t), w.txs[u])
  {
    hide LocksMatch;
    assert TargetFits(w, w.txs[t]) && TargetFits(w, w.txs[u]);
  }

  lemma CommitKeepsStudents(cfg: Config, w: World, t: TxId)
    requires StudentsKnown(w) && t in w.txs && w.txs[t].phase == Commit && TargetFits(w, w.txs[t])
    ensures StudentsKnown(CommitTx(cfg, w, t))
  {
  }

  lemma StepKeepsConsistent(cfg: Config, w: World, t: TxId, ch: Choice)
    requires cfg.Valid() && Consistent(cfg, w) && Enabled(cfg, w, t)
    ensures Consistent(cfg, Next(cfg, w, t, ch))
  {
    hide Next, Holds, LocksMatch, TargetFits, PhaseFits, CommitTx, StudentsKnown;
    assert TargetFits(w, w.txs[t]) && PhaseFits(w.txs[t]);
    NextShape(cfg, w, t, ch);
    var w' := Next(cfg, w, t, ch);
    if w'.txs[t].Unfinished() {
      forall l ensures Holds(cfg, w'.txs[t], l) <==> Holds(cfg, w.txs[t], l) || Wants(cfg, w, w.txs[t]) == Some(l) {
        NextHolds(cfg, w, t, ch, l);
      }
    }
    LocksFollow(cfg, w, t, w', Wants(cfg, w, w.txs[t]));
    if w.txs[t].phase == Commit {
      CommitKeepsStudents(cfg, w, t);
      forall u | u in w'.txs ensures PhaseFits(w'.txs[u]) && TargetFits(w', w'.txs[u]) {
        assert PhaseFits(w.txs[u]);
        if u != t {
          CommitKeepsTargets(cfg, w, t, u);
        } else {
          FinishedFits(w', w'.txs[t]);
        }
      }
    } else {
      SameRowsSameStudents(w, w');
      forall u | u in w'.txs && u != t ensures PhaseFits(w'.txs[u]) && TargetFits(w', w'.txs[u]) {
        assert PhaseFits(w.txs[u]) && TargetFits(w, w.txs[u]);
        SameRowsSameTarget(w, w', w.txs[u]);
      }
    }
  }

  lemma FinishedFits(w: World, x: Tx)
    ensures !x.Unfinished() ==> TargetFits(w, x)
  {
  }

  lemma SameRowsSameTarget(w: World, w': World, x: Tx)
    ensures w'.bookings == w.bookings && TargetFits(w, x) ==> TargetFits(w', x)
  {
  }

  lemma SameRowsSameStudents(w: World, w': World)
    ensures w'.bookings == w.bookings && w'.students == w.students && StudentsKnown(w) ==> StudentsKnown(w')
  {
  }

  lemma RollbackKeepsConsistent(cfg: Config, w: World, t: TxId)
    requires Consistent(cfg, w) && t in w.txs && w.txs[t].Unfinished()
    ensures Consistent(cfg, Rollback(w, t))
  {
    hide Holds;
    LocksFollow(cfg, w, t, Rollback(w, t), None);
    hide LocksMatch;
  }

  lemma BeginKeepsConsistent(cfg: Config, w: World, t: TxId, r: Request)
    requires Consistent(cfg, w) && MayBegin(cfg, w, t, r)
    ensures Consistent(cfg, w.(txs := w.txs[t := Started(r)]))
  {
    var w' := w.(txs := w.txs[t := Started(r)]);
    forall u, l ensures Owns(w', u, l) <==> u in w'.txs && Holds(cfg, w'.txs[u], l) {
      assert Owns(w, u, l) <==> u in w.txs && Holds(cfg, w.txs[u], l);
    }
  }

  lemma PatchKeepsConsistent(cfg: Config, w: World, id: BookingId, status: BookingStatus)
    requires Consistent(cfg, w) && MayPatch(w, id, status)
    ensures Consistent(cfg, w.(bookings := w.bookings[id := w.bookings[id].(status := status)]))
  {
    hide Holds;
    var w' := w.(bookings := w.bookings[id := w.bookings[id].(status := status)]);
    forall u, l ensures Owns(w', u, l) <==> u in w'.txs && Holds(cfg, w'.txs[u], l) {
      assert Owns(w, u, l) <==> u in w.txs && Holds(cfg, w.txs[u], l);
    }
    forall u | u in w'.txs ensures TargetFits(w', w'.txs[u]) {
      assert TargetFits(w, w.txs[u]);
    }
  }

  lemma ActionKeepsConsistent(cfg: Config, w: World, a: Action)
    requires cfg.Valid() && Consistent(cfg, w) && Allowed(cfg, w, a)
    ensures Consistent(cfg, Do(cfg, w, a))
  {
    hide Consistent, Next;
    match a
    case Begin(t, r) => BeginKeepsConsistent(cfg, w, t, r);
    case Step(t, ch) => StepKeepsConsistent(cfg, w, t, ch);
    case Abort(t) => RollbackKeepsConsistent(cfg, w, t);
    case Patch(id, status) => PatchKeepsConsistent(cfg, w, id, status);
  }

  // ----- Deadlock freedom -----

  /** A lock is only ever asked for after locks of lower classes, or when it is already held. */
  lemma LocksAreTakenInClassOrder(cfg: Config, w: World, x: Tx, l: Lock)
    requires PhaseFits(x) && Wants(cfg, w, x).Some? && Holds(cfg, x, l)
    ensures l == Wants(cfg, w, x).value || LockClass(l) < LockClass(Wants(cfg, w, x).value)
  {
  }

  function WaitClass(cfg: Config, w: World, t: TxId): nat
    requires t in w.txs
  {
    var wanted := Wants(cfg, w, w.txs[t]);
    if wanted.Some? then LockClass(wanted.value) else 5
  }

  lemma WaitClassBound(cfg: Config, w: World, t: TxId)
    requires t in w.txs
    ensures WaitClass(cfg, w, t) <= 5
  {
  }

  /** Following the wait-for chain from any unfinished transaction leads to one that can step. */
  lemma SomeoneCanStep(cfg: Config, w: World, t: TxId) returns (u: TxId)
    requires Consistent(cfg, w) && t in w.txs && w.txs[t].Unfinished()
    ensures Enabled(cfg, w, u)
    decreases 5 - WaitClass(cfg, w, t)
  {
    hide Holds, LockClass;
    if Enabled(cfg, w, t) {
      u := t;
    } else {
      var l := Wants(cfg, w, w.txs[t]).value;
      var holder := w.locks[l];
      assert Owns(w, holder, l);
      FinishedHoldsNothing(cfg, w.txs[holder], l);
      WaitClassBound(cfg, w, holder);
      if Enabled(cfg, w, holder) {
        u := holder;
      } else {
        LocksAreTakenInClassOrder(cfg, w, w.txs[holder], l);
        u := SomeoneCanStep(cfg, w, holder);
      }
    }
  }

  /** An enabled transaction has a step: the reads it makes always have an answer. */
  lemma EnabledMeansStep(cfg: Config, w: World, t: TxId) returns (ch: Choice)
    requires Enabled(cfg, w, t)
    ensures Allowed(cfg, w, Step(t, ch))
  {
    var r := w.txs[t].req;
    ch := Choice(None, (c: CoachId) => false);
    if cfg.events(r.event).interaction.MultipleParticipants() && !ReadsSession(w.bookings, r.event, r.start, None) {
      var i :| i in w.bookings && InGroup(w.bookings[i], r.event, r.start);
      ch := ch.(seen := Some(TeamOf(w.bookings[i])));
    }
  }
}
