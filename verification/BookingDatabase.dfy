/** The tables, the lock table and the transactions in progress, updated in place one step at a time. */
module BookingDatabase {
  import opened Scheduling
  import opened Assignment
  import opened CoachSelection
  import opened BookingProtocol
  import opened BookingLocks
  import opened BookingSafety

  datatype StepResult = Moved | Waiting | Failed | Done

  class Database {
    const cfg: Config
    var bookings: Bookings
    var students: set<Email>
    var cursors: map<EventId, int>
    var locks: map<Lock, TxId>
    var txs: map<TxId, Tx>

    function View(): World
      reads this
    {
      World(bookings, students, cursors, locks, txs)
    }

    ghost predicate Valid()
      reads this
    {
      cfg.Valid() && Invariant(cfg, View())
    }

    constructor (cfg: Config)
      requires cfg.Valid()
      ensures this.cfg == cfg && Valid()
      ensures View() == World(map[], {}, map[], map[], map[])
    {
      this.cfg := cfg;
      bookings, students, cursors, locks, txs := map[], {}, map[], map[], map[];
      new;
      forall e, s ensures Group(map[], e, s) == {} {
      }
    }

    // ----- Reads and row locks -----

    method FindSession(e: EventId, start: Instant) returns (seen: Option<Team>)
      ensures ReadsSession(bookings, e, start, seen)
    {
      if i :| i in bookings && InGroup(bookings[i], e, start) {
        return Some(TeamOf(bookings[i]));
      }
      return None;
    }

    /** SELECT ... FOR UPDATE: granted when the row is free or already locked by the transaction. */
    method LockRow(t: TxId, l: Lock) returns (granted: bool)
      modifies this`locks
      ensures granted == CanLock(old(View()), t, l)
      ensures locks == if granted then old(locks)[l := t] else old(locks)
    {
      granted := l !in locks || locks[l] == t;
      if granted {
        locks := locks[l := t];
      }
    }

    // ----- Ends of a transaction -----

    method RollbackTransaction(t: TxId)
      requires Valid() && t in txs && txs[t].Unfinished()
      modifies this`locks, this`txs
      ensures Valid() && View() == Rollback(old(View()), t)
    {
      ghost var before := View();
      locks := Release(locks, t);
      txs := txs[t := txs[t].(phase := RolledBack)];
      ActionKeepsInvariant(cfg, before, Abort(t));
    }

    /** Inserts the new booking, or updates the stored one field by field. */
    method WriteBooking(x: Tx)
      modifies this`bookings
      ensures bookings == Written(cfg, old(bookings), x)
    {
      var id := x.req.id;
      if x.req.kind.Inserts() {
        bookings := bookings[id := RowOf(cfg, x)];
      } else if id in bookings {
        var row := bookings[id];
        if x.req.kind.Cancel? {
          row := row.(status := Cancelled);
        } else {
          row := row.(start := x.req.start, end := x.req.end, status := Confirmed);
          row := row.(coach := x.team.lead, coHosts := x.team.coHosts);
          row := row.(slot := cfg.slotAt(x.req.event, x.req.start));
        }
        bookings := bookings[id := row];
      }
    }

    method CommitTransaction(t: TxId)
      requires t in txs
      modifies this
      ensures View() == CommitTx(cfg, old(View()), t)
    {
      var x := txs[t];
      WriteBooking(x);
      if x.req.kind.Inserts() {
        students := students + {x.req.email};
      }
      if x.cursor.Some? {
        cursors := cursors[x.req.event := x.cursor.value];
      }
      locks := Release(locks, t);
      txs := txs[t := x.(phase := Committed)];
    }

    // ----- Transactions -----

    method BeginTransaction(t: TxId, r: Request)
      requires Valid() && MayBegin(cfg, View(), t, r)
      modifies this`txs
      ensures Valid() && View() == Do(cfg, old(View()), Begin(t, r))
    {
      ghost var before := View();
      txs := txs[t := Started(r)];
      ActionKeepsInvariant(cfg, before, Begin(t, r));
    }

    /** Counts sessions, reads the cursor and who can be offered, and resolves the team. */
    method SelectFor(x: Tx, ch: Choice) returns (outcome: Outcome)
      requires x.phase.SelectTeam? && forall c :: c in cfg.events(x.req.event).pool ==> 0 < c.order
      ensures outcome == After(cfg, View(), x, ch)
    {
      var r := x.req;
      var selection := ResolveTeam(cfg.events(r.event), r.preferred, x.seen, cfg.AssignedCoach(r.event, r.start),
                                   BookingLoads(cfg, bookings, r.event), cfg.slotLoads(cfg.teamOf(r.event)),
                                   StoredCursor(cursors, r.event), Offered(cfg, View(), r, ch));
      match selection
      case Refused(_) => return Fail;
      case Selected(team, cursor) =>
        var next := if cursor.Some? then LockRouting else LockCoach;
        return Proceed(x.(phase := next, team := team, cursor := cursor));
    }

    /**
     * Runs one step of a transaction: waits if the row it needs is locked by another, else
     * takes the lock, makes its read or check, and goes on, fails or commits. The bookings
     * stay in order whatever the other transactions have done in between.
     */
    method Advance(t: TxId, calendar: CoachId -> bool)
      returns (result: StepResult, ghost ch: Choice)
      requires Valid() && t in txs && txs[t].Unfinished()
      modifies this
      ensures Valid()
      ensures result.Waiting? <==> !old(Enabled(cfg, View(), t))
      ensures result.Waiting? ==> View() == old(View())
      ensures !result.Waiting? ==>
        old(Enabled(cfg, View(), t)) && ChoiceFits(cfg, old(View()), old(txs[t]), ch)
        && View() == Next(cfg, old(View()), t, ch)
      ensures result.Done? <==> !result.Waiting? && txs[t].phase.Committed?
      ensures result.Failed? <==> !result.Waiting? && txs[t].phase.RolledBack?
    {
      hide Invariant, Next;
      ghost var before := View();
      var x := txs[t];
      var seen := None;
      if x.phase.ReadSession? && cfg.events(x.req.event).interaction.MultipleParticipants() {
        seen := FindSession(x.req.event, x.req.start);
      }
      var choice := Choice(seen, calendar);
      ch := choice;
      var wanted := Wants(cfg, View(), x);
      if wanted.Some? {
        if !CanLock(View(), t, wanted.value) {
          return Waiting, ch;
        }
      }
      AdvanceFacts(cfg, before, t, ch);
      if x.phase.Commit? {
        CommitTransaction(t);
        return Done, ch;
      }
      var outcome;
      if x.phase.SelectTeam? {
        outcome := SelectFor(x, choice);
      } else {
        outcome := After(cfg, View(), x, choice);
      }
      if outcome.Fail? {
        RollbackTransaction(t);
        return Failed, ch;
      }
      if wanted.Some? {
        var granted := LockRow(t, wanted.value);
      }
      txs := txs[t := outcome.x];
      result := Moved;
    }
  }

  lemma AdvanceFacts(cfg: Config, w: World, t: TxId, ch: Choice)
    requires cfg.Valid() && Invariant(cfg, w) && Enabled(cfg, w, t)
    ensures var x := w.txs[t];
      && (forall c :: c in cfg.events(x.req.event).pool ==> 0 < c.order)
      && (ChoiceFits(cfg, w, x, ch) ==> Invariant(cfg, Next(cfg, w, t, ch)))
      && (x.phase.Commit? ==> Next(cfg, w, t, ch) == CommitTx(cfg, w, t))
      && (!x.phase.Commit? ==>
            match After(cfg, w, x, ch)
            case Fail => Next(cfg, w, t, ch) == Rollback(w, t)
            case Proceed(x') =>
              var wanted := Wants(cfg, w, x);
              && x'.Unfinished()
              && Next(cfg, w, t, ch)
                 == w.(locks := if wanted.Some? then w.locks[wanted.value := t] else w.locks, txs := w.txs[t := x']))
  {
    hide Safe, Checked;
    if ChoiceFits(cfg, w, w.txs[t], ch) {
      StepKeepsInvariant(cfg, w, t, ch);
    }
    if !w.txs[t].phase.Commit? {
      AfterShape(cfg, w, w.txs[t], ch);
    }
  }
}
