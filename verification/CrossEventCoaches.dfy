/**
 * Coaches booked by two events at once. The session lock does not span events and availability
 * is not checked again once the coach row is locked, so it can happen: exactly when some coach
 * may serve both events.
 */
module CrossEventCoaches {
  import opened Scheduling
  import opened CoachConflicts
  import opened Assignment
  import opened CoachSelection
  import opened BookingProtocol
  import opened BookingLocks
  import opened BookingSafety
  import opened BookingProgress

  // ----- Who may serve an event -----

  /** The settings alone decide who leads. */
  predicate LeadIsPinned(ev: EventConfig) {
    !ev.leadership.SingleCoach? && (ev.leadership.FixedLead? || ev.strategy.DirectStrategy?)
  }

  /** The event's settings let this coach onto a team, as lead or co-host. */
  predicate MayServe(ev: EventConfig, c: CoachId) {
    && !ev.allowAnonymous && InPool(ev, c)
    && (LeadIsPinned(ev) ==>
          var lead := DesignatedLead(ev, None);
          lead.Some? && InPool(ev, lead.value) && (lead == Some(c) || ev.targetCoHosts != Some(0)))
  }

  /** What co-hosts are added to a lead, if any. */
  lemma CoHostsAre(ev: EventConfig, preferred: Option<CoachId>, r: Reads) returns (chosen: seq<Candidate>)
    requires Ranked(ev.pool) && !ev.allowAnonymous && !ev.leadership.SingleCoach?
    requires ResolveSelection(ev, preferred, None, None, r).Selected?
    ensures var s := ResolveSelection(ev, preferred, None, None, r);
      && s.team.lead.Some? && s.team.coHosts == Ids(chosen)
      && (forall x :: x in chosen ==> x in ev.pool && CanCoHost(x, s.team.lead.value, r.available))
      && (ev.targetCoHosts.Some? ==> |chosen| <= ev.targetCoHosts.value)
      && (1 < |ev.pool| && (ev.targetCoHosts.Some? ==> |chosen| < ev.targetCoHosts.value) ==>
            forall x :: x in ev.pool && CanCoHost(x, s.team.lead.value, r.available) ==> x in chosen)
  {
    hide StrategyLead, CursorAfter, ChosenCoHosts;
    StrategyLeadIsAvailable(ev, r);
    var useFixedLead := ev.leadership.FixedLead? || (ev.strategy.DirectStrategy? && ev.fixedLead.Some?);
    var lead := if useFixedLead then FixedLeadOf(ev, r) else StrategyLead(ev, r);
    var from := if lead.cursor.Some? then lead.cursor.value else r.cursor;
    chosen := ChosenCoHosts(ev.pool, lead.team.lead.value, ev.targetCoHosts, from, r.available);
    CoHostScanIsComplete(ev.pool, lead.team.lead.value, ev.targetCoHosts, from, r.available);
  }

  lemma OnlyThoseWhoMayServe(ev: EventConfig, preferred: Option<CoachId>, r: Reads, c: CoachId)
    requires Ranked(ev.pool)
    ensures var s := ResolveSelection(ev, preferred, None, None, r);
      s.Selected? && OnTeam(s.team, c) ==> MayServe(ev, c)
  {
    hide SingleHost, WithCoHosts, InPool;
    var s := ResolveSelection(ev, preferred, None, None, r);
    if !ev.allowAnonymous && s.Selected? && OnTeam(s.team, c) {
      ChosenTeamIsAvailable(ev, preferred, r);
      SelectedIffSomeoneMayLead(ev, preferred, r);
      hide ResolveSelection;
      assert MayLead(ev, preferred, s.team.lead.value, r);
      if LeadIsPinned(ev) && s.team.lead != Some(c) {
        var chosen := CoHostsAre(ev, preferred, r);
        assert |Ids(chosen)| == |chosen|;
      }
    }
  }

  /** With only the coach available, and the lead the settings pin, the coach is on the team. */
  lemma OneWhoMayServeDoes(ev: EventConfig, r: Reads, c: CoachId)
    requires Ranked(ev.pool) && MayServe(ev, c)
    requires forall d :: r.available(d) <==> d == c || (LeadIsPinned(ev) && DesignatedLead(ev, None) == Some(d))
    ensures var s := ResolveSelection(ev, Some(c), None, None, r);
      s.Selected? && OnTeam(s.team, c)
  {
    hide ResolveSelection;
    SelectedIffSomeoneMayLead(ev, Some(c), r);
    var s := ResolveSelection(ev, Some(c), None, None, r);
    if ev.leadership.SingleCoach? {
      assert MayLead(ev, Some(c), c, r);
    } else if LeadIsPinned(ev) {
      var lead := DesignatedLead(ev, None).value;
      assert MayLead(ev, Some(c), lead, r);
      if lead != c {
        var chosen := CoHostsAre(ev, Some(c), r);
        CoHostIsIncluded(ev, lead, c, chosen, r);
      }
    } else {
      assert MayLead(ev, Some(c), c, r);
    }
  }

  lemma CoHostIsIncluded(ev: EventConfig, lead: CoachId, c: CoachId, chosen: seq<Candidate>, r: Reads)
    requires InPool(ev, lead) && InPool(ev, c) && lead != c && ev.targetCoHosts != Some(0)
    requires forall d :: r.available(d) <==> d == c || d == lead
    requires forall x :: x in chosen ==> CanCoHost(x, lead, r.available)
    requires 1 < |ev.pool| && (ev.targetCoHosts.Some? ==> |chosen| < ev.targetCoHosts.value) ==>
      forall x :: x in ev.pool && CanCoHost(x, lead, r.available) ==> x in chosen
    ensures c in Ids(chosen)
  {
    hide Ids;
    var i :| 0 <= i < |ev.pool| && ev.pool[i].id == c;
    var j :| 0 <= j < |ev.pool| && ev.pool[j].id == lead;
    assert CanCoHost(ev.pool[i], lead, r.available) && ev.pool[i] in ev.pool && i != j;
    if chosen == [] {
      assert false;
    }
    assert chosen[0] in chosen && Ids(chosen)[0] == c;
  }

  // ----- Every run keeps to them -----

  ghost predicate TeamsMayServe(cfg: Config, w: World) {
    && (forall i, c | i in w.bookings && SoloEvent(cfg, w.bookings[i].event) && w.bookings[i].Has(c) ::
          MayServe(cfg.events(w.bookings[i].event), c))
    && (forall t, c | t in w.txs && w.txs[t].Past(SelectTeam) && SoloEvent(cfg, w.txs[t].req.event)
                      && OnTeam(w.txs[t].team, c) ::
          MayServe(cfg.events(w.txs[t].req.event), c))
  }

  lemma SelectionMayServe(cfg: Config, w: World, x: Tx, ch: Choice, c: CoachId)
    requires cfg.Valid() && x.phase.SelectTeam? && SoloEvent(cfg, x.req.event)
    ensures var s := SelectionFor(cfg, w, x, ch);
      s.Selected? && OnTeam(s.team, c) ==> MayServe(cfg.events(x.req.event), c)
  {
    hide SingleHost, WithCoHosts, MayServe, ReadsFor;
    var ev, rd := cfg.events(x.req.event), ReadsFor(cfg, w, x.req, ch);
    assert SelectionFor(cfg, w, x, ch) == ResolveSelection(ev, x.req.preferred, None, None, rd);
    OnlyThoseWhoMayServe(ev, x.req.preferred, rd, c);
  }

  lemma CommitKeepsTeams(cfg: Config, w: World, t: TxId)
    requires TeamsMayServe(cfg, w) && t in w.txs && w.txs[t].phase == Commit && TargetFits(w, w.txs[t])
    ensures TeamsMayServe(cfg, CommitTx(cfg, w, t))
  {
    CommitEffect(cfg, w, t);
    hide Written, MayServe, SoloEvent;
    assert forall c :: RowOf(cfg, w.txs[t]).Has(c) <==> OnTeam(w.txs[t].team, c);
  }

  /** A step short of the commit leaves the rows, and the team once it is chosen. */
  lemma MoveKeepsTeams(cfg: Config, w: World, w': World, t: TxId)
    requires TeamsMayServe(cfg, w) && t in w.txs && t in w'.txs && w'.txs == w.txs[t := w'.txs[t]]
    requires w'.bookings == w.bookings && w'.txs[t].req == w.txs[t].req
    requires w.txs[t].Past(SelectTeam) ==> w'.txs[t].team == w.txs[t].team
    requires !w.txs[t].Past(SelectTeam) && w'.txs[t].Past(SelectTeam) && SoloEvent(cfg, w.txs[t].req.event) ==>
      forall c :: OnTeam(w'.txs[t].team, c) ==> MayServe(cfg.events(w.txs[t].req.event), c)
    ensures TeamsMayServe(cfg, w')
  {
    hide MayServe, SoloEvent, OnTeam;
  }

  /** Only the selection step gets past selection, with the team selected. */
  lemma PastSelection(cfg: Config, w: World, t: TxId, ch: Choice)
    requires cfg.Valid() && Allowed(cfg, w, Step(t, ch)) && PhaseFits(w.txs[t]) && !w.txs[t].phase.Commit?
    ensures var x, x' := w.txs[t], Next(cfg, w, t, ch).txs[t];
      !x.Past(SelectTeam) && x'.Past(SelectTeam) ==>
        x.phase.SelectTeam? && SelectionFor(cfg, w, x, ch).Selected? && x'.team == SelectionFor(cfg, w, x, ch).team
  {
    hide SelectionFor, Wants, ChoiceFits;
  }

  lemma StepKeepsTeams(cfg: Config, w: World, t: TxId, ch: Choice)
    requires cfg.Valid() && Invariant(cfg, w) && TeamsMayServe(cfg, w) && Allowed(cfg, w, Step(t, ch))
    ensures TeamsMayServe(cfg, Next(cfg, w, t, ch))
  {
    NextShape(cfg, w, t, ch);
    var x, w' := w.txs[t], Next(cfg, w, t, ch);
    hide Safe, Checked, LocksMatch, MayServe, SoloEvent, Next, SelectionFor, TeamsMayServe, OnTeam, TargetFits;
    if x.phase.Commit? {
      CommitKeepsTeams(cfg, w, t);
    } else {
      PastSelection(cfg, w, t, ch);
      if x.phase.SelectTeam? && SoloEvent(cfg, x.req.event) {
        forall c ensures SelectionFor(cfg, w, x, ch).Selected? && OnTeam(SelectionFor(cfg, w, x, ch).team, c)
                     ==> MayServe(cfg.events(x.req.event), c)
        {
          SelectionMayServe(cfg, w, x, ch, c);
        }
      }
      MoveKeepsTeams(cfg, w, w', t);
    }
  }

  lemma ActionKeepsTeams(cfg: Config, w: World, a: Action)
    requires cfg.Valid() && Invariant(cfg, w) && TeamsMayServe(cfg, w) && Allowed(cfg, w, a)
    ensures TeamsMayServe(cfg, Do(cfg, w, a))
  {
    hide Next, Invariant, MayServe, SoloEvent;
    if a.Step? {
      StepKeepsTeams(cfg, w, a.t, a.choice);
    }
  }

  lemma {:induction false} RunKeepsTeams(cfg: Config, w: World, actions: seq<Action>)
    requires cfg.Valid() && Initial(cfg, w) && TeamsMayServe(cfg, w) && Run(cfg, w, actions).Some?
    ensures TeamsMayServe(cfg, Run(cfg, w, actions).value)
  {
    hide Do, Allowed, TeamsMayServe, Initial, Invariant;
    if actions != [] {
      var prefix := actions[..|actions| - 1];
      RunKeepsTeams(cfg, w, prefix);
      RunKeepsInvariant(cfg, w, prefix);
      ActionKeepsTeams(cfg, Run(cfg, w, prefix).value, actions[|actions| - 1]);
    }
  }

  // ----- A run that books one coach twice -----

  /** The transaction creates a booking and nothing in the world stands in its way. */
  ghost predicate Unopposed(cfg: Config, w: World, t: TxId) {
    && t in w.txs && w.txs[t].req.kind.Create? && SoloEvent(cfg, w.txs[t].req.event)
    && (forall l :: l in w.locks && w.locks[l] != t ==> l.OnEvent? && l.event != w.txs[t].req.event)
    && !StudentClash(w.bookings, w.txs[t].req)
  }

  /** The coach is on its team, or will be once a team is selected. */
  ghost predicate Takes(cfg: Config, w: World, t: TxId, ch: Choice, c: CoachId)
    requires t in w.txs
  {
    var x := w.txs[t];
    var ev := cfg.events(x.req.event);
    if x.Past(SelectTeam) then OnTeam(x.team, c)
    else
      && w.bookings == map[] && ch.seen == None && MayServe(ev, c) && x.req.preferred == Some(c)
      && forall d :: ch.calendar(d) <==> d == c || (LeadIsPinned(ev) && DesignatedLead(ev, None) == Some(d))
  }

  lemma UnopposedMoves(cfg: Config, w: World, t: TxId, ch: Choice, c: CoachId)
    requires cfg.Valid() && Unopposed(cfg, w, t) && Takes(cfg, w, t, ch, c)
    requires w.txs[t].Unfinished() && !w.txs[t].phase.Commit? && !w.txs[t].phase.ReadBooking?
    ensures Enabled(cfg, w, t) && ChoiceFits(cfg, w, w.txs[t], Choice(None, ch.calendar))
    ensures var o := After(cfg, w, w.txs[t], Choice(None, ch.calendar));
      o.Proceed? && (w.txs[t].phase.SelectTeam? ==> OnTeam(o.x.team, c))
  {
    hide MayServe, StudentClash, ReadsFor;
    var x := w.txs[t];
    if x.phase.SelectTeam? {
      FreshSelectionTakes(cfg, w, x, Choice(None, ch.calendar), c);
    }
    hide SelectionFor;
  }

  lemma FreshSelectionTakes(cfg: Config, w: World, x: Tx, ch: Choice, c: CoachId)
    requires cfg.Valid() && SoloEvent(cfg, x.req.event) && w.bookings == map[] && x.req.preferred == Some(c)
    requires var ev := cfg.events(x.req.event);
      && MayServe(ev, c)
      && forall d :: ch.calendar(d) <==> d == c || (LeadIsPinned(ev) && DesignatedLead(ev, None) == Some(d))
    ensures var s := SelectionFor(cfg, w, x, ch);
      s.Selected? && OnTeam(s.team, c)
  {
    var ev, rd := cfg.events(x.req.event), ReadsFor(cfg, w, x.req, ch);
    hide MayServe, SingleHost, WithCoHosts, LeadIsPinned, DesignatedLead;
    assert SelectionFor(cfg, w, x, ch) == ResolveSelection(ev, Some(c), None, None, rd) by {
      assert !ev.allowAnonymous by {
        ServersAreNamed(ev, c);
      }
    }
    assert forall d :: rd.available(d) <==> ch.calendar(d);
    OneWhoMayServeDoes(ev, rd, c);
  }

  lemma ServersAreNamed(ev: EventConfig, c: CoachId)
    ensures MayServe(ev, c) ==> !ev.allowAnonymous
  {
  }

  /** The transaction has got to a rank, with the coach on its team, and nobody else has moved. */
  ghost predicate Driven(cfg: Config, w: World, w': World, t: TxId, c: CoachId, until: nat) {
    && t in w.txs && t in w'.txs && w'.txs == w.txs[t := w'.txs[t]] && w'.txs[t].req == w.txs[t].req
    && until <= Rank(w'.txs[t].phase)
    && (forall l :: l in w'.locks && w'.locks[l] != t ==> l in w.locks && w.locks[l] == w'.locks[l])
    && (w'.txs[t].Past(SelectTeam) ==> OnTeam(w'.txs[t].team, c))
    && if w'.txs[t].Unfinished() then w'.bookings == w.bookings
       else
         && w'.txs[t].phase.Committed? && OnTeam(w'.txs[t].team, c)
         && w'.bookings == w.bookings[w.txs[t].req.id := RowOf(cfg, w'.txs[t])]
         && (forall l :: l in w'.locks ==> w'.locks[l] != t)
  }

  /** The transaction holds no row but its event's. */
  ghost predicate HoldsOnlyEvent(w: World, t: TxId)
    requires t in w.txs
  {
    forall l :: l in w.locks && w.locks[l] == t ==> l == OnEvent(w.txs[t].req.event)
  }

  lemma SelectionTakesNoMoreRows(cfg: Config, w: World, t: TxId, ch: Choice)
    requires cfg.Valid() && Invariant(cfg, w) && Enabled(cfg, w, t) && SoloEvent(cfg, w.txs[t].req.event)
    requires Rank(w.txs[t].phase) < Rank(LockRouting) && HoldsOnlyEvent(w, t)
    ensures t in Next(cfg, w, t, ch).txs && HoldsOnlyEvent(Next(cfg, w, t, ch), t)
  {
    assert Consistent(cfg, w) by {
      InvariantIsConsistent(cfg, w);
    }
    assert PhaseFits(w.txs[t]);
    NextShape(cfg, w, t, ch);
    hide Next, Invariant, Consistent;
  }

  lemma CommitDrives(cfg: Config, w: World, t: TxId, ch: Choice, c: CoachId)
    requires cfg.Valid() && Invariant(cfg, w) && Unopposed(cfg, w, t) && Takes(cfg, w, t, ch, c)
    requires w.txs[t].phase.Commit?
    ensures Enabled(cfg, w, t) && Driven(cfg, w, Next(cfg, w, t, ch), t, c, Rank(Committed))
    ensures !Next(cfg, w, t, ch).txs[t].Unfinished()
  {
    hide Invariant, SoloEvent, StudentClash, MayServe;
  }

  lemma MoveDrives(cfg: Config, w: World, t: TxId, ch: Choice, c: CoachId)
    requires cfg.Valid() && Invariant(cfg, w) && Unopposed(cfg, w, t) && Takes(cfg, w, t, ch, c) && ch.seen == None
    requires w.txs[t].Unfinished() && !w.txs[t].phase.Commit?
    ensures Allowed(cfg, w, Step(t, ch))
    ensures var w' := Next(cfg, w, t, ch);
      && t in w'.txs && w'.txs[t].Unfinished() && Rank(w.txs[t].phase) < Rank(w'.txs[t].phase)
      && Driven(cfg, w, w', t, c, Rank(w'.txs[t].phase))
      && Unopposed(cfg, w', t) && Takes(cfg, w', t, ch, c)
  {
    assert Consistent(cfg, w) by {
      InvariantIsConsistent(cfg, w);
    }
    assert PhaseFits(w.txs[t]);
    assert ch == Choice(None, ch.calendar);
    UnopposedMoves(cfg, w, t, ch, c);
    NextShape(cfg, w, t, ch);
    PastSelection(cfg, w, t, ch);
    NextIsAfter(cfg, w, t, ch);
    hide Invariant, Consistent, Next, After, Unopposed, Takes, SelectionFor, Wants, Rank, OnTeam, PhaseFits;
    MoveKeepsRoom(cfg, w, Next(cfg, w, t, ch), t, ch, c);
  }

  lemma MoveKeepsRoom(cfg: Config, w: World, w': World, t: TxId, ch: Choice, c: CoachId)
    requires Unopposed(cfg, w, t) && Takes(cfg, w, t, ch, c)
    requires t in w'.txs && w'.txs == w.txs[t := w'.txs[t]] && w'.txs[t].req == w.txs[t].req
    requires w'.bookings == w.bookings && w'.txs[t].Unfinished()
    requires forall l :: l in w'.locks && w'.locks[l] != t ==> l in w.locks && w.locks[l] == w'.locks[l]
    requires w.txs[t].Past(SelectTeam) ==> w'.txs[t].team == w.txs[t].team
    requires !w.txs[t].Past(SelectTeam) && w'.txs[t].Past(SelectTeam) ==> OnTeam(w'.txs[t].team, c)
    requires Rank(w.txs[t].phase) < Rank(w'.txs[t].phase)
    ensures Driven(cfg, w, w', t, c, Rank(w'.txs[t].phase))
    ensures Unopposed(cfg, w', t) && Takes(cfg, w', t, ch, c)
  {
    hide SoloEvent, StudentClash, MayServe, OnTeam, LeadIsPinned, DesignatedLead;
  }

  lemma DrivenOn(cfg: Config, w: World, w1: World, w2: World, t: TxId, c: CoachId, k: nat, until: nat)
    requires Driven(cfg, w, w1, t, c, k) && w1.txs[t].Unfinished() && Driven(cfg, w1, w2, t, c, until)
    ensures Driven(cfg, w, w2, t, c, until)
  {
    hide OnTeam, RowOf, Rank;
  }

  lemma DrivenAtLeast(cfg: Config, w: World, w': World, t: TxId, c: CoachId, k: nat, until: nat)
    requires Driven(cfg, w, w', t, c, k) && until <= k
    ensures Driven(cfg, w, w', t, c, until)
  {
  }

  lemma NextIsAfter(cfg: Config, w: World, t: TxId, ch: Choice)
    requires cfg.Valid() && Enabled(cfg, w, t) && !w.txs[t].phase.Commit?
    ensures var o := After(cfg, w, w.txs[t], ch);
      o.Proceed? ==> Next(cfg, w, t, ch).txs[t] == o.x && o.x.phase != RolledBack && o.x.phase != Committed
  {
    hide SelectionFor, Wants, IsFull, StudentClash, MayCancel;
  }

  /** Steps of the one transaction take it to any rank, up to its commit. */
  lemma Drive(cfg: Config, w: World, t: TxId, ch: Choice, c: CoachId, until: nat) returns (more: seq<Action>)
    requires cfg.Valid() && Invariant(cfg, w) && Unopposed(cfg, w, t) && Takes(cfg, w, t, ch, c) && ch.seen == None
    requires w.txs[t].Unfinished() && Rank(w.txs[t].phase) < until <= Rank(Committed)
    ensures Run(cfg, w, more).Some? && Invariant(cfg, Run(cfg, w, more).value)
    ensures var w' := Run(cfg, w, more).value;
      && Driven(cfg, w, w', t, c, until)
      && (until < Rank(Committed) ==> w'.txs[t].Unfinished())
      && (w'.txs[t].Unfinished() ==> Unopposed(cfg, w', t) && Takes(cfg, w', t, ch, c))
      && (until <= Rank(LockRouting) && HoldsOnlyEvent(w, t) ==> HoldsOnlyEvent(w', t))
    decreases Rank(Committed) - Rank(w.txs[t].phase)
  {
    hide SoloEvent, StudentClash, MayServe, RowOf, OnTeam, LeadIsPinned, DesignatedLead, After, Wants, Safe, Checked;
    var a := Step(t, ch);
    if w.txs[t].phase.Commit? {
      CommitDrives(cfg, w, t, ch, c);
      assert ChoiceFits(cfg, w, w.txs[t], ch);
      hide Invariant, Next, Driven, Unopposed, Takes;
      ActionKeepsInvariant(cfg, w, a);
      RunOfOne(cfg, w, a);
      more := [a];
    } else {
      MoveDrives(cfg, w, t, ch, c);
      if until <= Rank(LockRouting) && HoldsOnlyEvent(w, t) {
        SelectionTakesNoMoreRows(cfg, w, t, ch);
      }
      hide Invariant, Next, Unopposed, Takes, Allowed, Driven, Run, Rank, HoldsOnlyEvent;
      ActionKeepsInvariant(cfg, w, a);
      RunOfOne(cfg, w, a);
      var w1 := Next(cfg, w, t, ch);
      if until <= Rank(w1.txs[t].phase) {
        DrivenAtLeast(cfg, w, w1, t, c, Rank(w1.txs[t].phase), until);
        more := [a];
      } else {
        var rest := Drive(cfg, w1, t, ch, c, until);
        RunConcat(cfg, w, [a], rest);
        more := [a] + rest;
        DrivenOn(cfg, w, w1, Run(cfg, w1, rest).value, t, c, Rank(w1.txs[t].phase), until);
      }
    }
  }

  // ----- Exactly when it can happen -----

  const NOTHING_YET := World(map[], {}, map[], map[], map[])

  /** No coach is on overlapping active bookings of both events. */
  ghost predicate NoCoachShared(bs: Bookings, e: EventId, f: EventId) {
    forall i, j, c | i in bs && j in bs && bs[i].event == e && bs[j].event == f
                     && bs[i].status.Active() && bs[j].status.Active()
                     && Overlaps(bs[i].start, bs[i].end, bs[j].start, bs[j].end) ::
      !(bs[i].Has(c) && bs[j].Has(c))
  }

  /** A student asks for the coach, for the first hour of the epoch. */
  function AskFor(id: BookingId, e: EventId, c: CoachId): Request {
    Request(Create, id, e, id, 0, HOUR, Some(c), false, 0)
  }

  /** Only the coach is free, and the lead the settings pin. */
  function JustEnough(ev: EventConfig, c: CoachId): Choice {
    Choice(None, (d: CoachId) => d == c || (LeadIsPinned(ev) && DesignatedLead(ev, None) == Some(d)))
  }

  function BothBegun(e: EventId, f: EventId, c: CoachId): World {
    NOTHING_YET.(txs := map[0 := Started(AskFor(0, e, c)), 1 := Started(AskFor(1, f, c))])
  }

  lemma NothingYetIsInitial(cfg: Config)
    requires cfg.Valid()
    ensures Initial(cfg, NOTHING_YET) && TeamsMayServe(cfg, NOTHING_YET)
  {
    forall e, s ensures Group(map[], e, s) == {} {
    }
  }

  lemma BothBegin(cfg: Config, e: EventId, f: EventId, c: CoachId) returns (actions: seq<Action>)
    requires cfg.Valid() && SoloEvent(cfg, e) && SoloEvent(cfg, f)
    ensures Run(cfg, NOTHING_YET, actions) == Some(BothBegun(e, f, c))
    ensures Invariant(cfg, BothBegun(e, f, c))
  {
    NothingYetIsInitial(cfg);
    var a0, a1 := Begin(0, AskFor(0, e, c)), Begin(1, AskFor(1, f, c));
    RunOfOne(cfg, NOTHING_YET, a0);
    var w1 := Do(cfg, NOTHING_YET, a0);
    RunOfOne(cfg, w1, a1);
    hide Initial, Invariant;
    RunConcat(cfg, NOTHING_YET, [a0], [a1]);
    actions := [a0] + [a1];
    assert Do(cfg, w1, a1) == BothBegun(e, f, c);
    RunKeepsInvariant(cfg, NOTHING_YET, actions);
  }

  lemma BegunIsUnopposed(cfg: Config, e: EventId, f: EventId, c: CoachId)
    requires SoloEvent(cfg, e) && MayServe(cfg.events(e), c)
    ensures var w := BothBegun(e, f, c);
      && Unopposed(cfg, w, 0) && Takes(cfg, w, 0, JustEnough(cfg.events(e), c), c) && HoldsOnlyEvent(w, 0)
      && w.txs[0].Unfinished() && Rank(w.txs[0].phase) == 0
  {
  }

  /** The second finds the first holding its own event's row, and nothing committed. */
  lemma SecondIsUnopposed(cfg: Config, e: EventId, f: EventId, c: CoachId, w: World, k: nat)
    requires SoloEvent(cfg, f) && MayServe(cfg.events(f), c) && e != f
    requires Driven(cfg, BothBegun(e, f, c), w, 0, c, k) && w.txs[0].Unfinished() && HoldsOnlyEvent(w, 0)
    ensures 1 in w.txs && Unopposed(cfg, w, 1) && Takes(cfg, w, 1, JustEnough(cfg.events(f), c), c)
    ensures w.txs[1].Unfinished() && Rank(w.txs[1].phase) == 0
  {
    hide MayServe, OnTeam, RowOf;
    assert w.txs[1] == BothBegun(e, f, c).txs[1];
  }

  /** After the second commits, the first goes on with the team it had selected. */
  lemma FirstIsUnopposed(cfg: Config, e: EventId, f: EventId, c: CoachId, w: World, w': World)
    requires SoloEvent(cfg, e)
    requires Driven(cfg, BothBegun(e, f, c), w, 0, c, Rank(LockRouting)) && w.txs[0].Unfinished()
    requires Driven(cfg, w, w', 1, c, Rank(Committed))
    ensures 0 in w'.txs && Unopposed(cfg, w', 0) && Takes(cfg, w', 0, JustEnough(cfg.events(e), c), c)
    ensures w'.txs[0] == w.txs[0]
  {
    hide MayServe, OnTeam;
    assert w.txs[1] == BothBegun(e, f, c).txs[1];
    assert w'.txs[0] == w.txs[0];
  }

  /** Both events book a coach who may serve both, for the same hour. */
  lemma DoubleBooking(cfg: Config, e: EventId, f: EventId, c: CoachId) returns (actions: seq<Action>)
    requires cfg.Valid() && e != f && SoloEvent(cfg, e) && SoloEvent(cfg, f)
    requires MayServe(cfg.events(e), c) && MayServe(cfg.events(f), c)
    ensures Run(cfg, NOTHING_YET, actions).Some?
    ensures !NoCoachShared(Run(cfg, NOTHING_YET, actions).value.bookings, e, f)
  {
    hide Invariant, Unopposed, Takes, HoldsOnlyEvent, Run, MayServe, SoloEvent, Driven, JustEnough, OnTeam;
    var ch0, ch1 := JustEnough(cfg.events(e), c), JustEnough(cfg.events(f), c);
    SeesNothing(cfg.events(e), c);
    SeesNothing(cfg.events(f), c);
    var w := BothBegun(e, f, c);
    var begun := BothBegin(cfg, e, f, c);
    BegunIsUnopposed(cfg, e, f, c);
    var d0 := Drive(cfg, w, 0, ch0, c, Rank(LockRouting));
    var w1 := Run(cfg, w, d0).value;
    SecondIsUnopposed(cfg, e, f, c, w1, Rank(LockRouting));
    var d1 := Drive(cfg, w1, 1, ch1, c, Rank(Committed));
    var w2 := Run(cfg, w1, d1).value;
    FirstIsUnopposed(cfg, e, f, c, w1, w2);
    var d2 := Drive(cfg, w2, 0, ch0, c, Rank(Committed));
    RunConcat(cfg, NOTHING_YET, begun, d0);
    RunConcat(cfg, NOTHING_YET, begun + d0, d1);
    RunConcat(cfg, NOTHING_YET, begun + d0 + d1, d2);
    actions := begun + d0 + d1 + d2;
    BothBooked(cfg, e, f, c, w1, w2, Run(cfg, w2, d2).value);
  }

  lemma SeesNothing(ev: EventConfig, c: CoachId)
    ensures JustEnough(ev, c).seen == None
  {
  }

  lemma BothBooked(cfg: Config, e: EventId, f: EventId, c: CoachId, w1: World, w2: World, w3: World)
    requires Driven(cfg, BothBegun(e, f, c), w1, 0, c, Rank(LockRouting)) && w1.txs[0].Unfinished()
    requires Driven(cfg, w1, w2, 1, c, Rank(Committed)) && Driven(cfg, w2, w3, 0, c, Rank(Committed))
    ensures !NoCoachShared(w3.bookings, e, f)
  {
    assert w1.txs[1] == BothBegun(e, f, c).txs[1] && w2.txs[0] == w1.txs[0];
    var bs := w3.bookings;
    assert bs[0].event == e && bs[1].event == f && bs[0].Has(c) && bs[1].Has(c);
    assert Overlaps(bs[0].start, bs[0].end, bs[1].start, bs[1].end);
  }

  /**
   * Two single-participant events of free coach choice keep their coaches apart in every run,
   * from an empty database, if and only if no coach may serve both. Disjoint pools are enough.
   */
  lemma EventsShareNoCoachIff(cfg: Config, e: EventId, f: EventId)
    requires cfg.Valid() && e != f && SoloEvent(cfg, e) && SoloEvent(cfg, f)
    ensures (forall actions: seq<Action> :: Run(cfg, NOTHING_YET, actions).Some? ==>
               NoCoachShared(Run(cfg, NOTHING_YET, actions).value.bookings, e, f))
      <==> forall c :: !(MayServe(cfg.events(e), c) && MayServe(cfg.events(f), c))
  {
    hide MayServe, SoloEvent, Run, NoCoachShared;
    if c :| MayServe(cfg.events(e), c) && MayServe(cfg.events(f), c) {
      var actions := DoubleBooking(cfg, e, f, c);
    } else {
      forall actions: seq<Action> | Run(cfg, NOTHING_YET, actions).Some?
        ensures NoCoachShared(Run(cfg, NOTHING_YET, actions).value.bookings, e, f)
      {
        NothingYetIsInitial(cfg);
        RunKeepsTeams(cfg, NOTHING_YET, actions);
        ServersApart(cfg, Run(cfg, NOTHING_YET, actions).value, e, f);
      }
    }
  }

  lemma ServersApart(cfg: Config, w: World, e: EventId, f: EventId)
    requires TeamsMayServe(cfg, w) && SoloEvent(cfg, e) && SoloEvent(cfg, f)
    requires forall c :: !(MayServe(cfg.events(e), c) && MayServe(cfg.events(f), c))
    ensures NoCoachShared(w.bookings, e, f)
  {
    hide MayServe, SoloEvent;
  }

  /** Events with no coach in common are the simplest case. */
  lemma DisjointPoolsShareNoCoach(cfg: Config, e: EventId, f: EventId, actions: seq<Action>)
    requires cfg.Valid() && e != f && SoloEvent(cfg, e) && SoloEvent(cfg, f)
    requires forall c :: !(InPool(cfg.events(e), c) && InPool(cfg.events(f), c))
    requires Run(cfg, NOTHING_YET, actions).Some?
    ensures NoCoachShared(Run(cfg, NOTHING_YET, actions).value.bookings, e, f)
  {
    hide SoloEvent, Run, NoCoachShared, InPool;
    EventsShareNoCoachIff(cfg, e, f);
  }

  // ----- What has to happen in between -----

  /** The action commits a booking of another transaction. */
  predicate BooksBeside(w: World, a: Action, t: TxId) {
    a.Step? && a.t != t && a.t in w.txs && w.txs[a.t].phase.Commit? && !w.txs[a.t].req.kind.Cancel?
  }

  /** At some point of the run another transaction commits a booking. */
  ghost predicate BookedBetween(cfg: Config, w: World, actions: seq<Action>, t: TxId)
    requires cfg.Valid()
  {
    exists n :: 0 <= n < |actions| && BooksAt(cfg, w, actions, t, n)
  }

  ghost predicate BooksAt(cfg: Config, w: World, actions: seq<Action>, t: TxId, n: nat)
    requires cfg.Valid() && n < |actions|
  {
    Run(cfg, w, actions[..n]).Some? && BooksBeside(Run(cfg, w, actions[..n]).value, actions[n], t)
  }

  /** The team was selected and nobody has taken one of its members since. */
  ghost predicate StillFree(w: World, t: TxId) {
    t in w.txs && w.txs[t].Past(SelectTeam) && TeamIsFreeEverywhere(w.bookings, w.txs[t])
  }

  lemma ReachableFits(cfg: Config, w: World, t: TxId)
    ensures Invariant(cfg, w) && t in w.txs ==> PhaseFits(w.txs[t]) && TargetFits(w, w.txs[t])
  {
  }

  /** Other rows come in only by a commit; the rest only lose standing. */
  lemma NoBookingWeakens(cfg: Config, w: World, a: Action, t: TxId)
    requires cfg.Valid() && Invariant(cfg, w) && Allowed(cfg, w, a) && StillFree(w, t) && !BooksBeside(w, a, t)
    ensures t in Do(cfg, w, a).txs
    ensures Do(cfg, w, a).txs[t].Unfinished() ==>
      && Weakened(w.bookings, Do(cfg, w, a).bookings)
      && Do(cfg, w, a).txs[t].req == w.txs[t].req && Do(cfg, w, a).txs[t].team == w.txs[t].team
      && Do(cfg, w, a).txs[t].Past(SelectTeam)
  {
    hide Invariant, TeamIsFreeEverywhere, TargetFits, PhaseFits, Next;
    if a.Step? {
      ReachableFits(cfg, w, a.t);
      NextShape(cfg, w, a.t, a.choice);
      if w.txs[a.t].phase.Commit? {
        CommitWeakens(cfg, w, a.t);
      }
    }
  }

  lemma CommitWeakens(cfg: Config, w: World, t: TxId)
    requires t in w.txs && w.txs[t].phase == Commit && TargetFits(w, w.txs[t])
    ensures w.txs[t].req.kind.Cancel? ==> Weakened(w.bookings, CommitTx(cfg, w, t).bookings)
  {
    CommitEffect(cfg, w, t);
  }

  lemma WeakenedStaysFree(bs: Bookings, bs': Bookings, x: Tx, x': Tx)
    requires Weakened(bs, bs') && x'.req == x.req && x'.team == x.team && TeamIsFreeEverywhere(bs, x)
    ensures TeamIsFreeEverywhere(bs', x')
  {
    hide OnTeam, Overlaps;
  }

  lemma {:induction false} FreeUntilBooked(cfg: Config, w: World, actions: seq<Action>, t: TxId)
    requires cfg.Valid() && Invariant(cfg, w) && StillFree(w, t) && Run(cfg, w, actions).Some?
    requires !BookedBetween(cfg, w, actions, t)
    ensures Invariant(cfg, Run(cfg, w, actions).value)
    ensures var w' := Run(cfg, w, actions).value;
      t in w'.txs && (w'.txs[t].Unfinished() ==> StillFree(w', t))
  {
    hide Do, Allowed, Invariant, StillFree, BooksBeside;
    if actions != [] {
      var prefix, a := actions[..|actions| - 1], actions[|actions| - 1];
      forall n | 0 <= n < |prefix| ensures !BooksAt(cfg, w, prefix, t, n) {
        assert prefix[..n] == actions[..n] && !BooksAt(cfg, w, actions, t, n);
      }
      FreeUntilBooked(cfg, w, prefix, t);
      var before := Run(cfg, w, prefix).value;
      assert !BooksAt(cfg, w, actions, t, |prefix|);
      ActionKeepsInvariant(cfg, before, a);
      FreeOneMore(cfg, before, a, t);
    } else {
      StillThere(w, t);
    }
  }

  lemma StillThere(w: World, t: TxId)
    ensures StillFree(w, t) ==> t in w.txs
  {
  }

  lemma FreeOneMore(cfg: Config, w: World, a: Action, t: TxId)
    requires cfg.Valid() && Invariant(cfg, w) && Allowed(cfg, w, a) && !BooksBeside(w, a, t) && t in w.txs
    requires w.txs[t].Unfinished() ==> StillFree(w, t)
    ensures var w' := Do(cfg, w, a);
      t in w'.txs && (w'.txs[t].Unfinished() ==> StillFree(w', t))
  {
    if w.txs[t].Unfinished() {
      NoBookingWeakens(cfg, w, a, t);
      hide Invariant, Do, TeamIsFreeEverywhere, Allowed;
      var w' := Do(cfg, w, a);
      if w'.txs[t].Unfinished() {
        WeakenedStaysFree(w.bookings, w'.bookings, w.txs[t], w'.txs[t]);
      }
    } else {
      FinishedStaysFinished(cfg, w, a, t);
    }
  }

  lemma FinishedStaysFinished(cfg: Config, w: World, a: Action, t: TxId)
    requires cfg.Valid() && Invariant(cfg, w) && Allowed(cfg, w, a) && t in w.txs && !w.txs[t].Unfinished()
    ensures t in Do(cfg, w, a).txs && !Do(cfg, w, a).txs[t].Unfinished()
  {
    hide Invariant, TargetFits, PhaseFits, Next;
    if a.Step? {
      ReachableFits(cfg, w, a.t);
      NextShape(cfg, w, a.t, a.choice);
    }
  }

  /**
   * Selection itself leaves out everyone who is busy anywhere. So if a member of the selected
   * team is on an overlapping active booking, of whatever event, before the transaction ends,
   * another transaction has committed a booking since the selection.
   */
  lemma SharedOnlyIfBookedBetween(cfg: Config, w: World, t: TxId, ch: Choice, actions: seq<Action>)
    requires cfg.Valid() && Invariant(cfg, w) && Allowed(cfg, w, Step(t, ch))
    requires w.txs[t].phase.SelectTeam? && SoloEvent(cfg, w.txs[t].req.event)
    requires Run(cfg, Next(cfg, w, t, ch), actions).Some?
    requires var w' := Run(cfg, Next(cfg, w, t, ch), actions).value;
      t in w'.txs && w'.txs[t].Unfinished() && !TeamIsFreeEverywhere(w'.bookings, w'.txs[t])
    ensures BookedBetween(cfg, Next(cfg, w, t, ch), actions, t)
  {
    hide BookedBetween, Run, Invariant, Next, TeamIsFreeEverywhere;
    var w1 := Next(cfg, w, t, ch);
    if !BookedBetween(cfg, w1, actions, t) {
      StepKeepsInvariant(cfg, w, t, ch);
      SelectedIsFree(cfg, w, t, ch);
      if w1.txs[t].Unfinished() {
        FreeUntilBooked(cfg, w1, actions, t);
      } else {
        FinishedForGood(cfg, w1, actions, t);
      }
    }
  }

  lemma {:induction false} FinishedForGood(cfg: Config, w: World, actions: seq<Action>, t: TxId)
    requires cfg.Valid() && Invariant(cfg, w) && t in w.txs && !w.txs[t].Unfinished() && Run(cfg, w, actions).Some?
    ensures Invariant(cfg, Run(cfg, w, actions).value)
    ensures var w' := Run(cfg, w, actions).value; t in w'.txs && !w'.txs[t].Unfinished()
  {
    hide Do, Allowed, Invariant;
    if actions != [] {
      var prefix, a := actions[..|actions| - 1], actions[|actions| - 1];
      FinishedForGood(cfg, w, prefix, t);
      ActionKeepsInvariant(cfg, Run(cfg, w, prefix).value, a);
      FinishedStaysFinished(cfg, Run(cfg, w, prefix).value, a, t);
    }
  }

  lemma SelectedIsFree(cfg: Config, w: World, t: TxId, ch: Choice)
    requires cfg.Valid() && Invariant(cfg, w) && Allowed(cfg, w, Step(t, ch))
    requires w.txs[t].phase.SelectTeam? && SoloEvent(cfg, w.txs[t].req.event)
    ensures var w' := Next(cfg, w, t, ch);
      t in w'.txs && (w'.txs[t].Unfinished() ==> StillFree(w', t))
  {
    hide Invariant, SelectionFor, TeamIsFreeEverywhere, TargetFits, SoloEvent, Next;
    var x, w' := w.txs[t], Next(cfg, w, t, ch);
    ReachableFits(cfg, w, t);
    NextShape(cfg, w, t, ch);
    PastSelection(cfg, w, t, ch);
    if w'.txs[t].Unfinished() {
      SelectionIsFree(cfg, w, x, ch);
      SameTeamIsFree(w.bookings, x.(team := SelectionFor(cfg, w, x, ch).team), w'.txs[t]);
    }
  }

  lemma SameTeamIsFree(bs: Bookings, x: Tx, x': Tx)
    requires x'.req == x.req && x'.team == x.team && TeamIsFreeEverywhere(bs, x)
    ensures TeamIsFreeEverywhere(bs, x')
  {
  }
}
