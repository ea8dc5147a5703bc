/** Who runs a session: the decision tree over anonymity, group reuse, leadership and strategy. */
module CoachSelection {
  import opened Scheduling
  import opened Assignment

  datatype BookingMode = CoachAvailability | FixedSlots

  datatype Strategy = DirectStrategy | RoundRobinStrategy

  datatype Leadership = SingleCoach | FixedLead | RotatingLead

  datatype InteractionType = OneToOne | OneToMany | ManyToOne | ManyToMany {
    predicate MultipleParticipants() {
      OneToMany? || ManyToMany?
    }
  }

  datatype EventConfig = EventConfig(
    mode: BookingMode,
    interaction: InteractionType,
    strategy: Strategy,
    leadership: Leadership,
    fixedLead: Option<CoachId>,
    targetCoHosts: Option<nat>,
    allowAnonymous: bool,
    maxParticipants: Option<nat>,
    pool: seq<Candidate>)

  datatype Team = Team(lead: Option<CoachId>, coHosts: seq<CoachId>)

  datatype SelectionError =
    NoActiveCoaches | NotEligible | Unavailable | NobodyFree | LeadNotSet | LeadNotEligible | LeadUnavailable

  /** A chosen team and the rotation cursor written while choosing it, or the refusal. */
  datatype Selection = Selected(team: Team, cursor: Option<int>) | Refused(error: SelectionError)

  // ----- The co-host scan -----

  function SortByOrder(cs: seq<Candidate>): seq<Candidate> {
    Ranking(map[], 0, 0).Sort(cs)
  }

  function Take<T>(limit: Option<nat>, s: seq<T>): seq<T> {
    if limit.Some? && limit.value < |s| then s[..limit.value] else s
  }

  function Ids(cs: seq<Candidate>): (ids: seq<CoachId>)
    ensures |ids| == |cs| && forall i :: 0 <= i < |cs| ==> ids[i] == cs[i].id
  {
    if cs == [] then [] else Ids(cs[..|cs| - 1]) + [cs[|cs| - 1].id]
  }

  predicate CanCoHost(c: Candidate, lead: CoachId, available: CoachId -> bool) {
    c.id != lead && available(c.id)
  }

  /** The first so many available coaches other than the lead, in cyclic order from the cursor. */
  function ChosenCoHosts(pool: seq<Candidate>, lead: CoachId, target: Option<nat>, cursor: int,
                         available: CoachId -> bool): seq<Candidate>
  {
    if |pool| <= 1 || SortByOrder(pool) == [] then [] else
      Take(target, Filter((c: Candidate) => CanCoHost(c, lead, available), Rotated(SortByOrder(pool), cursor)))
  }

  /** Just past the last co-host chosen; not written when nobody was. */
  function CursorAfter(pool: seq<Candidate>, chosen: seq<Candidate>): Option<int>
    requires forall c :: c in pool ==> 0 < c.order
  {
    if chosen == [] || pool == [] then None
    else Some(NextCursor(chosen[|chosen| - 1].order, MaxOrder(pool)))
  }

  lemma ModuloWithinTwo(x: int, n: int)
    requires 0 <= x < 2 * n
    ensures x % n == if x < n then x else x - n
  {
    var q, r := x / n, x % n;
    assert x == q * n + r && 0 <= r < n;
    assert q >= 2 ==> (q - 2) * n >= 0;
    assert q <= -1 ==> (-1 - q) * n >= 0;
  }

  /** The i-th candidate after the one at start, going round. */
  function Cyclic(cs: seq<Candidate>, start: nat, i: nat): Candidate
    requires cs != []
  {
    cs[(start + i) % |cs|]
  }

  lemma RotatedAt(cs: seq<Candidate>, cursor: int, i: nat)
    requires i < |cs|
    ensures |Rotated(cs, cursor)| == |cs|
    ensures Rotated(cs, cursor)[i] == Cyclic(cs, StartIndex(cs, cursor), i)
  {
    ModuloWithinTwo(StartIndex(cs, cursor) + i, |cs|);
    assert Rotated(cs, cursor)[i] == cs[NthIndex(cs, cursor, i)];
  }

  lemma FilterStep<T(!new)>(p: T -> bool, s: seq<T>, i: nat)
    requires i < |s|
    ensures Filter(p, s[..i + 1]) == Filter(p, s[..i]) + if p(s[i]) then [s[i]] else []
  {
    assert s[..i + 1] == s[..i] + [s[i]];
    FilterAppend(p, s[..i], [s[i]]);
  }

  lemma FilterPrefix<T(!new)>(p: T -> bool, s: seq<T>, i: nat)
    requires i <= |s|
    ensures Filter(p, s[..i]) <= Filter(p, s)
  {
    assert s == s[..i] + s[i..];
    FilterAppend(p, s[..i], s[i..]);
  }

  /** Once enough have been found, the rest of the sequence does not matter. */
  lemma EnoughFound<T(!new)>(p: T -> bool, s: seq<T>, i: nat, target: nat)
    requires i <= |s| && |Filter(p, s[..i])| == target
    ensures Take(Some(target), Filter(p, s)) == Filter(p, s[..i])
  {
    FilterPrefix(p, s, i);
  }

  lemma TakeAll<T>(target: Option<nat>, s: seq<T>)
    ensures target.None? || |s| <= target.value ==> Take(target, s) == s
  {
  }

  /** Walks the pool once, from the cursor, stopping when enough co-hosts are found. */
  method ResolveCoHosts(pool: seq<Candidate>, lead: CoachId, target: Option<nat>, cursor: int,
                        available: CoachId -> bool) returns (coHosts: seq<CoachId>, nextCursor: Option<int>)
    requires forall c :: c in pool ==> 0 < c.order
    ensures coHosts == Ids(ChosenCoHosts(pool, lead, target, cursor, available))
    ensures nextCursor == CursorAfter(pool, ChosenCoHosts(pool, lead, target, cursor, available))
  {
    hide NextCursor, MaxOrder, Rotated, StartIndex, Cyclic, Filter, SortByOrder, Take;
    coHosts, nextCursor := [], None;
    var n := |pool|;
    if n <= 1 {
      return;
    }
    var maxOrder := MaxOrder(pool);
    var sorted := SortedPool(pool);
    var startIndex := StartIndex(sorted, cursor);
    var eligible := (c: Candidate) => CanCoHost(c, lead, available);
    ghost var rotated := Rotated(sorted, cursor);
    RotatedAt(sorted, cursor, 0);
    ghost var chosen := [];
    EmptyFilter(eligible);
    for i := 0 to n
      invariant |rotated| == n
      invariant chosen == Filter(eligible, rotated[..i]) && coHosts == Ids(chosen)
      invariant target.Some? ==> |chosen| <= target.value
      invariant nextCursor == CursorAfter(pool, chosen)
    {
      var candidate := Cyclic(sorted, startIndex, i);
      RotatedAt(sorted, cursor, i);
      FilterStep(eligible, rotated, i);
      if candidate.id == lead {
        continue;
      }
      if target.Some? && |coHosts| >= target.value {
        EnoughFound(eligible, rotated, i, target.value);
        return;
      }
      if available(candidate.id) {
        coHosts := coHosts + [candidate.id];
        nextCursor := Some(NextCursor(candidate.order, maxOrder));
        chosen := chosen + [candidate];
      }
    }
    assert rotated[..n] == rotated;
    TakeAll(target, chosen);
  }

  lemma EmptyFilter<T(!new)>(p: T -> bool)
    ensures Filter(p, []) == []
  {
  }

  /** The library sort: same length and members, in order of coachOrder. */
  function SortedPool(pool: seq<Candidate>): (sorted: seq<Candidate>)
    ensures sorted == SortByOrder(pool) && |sorted| == |pool|
    ensures forall c :: c in sorted <==> c in pool
  {
    Ranking(map[], 0, 0).SortOrders(pool);
    SortByOrder(pool)
  }

  lemma SortedPoolAscends(pool: seq<Candidate>)
    requires Ranked(pool)
    ensures Ranked(SortByOrder(pool)) && Ascending(SortByOrder(pool)) && |SortByOrder(pool)| == |pool|
    ensures forall c :: c in SortByOrder(pool) <==> c in pool
  {
    var r := Ranking(map[], 0, 0);
    r.SortOrders(pool);
    SortKeepsRanked(r, pool);
    var sorted := SortByOrder(pool);
    forall i, j | 0 <= i < j < |sorted| ensures sorted[i].order < sorted[j].order {
      assert !r.Before(sorted[j], sorted[i]) && sorted[i] in sorted && sorted[j] in sorted;
    }
  }

  lemma {:induction false} FilterKeepsRanked(p: Candidate -> bool, cs: seq<Candidate>)
    requires Ranked(cs)
    ensures Ranked(Filter(p, cs))
  {
    if cs != [] {
      FilterKeepsRanked(p, cs[1..]);
      forall x | x in cs[1..] ensures x.id != cs[0].id && x.order != cs[0].order {
        var i :| 1 <= i < |cs| && cs[i] == x;
      }
      PrependRanked(cs[0], Filter(p, cs[1..]));
    }
  }

  lemma SwapKeepsRanked(a: seq<Candidate>, b: seq<Candidate>)
    requires Ranked(a + b)
    ensures Ranked(b + a) && forall c :: c in b + a <==> c in a + b
  {
    forall i, j | 0 <= i < j < |b + a|
      ensures (b + a)[i].id != (b + a)[j].id && (b + a)[i].order != (b + a)[j].order
    {
      var i' := if i < |b| then |a| + i else i - |b|;
      var j' := if j < |b| then |a| + j else j - |b|;
      assert (b + a)[i] == (a + b)[i'] && (b + a)[j] == (a + b)[j'];
    }
  }

  lemma RotatedKeepsRanked(cs: seq<Candidate>, cursor: int)
    requires Ranked(cs) && cs != []
    ensures Ranked(Rotated(cs, cursor)) && forall c :: c in Rotated(cs, cursor) <==> c in cs
  {
    hide Ranked;
    var k := StartIndex(cs, cursor);
    assert cs == cs[..k] + cs[k..];
    SwapKeepsRanked(cs[..k], cs[k..]);
  }

  /**
   * No co-host twice, never the lead, never one too many, and a list shorter than asked for
   * means every other coach of the pool is unavailable.
   */
  lemma CoHostScanIsComplete(pool: seq<Candidate>, lead: CoachId, target: Option<nat>, cursor: int,
                             available: CoachId -> bool)
    requires Ranked(pool)
    ensures var chosen := ChosenCoHosts(pool, lead, target, cursor, available);
      && Ranked(chosen)
      && (forall c :: c in chosen ==> c in pool && CanCoHost(c, lead, available))
      && (target.Some? ==> |chosen| <= target.value)
      && (1 < |pool| && (target.Some? ==> |chosen| < target.value) ==>
            forall c :: c in pool && CanCoHost(c, lead, available) ==> c in chosen)
  {
    hide Ranked, Rotated;
    SortedPoolAscends(pool);
    var sorted := SortByOrder(pool);
    if 1 < |pool| {
      var eligible := (c: Candidate) => CanCoHost(c, lead, available);
      RotatedKeepsRanked(sorted, cursor);
      FilterKeepsRanked(eligible, Rotated(sorted, cursor));
      TakeKeepsRanked(target, Filter(eligible, Rotated(sorted, cursor)));
    } else {
      TakeKeepsRanked(Some(0), pool);
    }
  }

  lemma TakeKeepsRanked(target: Option<nat>, cs: seq<Candidate>)
    requires Ranked(cs)
    ensures Ranked(Take(target, cs)) && Ranked([])
  {
  }

  // ----- The order of the scan -----

  /** Each comes before the next ones in the rotation from the cursor. */
  ghost predicate InRotation(cs: seq<Candidate>, cursor: int) {
    forall i, j :: 0 <= i < j < |cs| ==> ComesFirst(cs[i], cs[j], cursor)
  }

  lemma RotatedIsInRotation(cs: seq<Candidate>, cursor: int)
    requires Ascending(cs) && cs != []
    ensures InRotation(Rotated(cs, cursor), cursor)
  {
    var k := StartIndex(cs, cursor);
    assert forall i :: 0 <= i < |cs| ==> cs[i] in cs;
    assert forall i :: k <= i < |cs| ==> cs[k].order <= cs[i].order;
  }

  lemma {:induction false} FilterKeepsRotation(p: Candidate -> bool, cs: seq<Candidate>, cursor: int)
    requires InRotation(cs, cursor)
    ensures InRotation(Filter(p, cs), cursor)
  {
    if cs != [] {
      FilterKeepsRotation(p, cs[1..], cursor);
      assert cs == [cs[0]] + cs[1..];
      forall x | x in cs[1..] ensures ComesFirst(cs[0], x, cursor) {
        var i :| 1 <= i < |cs| && cs[i] == x;
      }
      var rest := Filter(p, cs[1..]);
      assert forall i :: 0 <= i < |rest| ==> rest[i] in rest;
    }
  }

  /**
   * The co-hosts are the first of those who can co-host in the rotation from the cursor, in that
   * order: whoever can and was not chosen comes after everybody chosen.
   */
  lemma CoHostsComeFirst(pool: seq<Candidate>, lead: CoachId, target: Option<nat>, cursor: int, available: CoachId -> bool)
    requires Ranked(pool)
    ensures var chosen := ChosenCoHosts(pool, lead, target, cursor, available);
      && InRotation(chosen, cursor)
      && (1 < |pool| ==>
            forall x, y :: x in chosen && y in pool && y.id != lead && available(y.id) && y !in chosen ==>
              ComesFirst(x, y, cursor))
  {
    hide Ranked, Rotated, ComesFirst;
    SortedPoolAscends(pool);
    var sorted := SortByOrder(pool);
    if 1 < |pool| {
      var eligible := (c: Candidate) => CanCoHost(c, lead, available);
      var all := Filter(eligible, Rotated(sorted, cursor));
      RotatedIsInRotation(sorted, cursor);
      RotatedKeepsRanked(sorted, cursor);
      FilterKeepsRotation(eligible, Rotated(sorted, cursor), cursor);
      var chosen := Take(target, all);
      forall x, y | x in chosen && y in pool && y.id != lead && available(y.id) && y !in chosen
        ensures ComesFirst(x, y, cursor)
      {
        assert y in all;
        var i :| 0 <= i < |chosen| && chosen[i] == x;
        var j :| 0 <= j < |all| && all[j] == y;
        assert all[i] == x && j >= |chosen|;
      }
    }
  }

  /** The cursor is written if and only if somebody was chosen, and the next search starts just past the last of them. */
  lemma CursorIsPastLastCoHost(pool: seq<Candidate>, lead: CoachId, target: Option<nat>, cursor: int,
                               available: CoachId -> bool, k: nat)
    requires Ranked(pool)
    ensures var chosen := ChosenCoHosts(pool, lead, target, cursor, available);
      var sorted, after := SortByOrder(pool), CursorAfter(pool, chosen);
      && (after.None? <==> chosen == [])
      && (chosen != [] && k < |sorted| && sorted[k] == chosen[|chosen| - 1] ==>
            StartIndex(sorted, after.value) == if k + 1 < |sorted| then k + 1 else 0)
  {
    hide Ranked, Rotated, StartIndex;
    SortedPoolAscends(pool);
    CoHostScanIsComplete(pool, lead, target, cursor, available);
    var sorted := SortByOrder(pool);
    var chosen := ChosenCoHosts(pool, lead, target, cursor, available);
    if chosen != [] && k < |sorted| && sorted[k] == chosen[|chosen| - 1] {
      SameMembersSameMax(pool, sorted);
      CursorAdvances(sorted, k);
    }
  }

  lemma SameMembersSameMax(a: seq<Candidate>, b: seq<Candidate>)
    requires a != [] && b != [] && forall c :: c in a <==> c in b
    ensures MaxOrder(a) == MaxOrder(b)
  {
    var m, n := MaxOrder(a), MaxOrder(b);
    var x :| x in a && x.order == m;
    var y :| y in b && y.order == n;
  }

  // ----- The decision tree -----

  /** What the selection reads: coach loads, the rotation cursor, and who is free for the session. */
  datatype Reads = Reads(loads: Loads, cursor: int, available: CoachId -> bool)

  predicate InPool(ev: EventConfig, c: CoachId) {
    exists x :: x in ev.pool && x.id == c
  }

  function StrategyLead(ev: EventConfig, r: Reads): Selection
    requires forall c :: c in ev.pool ==> 0 < c.order
  {
    match ev.strategy
    case DirectStrategy => (
      match ResolveDirect(ev.pool, r.available)
      case Designated(c) => Selected(Team(Some(c), []), None)
      case NoCoach => Refused(NoActiveCoaches)
      case DesignatedUnavailable => Refused(Unavailable))
    case RoundRobinStrategy => (
      match RoundRobin(ev.pool, r.loads, r.cursor, r.available)
      case Assigned(c, next) => Selected(Team(Some(c), []), Some(next))
      case NoCandidates => Refused(NoActiveCoaches)
      case NoneAvailable => Refused(NobodyFree))
  }

  /** A preferred coach is binding under direct assignment, and only tried first under round robin. */
  function SingleHost(ev: EventConfig, preferred: Option<CoachId>, r: Reads): Selection
    requires forall c :: c in ev.pool ==> 0 < c.order
  {
    if preferred.None? then StrategyLead(ev, r)
    else if ev.strategy.DirectStrategy? then
      if !InPool(ev, preferred.value) then Refused(NotEligible)
      else if !r.available(preferred.value) then Refused(Unavailable)
      else Selected(Team(preferred, []), None)
    else if InPool(ev, preferred.value) && r.available(preferred.value) then Selected(Team(preferred, []), None)
    else StrategyLead(ev, r)
  }

  function FixedLeadOf(ev: EventConfig, r: Reads): Selection {
    if ev.fixedLead.None? then Refused(LeadNotSet)
    else if !InPool(ev, ev.fixedLead.value) then Refused(LeadNotEligible)
    else if !r.available(ev.fixedLead.value) then Refused(LeadUnavailable)
    else Selected(Team(ev.fixedLead, []), None)
  }

  /** A lead, then co-hosts around it; the scan starts from the cursor the lead selection left. */
  function WithCoHosts(ev: EventConfig, lead: Selection, r: Reads): Selection
    requires forall c :: c in ev.pool ==> 0 < c.order
  {
    if lead.Refused? || lead.team.lead.None? then lead else
      var from := if lead.cursor.Some? then lead.cursor.value else r.cursor;
      var chosen := ChosenCoHosts(ev.pool, lead.team.lead.value, ev.targetCoHosts, from, r.available);
      var after := CursorAfter(ev.pool, chosen);
      Selected(Team(lead.team.lead, Ids(chosen)), if after.Some? then after else lead.cursor)
  }

  /** Anonymous, then group reuse, then single host, then lead with co-hosts. */
  function ResolveSelection(ev: EventConfig, preferred: Option<CoachId>, existing: Option<Team>,
                            slotCoach: Option<CoachId>, r: Reads): Selection
    requires forall c :: c in ev.pool ==> 0 < c.order
  {
    if ev.allowAnonymous then Selected(Team(None, []), None)
    else if ev.interaction.MultipleParticipants() && existing.Some? then
      if ev.mode.FixedSlots? && slotCoach.Some? then Selected(Team(slotCoach, existing.value.coHosts), None)
      else Selected(existing.value, None)
    else if ev.leadership.SingleCoach? then
      if slotCoach.Some? then Selected(Team(slotCoach, []), None)
      else if ev.strategy.DirectStrategy? && ev.fixedLead.Some? && preferred.None? then
        SingleHost(ev, ev.fixedLead, r)
      else SingleHost(ev, preferred, r)
    else
      var useFixedLead := ev.leadership.FixedLead? || (ev.strategy.DirectStrategy? && ev.fixedLead.Some?);
      WithCoHosts(ev, if useFixedLead then FixedLeadOf(ev, r) else StrategyLead(ev, r), r)
  }

  /** Asks the event's strategy for a lead. */
  method LeadByStrategy(ev: EventConfig, bookings: Loads, slots: seq<(Option<CoachId>, nat)>, cursor: int,
                        available: CoachId -> bool) returns (s: Selection)
    requires forall c :: c in ev.pool ==> 0 < c.order
    ensures s == StrategyLead(ev, Reads(TotalLoads(bookings, slots), cursor, available))
  {
    if ev.strategy.DirectStrategy? {
      return StrategyLead(ev, Reads(TotalLoads(bookings, slots), cursor, available));
    }
    var routing := ResolveRoundRobin(ev.pool, bookings, slots, cursor, available);
    match routing
    case Assigned(c, next) => return Selected(Team(Some(c), []), Some(next));
    case NoCandidates => return Refused(NoActiveCoaches);
    case NoneAvailable => return Refused(NobodyFree);
  }

  /** Walks the decision tree, counting, searching and scanning only in the branch it takes. */
  method ResolveTeam(ev: EventConfig, preferred: Option<CoachId>, existing: Option<Team>, slotCoach: Option<CoachId>,
                     bookings: Loads, slots: seq<(Option<CoachId>, nat)>, cursor: int, available: CoachId -> bool)
    returns (s: Selection)
    requires forall c :: c in ev.pool ==> 0 < c.order
    ensures s == ResolveSelection(ev, preferred, existing, slotCoach,
                                  Reads(TotalLoads(bookings, slots), cursor, available))
  {
    ghost var r := Reads(TotalLoads(bookings, slots), cursor, available);
    if ev.allowAnonymous {
      return Selected(Team(None, []), None);
    }
    if ev.interaction.MultipleParticipants() && existing.Some? {
      var lead := if ev.mode.FixedSlots? && slotCoach.Some? then slotCoach else existing.value.lead;
      return Selected(Team(lead, existing.value.coHosts), None);
    }
    if ev.leadership.SingleCoach? {
      if slotCoach.Some? {
        return Selected(Team(slotCoach, []), None);
      }
      var asked := if ev.strategy.DirectStrategy? && ev.fixedLead.Some? && preferred.None? then ev.fixedLead else preferred;
      if asked.Some? {
        if InPool(ev, asked.value) && available(asked.value) {
          return Selected(Team(asked, []), None);
        }
        if ev.strategy.DirectStrategy? {
          return Refused(if InPool(ev, asked.value) then Unavailable else NotEligible);
        }
      }
      s := LeadByStrategy(ev, bookings, slots, cursor, available);
      return;
    }
    if ev.leadership.FixedLead? || (ev.strategy.DirectStrategy? && ev.fixedLead.Some?) {
      s := FixedLeadOf(ev, Reads(bookings, cursor, available));
      assert s == FixedLeadOf(ev, r);
    } else {
      s := LeadByStrategy(ev, bookings, slots, cursor, available);
    }
    if s.Refused? || s.team.lead.None? {
      return;
    }
    var from := if s.cursor.Some? then s.cursor.value else cursor;
    var coHosts, after := ResolveCoHosts(ev.pool, s.team.lead.value, ev.targetCoHosts, from, available);
    s := Selected(Team(s.team.lead, coHosts), if after.Some? then after else s.cursor);
  }

  ghost predicate OnTeam(t: Team, c: CoachId) {
    t.lead == Some(c) || c in t.coHosts
  }

  lemma StrategyLeadIsAvailable(ev: EventConfig, r: Reads)
    requires Ranked(ev.pool)
    ensures var s := StrategyLead(ev, r);
      s.Selected? ==>
        && s.team.coHosts == [] && s.team.lead.Some?
        && InPool(ev, s.team.lead.value) && r.available(s.team.lead.value)
  {
    if ev.pool != [] {
      PickIsUniqueMinimum(ev.pool, r.loads, r.cursor, r.available);
      assert ev.pool[0] in ev.pool;
    }
  }

  /**
   * Whichever branch chose the team, when no slot assignment and no earlier session decides,
   * it has a lead, every member is in the pool and available, and nobody is on it twice.
   */
  lemma ChosenTeamIsAvailable(ev: EventConfig, preferred: Option<CoachId>, r: Reads)
    requires Ranked(ev.pool) && !ev.allowAnonymous
    ensures var s := ResolveSelection(ev, preferred, None, None, r);
      s.Selected? ==>
        && s.team.lead.Some?
        && (forall c :: OnTeam(s.team, c) ==> InPool(ev, c) && r.available(c))
        && (forall i, j :: 0 <= i < j < |s.team.coHosts| ==> s.team.coHosts[i] != s.team.coHosts[j])
        && s.team.lead.value !in s.team.coHosts
  {
    hide StrategyLead, CursorAfter, ChosenCoHosts;
    StrategyLeadIsAvailable(ev, r);
    var s := ResolveSelection(ev, preferred, None, None, r);
    if s.Selected? && !ev.leadership.SingleCoach? {
      var useFixedLead := ev.leadership.FixedLead? || (ev.strategy.DirectStrategy? && ev.fixedLead.Some?);
      var lead := if useFixedLead then FixedLeadOf(ev, r) else StrategyLead(ev, r);
      var from := if lead.cursor.Some? then lead.cursor.value else r.cursor;
      var chosen := ChosenCoHosts(ev.pool, lead.team.lead.value, ev.targetCoHosts, from, r.available);
      CoHostScanIsComplete(ev.pool, lead.team.lead.value, ev.targetCoHosts, from, r.available);
      forall c | c in Ids(chosen) ensures c != lead.team.lead.value && InPool(ev, c) && r.available(c) {
        var i :| 0 <= i < |chosen| && Ids(chosen)[i] == c;
        assert chosen[i] in chosen;
      }
    }
  }

  /** The coach who must lead when no rotation is involved: asked for, configured, or first of the pool. */
  function DesignatedLead(ev: EventConfig, preferred: Option<CoachId>): Option<CoachId> {
    if ev.leadership.SingleCoach? && preferred.Some? then preferred
    else if ev.fixedLead.Some? || ev.leadership.FixedLead? then ev.fixedLead
    else if ev.pool != [] then Some(ev.pool[0].id)
    else None
  }

  /** The settings and the request let this coach lead the session. */
  predicate MayLead(ev: EventConfig, preferred: Option<CoachId>, c: CoachId, r: Reads) {
    && InPool(ev, c) && r.available(c)
    && (ev.strategy.DirectStrategy? || ev.leadership.FixedLead? ==> DesignatedLead(ev, preferred) == Some(c))
  }

  /**
   * A session is refused if and only if no available coach may lead it. Otherwise one who may
   * leads it: the one asked for whenever that coach may lead a single-coach session.
   */
  lemma SelectedIffSomeoneMayLead(ev: EventConfig, preferred: Option<CoachId>, r: Reads)
    requires Ranked(ev.pool) && !ev.allowAnonymous
    ensures var s := ResolveSelection(ev, preferred, None, None, r);
      && (s.Selected? <==> exists c :: MayLead(ev, preferred, c, r))
      && (s.Selected? ==> s.team.lead.Some? && MayLead(ev, preferred, s.team.lead.value, r))
      && (ev.leadership.SingleCoach? && preferred.Some? && MayLead(ev, preferred, preferred.value, r) ==>
            s.team == Team(preferred, []) && s.cursor == None)
  {
    hide CursorAfter, ChosenCoHosts, StrategyLead, InPool;
    StrategyLeadExists(ev, r);
    var s := ResolveSelection(ev, preferred, None, None, r);
    if s.Selected? {
      assert MayLead(ev, preferred, s.team.lead.value, r);
    }
  }

  /** The strategy finds a lead whenever there is one to find. */
  lemma StrategyLeadExists(ev: EventConfig, r: Reads)
    requires Ranked(ev.pool)
    ensures var s := StrategyLead(ev, r);
      && (s.Selected? ==> s.team.lead.Some? && InPool(ev, s.team.lead.value) && r.available(s.team.lead.value))
      && (ev.strategy.DirectStrategy? ==>
            (s.Selected? <==> ev.pool != [] && r.available(ev.pool[0].id))
            && (s.Selected? ==> s.team.lead == Some(ev.pool[0].id)))
      && (ev.strategy.RoundRobinStrategy? ==>
            (s.Selected? <==> exists c :: InPool(ev, c) && r.available(c)))
      && (ev.pool != [] ==> InPool(ev, ev.pool[0].id))
  {
    StrategyLeadIsAvailable(ev, r);
    if ev.pool != [] {
      PickIsUniqueMinimum(ev.pool, r.loads, r.cursor, r.available);
      assert ev.pool[0] in ev.pool;
    }
  }

  /** Every refusal gives its true reason. */
  lemma RefusalIsHonest(ev: EventConfig, preferred: Option<CoachId>, existing: Option<Team>, slotCoach: Option<CoachId>,
                        r: Reads)
    requires Ranked(ev.pool)
    ensures var s := ResolveSelection(ev, preferred, existing, slotCoach, r);
      s.Refused? ==>
        var asked := if ev.leadership.SingleCoach? then DesignatedLead(ev, preferred)
                     else if ev.fixedLead.Some? then ev.fixedLead
                     else DesignatedLead(ev, None);
        match s.error
        case NoActiveCoaches => ev.pool == []
        case NobodyFree => ev.pool != [] && ev.strategy.RoundRobinStrategy? && forall x :: x in ev.pool ==> !r.available(x.id)
        case NotEligible => ev.strategy.DirectStrategy? && asked.Some? && forall x :: x in ev.pool ==> Some(x.id) != asked
        case Unavailable => ev.strategy.DirectStrategy? && asked.Some? && InPool(ev, asked.value) && !r.available(asked.value)
        case LeadNotSet => ev.leadership.FixedLead? && ev.fixedLead == None
        case LeadNotEligible => ev.fixedLead.Some? && forall x :: x in ev.pool ==> Some(x.id) != ev.fixedLead
        case LeadUnavailable => ev.fixedLead.Some? && InPool(ev, ev.fixedLead.value) && !r.available(ev.fixedLead.value)
  {
    hide CursorAfter, ChosenCoHosts, StrategyLead, InPool;
    StrategyRefusal(ev, r);
    forall c ensures !InPool(ev, c) ==> forall x :: x in ev.pool ==> x.id != c {
      OutsidePool(ev, c);
    }
  }

  lemma OutsidePool(ev: EventConfig, c: CoachId)
    ensures !InPool(ev, c) ==> forall x :: x in ev.pool ==> x.id != c
  {
  }

  lemma StrategyRefusal(ev: EventConfig, r: Reads)
    requires Ranked(ev.pool)
    ensures var s := StrategyLead(ev, r);
      s.Refused? ==>
        if ev.pool == [] then s.error == NoActiveCoaches
        else if ev.strategy.DirectStrategy? then
          s.error == SelectionError.Unavailable && InPool(ev, ev.pool[0].id) && !r.available(ev.pool[0].id)
        else s.error == NobodyFree && forall x :: x in ev.pool ==> !r.available(x.id)
  {
    if ev.pool != [] {
      RoundRobinIsLeast(ev.pool, r.loads, r.cursor, r.available);
      assert ev.pool[0] in ev.pool;
    }
  }

  /**
   * A group session already held keeps its co-hosts, and its lead unless its fixed slot has an
   * assigned coach, who then leads; a new single-coach session in a slot is led by the slot's
   * coach alone. Neither moves the rotation.
   */
  lemma SettledTeams(ev: EventConfig, preferred: Option<CoachId>, existing: Option<Team>, slotCoach: Option<CoachId>, r: Reads)
    requires forall c :: c in ev.pool ==> 0 < c.order
    requires !ev.allowAnonymous
    ensures var s := ResolveSelection(ev, preferred, existing, slotCoach, r);
      && ((ev.interaction == OneToMany || ev.interaction == ManyToMany) && existing.Some? ==>
            && s.Selected? && s.cursor == None && s.team.coHosts == existing.value.coHosts
            && s.team.lead == if ev.mode == FixedSlots && slotCoach.Some? then slotCoach else existing.value.lead)
      && ((ev.interaction == OneToOne || ev.interaction == ManyToOne || existing == None)
          && ev.leadership == SingleCoach && slotCoach.Some? ==>
            s.Selected? && s.cursor == None && s.team.lead == slotCoach && s.team.coHosts == [])
  {
    hide SingleHost, WithCoHosts;
  }

  /**
   * Co-hosts are searched for from where the lead's own assignment left the rotation, or from
   * the stored cursor when the lead is settled otherwise, and the rotation ends up past the last
   * coach it assigned.
   */
  lemma CoHostsFollowLead(ev: EventConfig, preferred: Option<CoachId>, r: Reads)
    returns (chosen: seq<Candidate>, from: int)
    requires Ranked(ev.pool) && !ev.allowAnonymous && !ev.leadership.SingleCoach?
    requires ResolveSelection(ev, preferred, None, None, r).Selected?
    ensures var s := ResolveSelection(ev, preferred, None, None, r);
      var rotates := ev.leadership.RotatingLead? && ev.strategy.RoundRobinStrategy?;
      var routing := RoundRobin(ev.pool, r.loads, r.cursor, r.available);
      && (rotates ==> routing.Assigned? && s.team.lead == Some(routing.coach) && from == routing.nextCursor)
      && (!rotates ==> from == r.cursor)
      && s.team.lead.Some? && s.team.coHosts == Ids(chosen)
      && chosen == ChosenCoHosts(ev.pool, s.team.lead.value, ev.targetCoHosts, from, r.available)
      && s.cursor == (if chosen != [] then CursorAfter(ev.pool, chosen) else if rotates then Some(from) else None)
  {
    hide CursorAfter, ChosenCoHosts, RoundRobin;
    StrategyLeadIsAvailable(ev, r);
    var useFixedLead := ev.leadership.FixedLead? || (ev.strategy.DirectStrategy? && ev.fixedLead.Some?);
    var lead := if useFixedLead then FixedLeadOf(ev, r) else StrategyLead(ev, r);
    from := if lead.cursor.Some? then lead.cursor.value else r.cursor;
    chosen := ChosenCoHosts(ev.pool, lead.team.lead.value, ev.targetCoHosts, from, r.available);
    CursorIsPastLastCoHost(ev.pool, lead.team.lead.value, ev.targetCoHosts, from, r.available, 0);
  }
}
