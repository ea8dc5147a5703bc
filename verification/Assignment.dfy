/** Choosing one coach from an event's pool: least loaded first, ties broken by a rotating cursor. */
module Assignment {
  import opened Scheduling

  datatype Candidate = Candidate(id: CoachId, order: int)

  /** Coach orders are positive and unique within an event, and so are coaches. */
  ghost predicate Ranked(cs: seq<Candidate>) {
    && (forall c :: c in cs ==> 0 < c.order)
    && (forall i, j :: 0 <= i < j < |cs| ==> cs[i].id != cs[j].id && cs[i].order != cs[j].order)
  }

  function MaxOrder(cs: seq<Candidate>): (m: int)
    requires cs != []
    ensures exists c :: c in cs && c.order == m
    ensures forall c :: c in cs ==> c.order <= m
  {
    if |cs| == 1 then cs[0].order else Max(cs[0].order, MaxOrder(cs[1..]))
  }

  /** Position in the rotation: orders before the cursor come after the last one. */
  function RotationKey(order: int, cursor: int, maxOrder: int): int {
    if order >= cursor then order else order + maxOrder
  }

  function NextCursor(order: int, maxOrder: int): int
    requires 0 < maxOrder
  {
    order % maxOrder + 1
  }

  /** Sessions already held by each coach; absent means none. */
  type Loads = map<CoachId, nat>

  function Load(loads: Loads, c: CoachId): nat {
    if c in loads then loads[c] else 0
  }

  /** The sort order of the pool. */
  datatype Ranking = Ranking(loads: Loads, cursor: int, maxOrder: int) {
    function Key(c: Candidate): int {
      RotationKey(c.order, cursor, maxOrder)
    }

    predicate Before(a: Candidate, b: Candidate) {
      Load(loads, a.id) < Load(loads, b.id) || (Load(loads, a.id) == Load(loads, b.id) && Key(a) < Key(b))
    }

    /** Stable insertion: c goes after every candidate that ranks before it. */
    function Insert(c: Candidate, sorted: seq<Candidate>): seq<Candidate> {
      if sorted == [] then [c]
      else if Before(sorted[0], c) then [sorted[0]] + Insert(c, sorted[1..])
      else [c] + sorted
    }

    function Sort(cs: seq<Candidate>): seq<Candidate> {
      if cs == [] then [] else Insert(cs[0], Sort(cs[1..]))
    }

    ghost predicate Ordered(cs: seq<Candidate>) {
      forall i, j :: 0 <= i < j < |cs| ==> !Before(cs[j], cs[i])
    }

    lemma {:induction false} InsertKeepsOrder(c: Candidate, sorted: seq<Candidate>)
      requires Ordered(sorted)
      ensures Ordered(Insert(c, sorted)) && |Insert(c, sorted)| == |sorted| + 1
      ensures forall x :: x in Insert(c, sorted) <==> x == c || x in sorted
    {
      if sorted != [] {
        InsertKeepsOrder(c, sorted[1..]);
        var rest := Insert(c, sorted[1..]);
        var result := Insert(c, sorted);
        assert sorted == [sorted[0]] + sorted[1..];
        if Before(sorted[0], c) {
          forall i, j | 0 <= i < j < |result| ensures !Before(result[j], result[i]) {
            assert result[j] == rest[j - 1] && rest[j - 1] in rest;
            assert i > 0 ==> result[i] == rest[i - 1];
          }
        }
      }
    }

    lemma {:induction false} SortOrders(cs: seq<Candidate>)
      ensures Ordered(Sort(cs)) && |Sort(cs)| == |cs|
      ensures forall x :: x in Sort(cs) <==> x in cs
    {
      if cs != [] {
        SortOrders(cs[1..]);
        InsertKeepsOrder(cs[0], Sort(cs[1..]));
        assert cs == [cs[0]] + cs[1..];
      }
    }
  }

  lemma {:induction false} InsertKeepsRanked(r: Ranking, c: Candidate, sorted: seq<Candidate>)
    requires Ranked(sorted) && 0 < c.order
    requires forall x :: x in sorted ==> x.id != c.id && x.order != c.order
    ensures Ranked(r.Insert(c, sorted))
    ensures forall x :: x in r.Insert(c, sorted) <==> x == c || x in sorted
  {
    if sorted != [] {
      assert sorted == [sorted[0]] + sorted[1..];
      forall x | x in sorted[1..] ensures x.id != sorted[0].id && x.order != sorted[0].order {
        var i :| 1 <= i < |sorted| && sorted[i] == x;
      }
      InsertKeepsRanked(r, c, sorted[1..]);
      var rest := r.Insert(c, sorted[1..]);
      PrependRanked(sorted[0], rest);
      PrependRanked(c, sorted);
    }
  }

  lemma PrependRanked(c: Candidate, cs: seq<Candidate>)
    ensures Ranked(cs) && 0 < c.order && (forall x :: x in cs ==> x.id != c.id && x.order != c.order)
      ==> Ranked([c] + cs)
  {
  }

  lemma {:induction false} SortKeepsRanked(r: Ranking, cs: seq<Candidate>)
    requires Ranked(cs)
    ensures Ranked(r.Sort(cs))
  {
    if cs != [] {
      SortKeepsRanked(r, cs[1..]);
      r.SortOrders(cs[1..]);
      InsertKeepsRanked(r, cs[0], r.Sort(cs[1..]));
    }
  }

  function FirstAvailable(cs: seq<Candidate>, available: CoachId -> bool): Option<Candidate> {
    if cs == [] then None
    else if available(cs[0].id) then Some(cs[0])
    else FirstAvailable(cs[1..], available)
  }

  /** The coach round robin picks, if anyone is available. */
  function Pick(cs: seq<Candidate>, loads: Loads, cursor: int, available: CoachId -> bool): Option<Candidate>
    requires cs != []
  {
    FirstAvailable(Ranking(loads, cursor, MaxOrder(cs)).Sort(cs), available)
  }

  lemma {:induction false} FirstIsBest(r: Ranking, sorted: seq<Candidate>, available: CoachId -> bool)
    requires r.Ordered(sorted)
    ensures var p := FirstAvailable(sorted, available);
      && (p.None? <==> forall c :: c in sorted ==> !available(c.id))
      && (p.Some? ==>
            && p.value in sorted && available(p.value.id)
            && forall c :: c in sorted && available(c.id) ==> c == p.value || !r.Before(c, p.value))
  {
    if sorted != [] {
      FirstIsBest(r, sorted[1..], available);
      assert sorted == [sorted[0]] + sorted[1..];
    }
  }

  /** Orders are distinct, so rotation keys are, and ranking is a strict total order. */
  lemma RankingIsTotal(cs: seq<Candidate>, r: Ranking, a: Candidate, b: Candidate)
    requires Ranked(cs) && cs != [] && r.maxOrder == MaxOrder(cs)
    requires a in cs && b in cs && a != b
    ensures a.id != b.id && r.Key(a) != r.Key(b) && (r.Before(a, b) || r.Before(b, a))
  {
    var i :| 0 <= i < |cs| && cs[i] == a;
    var j :| 0 <= j < |cs| && cs[j] == b;
    assert if i < j then cs[i].order != cs[j].order else cs[j].order != cs[i].order;
  }

  /** The pick is the unique minimum of (load, rotation key) among the available coaches. */
  lemma PickIsUniqueMinimum(cs: seq<Candidate>, loads: Loads, cursor: int, available: CoachId -> bool)
    requires Ranked(cs) && cs != []
    ensures var r := Ranking(loads, cursor, MaxOrder(cs));
      var p := Pick(cs, loads, cursor, available);
      && (p.None? <==> forall c :: c in cs ==> !available(c.id))
      && (p.Some? ==>
            && p.value in cs && available(p.value.id)
            && forall c :: c in cs && available(c.id) && c != p.value ==> r.Before(p.value, c))
  {
    var r := Ranking(loads, cursor, MaxOrder(cs));
    var sorted := r.Sort(cs);
    r.SortOrders(cs);
    FirstIsBest(r, sorted, available);
    var p := Pick(cs, loads, cursor, available);
    if p.Some? {
      forall c | c in cs && available(c.id) && c != p.value
        ensures r.Before(p.value, c)
      {
        RankingIsTotal(cs, r, p.value, c);
      }
    }
  }

  // ----- The strategy -----

  datatype Routing = Assigned(coach: CoachId, nextCursor: int) | NoCandidates | NoneAvailable

  /** Adds the fixed-slot assignments to the booking counts; unassigned groups are skipped. */
  function TotalLoads(bookings: Loads, slots: seq<(Option<CoachId>, nat)>): Loads {
    if slots == [] then bookings else
      var before := TotalLoads(bookings, slots[..|slots| - 1]);
      var (coach, n) := slots[|slots| - 1];
      if coach.None? then before else before[coach.value := Load(before, coach.value) + n]
  }

  function SlotShare(slots: seq<(Option<CoachId>, nat)>, c: CoachId): nat {
    if slots == [] then 0 else
      SlotShare(slots[..|slots| - 1], c) + if slots[|slots| - 1].0 == Some(c) then slots[|slots| - 1].1 else 0
  }

  /** A coach's total is its bookings plus its slots: neither source of sessions is lost. */
  lemma {:induction false} TotalIsSum(bookings: Loads, slots: seq<(Option<CoachId>, nat)>, c: CoachId)
    ensures Load(TotalLoads(bookings, slots), c) == Load(bookings, c) + SlotShare(slots, c)
  {
    if slots != [] {
      TotalIsSum(bookings, slots[..|slots| - 1], c);
    }
  }

  function RoundRobin(cs: seq<Candidate>, loads: Loads, cursor: int, available: CoachId -> bool): Routing
    requires forall c :: c in cs ==> 0 < c.order
  {
    if cs == [] then NoCandidates else
      var p := Pick(cs, loads, cursor, available);
      if p.None? then NoneAvailable
      else Assigned(p.value.id, NextCursor(p.value.order, MaxOrder(cs)))
  }

  /** In the rotation from a cursor, a comes before b: on the same side of the cursor by order, else from the cursor up first. */
  predicate ComesFirst(a: Candidate, b: Candidate, cursor: int) {
    if a.order >= cursor then b.order < cursor || a.order < b.order
    else b.order < cursor && a.order < b.order
  }

  /**
   * Round robin assigns the available coach with the fewest sessions who comes first in the
   * rotation among those; it assigns nobody if and only if nobody is available.
   */
  lemma RoundRobinIsLeast(cs: seq<Candidate>, loads: Loads, cursor: int, available: CoachId -> bool)
    requires Ranked(cs)
    ensures var routing := RoundRobin(cs, loads, cursor, available);
      && (routing.NoCandidates? <==> cs == [])
      && (routing.NoneAvailable? <==> cs != [] && forall c :: c in cs ==> !available(c.id))
      && (routing.Assigned? ==>
            exists p :: p in cs && p.id == routing.coach && available(p.id)
              && forall c :: c in cs && available(c.id) && c != p ==>
                   Load(loads, p.id) < Load(loads, c.id)
                   || (Load(loads, p.id) == Load(loads, c.id) && ComesFirst(p, c, cursor)))
  {
    if cs != [] {
      PickIsUniqueMinimum(cs, loads, cursor, available);
      var p := Pick(cs, loads, cursor, available);
      if p.Some? {
        forall c | c in cs && available(c.id) && c != p.value
          ensures Load(loads, p.value.id) < Load(loads, c.id)
               || (Load(loads, p.value.id) == Load(loads, c.id) && ComesFirst(p.value, c, cursor))
        {
          assert Ranking(loads, cursor, MaxOrder(cs)).Before(p.value, c);
        }
      }
    }
  }

  /** After assigning the coach at an index, the search from the returned cursor starts at the next one, cyclically. */
  lemma RoundRobinMovesOn(cs: seq<Candidate>, loads: Loads, cursor: int, available: CoachId -> bool, k: nat)
    requires Ranked(cs) && Ascending(cs) && k < |cs|
    requires var routing := RoundRobin(cs, loads, cursor, available); routing.Assigned? && routing.coach == cs[k].id
    ensures var next := RoundRobin(cs, loads, cursor, available).nextCursor;
      StartIndex(cs, next) == if k + 1 < |cs| then k + 1 else 0
  {
    PickIsUniqueMinimum(cs, loads, cursor, available);
    var p := Pick(cs, loads, cursor, available).value;
    hide Pick;
    var i :| 0 <= i < |cs| && cs[i] == p;
    assert i == k by {
      assert cs[i].id == cs[k].id;
    }
    CursorAdvances(cs, k);
  }

  /** Counts both kinds of session, sorts the pool, and takes the first coach that is free. */
  method ResolveRoundRobin(cs: seq<Candidate>, bookings: Loads, slots: seq<(Option<CoachId>, nat)>,
                           cursor: int, available: CoachId -> bool) returns (routing: Routing)
    requires forall c :: c in cs ==> 0 < c.order
    ensures routing == RoundRobin(cs, TotalLoads(bookings, slots), cursor, available)
  {
    if cs == [] {
      return NoCandidates;
    }
    var countMap := bookings;
    for i := 0 to |slots|
      invariant countMap == TotalLoads(bookings, slots[..i])
    {
      assert slots[..i + 1][..i] == slots[..i];
      var (coach, n) := slots[i];
      if coach.Some? {
        countMap := countMap[coach.value := Load(countMap, coach.value) + n];
      }
    }
    assert slots[..|slots|] == slots;
    var maxOrder := MaxOrder(cs);
    var sorted := Ranking(countMap, cursor, maxOrder).Sort(cs);
    for i := 0 to |sorted|
      invariant FirstAvailable(sorted, available) == FirstAvailable(sorted[i..], available)
    {
      var candidate := sorted[i];
      if available(candidate.id) {
        Ranking(countMap, cursor, maxOrder).SortOrders(cs);
        return Assigned(candidate.id, NextCursor(candidate.order, maxOrder));
      }
    }
    return NoneAvailable;
  }

  datatype Direct = Designated(coach: CoachId) | NoCoach | DesignatedUnavailable

  /** Direct assignment: the first coach of the pool or nobody. */
  function ResolveDirect(cs: seq<Candidate>, available: CoachId -> bool): Direct {
    if cs == [] then NoCoach
    else if available(cs[0].id) then Designated(cs[0].id)
    else DesignatedUnavailable
  }

  // ----- Fairness over a run of assignments -----

  datatype Rotation = Rotation(loads: Loads, cursor: int, picks: seq<Candidate>)

  function Everyone(): CoachId -> bool {
    (c: CoachId) => true
  }

  /** The pick when every coach is available. */
  function NextPick(cs: seq<Candidate>, loads: Loads, cursor: int): (p: Candidate)
    requires Ranked(cs) && cs != []
    ensures p in cs
  {
    PickIsUniqueMinimum(cs, loads, cursor, Everyone());
    assert cs[0] in cs;
    Pick(cs, loads, cursor, Everyone()).value
  }

  lemma NextPickRanksFirst(cs: seq<Candidate>, loads: Loads, cursor: int, c: Candidate)
    requires Ranked(cs) && cs != [] && c in cs
    ensures var p := NextPick(cs, loads, cursor);
      c == p || Ranking(loads, cursor, MaxOrder(cs)).Before(p, c)
  {
    PickIsUniqueMinimum(cs, loads, cursor, Everyone());
  }

  /** Round robin then assigns the pick. */
  lemma PickIsAssigned(cs: seq<Candidate>, loads: Loads, cursor: int)
    requires Ranked(cs) && cs != []
    ensures var routing := RoundRobin(cs, loads, cursor, Everyone());
      routing.Assigned? && routing.coach == NextPick(cs, loads, cursor).id
  {
    assert cs[0] in cs;
    PickIsUniqueMinimum(cs, loads, cursor, Everyone());
  }

  /** One assignment by round robin: its coach gains a session and the cursor is the one it returns. */
  function Advance(cs: seq<Candidate>, run: Rotation): Rotation
    requires Ranked(cs) && cs != []
  {
    PickIsAssigned(cs, run.loads, run.cursor);
    var routing := RoundRobin(cs, run.loads, run.cursor, Everyone());
    Rotation(run.loads[routing.coach := Load(run.loads, routing.coach) + 1], routing.nextCursor,
             run.picks + [NextPick(cs, run.loads, run.cursor)])
  }

  /** n successive assignments with everyone available and nobody else changing the loads. */
  function Rotate(cs: seq<Candidate>, loads: Loads, cursor: int, n: nat): Rotation
    requires Ranked(cs) && cs != []
  {
    if n == 0 then Rotation(loads, cursor, []) else Advance(cs, Rotate(cs, loads, cursor, n - 1))
  }

  ghost predicate SpreadAtMost(cs: seq<Candidate>, loads: Loads, d: int) {
    forall a, b :: a in cs && b in cs ==> Load(loads, a.id) - Load(loads, b.id) <= d
  }

  lemma AdvanceKeepsSpread(cs: seq<Candidate>, run: Rotation, d: int)
    requires Ranked(cs) && cs != [] && 1 <= d && SpreadAtMost(cs, run.loads, d)
    ensures SpreadAtMost(cs, Advance(cs, run).loads, d)
  {
    hide NextPick, RoundRobin;
    PickIsAssigned(cs, run.loads, run.cursor);
    PickIsLeastLoaded(cs, run.loads, run.cursor);
  }

  /** The gap between the most and the least loaded coach never exceeds max(1, the initial gap). */
  lemma {:induction false} SpreadNeverGrows(cs: seq<Candidate>, loads: Loads, cursor: int, d: nat, n: nat)
    requires Ranked(cs) && cs != [] && SpreadAtMost(cs, loads, d)
    ensures SpreadAtMost(cs, Rotate(cs, loads, cursor, n).loads, Max(1, d))
  {
    hide Advance;
    if n > 0 {
      SpreadNeverGrows(cs, loads, cursor, d, n - 1);
      AdvanceKeepsSpread(cs, Rotate(cs, loads, cursor, n - 1), Max(1, d));
    }
  }

  lemma PickIsLeastLoaded(cs: seq<Candidate>, loads: Loads, cursor: int)
    requires Ranked(cs) && cs != []
    ensures forall c :: c in cs ==> Load(loads, NextPick(cs, loads, cursor).id) <= Load(loads, c.id)
  {
    forall c | c in cs ensures Load(loads, NextPick(cs, loads, cursor).id) <= Load(loads, c.id) {
      NextPickRanksFirst(cs, loads, cursor, c);
    }
  }

  ghost predicate Ascending(cs: seq<Candidate>) {
    forall i, j :: 0 <= i < j < |cs| ==> cs[i].order < cs[j].order
  }

  /** Index of the first candidate at or past the cursor, else of the first candidate. */
  function StartIndex(cs: seq<Candidate>, cursor: int): (k: nat)
    requires cs != []
    ensures k < |cs|
    ensures cs[k].order >= cursor || (k == 0 && forall c :: c in cs ==> c.order < cursor)
    ensures forall i :: 0 <= i < k ==> cs[i].order < cursor
  {
    var k := FindAtOrPast(cs, cursor);
    if k == |cs| then 0 else k
  }

  function FindAtOrPast(cs: seq<Candidate>, cursor: int): (k: nat)
    ensures k <= |cs|
    ensures k < |cs| ==> cs[k].order >= cursor
    ensures forall i :: 0 <= i < k ==> cs[i].order < cursor
  {
    if cs == [] || cs[0].order >= cursor then 0 else FindAtOrPast(cs[1..], cursor) + 1
  }

  /** The pool in cyclic order from the cursor. */
  function Rotated(cs: seq<Candidate>, cursor: int): seq<Candidate>
    requires cs != []
  {
    var k := StartIndex(cs, cursor);
    cs[k..] + cs[..k]
  }

  lemma StartHasSmallestKey(cs: seq<Candidate>, cursor: int, c: Candidate)
    requires Ranked(cs) && Ascending(cs) && cs != [] && c in cs
    ensures var r := Ranking(map[], cursor, MaxOrder(cs));
      var first := cs[StartIndex(cs, cursor)];
      c == first || r.Key(first) < r.Key(c)
  {
    var k := StartIndex(cs, cursor);
    var i :| 0 <= i < |cs| && cs[i] == c;
    assert cs[i] in cs && cs[k] in cs && 0 < c.order;
  }

  /** After assigning the coach at index k the cursor points at the next index, cyclically. */
  lemma CursorAdvances(cs: seq<Candidate>, k: nat)
    requires Ranked(cs) && Ascending(cs) && k < |cs|
    ensures cs[k] in cs
    ensures StartIndex(cs, NextCursor(cs[k].order, MaxOrder(cs))) == if k + 1 < |cs| then k + 1 else 0
  {
    hide NextCursor, MaxOrder;
    LastHasMaxOrder(cs);
    var next := NextCursor(cs[k].order, MaxOrder(cs));
    NextCursorWraps(cs[k].order, MaxOrder(cs));
    if k + 1 < |cs| {
      assert cs[k].order < cs[k + 1].order;
      StartIndexIs(cs, next, k + 1);
    } else {
      StartIndexIs(cs, next, 0);
    }
  }

  lemma StartIndexIs(cs: seq<Candidate>, cursor: int, k: nat)
    requires k < |cs| && cs[k].order >= cursor
    requires forall i :: 0 <= i < k ==> cs[i].order < cursor
    ensures StartIndex(cs, cursor) == k
  {
    var s := StartIndex(cs, cursor);
    assert cs[k] in cs;
  }

  lemma NextCursorWraps(order: int, maxOrder: int)
    requires 0 < order <= maxOrder
    ensures NextCursor(order, maxOrder) == if order < maxOrder then order + 1 else 1
  {
    var q, r := order / maxOrder, order % maxOrder;
    assert order == q * maxOrder + r && 0 <= r < maxOrder;
    assert q >= 2 ==> (q - 2) * maxOrder >= 0;
    assert q <= -1 ==> (-1 - q) * maxOrder >= 0;
  }

  lemma LastHasMaxOrder(cs: seq<Candidate>)
    requires Ranked(cs) && Ascending(cs) && cs != []
    ensures MaxOrder(cs) == cs[|cs| - 1].order
    ensures forall i :: 0 <= i < |cs| ==> cs[i] in cs && 0 < cs[i].order <= MaxOrder(cs)
  {
    var top := MaxOrder(cs);
    var m :| m in cs && m.order == top;
    assert cs[|cs| - 1] in cs;
  }

  /**
   * From equal loads, each of n successive assignments takes the next coach in cyclic order
   * from the cursor, so n = |pool| assignments visit every coach exactly once.
   */
  lemma {:induction false} RotationVisitsEveryone(cs: seq<Candidate>, loads: Loads, cursor: int, load: nat, n: nat)
    requires Ranked(cs) && Ascending(cs) && cs != []
    requires forall c :: c in cs ==> Load(loads, c.id) == load
    requires n <= |cs|
    ensures FollowsRotation(cs, cursor, load, n, Rotate(cs, loads, cursor, n))
  {
    hide Advance, FollowsRotation;
    NothingPickedYet(cs, loads, cursor, load);
    if n > 0 {
      RotationVisitsEveryone(cs, loads, cursor, load, n - 1);
      AdvanceFollowsRotation(cs, cursor, load, n - 1, Rotate(cs, loads, cursor, n - 1));
    }
  }

  /** The first n coaches in cyclic order have been picked, once each, and the cursor is on the next. */
  ghost predicate FollowsRotation(cs: seq<Candidate>, cursor: int, load: nat, n: nat, run: Rotation)
    requires cs != [] && n <= |cs|
  {
    && run.picks == Rotated(cs, cursor)[..n]
    && LoadsAfter(cs, run.loads, load, run.picks)
    && (n < |cs| ==> StartIndex(cs, run.cursor) == NthIndex(cs, cursor, n))
  }

  lemma NothingPickedYet(cs: seq<Candidate>, loads: Loads, cursor: int, load: nat)
    requires cs != [] && forall c :: c in cs ==> Load(loads, c.id) == load
    ensures FollowsRotation(cs, cursor, load, 0, Rotation(loads, cursor, []))
  {
  }

  lemma AdvanceFollowsRotation(cs: seq<Candidate>, cursor: int, load: nat, n: nat, run: Rotation)
    requires Ranked(cs) && Ascending(cs) && n < |cs| && FollowsRotation(cs, cursor, load, n, run)
    ensures FollowsRotation(cs, cursor, load, n + 1, Advance(cs, run))
  {
    hide NextPick, RoundRobin, Rotated, StartIndex, LoadsAfter, Ranked, Ascending, Load;
    var s := NthIndex(cs, cursor, n);
    NextInRotation(cs, cursor, n);
    LoadsStep(cs, run.loads, load, run.picks, cs[s]);
    StartIsPicked(cs, run.loads, run.cursor);
    PickIsAssigned(cs, run.loads, run.cursor);
    RoundRobinMovesOn(cs, run.loads, run.cursor, Everyone(), s);
  }

  /** Every coach has its starting load, plus one if it has been picked. */
  ghost predicate LoadsAfter(cs: seq<Candidate>, loads: Loads, load: nat, picks: seq<Candidate>) {
    forall c :: c in cs ==> Load(loads, c.id) == load + if c in picks then 1 else 0
  }

  lemma LoadsStep(cs: seq<Candidate>, loads: Loads, load: nat, picks: seq<Candidate>, p: Candidate)
    requires Ranked(cs) && LoadsAfter(cs, loads, load, picks) && p in cs && p !in picks
    ensures forall c :: c in cs ==> Load(loads, p.id) <= Load(loads, c.id)
    ensures LoadsAfter(cs, loads[p.id := Load(loads, p.id) + 1], load, picks + [p])
  {
    forall c | c in cs && c != p ensures c.id != p.id {
      RankingIsTotal(cs, Ranking(loads, 0, MaxOrder(cs)), c, p);
    }
  }

  /** Index in the pool of the n-th coach in cyclic order from the cursor. */
  function NthIndex(cs: seq<Candidate>, cursor: int, n: nat): (i: nat)
    requires n < |cs|
    ensures i < |cs|
  {
    var i := StartIndex(cs, cursor) + n;
    if i < |cs| then i else i - |cs|
  }

  /** The coach at the start index has a minimal load, so it is the pick. */
  lemma StartIsPicked(cs: seq<Candidate>, loads: Loads, cursor: int)
    requires Ranked(cs) && Ascending(cs) && cs != []
    requires forall c :: c in cs ==> Load(loads, cs[StartIndex(cs, cursor)].id) <= Load(loads, c.id)
    ensures NextPick(cs, loads, cursor) == cs[StartIndex(cs, cursor)]
  {
    hide Ranked;
    var p, first := NextPick(cs, loads, cursor), cs[StartIndex(cs, cursor)];
    StartHasSmallestKey(cs, cursor, p);
    NextPickRanksFirst(cs, loads, cursor, first);
  }

  lemma NextInRotation(cs: seq<Candidate>, cursor: int, n: nat)
    requires Ranked(cs) && n < |cs|
    ensures var next := cs[NthIndex(cs, cursor, n)];
      && |Rotated(cs, cursor)| == |cs| && next in cs && next !in Rotated(cs, cursor)[..n]
      && Rotated(cs, cursor)[..n + 1] == Rotated(cs, cursor)[..n] + [next]
  {
    hide StartIndex;
    var next := cs[NthIndex(cs, cursor, n)];
    var rotated := Rotated(cs, cursor);
    assert rotated[n] == next;
    forall j | 0 <= j < n ensures rotated[j] != next {
      assert rotated[j] == cs[NthIndex(cs, cursor, j)];
    }
    assert rotated[..n + 1] == rotated[..n] + [rotated[n]];
  }
}
