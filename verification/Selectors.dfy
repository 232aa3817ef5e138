/** Reading the spectrum at one moment (`spectrum/selectors.py`). */
module Selectors {
  import opened Wrappers
  import opened Ranges
  import opened Periods
  import opened Sorting
  import opened Gaps
  import opened Capacity
  import opened MasterData
  import opened Reservations

  predicate ByRfStart(a: Assignment, b: Assignment) {
    a.rf.start <= b.rf.start
  }

  predicate Applies(a: Assignment, at: int, window: Option<nat>) {
    a.isActive && a.period.InForce(at) && (window.None? || a.window.id == window.value)
  }

  function Applicable(assignments: seq<Assignment>, at: int, window: Option<nat>): seq<Assignment> {
    if assignments == [] then []
    else if Applies(assignments[0], at, window) then [assignments[0]] + Applicable(assignments[1..], at, window)
    else Applicable(assignments[1..], at, window)
  }

  /** `active_assignments`. */
  function ActiveAssignments(c: DirectionConfig, at: int, window: Option<nat>): seq<Assignment> {
    Sort(Applicable(c.assignments, at, window), ByRfStart)
  }

  predicate Competes(row: Row, exclude: Option<nat>) {
    exclude.None? || row.path != exclude
  }

  predicate HeldAt(row: Row, resources: seq<nat>, at: int, exclude: Option<nat>) {
    && row.resource in resources
    && row.reserves
    && row.period.InForce(at)
    && Competes(row, exclude)
  }

  function Holding(rows: seq<Row>, resources: seq<nat>, at: int, exclude: Option<nat>): seq<Row> {
    if rows == [] then []
    else if HeldAt(rows[0], resources, at, exclude) then [rows[0]] + Holding(rows[1..], resources, at, exclude)
    else Holding(rows[1..], resources, at, exclude)
  }

  predicate ByAllocStart(a: Row, b: Row) {
    a.alloc.start <= b.alloc.start
  }

  /** `reservations_on`. */
  function ReservationsOn(rows: seq<Row>, resources: seq<nat>, at: int, exclude: Option<nat>): seq<Row> {
    Sort(Holding(rows, resources, at, exclude), ByAllocStart)
  }

  /** `_window_for_leg`: the window whose own side is this leg. */
  function WindowForLeg(c: DirectionConfig, leg: Leg): Option<nat> {
    if c.uplinkWindow.side == leg then Some(c.uplinkWindow.id)
    else if c.downlinkWindow.side == leg then Some(c.downlinkWindow.id)
    else None
  }

  function GrantedRanges(assignments: seq<Assignment>): seq<FrequencyRange> {
    if assignments == [] then [] else [assignments[0].rf] + GrantedRanges(assignments[1..])
  }

  function HeldRanges(rows: seq<Row>): seq<FrequencyRange> {
    if rows == [] then [] else [rows[0].alloc] + HeldRanges(rows[1..])
  }

  function Entitlements(c: DirectionConfig, leg: Leg, at: int): seq<FrequencyRange> {
    GrantedRanges(ActiveAssignments(c, at, WindowForLeg(c, leg)))
  }

  function OccupiedOn(c: DirectionConfig, rows: seq<Row>, leg: Leg, at: int, exclude: Option<nat>): seq<FrequencyRange> {
    HeldRanges(ReservationsOn(rows, LegResources(c.resources, leg), at, exclude))
  }

  /** `capacity`. */
  function CapacityOf(c: DirectionConfig, rows: seq<Row>, leg: Leg, at: int, exclude: Option<nat>): CapacitySummary {
    var entitlements := Entitlements(c, leg, at);
    if LegResources(c.resources, leg) == [] || entitlements == [] then Summarise(entitlements, [])
    else Summarise(entitlements, OccupiedOn(c, rows, leg, at, exclude))
  }

  // ------------------------------------------------------------------------------------------
  // What the filters select
  // ------------------------------------------------------------------------------------------

  lemma {:induction false} ApplicableMembers(assignments: seq<Assignment>, at: int, window: Option<nat>, a: Assignment)
    ensures a in Applicable(assignments, at, window) <==> a in assignments && Applies(a, at, window)
  {
    if assignments != [] {
      ApplicableMembers(assignments[1..], at, window, a);
      assert assignments == [assignments[0]] + assignments[1..];
    }
  }

  lemma ActiveAssignmentMembers(c: DirectionConfig, at: int, window: Option<nat>, a: Assignment)
    ensures a in ActiveAssignments(c, at, window) <==>
            && a in c.assignments && a.isActive && a.period.InForce(at)
            && (window.Some? ==> a.window.id == window.value)
  {
    ApplicableMembers(c.assignments, at, window, a);
    SortKeepsElements(Applicable(c.assignments, at, window), ByRfStart);
    SameElements(ActiveAssignments(c, at, window), Applicable(c.assignments, at, window));
  }

  lemma {:induction false} HoldingMembers(rows: seq<Row>, resources: seq<nat>, at: int, exclude: Option<nat>, row: Row)
    ensures row in Holding(rows, resources, at, exclude) <==> row in rows && HeldAt(row, resources, at, exclude)
  {
    if rows != [] {
      HoldingMembers(rows[1..], resources, at, exclude, row);
      assert rows == [rows[0]] + rows[1..];
    }
  }

  lemma ReservationsOnMembers(rows: seq<Row>, resources: seq<nat>, at: int, exclude: Option<nat>, row: Row)
    ensures row in ReservationsOn(rows, resources, at, exclude) <==>
            && row in rows && row.resource in resources && row.reserves && row.period.InForce(at)
            && (exclude.Some? ==> row.path != exclude)
  {
    HoldingMembers(rows, resources, at, exclude, row);
    SortKeepsElements(Holding(rows, resources, at, exclude), ByAllocStart);
    SameElements(ReservationsOn(rows, resources, at, exclude), Holding(rows, resources, at, exclude));
  }

  /** A row somebody other than the excluded allocation holds on this leg at this moment. */
  predicate HoldsOnLeg(c: DirectionConfig, leg: Leg, row: Row, at: int, exclude: Option<nat>) {
    && Resource(row.resource, leg) in c.resources && row.reserves && row.period.InForce(at)
    && (exclude.Some? ==> row.path != exclude)
  }

  lemma HeldOnLegMembers(c: DirectionConfig, rows: seq<Row>, leg: Leg, at: int, exclude: Option<nat>, row: Row)
    ensures row in ReservationsOn(rows, LegResources(c.resources, leg), at, exclude) <==>
            row in rows && HoldsOnLeg(c, leg, row, at, exclude)
  {
    ReservationsOnMembers(rows, LegResources(c.resources, leg), at, exclude, row);
    LegResourcesMembers(c.resources, leg, row.resource);
  }

  lemma {:induction false} HoldingWithoutOne(rows: seq<Row>, resources: seq<nat>, at: int, id: nat)
    ensures Holding(rows, resources, at, Some(id)) == Holding(Released(rows, id), resources, at, None)
  {
    if rows != [] {
      HoldingWithoutOne(rows[1..], resources, at, id);
      if !Belongs(rows[0], id) {
        assert ([rows[0]] + Released(rows[1..], id))[1..] == Released(rows[1..], id);
      }
    }
  }

  /** Leaving an allocation out is reading a table from which its rows have been released. */
  lemma ExcludingIsReleasing(rows: seq<Row>, resources: seq<nat>, at: int, id: nat)
    ensures ReservationsOn(rows, resources, at, Some(id)) == ReservationsOn(Released(rows, id), resources, at, None)
  {
    HoldingWithoutOne(rows, resources, at, id);
  }

  lemma ReservationsOnAscend(rows: seq<Row>, resources: seq<nat>, at: int, exclude: Option<nat>)
    ensures var held := ReservationsOn(rows, resources, at, exclude);
            forall i, j :: 0 <= i < j < |held| ==> held[i].alloc.start <= held[j].alloc.start
  {
    assert IsOrder(ByAllocStart);
    SortSorts(Holding(rows, resources, at, exclude), ByAllocStart);
  }

  lemma {:induction false} GrantedRangesMembers(assignments: seq<Assignment>, r: FrequencyRange)
    ensures r in GrantedRanges(assignments) <==> exists a :: a in assignments && a.rf == r
  {
    if assignments != [] {
      GrantedRangesMembers(assignments[1..], r);
      assert assignments == [assignments[0]] + assignments[1..];
      assert assignments[0] in assignments;
    }
  }

  lemma {:induction false} HeldRangesMembers(rows: seq<Row>, r: FrequencyRange)
    ensures r in HeldRanges(rows) <==> exists row :: row in rows && row.alloc == r
  {
    if rows != [] {
      HeldRangesMembers(rows[1..], r);
      assert rows == [rows[0]] + rows[1..];
      assert rows[0] in rows;
    }
  }

  // ------------------------------------------------------------------------------------------
  // Capacity and the exclusion constraint agree
  // ------------------------------------------------------------------------------------------

  /** The window of a leg is the uplink's if that lies on this leg, else the downlink's if that does. On a
      leg of neither, any window counts. */
  predicate CountsOnLeg(c: DirectionConfig, leg: Leg, window: nat) {
    && (c.uplinkWindow.side == leg ==> window == c.uplinkWindow.id)
    && (c.uplinkWindow.side != leg && c.downlinkWindow.side == leg ==> window == c.downlinkWindow.id)
  }

  /** An active grant on this leg that covers the range and is in force. */
  ghost predicate Granted(c: DirectionConfig, leg: Leg, at: int, r: FrequencyRange) {
    exists a :: a in c.assignments && a.isActive && a.period.InForce(at) && CountsOnLeg(c, leg, a.window.id) && a.rf.Contains(r)
  }

  /** What the constraint would compare: the range, held on one resource for that one moment. Which
      assignment it names makes no difference. */
  function Probe(a: Assignment, leg: Leg, resource: nat, r: FrequencyRange, at: int): Row {
    Row(resource, a, leg, a.window.polarization, r, r, Span(at, Some(at + 1)),
        FixedReserve, None, None, None, true)
  }

  /** Would the constraint let this range in, on every resource of the leg, at this moment, next to
      everything but the excluded allocation? */
  ghost predicate ConstraintAccepts(c: DirectionConfig, rows: seq<Row>, leg: Leg, at: int, exclude: Option<nat>,
                                    a: Assignment, r: FrequencyRange) {
    forall resource, row ::
      Resource(resource, leg) in c.resources && row in rows && (exclude.Some? ==> row.path != exclude) ==>
        !Conflict(row, Probe(a, leg, resource, r, at))
  }

  lemma NothingHeldIffConstraintAccepts(c: DirectionConfig, rows: seq<Row>, leg: Leg, at: int, exclude: Option<nat>,
                                        a: Assignment, r: FrequencyRange)
    ensures (forall o :: o in OccupiedOn(c, rows, leg, at, exclude) ==> !o.Overlaps(r)) <==>
            ConstraintAccepts(c, rows, leg, at, exclude, a, r)
  {
    var resources := LegResources(c.resources, leg);
    var held := ReservationsOn(rows, resources, at, exclude);
    if forall o :: o in OccupiedOn(c, rows, leg, at, exclude) ==> !o.Overlaps(r) {
      forall resource, row | Resource(resource, leg) in c.resources && row in rows && (exclude.Some? ==> row.path != exclude)
        ensures !Conflict(row, Probe(a, leg, resource, r, at))
      {
        LegResourcesMembers(c.resources, leg, resource);
        ReservationsOnMembers(rows, resources, at, exclude, row);
        HeldRangesMembers(held, row.alloc);
      }
    }
    if ConstraintAccepts(c, rows, leg, at, exclude, a, r) {
      forall o | o in OccupiedOn(c, rows, leg, at, exclude)
        ensures !o.Overlaps(r)
      {
        HeldRangesMembers(held, o);
        var row :| row in held && row.alloc == o;
        ReservationsOnMembers(rows, resources, at, exclude, row);
        LegResourcesMembers(c.resources, leg, row.resource);
        assert !Conflict(row, Probe(a, leg, row.resource, r, at));
      }
    }
  }

  lemma EntitlementMembers(c: DirectionConfig, leg: Leg, at: int, r: FrequencyRange)
    ensures (exists e :: e in Entitlements(c, leg, at) && e.Contains(r)) <==> Granted(c, leg, at, r)
  {
    var window := WindowForLeg(c, leg);
    var active := ActiveAssignments(c, at, window);
    if e :| e in Entitlements(c, leg, at) && e.Contains(r) {
      GrantedRangesMembers(active, e);
      var a :| a in active && a.rf == e;
      ActiveAssignmentMembers(c, at, window, a);
    }
    if a :| a in c.assignments && a.isActive && a.period.InForce(at) && CountsOnLeg(c, leg, a.window.id) && a.rf.Contains(r) {
      ActiveAssignmentMembers(c, at, window, a);
      GrantedRangesMembers(active, a.rf);
    }
  }

  /** A range lies inside a reported gap exactly when the direction is granted it and the constraint
      would accept it at that moment on every resource of the leg, whichever Beam holds the rest. */
  lemma CapacityAgreesWithConstraint(c: DirectionConfig, rows: seq<Row>, leg: Leg, at: int, exclude: Option<nat>,
                                     a: Assignment, r: FrequencyRange)
    ensures (exists g :: g in CapacityOf(c, rows, leg, at, exclude).gaps && g.range.Contains(r)) <==>
            Granted(c, leg, at, r) && ConstraintAccepts(c, rows, leg, at, exclude, a, r)
  {
    var entitlements := Entitlements(c, leg, at);
    EntitlementMembers(c, leg, at, r);
    NothingHeldIffConstraintAccepts(c, rows, leg, at, exclude, a, r);
    if LegResources(c.resources, leg) == [] {
      NothingHeldWithoutResources(rows, at, exclude);
    }
    if LegResources(c.resources, leg) == [] || entitlements == [] {
      GapsCoverExactlyTheFreeRanges(entitlements, [], r);
    } else {
      GapsCoverExactlyTheFreeRanges(entitlements, OccupiedOn(c, rows, leg, at, exclude), r);
    }
  }

  // ------------------------------------------------------------------------------------------
  // Capacity is conserved, because grants of one window are exclusive
  // ------------------------------------------------------------------------------------------

  ghost predicate DisjointGrants(assignments: seq<Assignment>) {
    forall i, j :: 0 <= i < j < |assignments| ==> !assignments[i].rf.Overlaps(assignments[j].rf)
  }

  lemma {:induction false} ApplicableGrantsAreDisjoint(assignments: seq<Assignment>, at: int, window: nat)
    requires AssignmentsExclusive(assignments)
    ensures DisjointGrants(Applicable(assignments, at, Some(window)))
  {
    if assignments != [] {
      var rest := Applicable(assignments[1..], at, Some(window));
      ApplicableGrantsAreDisjoint(assignments[1..], at, window);
      if Applies(assignments[0], at, Some(window)) {
        forall k | 0 <= k < |rest|
          ensures !assignments[0].rf.Overlaps(rest[k].rf)
        {
          ApplicableMembers(assignments[1..], at, Some(window), rest[k]);
          var n :| 0 <= n < |assignments[1..]| && assignments[1..][n] == rest[k];
          assert assignments[n + 1] == rest[k];
          OverlapIsSharedMoment(assignments[0].period, rest[k].period);
        }
      }
    }
  }

  lemma DisjointGrantsCons(x: Assignment, rest: seq<Assignment>)
    requires DisjointGrants(rest) && forall a :: a in rest ==> !x.rf.Overlaps(a.rf)
    ensures DisjointGrants([x] + rest)
  {
  }

  lemma {:induction false} InsertKeepsDisjoint(x: Assignment, s: seq<Assignment>)
    requires DisjointGrants(s) && forall a :: a in s ==> !x.rf.Overlaps(a.rf)
    ensures DisjointGrants(Insert(x, s, ByRfStart))
  {
    if s == [] || ByRfStart(x, s[0]) {
      DisjointGrantsCons(x, s);
    } else {
      var rest := Insert(x, s[1..], ByRfStart);
      InsertKeepsDisjoint(x, s[1..]);
      InsertKeepsElements(x, s[1..], ByRfStart);
      SameElements(rest, [x] + s[1..]);
      forall a | a in rest
        ensures !s[0].rf.Overlaps(a.rf)
      {
        assert a == x || a in s[1..];
      }
      DisjointGrantsCons(s[0], rest);
    }
  }

  lemma {:induction false} SortKeepsDisjoint(s: seq<Assignment>)
    requires DisjointGrants(s)
    ensures DisjointGrants(Sort(s, ByRfStart))
  {
    if s != [] {
      var rest := Sort(s[1..], ByRfStart);
      SortKeepsDisjoint(s[1..]);
      SortKeepsElements(s[1..], ByRfStart);
      SameElements(rest, s[1..]);
      forall k | 0 <= k < |rest|
        ensures !s[0].rf.Overlaps(rest[k].rf)
      {
        assert rest[k] in s[1..];
      }
      InsertKeepsDisjoint(s[0], rest);
    }
  }

  lemma {:induction false} GrantedRangesAt(assignments: seq<Assignment>)
    ensures |GrantedRanges(assignments)| == |assignments|
    ensures forall i :: 0 <= i < |assignments| ==> GrantedRanges(assignments)[i] == assignments[i].rf
  {
    if assignments != [] {
      GrantedRangesAt(assignments[1..]);
    }
  }

  /** On a leg one of the direction's windows covers, what `capacity` reports free and the entitled
      Hz that holding rows cover add up to the total. */
  lemma ReportedCapacityIsConserved(c: DirectionConfig, rows: seq<Row>, leg: Leg, at: int, exclude: Option<nat>)
    requires ConfigValid(c) && leg in {c.uplinkWindow.side, c.downlinkWindow.side}
    ensures var s := CapacityOf(c, rows, leg, at, exclude);
            && 0 <= s.free <= s.total
            && s.free + |CoveredHz(Entitlements(c, leg, at), OccupiedOn(c, rows, leg, at, exclude))| == s.total
  {
    var window := WindowForLeg(c, leg).value;
    var active := ActiveAssignments(c, at, Some(window));
    ApplicableGrantsAreDisjoint(c.assignments, at, window);
    SortKeepsDisjoint(Applicable(c.assignments, at, Some(window)));
    GrantedRangesAt(active);
    var entitlements, occupied := Entitlements(c, leg, at), OccupiedOn(c, rows, leg, at, exclude);
    assert PairwiseDisjoint(entitlements);
    CapacityIsConserved(entitlements, occupied);
    CapacityIsConserved(entitlements, []);
    if LegResources(c.resources, leg) == [] {
      NothingHeldWithoutResources(rows, at, exclude);
      assert occupied == [];
    } else if entitlements == [] {
      assert CoveredHz(entitlements, occupied) == CoveredHz(entitlements, []) == {};
    }
  }

  lemma NothingHeldWithoutResources(rows: seq<Row>, at: int, exclude: Option<nat>)
    ensures ReservationsOn(rows, [], at, exclude) == []
  {
    if ReservationsOn(rows, [], at, exclude) != [] {
      ReservationsOnMembers(rows, [], at, exclude, ReservationsOn(rows, [], at, exclude)[0]);
    }
  }
}
