/**
 * What `auto_place` really proposes (`satnet_paths/services.py`), measured against the capacity it
 * read and against the preview it hands its proposal to.
 */
module AutoPlacement {
  import opened Wrappers
  import opened Ranges
  import opened Periods
  import opened Rounding
  import opened Bandwidth
  import opened Sorting
  import opened Gaps
  import opened MasterData
  import opened Reservations
  import opened Selectors
  import opened PathServices
  import opened Previews

  /** The uplink range reserved for a transmission centred here. */
  function ReservedAround(centre: int, bandwidth: int, guards: GuardWidths): FrequencyRange
    requires bandwidth > 0
  {
    OccupiedRange(centre, bandwidth).Expanded(guards.left, guards.right)
  }

  lemma HalvesOf(bandwidth: int)
    requires bandwidth > 0
    ensures bandwidth / 2 + HalfWidth(bandwidth) == bandwidth
    ensures HalfWidth(bandwidth) == bandwidth / 2 + bandwidth % 2
  {
    CeilDivIsLeast(bandwidth, 2, (bandwidth + 1) / 2);
    CeilDivIsLeast(bandwidth, 2, (bandwidth + 1) / 2 - 1);
  }

  lemma GapsAreSorted(c: DirectionConfig, rows: seq<Row>, leg: Leg, now: int)
    ensures Sorted(CapacityOf(c, rows, leg, now, None).gaps, ByGapStart)
  {
    var entitlements := Entitlements(c, leg, now);
    FindIsAscending(entitlements, [], 1);
    FindIsAscending(entitlements, OccupiedOn(c, rows, leg, now, None), 1);
  }

  lemma FirstFittingIsLowest(gaps: seq<Gap>, needed: int, r: FrequencyRange, g: Gap)
    requires Sorted(gaps, ByGapStart) && g in gaps && g.range.Contains(r) && r.Width() >= needed
    ensures FirstFitting(gaps, needed).Some?
    ensures FirstFitting(gaps, needed).value.range.start <= r.start
  {
    FirstFittingIsFirst(gaps, needed);
    assert g.Fits(needed);
  }

  ghost predicate InGap(gaps: seq<Gap>, r: FrequencyRange) {
    exists g :: g in gaps && g.range.Contains(r)
  }

  /** No centre whose whole range fits a gap is lower than the proposed one; for an odd bandwidth not
      even the proposed one is high enough. */
  lemma EveryFeasibleCentreIsHigher(gaps: seq<Gap>, bandwidth: int, guards: GuardWidths, centre: int)
    requires bandwidth > 0 && Sorted(gaps, ByGapStart)
    requires InGap(gaps, ReservedAround(centre, bandwidth, guards))
    ensures CentreIn(gaps, bandwidth, guards).Some?
    ensures centre >= CentreIn(gaps, bandwidth, guards).value + bandwidth % 2
  {
    var r := ReservedAround(centre, bandwidth, guards);
    var g :| g in gaps && g.range.Contains(r);
    HalvesOf(bandwidth);
    FirstFittingIsLowest(gaps, bandwidth + guards.left + guards.right, r, g);
  }

  lemma CentreInGaps(gaps: seq<Gap>, bandwidth: int, guards: GuardWidths)
    requires bandwidth > 0 && Sorted(gaps, ByGapStart) && CentreIn(gaps, bandwidth, guards).Some?
    ensures var needed := bandwidth + guards.left + guards.right;
            var gap := FirstFitting(gaps, needed).value.range;
            var centre := CentreIn(gaps, bandwidth, guards).value;
            && ReservedAround(centre, bandwidth, guards) == Interval(gap.start - bandwidth % 2, gap.start + needed)
            && (InGap(gaps, ReservedAround(centre, bandwidth, guards)) <==> bandwidth % 2 == 0)
            && (forall lower :: lower < centre ==> !InGap(gaps, ReservedAround(lower, bandwidth, guards)))
  {
    var centre := CentreIn(gaps, bandwidth, guards).value;
    var placed := ReservedAround(centre, bandwidth, guards);
    var needed := bandwidth + guards.left + guards.right;
    var gap := FirstFitting(gaps, needed).value;
    HalvesOf(bandwidth);
    FirstFittingIsFirst(gaps, needed);
    if bandwidth % 2 == 0 {
      assert gap in gaps && gap.range.Contains(placed);
    }
    if InGap(gaps, placed) {
      EveryFeasibleCentreIsHigher(gaps, bandwidth, guards, centre);
    }
    forall lower | lower < centre
      ensures !InGap(gaps, ReservedAround(lower, bandwidth, guards))
    {
      if InGap(gaps, ReservedAround(lower, bandwidth, guards)) {
        EveryFeasibleCentreIsHigher(gaps, bandwidth, guards, lower);
      }
    }
  }

  /** The proposed range starts at the gap for an even bandwidth and 1 Hz below it for an odd one,
      and ends where the needed width ends. So it is inside a gap that capacity reports exactly when
      the occupied bandwidth is even, and no lower centre would do. */
  lemma AutoPlaceFitsExactlyEvenBandwidths(c: DirectionConfig, rows: seq<Row>, now: int, bandwidth: int, guards: GuardWidths)
    requires bandwidth > 0 && AutoCentre(c, rows, now, bandwidth, guards).Some?
    ensures var gaps := CapacityOf(c, rows, CanonicalLegOf(c), now, None).gaps;
            var needed := bandwidth + guards.left + guards.right;
            var gap := FirstFitting(gaps, needed).value.range;
            var centre := AutoCentre(c, rows, now, bandwidth, guards).value;
            var placed := ReservedAround(centre, bandwidth, guards);
            && placed == Interval(gap.start - bandwidth % 2, gap.start + needed)
            && (InGap(gaps, placed) <==> bandwidth % 2 == 0)
            && (forall lower :: lower < centre ==> !InGap(gaps, ReservedAround(lower, bandwidth, guards)))
  {
    GapsAreSorted(c, rows, CanonicalLegOf(c), now);
    CentreInGaps(CapacityOf(c, rows, CanonicalLegOf(c), now, None).gaps, bandwidth, guards);
  }

  /** The range is granted now on the canonical leg, which is the uplink where none is named, and the
      constraint would take it now on every resource of that leg. */
  ghost predicate CouldHave(c: DirectionConfig, rows: seq<Row>, now: int, a: Assignment, r: FrequencyRange) {
    var leg := if c.canonicalLeg.Some? then c.canonicalLeg.value else c.uplinkLeg;
    Granted(c, leg, now, r) && ConstraintAccepts(c, rows, leg, now, None, a, r)
  }

  lemma InGapIffCouldHave(c: DirectionConfig, rows: seq<Row>, now: int, a: Assignment, r: FrequencyRange)
    ensures InGap(CapacityOf(c, rows, CanonicalLegOf(c), now, None).gaps, r) <==> CouldHave(c, rows, now, a, r)
  {
    CapacityAgreesWithConstraint(c, rows, CanonicalLegOf(c), now, None, a, r);
  }

  lemma NothingFound(c: DirectionConfig, rows: seq<Row>, now: int, bandwidth: int, guards: GuardWidths, a: Assignment,
                     r: FrequencyRange)
    requires AutoCentre(c, rows, now, bandwidth, guards).None? && r.Width() == bandwidth + guards.left + guards.right
    ensures !CouldHave(c, rows, now, a, r)
  {
    var gaps := CapacityOf(c, rows, CanonicalLegOf(c), now, None).gaps;
    InGapIffCouldHave(c, rows, now, a, r);
    GapsAreSorted(c, rows, CanonicalLegOf(c), now);
    FirstFittingIsFirst(gaps, r.Width());
    assert forall g :: g in gaps && g.range.Contains(r) ==> g.Fits(r.Width());
  }

  lemma SomethingFound(c: DirectionConfig, rows: seq<Row>, now: int, bandwidth: int, guards: GuardWidths, a: Assignment)
    returns (r: FrequencyRange)
    requires bandwidth > 0 && AutoCentre(c, rows, now, bandwidth, guards).Some?
    ensures r.Width() == bandwidth + guards.left + guards.right && CouldHave(c, rows, now, a, r)
  {
    var needed := bandwidth + guards.left + guards.right;
    var gaps := CapacityOf(c, rows, CanonicalLegOf(c), now, None).gaps;
    GapsAreSorted(c, rows, CanonicalLegOf(c), now);
    FirstFittingIsFirst(gaps, needed);
    var g := FirstFitting(gaps, needed).value;
    r := Interval(g.range.start, g.range.start + needed);
    assert g in gaps && g.range.Contains(r);
    InGapIffCouldHave(c, rows, now, a, r);
  }

  /** `auto_place` finds nothing exactly when no range of the needed width is free now. */
  lemma AutoPlaceIsComplete(c: DirectionConfig, rows: seq<Row>, now: int, bandwidth: int, guards: GuardWidths, a: Assignment)
    requires bandwidth > 0
    ensures AutoCentre(c, rows, now, bandwidth, guards).None? <==>
            forall r: FrequencyRange :: r.Width() == bandwidth + guards.left + guards.right ==>
              !CouldHave(c, rows, now, a, r)
  {
    if AutoCentre(c, rows, now, bandwidth, guards).None? {
      forall r: FrequencyRange | r.Width() == bandwidth + guards.left + guards.right
        ensures !CouldHave(c, rows, now, a, r)
      {
        NothingFound(c, rows, now, bandwidth, guards, a, r);
      }
    } else {
      var r := SomethingFound(c, rows, now, bandwidth, guards, a);
    }
  }

  // ------------------------------------------------------------------------------------------
  // Room in the lowest grant
  // ------------------------------------------------------------------------------------------

  lemma CapacityGaps(c: DirectionConfig, rows: seq<Row>, leg: Leg, now: int)
    ensures CapacityOf(c, rows, leg, now, None).gaps == FindGaps(Entitlements(c, leg, now), OccupiedOn(c, rows, leg, now, None), 1)
  {
    if LegResources(c.resources, leg) == [] {
      NothingHeldWithoutResources(rows, now, None);
    }
  }

  lemma PlaceInOneOfThem(entitlements: seq<FrequencyRange>, occupied: seq<FrequencyRange>, needed: int, e: FrequencyRange)
    requires needed >= 1 && e in entitlements && FirstFit([e], occupied, needed).Some?
    ensures var start := FirstFit([e], occupied, needed).value.range.start;
            var own := Interval(start, start + needed);
            e.Contains(own) && CouldGo([e], occupied, own, needed) && CouldGo(entitlements, occupied, own, needed)
  {
    FirstFitIsCompleteAndLowest([e], occupied, needed);
    var start := FirstFit([e], occupied, needed).value.range.start;
    assert CouldGo([e], occupied, Interval(start, start + needed), needed);
  }

  lemma FirstHoldsLowerPlaces(entitlements: seq<FrequencyRange>, own: FrequencyRange, place: FrequencyRange)
    requires entitlements != [] && PairwiseDisjoint(entitlements)
    requires forall i :: 0 <= i < |entitlements| ==> entitlements[0].start <= entitlements[i].start
    requires entitlements[0].Contains(own) && place.start <= own.start
    requires exists e :: e in entitlements && e.Contains(place)
    ensures entitlements[0].Contains(place)
  {
    var e :| e in entitlements && e.Contains(place);
    var i :| 0 <= i < |entitlements| && entitlements[i] == e;
    assert i > 0 ==> !entitlements[0].Overlaps(entitlements[i]);
  }

  /** Of disjoint entitlements the first holds the lowest place of all exactly when it has a place at
      all, and then its own lowest place is that one. */
  lemma LowestPlaceIsInTheFirst(entitlements: seq<FrequencyRange>, occupied: seq<FrequencyRange>, needed: int)
    requires entitlements != [] && PairwiseDisjoint(entitlements) && needed >= 1
    requires forall i :: 0 <= i < |entitlements| ==> entitlements[0].start <= entitlements[i].start
    requires FirstFit(entitlements, occupied, needed).Some?
    ensures var lowest := FirstFit(entitlements, occupied, needed).value.range.start;
            var room := FirstFit([entitlements[0]], occupied, needed);
            && (room.Some? <==> entitlements[0].Contains(Interval(lowest, lowest + needed)))
            && (room.Some? ==> room.value.range.start == lowest)
  {
    var first := entitlements[0];
    var lowest := FirstFit(entitlements, occupied, needed).value.range.start;
    var place := Interval(lowest, lowest + needed);
    FirstFitIsCompleteAndLowest(entitlements, occupied, needed);
    FirstFitIsCompleteAndLowest([first], occupied, needed);
    assert CouldGo(entitlements, occupied, place, needed);
    if first.Contains(place) {
      assert first in [first];
      assert CouldGo([first], occupied, place, needed);
    }
    var room := FirstFit([first], occupied, needed);
    if room.Some? {
      var own := Interval(room.value.range.start, room.value.range.start + needed);
      PlaceInOneOfThem(entitlements, occupied, needed, first);
      FirstHoldsLowerPlaces(entitlements, own, place);
    }
  }

  /** The lowest grant of the uplink window, alone, still has room for this width. */
  function RoomInLowestGrant(c: DirectionConfig, rows: seq<Row>, now: int, needed: int): Option<Gap> {
    var grant := AssignmentFor(c, c.uplinkWindow, now);
    if grant.None? then None else FirstFit([grant.value.rf], OccupiedOn(c, rows, c.uplinkLeg, now, None), needed)
  }

  predicate TypedOnUplink(c: DirectionConfig) {
    c.canonicalLeg in {None, Some(c.uplinkLeg)} && c.uplinkLeg == c.uplinkWindow.side
  }

  lemma LowestGrantFirst(c: DirectionConfig, now: int)
    requires ConfigValid(c) && c.uplinkWindow.side == c.uplinkLeg
    ensures var entitlements := Entitlements(c, c.uplinkLeg, now);
            && PairwiseDisjoint(entitlements)
            && (entitlements != [] <==> AssignmentFor(c, c.uplinkWindow, now).Some?)
            && (entitlements != [] ==>
                  && entitlements[0] == AssignmentFor(c, c.uplinkWindow, now).value.rf
                  && forall i :: 0 <= i < |entitlements| ==> entitlements[0].start <= entitlements[i].start)
  {
    var window := Some(c.uplinkWindow.id);
    var active := ActiveAssignments(c, now, window);
    ApplicableGrantsAreDisjoint(c.assignments, now, c.uplinkWindow.id);
    SortKeepsDisjoint(Applicable(c.assignments, now, window));
    assert IsOrder(ByRfStart);
    SortSorts(Applicable(c.assignments, now, window), ByRfStart);
    GrantedRangesAt(active);
    assert forall i :: 0 < i < |active| ==> ByRfStart(active[0], active[i]);
  }

  /** Where the capacity of the uplink puts the proposal, in terms of `first_fit`. */
  lemma CentreIsFirstFit(c: DirectionConfig, rows: seq<Row>, now: int, bandwidth: int, guards: GuardWidths)
    requires TypedOnUplink(c)
    requires bandwidth > 0 && AutoCentre(c, rows, now, bandwidth, guards).Some?
    ensures var needed := bandwidth + guards.left + guards.right;
            var fit := FirstFit(Entitlements(c, c.uplinkLeg, now), OccupiedOn(c, rows, c.uplinkLeg, now, None), needed);
            var placed := ReservedAround(AutoCentre(c, rows, now, bandwidth, guards).value, bandwidth, guards);
            && fit.Some?
            && placed == Interval(fit.value.range.start - bandwidth % 2, fit.value.range.start + needed)
  {
    CapacityGaps(c, rows, c.uplinkLeg, now);
    AutoPlaceFitsExactlyEvenBandwidths(c, rows, now, bandwidth, guards);
  }

  /** The proposed range lies inside the one grant a preview considers exactly when that grant has room
      by itself and, for an odd bandwidth, 1 Hz to spare below it. The range then starts at that room,
      less the 1 Hz. */
  lemma ProposalIsInLowestGrantIff(c: DirectionConfig, rows: seq<Row>, now: int, bandwidth: int, guards: GuardWidths)
    requires ConfigValid(c) && TypedOnUplink(c)
    requires bandwidth > 0 && AutoCentre(c, rows, now, bandwidth, guards).Some?
    ensures AssignmentFor(c, c.uplinkWindow, now).Some?
    ensures var placed := ReservedAround(AutoCentre(c, rows, now, bandwidth, guards).value, bandwidth, guards);
            var grant := AssignmentFor(c, c.uplinkWindow, now).value;
            var room := RoomInLowestGrant(c, rows, now, bandwidth + guards.left + guards.right);
            && (grant.rf.Contains(placed) <==>
                room.Some? && (bandwidth % 2 == 1 ==> grant.rf.start < room.value.range.start))
            && (room.Some? ==> placed.start == room.value.range.start - bandwidth % 2)
  {
    var needed := bandwidth + guards.left + guards.right;
    var entitlements, occupied := Entitlements(c, c.uplinkLeg, now), OccupiedOn(c, rows, c.uplinkLeg, now, None);
    CentreIsFirstFit(c, rows, now, bandwidth, guards);
    LowestGrantFirst(c, now);
    FirstFitIsCompleteAndLowest(entitlements, occupied, needed);
    LowestPlaceIsInTheFirst(entitlements, occupied, needed);
  }

  // ------------------------------------------------------------------------------------------
  // What the preview says about the proposal
  // ------------------------------------------------------------------------------------------

  /** Whatever holds this Hz of the uplink now lets it go before, or took it after, the period. */
  ghost predicate HzFreeFor(c: DirectionConfig, rows: seq<Row>, now: int, hz: int, requested: TimePeriod) {
    forall row :: row in rows && HoldsOnLeg(c, c.uplinkLeg, row, now, None) && row.alloc.ContainsHz(hz) ==>
      !requested.Overlaps(row.period)
  }

  /** What decides a proposed uplink, before it is proposed: a mapped leg, room in the lowest grant, and
      for an odd bandwidth one more Hz below that room, granted and free for the period. */
  ghost predicate UplinkFits(c: DirectionConfig, rows: seq<Row>, now: int, bandwidth: int, guards: GuardWidths,
                             requested: TimePeriod) {
    var room := RoomInLowestGrant(c, rows, now, bandwidth + guards.left + guards.right);
    && Mapped(c, c.uplinkLeg)
    && room.Some?
    && (bandwidth % 2 == 1 ==>
          && AssignmentFor(c, c.uplinkWindow, now).value.rf.start < room.value.range.start
          && HzFreeFor(c, rows, now, room.value.range.start - 1, requested))
  }

  lemma HeldIsOccupied(c: DirectionConfig, rows: seq<Row>, leg: Leg, now: int, row: Row)
    requires row in rows && HoldsOnLeg(c, leg, row, now, None)
    ensures row.alloc in OccupiedOn(c, rows, leg, now, None)
  {
    HeldOnLegMembers(c, rows, leg, now, None, row);
    HeldRangesMembers(ReservationsOn(rows, LegResources(c.resources, leg), now, None), row.alloc);
  }

  lemma OneHzWider(place: FrequencyRange, wider: int, o: FrequencyRange)
    requires 0 <= wider <= 1 && !place.Overlaps(o)
    ensures Interval(place.start - wider, place.end).Overlaps(o) <==> wider == 1 && o.ContainsHz(place.start - 1)
  {
  }

  lemma LowestPlaceIsClear(entitlements: seq<FrequencyRange>, occupied: seq<FrequencyRange>, needed: int, o: FrequencyRange)
    requires needed >= 1 && FirstFit(entitlements, occupied, needed).Some? && o in occupied
    ensures var start := FirstFit(entitlements, occupied, needed).value.range.start;
            !Interval(start, start + needed).Overlaps(o)
  {
    FirstFitIsCompleteAndLowest(entitlements, occupied, needed);
    var start := FirstFit(entitlements, occupied, needed).value.range.start;
    assert CouldGo(entitlements, occupied, Interval(start, start + needed), needed);
  }

  lemma WiderMeetsOnlyTheHzBelow(c: DirectionConfig, rows: seq<Row>, now: int, needed: int, start: int, wider: int, row: Row)
    requires needed >= 1 && 0 <= wider <= 1 && row in rows && HoldsOnLeg(c, c.uplinkLeg, row, now, None)
    requires var fit := FirstFit(Entitlements(c, c.uplinkLeg, now), OccupiedOn(c, rows, c.uplinkLeg, now, None), needed);
             fit.Some? && fit.value.range.start == start
    ensures Interval(start - wider, start + needed).Overlaps(row.alloc) <==> wider == 1 && row.alloc.ContainsHz(start - 1)
  {
    HeldIsOccupied(c, rows, c.uplinkLeg, now, row);
    LowestPlaceIsClear(Entitlements(c, c.uplinkLeg, now), OccupiedOn(c, rows, c.uplinkLeg, now, None), needed, row.alloc);
    OneHzWider(Interval(start, start + needed), wider, row.alloc);
  }

  /** Only the Hz below the gap can be in anybody's way. */
  lemma PlacedMeetsOnlyTheHzBelow(c: DirectionConfig, rows: seq<Row>, now: int, bandwidth: int, guards: GuardWidths, row: Row)
    requires TypedOnUplink(c) && bandwidth > 0 && AutoCentre(c, rows, now, bandwidth, guards).Some?
    requires row in rows && HoldsOnLeg(c, c.uplinkLeg, row, now, None)
    ensures var placed := ReservedAround(AutoCentre(c, rows, now, bandwidth, guards).value, bandwidth, guards);
            placed.Overlaps(row.alloc) <==> bandwidth % 2 == 1 && row.alloc.ContainsHz(placed.start)
  {
    CentreIsFirstFit(c, rows, now, bandwidth, guards);
    var start := ReservedAround(AutoCentre(c, rows, now, bandwidth, guards).value, bandwidth, guards).start + bandwidth % 2;
    WiderMeetsOnlyTheHzBelow(c, rows, now, bandwidth + guards.left + guards.right, start, bandwidth % 2, row);
  }

  /** The preview passes the proposed uplink exactly when it fits, for any period. */
  lemma AutoPlacedUplinkIsCleanIff(c: DirectionConfig, rows: seq<Row>, now: int, bandwidth: int, guards: GuardWidths,
                                   requested: TimePeriod)
    requires ConfigValid(c) && TypedOnUplink(c)
    requires bandwidth > 0 && AutoCentre(c, rows, now, bandwidth, guards).Some?
    ensures AssignmentFor(c, c.uplinkWindow, now).Some?
    ensures var placed := ReservedAround(AutoCentre(c, rows, now, bandwidth, guards).value, bandwidth, guards);
            var grant := AssignmentFor(c, c.uplinkWindow, now).value;
            var side := Side(c.uplinkLeg, c.uplinkWindow, placed, placed);
            LegFindings(c, rows, side, grant, requested, now, None) == [] <==>
            UplinkFits(c, rows, now, bandwidth, guards, requested)
  {
    var placed := ReservedAround(AutoCentre(c, rows, now, bandwidth, guards).value, bandwidth, guards);
    ProposalIsInLowestGrantIff(c, rows, now, bandwidth, guards);
    var grant := AssignmentFor(c, c.uplinkWindow, now).value;
    var side := Side(c.uplinkLeg, c.uplinkWindow, placed, placed);
    LegIsCleanIff(c, rows, side, grant, requested, now, None);
    assert LegClear(c, rows, side, grant, requested, now, None) <==>
           && Mapped(c, c.uplinkLeg) && grant.rf.Contains(placed)
           && (bandwidth % 2 == 1 ==> HzFreeFor(c, rows, now, placed.start, requested)) by {
      ClearIsClearBelow(c, rows, now, bandwidth, guards, requested);
    }
  }

  lemma ClearIsClearBelow(c: DirectionConfig, rows: seq<Row>, now: int, bandwidth: int, guards: GuardWidths, requested: TimePeriod)
    requires TypedOnUplink(c) && bandwidth > 0 && AutoCentre(c, rows, now, bandwidth, guards).Some?
    ensures var placed := ReservedAround(AutoCentre(c, rows, now, bandwidth, guards).value, bandwidth, guards);
            (forall row :: row in rows && HoldsOnLeg(c, c.uplinkLeg, row, now, None) ==>
               !(placed.Overlaps(row.alloc) && requested.Overlaps(row.period))) <==>
            (bandwidth % 2 == 1 ==> HzFreeFor(c, rows, now, placed.start, requested))
  {
    var placed := ReservedAround(AutoCentre(c, rows, now, bandwidth, guards).value, bandwidth, guards);
    forall row | row in rows && HoldsOnLeg(c, c.uplinkLeg, row, now, None)
      ensures placed.Overlaps(row.alloc) <==> bandwidth % 2 == 1 && row.alloc.ContainsHz(placed.start)
    {
      PlacedMeetsOnlyTheHzBelow(c, rows, now, bandwidth, guards, row);
    }
  }

  /** A range this leg is granted that is in no gap meets a row that holds spectrum now. */
  lemma OutsideGapsSomethingHolds(c: DirectionConfig, rows: seq<Row>, leg: Leg, now: int, a: Assignment, r: FrequencyRange)
    returns (row: Row)
    requires Granted(c, leg, now, r) && !InGap(CapacityOf(c, rows, leg, now, None).gaps, r)
    ensures row in rows && HoldsOnLeg(c, leg, row, now, None) && r.Overlaps(row.alloc)
  {
    CapacityAgreesWithConstraint(c, rows, leg, now, None, a, r);
    var resource;
    resource, row :| Resource(resource, leg) in c.resources && row in rows && Conflict(row, Probe(a, leg, resource, r, now));
  }

  /** Somebody holds the Hz below the gap now, and not during a period it is free for. */
  lemma HzBelowIsHeldNow(c: DirectionConfig, rows: seq<Row>, now: int, bandwidth: int, guards: GuardWidths, grant: Assignment,
                         hz: int) returns (row: Row)
    requires TypedOnUplink(c) && AssignmentFor(c, c.uplinkWindow, now) == Some(grant)
    requires bandwidth % 2 == 1 && bandwidth > 0 && AutoCentre(c, rows, now, bandwidth, guards).Some?
    requires var placed := ReservedAround(AutoCentre(c, rows, now, bandwidth, guards).value, bandwidth, guards);
             placed.start == hz && grant.rf.Contains(placed)
    ensures row in rows && HoldsOnLeg(c, c.uplinkLeg, row, now, None) && row.alloc.ContainsHz(hz)
  {
    var placed := ReservedAround(AutoCentre(c, rows, now, bandwidth, guards).value, bandwidth, guards);
    AutoPlaceFitsExactlyEvenBandwidths(c, rows, now, bandwidth, guards);
    LowestGrantCovers(c, now, placed);
    row := OutsideGapsSomethingHolds(c, rows, c.uplinkLeg, now, grant, placed);
    PlacedMeetsOnlyTheHzBelow(c, rows, now, bandwidth, guards, row);
  }

  /** An odd proposal fits only for another time: somebody holds the Hz below the gap now. */
  lemma OddUplinkFitsOnlyForAnotherTime(c: DirectionConfig, rows: seq<Row>, now: int, bandwidth: int, guards: GuardWidths,
                                        requested: TimePeriod)
    requires ConfigValid(c) && TypedOnUplink(c)
    requires bandwidth % 2 == 1 && bandwidth > 0 && AutoCentre(c, rows, now, bandwidth, guards).Some?
    requires UplinkFits(c, rows, now, bandwidth, guards, requested)
    ensures !requested.InForce(now)
  {
    var placed := ReservedAround(AutoCentre(c, rows, now, bandwidth, guards).value, bandwidth, guards);
    ProposalIsInLowestGrantIff(c, rows, now, bandwidth, guards);
    var grant := AssignmentFor(c, c.uplinkWindow, now).value;
    var row := HzBelowIsHeldNow(c, rows, now, bandwidth, guards, grant, placed.start);
    OverlapIsSharedMoment(requested, row.period);
  }

  lemma LowestGrantCovers(c: DirectionConfig, now: int, r: FrequencyRange)
    requires TypedOnUplink(c) && AssignmentFor(c, c.uplinkWindow, now).Some?
    requires AssignmentFor(c, c.uplinkWindow, now).value.rf.Contains(r)
    ensures Granted(c, c.uplinkLeg, now, r)
  {
    ActiveAssignmentMembers(c, now, Some(c.uplinkWindow.id), AssignmentFor(c, c.uplinkWindow, now).value);
  }

  lemma PreviewedAt(w: World, rows: seq<Row>, now: int, satnetId: nat, v: Values, p: Proposal) returns (centre: int)
    requires KnownSatnet(w, satnetId)
    requires AutoPlace(w, rows, now, satnetId, v) == Ok(Some(p))
    ensures (w.satnets[satnetId].beam, v.inputs.direction) in w.configs
    ensures ResolveRequest(v.inputs.mode, v.inputs.value, v.inputs.rolloff).Some?
    ensures var bandwidth := ResolveRequest(v.inputs.mode, v.inputs.value, v.inputs.rolloff).value.1;
            AutoCentre(w.configs[(w.satnets[satnetId].beam, v.inputs.direction)], rows, now, bandwidth,
                       GuardsFor(w.satnets[satnetId], v.inputs.guardPolicy, bandwidth)) == Some(centre)
    ensures Preview(w, rows, now, satnetId, v.(inputs := v.inputs.(centre := centre)), None) == Ok(p)
  {
    var c := w.configs[(w.satnets[satnetId].beam, v.inputs.direction)];
    var bandwidth := ResolveRequest(v.inputs.mode, v.inputs.value, v.inputs.rolloff).value.1;
    centre := AutoCentre(c, rows, now, bandwidth, GuardsFor(w.satnets[satnetId], v.inputs.guardPolicy, bandwidth)).value;
  }

  /** `auto_place` hands its own centre to the preview, with the sizes it measured the gap against. */
  lemma AutoPlacePreviewsItsCentre(w: World, rows: seq<Row>, now: int, satnetId: nat, v: Values, p: Proposal)
    requires KnownSatnet(w, satnetId)
    requires AutoPlace(w, rows, now, satnetId, v) == Ok(Some(p))
    ensures p.occupiedBandwidth > 0
    ensures var centre := AutoCentre(p.config, rows, now, p.occupiedBandwidth, p.guards);
            centre.Some? && Preview(w, rows, now, satnetId, v.(inputs := v.inputs.(centre := centre.value)), None) == Ok(p)
  {
    var centre := PreviewedAt(w, rows, now, satnetId, v, p);
    PreviewSizes(w, rows, now, satnetId, v.(inputs := v.inputs.(centre := centre)), None, p);
  }

  /** `auto_place` is refused for a direction that is not configured or a request without a size; it answers
      that nothing fits exactly when no range of the width it needs could be had; and otherwise it answers
      as the preview of its proposal does. */
  lemma AutoPlaceIsDecided(w: World, rows: seq<Row>, now: int, satnetId: nat, v: Values, a: Assignment)
    requires KnownSatnet(w, satnetId)
    ensures var key := (w.satnets[satnetId].beam, v.inputs.direction);
            var answer := AutoPlace(w, rows, now, satnetId, v);
            var resolved := ResolveRequest(v.inputs.mode, v.inputs.value, v.inputs.rolloff);
            && (key !in w.configs ==> answer == Err(DoesNotExist))
            && (key in w.configs && resolved.None? ==> answer == Err(BadValue))
            && (key in w.configs && resolved.Some? ==>
                  var bandwidth := resolved.value.1;
                  var guards := GuardsFor(w.satnets[satnetId], v.inputs.guardPolicy, bandwidth);
                  && (answer == Ok(None) <==>
                      forall r: FrequencyRange :: r.Width() == bandwidth + guards.left + guards.right ==>
                        !CouldHave(w.configs[key], rows, now, a, r))
                  && (answer != Ok(None) ==>
                        exists centre :: answer == Previewed(Preview(w, rows, now, satnetId,
                                                                     v.(inputs := v.inputs.(centre := centre)), None))))
  {
    var key := (w.satnets[satnetId].beam, v.inputs.direction);
    var resolved := ResolveRequest(v.inputs.mode, v.inputs.value, v.inputs.rolloff);
    if key in w.configs && resolved.Some? {
      var bandwidth := resolved.value.1;
      var guards := GuardsFor(w.satnets[satnetId], v.inputs.guardPolicy, bandwidth);
      AutoPlaceIsComplete(w.configs[key], rows, now, bandwidth, guards, a);
      var centre := AutoCentre(w.configs[key], rows, now, bandwidth, guards);
      if centre.Some? {
        var tried := v.(inputs := v.inputs.(centre := centre.value));
        assert AutoPlace(w, rows, now, satnetId, v) == Previewed(Preview(w, rows, now, satnetId, tried, None));
      }
    }
  }

  function Previewed(preview: Result<Proposal, Error>): Result<Option<Proposal>, Error> {
    match preview
    case Ok(p) => Ok(Some(p))
    case Err(e) => Err(e)
  }

  lemma PlacedLegIsJudgedByItsRange(c: DirectionConfig, rows: seq<Row>, occupied: FrequencyRange, alloc: FrequencyRange,
                                    grant: Assignment, requested: TimePeriod, now: int)
    ensures LegFindings(c, rows, Side(c.uplinkLeg, c.uplinkWindow, occupied, alloc), grant, requested, now, None) ==
            LegFindings(c, rows, Side(c.uplinkLeg, c.uplinkWindow, alloc, alloc), grant, requested, now, None)
  {
  }

  /** Both legs of a preview, on a direction typed on its uplink. */
  lemma PreviewPlacesBothLegs(w: World, rows: seq<Row>, now: int, satnetId: nat, v: Values, p: Proposal)
    requires KnownSatnet(w, satnetId) && Preview(w, rows, now, satnetId, v, None) == Ok(p)
    requires p.config.canonicalLeg == Some(p.config.uplinkLeg)
    ensures p.occupiedBandwidth > 0
    ensures p.canonical.leg == p.config.uplinkLeg && p.canonical.window == p.config.uplinkWindow
    ensures p.canonical.alloc == ReservedAround(v.inputs.centre, p.occupiedBandwidth, p.guards)
    ensures p.translated.leg == p.config.downlinkLeg && p.translated.window == p.config.downlinkWindow
    ensures p.translated.alloc == Translate(p.canonical.alloc, p.config.translation)
    ensures p.canonicalAssignment == AssignmentFor(p.config, p.config.uplinkWindow, now)
    ensures p.translatedAssignment == AssignmentFor(p.config, p.config.downlinkWindow, now)
  {
  }

  /** End to end: a proposal of `auto_place` has no finding exactly when its uplink fits, the image of that
      uplink is clear on the other leg, and the Satnet, the Beam and the lowest grant cover the period. */
  lemma AutoPlacedIsCleanIff(w: World, rows: seq<Row>, now: int, satnetId: nat, v: Values, p: Proposal)
    requires KnownSatnet(w, satnetId) && WorldValid(w)
    requires AutoPlace(w, rows, now, satnetId, v) == Ok(Some(p))
    requires p.config.canonicalLeg == Some(p.config.uplinkLeg) && p.config.uplinkWindow.side == p.config.uplinkLeg
    ensures p.canonicalAssignment.Some?
    ensures p.translated.leg == p.config.downlinkLeg
    ensures p.translated.alloc == Translate(p.canonical.alloc, p.config.translation)
    ensures p.findings == [] <==>
            && p.translatedAssignment.Some? && MakePeriod(v.validFrom, v.validUntil).Some?
            && var requested := MakePeriod(v.validFrom, v.validUntil).value;
               && CoveredByParents(w.satnets[satnetId], w.beams[w.satnets[satnetId].beam], p.config,
                                   p.canonicalAssignment.value, requested, p.canonical)
               && UplinkFits(p.config, rows, now, p.occupiedBandwidth, p.guards, requested)
               && LegClear(p.config, rows, p.translated, p.translatedAssignment.value, requested, now, None)
  {
    AutoPlacePreviewsItsCentre(w, rows, now, satnetId, v, p);
    var c, bandwidth, guards := p.config, p.occupiedBandwidth, p.guards;
    var centre := AutoCentre(c, rows, now, bandwidth, guards).value;
    var tried := v.(inputs := v.inputs.(centre := centre));
    PreviewSizes(w, rows, now, satnetId, tried, None, p);
    PreviewPlacesBothLegs(w, rows, now, satnetId, tried, p);
    PreviewIsCleanIff(w, rows, now, satnetId, tried, None, p);
    ProposalIsInLowestGrantIff(c, rows, now, bandwidth, guards);
    if MakePeriod(v.validFrom, v.validUntil).Some? {
      var requested := MakePeriod(v.validFrom, v.validUntil).value;
      var grant := p.canonicalAssignment.value;
      AutoPlacedUplinkIsCleanIff(c, rows, now, bandwidth, guards, requested);
      PlacedLegIsJudgedByItsRange(c, rows, p.canonical.occupied, p.canonical.alloc, grant, requested, now);
      LegIsCleanIff(c, rows, p.canonical, grant, requested, now, None);
    }
  }

  /** So an odd occupied bandwidth is proposed without a finding only for a period that is not now. */
  lemma OddProposalsAreCleanOnlyForAnotherTime(w: World, rows: seq<Row>, now: int, satnetId: nat, v: Values, p: Proposal)
    requires KnownSatnet(w, satnetId) && WorldValid(w)
    requires AutoPlace(w, rows, now, satnetId, v) == Ok(Some(p))
    requires p.config.canonicalLeg == Some(p.config.uplinkLeg) && p.config.uplinkWindow.side == p.config.uplinkLeg
    requires p.occupiedBandwidth % 2 == 1
    ensures p.findings == [] ==> !Span(v.validFrom, v.validUntil).InForce(now)
  {
    AutoPlacePreviewsItsCentre(w, rows, now, satnetId, v, p);
    AutoPlacedIsCleanIff(w, rows, now, satnetId, v, p);
    if p.findings == [] {
      PreviewSizes(w, rows, now, satnetId,
                   v.(inputs := v.inputs.(centre := AutoCentre(p.config, rows, now, p.occupiedBandwidth, p.guards).value)), None, p);
      OddUplinkFitsOnlyForAnotherTime(p.config, rows, now, p.occupiedBandwidth, p.guards,
                                      MakePeriod(v.validFrom, v.validUntil).value);
    }
  }
}
