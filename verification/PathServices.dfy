/**
 * Computing, placing and rebuilding a Satnet Path: the value half of `satnet_paths/services.py`,
 * and the row CHECKs of `satnet_paths/models.py`.
 */
module PathServices {
  import opened Wrappers
  import opened Ranges
  import opened Periods
  import opened Bandwidth
  import opened Gaps
  import opened MasterData
  import opened Reservations
  import opened Selectors
  import Containment

  // ------------------------------------------------------------------------------------------
  // Records
  // ------------------------------------------------------------------------------------------

  /** What the operator supplies about the transmission. */
  datatype Inputs = Inputs(
    code: string,
    direction: Direction,
    mode: InputMode,
    value: int,
    rolloff: int,
    guardPolicy: Option<GuardPolicy>,
    centre: int)

  datatype Values = Values(inputs: Inputs, validFrom: int, validUntil: Option<int>)

  /** One leg of the payload as the engine computed it. */
  datatype Side = Side(leg: Leg, window: Window, occupied: FrequencyRange, alloc: FrequencyRange)

  /** One leg as the record stores it. */
  datatype StoredSide = StoredSide(
    leg: Leg,
    window: nat,
    polarization: Polarization,
    assignment: Assignment,
    centre: int,
    occupied: FrequencyRange,
    alloc: FrequencyRange)

  datatype Path = Path(
    satnet: nat,
    beam: nat,
    inputs: Inputs,
    status: Status,
    period: TimePeriod,
    recordVersion: nat,
    group: nat,
    revision: nat,
    supersedes: Option<nat>,
    createdBy: Option<nat>,
    guards: GuardWidths,
    symbolRate: int,
    occupiedBandwidth: int,
    allocatedBandwidth: int,
    canonical: StoredSide,
    translated: StoredSide)

  datatype PathFinding =
    | NoActiveAssignment
    | NotContained(finding: Containment.Finding)
    | LegHasNoResource(leg: Leg)
    | OutsideGrant(leg: Leg)
    | Collides(leg: Leg, rivals: seq<Row>)

  datatype Proposal = Proposal(
    config: DirectionConfig,
    canonical: Side,
    translated: Side,
    canonicalAssignment: Option<Assignment>,
    translatedAssignment: Option<Assignment>,
    guards: GuardWidths,
    symbolRate: int,
    occupiedBandwidth: int,
    findings: seq<PathFinding>)

  // ------------------------------------------------------------------------------------------
  // preview
  // ------------------------------------------------------------------------------------------

  /** `_sides_for`: which of the two legs is canonical, and which is its image. */
  function SidesFor(c: DirectionConfig, p: TwoSided): (Side, Side) {
    var uplink := Side(c.uplinkLeg, c.uplinkWindow, p.uplink.occupied, p.uplink.alloc);
    var downlink := Side(c.downlinkLeg, c.downlinkWindow, p.downlink.occupied, p.downlink.alloc);
    if c.canonicalLeg == Some(uplink.leg) then (uplink, downlink) else (downlink, uplink)
  }

  /** `_assignment_for`: the first grant of the window in force now. */
  function AssignmentFor(c: DirectionConfig, window: Window, now: int): Option<Assignment> {
    var found := ActiveAssignments(c, now, Some(window.id));
    if found == [] then None else Some(found[0])
  }

  /** The loop of `_check_conflicts`: what is in the way of this leg, in Hz and in time. */
  function Rivals(rows: seq<Row>, proposed: FrequencyRange, requested: TimePeriod): seq<Row> {
    if rows == [] then []
    else (if proposed.Overlaps(rows[0].alloc) && requested.Overlaps(rows[0].period) then [rows[0]] else [])
         + Rivals(rows[1..], proposed, requested)
  }

  /** `_check_conflicts`. */
  function LegFindings(c: DirectionConfig, rows: seq<Row>, side: Side, grant: Assignment, requested: TimePeriod,
                       now: int, exclude: Option<nat>): seq<PathFinding> {
    var resources := LegResources(c.resources, side.leg);
    if resources == [] then [LegHasNoResource(side.leg)]
    else
      var rivals := Rivals(ReservationsOn(rows, resources, now, exclude), side.alloc, requested);
      (if grant.rf.Contains(side.alloc) then [] else [OutsideGrant(side.leg)])
      + (if rivals == [] then [] else [Collides(side.leg, rivals)])
  }

  function AsPathFindings(findings: seq<Containment.Finding>): seq<PathFinding> {
    if findings == [] then [] else [NotContained(findings[0])] + AsPathFindings(findings[1..])
  }

  function GuardsFor(satnet: Satnet, override: Option<GuardPolicy>, bandwidth: nat): GuardWidths {
    ResolveGuards(if override.Some? then override else satnet.guardPolicy, bandwidth)
  }

  function ProposalFindings(satnet: Satnet, beam: Beam, c: DirectionConfig, rows: seq<Row>, canonical: Side, translated: Side,
                            canonicalGrant: Assignment, translatedGrant: Assignment, requested: TimePeriod,
                            now: int, exclude: Option<nat>): seq<PathFinding> {
    AsPathFindings(Containment.Evaluate(satnet, beam, canonicalGrant, c, requested, c.direction,
                                        canonical.window.polarization).findings)
    + LegFindings(c, rows, canonical, canonicalGrant, requested, now, exclude)
    + LegFindings(c, rows, translated, translatedGrant, requested, now, exclude)
  }

  predicate KnownSatnet(w: World, satnet: nat) {
    satnet in w.satnets && w.satnets[satnet].beam in w.beams
  }

  /** `preview`: the allocation, and everything wrong with it. */
  function Preview(w: World, rows: seq<Row>, now: int, satnetId: nat, v: Values, exclude: Option<nat>): Result<Proposal, Error>
    requires KnownSatnet(w, satnetId)
  {
    var satnet := w.satnets[satnetId];
    var key := (satnet.beam, v.inputs.direction);
    if key !in w.configs then Err(DoesNotExist)
    else
      var c := w.configs[key];
      var resolved := ResolveRequest(v.inputs.mode, v.inputs.value, v.inputs.rolloff);
      if resolved.None? || c.translation.constant < 0 then Err(BadValue)
      else
        var (rate, bandwidth) := resolved.value;
        var guards := GuardsFor(satnet, v.inputs.guardPolicy, bandwidth);
        var placement := PlaceBothSides(rate, bandwidth, v.inputs.rolloff, v.inputs.centre, guards, c.translation, UplinkSide);
        var (canonical, translated) := SidesFor(c, placement);
        var canonicalGrant := AssignmentFor(c, canonical.window, now);
        var translatedGrant := AssignmentFor(c, translated.window, now);
        var unfounded := Proposal(c, canonical, translated, canonicalGrant, translatedGrant, guards, rate, bandwidth,
                                  [NoActiveAssignment]);
        if canonicalGrant.None? || translatedGrant.None? then Ok(unfounded)
        else match MakePeriod(v.validFrom, v.validUntil)
          case None => Err(BadValue)
          case Some(requested) =>
            Ok(unfounded.(findings := ProposalFindings(satnet, w.beams[satnet.beam], c, rows, canonical, translated,
                                                       canonicalGrant.value, translatedGrant.value, requested, now, exclude)))
  }

  // ------------------------------------------------------------------------------------------
  // The record
  // ------------------------------------------------------------------------------------------

  /** The CHECK constraints of a saved path; its period runs forwards by its type. */
  predicate CheckPath(p: Path) {
    && p.symbolRate > 0
    && 0 <= p.inputs.rolloff <= 1000
    && p.inputs.value > 0
    && p.occupiedBandwidth > 0 && p.allocatedBandwidth >= p.occupiedBandwidth
    && p.canonical.occupied.ContainsHz(p.canonical.centre)
    && p.translated.occupied.ContainsHz(p.translated.centre)
    && p.canonical.alloc.Contains(p.canonical.occupied)
    && p.translated.alloc.Contains(p.translated.occupied)
    && (match p.inputs.direction
        case Fwd => p.canonical.leg == HubUplink && p.translated.leg == RemoteDownlink
        case Rtn => p.canonical.leg == RemoteUplink && p.translated.leg == HubDownlink)
  }

  /** `_derived_fields`, written over an existing or an empty record. */
  function WithDerived(base: Path, v: Values, period: TimePeriod, p: Proposal): Path
    requires p.canonicalAssignment.Some? && p.translatedAssignment.Some?
  {
    base.(inputs := v.inputs,
          period := period,
          guards := p.guards,
          symbolRate := p.symbolRate,
          occupiedBandwidth := p.occupiedBandwidth,
          allocatedBandwidth := p.canonical.alloc.Width(),
          canonical := Stored(p.canonical, p.canonicalAssignment.value, v.inputs.centre),
          translated := Stored(p.translated, p.translatedAssignment.value, MidpointOf(p.translated.occupied)))
  }

  function Stored(side: Side, grant: Assignment, centre: int): StoredSide {
    StoredSide(side.leg, side.window.id, side.window.polarization, grant, centre, side.occupied, side.alloc)
  }

  /** `_occupancy`: one leg as just computed, on every resource the leg competes on. */
  function OccupancyOf(c: DirectionConfig, side: Side, grant: Assignment): Occupancy {
    Occupancy(grant, side.leg, side.window.polarization, side.occupied, side.alloc, LegResources(c.resources, side.leg))
  }

  function ProposedOccupancies(p: Proposal): seq<Occupancy>
    requires p.canonicalAssignment.Some? && p.translatedAssignment.Some?
  {
    [OccupancyOf(p.config, p.canonical, p.canonicalAssignment.value),
     OccupancyOf(p.config, p.translated, p.translatedAssignment.value)]
  }

  function StoredOccupancy(c: DirectionConfig, s: StoredSide): Occupancy {
    Occupancy(s.assignment, s.leg, s.polarization, s.occupied, s.alloc, LegResources(c.resources, s.leg))
  }

  /** `occupancies_of`: the same legs, rebuilt from what the record stored. */
  function OccupanciesOf(c: DirectionConfig, p: Path): seq<Occupancy> {
    [StoredOccupancy(c, p.canonical), StoredOccupancy(c, p.translated)]
  }

  /** Reading an allocation back from its record asks for exactly what computing it asked for. */
  lemma StoredEdgesAreTheAllocation(base: Path, v: Values, period: TimePeriod, p: Proposal)
    requires p.canonicalAssignment.Some? && p.translatedAssignment.Some?
    ensures OccupanciesOf(p.config, WithDerived(base, v, period, p)) == ProposedOccupancies(p)
  {
  }

  // ------------------------------------------------------------------------------------------
  // The rows of one allocation
  // ------------------------------------------------------------------------------------------

  function BookingOf(id: nat, p: Path, suspendedRetains: bool): Booking {
    Booking(id, p.inputs.direction, p.status, p.period, ReservesSpectrum(p.status, suspendedRetains))
  }

  predicate HoldsRows(status: Status) {
    status in {Planned, PendingApproval, OnAir, Suspended}
  }

  function ConfigKey(p: Path): (nat, Direction) {
    (p.beam, p.inputs.direction)
  }

  /** The rows the table must hold for one path: one per resource of each leg, with the stored edges,
      period and status; none once it no longer holds, or does not yet hold, its spectrum. */
  function ExpectedRows(w: World, id: nat, p: Path): seq<Row> {
    if HoldsRows(p.status) && ConfigKey(p) in w.configs
    then RowsForAll(OccupanciesOf(w.configs[ConfigKey(p)], p), BookingOf(id, p, w.suspendedRetains))
    else []
  }

  lemma {:induction false} RowsForResourcesMembers(o: Occupancy, resources: seq<nat>, b: Booking, r: Row)
    ensures r in RowsForResources(o, resources, b) <==> r.resource in resources && r == RowFor(o, r.resource, b)
  {
    if resources != [] {
      RowsForResourcesMembers(o, resources[1..], b, r);
      assert resources == [resources[0]] + resources[1..];
    }
  }

  lemma TwoLegRows(a: Occupancy, b: Occupancy, k: Booking)
    ensures RowsForAll([a, b], k) == RowsForResources(a, a.resources, k) + RowsForResources(b, b.resources, k)
  {
    assert [a, b][1..] == [b];
    assert RowsForAll([b], k) == RowsForResources(b, b.resources, k);
  }

  /** Rows of one leg are on different resources, and rows of different legs are too. */
  lemma TwoLegsUseResourcesOnce(c: DirectionConfig, first: Occupancy, second: Occupancy, b: Booking)
    requires ResourcesDistinct(c.resources) && first.leg != second.leg
    requires first.resources == LegResources(c.resources, first.leg)
    requires second.resources == LegResources(c.resources, second.leg)
    ensures forall i, j :: 0 <= i < j < |RowsForAll([first, second], b)| ==>
              RowsForAll([first, second], b)[i].resource != RowsForAll([first, second], b)[j].resource
  {
    var left := RowsForResources(first, first.resources, b);
    var right := RowsForResources(second, second.resources, b);
    TwoLegRows(first, second, b);
    RowsForResourcesAt(first, first.resources, b);
    RowsForResourcesAt(second, second.resources, b);
    LegResourcesDistinct(c.resources, first.leg);
    LegResourcesDistinct(c.resources, second.leg);
    var all := left + right;
    forall i, j | 0 <= i < j < |all|
      ensures all[i].resource != all[j].resource
    {
      if i < |left| <= j {
        LegsShareNoResource(c.resources, first.leg, second.leg, all[i].resource);
        assert second.resources[j - |left|] in second.resources;
      }
    }
  }

  lemma TwoLegsNeverConflict(c: DirectionConfig, first: Occupancy, second: Occupancy, b: Booking)
    requires ResourcesDistinct(c.resources) && first.leg != second.leg
    requires first.resources == LegResources(c.resources, first.leg)
    requires second.resources == LegResources(c.resources, second.leg)
    ensures Exclusive(RowsForAll([first, second], b))
  {
    TwoLegsUseResourcesOnce(c, first, second, b);
  }

  lemma OneAllocationNeverConflictsWithItself(c: DirectionConfig, p: Path, b: Booking)
    requires ResourcesDistinct(c.resources) && CheckPath(p)
    ensures Exclusive(RowsForAll(OccupanciesOf(c, p), b))
  {
    TwoLegsNeverConflict(c, StoredOccupancy(c, p.canonical), StoredOccupancy(c, p.translated), b);
  }

  // ------------------------------------------------------------------------------------------
  // auto_place
  // ------------------------------------------------------------------------------------------

  function CanonicalLegOf(c: DirectionConfig): Leg {
    if c.canonicalLeg.Some? then c.canonicalLeg.value else c.uplinkLeg
  }

  function CentreIn(gaps: seq<Gap>, bandwidth: int, guards: GuardWidths): Option<int> {
    var gap := FirstFitting(gaps, bandwidth + guards.left + guards.right);
    if gap.None? then None else Some(gap.value.range.start + guards.left + bandwidth / 2)
  }

  /** The centre `auto_place` proposes, from the capacity of the canonical leg now. */
  function AutoCentre(c: DirectionConfig, rows: seq<Row>, now: int, bandwidth: int, guards: GuardWidths): Option<int> {
    CentreIn(CapacityOf(c, rows, CanonicalLegOf(c), now, None).gaps, bandwidth, guards)
  }

  /** `auto_place`: `None` inside a success means that nothing fits. */
  function AutoPlace(w: World, rows: seq<Row>, now: int, satnetId: nat, v: Values): Result<Option<Proposal>, Error>
    requires KnownSatnet(w, satnetId)
  {
    var satnet := w.satnets[satnetId];
    var key := (satnet.beam, v.inputs.direction);
    if key !in w.configs then Err(DoesNotExist)
    else
      var resolved := ResolveRequest(v.inputs.mode, v.inputs.value, v.inputs.rolloff);
      if resolved.None? then Err(BadValue)
      else
        var bandwidth := resolved.value.1;
        var centre := AutoCentre(w.configs[key], rows, now, bandwidth, GuardsFor(satnet, v.inputs.guardPolicy, bandwidth));
        if centre.None? then Ok(None)
        else match Preview(w, rows, now, satnetId, v.(inputs := v.inputs.(centre := centre.value)), None)
          case Err(e) => Err(e)
          case Ok(p) => Ok(Some(p))
  }
}
