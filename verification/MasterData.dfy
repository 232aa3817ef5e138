/**
 * The master data an allocation is judged against: windows, assignments, direction
 * configurations, Beams and Satnets (`beams/models.py`, `inventory/constants.py`), and the two
 * settings the lifecycle reads. All of it stays fixed while allocations are made.
 */
module MasterData {
  import opened Wrappers
  import opened Ranges
  import opened Periods
  import opened Bandwidth

  datatype Direction = Fwd | Rtn

  datatype Leg = HubUplink | RemoteDownlink | RemoteUplink | HubDownlink

  datatype Polarization = Rhcp | Lhcp | Horizontal | Vertical

  datatype Window = Window(id: nat, side: Leg, polarization: Polarization)

  /** `BeamSpectrumAssignment`; its Beam and direction are those of the configuration that lists it. */
  datatype Assignment = Assignment(
    id: nat,
    window: Window,
    payloadPath: nat,
    rf: FrequencyRange,
    period: TimePeriod,
    isActive: bool)

  datatype Resource = Resource(id: nat, leg: Leg)

  /** `BeamDirectionConfig` together with the payload path it names. */
  datatype DirectionConfig = DirectionConfig(
    beam: nat,
    direction: Direction,
    payloadPath: nat,
    translation: Translation,
    uplinkLeg: Leg,
    downlinkLeg: Leg,
    uplinkWindow: Window,
    downlinkWindow: Window,
    canonicalLeg: Option<Leg>,
    assignments: seq<Assignment>,
    resources: seq<Resource>)

  datatype Beam = Beam(id: nat, period: TimePeriod)

  datatype Satnet = Satnet(id: nat, beam: nat, period: TimePeriod, guardPolicy: Option<GuardPolicy>)

  datatype World = World(
    satnets: map<nat, Satnet>,
    beams: map<nat, Beam>,
    configs: map<(nat, Direction), DirectionConfig>,
    suspendedRetains: bool,
    requireSeparateApprover: bool)

  /** `excl_assignment_overlap`: active grants of one window never share Hz and time. */
  ghost predicate AssignmentsExclusive(assignments: seq<Assignment>) {
    forall i, j :: 0 <= i < j < |assignments| ==>
      !(assignments[i].isActive && assignments[j].isActive
        && assignments[i].window.id == assignments[j].window.id
        && assignments[i].rf.Overlaps(assignments[j].rf)
        && assignments[i].period.Overlaps(assignments[j].period))
  }

  /** This grant gives this Hz of this window at this moment. */
  predicate Grants(a: Assignment, window: nat, hz: int, at: int) {
    a.isActive && a.window.id == window && a.rf.ContainsHz(hz) && a.period.InForce(at)
  }

  /** The constraint compares edges; it means that at no moment one Hz of one window is granted twice. */
  lemma ExclusiveMeansNoHzIsGrantedTwice(assignments: seq<Assignment>)
    ensures AssignmentsExclusive(assignments) <==>
            forall i, j, window, hz, at :: 0 <= i < j < |assignments| ==>
              !(Grants(assignments[i], window, hz, at) && Grants(assignments[j], window, hz, at))
  {
    forall i, j | 0 <= i < j < |assignments|
      ensures (exists window, hz, at :: Grants(assignments[i], window, hz, at) && Grants(assignments[j], window, hz, at)) <==>
              && assignments[i].isActive && assignments[j].isActive
              && assignments[i].window.id == assignments[j].window.id
              && assignments[i].rf.Overlaps(assignments[j].rf) && assignments[i].period.Overlaps(assignments[j].period)
    {
      GrantsShareAnHzIff(assignments[i], assignments[j]);
    }
  }

  lemma GrantsShareAnHzIff(a: Assignment, b: Assignment)
    ensures (exists window, hz, at :: Grants(a, window, hz, at) && Grants(b, window, hz, at)) <==>
            && a.isActive && b.isActive && a.window.id == b.window.id && a.rf.Overlaps(b.rf) && a.period.Overlaps(b.period)
  {
    OverlapIsSharedHz(a.rf, b.rf);
    OverlapIsSharedMoment(a.period, b.period);
    if a.isActive && b.isActive && a.window.id == b.window.id && a.rf.Overlaps(b.rf) && a.period.Overlaps(b.period) {
      var hz :| a.rf.ContainsHz(hz) && b.rf.ContainsHz(hz);
      var at :| a.period.InForce(at) && b.period.InForce(at);
      assert Grants(a, a.window.id, hz, at) && Grants(b, a.window.id, hz, at);
    }
  }

  /** `uq_beam_direction_spectrum_resource`. */
  ghost predicate ResourcesDistinct(resources: seq<Resource>) {
    forall i, j :: 0 <= i < j < |resources| ==> resources[i].id != resources[j].id
  }

  ghost predicate ConfigValid(c: DirectionConfig) {
    && AssignmentsExclusive(c.assignments)
    && ResourcesDistinct(c.resources)
  }

  /** What the database guarantees about the master data. */
  ghost predicate WorldValid(w: World) {
    && (forall k :: k in w.configs ==> ConfigValid(w.configs[k]))
    && (forall s :: s in w.satnets ==> w.satnets[s].beam in w.beams)
  }

  /** The resources one leg of a direction competes on. */
  function LegResources(resources: seq<Resource>, leg: Leg): seq<nat> {
    if resources == [] then []
    else (if resources[0].leg == leg then [resources[0].id] else []) + LegResources(resources[1..], leg)
  }

  lemma {:induction false} LegResourcesMembers(resources: seq<Resource>, leg: Leg, id: nat)
    ensures id in LegResources(resources, leg) <==> Resource(id, leg) in resources
  {
    if resources != [] {
      LegResourcesMembers(resources[1..], leg, id);
      assert resources == [resources[0]] + resources[1..];
    }
  }

  /** The leg competes on something. */
  ghost predicate Mapped(c: DirectionConfig, leg: Leg) {
    exists id :: Resource(id, leg) in c.resources
  }

  lemma MappedMeansSomething(c: DirectionConfig, leg: Leg)
    ensures LegResources(c.resources, leg) != [] <==> Mapped(c, leg)
  {
    var ids := LegResources(c.resources, leg);
    if ids != [] {
      LegResourcesMembers(c.resources, leg, ids[0]);
    }
    if Mapped(c, leg) {
      var id :| Resource(id, leg) in c.resources;
      LegResourcesMembers(c.resources, leg, id);
    }
  }

  /** A resource serves one leg and is mapped once, so a leg lists it once and no other leg does. */
  lemma {:induction false} LegResourcesDistinct(resources: seq<Resource>, leg: Leg)
    requires ResourcesDistinct(resources)
    ensures forall i, j :: 0 <= i < j < |LegResources(resources, leg)| ==>
              LegResources(resources, leg)[i] != LegResources(resources, leg)[j]
  {
    if resources != [] {
      LegResourcesDistinct(resources[1..], leg);
      forall id | id in LegResources(resources[1..], leg)
        ensures id != resources[0].id
      {
        LegResourcesMembers(resources[1..], leg, id);
        var k :| 0 <= k < |resources[1..]| && resources[1..][k] == Resource(id, leg);
        assert resources[k + 1] == Resource(id, leg);
      }
      var rest := LegResources(resources[1..], leg);
      assert forall j :: 0 <= j < |rest| ==> rest[j] in rest;
    }
  }

  lemma LegsShareNoResource(resources: seq<Resource>, a: Leg, b: Leg, id: nat)
    requires ResourcesDistinct(resources) && a != b
    requires id in LegResources(resources, a)
    ensures id !in LegResources(resources, b)
  {
    LegResourcesMembers(resources, a, id);
    LegResourcesMembers(resources, b, id);
    var i :| 0 <= i < |resources| && resources[i] == Resource(id, a);
    forall j | 0 <= j < |resources|
      ensures resources[j] != Resource(id, b)
    {
      assert j < i ==> resources[j].id != resources[i].id;
      assert i < j ==> resources[i].id != resources[j].id;
    }
  }
}
