/**
 * One small world, and in it an input for each thing that turned out not to be so: what the code really
 * does there, and that it really gets there.
 */
module Witnesses {
  import opened Wrappers
  import opened Ranges
  import opened Periods
  import opened Bandwidth
  import opened Sorting
  import opened Gaps
  import opened Capacity
  import opened MasterData
  import opened Reservations
  import opened Selectors
  import opened PathServices
  import opened Previews
  import opened AutoPlacement
  import opened Lifecycle
  import opened RowAccounting
  import opened TableInvariant
  import opened AllocationSafety
  import opened CloseThenOpen
  import opened PeriodPromises
  import opened Acceptance

  // ------------------------------------------------------------------------------------------
  // A world with one Satnet, one Beam and one forward direction that shifts by 10 kHz
  // ------------------------------------------------------------------------------------------

  const ALWAYS: TimePeriod := Span(0, None)
  const UPLINK_WINDOW := Window(1, HubUplink, Rhcp)
  const DOWNLINK_WINDOW := Window(2, RemoteDownlink, Lhcp)
  const RESOURCES := [Resource(1, HubUplink), Resource(2, RemoteDownlink)]
  const PLANNER := Caller(Some(7), true, true)

  function Grant(id: nat, window: Window, rf: FrequencyRange, period: TimePeriod): Assignment {
    Assignment(id, window, 1, rf, period, true)
  }

  function Up(): Assignment {
    Grant(1, UPLINK_WINDOW, Interval(1000, 2000), ALWAYS)
  }

  function Down(period: TimePeriod): Assignment {
    Grant(2, DOWNLINK_WINDOW, Interval(11000, 12000), period)
  }

  function Config(grants: seq<Assignment>): DirectionConfig {
    DirectionConfig(1, Fwd, 1, Translation(OffsetAdd, 10000, false), HubUplink, RemoteDownlink, UPLINK_WINDOW, DOWNLINK_WINDOW,
                    Some(HubUplink), grants, RESOURCES)
  }

  function WorldOf(grants: seq<Assignment>, satnetPeriod: TimePeriod): World {
    World(map[1 := Satnet(1, 1, satnetPeriod, None)], map[1 := Beam(1, ALWAYS)], map[(1, Fwd) := Config(grants)], false, true)
  }

  /** A request for this many symbols per second without roll-off, which is as many Hz. */
  function Wanted(rate: int, centre: int, from: int): Values {
    Values(Inputs("A", Fwd, SymbolRateMode, rate, 0, None, centre), from, None)
  }

  /** A reserve nobody's allocation holds, on the uplink resource. */
  function Reserve(rf: FrequencyRange, period: TimePeriod): Row {
    Row(1, Up(), HubUplink, Rhcp, rf, rf, period, FixedReserve, None, None, None, true)
  }

  lemma ResourcesHere()
    ensures LegResources(RESOURCES, HubUplink) == [1] && LegResources(RESOURCES, RemoteDownlink) == [2]
  {
    assert RESOURCES[1..] == [Resource(2, RemoteDownlink)] && RESOURCES[1..][1..] == [];
  }

  lemma BandwidthHere(rate: int)
    requires rate > 0
    ensures ResolveRequest(SymbolRateMode, rate, 0) == Some((rate, rate))
  {
  }

  lemma SortingOne<T>(x: T, le: (T, T) -> bool)
    ensures Sort([x], le) == [x]
  {
    assert [x][1..] == [];
    assert Sort([x], le) == Insert(x, [], le) == [x] + [];
  }

  lemma TwoGrants(a: Assignment, b: Assignment, now: int)
    requires Applies(a, now, Some(1)) && !Applies(b, now, Some(1)) && !Applies(a, now, Some(2)) && Applies(b, now, Some(2))
    ensures ActiveAssignments(Config([a, b]), now, Some(1)) == [a] && ActiveAssignments(Config([a, b]), now, Some(2)) == [b]
  {
    SortingOne(a, ByRfStart);
    SortingOne(b, ByRfStart);
    assert [a, b][1..] == [b] && [b][1..] == [] && [a] + [] == [a] && [b] + [] == [b];
    var none: seq<Assignment> := [];
    assert Applicable(none, now, Some(1)) == [] && Applicable(none, now, Some(2)) == [];
    assert Applicable([b], now, Some(1)) == [];
    assert Applicable([b], now, Some(2)) == [b] + none == [b];
    assert Applicable([a, b], now, Some(1)) == [a] && Applicable([a, b], now, Some(2)) == [b];
  }

  lemma WorldIsValid(down: TimePeriod, satnetPeriod: TimePeriod)
    ensures WorldValid(WorldOf([Up(), Down(down)], satnetPeriod))
  {
  }

  /** What a preview computes here, whatever it finds. */
  lemma PreviewUnder(grants: seq<Assignment>, up: Assignment, down: Assignment, rows: seq<Row>, now: int, satnetPeriod: TimePeriod,
                     v: Values, exclude: Option<nat>) returns (p: Proposal)
    requires AssignmentFor(Config(grants), UPLINK_WINDOW, now) == Some(up)
    requires AssignmentFor(Config(grants), DOWNLINK_WINDOW, now) == Some(down)
    requires v.inputs == Wanted(v.inputs.value, v.inputs.centre, 0).inputs && v.inputs.value > 0
    requires MakePeriod(v.validFrom, v.validUntil).Some?
    ensures Preview(WorldOf(grants, satnetPeriod), rows, now, 1, v, exclude) == Ok(p)
    ensures p.config == Config(grants) && p.guards == GuardWidths(0, 0)
    ensures p.canonicalAssignment == Some(up) && p.translatedAssignment == Some(down)
    ensures p.symbolRate == p.occupiedBandwidth == v.inputs.value
    ensures var r := OccupiedRange(v.inputs.centre, v.inputs.value);
            p.canonical == Side(HubUplink, UPLINK_WINDOW, r, r)
            && p.translated == Side(RemoteDownlink, DOWNLINK_WINDOW, r.Shift(10000), r.Shift(10000))
  {
    BandwidthHere(v.inputs.value);
    p := Preview(WorldOf(grants, satnetPeriod), rows, now, 1, v, exclude).value;
  }

  lemma PreviewHere(rows: seq<Row>, now: int, down: TimePeriod, satnetPeriod: TimePeriod, v: Values, exclude: Option<nat>)
    returns (p: Proposal)
    requires now >= 0 && down.InForce(now) && v.inputs == Wanted(v.inputs.value, v.inputs.centre, 0).inputs && v.inputs.value > 0
    requires MakePeriod(v.validFrom, v.validUntil).Some?
    ensures Preview(WorldOf([Up(), Down(down)], satnetPeriod), rows, now, 1, v, exclude) == Ok(p)
    ensures p.config == Config([Up(), Down(down)]) && p.guards == GuardWidths(0, 0)
    ensures p.canonicalAssignment == Some(Up()) && p.translatedAssignment == Some(Down(down))
    ensures p.symbolRate == p.occupiedBandwidth == v.inputs.value
    ensures var r := OccupiedRange(v.inputs.centre, v.inputs.value);
            p.canonical == Side(HubUplink, UPLINK_WINDOW, r, r)
            && p.translated == Side(RemoteDownlink, DOWNLINK_WINDOW, r.Shift(10000), r.Shift(10000))
  {
    TwoGrants(Up(), Down(down), now);
    p := PreviewUnder([Up(), Down(down)], Up(), Down(down), rows, now, satnetPeriod, v, exclude);
  }

  /** And when it finds nothing. */
  lemma CleanHere(rows: seq<Row>, now: int, down: TimePeriod, v: Values, exclude: Option<nat>) returns (p: Proposal)
    requires now >= 0 && down.InForce(now) && v.inputs == Wanted(v.inputs.value, v.inputs.centre, 0).inputs && v.inputs.value > 0
    requires MakePeriod(v.validFrom, v.validUntil).Some? && v.validFrom >= 0
    requires Interval(1000, 2000).Contains(OccupiedRange(v.inputs.centre, v.inputs.value))
    requires forall r :: r in rows && r.period.InForce(now) && MakePeriod(v.validFrom, v.validUntil).value.Overlaps(r.period) ==>
               r.resource != 2 && !OccupiedRange(v.inputs.centre, v.inputs.value).Overlaps(r.alloc)
    ensures Preview(WorldOf([Up(), Down(down)], ALWAYS), rows, now, 1, v, exclude) == Ok(p) && p.findings == []
    ensures p.config == Config([Up(), Down(down)]) && p.guards == GuardWidths(0, 0)
    ensures p.canonicalAssignment == Some(Up()) && p.translatedAssignment == Some(Down(down))
    ensures p.symbolRate == p.occupiedBandwidth == v.inputs.value
    ensures var r := OccupiedRange(v.inputs.centre, v.inputs.value);
            p.canonical == Side(HubUplink, UPLINK_WINDOW, r, r)
            && p.translated == Side(RemoteDownlink, DOWNLINK_WINDOW, r.Shift(10000), r.Shift(10000))
  {
    p := PreviewHere(rows, now, down, ALWAYS, v, exclude);
    ResourcesHere();
    PreviewIsCleanIff(WorldOf([Up(), Down(down)], ALWAYS), rows, now, 1, v, exclude, p);
  }

  const EMPTY := Db(map[], [], [], 0)
  const WANTED := Wanted(10, 1500, 10)

  // ------------------------------------------------------------------------------------------
  // create: any status is accepted
  // ------------------------------------------------------------------------------------------

  lemma EmptyIsSound(w: World)
    ensures Initial(EMPTY) && Inv(w, EMPTY)
  {
    InitialTable(w, EMPTY);
  }

  /** The shape every proposal has here. */
  predicate ShapedHere(p: Proposal) {
    && p.config.resources == RESOURCES && p.canonical.leg == HubUplink && p.translated.leg == RemoteDownlink
    && p.canonicalAssignment.Some? && p.translatedAssignment.Some?
    && p.canonical.occupied == p.canonical.alloc && p.translated.occupied == p.translated.alloc
    && p.canonicalAssignment.value.rf.Contains(p.canonical.alloc) && p.translatedAssignment.value.rf.Contains(p.translated.alloc)
  }

  /** The rows asked for here, whatever the status: one a leg. */
  lemma RowsHere(p: Proposal, b: Booking, r: Row)
    requires ShapedHere(p)
    ensures r in RowsForAll(ProposedOccupancies(p), b) <==>
            r == RowFor(OccupancyOf(p.config, p.canonical, p.canonicalAssignment.value), 1, b)
            || r == RowFor(OccupancyOf(p.config, p.translated, p.translatedAssignment.value), 2, b)
  {
    var first := OccupancyOf(p.config, p.canonical, p.canonicalAssignment.value);
    var second := OccupancyOf(p.config, p.translated, p.translatedAssignment.value);
    ResourcesHere();
    TwoLegRows(first, second, b);
    RowsForResourcesMembers(first, first.resources, b, r);
    RowsForResourcesMembers(second, second.resources, b, r);
  }

  lemma RowsHereAreWellFormed(p: Proposal, b: Booking)
    requires ShapedHere(p) && b.direction == Fwd && b.reserves == ReservesSpectrum(b.status, true)
    ensures forall r :: r in RowsForAll(ProposedOccupancies(p), b) ==> CheckRow(r)
  {
    forall r | r in RowsForAll(ProposedOccupancies(p), b)
      ensures CheckRow(r)
    {
      RowsHere(p, b, r);
    }
  }

  lemma EmptyTableTakesThem(p: Proposal, b: Booking)
    requires ShapedHere(p) && b.direction == Fwd && b.reserves == ReservesSpectrum(b.status, true)
    requires p.canonicalAssignment.value.isActive && p.canonicalAssignment.value.period.Contains(b.period)
    requires p.translatedAssignment.value.isActive && p.translatedAssignment.value.period.Contains(b.period)
    ensures ReserveRows([], ProposedOccupancies(p), b).Ok?
  {
    RowsHereAreWellFormed(p, b);
    ProposedRowsNeverCollideWithEachOther(p, b);
    assert [] + RowsForAll(ProposedOccupancies(p), b) == RowsForAll(ProposedOccupancies(p), b);
    ReserveIsWholeSetChecking([], ProposedOccupancies(p), b);
  }

  lemma WrittenOnEmpty(p: Proposal, b: Booking)
    requires ShapedHere(p) && b.direction == Fwd && b.reserves == ReservesSpectrum(b.status, true)
    requires p.canonicalAssignment.value.isActive && p.canonicalAssignment.value.period.Contains(b.period)
    requires p.translatedAssignment.value.isActive && p.translatedAssignment.value.period.Contains(b.period)
    ensures ReserveRows([], ProposedOccupancies(p), b).Ok?
    ensures forall r :: r in ReserveRows([], ProposedOccupancies(p), b).value ==> r.path == Some(b.path)
  {
    EmptyTableTakesThem(p, b);
    ReserveIsWholeSetChecking([], ProposedOccupancies(p), b);
    assert [] + RowsForAll(ProposedOccupancies(p), b) == RowsForAll(ProposedOccupancies(p), b);
    BookedRowsBelong(ProposedOccupancies(p), b);
  }

  /** The first record can be saved on an empty table, in any status, with its rows. */
  lemma SaveOnEmpty(path: Path, p: Proposal)
    requires ShapedHere(p) && path.inputs.direction == Fwd && Saveable(map[], 0, path)
    requires p.canonicalAssignment.value.isActive && p.translatedAssignment.value.isActive
    requires p.canonicalAssignment.value.period.Contains(path.period)
    requires p.translatedAssignment.value.period.Contains(path.period)
    ensures SaveNew(EMPTY, path, p).Ok?
    ensures var after := SaveNew(EMPTY, path, p).value;
            after.paths == map[0 := path] && after.nextId == 1 && (forall r :: r in after.rows ==> r.path == Some(0))
  {
    WrittenOnEmpty(p, BookingOf(0, path, true));
  }

  /** Any request with a clean preview is accepted on an empty table, in any status. */
  lemma CreateOnEmpty(w: World, now: int, v: Values, p: Proposal, status: Status)
    requires KnownSatnet(w, 1) && Preview(w, [], now, 1, v, None) == Ok(p) && p.findings == []
    requires ShapedHere(p) && Complete(v, p) && v.inputs.direction == Fwd
    requires Saveable(map[], 0, NewRecord(w, EMPTY, 1, v, p, status, Some(7), None))
    requires p.canonicalAssignment.value.isActive && p.translatedAssignment.value.isActive
    requires p.canonicalAssignment.value.period.Contains(MakePeriod(v.validFrom, v.validUntil).value)
    requires p.translatedAssignment.value.period.Contains(MakePeriod(v.validFrom, v.validUntil).value)
    ensures CreatePath(w, EMPTY, now, PLANNER, 1, v, status).Ok?
    ensures var after := CreatePath(w, EMPTY, now, PLANNER, 1, v, status).value;
            && after.paths == map[0 := NewRecord(w, EMPTY, 1, v, p, status, Some(7), None)] && after.nextId == 1
            && (forall r :: r in after.rows ==> r.path == Some(0))
  {
    SaveOnEmpty(NewRecord(w, EMPTY, 1, v, p, status, Some(7), None), p);
  }

  /** The record here can be saved, being the first. */
  lemma SaveableHere(w: World, rows: seq<Row>, v: Values, p: Proposal, status: Status)
    requires KnownSatnet(w, 1) && Complete(v, p) && ShapedHere(p)
    requires v.inputs == Wanted(10, 1500, 0).inputs && p.symbolRate == p.occupiedBandwidth == 10
    requires p.canonical.alloc == Interval(1495, 1505) && p.translated.alloc == Interval(11495, 11505)
    ensures Saveable(map[], 0, NewRecord(w, EMPTY.(rows := rows), 1, v, p, status, Some(7), None))
  {
  }

  lemma CreatedHere(status: Status) returns (after: Db)
    ensures CreatePath(WorldOf([Up(), Down(ALWAYS)], ALWAYS), EMPTY, 20, PLANNER, 1, WANTED, status) == Ok(after)
    ensures after.paths.Keys == {0} && after.nextId == 1 && forall r :: r in after.rows ==> r.path == Some(0)
    ensures var path := after.paths[0];
            && path.satnet == 1 && path.status == status && path.period == Span(10, None) && path.inputs == WANTED.inputs
            && path.supersedes == None && path.revision == 1
  {
    var w := WorldOf([Up(), Down(ALWAYS)], ALWAYS);
    var p := CleanHere([], 20, ALWAYS, WANTED, None);
    SaveableHere(w, [], WANTED, p, status);
    CreateOnEmpty(w, 20, WANTED, p, status);
    after := CreatePath(w, EMPTY, 20, PLANNER, 1, WANTED, status).value;
  }

  /** An allocation can be created on air, suspended or already retired, and then the invariant is gone. */
  lemma ForbiddenStatusIsAccepted(status: Status) returns (after: Db)
    requires !Permitted(status)
    ensures var w := WorldOf([Up(), Down(ALWAYS)], ALWAYS);
            && Inv(w, EMPTY) && CreatePath(w, EMPTY, 20, PLANNER, 1, WANTED, status) == Ok(after) && !Inv(w, after)
  {
    var w := WorldOf([Up(), Down(ALWAYS)], ALWAYS);
    EmptyIsSound(w);
    after := CreatedHere(status);
    CreateIsSafeExactlyWhenPermitted(w, EMPTY, 20, PLANNER, 1, WANTED, status, after);
  }

  // ------------------------------------------------------------------------------------------
  // A clean preview that loses
  // ------------------------------------------------------------------------------------------

  lemma LostToReserve(p: Proposal, row: Row, v: Values)
    requires ShapedHere(p) && p.canonical.alloc.Overlaps(row.alloc) && Complete(v, p)
    requires row.resource == 1 && row.reserves && row.path == None && !row.period.InForce(20)
    requires row.period.Overlaps(MakePeriod(v.validFrom, v.validUntil).value)
    ensures LosesToUnseen([row], RowsAskedFor(p, 0, v, Planned), None, 20)
  {
    var b := Booking(0, v.inputs.direction, Planned, MakePeriod(v.validFrom, v.validUntil).value, true);
    var r := RowFor(OccupancyOf(p.config, p.canonical, p.canonicalAssignment.value), 1, b);
    RowsHere(p, b, r);
    assert row in [row] && Conflict(row, r);
  }

  /** What a creation says when its preview is clean, its record can be saved, and its rows cannot be
      written. */
  lemma CreateRefusedByTheTable(w: World, db: Db, now: int, v: Values, p: Proposal)
    requires KnownSatnet(w, 1) && WorldValid(w) && Exclusive(db.rows)
    requires Preview(w, db.rows, now, 1, v, None) == Ok(p) && p.findings == [] && Complete(v, p)
    requires Saveable(db.paths, db.nextId, NewRecord(w, db, 1, v, p, Planned, Some(7), None))
    requires !Writable(db.rows, p, db.nextId, v, Planned, None, now)
    ensures CreatePath(w, db, now, PLANNER, 1, v, Planned).Err?
    ensures p.translatedAssignment.value.period.Contains(MakePeriod(v.validFrom, v.validUntil).value) ==>
              CreatePath(w, db, now, PLANNER, 1, v, Planned).error == SpectrumConflict
    ensures !LosesToUnseen(db.rows, RowsAskedFor(p, db.nextId, v, Planned), None, now) ==>
              CreatePath(w, db, now, PLANNER, 1, v, Planned).error == OutsideEntitlement
  {
    CleanWriteIsDecided(w, db, now, 1, v, None, p, Planned, Some(7), None);
  }

  lemma ReserveWins(w: World, row: Row, v: Values, p: Proposal)
    requires KnownSatnet(w, 1) && WorldValid(w)
    requires Preview(w, [row], 20, 1, v, None) == Ok(p) && p.findings == [] && Complete(v, p) && ShapedHere(p)
    requires Saveable(map[], 0, NewRecord(w, EMPTY.(rows := [row]), 1, v, p, Planned, Some(7), None))
    requires p.canonical.alloc.Overlaps(row.alloc) && row.period.Overlaps(MakePeriod(v.validFrom, v.validUntil).value)
    requires row.resource == 1 && row.reserves && row.path == None && !row.period.InForce(20)
    requires p.translatedAssignment.value.period.Contains(MakePeriod(v.validFrom, v.validUntil).value)
    ensures CreatePath(w, EMPTY.(rows := [row]), 20, PLANNER, 1, v, Planned) == Err(SpectrumConflict)
  {
    LostToReserve(p, row, v);
    CreateRefusedByTheTable(w, EMPTY.(rows := [row]), 20, v, p);
  }

  /** A reserve that begins at 100 is in nobody's sight at 20. The preview is clean, and the allocation is
      refused. */
  lemma CleanPreviewLosesToTheFuture() returns (p: Proposal)
    ensures var w := WorldOf([Up(), Down(ALWAYS)], ALWAYS);
            var rows := [Reserve(Interval(1500, 1600), Span(100, None))];
            && Preview(w, rows, 20, 1, WANTED, None) == Ok(p) && p.findings == []
            && CreatePath(w, EMPTY.(rows := rows), 20, PLANNER, 1, WANTED, Planned) == Err(SpectrumConflict)
  {
    var row := Reserve(Interval(1500, 1600), Span(100, None));
    p := CleanHere([row], 20, ALWAYS, WANTED, None);
    WorldIsValid(ALWAYS, ALWAYS);
    SaveableHere(WorldOf([Up(), Down(ALWAYS)], ALWAYS), [row], WANTED, p, Planned);
    ReserveWins(WorldOf([Up(), Down(ALWAYS)], ALWAYS), row, WANTED, p);
  }

  /** So it is when the grant of the translated leg ends first: no preview compares its period. */
  lemma CleanPreviewLosesToAShortGrant()
    ensures var w := WorldOf([Up(), Down(Span(0, Some(50)))], ALWAYS);
            && Preview(w, [], 20, 1, WANTED, None).Ok? && Preview(w, [], 20, 1, WANTED, None).value.findings == []
            && CreatePath(w, EMPTY, 20, PLANNER, 1, WANTED, Planned) == Err(OutsideEntitlement)
  {
    var short := Span(0, Some(50));
    var w := WorldOf([Up(), Down(short)], ALWAYS);
    var p := CleanHere([], 20, short, WANTED, None);
    WorldIsValid(short, ALWAYS);
    SaveableHere(w, [], WANTED, p, Planned);
    CreateRefusedByTheTable(w, EMPTY, 20, WANTED, p);
  }

  // ------------------------------------------------------------------------------------------
  // plan and revise
  // ------------------------------------------------------------------------------------------

  /** A saved draft is planned on an empty table, whatever its parents' periods. */
  lemma DraftIsPlanned(w: World, drafted: Db, p: Proposal) returns (planned: Db)
    requires 0 in drafted.paths && drafted.rows == [] && drafted.paths[0].status == Draft
    requires var path := drafted.paths[0];
             && ConfigKey(path) in w.configs && w.configs[ConfigKey(path)] == p.config && path.inputs.direction == Fwd
             && ShapedHere(p) && OccupanciesOf(p.config, path) == ProposedOccupancies(p)
             && p.canonicalAssignment.value.isActive && p.canonicalAssignment.value.period.Contains(path.period)
             && p.translatedAssignment.value.isActive && p.translatedAssignment.value.period.Contains(path.period)
    ensures TransitionPath(w, drafted, PLANNER, 0, Plan, None, false) == Ok(planned)
    ensures 0 in planned.paths && planned.paths[0].status == Planned
    ensures planned.paths[0].satnet == drafted.paths[0].satnet && planned.paths[0].period == drafted.paths[0].period
    ensures RowsOf(planned.rows, Some(0)) != []
  {
    var move := Move(Plan, Planned, WriteSpectrum);
    assert Lifecycle.Find(Draft, Plan) == Some(move);
    var path := drafted.paths[0].(status := Planned);
    var b := BookingOf(0, path, w.suspendedRetains);
    EmptyTableTakesThem(p, b);
    WrittenRowsAreOwned(p, b);
    planned := ApplyMove(w, drafted, 0, move).value;
  }

  lemma WrittenRowsAreOwned(p: Proposal, b: Booking)
    requires ShapedHere(p) && ReserveRows([], ProposedOccupancies(p), b).Ok?
    ensures RowsOf(ReserveRows([], ProposedOccupancies(p), b).value, Some(b.path)) != []
  {
    ReserveIsWholeSetChecking([], ProposedOccupancies(p), b);
    var r := RowFor(OccupancyOf(p.config, p.canonical, p.canonicalAssignment.value), 1, b);
    RowsHere(p, b, r);
    RowsOfMembers(ReserveRows([], ProposedOccupancies(p), b).value, Some(b.path), r);
  }

  lemma DraftOnEmpty(w: World, now: int, v: Values, p: Proposal)
    requires KnownSatnet(w, 1) && Preview(w, [], now, 1, v, None) == Ok(p) && Complete(v, p)
    requires Saveable(map[], 0, NewRecord(w, EMPTY, 1, v, p, Draft, Some(7), None))
    ensures CreatePath(w, EMPTY, now, PLANNER, 1, v, Draft) ==
            Ok(Db(map[0 := NewRecord(w, EMPTY, 1, v, p, Draft, Some(7), None)], [], [], 1))
  {
  }

  /** A draft outside its Satnet's period is planned all the same. */
  lemma DraftOutsideItsSatnetIsPlanned() returns (drafted: Db, planned: Db)
    ensures var w := WorldOf([Up(), Down(ALWAYS)], Span(100, None));
            && CreatePath(w, EMPTY, 20, PLANNER, 1, WANTED, Draft) == Ok(drafted)
            && TransitionPath(w, drafted, PLANNER, 0, Plan, None, false) == Ok(planned)
            && 0 in planned.paths && planned.paths[0].status == Planned && !Inside(w, planned.paths[0])
            && RowsOf(planned.rows, Some(0)) != []
  {
    var w := WorldOf([Up(), Down(ALWAYS)], Span(100, None));
    var p := PreviewHere([], 20, ALWAYS, Span(100, None), WANTED, None);
    SaveableHere(w, [], WANTED, p, Draft);
    var path := NewRecord(w, EMPTY, 1, WANTED, p, Draft, Some(7), None);
    DraftOnEmpty(w, 20, WANTED, p);
    drafted := Db(map[0 := path], [], [], 1);
    assert OccupanciesOf(p.config, path) == ProposedOccupancies(p);
    planned := DraftIsPlanned(w, drafted, p);
  }

  const UNCHANGED := Changes(None, None, None, None, None, None, None, None)

  lemma OwnRowsAreGone(db: Db)
    requires forall r :: r in db.rows ==> r.path == Some(0)
    ensures Released(db.rows, 0) == []
  {
    if Released(db.rows, 0) != [] {
      ReleasedMembers(db.rows, 0, Released(db.rows, 0)[0]);
    }
  }

  /** The first allocation can be revised once its successor passes a preview on an empty table. */
  lemma OnlyAllocationIsRevised(w: World, before: Db, changes: Changes, v: Values, p: Proposal)
    requires TableInv(w, before) && WorldValid(w)
    requires before.paths.Keys == {0} && before.nextId == 1 && forall r :: r in before.rows ==> r.path == Some(0)
    requires before.paths[0].satnet == 1 && before.paths[0].status == Planned && before.paths[0].period.start < 30
    requires before.paths[0].supersedes == None
    requires v == RevisionValues(Closed(before, 0, 30).paths[0], changes, 30)
    requires KnownSatnet(w, 1) && Preview(w, [], 20, 1, v, Some(0)) == Ok(p) && p.findings == [] && Complete(v, p)
    requires Saveable(Closed(before, 0, 30).paths, 1, NewRecord(w, Closed(before, 0, 30), 1, v, p, Planned, Some(7), Some(0)))
    requires p.translatedAssignment.value.period.Contains(MakePeriod(v.validFrom, v.validUntil).value)
    ensures RevisePath(w, before, 20, PLANNER, 0, changes, 30, None).Ok?
  {
    OwnRowsAreGone(before);
    ReviseSucceedsIff(w, before, 20, PLANNER, 0, changes, 30, None);
  }

  lemma SuccessorIsSaveable(w: World, before: Db, v: Values, p: Proposal)
    requires KnownSatnet(w, 1) && Complete(v, p) && ShapedHere(p)
    requires v.inputs == Wanted(10, 1500, 0).inputs && p.symbolRate == p.occupiedBandwidth == 10
    requires p.canonical.alloc == Interval(1495, 1505) && p.translated.alloc == Interval(11495, 11505)
    requires before.paths.Keys == {0} && before.nextId == 1 && before.paths[0].period.start < 30
    requires before.paths[0].revision == 1
    ensures var closed := Closed(before, 0, 30);
            Saveable(closed.paths, 1, NewRecord(w, closed, 1, v, p, Planned, Some(7), Some(0)))
  {
  }

  lemma PlannedHere() returns (before: Db)
    ensures var w := WorldOf([Up(), Down(ALWAYS)], ALWAYS);
            CreatePath(w, EMPTY, 20, PLANNER, 1, WANTED, Planned) == Ok(before) && TableInv(w, before)
    ensures before.paths.Keys == {0} && before.nextId == 1 && forall r :: r in before.rows ==> r.path == Some(0)
    ensures var path := before.paths[0];
            && path.satnet == 1 && path.status == Planned && path.period == Span(10, None) && path.inputs == WANTED.inputs
            && path.supersedes == None && path.revision == 1
  {
    before := CreatedHere(Planned);
    EmptyIsSound(WorldOf([Up(), Down(ALWAYS)], ALWAYS));
    CreateKeeps(WorldOf([Up(), Down(ALWAYS)], ALWAYS), EMPTY, 20, PLANNER, 1, WANTED, Planned, before);
  }

  lemma NoEndNoRevision(w: World, db: Db, now: int, caller: Caller, id: nat, changes: Changes, effectiveAt: int)
    requires changes.validUntil.None?
    ensures RevisePath(w, db, now, caller, id, changes, effectiveAt, None).Err?
  {
    if RevisePath(w, db, now, caller, id, changes, effectiveAt, None).Ok? {
      RevisingNeedsAnEnd(w, db, now, caller, id, changes, effectiveAt, None);
    }
  }

  lemma NamedEndIsAccepted(w: World, before: Db)
    requires w == WorldOf([Up(), Down(ALWAYS)], ALWAYS) && TableInv(w, before) && WorldValid(w)
    requires before.paths.Keys == {0} && before.nextId == 1 && forall r :: r in before.rows ==> r.path == Some(0)
    requires var path := before.paths[0];
             && path.satnet == 1 && path.status == Planned && path.period == Span(10, None) && path.inputs == WANTED.inputs
             && path.supersedes == None && path.revision == 1
    ensures RevisePath(w, before, 20, PLANNER, 0, UNCHANGED.(validUntil := Some(None)), 30, None).Ok?
  {
    var v := Wanted(10, 1500, 30);
    var p := CleanHere([], 20, ALWAYS, v, Some(0));
    SuccessorIsSaveable(w, before, v, p);
    OnlyAllocationIsRevised(w, before, UNCHANGED.(validUntil := Some(None)), v, p);
  }

  /** Revising without saying when the revision ends is refused, though the predecessor never ends and the
      very same revision is accepted once it is said that this one does not end either. */
  lemma RevisionMustNameItsEnd() returns (before: Db)
    ensures var w := WorldOf([Up(), Down(ALWAYS)], ALWAYS);
            && CreatePath(w, EMPTY, 20, PLANNER, 1, WANTED, Planned) == Ok(before)
            && 0 in before.paths && before.paths[0].period.end == None
            && RevisePath(w, before, 20, PLANNER, 0, UNCHANGED, 30, None).Err?
            && RevisePath(w, before, 20, PLANNER, 0, UNCHANGED.(validUntil := Some(None)), 30, None).Ok?
  {
    before := PlannedHere();
    WorldIsValid(ALWAYS, ALWAYS);
    NoEndNoRevision(WorldOf([Up(), Down(ALWAYS)], ALWAYS), before, 20, PLANNER, 0, UNCHANGED, 30);
    NamedEndIsAccepted(WorldOf([Up(), Down(ALWAYS)], ALWAYS), before);
  }

  // ------------------------------------------------------------------------------------------
  // auto_place
  // ------------------------------------------------------------------------------------------

  /** Granted on the canonical leg now, and clear of everything held there now. */
  ghost predicate FreeNow(c: DirectionConfig, rows: seq<Row>, now: int, r: FrequencyRange) {
    && Granted(c, CanonicalLegOf(c), now, r)
    && forall row :: row in rows && HoldsOnLeg(c, CanonicalLegOf(c), row, now, None) ==> !row.alloc.Overlaps(r)
  }

  lemma CouldGoWhereFree(c: DirectionConfig, rows: seq<Row>, now: int, r: FrequencyRange)
    ensures var leg := CanonicalLegOf(c);
            CouldGo(Entitlements(c, leg, now), OccupiedOn(c, rows, leg, now, None), r, r.Width()) <==> FreeNow(c, rows, now, r)
  {
    var leg := CanonicalLegOf(c);
    var held := ReservationsOn(rows, LegResources(c.resources, leg), now, None);
    EntitlementMembers(c, leg, now, r);
    forall row
      ensures row in held <==> row in rows && HoldsOnLeg(c, leg, row, now, None)
    {
      HeldOnLegMembers(c, rows, leg, now, None, row);
    }
    forall o
      ensures o in OccupiedOn(c, rows, leg, now, None) <==> exists row :: row in held && row.alloc == o
    {
      HeldRangesMembers(held, o);
    }
    forall row | row in held
      ensures row.alloc in OccupiedOn(c, rows, leg, now, None)
    {
      HeldRangesMembers(held, row.alloc);
    }
  }

  lemma LowestFreePlace(c: DirectionConfig, rows: seq<Row>, now: int, rate: int, start: int)
    requires rate >= 1 && FreeNow(c, rows, now, Interval(start, start + rate))
    requires forall r: FrequencyRange :: r.Width() == rate && FreeNow(c, rows, now, r) ==> start <= r.start
    ensures var leg := CanonicalLegOf(c);
            var fit := FirstFit(Entitlements(c, leg, now), OccupiedOn(c, rows, leg, now, None), rate);
            fit.Some? && fit.value.range.start == start
  {
    var leg := CanonicalLegOf(c);
    var entitlements, occupied := Entitlements(c, leg, now), OccupiedOn(c, rows, leg, now, None);
    FirstFitIsCompleteAndLowest(entitlements, occupied, rate);
    CouldGoWhereFree(c, rows, now, Interval(start, start + rate));
    assert CouldGo(entitlements, occupied, Interval(start, start + rate), rate);
    var found := FirstFit(entitlements, occupied, rate).value.range.start;
    CouldGoWhereFree(c, rows, now, Interval(found, found + rate));
  }

  /** The centre goes to the lowest free place. */
  lemma CentreAt(c: DirectionConfig, rows: seq<Row>, now: int, rate: int, start: int)
    requires rate >= 1 && FreeNow(c, rows, now, Interval(start, start + rate))
    requires forall r: FrequencyRange :: r.Width() == rate && FreeNow(c, rows, now, r) ==> start <= r.start
    ensures AutoCentre(c, rows, now, rate, GuardWidths(0, 0)) == Some(start + rate / 2)
  {
    CapacityGaps(c, rows, CanonicalLegOf(c), now);
    LowestFreePlace(c, rows, now, rate, start);
  }

  /** What each grant of the uplink window allows here. */
  lemma GrantedHere(a: Assignment, grants: seq<Assignment>, r: FrequencyRange)
    requires a in grants && Applies(a, 20, Some(1)) && a.rf.Contains(r)
    ensures Granted(Config(grants), HubUplink, 20, r)
  {
  }

  lemma CentreOnAnEmptyUplink(rate: int)
    requires 0 < rate <= 1000
    ensures AutoCentre(Config([Up(), Down(ALWAYS)]), [], 20, rate, GuardWidths(0, 0)) == Some(1000 + rate / 2)
  {
    GrantedHere(Up(), [Up(), Down(ALWAYS)], Interval(1000, 1000 + rate));
    CentreAt(Config([Up(), Down(ALWAYS)]), [], 20, rate, 1000);
  }

  /** On an empty direction an odd bandwidth is proposed 1 Hz below its grant, and an even one is not. */
  lemma OddProposalStartsBelowTheGrant() returns (odd: Proposal, even: Proposal)
    ensures var w := WorldOf([Up(), Down(ALWAYS)], ALWAYS);
            && AutoPlace(w, [], 20, 1, Wanted(11, 0, 10)) == Ok(Some(odd))
            && odd.canonical.alloc == Interval(999, 1011) && odd.findings != []
            && AutoPlace(w, [], 20, 1, Wanted(10, 0, 10)) == Ok(Some(even))
            && even.canonical.alloc == Interval(1000, 1010) && even.findings == []
  {
    var w := WorldOf([Up(), Down(ALWAYS)], ALWAYS);
    BandwidthHere(11);
    BandwidthHere(10);
    CentreOnAnEmptyUplink(11);
    CentreOnAnEmptyUplink(10);
    odd := PreviewHere([], 20, ALWAYS, ALWAYS, Wanted(11, 1005, 10), None);
    even := CleanHere([], 20, ALWAYS, Wanted(10, 1005, 10), None);
    WorldIsValid(ALWAYS, ALWAYS);
    OddProposalsAreCleanOnlyForAnotherTime(w, [], 20, 1, Wanted(11, 0, 10), odd);
  }

  lemma CentreAboveAReserve()
    ensures AutoCentre(Config([Up(), Down(ALWAYS)]), [Reserve(Interval(1000, 1001), Span(0, Some(30)))], 20, 11, GuardWidths(0, 0)) ==
            Some(1006)
  {
    var rows := [Reserve(Interval(1000, 1001), Span(0, Some(30)))];
    ResourcesHere();
    GrantedHere(Up(), [Up(), Down(ALWAYS)], Interval(1001, 1012));
    assert rows[0] in rows && HoldsOnLeg(Config([Up(), Down(ALWAYS)]), HubUplink, rows[0], 20, None);
    CentreAt(Config([Up(), Down(ALWAYS)]), rows, 20, 11, 1001);
  }

  /** For a later period the Hz below may be free again: then an odd proposal is clean, although the gap it
      was measured against does not hold it. */
  lemma OddProposalForLaterIsClean() returns (odd: Proposal)
    ensures var w := WorldOf([Up(), Down(ALWAYS)], ALWAYS);
            var rows := [Reserve(Interval(1000, 1001), Span(0, Some(30)))];
            && AutoPlace(w, rows, 20, 1, Wanted(11, 0, 40)) == Ok(Some(odd))
            && odd.canonical.alloc == Interval(1000, 1012) && odd.findings == []
  {
    var rows := [Reserve(Interval(1000, 1001), Span(0, Some(30)))];
    BandwidthHere(11);
    CentreAboveAReserve();
    odd := CleanHere(rows, 20, ALWAYS, Wanted(11, 1006, 40), None);
  }

  // ------------------------------------------------------------------------------------------
  // A direction typed on its downlink
  // ------------------------------------------------------------------------------------------

  function TypedOnDownlink(): DirectionConfig {
    Config([Up(), Down(ALWAYS)]).(canonicalLeg := Some(RemoteDownlink))
  }

  function DownlinkWorld(): World {
    WorldOf([Up(), Down(ALWAYS)], ALWAYS).(configs := map[(1, Fwd) := TypedOnDownlink()])
  }

  lemma DownlinkGrants()
    ensures AssignmentFor(TypedOnDownlink(), UPLINK_WINDOW, 20) == Some(Up())
    ensures AssignmentFor(TypedOnDownlink(), DOWNLINK_WINDOW, 20) == Some(Down(ALWAYS))
  {
    TwoGrants(Up(), Down(ALWAYS), 20);
    assert ActiveAssignments(TypedOnDownlink(), 20, Some(1)) == [Up()];
    assert ActiveAssignments(TypedOnDownlink(), 20, Some(2)) == [Down(ALWAYS)];
  }

  lemma DownlinkSides()
    ensures var placed := PlaceBothSides(10, 10, 0, 1500, GuardWidths(0, 0), TypedOnDownlink().translation, UplinkSide);
            SidesFor(TypedOnDownlink(), placed) ==
            (Side(RemoteDownlink, DOWNLINK_WINDOW, Interval(11495, 11505), Interval(11495, 11505)),
             Side(HubUplink, UPLINK_WINDOW, Interval(1495, 1505), Interval(1495, 1505)))
  {
  }

  lemma DownlinkIsComputed() returns (p: Proposal)
    ensures Preview(DownlinkWorld(), [], 20, 1, WANTED, None) == Ok(p) && p.config == TypedOnDownlink()
    ensures p.canonicalAssignment == Some(Down(ALWAYS)) && p.translatedAssignment == Some(Up())
    ensures p.canonical.leg == RemoteDownlink && p.translated.leg == HubUplink && p.canonical.window == DOWNLINK_WINDOW
    ensures p.canonical.alloc == Interval(11495, 11505) && p.translated.alloc == Interval(1495, 1505)
  {
    DownlinkGrants();
    DownlinkSides();
    BandwidthHere(10);
    assert DownlinkWorld().configs[(1, Fwd)] == TypedOnDownlink();
    p := Preview(DownlinkWorld(), [], 20, 1, WANTED, None).value;
  }

  lemma DownlinkIsPreviewed() returns (p: Proposal)
    ensures Preview(DownlinkWorld(), [], 20, 1, WANTED, None) == Ok(p) && p.findings == []
    ensures p.config == TypedOnDownlink()
  {
    p := DownlinkIsComputed();
    assert RESOURCES[0] in RESOURCES && RESOURCES[1] in RESOURCES;
    PreviewIsCleanIff(DownlinkWorld(), [], 20, 1, WANTED, None, p);
  }

  /** With the downlink as the leg the centre is typed on, a preview has nothing to say, and the creation it
      is of is refused by the path table. */
  lemma DownlinkDirectionIsNeverStored() returns (p: Proposal)
    ensures Preview(DownlinkWorld(), [], 20, 1, WANTED, None) == Ok(p) && p.findings == []
    ensures CreatePath(DownlinkWorld(), EMPTY, 20, PLANNER, 1, WANTED, Planned) == Err(ValidationError)
  {
    p := DownlinkIsPreviewed();
    CleanIsComplete(DownlinkWorld(), [], 20, 1, WANTED, None, p);
    OnlyUplinkDirectionsAreStored(DownlinkWorld(), [], 20, 1, WANTED, None, p);
    EmptyIsSound(DownlinkWorld());
    NewRecordIsSaveableIff(DownlinkWorld(), [], EMPTY, 20, 1, WANTED, None, p, Planned, Some(7));
  }

  function Low(): Assignment {
    Grant(3, UPLINK_WINDOW, Interval(1000, 1005), ALWAYS)
  }

  function High(): Assignment {
    Grant(4, UPLINK_WINDOW, Interval(1500, 2000), ALWAYS)
  }

  lemma ThreeGrants()
    ensures AssignmentFor(Config([Low(), High(), Down(ALWAYS)]), UPLINK_WINDOW, 20) == Some(Low())
    ensures AssignmentFor(Config([Low(), High(), Down(ALWAYS)]), DOWNLINK_WINDOW, 20) == Some(Down(ALWAYS))
  {
    var grants := [Low(), High(), Down(ALWAYS)];
    var none: seq<Assignment> := [];
    assert grants[1..] == [High(), Down(ALWAYS)] && grants[1..][1..] == [Down(ALWAYS)] && [Down(ALWAYS)][1..] == none;
    assert Applicable(none, 20, Some(1)) == none && Applicable(none, 20, Some(2)) == none;
    assert Applicable([Down(ALWAYS)], 20, Some(1)) == none;
    assert Applicable([Down(ALWAYS)], 20, Some(2)) == [Down(ALWAYS)] + none == [Down(ALWAYS)];
    assert Applicable(grants[1..], 20, Some(1)) == [High()] + none == [High()];
    assert Applicable(grants[1..], 20, Some(2)) == [Down(ALWAYS)];
    assert Applicable(grants, 20, Some(1)) == [Low()] + [High()] && Applicable(grants, 20, Some(2)) == [Down(ALWAYS)];
    assert ([Low()] + [High()])[1..] == [High()];
    SortingOne(High(), ByRfStart);
    SortingOne(Down(ALWAYS), ByRfStart);
  }

  lemma SecondGrantCentre()
    ensures var c := Config([Low(), High(), Down(ALWAYS)]);
            AutoCentre(c, [], 20, 10, GuardWidths(0, 0)) == Some(1505) && FreeNow(c, [], 20, Interval(1500, 1510))
  {
    var grants := [Low(), High(), Down(ALWAYS)];
    GrantedHere(High(), grants, Interval(1500, 1510));
    CentreAt(Config(grants), [], 20, 10, 1500);
  }

  lemma ThreeGrantsAreValid()
    ensures WorldValid(WorldOf([Low(), High(), Down(ALWAYS)], ALWAYS))
  {
  }

  /** The first gap that fits may lie in a second grant of the window. It is granted and free, and the
      preview refuses it, because it looks at the first grant only. */
  lemma SecondGrantIsProposedAndRefused() returns (p: Proposal)
    ensures var w := WorldOf([Low(), High(), Down(ALWAYS)], ALWAYS);
            && WorldValid(w)
            && AutoPlace(w, [], 20, 1, Wanted(10, 0, 10)) == Ok(Some(p))
            && p.canonical.alloc == Interval(1500, 1510) && High().rf.Contains(p.canonical.alloc)
            && FreeNow(p.config, [], 20, p.canonical.alloc) && p.findings != []
  {
    var grants := [Low(), High(), Down(ALWAYS)];
    ThreeGrantsAreValid();
    SecondGrantCentre();
    BandwidthHere(10);
    ThreeGrants();
    p := PreviewUnder(grants, Low(), Down(ALWAYS), [], 20, ALWAYS, Wanted(10, 1505, 10), None);
    OutsideItsGrantIsFound(WorldOf(grants, ALWAYS), [], 20, Wanted(10, 1505, 10), p);
  }

  lemma OutsideItsGrantIsFound(w: World, rows: seq<Row>, now: int, v: Values, p: Proposal)
    requires KnownSatnet(w, 1) && Preview(w, rows, now, 1, v, None) == Ok(p)
    requires p.canonicalAssignment.Some? && !p.canonicalAssignment.value.rf.Contains(p.canonical.alloc)
    ensures p.findings != []
  {
    PreviewIsCleanIff(w, rows, now, 1, v, None, p);
  }

  // ------------------------------------------------------------------------------------------
  // Arithmetic
  // ------------------------------------------------------------------------------------------

  /** Two entitlements to the same Hz, one of which is held: what is free and what is covered do not make
      up the total. */
  lemma SharedGrantsLoseAnHz()
    ensures var e, held := Interval(0, 2), Interval(0, 1);
            var s := Summarise([e, e], [held]);
            s.free + |CoveredHz([e, e], [held])| < s.total
  {
    var e, held := Interval(0, 2), Interval(0, 1);
    CapacityIsConserved([e, e], [held]);
    assert [held][0].ContainsHz(0) && [e, e][0].ContainsHz(0) && [e, e][1].ContainsHz(0);
    assert InSome([held], 0);
  }

  /** 4 Hz at a roll-off of one half carry 2 symbols per second, which occupy 3 Hz. */
  lemma BandwidthRoundTripLosesAnHz(bandwidth: int, rolloff: int)
    requires bandwidth == 4 && rolloff == 500
    ensures SymbolRate(bandwidth, rolloff) == Some(2) && OccupiedBandwidth(2, rolloff) == Some(bandwidth - 1)
  {
    RateIs(bandwidth, rolloff, 2);
  }
}
