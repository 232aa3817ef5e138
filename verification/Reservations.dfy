/**
 * The reservation table: its rows, the constraints PostgreSQL enforces on them
 * (`spectrum/models.py`, `spectrum/constants.py`) and the three operations that write it
 * (`spectrum/services.py`).
 */
module Reservations {
  import opened Wrappers
  import opened Ranges
  import opened Periods
  import opened MasterData

  datatype Error =
    | DoesNotExist
    | PermissionDenied
    | OutOfScope
    | IllegalTransition
    | TransitionRefused
    | NotEditable
    | StaleRecord
    | PathBlocked
    | ApprovalRefused
    | BadValue
    | ValidationError
    | IntegrityError
    | SpectrumConflict
    | OutsideEntitlement

  datatype Status = Draft | Planned | PendingApproval | OnAir | Suspended | Cancelled | Retired | ImportReview

  predicate AlwaysReserving(status: Status) {
    status in {Planned, PendingApproval, OnAir}
  }

  predicate NeverReserving(status: Status) {
    status in {Draft, Cancelled, Retired, ImportReview}
  }

  /** `reserves_spectrum`. */
  function ReservesSpectrum(status: Status, suspendedRetains: bool): bool {
    if AlwaysReserving(status) then true
    else if NeverReserving(status) then false
    else suspendedRetains
  }

  datatype Kind = SatnetPathKind | FixedReserve

  /** One row. Edges and periods run forwards by their types, which are `ck_res_alloc_start_lt_end`,
      `ck_res_occ_start_lt_end` and `ck_res_period`; the copied assignment edges are the
      assignment's own, which a composite foreign key guarantees. */
  datatype Row = Row(
    resource: nat,
    assignment: Assignment,
    leg: Leg,
    polarization: Polarization,
    occupied: FrequencyRange,
    alloc: FrequencyRange,
    period: TimePeriod,
    kind: Kind,
    path: Option<nat>,
    direction: Option<Direction>,
    status: Option<Status>,
    reserves: bool)

  predicate DirectionAllowsLeg(direction: Option<Direction>, leg: Leg) {
    match direction
    case None => true
    case Some(Fwd) => leg in {HubUplink, RemoteDownlink}
    case Some(Rtn) => leg in {RemoteUplink, HubDownlink}
  }

  /** The CHECK constraints of one row. */
  predicate CheckRow(r: Row) {
    && r.alloc.Contains(r.occupied)
    && r.assignment.rf.Contains(r.alloc)
    && (match r.kind
        case SatnetPathKind => r.path.Some? && r.status.Some?
        case FixedReserve => r.path.None? && r.status.None? && r.direction.None?)
    && (r.status.Some? && AlwaysReserving(r.status.value) ==> r.reserves)
    && (r.status.Some? && NeverReserving(r.status.value) ==> !r.reserves)
    && DirectionAllowsLeg(r.direction, r.leg)
  }

  /** What `excl_reservation_overlap` refuses between two rows. */
  predicate Conflict(a: Row, b: Row) {
    && a.reserves && b.reserves
    && a.resource == b.resource
    && a.alloc.Overlaps(b.alloc)
    && a.period.Overlaps(b.period)
  }

  predicate ConflictsWithAny(rows: seq<Row>, row: Row) {
    exists i :: 0 <= i < |rows| && Conflict(rows[i], row)
  }

  /** The promise: no two rows hold the same Hz of the same resource at the same time. */
  ghost predicate Exclusive(rows: seq<Row>) {
    forall i, j :: 0 <= i < j < |rows| ==> !Conflict(rows[i], rows[j])
  }

  predicate HoldsAt(row: Row, resource: nat, hz: int, at: int) {
    row.reserves && row.resource == resource && row.alloc.ContainsHz(hz) && row.period.InForce(at)
  }

  /** The promise in its own words: at no moment is one Hz of one resource held twice. */
  lemma ExclusiveMeansNoHzIsHeldTwice(rows: seq<Row>)
    ensures Exclusive(rows) <==>
            forall i, j, hz, at :: 0 <= i < j < |rows| ==>
              !(HoldsAt(rows[i], rows[j].resource, hz, at) && HoldsAt(rows[j], rows[j].resource, hz, at))
  {
    forall i, j | 0 <= i < j < |rows|
      ensures Conflict(rows[i], rows[j]) <==>
              exists hz, at :: HoldsAt(rows[i], rows[j].resource, hz, at) && HoldsAt(rows[j], rows[j].resource, hz, at)
    {
      ConflictIsSharedHz(rows[i], rows[j]);
    }
  }

  lemma ConflictIsSymmetric(a: Row, b: Row)
    ensures Conflict(a, b) <==> Conflict(b, a)
  {
  }

  lemma ExclusivePrefix(a: seq<Row>, b: seq<Row>)
    requires Exclusive(a + b)
    ensures Exclusive(a)
  {
    forall i, j | 0 <= i < j < |a|
      ensures !Conflict(a[i], a[j])
    {
      assert (a + b)[i] == a[i] && (a + b)[j] == a[j];
    }
  }

  lemma ExclusiveAppend(rows: seq<Row>, row: Row)
    ensures Exclusive(rows + [row]) <==> Exclusive(rows) && !ConflictsWithAny(rows, row)
  {
    var all := rows + [row];
    if Exclusive(all) {
      ExclusivePrefix(rows, [row]);
      forall i | 0 <= i < |rows|
        ensures !Conflict(rows[i], row)
      {
        assert !Conflict(all[i], all[|rows|]);
      }
    }
  }

  // ------------------------------------------------------------------------------------------
  // One INSERT, one UPDATE
  // ------------------------------------------------------------------------------------------

  function InsertRow(rows: seq<Row>, row: Row): Result<seq<Row>, Error> {
    if !CheckRow(row) then Err(IntegrityError)
    else if ConflictsWithAny(rows, row) then Err(SpectrumConflict)
    else Ok(rows + [row])
  }

  /** What a CHECK refuses, constraint by constraint. */
  ghost predicate BreaksACheck(row: Row) {
    || (exists hz :: row.occupied.ContainsHz(hz) && !row.alloc.ContainsHz(hz))
    || (exists hz :: row.alloc.ContainsHz(hz) && !row.assignment.rf.ContainsHz(hz))
    || (row.kind == SatnetPathKind && (row.path.None? || row.status.None?))
    || (row.kind == FixedReserve && (row.path.Some? || row.status.Some? || row.direction.Some?))
    || (row.status in {Some(Planned), Some(PendingApproval), Some(OnAir)} && !row.reserves)
    || (row.status in {Some(Draft), Some(Cancelled), Some(Retired), Some(ImportReview)} && row.reserves)
    || (row.direction == Some(Fwd) && row.leg in {RemoteUplink, HubDownlink})
    || (row.direction == Some(Rtn) && row.leg in {HubUplink, RemoteDownlink})
  }

  lemma ConflictIsSharedHz(a: Row, b: Row)
    ensures Conflict(a, b) <==> exists hz, at :: HoldsAt(a, b.resource, hz, at) && HoldsAt(b, b.resource, hz, at)
  {
    OverlapIsSharedHz(a.alloc, b.alloc);
    OverlapIsSharedMoment(a.period, b.period);
    if Conflict(a, b) {
      var hz :| a.alloc.ContainsHz(hz) && b.alloc.ContainsHz(hz);
      var at :| a.period.InForce(at) && b.period.InForce(at);
      assert HoldsAt(a, b.resource, hz, at) && HoldsAt(b, b.resource, hz, at);
    }
  }

  lemma CheckIsEveryConstraint(row: Row)
    ensures CheckRow(row) <==> !BreaksACheck(row)
  {
    ContainmentIsEveryHz(row.alloc, row.occupied);
    ContainmentIsEveryHz(row.assignment.rf, row.alloc);
    match row.leg {
      case HubUplink =>
      case RemoteDownlink =>
      case RemoteUplink =>
      case HubDownlink =>
    }
  }

  /** One INSERT: refused as malformed exactly when it breaks a CHECK, as a conflict exactly when besides
      it would hold an Hz of its resource at a moment another row does, and otherwise the row is added. */
  lemma InsertIsDecided(rows: seq<Row>, row: Row)
    ensures InsertRow(rows, row) == Err(IntegrityError) <==> BreaksACheck(row)
    ensures InsertRow(rows, row) == Err(SpectrumConflict) <==>
            !BreaksACheck(row) && exists i, hz, at ::
              0 <= i < |rows| && HoldsAt(rows[i], row.resource, hz, at) && HoldsAt(row, row.resource, hz, at)
    ensures InsertRow(rows, row) in {Err(IntegrityError), Err(SpectrumConflict), Ok(rows + [row])}
  {
    CheckIsEveryConstraint(row);
    forall i | 0 <= i < |rows|
      ensures Conflict(rows[i], row) <==>
              exists hz, at :: HoldsAt(rows[i], row.resource, hz, at) && HoldsAt(row, row.resource, hz, at)
    {
      ConflictIsSharedHz(rows[i], row);
    }
  }

  function Restatus(row: Row, status: Status, reserves: bool): Row {
    row.(status := Some(status), reserves := reserves)
  }

  predicate ConflictsElsewhere(rows: seq<Row>, i: nat, row: Row) {
    exists j :: 0 <= j < |rows| && j != i && Conflict(rows[j], row)
  }

  function UpdateRow(rows: seq<Row>, i: nat, status: Status, reserves: bool): (r: Result<seq<Row>, Error>)
    requires i < |rows|
    ensures r.Ok? ==> |r.value| == |rows|
  {
    var row := Restatus(rows[i], status, reserves);
    if !CheckRow(row) then Err(IntegrityError)
    else if ConflictsElsewhere(rows, i, row) then Err(SpectrumConflict)
    else Ok(rows[i := row])
  }

  // ------------------------------------------------------------------------------------------
  // reserve
  // ------------------------------------------------------------------------------------------

  datatype Occupancy = Occupancy(
    assignment: Assignment,
    leg: Leg,
    polarization: Polarization,
    occupied: FrequencyRange,
    alloc: FrequencyRange,
    resources: seq<nat>)

  /** What every row of one allocation has in common. */
  datatype Booking = Booking(path: nat, direction: Direction, status: Status, period: TimePeriod, reserves: bool)

  function RowFor(o: Occupancy, resource: nat, b: Booking): Row {
    Row(resource, o.assignment, o.leg, o.polarization, o.occupied, o.alloc, b.period,
        SatnetPathKind, Some(b.path), Some(b.direction), Some(b.status), b.reserves)
  }

  /** `_check_entitlement`: the grant is active and covers the whole period. */
  predicate Entitled(o: Occupancy, period: TimePeriod) {
    o.assignment.isActive && o.assignment.period.Contains(period)
  }

  function RowsForResources(o: Occupancy, resources: seq<nat>, b: Booking): seq<Row> {
    if resources == [] then [] else [RowFor(o, resources[0], b)] + RowsForResources(o, resources[1..], b)
  }

  /** Every row an allocation asks for: one per resource of each leg. */
  function RowsForAll(occupancies: seq<Occupancy>, b: Booking): seq<Row> {
    if occupancies == [] then []
    else RowsForResources(occupancies[0], occupancies[0].resources, b) + RowsForAll(occupancies[1..], b)
  }

  /** One INSERT after another, stopping at the first refusal. */
  function WriteRows(rows: seq<Row>, added: seq<Row>): Result<seq<Row>, Error>
    decreases |added|
  {
    if added == [] then Ok(rows)
    else match InsertRow(rows, added[0])
      case Err(e) => Err(e)
      case Ok(more) => WriteRows(more, added[1..])
  }

  /** `reserve`, statement by statement. */
  function ReserveRows(rows: seq<Row>, occupancies: seq<Occupancy>, b: Booking): Result<seq<Row>, Error>
    decreases |occupancies|
  {
    if occupancies == [] then Ok(rows)
    else if !Entitled(occupancies[0], b.period) then Err(OutsideEntitlement)
    else match WriteRows(rows, RowsForResources(occupancies[0], occupancies[0].resources, b))
      case Err(e) => Err(e)
      case Ok(more) => ReserveRows(more, occupancies[1..], b)
  }

  /** The same request judged as a whole: every grant covers it, every row is well formed, and the
      table with all of them in it keeps the promise. */
  ghost predicate Acceptable(rows: seq<Row>, occupancies: seq<Occupancy>, b: Booking) {
    && (forall o :: o in occupancies ==> Entitled(o, b.period))
    && (forall r :: r in RowsForAll(occupancies, b) ==> CheckRow(r))
    && Exclusive(rows + RowsForAll(occupancies, b))
  }

  lemma {:induction false} WritingIsWholeSetChecking(rows: seq<Row>, added: seq<Row>)
    requires Exclusive(rows)
    ensures WriteRows(rows, added).Ok? <==> (forall r :: r in added ==> CheckRow(r)) && Exclusive(rows + added)
    ensures WriteRows(rows, added).Ok? ==> WriteRows(rows, added).value == rows + added
    decreases |added|
  {
    if added == [] {
      assert rows + added == rows;
    } else {
      var first, rest := added[0], added[1..];
      assert added == [first] + rest;
      assert rows + added == (rows + [first]) + rest;
      ExclusiveAppend(rows, first);
      if InsertRow(rows, first).Ok? {
        WritingIsWholeSetChecking(rows + [first], rest);
      } else if CheckRow(first) && Exclusive(rows + added) {
        ExclusivePrefix(rows + [first], rest);
      }
    }
  }

  /** Checking each INSERT as it happens accepts exactly what checking the finished table would,
      and then leaves exactly that table. */
  lemma {:induction false} ReserveIsWholeSetChecking(rows: seq<Row>, occupancies: seq<Occupancy>, b: Booking)
    requires Exclusive(rows)
    ensures ReserveRows(rows, occupancies, b).Ok? <==> Acceptable(rows, occupancies, b)
    ensures ReserveRows(rows, occupancies, b).Ok? ==>
              ReserveRows(rows, occupancies, b).value == rows + RowsForAll(occupancies, b)
    decreases |occupancies|
  {
    if occupancies == [] {
      assert rows + RowsForAll(occupancies, b) == rows;
    } else {
      var o, rest := occupancies[0], occupancies[1..];
      var added := RowsForResources(o, o.resources, b);
      assert occupancies == [o] + rest;
      assert rows + RowsForAll(occupancies, b) == (rows + added) + RowsForAll(rest, b);
      WritingIsWholeSetChecking(rows, added);
      if Entitled(o, b.period) {
        if WriteRows(rows, added).Ok? {
          ReserveIsWholeSetChecking(rows + added, rest, b);
        } else if Acceptable(rows, occupancies, b) {
          ExclusivePrefix(rows + added, RowsForAll(rest, b));
        }
      }
    }
  }

  lemma {:induction false} WriteRefusalIsExplained(rows: seq<Row>, added: seq<Row>)
    requires Exclusive(rows) && WriteRows(rows, added).Err?
    ensures match WriteRows(rows, added).error
            case IntegrityError => exists r :: r in added && !CheckRow(r)
            case SpectrumConflict => !Exclusive(rows + added)
            case _ => false
    decreases |added|
  {
    var first, rest := added[0], added[1..];
    assert rows + added == (rows + [first]) + rest;
    ExclusiveAppend(rows, first);
    if InsertRow(rows, first).Ok? {
      WriteRefusalIsExplained(rows + [first], rest);
      assert forall r :: r in rest ==> r in added;
    } else if Exclusive(rows + added) {
      ExclusivePrefix(rows + [first], rest);
      assert first in added;
    }
  }

  /** Each way `reserve` can fail names a fact about the whole request: a grant that does not cover
      the period, a row that breaks a CHECK, or a finished table that would break the promise. */
  lemma {:induction false} ReserveRefusalIsExplained(rows: seq<Row>, occupancies: seq<Occupancy>, b: Booking)
    requires Exclusive(rows) && ReserveRows(rows, occupancies, b).Err?
    ensures match ReserveRows(rows, occupancies, b).error
            case OutsideEntitlement => exists o :: o in occupancies && !Entitled(o, b.period)
            case IntegrityError => exists r :: r in RowsForAll(occupancies, b) && !CheckRow(r)
            case SpectrumConflict => !Exclusive(rows + RowsForAll(occupancies, b))
            case _ => false
    decreases |occupancies|
  {
    var o, rest := occupancies[0], occupancies[1..];
    var added, others := RowsForResources(o, o.resources, b), RowsForAll(occupancies[1..], b);
    assert rows + RowsForAll(occupancies, b) == (rows + added) + others;
    assert forall x :: x in rest ==> x in occupancies;
    if Entitled(o, b.period) {
      WritingIsWholeSetChecking(rows, added);
      if WriteRows(rows, added).Err? {
        WriteRefusalIsExplained(rows, added);
        if Exclusive(rows + RowsForAll(occupancies, b)) {
          ExclusivePrefix(rows + added, others);
        }
      } else {
        ReserveRefusalIsExplained(rows + added, rest, b);
      }
    }
  }

  lemma {:induction false} RowsForResourcesAt(o: Occupancy, resources: seq<nat>, b: Booking)
    ensures |RowsForResources(o, resources, b)| == |resources|
    ensures forall i :: 0 <= i < |resources| ==> RowsForResources(o, resources, b)[i] == RowFor(o, resources[i], b)
  {
    if resources != [] {
      RowsForResourcesAt(o, resources[1..], b);
    }
  }

  // ------------------------------------------------------------------------------------------
  // set_status
  // ------------------------------------------------------------------------------------------

  predicate Belongs(row: Row, path: nat) {
    row.path == Some(path)
  }

  /** The rows of one allocation, as the positions of a query result. */
  function OwnIndices(rows: seq<Row>, path: nat, from: nat): seq<nat>
    requires from <= |rows|
    decreases |rows| - from
  {
    if from == |rows| then []
    else if Belongs(rows[from], path) then [from] + OwnIndices(rows, path, from + 1)
    else OwnIndices(rows, path, from + 1)
  }

  /** A list of positions holding each row of the allocation once, in any order. */
  ghost predicate Enumerates(order: seq<nat>, rows: seq<Row>, path: nat) {
    && OwnPositions(order, rows, path)
    && (forall i :: 0 <= i < |rows| && Belongs(rows[i], path) ==> i in order)
  }

  ghost predicate OwnPositions(order: seq<nat>, rows: seq<Row>, path: nat) {
    && (forall k :: 0 <= k < |order| ==> order[k] < |rows| && Belongs(rows[order[k]], path))
    && (forall i, j :: 0 <= i < j < |order| ==> order[i] != order[j])
  }

  predicate Within(order: seq<nat>, rows: seq<Row>) {
    forall k :: 0 <= k < |order| ==> order[k] < |rows|
  }

  /** One UPDATE after another, along the given order. */
  function UpdateAlong(rows: seq<Row>, order: seq<nat>, status: Status, reserves: bool): Result<seq<Row>, Error>
    requires Within(order, rows)
    decreases |order|
  {
    if order == [] then Ok(rows)
    else match UpdateRow(rows, order[0], status, reserves)
      case Err(e) => Err(e)
      case Ok(more) => UpdateAlong(more, order[1..], status, reserves)
  }

  function SetStatusRows(rows: seq<Row>, path: nat, status: Status, reserves: bool): Result<seq<Row>, Error> {
    OwnIndicesEnumerate(rows, path);
    UpdateAlong(rows, OwnIndices(rows, path, 0), status, reserves)
  }

  function Moved(row: Row, path: nat, status: Status, reserves: bool): Row {
    if Belongs(row, path) then Restatus(row, status, reserves) else row
  }

  /** The table with every row of the allocation moved. */
  function Restatused(rows: seq<Row>, path: nat, status: Status, reserves: bool): seq<Row> {
    if rows == [] then []
    else [Moved(rows[0], path, status, reserves)] + Restatused(rows[1..], path, status, reserves)
  }

  lemma {:induction false} RestatusedAt(rows: seq<Row>, path: nat, status: Status, reserves: bool)
    ensures |Restatused(rows, path, status, reserves)| == |rows|
    ensures forall i :: 0 <= i < |rows| ==>
              Restatused(rows, path, status, reserves)[i] == Moved(rows[i], path, status, reserves)
  {
    if rows != [] {
      RestatusedAt(rows[1..], path, status, reserves);
    }
  }

  ghost predicate ListsOwn(own: seq<nat>, rows: seq<Row>, path: nat, from: nat) {
    && (forall k :: 0 <= k < |own| ==> from <= own[k] < |rows| && Belongs(rows[own[k]], path))
    && (forall i :: from <= i < |rows| && Belongs(rows[i], path) ==> i in own)
    && (forall i, j :: 0 <= i < j < |own| ==> own[i] < own[j])
  }

  lemma ListsOneMore(rest: seq<nat>, rows: seq<Row>, path: nat, from: nat)
    requires from < |rows| && Belongs(rows[from], path) && ListsOwn(rest, rows, path, from + 1)
    ensures ListsOwn([from] + rest, rows, path, from)
  {
    var own := [from] + rest;
    assert own[0] == from;
    forall i | from <= i < |rows| && Belongs(rows[i], path)
      ensures i in own
    {
      if i > from {
        var k :| 0 <= k < |rest| && rest[k] == i;
        assert own[k + 1] == i;
      }
    }
  }

  lemma {:induction false} OwnIndicesAreOwn(rows: seq<Row>, path: nat, from: nat)
    requires from <= |rows|
    ensures ListsOwn(OwnIndices(rows, path, from), rows, path, from)
    decreases |rows| - from
  {
    if from < |rows| {
      OwnIndicesAreOwn(rows, path, from + 1);
      if Belongs(rows[from], path) {
        ListsOneMore(OwnIndices(rows, path, from + 1), rows, path, from);
      }
    }
  }

  lemma OwnIndicesEnumerate(rows: seq<Row>, path: nat)
    ensures Enumerates(OwnIndices(rows, path, 0), rows, path)
    ensures Within(OwnIndices(rows, path, 0), rows)
  {
    OwnIndicesAreOwn(rows, path, 0);
  }

  /** Part of the way through: the positions still in `order` are as they were, the others of the
      allocation have moved. */
  ghost predicate PartlyMoved(now: seq<Row>, rows: seq<Row>, order: seq<nat>, path: nat, status: Status, reserves: bool) {
    && |now| == |rows|
    && OwnPositions(order, rows, path)
    && (forall i :: 0 <= i < |rows| ==>
          now[i] == if i in order then rows[i] else Moved(rows[i], path, status, reserves))
  }

  /** A moved row meets the same rivals whether they have moved yet or not: if it collides with a
      sibling now, it would collide with it at the end. */
  lemma CollisionNowIsCollisionAtTheEnd(now: seq<Row>, rows: seq<Row>, order: seq<nat>, path: nat,
                                        status: Status, reserves: bool, i: nat, j: nat)
    requires PartlyMoved(now, rows, order, path, status, reserves)
    requires i < |rows| && j < |rows| && i in order
    requires Conflict(now[j], Restatus(rows[i], status, reserves))
    ensures Conflict(Moved(rows[j], path, status, reserves), Moved(rows[i], path, status, reserves))
  {
    var k :| 0 <= k < |order| && order[k] == i;
  }

  lemma RefusedUpdateIsRefusedAtTheEnd(now: seq<Row>, rows: seq<Row>, order: seq<nat>, path: nat, status: Status,
                                       reserves: bool, i: nat)
    requires PartlyMoved(now, rows, order, path, status, reserves) && i < |rows| && i in order
    requires ConflictsElsewhere(now, i, Restatus(rows[i], status, reserves))
    ensures !Exclusive(Restatused(rows, path, status, reserves))
  {
    var final := Restatused(rows, path, status, reserves);
    RestatusedAt(rows, path, status, reserves);
    var j :| 0 <= j < |now| && j != i && Conflict(now[j], Restatus(rows[i], status, reserves));
    CollisionNowIsCollisionAtTheEnd(now, rows, order, path, status, reserves, i, j);
    ConflictIsSymmetric(final[j], final[i]);
    assert if i < j then Conflict(final[i], final[j]) else Conflict(final[j], final[i]);
  }

  lemma OneMoreMoved(now: seq<Row>, rows: seq<Row>, order: seq<nat>, path: nat, status: Status, reserves: bool)
    requires PartlyMoved(now, rows, order, path, status, reserves) && order != [] && order[0] < |rows|
    ensures PartlyMoved(now[order[0] := Restatus(rows[order[0]], status, reserves)], rows, order[1..], path, status, reserves)
  {
    assert order == [order[0]] + order[1..];
  }

  ghost predicate AllMayMove(rows: seq<Row>, order: seq<nat>, status: Status, reserves: bool) {
    forall k :: 0 <= k < |order| ==> order[k] < |rows| && CheckRow(Restatus(rows[order[k]], status, reserves))
  }

  lemma {:induction false} UpdatesAreWholeSetChecking(now: seq<Row>, rows: seq<Row>, order: seq<nat>, path: nat,
                                                      status: Status, reserves: bool)
    requires PartlyMoved(now, rows, order, path, status, reserves) && Exclusive(now) && Within(order, now)
    ensures UpdateAlong(now, order, status, reserves).Ok? <==>
            AllMayMove(rows, order, status, reserves) && Exclusive(Restatused(rows, path, status, reserves))
    ensures UpdateAlong(now, order, status, reserves).Ok? ==>
            UpdateAlong(now, order, status, reserves).value == Restatused(rows, path, status, reserves)
    decreases |order|
  {
    if order == [] {
      RestatusedAt(rows, path, status, reserves);
      assert now == Restatused(rows, path, status, reserves);
    } else {
      var i := order[0];
      assert i in order;
      assert now[i] == rows[i];
      if UpdateRow(now, i, status, reserves).Ok? {
        ExclusiveAfterUpdate(now, i, Restatus(rows[i], status, reserves));
        OneMoreMoved(now, rows, order, path, status, reserves);
        UpdatesAreWholeSetChecking(now[i := Restatus(rows[i], status, reserves)], rows, order[1..], path, status, reserves);
        AllButTheFirst(rows, order, status, reserves);
      } else if CheckRow(Restatus(rows[i], status, reserves)) {
        RefusedUpdateIsRefusedAtTheEnd(now, rows, order, path, status, reserves, i);
      }
    }
  }

  /** If every row may carry the new status, an UPDATE is refused for a conflict and for nothing else. */
  lemma {:induction false} UpdateRefusalIsAConflict(now: seq<Row>, rows: seq<Row>, order: seq<nat>, path: nat, status: Status,
                                                    reserves: bool)
    requires PartlyMoved(now, rows, order, path, status, reserves) && Within(order, now)
    requires AllMayMove(rows, order, status, reserves) && UpdateAlong(now, order, status, reserves).Err?
    ensures UpdateAlong(now, order, status, reserves).error == SpectrumConflict
    decreases |order|
  {
    var i := order[0];
    assert i in order;
    assert now[i] == rows[i];
    if UpdateRow(now, i, status, reserves).Ok? {
      OneMoreMoved(now, rows, order, path, status, reserves);
      AllButTheFirst(rows, order, status, reserves);
      UpdateRefusalIsAConflict(now[i := Restatus(rows[i], status, reserves)], rows, order[1..], path, status, reserves);
    }
  }

  lemma AllButTheFirst(rows: seq<Row>, order: seq<nat>, status: Status, reserves: bool)
    requires order != [] && order[0] < |rows| && CheckRow(Restatus(rows[order[0]], status, reserves))
    ensures AllMayMove(rows, order, status, reserves) <==> AllMayMove(rows, order[1..], status, reserves)
  {
    if AllMayMove(rows, order[1..], status, reserves) {
      forall k | 0 <= k < |order|
        ensures order[k] < |rows| && CheckRow(Restatus(rows[order[k]], status, reserves))
      {
        assert k > 0 ==> order[1..][k - 1] == order[k];
      }
    }
  }

  lemma ExclusiveAfterUpdate(rows: seq<Row>, i: nat, row: Row)
    requires i < |rows| && Exclusive(rows) && !ConflictsElsewhere(rows, i, row)
    ensures Exclusive(rows[i := row])
  {
    var after := rows[i := row];
    forall a, b | 0 <= a < b < |after|
      ensures !Conflict(after[a], after[b])
    {
      if b == i {
        assert !Conflict(rows[a], row);
      } else if a == i {
        assert !Conflict(rows[b], row);
        ConflictIsSymmetric(rows[b], row);
      } else {
        assert !Conflict(rows[a], rows[b]);
      }
    }
  }

  /** Moving the rows one UPDATE at a time, in whatever order the query returns them, succeeds
      exactly when the finished table keeps the promise, and then leaves exactly that table. */
  lemma SetStatusIsWholeSetChecking(rows: seq<Row>, order: seq<nat>, path: nat, status: Status, reserves: bool)
    requires Exclusive(rows) && Enumerates(order, rows, path) && Within(order, rows)
    ensures var final := Restatused(rows, path, status, reserves);
            && (UpdateAlong(rows, order, status, reserves).Ok? <==>
                (forall r :: r in rows && Belongs(r, path) ==> CheckRow(Restatus(r, status, reserves))) && Exclusive(final))
            && (UpdateAlong(rows, order, status, reserves).Ok? ==>
                UpdateAlong(rows, order, status, reserves).value == final)
  {
    assert PartlyMoved(rows, rows, order, path, status, reserves);
    UpdatesAreWholeSetChecking(rows, rows, order, path, status, reserves);
    if AllMayMove(rows, order, status, reserves) {
      forall r | r in rows && Belongs(r, path)
        ensures CheckRow(Restatus(r, status, reserves))
      {
        var i :| 0 <= i < |rows| && rows[i] == r;
        var k :| 0 <= k < |order| && order[k] == i;
      }
    }
  }

  // ------------------------------------------------------------------------------------------
  // release
  // ------------------------------------------------------------------------------------------

  function Released(rows: seq<Row>, path: nat): seq<Row> {
    if rows == [] then []
    else if Belongs(rows[0], path) then Released(rows[1..], path)
    else [rows[0]] + Released(rows[1..], path)
  }

  // ------------------------------------------------------------------------------------------
  // The table as it is written
  // ------------------------------------------------------------------------------------------

  /** The table. Each operation is one transaction: it either does all of its writes or, on the
      first refusal, puts back what it found. */
  class ReservationTable {
    var rows: seq<Row>

    constructor (initial: seq<Row>)
      ensures rows == initial
    {
      rows := initial;
    }

    method Insert(row: Row) returns (error: Option<Error>)
      modifies this
      ensures match InsertRow(old(rows), row)
              case Ok(after) => error == None && rows == after
              case Err(e) => error == Some(e) && rows == old(rows)
    {
      if !CheckRow(row) {
        return Some(IntegrityError);
      }
      for i := 0 to |rows|
        invariant forall k :: 0 <= k < i ==> !Conflict(rows[k], row)
        invariant rows == old(rows)
      {
        if Conflict(rows[i], row) {
          return Some(SpectrumConflict);
        }
      }
      rows := rows + [row];
      error := None;
    }

    method Update(i: nat, status: Status, reserves: bool) returns (error: Option<Error>)
      requires i < |rows|
      modifies this
      ensures match UpdateRow(old(rows), i, status, reserves)
              case Ok(after) => error == None && rows == after
              case Err(e) => error == Some(e) && rows == old(rows)
    {
      var row := Restatus(rows[i], status, reserves);
      if !CheckRow(row) {
        return Some(IntegrityError);
      }
      for j := 0 to |rows|
        invariant forall k :: 0 <= k < j && k != i ==> !Conflict(rows[k], row)
        invariant rows == old(rows)
      {
        if j != i && Conflict(rows[j], row) {
          return Some(SpectrumConflict);
        }
      }
      rows := rows[i := row];
      error := None;
    }

    /** `reserve`: every row or none of them. */
    method Reserve(occupancies: seq<Occupancy>, b: Booking) returns (error: Option<Error>)
      modifies this
      ensures match ReserveRows(old(rows), occupancies, b)
              case Ok(after) => error == None && rows == after
              case Err(e) => error == Some(e) && rows == old(rows)
      ensures Exclusive(old(rows)) ==>
                && Exclusive(rows)
                && (error.None? <==> Acceptable(old(rows), occupancies, b))
                && (error.None? ==> rows == old(rows) + RowsForAll(occupancies, b))
    {
      if Exclusive(rows) {
        ReserveIsWholeSetChecking(rows, occupancies, b);
      }
      var snapshot := rows;
      for k := 0 to |occupancies|
        invariant ReserveRows(snapshot, occupancies, b) == ReserveRows(rows, occupancies[k..], b)
      {
        var o := occupancies[k];
        assert occupancies[k..][1..] == occupancies[k + 1..];
        if !Entitled(o, b.period) {
          rows := snapshot;
          return Some(OutsideEntitlement);
        }
        ghost var before := rows;
        ghost var all := RowsForResources(o, o.resources, b);
        for n := 0 to |o.resources|
          invariant WriteRows(before, all) == WriteRows(rows, RowsForResources(o, o.resources[n..], b))
        {
          assert o.resources[n..][1..] == o.resources[n + 1..];
          var refusal := Insert(RowFor(o, o.resources[n], b));
          if refusal.Some? {
            rows := snapshot;
            return refusal;
          }
        }
        assert o.resources[|o.resources|..] == [];
      }
      error := None;
    }

    /** `set_status`: both columns of every row of one allocation, or nothing. */
    method SetStatus(path: nat, status: Status, reserves: bool) returns (error: Option<Error>)
      modifies this
      ensures match SetStatusRows(old(rows), path, status, reserves)
              case Ok(after) => error == None && rows == after
              case Err(e) => error == Some(e) && rows == old(rows)
      ensures Exclusive(old(rows)) ==>
                && Exclusive(rows)
                && (error.None? ==> rows == Restatused(old(rows), path, status, reserves))
    {
      OwnIndicesEnumerate(rows, path);
      error := UpdateEach(OwnIndices(rows, path, 0), status, reserves);
      if Exclusive(old(rows)) {
        SetStatusIsWholeSetChecking(old(rows), OwnIndices(old(rows), path, 0), path, status, reserves);
      }
    }

    /** The loop of `set_status`, with its rollback. */
    method UpdateEach(order: seq<nat>, status: Status, reserves: bool) returns (error: Option<Error>)
      requires Within(order, rows)
      modifies this
      ensures match UpdateAlong(old(rows), order, status, reserves)
              case Ok(after) => error == None && rows == after
              case Err(e) => error == Some(e) && rows == old(rows)
    {
      var snapshot := rows;
      assert order[0..] == order;
      for k := 0 to |order|
        invariant |rows| == |snapshot|
        invariant UpdateAlong(snapshot, order, status, reserves) == UpdateAlong(rows, order[k..], status, reserves)
      {
        assert order[k..][1..] == order[k + 1..];
        var refusal := Update(order[k], status, reserves);
        if refusal.Some? {
          rows := snapshot;
          return refusal;
        }
      }
      error := None;
    }

    /** `release`: every row of one allocation goes, and no other. */
    method Release(path: nat)
      modifies this
      ensures rows == Released(old(rows), path)
    {
      var kept: seq<Row> := [];
      for i := 0 to |rows|
        invariant kept + Released(rows[i..], path) == Released(rows, path)
        invariant rows == old(rows)
      {
        assert rows[i..][1..] == rows[i + 1..];
        if !Belongs(rows[i], path) {
          kept := kept + [rows[i]];
        }
      }
      assert rows[|rows|..] == [];
      rows := kept;
    }
  }
}
