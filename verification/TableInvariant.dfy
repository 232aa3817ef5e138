/**
 * The reservation table is exactly the view of the paths, and it keeps the promise: what every
 * operation preserves about rows.
 */
module TableInvariant {
  import opened Wrappers
  import opened MasterData
  import opened Reservations
  import opened PathServices
  import opened Lifecycle
  import opened RowAccounting

  // ------------------------------------------------------------------------------------------
  // The invariant
  // ------------------------------------------------------------------------------------------

  /** Inside its grant, in Hz and in time, and well formed. */
  predicate RowSound(r: Row) {
    && CheckRow(r)
    && (r.path.Some? ==> r.assignment.isActive && r.assignment.period.Contains(r.period))
  }

  predicate RecordSound(w: World, p: Path) {
    && CheckPath(p)
    && p.status != ImportReview
    && KnownSatnet(w, p.satnet) && p.beam == w.satnets[p.satnet].beam
    && ConfigKey(p) in w.configs
  }

  ghost predicate TableInv(w: World, db: Db) {
    && (forall id :: id in db.paths ==> id < db.nextId && RecordSound(w, db.paths[id]))
    && (forall id :: id in db.paths ==> RowsOf(db.rows, Some(id)) == ExpectedRows(w, id, db.paths[id]))
    && (forall r :: r in db.rows && r.path.Some? ==> r.path.value in db.paths)
    && (forall r :: r in db.rows ==> RowSound(r))
    && Exclusive(db.rows)
  }

  /** Before the first allocation: nothing but fixed reserves. */
  ghost predicate Initial(db: Db) {
    && db.paths == map[] && db.decisions == []
    && (forall r :: r in db.rows ==> r.kind == FixedReserve && CheckRow(r))
    && Exclusive(db.rows)
  }

  lemma InitialTable(w: World, db: Db)
    requires Initial(db)
    ensures TableInv(w, db)
  {
  }

  // ------------------------------------------------------------------------------------------
  // One record changes, and its rows with it
  // ------------------------------------------------------------------------------------------

  /** Everything an operation on one record owes the invariant. */
  ghost predicate ChangesOneRecord(w: World, before: Db, after: Db, id: nat) {
    && id in after.paths && after.paths == before.paths[id := after.paths[id]]
    && id < after.nextId && before.nextId <= after.nextId
    && RecordSound(w, after.paths[id])
    && RowsOf(after.rows, Some(id)) == ExpectedRows(w, id, after.paths[id])
    && (forall r :: r in ExpectedRows(w, id, after.paths[id]) ==> RowSound(r))
    && (forall owner :: owner != Some(id) ==> RowsOf(after.rows, owner) == RowsOf(before.rows, owner))
    && Exclusive(after.rows)
  }

  lemma ChangingOneRecordKeepsTable(w: World, before: Db, after: Db, id: nat)
    requires TableInv(w, before) && ChangesOneRecord(w, before, after, id)
    ensures TableInv(w, after)
    ensures RowsOf(after.rows, None) == RowsOf(before.rows, None)
  {
    forall r | r in after.rows
      ensures RowSound(r) && (r.path.Some? ==> r.path.value in after.paths)
    {
      RowsOfMembers(after.rows, r.path, r);
      if r.path != Some(id) {
        RowsOfMembers(before.rows, r.path, r);
      }
    }
  }

  // ------------------------------------------------------------------------------------------
  // Rows that were accepted are sound rows
  // ------------------------------------------------------------------------------------------

  lemma {:induction false} BookedRowsName(occupancies: seq<Occupancy>, b: Booking, r: Row)
    requires r in RowsForAll(occupancies, b)
    ensures exists o :: o in occupancies && r.resource in o.resources && r == RowFor(o, r.resource, b)
  {
    var o := occupancies[0];
    RowsForResourcesMembers(o, o.resources, b, r);
    if r !in RowsForResources(o, o.resources, b) {
      BookedRowsName(occupancies[1..], b, r);
    }
  }

  lemma AcceptedRowsAreSound(rows: seq<Row>, occupancies: seq<Occupancy>, b: Booking)
    requires Acceptable(rows, occupancies, b)
    ensures forall r :: r in RowsForAll(occupancies, b) ==> RowSound(r)
  {
    forall r | r in RowsForAll(occupancies, b)
      ensures RowSound(r)
    {
      BookedRowsName(occupancies, b, r);
    }
  }

  /** Reserving for a record whose owner has no rows yet gives it exactly the rows it should have. */
  lemma ReservingMatchesTheRecord(w: World, before: Db, base: seq<Row>, after: Db, id: nat)
    requires TableInv(w, before)
    requires Exclusive(base) && RowsOf(base, Some(id)) == []
    requires forall owner :: owner != Some(id) ==> RowsOf(base, owner) == RowsOf(before.rows, owner)
    requires id in after.paths && after.paths == before.paths[id := after.paths[id]]
    requires id < after.nextId && before.nextId <= after.nextId
    requires RecordSound(w, after.paths[id]) && HoldsRows(after.paths[id].status)
    requires var p := after.paths[id];
             ReserveRows(base, OccupanciesOf(w.configs[ConfigKey(p)], p), BookingOf(id, p, w.suspendedRetains)) == Ok(after.rows)
    ensures ChangesOneRecord(w, before, after, id)
  {
    var p := after.paths[id];
    var occupancies, b := OccupanciesOf(w.configs[ConfigKey(p)], p), BookingOf(id, p, w.suspendedRetains);
    ReserveIsWholeSetChecking(base, occupancies, b);
    AcceptedRowsAreSound(base, occupancies, b);
    forall owner
      ensures RowsOf(after.rows, owner) == RowsOf(base, owner) + (if owner == Some(id) then RowsForAll(occupancies, b) else [])
    {
      ReservingAddsToOneOwner(base, occupancies, b, owner);
    }
    assert RowsOf(after.rows, Some(id)) == RowsForAll(occupancies, b);
  }

  lemma SilentRecordMatches(w: World, before: Db, after: Db, id: nat)
    requires TableInv(w, before)
    requires Exclusive(after.rows) && RowsOf(after.rows, Some(id)) == []
    requires forall owner :: owner != Some(id) ==> RowsOf(after.rows, owner) == RowsOf(before.rows, owner)
    requires id in after.paths && after.paths == before.paths[id := after.paths[id]]
    requires id < after.nextId && before.nextId <= after.nextId
    requires RecordSound(w, after.paths[id]) && !HoldsRows(after.paths[id].status)
    ensures ChangesOneRecord(w, before, after, id)
  {
  }

  lemma UnknownOwnerHasNoRows(w: World, db: Db, id: nat)
    requires TableInv(w, db) && id !in db.paths
    ensures RowsOf(db.rows, Some(id)) == []
  {
    if RowsOf(db.rows, Some(id)) != [] {
      var r := RowsOf(db.rows, Some(id))[0];
      RowsOfMembers(db.rows, Some(id), r);
    }
  }

  lemma ReleasedTable(w: World, db: Db, id: nat)
    requires TableInv(w, db)
    ensures Exclusive(Released(db.rows, id))
    ensures RowsOf(Released(db.rows, id), Some(id)) == []
    ensures forall owner :: owner != Some(id) ==> RowsOf(Released(db.rows, id), owner) == RowsOf(db.rows, owner)
  {
    ReleaseKeepsExclusive(db.rows, id);
    forall owner
      ensures RowsOf(Released(db.rows, id), owner) == if owner == Some(id) then [] else RowsOf(db.rows, owner)
    {
      ReleasingEmptiesOneOwner(db.rows, id, owner);
    }
  }

  lemma ReservedRecordKeepsTable(w: World, before: Db, base: seq<Row>, after: Db, id: nat)
    requires TableInv(w, before)
    requires Exclusive(base) && RowsOf(base, Some(id)) == []
    requires forall owner :: owner != Some(id) ==> RowsOf(base, owner) == RowsOf(before.rows, owner)
    requires id in after.paths && after.paths == before.paths[id := after.paths[id]]
    requires id < after.nextId && before.nextId <= after.nextId
    requires RecordSound(w, after.paths[id]) && HoldsRows(after.paths[id].status)
    requires var p := after.paths[id];
             ReserveRows(base, OccupanciesOf(w.configs[ConfigKey(p)], p), BookingOf(id, p, w.suspendedRetains)) == Ok(after.rows)
    ensures TableInv(w, after) && RowsOf(after.rows, None) == RowsOf(before.rows, None)
  {
    ReservingMatchesTheRecord(w, before, base, after, id);
    ChangingOneRecordKeepsTable(w, before, after, id);
  }

  lemma SilentRecordKeepsTable(w: World, before: Db, after: Db, id: nat)
    requires TableInv(w, before)
    requires Exclusive(after.rows) && RowsOf(after.rows, Some(id)) == []
    requires forall owner :: owner != Some(id) ==> RowsOf(after.rows, owner) == RowsOf(before.rows, owner)
    requires id in after.paths && after.paths == before.paths[id := after.paths[id]]
    requires id < after.nextId && before.nextId <= after.nextId
    requires RecordSound(w, after.paths[id]) && !HoldsRows(after.paths[id].status)
    ensures TableInv(w, after) && RowsOf(after.rows, None) == RowsOf(before.rows, None)
  {
    SilentRecordMatches(w, before, after, id);
    ChangingOneRecordKeepsTable(w, before, after, id);
  }

  lemma SettingOnlyMattersWhenSuspended(id: nat, p: Path, retains: bool)
    requires p.status != Suspended
    ensures BookingOf(id, p, retains) == BookingOf(id, p, true)
  {
  }

  // ------------------------------------------------------------------------------------------
  // Operation by operation
  // ------------------------------------------------------------------------------------------

  predicate Permitted(status: Status) {
    status in {Draft, Planned, PendingApproval}
  }

  lemma PreviewUsesTheConfiguration(w: World, rows: seq<Row>, now: int, satnet: nat, v: Values, exclude: Option<nat>, p: Proposal)
    requires KnownSatnet(w, satnet) && Preview(w, rows, now, satnet, v, exclude) == Ok(p)
    ensures var key := (w.satnets[satnet].beam, v.inputs.direction);
            key in w.configs && p.config == w.configs[key]
  {
  }

  lemma WriteNewKeepsTable(w: World, db: Db, satnet: nat, v: Values, p: Proposal, status: Status, user: Option<nat>,
                           predecessor: Option<nat>, after: Db)
    requires TableInv(w, db) && Permitted(status) && KnownSatnet(w, satnet)
    requires predecessor.Some? ==> predecessor.value in db.paths
    requires (w.satnets[satnet].beam, v.inputs.direction) in w.configs
    requires p.config == w.configs[(w.satnets[satnet].beam, v.inputs.direction)]
    requires WriteNew(w, db, satnet, v, p, status, user, predecessor) == Ok(after)
    ensures TableInv(w, after)
    ensures RowsOf(after.rows, None) == RowsOf(db.rows, None)
  {
    var id := db.nextId;
    var path := after.paths[id];
    UnknownOwnerHasNoRows(w, db, id);
    assert OccupanciesOf(p.config, path) == ProposedOccupancies(p);
    if status == Draft {
      SilentRecordKeepsTable(w, db, after, id);
    } else {
      SettingOnlyMattersWhenSuspended(id, path, w.suspendedRetains);
      ReservedRecordKeepsTable(w, db, db.rows, after, id);
    }
  }

  lemma RewriteKeepsTable(w: World, db: Db, now: int, id: nat, v: Values, after: Db)
    requires TableInv(w, db) && id in db.paths && db.paths[id].status in {Draft, Planned}
    requires Rewrite(w, db, now, id, v) == Ok(after)
    ensures TableInv(w, after)
    ensures RowsOf(after.rows, None) == RowsOf(db.rows, None)
  {
    var path := after.paths[id];
    var p := Preview(w, db.rows, now, db.paths[id].satnet, v, Some(id)).value;
    PreviewUsesTheConfiguration(w, db.rows, now, db.paths[id].satnet, v, Some(id), p);
    ReleasedTable(w, db, id);
    assert path.status == db.paths[id].status;
    if path.status == Draft {
      SilentRecordKeepsTable(w, db, after, id);
    } else {
      SettingOnlyMattersWhenSuspended(id, path, w.suspendedRetains);
      ReservedRecordKeepsTable(w, db, Released(db.rows, id), after, id);
    }
  }

  lemma MovedRowsStaySound(rows: seq<Row>, id: nat, to: Status, reserves: bool)
    requires forall r :: r in rows ==> RowSound(r)
    requires forall r :: r in rows && Belongs(r, id) ==> CheckRow(Restatus(r, to, reserves))
    ensures forall r :: r in Restatused(rows, id, to, reserves) ==> RowSound(r)
  {
    RestatusedAt(rows, id, to, reserves);
    forall r | r in Restatused(rows, id, to, reserves)
      ensures RowSound(r)
    {
      var i :| 0 <= i < |rows| && Restatused(rows, id, to, reserves)[i] == r;
      assert r == Moved(rows[i], id, to, reserves) && rows[i] in rows;
    }
  }

  lemma MovedRowsMatchTheRecord(w: World, rows: seq<Row>, id: nat, p: Path, to: Status)
    requires HoldsRows(p.status) && HoldsRows(to) && ConfigKey(p) in w.configs
    requires RowsOf(rows, Some(id)) == ExpectedRows(w, id, p)
    ensures RowsOf(Restatused(rows, id, to, ReservesSpectrum(to, w.suspendedRetains)), Some(id)) ==
            ExpectedRows(w, id, p.(status := to))
  {
    var reserves := ReservesSpectrum(to, w.suspendedRetains);
    RestatusMovesOneOwner(rows, id, to, reserves, Some(id));
    MovedRowsAreRebookedRows(OccupanciesOf(w.configs[ConfigKey(p)], p), BookingOf(id, p, w.suspendedRetains), to, reserves);
  }

  /** What `set_status` leaves in the table, owner by owner. */
  lemma RestatusedTable(w: World, db: Db, id: nat, to: Status, rows: seq<Row>)
    requires TableInv(w, db)
    requires SetStatusRows(db.rows, id, to, ReservesSpectrum(to, w.suspendedRetains)) == Ok(rows)
    ensures rows == Restatused(db.rows, id, to, ReservesSpectrum(to, w.suspendedRetains)) && Exclusive(rows)
    ensures forall r :: r in rows ==> RowSound(r)
    ensures forall owner :: owner != Some(id) ==> RowsOf(rows, owner) == RowsOf(db.rows, owner)
  {
    var reserves := ReservesSpectrum(to, w.suspendedRetains);
    OwnIndicesEnumerate(db.rows, id);
    SetStatusIsWholeSetChecking(db.rows, OwnIndices(db.rows, id, 0), id, to, reserves);
    MovedRowsStaySound(db.rows, id, to, reserves);
    forall owner | owner != Some(id)
      ensures RowsOf(rows, owner) == RowsOf(db.rows, owner)
    {
      RestatusMovesOneOwner(db.rows, id, to, reserves, owner);
    }
  }

  lemma ViewIgnoresVersion(w: World, id: nat, p: Path, version: nat)
    ensures ExpectedRows(w, id, p.(recordVersion := version)) == ExpectedRows(w, id, p)
  {
  }

  lemma MatchingRecordChanges(w: World, before: Db, after: Db, id: nat)
    requires TableInv(w, before) && id in before.paths && after.nextId == before.nextId
    requires id in after.paths && after.paths == before.paths[id := after.paths[id]] && RecordSound(w, after.paths[id])
    requires RowsOf(after.rows, Some(id)) == ExpectedRows(w, id, after.paths[id])
    requires forall r :: r in after.rows ==> RowSound(r)
    requires forall owner :: owner != Some(id) ==> RowsOf(after.rows, owner) == RowsOf(before.rows, owner)
    requires Exclusive(after.rows)
    ensures ChangesOneRecord(w, before, after, id)
  {
    forall r | r in ExpectedRows(w, id, after.paths[id])
      ensures RowSound(r)
    {
      RowsOfMembers(after.rows, Some(id), r);
    }
  }

  /** The record after a move that keeps its rows, and the table after `set_status`. */
  lemma MovingKeepsTable(w: World, db: Db, id: nat, to: Status, after: Db)
    requires TableInv(w, db) && id in db.paths
    requires HoldsRows(db.paths[id].status) && HoldsRows(to)
    requires after.paths == db.paths[id := db.paths[id].(status := to, recordVersion := db.paths[id].recordVersion + 1)]
    requires after.nextId == db.nextId
    requires SetStatusRows(db.rows, id, to, ReservesSpectrum(to, w.suspendedRetains)) == Ok(after.rows)
    ensures TableInv(w, after)
    ensures RowsOf(after.rows, None) == RowsOf(db.rows, None)
  {
    var path := db.paths[id];
    RestatusedTable(w, db, id, to, after.rows);
    MovedRowsMatchTheRecord(w, db.rows, id, path, to);
    ViewIgnoresVersion(w, id, path.(status := to), path.recordVersion + 1);
    MatchingRecordChanges(w, db, after, id);
    ChangingOneRecordKeepsTable(w, db, after, id);
  }

  /** Every move that rewrites row statuses runs between two statuses that hold rows, the one that
      writes rows starts from none, and the ones that drop rows end with none. */
  lemma MovesMatchStatuses(status: Status, move: Move)
    requires move in AvailableFrom(status)
    ensures match move.spectrum
            case WriteSpectrum => !HoldsRows(status) && HoldsRows(move.to)
            case MoveSpectrum => HoldsRows(status) && HoldsRows(move.to)
            case DropSpectrum => !HoldsRows(move.to)
    ensures move.to != ImportReview
  {
  }

  lemma WritingMoveKeepsTable(w: World, db: Db, id: nat, move: Move, after: Db)
    requires TableInv(w, db) && id in db.paths && !HoldsRows(db.paths[id].status)
    requires move.spectrum == WriteSpectrum && HoldsRows(move.to)
    requires ApplyMove(w, db, id, move) == Ok(after)
    ensures TableInv(w, after) && RowsOf(after.rows, None) == RowsOf(db.rows, None)
  {
    ReservedRecordKeepsTable(w, db, db.rows, after, id);
  }

  lemma DroppingMoveKeepsTable(w: World, db: Db, id: nat, move: Move, after: Db)
    requires TableInv(w, db) && id in db.paths
    requires move.spectrum == DropSpectrum && !HoldsRows(move.to) && move.to != ImportReview
    requires ApplyMove(w, db, id, move) == Ok(after)
    ensures TableInv(w, after) && RowsOf(after.rows, None) == RowsOf(db.rows, None)
  {
    ReleasedTable(w, db, id);
    SilentRecordKeepsTable(w, db, after, id);
  }

  lemma ApplyMoveKeepsTable(w: World, db: Db, id: nat, move: Move, after: Db)
    requires TableInv(w, db) && id in db.paths
    requires move in AvailableFrom(db.paths[id].status)
    requires ApplyMove(w, db, id, move) == Ok(after)
    ensures TableInv(w, after) && RowsOf(after.rows, None) == RowsOf(db.rows, None)
  {
    MovesMatchStatuses(db.paths[id].status, move);
    match move.spectrum {
      case WriteSpectrum => WritingMoveKeepsTable(w, db, id, move, after);
      case MoveSpectrum => MovingKeepsTable(w, db, id, move.to, after);
      case DropSpectrum => DroppingMoveKeepsTable(w, db, id, move, after);
    }
  }

  lemma ClosingKeepsTable(w: World, db: Db, id: nat, effectiveAt: int)
    requires TableInv(w, db) && id in db.paths && effectiveAt > db.paths[id].period.start
    ensures TableInv(w, Closed(db, id, effectiveAt))
    ensures RowsOf(Closed(db, id, effectiveAt).rows, None) == RowsOf(db.rows, None)
  {
    var after := Closed(db, id, effectiveAt);
    ReleasedTable(w, db, id);
    SilentRecordKeepsTable(w, db, after, id);
  }
}
