/**
 * Exactly when the table lets an allocation make a move of the transition graph
 * (`satnet_paths/lifecycle.py`, `spectrum/services.py`).
 */
module MoveOutcomes {
  import opened Wrappers
  import opened MasterData
  import opened Reservations
  import opened PathServices
  import opened Lifecycle
  import opened RowAccounting
  import opened TableInvariant
  import opened CloseThenOpen

  // ------------------------------------------------------------------------------------------
  // Moving rows to another status
  // ------------------------------------------------------------------------------------------

  /** Rows that keep or give up their spectrum get in nobody's way. */
  lemma KeepingOrDroppingIsExclusive(rows: seq<Row>, id: nat, to: Status, reserves: bool)
    requires Exclusive(rows) && forall r :: r in rows && Belongs(r, id) && reserves ==> r.reserves
    ensures Exclusive(Restatused(rows, id, to, reserves))
  {
    var final := Restatused(rows, id, to, reserves);
    RestatusedAt(rows, id, to, reserves);
    forall i, j | 0 <= i < j < |final|
      ensures !Conflict(final[i], final[j])
    {
      assert rows[i] in rows && rows[j] in rows;
      MovedConflictsNoMore(rows[i], rows[j], id, to, reserves);
    }
  }

  lemma MovedConflictsNoMore(a: Row, b: Row, id: nat, to: Status, reserves: bool)
    requires !Conflict(a, b)
    requires Belongs(a, id) && reserves ==> a.reserves
    requires Belongs(b, id) && reserves ==> b.reserves
    ensures !Conflict(Moved(a, id, to, reserves), Moved(b, id, to, reserves))
  {
  }

  /** Somebody else holds what this allocation wants back. */
  ghost predicate TakenByAnother(rows: seq<Row>, id: nat, to: Status) {
    exists held, r :: held in rows && !Belongs(held, id) && r in rows && Belongs(r, id) && Conflict(held, Restatus(r, to, true))
  }

  /** Rows that take their spectrum back are refused exactly because of somebody else's. */
  lemma TakingBackIsExclusiveIff(rows: seq<Row>, id: nat, to: Status)
    requires Exclusive(rows) && Exclusive(RowsOf(Restatused(rows, id, to, true), Some(id)))
    ensures Exclusive(Restatused(rows, id, to, true)) <==> !TakenByAnother(rows, id, to)
  {
    var final := Restatused(rows, id, to, true);
    RestatusedAt(rows, id, to, true);
    if !TakenByAnother(rows, id, to) {
      forall i, j | 0 <= i < j < |final|
        ensures !Conflict(final[i], final[j])
      {
        TakenBackPair(rows, id, to, i, j);
      }
    }
    if held, r :| held in rows && !Belongs(held, id) && r in rows && Belongs(r, id) && Conflict(held, Restatus(r, to, true)) {
      var i :| 0 <= i < |rows| && rows[i] == held;
      var j :| 0 <= j < |rows| && rows[j] == r;
      assert final[i] == held && final[j] == Restatus(r, to, true);
      ConflictIsSymmetric(final[i], final[j]);
      assert if i < j then Conflict(final[i], final[j]) else Conflict(final[j], final[i]);
    }
  }

  lemma TakenBackPair(rows: seq<Row>, id: nat, to: Status, i: nat, j: nat)
    requires Exclusive(rows) && Exclusive(RowsOf(Restatused(rows, id, to, true), Some(id)))
    requires !TakenByAnother(rows, id, to)
    requires i < j < |rows| == |Restatused(rows, id, to, true)|
    ensures !Conflict(Restatused(rows, id, to, true)[i], Restatused(rows, id, to, true)[j])
  {
    var final := Restatused(rows, id, to, true);
    RestatusedAt(rows, id, to, true);
    assert rows[i] in rows && rows[j] in rows && !Conflict(rows[i], rows[j]);
    if Belongs(rows[i], id) && Belongs(rows[j], id) {
      var a, b := RowsOfKeepOrder(final, Some(id), i, j);
    } else if Belongs(rows[i], id) {
      ConflictIsSymmetric(rows[j], final[i]);
    }
  }

  /** Every own row of a sound record may carry any status that holds rows. */
  lemma OwnRowsMayMove(w: World, db: Db, id: nat, to: Status, r: Row)
    requires TableInv(w, db) && HoldsRows(to) && r in db.rows && Belongs(r, id)
    ensures CheckRow(Restatus(r, to, ReservesSpectrum(to, w.suspendedRetains)))
  {
    assert RowSound(r);
  }

  /** What the view says about the flag of each own row. */
  lemma OwnRowsReserveWithTheStatus(w: World, db: Db, id: nat, r: Row)
    requires TableInv(w, db) && id in db.paths && r in db.rows && Belongs(r, id)
    ensures r.reserves == ReservesSpectrum(db.paths[id].status, w.suspendedRetains)
  {
    RowsOfMembers(db.rows, Some(id), r);
    var p := db.paths[id];
    assert r in ExpectedRows(w, id, p);
    BookedRowsName(OccupanciesOf(w.configs[ConfigKey(p)], p), BookingOf(id, p, w.suspendedRetains), r);
  }

  lemma OwnRowsWouldBeExclusive(w: World, db: Db, id: nat, to: Status)
    requires TableInv(w, db) && WorldValid(w) && id in db.paths && HoldsRows(db.paths[id].status) && HoldsRows(to)
    ensures Exclusive(RowsOf(Restatused(db.rows, id, to, ReservesSpectrum(to, w.suspendedRetains)), Some(id)))
  {
    var p := db.paths[id];
    assert RecordSound(w, p);
    MovedRowsMatchTheRecord(w, db.rows, id, p, to);
    OneAllocationNeverConflictsWithItself(w.configs[ConfigKey(p)], p, BookingOf(id, p.(status := to), w.suspendedRetains));
  }

  lemma RestatusSucceedsIff(w: World, db: Db, id: nat, to: Status)
    requires TableInv(w, db) && WorldValid(w) && id in db.paths && HoldsRows(db.paths[id].status) && HoldsRows(to)
    ensures var reserves := ReservesSpectrum(to, w.suspendedRetains);
            SetStatusRows(db.rows, id, to, reserves).Ok? <==>
            ReservesSpectrum(db.paths[id].status, w.suspendedRetains) || !reserves || !TakenByAnother(db.rows, id, to)
  {
    var reserves := ReservesSpectrum(to, w.suspendedRetains);
    OwnIndicesEnumerate(db.rows, id);
    SetStatusIsWholeSetChecking(db.rows, OwnIndices(db.rows, id, 0), id, to, reserves);
    forall r | r in db.rows && Belongs(r, id)
      ensures CheckRow(Restatus(r, to, reserves))
      ensures r.reserves == ReservesSpectrum(db.paths[id].status, w.suspendedRetains)
    {
      OwnRowsMayMove(w, db, id, to, r);
      OwnRowsReserveWithTheStatus(w, db, id, r);
    }
    if ReservesSpectrum(db.paths[id].status, w.suspendedRetains) || !reserves {
      KeepingOrDroppingIsExclusive(db.rows, id, to, reserves);
    } else {
      OwnRowsWouldBeExclusive(w, db, id, to);
      TakingBackIsExclusiveIff(db.rows, id, to);
    }
  }

  /** Submitting, deciding and suspending are never refused by the table. Resuming is refused exactly
      when suspended allocations give up their spectrum and somebody else now holds some of it. */
  lemma StatusMovesSucceedIff(w: World, db: Db, id: nat, move: Move)
    requires TableInv(w, db) && WorldValid(w) && id in db.paths
    requires move in AvailableFrom(db.paths[id].status) && move.spectrum == MoveSpectrum
    ensures ApplyMove(w, db, id, move).Ok? <==>
            !(move.action == Resume && !w.suspendedRetains && TakenByAnother(db.rows, id, OnAir))
  {
    MovesMatchStatuses(db.paths[id].status, move);
    RestatusSucceedsIff(w, db, id, move.to);
  }

  // ------------------------------------------------------------------------------------------
  // Planning a draft
  // ------------------------------------------------------------------------------------------

  /** A draft can be planned exactly when both grants are active and cover its period, every row it
      asks for is well formed and inside its grant, and none meets a row that is already there. */
  lemma PlanSucceedsIff(w: World, db: Db, id: nat)
    requires TableInv(w, db) && WorldValid(w) && id in db.paths && db.paths[id].status == Draft
    ensures var p := db.paths[id];
            var asked := ExpectedRows(w, id, p.(status := Planned));
            ApplyMove(w, db, id, Move(Plan, Planned, WriteSpectrum)).Ok? <==>
            && p.canonical.assignment.isActive && p.canonical.assignment.period.Contains(p.period)
            && p.translated.assignment.isActive && p.translated.assignment.period.Contains(p.period)
            && forall r :: r in asked ==> CheckRow(r) && !ConflictsWithAny(db.rows, r)
  {
    var p := db.paths[id].(status := Planned);
    assert RecordSound(w, db.paths[id]);
    var occupancies := OccupanciesOf(w.configs[ConfigKey(p)], p);
    var b := BookingOf(id, p, w.suspendedRetains);
    ReserveIsWholeSetChecking(db.rows, occupancies, b);
    OneAllocationNeverConflictsWithItself(w.configs[ConfigKey(p)], p, b);
    ExclusiveTogether(db.rows, RowsForAll(occupancies, b));
    assert Entitled(occupancies[0], b.period) && Entitled(occupancies[1], b.period) <==>
           forall o :: o in occupancies ==> Entitled(o, b.period);
  }
}
