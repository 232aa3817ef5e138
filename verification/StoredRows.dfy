/**
 * What the table says of each record, column by column (`spectrum/services.py`), and so what two
 * records can never have in common. Nothing here is stated through the functions that build rows.
 */
module StoredRows {
  import opened Wrappers
  import opened MasterData
  import opened Reservations
  import opened PathServices
  import opened Lifecycle
  import opened RowAccounting
  import opened TableInvariant
  import opened AllocationSafety

  // ------------------------------------------------------------------------------------------
  // A row and the record it stands for
  // ------------------------------------------------------------------------------------------

  /** The row stands for this leg of the record: everything it says is what the record says. */
  predicate Mirrors(w: World, r: Row, id: nat, p: Path, s: StoredSide) {
    && r.assignment == s.assignment && r.leg == s.leg && r.polarization == s.polarization
    && r.occupied == s.occupied && r.alloc == s.alloc
    && r.period == p.period
    && r.kind == SatnetPathKind && r.path == Some(id)
    && r.direction == Some(p.inputs.direction) && r.status == Some(p.status)
    && (r.reserves <==> p.status != Suspended || w.suspendedRetains)
  }

  /** The direction's configuration makes this leg compete on this resource. */
  predicate CompetesOn(w: World, p: Path, s: StoredSide, resource: nat) {
    && (p.beam, p.inputs.direction) in w.configs
    && Resource(resource, s.leg) in w.configs[(p.beam, p.inputs.direction)].resources
  }

  predicate HasRows(p: Path) {
    p.status in {Planned, PendingApproval, OnAir, Suspended}
  }

  predicate OfLeg(p: Path, s: StoredSide) {
    s == p.canonical || s == p.translated
  }

  /** Every row of the record stands for one of its legs, on a resource that leg competes on. */
  ghost predicate RowsAreTheLegs(w: World, rows: seq<Row>, id: nat, p: Path) {
    forall r :: r in rows && r.path == Some(id) ==>
      HasRows(p) && exists s :: OfLeg(p, s) && CompetesOn(w, p, s, r.resource) && Mirrors(w, r, id, p, s)
  }

  /** Every leg has its row on every resource it competes on. */
  ghost predicate LegsHaveTheirRows(w: World, rows: seq<Row>, id: nat, p: Path) {
    forall s, resource :: OfLeg(p, s) && CompetesOn(w, p, s, resource) && HasRows(p) ==>
      exists r :: r in rows && r.resource == resource && Mirrors(w, r, id, p, s)
  }

  /** And never two of them on one resource. */
  ghost predicate OneRowEach(rows: seq<Row>, id: nat) {
    forall i, j :: 0 <= i < j < |rows| && rows[i].path == rows[j].path == Some(id) ==> rows[i].resource != rows[j].resource
  }

  lemma BookedRowMirrors(w: World, id: nat, p: Path, s: StoredSide, r: Row)
    requires HasRows(p) && ConfigKey(p) in w.configs
    ensures var o := StoredOccupancy(w.configs[ConfigKey(p)], s);
            r in RowsForResources(o, o.resources, BookingOf(id, p, w.suspendedRetains)) <==>
            CompetesOn(w, p, s, r.resource) && Mirrors(w, r, id, p, s)
  {
    var o := StoredOccupancy(w.configs[ConfigKey(p)], s);
    RowsForResourcesMembers(o, o.resources, BookingOf(id, p, w.suspendedRetains), r);
    LegResourcesMembers(w.configs[ConfigKey(p)].resources, s.leg, r.resource);
  }

  lemma ViewMirrors(w: World, id: nat, p: Path, r: Row)
    requires ConfigKey(p) in w.configs
    ensures r in ExpectedRows(w, id, p) <==>
            HasRows(p) && exists s :: OfLeg(p, s) && CompetesOn(w, p, s, r.resource) && Mirrors(w, r, id, p, s)
  {
    if HasRows(p) {
      var c, b := w.configs[ConfigKey(p)], BookingOf(id, p, w.suspendedRetains);
      TwoLegRows(StoredOccupancy(c, p.canonical), StoredOccupancy(c, p.translated), b);
      BookedRowMirrors(w, id, p, p.canonical, r);
      BookedRowMirrors(w, id, p, p.translated, r);
    }
  }

  lemma ViewHasEveryLeg(w: World, id: nat, p: Path, s: StoredSide, resource: nat) returns (r: Row)
    requires HasRows(p) && OfLeg(p, s) && CompetesOn(w, p, s, resource)
    ensures r in ExpectedRows(w, id, p) && r.resource == resource && Mirrors(w, r, id, p, s)
  {
    r := Row(resource, s.assignment, s.leg, s.polarization, s.occupied, s.alloc, p.period, SatnetPathKind, Some(id),
             Some(p.inputs.direction), Some(p.status), p.status != Suspended || w.suspendedRetains);
    ViewMirrors(w, id, p, r);
  }

  lemma ViewHasOneRowEach(w: World, id: nat, p: Path, i: nat, j: nat)
    requires WorldValid(w) && RecordSound(w, p) && i < j < |ExpectedRows(w, id, p)|
    ensures ExpectedRows(w, id, p)[i].resource != ExpectedRows(w, id, p)[j].resource
  {
    var c, b := w.configs[ConfigKey(p)], BookingOf(id, p, w.suspendedRetains);
    TwoLegsUseResourcesOnce(c, StoredOccupancy(c, p.canonical), StoredOccupancy(c, p.translated), b);
  }

  lemma RowsStandForLegs(w: World, db: Db, id: nat)
    requires TableInv(w, db) && id in db.paths
    ensures RowsAreTheLegs(w, db.rows, id, db.paths[id])
  {
    var p := db.paths[id];
    assert RecordSound(w, p) && RowsOf(db.rows, Some(id)) == ExpectedRows(w, id, p);
    forall r | r in db.rows && r.path == Some(id)
      ensures HasRows(p) && exists s :: OfLeg(p, s) && CompetesOn(w, p, s, r.resource) && Mirrors(w, r, id, p, s)
    {
      RowsOfMembers(db.rows, Some(id), r);
      ViewMirrors(w, id, p, r);
    }
  }

  lemma LegsHaveRows(w: World, db: Db, id: nat)
    requires TableInv(w, db) && id in db.paths
    ensures LegsHaveTheirRows(w, db.rows, id, db.paths[id])
  {
    var p := db.paths[id];
    forall s, resource | OfLeg(p, s) && CompetesOn(w, p, s, resource) && HasRows(p)
      ensures exists r :: r in db.rows && r.resource == resource && Mirrors(w, r, id, p, s)
    {
      var r := ViewHasEveryLeg(w, id, p, s, resource);
      RowsOfMembers(db.rows, Some(id), r);
    }
  }

  /** The rows of every record, column by column: while it is planned, waiting, on air or suspended, one
      for each of its two stored legs and each resource that leg competes on; otherwise none. */
  lemma RowsMirrorTheRecord(w: World, db: Db, id: nat)
    requires TableInv(w, db) && WorldValid(w) && id in db.paths
    ensures RowsAreTheLegs(w, db.rows, id, db.paths[id])
    ensures LegsHaveTheirRows(w, db.rows, id, db.paths[id])
    ensures OneRowEach(db.rows, id)
  {
    var p := db.paths[id];
    RowsStandForLegs(w, db, id);
    LegsHaveRows(w, db, id);
    forall i, j | 0 <= i < j < |db.rows| && db.rows[i].path == db.rows[j].path == Some(id)
      ensures db.rows[i].resource != db.rows[j].resource
    {
      var a, b := RowsOfKeepOrder(db.rows, Some(id), i, j);
      ViewHasOneRowEach(w, id, p, a, b);
    }
  }

  /** So at any moment of any run, and no row stands for a record that does not exist. */
  lemma RowsMirrorTheRecords(w: World, db: Db, commands: seq<Command>)
    requires WorldValid(w) && Initial(db) && forall c :: c in commands ==> PermittedCommand(c)
    ensures var after := Run(w, db, commands);
            && (forall id :: id in after.paths ==>
                  && RowsAreTheLegs(w, after.rows, id, after.paths[id])
                  && LegsHaveTheirRows(w, after.rows, id, after.paths[id])
                  && OneRowEach(after.rows, id))
            && (forall r :: r in after.rows && r.path.Some? ==> r.path.value in after.paths)
  {
    InitialTable(w, db);
    RunKeeps(w, db, commands);
    var after := Run(w, db, commands);
    forall id | id in after.paths
      ensures RowsAreTheLegs(w, after.rows, id, after.paths[id])
      ensures LegsHaveTheirRows(w, after.rows, id, after.paths[id])
      ensures OneRowEach(after.rows, id)
    {
      RowsMirrorTheRecord(w, after, id);
    }
  }

  // ------------------------------------------------------------------------------------------
  // What two records cannot share
  // ------------------------------------------------------------------------------------------

  /** The record holds this Hz, on this resource, at this moment. */
  predicate LegHolds(w: World, p: Path, s: StoredSide, resource: nat, hz: int, at: int) {
    && (p.status in {Planned, PendingApproval, OnAir} || (p.status == Suspended && w.suspendedRetains))
    && OfLeg(p, s) && CompetesOn(w, p, s, resource)
    && s.alloc.ContainsHz(hz) && p.period.InForce(at)
  }

  lemma MappedLegHasItsRow(w: World, rows: seq<Row>, id: nat, p: Path, s: StoredSide, resource: nat, hz: int, at: int)
    returns (i: nat)
    requires LegsHaveTheirRows(w, rows, id, p) && LegHolds(w, p, s, resource, hz, at)
    ensures i < |rows| && rows[i].path == Some(id) && HoldsAt(rows[i], resource, hz, at)
  {
    assert HasRows(p);
    var r :| r in rows && r.resource == resource && Mirrors(w, r, id, p, s);
    i :| 0 <= i < |rows| && rows[i] == r;
  }

  lemma HoldingLegHasItsRow(w: World, db: Db, id: nat, s: StoredSide, resource: nat, hz: int, at: int) returns (i: nat)
    requires TableInv(w, db) && WorldValid(w) && id in db.paths && LegHolds(w, db.paths[id], s, resource, hz, at)
    ensures i < |db.rows| && db.rows[i].path == Some(id) && HoldsAt(db.rows[i], resource, hz, at)
  {
    LegsHaveRows(w, db, id);
    i := MappedLegHasItsRow(w, db.rows, id, db.paths[id], s, resource, hz, at);
  }

  lemma TwoRowsNeverHoldOneHz(rows: seq<Row>, i: nat, j: nat, resource: nat, hz: int, at: int)
    requires Exclusive(rows) && i < |rows| && j < |rows| && i != j
    ensures !(HoldsAt(rows[i], resource, hz, at) && HoldsAt(rows[j], resource, hz, at))
  {
    ConflictIsSymmetric(rows[i], rows[j]);
    assert if i < j then !Conflict(rows[i], rows[j]) else !Conflict(rows[j], rows[i]);
    ConflictIsSharedHz(rows[i], rows[j]);
  }

  lemma HeldLegIsHeldAlone(w: World, db: Db, id: nat, s: StoredSide, resource: nat, hz: int, at: int)
    requires TableInv(w, db) && WorldValid(w) && id in db.paths && LegHolds(w, db.paths[id], s, resource, hz, at)
    ensures forall other, t :: other in db.paths && other != id ==> !LegHolds(w, db.paths[other], t, resource, hz, at)
    ensures forall r :: r in db.rows && r.path.None? ==> !HoldsAt(r, resource, hz, at)
  {
    var i := HoldingLegHasItsRow(w, db, id, s, resource, hz, at);
    forall other, t | other in db.paths && other != id
      ensures !LegHolds(w, db.paths[other], t, resource, hz, at)
    {
      if LegHolds(w, db.paths[other], t, resource, hz, at) {
        var j := HoldingLegHasItsRow(w, db, other, t, resource, hz, at);
        TwoRowsNeverHoldOneHz(db.rows, i, j, resource, hz, at);
      }
    }
    forall r | r in db.rows && r.path.None?
      ensures !HoldsAt(r, resource, hz, at)
    {
      var j :| 0 <= j < |db.rows| && db.rows[j] == r;
      TwoRowsNeverHoldOneHz(db.rows, i, j, resource, hz, at);
    }
  }

  /** The promise, of the records themselves: whatever the run, no two allocations ever hold the same Hz
      of the same resource at the same moment, guards included, and neither do an allocation and a fixed
      reserve the run began with. */
  lemma NoTwoRecordsHoldOneHz(w: World, db: Db, commands: seq<Command>, id: nat, s: StoredSide, resource: nat, hz: int, at: int)
    requires WorldValid(w) && Initial(db) && forall c :: c in commands ==> PermittedCommand(c)
    requires id in Run(w, db, commands).paths
    requires LegHolds(w, Run(w, db, commands).paths[id], s, resource, hz, at)
    ensures forall other, t :: other in Run(w, db, commands).paths && other != id ==>
              !LegHolds(w, Run(w, db, commands).paths[other], t, resource, hz, at)
    ensures forall r :: r in db.rows ==> !HoldsAt(r, resource, hz, at)
  {
    InitialTable(w, db);
    RunKeeps(w, db, commands);
    HeldLegIsHeldAlone(w, Run(w, db, commands), id, s, resource, hz, at);
    forall r | r in db.rows
      ensures !HoldsAt(r, resource, hz, at)
    {
      FixedReservesStay(w, db, commands, r);
    }
  }

  lemma {:induction false} RowsOfCount(rows: seq<Row>, owner: Option<nat>, r: Row)
    ensures multiset(RowsOf(rows, owner))[r] == if r.path == owner then multiset(rows)[r] else 0
  {
    if rows != [] {
      RowsOfCount(rows[1..], owner, r);
      assert rows == [rows[0]] + rows[1..];
    }
  }

  /** No run adds, removes or changes a fixed reserve. */
  lemma FixedReservesStay(w: World, db: Db, commands: seq<Command>, r: Row)
    requires Initial(db) && forall c :: c in commands ==> PermittedCommand(c)
    requires r.path.None?
    ensures multiset(Run(w, db, commands).rows)[r] == multiset(db.rows)[r]
    ensures r in Run(w, db, commands).rows <==> r in db.rows
  {
    InitialTable(w, db);
    RunKeeps(w, db, commands);
    RowsOfCount(db.rows, None, r);
    RowsOfCount(Run(w, db, commands).rows, None, r);
    assert r in db.rows <==> r in multiset(db.rows);
    assert r in Run(w, db, commands).rows <==> r in multiset(Run(w, db, commands).rows);
  }
}
