/**
 * Edits and revisions: why the old rows go before the new ones come, who can still be in the way,
 * and what a revision leaves behind.
 */
module CloseThenOpen {
  import opened Wrappers
  import opened Periods
  import opened MasterData
  import opened Reservations
  import opened Selectors
  import opened PathServices
  import opened Previews
  import opened Lifecycle
  import opened RowAccounting
  import opened TableInvariant

  // ------------------------------------------------------------------------------------------
  // The order is necessary
  // ------------------------------------------------------------------------------------------

  lemma ReleaseSplitsRivals(rows: seq<Row>, id: nat, r: Row)
    ensures ConflictsWithAny(rows, r) <==>
            ConflictsWithAny(Released(rows, id), r) || exists was :: was in rows && Belongs(was, id) && Conflict(was, r)
  {
    var kept := Released(rows, id);
    if i :| 0 <= i < |rows| && Conflict(rows[i], r) {
      ReleasedMembers(rows, id, rows[i]);
      assert rows[i] in rows;
      if !Belongs(rows[i], id) {
        var k :| 0 <= k < |kept| && kept[k] == rows[i];
      }
    }
    if i :| 0 <= i < |kept| && Conflict(kept[i], r) {
      ReleasedMembers(rows, id, kept[i]);
      var k :| 0 <= k < |rows| && rows[k] == kept[i];
    }
  }

  lemma ExclusiveTogether(a: seq<Row>, b: seq<Row>)
    requires Exclusive(a)
    ensures Exclusive(a + b) <==> Exclusive(b) && forall r :: r in b ==> !ConflictsWithAny(a, r)
  {
    var all := a + b;
    if Exclusive(all) {
      forall i, j | 0 <= i < j < |b|
        ensures !Conflict(b[i], b[j])
      {
        assert !Conflict(all[|a| + i], all[|a| + j]);
      }
      forall r | r in b
        ensures !ConflictsWithAny(a, r)
      {
        var j :| 0 <= j < |b| && b[j] == r;
        forall i | 0 <= i < |a|
          ensures !Conflict(a[i], r)
        {
          assert !Conflict(all[i], all[|a| + j]);
        }
      }
    }
    if Exclusive(b) && forall r :: r in b ==> !ConflictsWithAny(a, r) {
      forall i, j | 0 <= i < j < |all|
        ensures !Conflict(all[i], all[j])
      {
        if i < |a| <= j {
          assert b[j - |a|] in b;
        }
      }
    }
  }

  /** Reserving the new rows while the old ones are still there succeeds exactly when it would succeed
      after releasing them and, besides, no new row shares Hz and time with an old holding one. */
  lemma ReservingFirstNeedsMore(rows: seq<Row>, id: nat, occupancies: seq<Occupancy>, b: Booking)
    requires Exclusive(rows)
    ensures ReserveRows(rows, occupancies, b).Ok? <==>
            && ReserveRows(Released(rows, id), occupancies, b).Ok?
            && forall was, r :: was in rows && Belongs(was, id) && r in RowsForAll(occupancies, b) ==> !Conflict(was, r)
  {
    var kept, added := Released(rows, id), RowsForAll(occupancies, b);
    ReleaseKeepsExclusive(rows, id);
    ReserveIsWholeSetChecking(rows, occupancies, b);
    ReserveIsWholeSetChecking(kept, occupancies, b);
    ExclusiveTogether(rows, added);
    ExclusiveTogether(kept, added);
    forall r | r in added
      ensures ConflictsWithAny(rows, r) <==>
              ConflictsWithAny(kept, r) || exists was :: was in rows && Belongs(was, id) && Conflict(was, r)
    {
      ReleaseSplitsRivals(rows, id, r);
    }
  }

  // ------------------------------------------------------------------------------------------
  // The order is enough
  // ------------------------------------------------------------------------------------------

  /** One row of a clean leg: well formed, and clear of every rival the preview could see. */
  lemma CleanLegRow(c: DirectionConfig, table: seq<Row>, side: Side, grant: Assignment, requested: TimePeriod, now: int,
                    exclude: Option<nat>, b: Booking, r: Row, held: Row)
    requires LegFindings(c, table, side, grant, requested, now, exclude) == []
    requires b.period == requested && side.alloc.Contains(side.occupied)
    requires DirectionAllowsLeg(Some(b.direction), side.leg) && b.reserves && AlwaysReserving(b.status)
    requires r in RowsForResources(OccupancyOf(c, side, grant), LegResources(c.resources, side.leg), b)
    requires held in table && (exclude.Some? ==> held.path != exclude) && Conflict(held, r)
    ensures !held.period.InForce(now)
  {
    RowsForResourcesMembers(OccupancyOf(c, side, grant), LegResources(c.resources, side.leg), b, r);
    LegIsCleanIff(c, table, side, grant, requested, now, exclude);
    LegResourcesMembers(c.resources, side.leg, r.resource);
    assert held.period.InForce(now) ==> HoldsOnLeg(c, side.leg, held, now, exclude);
    assert side.alloc.Overlaps(held.alloc) && requested.Overlaps(held.period);
  }

  lemma CleanLegChecks(c: DirectionConfig, table: seq<Row>, side: Side, grant: Assignment, requested: TimePeriod, now: int,
                       exclude: Option<nat>, b: Booking, r: Row)
    requires LegFindings(c, table, side, grant, requested, now, exclude) == []
    requires side.alloc.Contains(side.occupied)
    requires DirectionAllowsLeg(Some(b.direction), side.leg) && b.reserves && AlwaysReserving(b.status)
    requires r in RowsForResources(OccupancyOf(c, side, grant), LegResources(c.resources, side.leg), b)
    ensures CheckRow(r)
  {
    RowsForResourcesMembers(OccupancyOf(c, side, grant), LegResources(c.resources, side.leg), b, r);
    LegIsCleanIff(c, table, side, grant, requested, now, exclude);
  }

  /** A proposal that the preview accepted, about to be written over `base`, which holds nothing of
      the allocation itself. */
  ghost predicate AboutToWrite(w: World, table: seq<Row>, now: int, satnet: nat, v: Values, exclude: Option<nat>,
                               p: Proposal, base: seq<Row>, b: Booking) {
    && KnownSatnet(w, satnet) && WorldValid(w)
    && Preview(w, table, now, satnet, v, exclude) == Ok(p) && p.findings == []
    && MakePeriod(v.validFrom, v.validUntil) == Some(b.period)
    && Exclusive(base)
    && (forall r :: r in base ==> r in table && (exclude.Some? ==> r.path != exclude))
    && b.reserves && AlwaysReserving(b.status)
    && DirectionAllowsLeg(Some(b.direction), p.canonical.leg) && DirectionAllowsLeg(Some(b.direction), p.translated.leg)
    && p.canonical.leg != p.translated.leg
  }

  /** Every row about to be written is well formed, and whatever it collides with is a row of another
      allocation that is not in force now, which is why the preview did not see it. */
  lemma CollisionsAreUnseen(w: World, table: seq<Row>, now: int, satnet: nat, v: Values, exclude: Option<nat>,
                            p: Proposal, base: seq<Row>, b: Booking, r: Row)
    requires AboutToWrite(w, table, now, satnet, v, exclude, p, base, b)
    requires p.canonicalAssignment.Some? && p.translatedAssignment.Some?
    requires r in RowsForAll(ProposedOccupancies(p), b)
    ensures CheckRow(r)
    ensures forall held :: held in base && Conflict(held, r) ==> !held.period.InForce(now)
  {
    CleanProposalFacts(w, table, now, satnet, v, exclude, p);
    var first := OccupancyOf(p.config, p.canonical, p.canonicalAssignment.value);
    var second := OccupancyOf(p.config, p.translated, p.translatedAssignment.value);
    TwoLegRows(first, second, b);
    if r in RowsForResources(first, first.resources, b) {
      CleanLegChecks(p.config, table, p.canonical, p.canonicalAssignment.value, b.period, now, exclude, b, r);
      forall held | held in base && Conflict(held, r)
        ensures !held.period.InForce(now)
      {
        CleanLegRow(p.config, table, p.canonical, p.canonicalAssignment.value, b.period, now, exclude, b, r, held);
      }
    } else {
      CleanLegChecks(p.config, table, p.translated, p.translatedAssignment.value, b.period, now, exclude, b, r);
      forall held | held in base && Conflict(held, r)
        ensures !held.period.InForce(now)
      {
        CleanLegRow(p.config, table, p.translated, p.translatedAssignment.value, b.period, now, exclude, b, r, held);
      }
    }
  }

  lemma ProposedRowsNeverCollideWithEachOther(p: Proposal, b: Booking)
    requires p.canonicalAssignment.Some? && p.translatedAssignment.Some?
    requires ResourcesDistinct(p.config.resources) && p.canonical.leg != p.translated.leg
    ensures Exclusive(RowsForAll(ProposedOccupancies(p), b))
  {
    var first := OccupancyOf(p.config, p.canonical, p.canonicalAssignment.value);
    var second := OccupancyOf(p.config, p.translated, p.translatedAssignment.value);
    TwoLegsNeverConflict(p.config, first, second, b);
  }

  /** Two legs whose rows are well formed and clear of one another are refused only for a grant that
      does not cover the period or for a row that was there before. */
  lemma WritesLoseOnlyToTheTable(base: seq<Row>, first: Occupancy, second: Occupancy, b: Booking)
    requires Exclusive(base) && Entitled(first, b.period)
    requires Exclusive(RowsForAll([first, second], b))
    requires forall r :: r in RowsForAll([first, second], b) ==> CheckRow(r)
    ensures match ReserveRows(base, [first, second], b)
            case Ok(_) => true
            case Err(OutsideEntitlement) => !Entitled(second, b.period)
            case Err(SpectrumConflict) => exists r :: r in RowsForAll([first, second], b) && ConflictsWithAny(base, r)
            case Err(_) => false
  {
    var added := RowsForAll([first, second], b);
    if ReserveRows(base, [first, second], b).Err? {
      ReserveRefusalIsExplained(base, [first, second], b);
      ExclusiveTogether(base, added);
    }
  }

  /** A row of another allocation is in the way, and its time is not now, so no preview could see it. */
  ghost predicate LosesToUnseen(base: seq<Row>, added: seq<Row>, exclude: Option<nat>, now: int) {
    exists held, r :: held in base && r in added && Conflict(held, r) && (exclude.Some? ==> held.path != exclude)
      && !held.period.InForce(now)
  }

  /** Once the proposal is accepted, the rows are written exactly when the grant of the translated leg
      covers the period too and no row of another allocation, whose time is not now, is in the way; and
      a refusal says which of the two it was. */
  lemma AcceptedProposalIsWrittenIff(w: World, table: seq<Row>, now: int, satnet: nat, v: Values, exclude: Option<nat>,
                                     p: Proposal, base: seq<Row>, b: Booking)
    requires AboutToWrite(w, table, now, satnet, v, exclude, p, base, b)
    requires p.canonicalAssignment.Some? && p.translatedAssignment.Some?
    ensures var covered := p.translatedAssignment.value.period.Contains(b.period);
            var lost := LosesToUnseen(base, RowsForAll(ProposedOccupancies(p), b), exclude, now);
            && (ReserveRows(base, ProposedOccupancies(p), b).Ok? <==> covered && !lost)
            && match ReserveRows(base, ProposedOccupancies(p), b)
               case Ok(_) => true
               case Err(OutsideEntitlement) => !covered
               case Err(SpectrumConflict) => lost
               case Err(_) => false
  {
    var occupancies := ProposedOccupancies(p);
    var added := RowsForAll(occupancies, b);
    CleanProposalFacts(w, table, now, satnet, v, exclude, p);
    PreviewUsesTheConfiguration(w, table, now, satnet, v, exclude, p);
    ProposedRowsNeverCollideWithEachOther(p, b);
    forall r | r in added
      ensures CheckRow(r) && (ConflictsWithAny(base, r) ==> LosesToUnseen(base, added, exclude, now))
    {
      CollisionsAreUnseen(w, table, now, satnet, v, exclude, p, base, b, r);
      if i :| 0 <= i < |base| && Conflict(base[i], r) {
        assert base[i] in base;
      }
    }
    WritesLoseOnlyToTheTable(base, occupancies[0], occupancies[1], b);
    if ReserveRows(base, occupancies, b).Ok? {
      WrittenMeansClear(base, occupancies[0], occupancies[1], b, exclude, now);
    }
  }

  lemma WrittenMeansClear(base: seq<Row>, first: Occupancy, second: Occupancy, b: Booking, exclude: Option<nat>, now: int)
    requires Exclusive(base) && ReserveRows(base, [first, second], b).Ok?
    ensures Entitled(second, b.period) && !LosesToUnseen(base, RowsForAll([first, second], b), exclude, now)
  {
    var added := RowsForAll([first, second], b);
    ReserveIsWholeSetChecking(base, [first, second], b);
    ExclusiveTogether(base, added);
    assert second in [first, second];
    forall held, r | held in base && r in added
      ensures !Conflict(held, r)
    {
      var i :| 0 <= i < |base| && base[i] == held;
      assert !ConflictsWithAny(base, r);
    }
  }

  // ------------------------------------------------------------------------------------------
  // Create, edit and revise
  // ------------------------------------------------------------------------------------------

  /** The rows an accepted proposal asks for under this identifier. */
  function RowsAskedFor(p: Proposal, id: nat, v: Values, status: Status): seq<Row>
    requires Complete(v, p)
  {
    RowsForAll(ProposedOccupancies(p), Booking(id, v.inputs.direction, status, MakePeriod(v.validFrom, v.validUntil).value, true))
  }

  /** What stands between an accepted proposal and its rows: the period of the translated grant, and
      other allocations at other times. */
  ghost predicate Writable(base: seq<Row>, p: Proposal, id: nat, v: Values, status: Status, exclude: Option<nat>, now: int)
    requires Complete(v, p)
  {
    && p.translatedAssignment.value.period.Contains(MakePeriod(v.validFrom, v.validUntil).value)
    && !LosesToUnseen(base, RowsAskedFor(p, id, v, status), exclude, now)
  }

  /** The outcome of writing an accepted proposal, decided in full. */
  ghost predicate DecidedBy(outcome: Result<Db, Error>, saveable: bool, base: seq<Row>, p: Proposal, id: nat, v: Values,
                            status: Status, exclude: Option<nat>, now: int)
    requires Complete(v, p)
  {
    && (outcome.Ok? <==> saveable && Writable(base, p, id, v, status, exclude, now))
    && match outcome
       case Ok(_) => true
       case Err(ValidationError) => !saveable
       case Err(OutsideEntitlement) => !p.translatedAssignment.value.period.Contains(MakePeriod(v.validFrom, v.validUntil).value)
       case Err(SpectrumConflict) => LosesToUnseen(base, RowsAskedFor(p, id, v, status), exclude, now)
       case Err(_) => false
  }

  /** What the row says about the path, whoever previewed it. */
  lemma WriteIsPrepared(w: World, table: seq<Row>, now: int, satnet: nat, v: Values, exclude: Option<nat>, p: Proposal,
                        base: seq<Row>, id: nat, path: Path)
    requires KnownSatnet(w, satnet) && WorldValid(w)
    requires Preview(w, table, now, satnet, v, exclude) == Ok(p) && p.findings == []
    requires p.canonicalAssignment.Some? && p.translatedAssignment.Some?
    requires MakePeriod(v.validFrom, v.validUntil) == Some(path.period)
    requires OccupanciesOf(p.config, path) == ProposedOccupancies(p)
    requires path.inputs == v.inputs && CheckPath(path) && AlwaysReserving(path.status)
    requires Exclusive(base) && forall r :: r in base ==> r in table && (exclude.Some? ==> r.path != exclude)
    ensures AboutToWrite(w, table, now, satnet, v, exclude, p, base, BookingOf(id, path, true))
  {
    var occupancies := ProposedOccupancies(p);
    assert OccupanciesOf(p.config, path)[0].leg == occupancies[0].leg && OccupanciesOf(p.config, path)[1].leg == occupancies[1].leg;
  }

  lemma CleanIsComplete(w: World, rows: seq<Row>, now: int, satnet: nat, v: Values, exclude: Option<nat>, p: Proposal)
    requires KnownSatnet(w, satnet) && Preview(w, rows, now, satnet, v, exclude) == Ok(p) && p.findings == []
    ensures Complete(v, p)
  {
    CleanProposalFacts(w, rows, now, satnet, v, exclude, p);
  }

  lemma CleanSaveIsDecided(w: World, db: Db, now: int, satnet: nat, v: Values, exclude: Option<nat>, p: Proposal, path: Path)
    requires KnownSatnet(w, satnet) && WorldValid(w) && Exclusive(db.rows) && AlwaysReserving(path.status)
    requires Preview(w, db.rows, now, satnet, v, exclude) == Ok(p) && p.findings == [] && Complete(v, p)
    requires MakePeriod(v.validFrom, v.validUntil) == Some(path.period) && path.inputs == v.inputs
    requires OccupanciesOf(p.config, path) == ProposedOccupancies(p)
    requires forall r :: r in db.rows && exclude.Some? ==> r.path != exclude
    ensures DecidedBy(SaveNew(db, path, p), Saveable(db.paths, db.nextId, path), db.rows, p, db.nextId, v, path.status, exclude, now)
  {
    if CheckPath(path) {
      WriteIsPrepared(w, db.rows, now, satnet, v, exclude, p, db.rows, db.nextId, path);
      AcceptedProposalIsWrittenIff(w, db.rows, now, satnet, v, exclude, p, db.rows, BookingOf(db.nextId, path, true));
    }
  }

  /** A new record whose proposal the preview accepts is written exactly when it can be saved and its rows
      are writable. */
  lemma CleanWriteIsDecided(w: World, db: Db, now: int, satnet: nat, v: Values, exclude: Option<nat>, p: Proposal,
                            status: Status, user: Option<nat>, predecessor: Option<nat>)
    requires KnownSatnet(w, satnet) && WorldValid(w) && Exclusive(db.rows) && AlwaysReserving(status)
    requires predecessor.Some? ==> predecessor.value in db.paths
    requires Preview(w, db.rows, now, satnet, v, exclude) == Ok(p) && p.findings == []
    requires forall r :: r in db.rows && exclude.Some? ==> r.path != exclude
    ensures Complete(v, p)
    ensures DecidedBy(WriteNew(w, db, satnet, v, p, status, user, predecessor),
                      Saveable(db.paths, db.nextId, NewRecord(w, db, satnet, v, p, status, user, predecessor)),
                      db.rows, p, db.nextId, v, status, exclude, now)
  {
    CleanIsComplete(w, db.rows, now, satnet, v, exclude, p);
    CleanSaveIsDecided(w, db, now, satnet, v, exclude, p, NewRecord(w, db, satnet, v, p, status, user, predecessor));
  }

  /** An edit of a planned allocation likewise, against the table without the path's own rows: it never
      loses to itself. */
  lemma CleanEditIsDecided(w: World, db: Db, now: int, id: nat, v: Values, p: Proposal)
    requires Exclusive(db.rows) && WorldValid(w) && id in db.paths && db.paths[id].status == Planned
    requires KnownSatnet(w, db.paths[id].satnet)
    requires Preview(w, db.rows, now, db.paths[id].satnet, v, Some(id)) == Ok(p) && p.findings == []
    ensures Complete(v, p)
    ensures DecidedBy(Replace(db, id, v, p), Saveable(db.paths, id, ChangedRecord(db.paths[id], v, p)), Released(db.rows, id),
                      p, id, v, Planned, Some(id), now)
  {
    var path, released := db.paths[id], Released(db.rows, id);
    CleanIsComplete(w, db.rows, now, path.satnet, v, Some(id), p);
    var changed := ChangedRecord(path, v, p);
    ReleaseKeepsExclusive(db.rows, id);
    forall r | r in released
      ensures r in db.rows && r.path != Some(id)
    {
      ReleasedMembers(db.rows, id, r);
    }
    assert OccupanciesOf(p.config, changed) == ProposedOccupancies(p);
    if CheckPath(changed) {
      WriteIsPrepared(w, db.rows, now, path.satnet, v, Some(id), p, released, id, changed);
      AcceptedProposalIsWrittenIff(w, db.rows, now, path.satnet, v, Some(id), p, released, BookingOf(id, changed, true));
    }
  }

  /** And a revision, against the table without its predecessor's rows. */
  lemma CleanRevisionIsDecided(w: World, db: Db, now: int, user: Option<nat>, id: nat, v: Values, effectiveAt: int, p: Proposal)
    requires TableInv(w, db) && WorldValid(w) && id in db.paths && effectiveAt > db.paths[id].period.start
    requires KnownSatnet(w, db.paths[id].satnet)
    requires Preview(w, Closed(db, id, effectiveAt).rows, now, db.paths[id].satnet, v, Some(id)) == Ok(p) && p.findings == []
    ensures Complete(v, p)
    ensures var closed := Closed(db, id, effectiveAt);
            var status := SuccessorStatus(db.paths[id].status);
            DecidedBy(WriteNew(w, closed, db.paths[id].satnet, v, p, status, user, Some(id)),
                      Saveable(closed.paths, db.nextId, NewRecord(w, closed, db.paths[id].satnet, v, p, status, user, Some(id))),
                      closed.rows, p, db.nextId, v, status, Some(id), now)
  {
    var closed := Closed(db, id, effectiveAt);
    ClosingKeepsTable(w, db, id, effectiveAt);
    forall r | r in closed.rows
      ensures r.path != Some(id)
    {
      ReleasedMembers(db.rows, id, r);
    }
    CleanWriteIsDecided(w, closed, now, db.paths[id].satnet, v, Some(id), p, SuccessorStatus(db.paths[id].status), user, Some(id));
  }

  // ------------------------------------------------------------------------------------------
  // Whole requests
  // ------------------------------------------------------------------------------------------

  ghost predicate CreatePasses(w: World, db: Db, now: int, satnet: nat, v: Values, status: Status, user: Option<nat>) {
    && KnownSatnet(w, satnet)
    && Preview(w, db.rows, now, satnet, v, None).Ok?
    && var p := Preview(w, db.rows, now, satnet, v, None).value;
       && p.findings == [] && Complete(v, p)
       && Saveable(db.paths, db.nextId, NewRecord(w, db, satnet, v, p, status, user, None))
       && Writable(db.rows, p, db.nextId, v, status, None, now)
  }

  /** Creating an allocation that holds spectrum succeeds exactly for a caller who may, with a clean
      preview, a saveable record, and rows that nothing later or earlier is in the way of. */
  lemma CreateSucceedsIff(w: World, db: Db, now: int, caller: Caller, satnet: nat, v: Values, status: Status)
    requires Exclusive(db.rows) && WorldValid(w) && AlwaysReserving(status)
    ensures CreatePath(w, db, now, caller, satnet, v, status).Ok? <==>
            caller.allowed && caller.inScope && CreatePasses(w, db, now, satnet, v, status, caller.user)
  {
    if KnownSatnet(w, satnet) && Preview(w, db.rows, now, satnet, v, None).Ok? {
      var p := Preview(w, db.rows, now, satnet, v, None).value;
      if p.findings == [] {
        CleanWriteIsDecided(w, db, now, satnet, v, None, p, status, caller.user, None);
      }
    }
  }

  ghost predicate EditPasses(w: World, db: Db, now: int, id: nat, v: Values)
    requires id in db.paths
  {
    && KnownSatnet(w, db.paths[id].satnet)
    && Preview(w, db.rows, now, db.paths[id].satnet, v, Some(id)).Ok?
    && var p := Preview(w, db.rows, now, db.paths[id].satnet, v, Some(id)).value;
       && p.findings == [] && Complete(v, p)
       && Saveable(db.paths, id, ChangedRecord(db.paths[id], v, p))
       && Writable(Released(db.rows, id), p, id, v, Planned, Some(id), now)
  }

  /** So does editing a planned one, at its current version. */
  lemma EditSucceedsIff(w: World, db: Db, now: int, caller: Caller, id: nat, v: Values, expected: nat)
    requires Exclusive(db.rows) && WorldValid(w) && id in db.paths && db.paths[id].status == Planned
    ensures EditPath(w, db, now, caller, id, v, expected).Ok? <==>
            caller.allowed && caller.inScope && expected == db.paths[id].recordVersion && EditPasses(w, db, now, id, v)
  {
    if KnownSatnet(w, db.paths[id].satnet) && Preview(w, db.rows, now, db.paths[id].satnet, v, Some(id)).Ok? {
      var p := Preview(w, db.rows, now, db.paths[id].satnet, v, Some(id)).value;
      if p.findings == [] {
        CleanEditIsDecided(w, db, now, id, v, p);
      }
    }
  }

  ghost predicate SuccessionPasses(w: World, closed: Db, now: int, user: Option<nat>, id: nat, v: Values, status: Status)
    requires id in closed.paths
  {
    && KnownSatnet(w, closed.paths[id].satnet)
    && Preview(w, closed.rows, now, closed.paths[id].satnet, v, Some(id)).Ok?
    && var p := Preview(w, closed.rows, now, closed.paths[id].satnet, v, Some(id)).value;
       && p.findings == [] && Complete(v, p)
       && Saveable(closed.paths, closed.nextId, NewRecord(w, closed, closed.paths[id].satnet, v, p, status, user, Some(id)))
       && Writable(closed.rows, p, closed.nextId, v, status, Some(id), now)
  }

  lemma SuccessionSucceedsIff(w: World, db: Db, now: int, user: Option<nat>, id: nat, v: Values, effectiveAt: int)
    requires TableInv(w, db) && WorldValid(w) && id in db.paths && effectiveAt > db.paths[id].period.start
    requires KnownSatnet(w, db.paths[id].satnet)
    ensures var closed, status := Closed(db, id, effectiveAt), SuccessorStatus(db.paths[id].status);
            Succeed(w, closed, now, user, id, v, status).Ok? <==> SuccessionPasses(w, closed, now, user, id, v, status)
  {
    var closed := Closed(db, id, effectiveAt);
    if Preview(w, closed.rows, now, db.paths[id].satnet, v, Some(id)).Ok? {
      var p := Preview(w, closed.rows, now, db.paths[id].satnet, v, Some(id)).value;
      if p.findings == [] {
        CleanRevisionIsDecided(w, db, now, user, id, v, effectiveAt, p);
      }
    }
  }

  /** And revising: exactly for the head of a chain that is not history, at its current version, at a
      moment after it began, when its successor passes against the table without it. */
  lemma ReviseSucceedsIff(w: World, db: Db, now: int, caller: Caller, id: nat, changes: Changes, effectiveAt: int,
                          expected: Option<nat>)
    requires TableInv(w, db) && WorldValid(w) && id in db.paths
    ensures RevisePath(w, db, now, caller, id, changes, effectiveAt, expected).Ok? <==>
            && caller.allowed && caller.inScope
            && (expected.Some? ==> expected.value == db.paths[id].recordVersion)
            && !Superseded(db.paths, id) && db.paths[id].status !in {Cancelled, Retired}
            && effectiveAt > db.paths[id].period.start
            && var closed := Closed(db, id, effectiveAt);
               SuccessionPasses(w, closed, now, caller.user, id, RevisionValues(closed.paths[id], changes, effectiveAt),
                                SuccessorStatus(db.paths[id].status))
  {
    assert RecordSound(w, db.paths[id]);
    if effectiveAt > db.paths[id].period.start {
      var closed := Closed(db, id, effectiveAt);
      SuccessionSucceedsIff(w, db, now, caller.user, id, RevisionValues(closed.paths[id], changes, effectiveAt), effectiveAt);
    }
  }
}
