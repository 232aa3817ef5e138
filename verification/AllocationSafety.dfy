/** Safety of every run: what holds in each state the operations can reach. */
module AllocationSafety {
  import opened Wrappers
  import opened MasterData
  import opened Reservations
  import opened PathServices
  import opened Lifecycle
  import opened RowAccounting
  import opened TableInvariant
  import opened HistoryInvariant

  ghost predicate Inv(w: World, db: Db) {
    TableInv(w, db) && HistoryInv(w, db)
  }

  // ------------------------------------------------------------------------------------------
  // Each operation keeps the invariant
  // ------------------------------------------------------------------------------------------

  lemma CreateKeeps(w: World, db: Db, now: int, caller: Caller, satnet: nat, v: Values, status: Status, after: Db)
    requires Inv(w, db) && Permitted(status)
    requires CreatePath(w, db, now, caller, satnet, v, status) == Ok(after)
    ensures Inv(w, after)
    ensures RowsOf(after.rows, None) == RowsOf(db.rows, None)
  {
    var p := Preview(w, db.rows, now, satnet, v, None).value;
    PreviewUsesTheConfiguration(w, db.rows, now, satnet, v, None, p);
    WriteNewKeepsTable(w, db, satnet, v, p, status, caller.user, None, after);
    WriteNewAddsOneRecord(w, db, satnet, v, p, status, caller.user, None, after);
    AddingKeepsHistory(w, db, after, db.nextId);
  }

  lemma EditKeeps(w: World, db: Db, now: int, caller: Caller, id: nat, v: Values, expected: nat, after: Db)
    requires Inv(w, db)
    requires EditPath(w, db, now, caller, id, v, expected) == Ok(after)
    ensures Inv(w, after)
    ensures RowsOf(after.rows, None) == RowsOf(db.rows, None)
  {
    RewriteKeepsTable(w, db, now, id, v, after);
    RewriteKeepsHistory(w, db, now, id, v, after);
  }

  /** What an accepted plain transition was. */
  lemma TransitionIsOneMove(w: World, db: Db, caller: Caller, id: nat, action: Action, expected: Option<nat>,
                            onBehalf: bool, after: Db) returns (move: Move)
    requires TransitionPath(w, db, caller, id, action, expected, onBehalf) == Ok(after)
    ensures id in db.paths && move in AvailableFrom(db.paths[id].status) && move.action == action
    ensures (move.IsApproval() ==> onBehalf) && ApplyMove(w, db, id, move) == Ok(after)
    ensures expected.Some? ==> expected.value == db.paths[id].recordVersion
  {
    move := Find(db.paths[id].status, action).value;
    FindInIsMember(AvailableFrom(db.paths[id].status), action);
  }

  lemma TransitionKeeps(w: World, db: Db, caller: Caller, id: nat, action: Action, expected: Option<nat>, after: Db)
    requires Inv(w, db)
    requires TransitionPath(w, db, caller, id, action, expected, false) == Ok(after)
    ensures Inv(w, after)
    ensures RowsOf(after.rows, None) == RowsOf(db.rows, None)
  {
    var move := TransitionIsOneMove(w, db, caller, id, action, expected, false, after);
    ApplyMoveKeepsTable(w, db, id, move, after);
    PlainMoveKeepsHistory(w, db, id, move, after);
  }

  lemma DecideKeepsTable(w: World, db: Db, caller: Caller, id: nat, verdict: Verdict, expected: Option<nat>, after: Db)
    requires TableInv(w, db)
    requires DecidePath(w, db, caller, id, verdict, expected) == Ok(after)
    ensures TableInv(w, after)
    ensures RowsOf(after.rows, None) == RowsOf(db.rows, None)
  {
    DecisionRecordsItsMove(w, db, caller, id, verdict, expected, after);
    FindInIsMember(AvailableFrom(PendingApproval), ActionOf(verdict));
    ApplyMoveKeepsTable(w, db, id, Find(PendingApproval, ActionOf(verdict)).value, after.(decisions := db.decisions));
    assert TableInv(w, after.(decisions := db.decisions));
  }

  lemma DecideKeepsHistory(w: World, db: Db, caller: Caller, id: nat, verdict: Verdict, expected: Option<nat>, after: Db)
    requires HistoryInv(w, db)
    requires DecidePath(w, db, caller, id, verdict, expected) == Ok(after)
    ensures HistoryInv(w, after)
  {
    DecisionRecordsItsMove(w, db, caller, id, verdict, expected, after);
    var d := Decision(id, verdict, caller.user.value, PendingApproval, after.paths[id].status);
    DecisionKeepsHistory(w, db, after, id, d);
  }

  /** What an accepted revision did. */
  lemma RevisionClosesThenOpens(w: World, db: Db, now: int, caller: Caller, id: nat, changes: Changes, effectiveAt: int,
                                expected: Option<nat>, after: Db) returns (p: Proposal)
    requires RevisePath(w, db, now, caller, id, changes, effectiveAt, expected) == Ok(after)
    ensures id in db.paths && effectiveAt > db.paths[id].period.start && KnownSatnet(w, db.paths[id].satnet)
    ensures !Superseded(db.paths, id) && db.paths[id].status !in {Cancelled, Retired}
    ensures expected.Some? ==> expected.value == db.paths[id].recordVersion
    ensures var closed := Closed(db, id, effectiveAt);
            var v := RevisionValues(closed.paths[id], changes, effectiveAt);
            && Preview(w, closed.rows, now, db.paths[id].satnet, v, Some(id)) == Ok(p) && p.findings == []
            && WriteNew(w, closed, db.paths[id].satnet, v, p, SuccessorStatus(db.paths[id].status), caller.user, Some(id)) == Ok(after)
  {
    var closed := Closed(db, id, effectiveAt);
    var v := RevisionValues(closed.paths[id], changes, effectiveAt);
    p := Preview(w, closed.rows, now, db.paths[id].satnet, v, Some(id)).value;
  }

  lemma ReviseKeeps(w: World, db: Db, now: int, caller: Caller, id: nat, changes: Changes, effectiveAt: int,
                    expected: Option<nat>, after: Db)
    requires Inv(w, db)
    requires RevisePath(w, db, now, caller, id, changes, effectiveAt, expected) == Ok(after)
    ensures Inv(w, after)
    ensures RowsOf(after.rows, None) == RowsOf(db.rows, None)
  {
    var p := RevisionClosesThenOpens(w, db, now, caller, id, changes, effectiveAt, expected, after);
    var closed := Closed(db, id, effectiveAt);
    var satnet, status := db.paths[id].satnet, SuccessorStatus(db.paths[id].status);
    var v := RevisionValues(closed.paths[id], changes, effectiveAt);
    ClosingKeepsTable(w, db, id, effectiveAt);
    ClosingKeepsHistory(w, db, id, effectiveAt);
    PreviewUsesTheConfiguration(w, closed.rows, now, satnet, v, Some(id), p);
    WriteNewKeepsTable(w, closed, satnet, v, p, status, caller.user, Some(id), after);
    WriteNewAddsOneRecord(w, closed, satnet, v, p, status, caller.user, Some(id), after);
    AddingKeepsHistory(w, closed, after, closed.nextId);
  }

  // ------------------------------------------------------------------------------------------
  // Every run keeps it
  // ------------------------------------------------------------------------------------------

  /** New allocations start in a status the graph has an approval still ahead of. */
  predicate PermittedCommand(c: Command) {
    c.request.Creating? ==> Permitted(c.request.status)
  }

  lemma StepKeeps(w: World, db: Db, c: Command)
    requires Inv(w, db) && PermittedCommand(c)
    ensures Inv(w, Step(w, db, c))
    ensures RowsOf(Step(w, db, c).rows, None) == RowsOf(db.rows, None)
  {
    if Attempt(w, db, c).Ok? {
      var after := Attempt(w, db, c).value;
      match c.request {
        case Creating(satnet, values, status) => CreateKeeps(w, db, c.now, c.caller, satnet, values, status, after);
        case Editing(path, values, expected) => EditKeeps(w, db, c.now, c.caller, path, values, expected, after);
        case Moving(path, action, expected) => TransitionKeeps(w, db, c.caller, path, action, expected, after);
        case Deciding(path, verdict, expected) =>
          DecideKeepsTable(w, db, c.caller, path, verdict, expected, after);
          DecideKeepsHistory(w, db, c.caller, path, verdict, expected, after);
        case Revising(path, changes, at, expected) => ReviseKeeps(w, db, c.now, c.caller, path, changes, at, expected, after);
      }
    }
  }

  /** In every state any run reaches, refused requests included, the reservation table is exactly the
      view rebuilt from the paths and keeps the promise, the history is sound, and the fixed reserves
      are the ones the run started with. */
  lemma {:induction false} RunKeeps(w: World, db: Db, commands: seq<Command>)
    requires Inv(w, db) && forall c :: c in commands ==> PermittedCommand(c)
    ensures Inv(w, Run(w, db, commands))
    ensures RowsOf(Run(w, db, commands).rows, None) == RowsOf(db.rows, None)
    decreases |commands|
  {
    if commands != [] {
      assert commands[0] in commands;
      StepKeeps(w, db, commands[0]);
      RunKeeps(w, Step(w, db, commands[0]), commands[1..]);
    }
  }

  /** From an empty start, no run ever has one Hz of one resource held twice at one moment. */
  lemma NothingIsEverHeldTwice(w: World, db: Db, commands: seq<Command>, i: nat, j: nat, hz: int, at: int)
    requires Initial(db) && forall c :: c in commands ==> PermittedCommand(c)
    requires var rows := Run(w, db, commands).rows; i < j < |rows|
    ensures var rows := Run(w, db, commands).rows;
            !(HoldsAt(rows[i], rows[j].resource, hz, at) && HoldsAt(rows[j], rows[j].resource, hz, at))
  {
    InitialTable(w, db);
    RunKeeps(w, db, commands);
    ExclusiveMeansNoHzIsHeldTwice(Run(w, db, commands).rows);
  }

  /** Inside its grant in Hz; and if it is an allocation's, inside an active grant for its whole period
      and one of the rows its record should have. */
  predicate RowBelongs(w: World, db: Db, r: Row) {
    && r.assignment.rf.Contains(r.alloc) && r.alloc.Contains(r.occupied)
    && (r.path.Some? ==>
          && r.path.value in db.paths && r in ExpectedRows(w, r.path.value, db.paths[r.path.value])
          && r.assignment.isActive && r.assignment.period.Contains(r.period))
  }

  lemma SoundRowsBelong(w: World, db: Db)
    requires TableInv(w, db)
    ensures forall r :: r in db.rows ==> RowBelongs(w, db, r)
  {
    forall r | r in db.rows
      ensures RowBelongs(w, db, r)
    {
      RowsOfMembers(db.rows, r.path, r);
    }
  }

  /** And every row in the table, at any moment of any run, is one that should be there. */
  lemma EveryRowBelongs(w: World, db: Db, commands: seq<Command>)
    requires Initial(db) && forall c :: c in commands ==> PermittedCommand(c)
    ensures var after := Run(w, db, commands); forall r :: r in after.rows ==> RowBelongs(w, after, r)
  {
    InitialTable(w, db);
    RunKeeps(w, db, commands);
    SoundRowsBelong(w, Run(w, db, commands));
  }

  // ------------------------------------------------------------------------------------------
  // create: exactly which initial statuses are safe
  // ------------------------------------------------------------------------------------------

  lemma ViewOfLegIsNotEmpty(o: Occupancy, rest: seq<Occupancy>, b: Booking)
    requires o.resources != []
    ensures RowsForAll([o] + rest, b) != []
  {
    assert ([o] + rest)[1..] == rest;
  }

  /** An operational record that passed the preview has a row in the table. */
  lemma OperationalCreateWritesRows(w: World, db: Db, now: int, caller: Caller, satnet: nat, v: Values, status: Status, after: Db)
    requires Inv(w, db) && status != Draft
    requires CreatePath(w, db, now, caller, satnet, v, status) == Ok(after)
    ensures RowsOf(after.rows, Some(db.nextId)) != []
  {
    var p := Preview(w, db.rows, now, satnet, v, None).value;
    var id := db.nextId;
    var occupancies, b := ProposedOccupancies(p), BookingOf(id, after.paths[id], true);
    ReserveIsWholeSetChecking(db.rows, occupancies, b);
    ReservingAddsToOneOwner(db.rows, occupancies, b, Some(id));
    assert LegResources(p.config.resources, p.canonical.leg) != [];
    ViewOfLegIsNotEmpty(occupancies[0], occupancies[1..], b);
    assert occupancies == [occupancies[0]] + occupancies[1..];
  }

  /** `create` takes any initial status. It keeps the invariant exactly for the three statuses that
      have not been approved, suspended or closed: starting anywhere else leaves an approval missing
      or rows behind for a record that should have none. */
  lemma CreateIsSafeExactlyWhenPermitted(w: World, db: Db, now: int, caller: Caller, satnet: nat, v: Values, status: Status, after: Db)
    requires Inv(w, db)
    requires CreatePath(w, db, now, caller, satnet, v, status) == Ok(after)
    ensures Inv(w, after) <==> Permitted(status)
  {
    var id := db.nextId;
    var p := Preview(w, db.rows, now, satnet, v, None).value;
    WriteNewAddsOneRecord(w, db, satnet, v, p, status, caller.user, None, after);
    if Permitted(status) {
      CreateKeeps(w, db, now, caller, satnet, v, status, after);
    } else {
      OperationalCreateWritesRows(w, db, now, caller, satnet, v, status, after);
      NoDecisionsNoApprovals(db.decisions, id);
    }
  }
}
