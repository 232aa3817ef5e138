/**
 * What an accepted request leaves in the records, and exactly which requests are accepted
 * (`satnet_paths/lifecycle.py`, `satnet_paths/services.py`, `approvals/services.py`), said of the
 * stored columns and of what the caller sent.
 */
module Requests {
  import opened Wrappers
  import opened Periods
  import opened MasterData
  import opened Reservations
  import opened PathServices
  import opened Lifecycle
  import opened TableInvariant
  import opened HistoryInvariant
  import opened AllocationSafety
  import opened MoveOutcomes
  import opened StoredRows

  // ------------------------------------------------------------------------------------------
  // What is written
  // ------------------------------------------------------------------------------------------

  /** These records may differ; every other one is as it was, and there is no other new one. */
  predicate OnlyTheseChange(db: Db, after: Db, ids: set<nat>) {
    && after.paths.Keys == db.paths.Keys + ids
    && forall k :: k in db.paths && k !in ids ==> after.paths[k] == db.paths[k]
  }

  /** A creation stores what was asked for, as revision 1 of an allocation of its own. */
  lemma CreationStoresWhatWasAsked(w: World, db: Db, now: int, caller: Caller, satnet: nat, v: Values, status: Status, after: Db)
    requires CreatePath(w, db, now, caller, satnet, v, status) == Ok(after)
    ensures satnet in w.satnets && OnlyTheseChange(db, after, {db.nextId})
    ensures after.nextId == db.nextId + 1 && after.decisions == db.decisions
    ensures var p := after.paths[db.nextId];
            && p.inputs == v.inputs && p.period == Span(v.validFrom, v.validUntil)
            && p.satnet == satnet && p.beam == w.satnets[satnet].beam
            && p.status == status && p.createdBy == caller.user && p.recordVersion == 1
            && p.group == db.nextId && p.revision == 1 && p.supersedes == None
  {
    var p := Preview(w, db.rows, now, satnet, v, None).value;
    WriteNewAddsOneRecord(w, db, satnet, v, p, status, caller.user, None, after);
  }

  /** An edit stores the new values under the same identity, in the same status, one version on. */
  lemma EditStoresWhatWasAsked(w: World, db: Db, now: int, caller: Caller, id: nat, v: Values, expected: nat, after: Db)
    requires EditPath(w, db, now, caller, id, v, expected) == Ok(after)
    ensures id in db.paths && OnlyTheseChange(db, after, {id})
    ensures after.nextId == db.nextId && after.decisions == db.decisions
    ensures var was, p := db.paths[id], after.paths[id];
            && p.inputs == v.inputs && p.period == Span(v.validFrom, v.validUntil)
            && p.status == was.status && p.recordVersion == was.recordVersion + 1 && SameIdentity(was, p)
  {
    RewriteKeepsIdentity(w, db, now, id, v, after);
  }

  /** The graph as a relation. */
  predicate Edge(from: Status, action: Action, to: Status) {
    match action
    case Plan => from == Draft && to == Planned
    case Cancel => from in {Draft, Planned} && to == Cancelled
    case Submit => from == Planned && to == PendingApproval
    case Approve => from == PendingApproval && to == OnAir
    case Reject => from == PendingApproval && to == Planned
    case Suspend => from == OnAir && to == Suspended
    case Resume => from == Suspended && to == OnAir
    case Retire => from in {OnAir, Suspended} && to == Retired
  }

  /** `find` follows the graph; rows are written by planning, kept by every move between statuses that
      have rows, and dropped by the rest. */
  lemma FindFollowsTheGraph(from: Status, action: Action)
    ensures Find(from, action).Some? <==> exists to :: Edge(from, action, to)
    ensures Find(from, action).Some? ==>
              var move := Find(from, action).value;
              && move.action == action && Edge(from, action, move.to)
              && move.spectrum == if action == Plan then WriteSpectrum
                                  else if action in {Cancel, Retire} then DropSpectrum else MoveSpectrum
  {
    match action {
      case Plan => assert Edge(Draft, Plan, Planned);
      case Cancel => assert Edge(Draft, Cancel, Cancelled) && Edge(Planned, Cancel, Cancelled);
      case Submit => assert Edge(Planned, Submit, PendingApproval);
      case Approve => assert Edge(PendingApproval, Approve, OnAir);
      case Reject => assert Edge(PendingApproval, Reject, Planned);
      case Suspend => assert Edge(OnAir, Suspend, Suspended);
      case Resume => assert Edge(Suspended, Resume, OnAir);
      case Retire => assert Edge(OnAir, Retire, Retired) && Edge(Suspended, Retire, Retired);
    }
  }

  /** A move stores the status its edge leads to and the next version, and nothing else. */
  lemma MoveStoresItsStatus(w: World, db: Db, caller: Caller, id: nat, action: Action, expected: Option<nat>,
                            onBehalf: bool, after: Db) returns (to: Status)
    requires TransitionPath(w, db, caller, id, action, expected, onBehalf) == Ok(after)
    ensures id in db.paths && OnlyTheseChange(db, after, {id})
    ensures after.nextId == db.nextId && after.decisions == db.decisions
    ensures Edge(db.paths[id].status, action, to)
    ensures after.paths[id] == db.paths[id].(status := to, recordVersion := db.paths[id].recordVersion + 1)
  {
    FindFollowsTheGraph(db.paths[id].status, action);
    to := Find(db.paths[id].status, action).value.to;
  }

  /** A decision puts the allocation on air or back to planned, and is recorded under its author's name. */
  lemma DecisionStoresItsVerdict(w: World, db: Db, caller: Caller, id: nat, verdict: Verdict, expected: Option<nat>, after: Db)
    requires DecidePath(w, db, caller, id, verdict, expected) == Ok(after)
    ensures id in db.paths && caller.user.Some? && OnlyTheseChange(db, after, {id}) && after.nextId == db.nextId
    ensures var to := if verdict == Approved then OnAir else Planned;
            && after.paths[id] == db.paths[id].(status := to, recordVersion := db.paths[id].recordVersion + 1)
            && after.decisions == db.decisions + [Decision(id, verdict, caller.user.value, PendingApproval, to)]
  {
    DecisionRecordsItsMove(w, db, caller, id, verdict, expected, after);
    var moved := TransitionPath(w, db, caller, id, if verdict == Approved then Approve else Reject, expected, true).value;
    var to := MoveStoresItsStatus(w, db, caller, id, if verdict == Approved then Approve else Reject, expected, true, moved);
  }

  /** The inputs of a revision, column by column: the change where one was sent, else what was there. */
  predicate ChangesOver(c: Changes, was: Inputs, i: Inputs) {
    && i.code == (if c.code.Some? then c.code.value else was.code)
    && i.direction == (if c.direction.Some? then c.direction.value else was.direction)
    && i.mode == (if c.mode.Some? then c.mode.value else was.mode)
    && i.value == (if c.value.Some? then c.value.value else was.value)
    && i.rolloff == (if c.rolloff.Some? then c.rolloff.value else was.rolloff)
    && i.guardPolicy == (if c.guardPolicy.Some? then c.guardPolicy.value else was.guardPolicy)
    && i.centre == (if c.centre.Some? then c.centre.value else was.centre)
  }

  lemma ChangesGoOverTheClosedRecord(db: Db, id: nat, c: Changes, effectiveAt: int)
    requires id in db.paths && effectiveAt > db.paths[id].period.start
    ensures var closed := Closed(db, id, effectiveAt).paths[id];
            var v := RevisionValues(closed, c, effectiveAt);
            && ChangesOver(c, db.paths[id].inputs, v.inputs) && v.validFrom == effectiveAt
            && v.validUntil == (if c.validUntil.Some? then c.validUntil.value else Some(effectiveAt))
            && closed == db.paths[id].(period := Span(db.paths[id].period.start, Some(effectiveAt)), status := Retired,
                                       recordVersion := db.paths[id].recordVersion + 1)
  {
  }

  /** A revision stores, column by column, the change where one was sent and the predecessor's own value
      where none was, beginning at the moment given and ending when the caller says; its place in the chain
      is its own. */
  lemma RevisionStoresWhatWasAsked(w: World, db: Db, now: int, caller: Caller, id: nat, c: Changes, effectiveAt: int,
                                   expected: Option<nat>, after: Db)
    requires db.nextId !in db.paths
    requires RevisePath(w, db, now, caller, id, c, effectiveAt, expected) == Ok(after)
    ensures id in db.paths && db.nextId in after.paths
    ensures var was, next := db.paths[id], after.paths[db.nextId];
            && ChangesOver(c, was.inputs, next.inputs)
            && c.validUntil.Some? && next.period == Span(effectiveAt, c.validUntil.value)
    ensures var was, next := db.paths[id], after.paths[db.nextId];
            && was.satnet in w.satnets && next.satnet == was.satnet && next.beam == w.satnets[was.satnet].beam
            && next.createdBy == caller.user && next.recordVersion == 1
            && next.group == was.group && next.revision == was.revision + 1 && next.supersedes == Some(id)
            && next.status == if was.status in {OnAir, PendingApproval} then PendingApproval else Planned
  {
    var p := RevisionClosesThenOpens(w, db, now, caller, id, c, effectiveAt, expected, after);
    var closed := Closed(db, id, effectiveAt);
    ChangesGoOverTheClosedRecord(db, id, c, effectiveAt);
    var v := RevisionValues(closed.paths[id], c, effectiveAt);
    WriteNewAddsOneRecord(w, closed, db.paths[id].satnet, v, p, SuccessorStatus(db.paths[id].status), caller.user, Some(id), after);
    PeriodIsRefusedIff(v.validFrom, v.validUntil);
  }

  /** And the predecessor ends at that moment, retired; nothing else about it changes, and no other record
      does. */
  lemma RevisionRetiresItsPredecessor(w: World, db: Db, now: int, caller: Caller, id: nat, c: Changes, effectiveAt: int,
                                      expected: Option<nat>, after: Db)
    requires db.nextId !in db.paths
    requires RevisePath(w, db, now, caller, id, c, effectiveAt, expected) == Ok(after)
    ensures id in db.paths && OnlyTheseChange(db, after, {id, db.nextId})
    ensures after.nextId == db.nextId + 1 && after.decisions == db.decisions
    ensures var was := db.paths[id];
            after.paths[id] == was.(period := Span(was.period.start, Some(effectiveAt)), status := Retired,
                                    recordVersion := was.recordVersion + 1)
  {
    var p := RevisionClosesThenOpens(w, db, now, caller, id, c, effectiveAt, expected, after);
    var closed := Closed(db, id, effectiveAt);
    ChangesGoOverTheClosedRecord(db, id, c, effectiveAt);
    WriteNewAddsOneRecord(w, closed, db.paths[id].satnet, RevisionValues(closed.paths[id], c, effectiveAt), p,
                          SuccessorStatus(db.paths[id].status), caller.user, Some(id), after);
  }

  // ------------------------------------------------------------------------------------------
  // Which moves and decisions are accepted
  // ------------------------------------------------------------------------------------------

  /** No other row holds an Hz one of the legs wants, on a resource it competes on, during its period. */
  ghost predicate NobodyInTheWay(w: World, rows: seq<Row>, id: nat, p: Path) {
    forall s, row ::
      OfLeg(p, s) && row in rows && CompetesOn(w, p, s, row.resource) && row.path != Some(id) && row.reserves ==>
        !(row.alloc.Overlaps(s.alloc) && row.period.Overlaps(p.period))
  }

  /** Each leg that competes on anything lies inside its grant. */
  ghost predicate LegsInsideGrants(w: World, p: Path) {
    forall s, resource :: OfLeg(p, s) && CompetesOn(w, p, s, resource) ==> s.assignment.rf.Contains(s.alloc)
  }

  predicate GrantsCover(p: Path) {
    && p.canonical.assignment.isActive && p.canonical.assignment.period.Contains(p.period)
    && p.translated.assignment.isActive && p.translated.assignment.period.Contains(p.period)
  }

  /** Someone's row on this resource shares Hz and time with this leg. */
  ghost predicate MeetsSomebody(rows: seq<Row>, s: StoredSide, period: TimePeriod, resource: nat) {
    exists row :: row in rows && row.resource == resource && row.reserves && row.alloc.Overlaps(s.alloc) && row.period.Overlaps(period)
  }

  lemma PlannedRowMeetsSomebodyIff(w: World, rows: seq<Row>, id: nat, p: Path, s: StoredSide, r: Row)
    requires OfLeg(p, s) && Mirrors(w, r, id, p, s) && p.status == Planned && CheckPath(p)
    ensures CheckRow(r) <==> s.assignment.rf.Contains(s.alloc)
    ensures ConflictsWithAny(rows, r) <==> MeetsSomebody(rows, s, p.period, r.resource)
  {
    if MeetsSomebody(rows, s, p.period, r.resource) {
      var row :| row in rows && row.resource == r.resource && row.reserves
        && row.alloc.Overlaps(s.alloc) && row.period.Overlaps(p.period);
      var i :| 0 <= i < |rows| && rows[i] == row;
      assert Conflict(rows[i], r);
    }
  }

  lemma AskedRowsPass(w: World, rows: seq<Row>, id: nat, p: Path)
    requires RecordSound(w, p) && p.status == Planned
    requires LegsInsideGrants(w, p) && NobodyInTheWay(w, rows, id, p)
    requires forall row :: row in rows ==> row.path != Some(id)
    ensures forall r :: r in ExpectedRows(w, id, p) ==> CheckRow(r) && !ConflictsWithAny(rows, r)
  {
    forall r | r in ExpectedRows(w, id, p)
      ensures CheckRow(r) && !ConflictsWithAny(rows, r)
    {
      ViewMirrors(w, id, p, r);
      var s :| OfLeg(p, s) && CompetesOn(w, p, s, r.resource) && Mirrors(w, r, id, p, s);
      PlannedRowMeetsSomebodyIff(w, rows, id, p, s, r);
    }
  }

  lemma PassingRowsAreClear(w: World, rows: seq<Row>, id: nat, p: Path)
    requires RecordSound(w, p) && p.status == Planned
    requires forall r :: r in ExpectedRows(w, id, p) ==> CheckRow(r) && !ConflictsWithAny(rows, r)
    ensures LegsInsideGrants(w, p) && NobodyInTheWay(w, rows, id, p)
  {
    forall s, resource | OfLeg(p, s) && CompetesOn(w, p, s, resource)
      ensures s.assignment.rf.Contains(s.alloc) && !MeetsSomebody(rows, s, p.period, resource)
    {
      var r := ViewHasEveryLeg(w, id, p, s, resource);
      PlannedRowMeetsSomebodyIff(w, rows, id, p, s, r);
    }
    forall s, row | OfLeg(p, s) && row in rows && CompetesOn(w, p, s, row.resource) && row.path != Some(id) && row.reserves
      ensures !(row.alloc.Overlaps(s.alloc) && row.period.Overlaps(p.period))
    {
      assert !MeetsSomebody(rows, s, p.period, row.resource);
    }
  }

  lemma StatusIsNotInTheWay(w: World, rows: seq<Row>, id: nat, p: Path, status: Status)
    ensures LegsInsideGrants(w, p.(status := status)) <==> LegsInsideGrants(w, p)
    ensures NobodyInTheWay(w, rows, id, p.(status := status)) <==> NobodyInTheWay(w, rows, id, p)
  {
    var q := p.(status := status);
    assert forall s, resource :: OfLeg(p, s) && CompetesOn(w, p, s, resource) <==> OfLeg(q, s) && CompetesOn(w, q, s, resource);
  }

  lemma DraftHasNoRows(w: World, db: Db, id: nat)
    requires TableInv(w, db) && id in db.paths && db.paths[id].status == Draft
    ensures forall row :: row in db.rows ==> row.path != Some(id)
  {
    RowsStandForLegs(w, db, id);
  }

  lemma AskedRowsPassIff(w: World, rows: seq<Row>, id: nat, p: Path)
    requires RecordSound(w, p) && p.status == Draft
    requires forall row :: row in rows ==> row.path != Some(id)
    ensures (forall r :: r in ExpectedRows(w, id, p.(status := Planned)) ==> CheckRow(r) && !ConflictsWithAny(rows, r)) <==>
            LegsInsideGrants(w, p) && NobodyInTheWay(w, rows, id, p)
  {
    var planned := p.(status := Planned);
    StatusIsNotInTheWay(w, rows, id, p, Planned);
    if forall r :: r in ExpectedRows(w, id, planned) ==> CheckRow(r) && !ConflictsWithAny(rows, r) {
      PassingRowsAreClear(w, rows, id, planned);
    }
    if LegsInsideGrants(w, p) && NobodyInTheWay(w, rows, id, p) {
      AskedRowsPass(w, rows, id, planned);
    }
  }

  lemma KnownRecordIsSound(w: World, db: Db, id: nat)
    requires TableInv(w, db) && id in db.paths
    ensures RecordSound(w, db.paths[id])
  {
  }

  lemma DraftMayBePlannedIff(w: World, db: Db, id: nat)
    requires TableInv(w, db) && WorldValid(w) && id in db.paths && db.paths[id].status == Draft
    ensures ApplyMove(w, db, id, Move(Plan, Planned, WriteSpectrum)).Ok? <==>
            && GrantsCover(db.paths[id]) && LegsInsideGrants(w, db.paths[id])
            && NobodyInTheWay(w, db.rows, id, db.paths[id])
  {
    KnownRecordIsSound(w, db, id);
    DraftHasNoRows(w, db, id);
    AskedRowsPassIff(w, db.rows, id, db.paths[id]);
    PlanSucceedsIff(w, db, id);
  }

  lemma TakenIsInTheWay(w: World, rows: seq<Row>, id: nat, p: Path)
    requires RowsAreTheLegs(w, rows, id, p) && TakenByAnother(rows, id, OnAir)
    ensures !NobodyInTheWay(w, rows, id, p)
  {
    var held, r :| held in rows && !Belongs(held, id) && r in rows && Belongs(r, id) && Conflict(held, Restatus(r, OnAir, true));
    var s :| OfLeg(p, s) && CompetesOn(w, p, s, r.resource) && Mirrors(w, r, id, p, s);
    assert held.resource == r.resource;
  }

  lemma InTheWayIsTaken(w: World, rows: seq<Row>, id: nat, p: Path)
    requires LegsHaveTheirRows(w, rows, id, p) && p.status == Suspended && !NobodyInTheWay(w, rows, id, p)
    ensures TakenByAnother(rows, id, OnAir)
  {
    var s, held :| OfLeg(p, s) && held in rows && CompetesOn(w, p, s, held.resource) && held.path != Some(id) && held.reserves
      && held.alloc.Overlaps(s.alloc) && held.period.Overlaps(p.period);
    var r :| r in rows && r.resource == held.resource && Mirrors(w, r, id, p, s);
    assert Conflict(held, Restatus(r, OnAir, true));
  }

  lemma TakenIffInTheWay(w: World, db: Db, id: nat)
    requires TableInv(w, db) && id in db.paths && db.paths[id].status == Suspended
    ensures TakenByAnother(db.rows, id, OnAir) <==> !NobodyInTheWay(w, db.rows, id, db.paths[id])
  {
    if TakenByAnother(db.rows, id, OnAir) {
      RowsStandForLegs(w, db, id);
      TakenIsInTheWay(w, db.rows, id, db.paths[id]);
    } else if !NobodyInTheWay(w, db.rows, id, db.paths[id]) {
      LegsHaveRows(w, db, id);
      InTheWayIsTaken(w, db.rows, id, db.paths[id]);
    }
  }

  lemma ActionsTellTheirMoves(from: Status, move: Move)
    requires move in AvailableFrom(from)
    ensures move.action == Plan ==> from == Draft && move == Move(Plan, Planned, WriteSpectrum)
    ensures move.action == Resume ==> from == Suspended && move.spectrum == MoveSpectrum
    ensures move.action !in {Plan, Resume} ==> move.spectrum != WriteSpectrum
  {
  }

  lemma MovePassesIff(w: World, db: Db, id: nat, move: Move)
    requires TableInv(w, db) && WorldValid(w) && id in db.paths && move in AvailableFrom(db.paths[id].status)
    ensures ApplyMove(w, db, id, move).Ok? <==>
            && (move.action == Plan ==>
                  && GrantsCover(db.paths[id]) && LegsInsideGrants(w, db.paths[id])
                  && NobodyInTheWay(w, db.rows, id, db.paths[id]))
            && (move.action == Resume ==> w.suspendedRetains || NobodyInTheWay(w, db.rows, id, db.paths[id]))
  {
    ActionsTellTheirMoves(db.paths[id].status, move);
    if move.action == Plan {
      DraftMayBePlannedIff(w, db, id);
    } else if move.action == Resume {
      StatusMovesSucceedIff(w, db, id, move);
      TakenIffInTheWay(w, db, id);
    } else {
      OtherMovesPass(w, db, id, move);
    }
  }

  lemma OtherMovesPass(w: World, db: Db, id: nat, move: Move)
    requires TableInv(w, db) && WorldValid(w) && id in db.paths && move in AvailableFrom(db.paths[id].status)
    requires move.action !in {Plan, Resume}
    ensures ApplyMove(w, db, id, move).Ok?
  {
    ActionsTellTheirMoves(db.paths[id].status, move);
    if move.spectrum == MoveSpectrum {
      StatusMovesSucceedIff(w, db, id, move);
    }
  }

  /** The move an action makes, if it makes one here. */
  ghost predicate Possible(w: World, db: Db, id: nat, action: Action)
    requires id in db.paths
  {
    Find(db.paths[id].status, action).Some? && ApplyMove(w, db, id, Find(db.paths[id].status, action).value).Ok?
  }

  lemma TransitionIsGuarded(w: World, db: Db, caller: Caller, id: nat, action: Action, expected: Option<nat>)
    ensures TransitionPath(w, db, caller, id, action, expected, false).Ok? <==>
            && id in db.paths && caller.allowed && caller.inScope
            && (expected.Some? ==> expected.value == db.paths[id].recordVersion)
            && action !in {Approve, Reject} && Possible(w, db, id, action)
  {
    if id in db.paths {
      FindFollowsTheGraph(db.paths[id].status, action);
    }
  }

  lemma PossibleIff(w: World, db: Db, id: nat, action: Action)
    requires TableInv(w, db) && WorldValid(w) && id in db.paths
    ensures Possible(w, db, id, action) <==>
            && (exists to :: Edge(db.paths[id].status, action, to))
            && (action == Plan ==>
                  && GrantsCover(db.paths[id]) && LegsInsideGrants(w, db.paths[id])
                  && NobodyInTheWay(w, db.rows, id, db.paths[id]))
            && (action == Resume ==> w.suspendedRetains || NobodyInTheWay(w, db.rows, id, db.paths[id]))
  {
    FindFollowsTheGraph(db.paths[id].status, action);
    FindInIsMember(AvailableFrom(db.paths[id].status), action);
    if Find(db.paths[id].status, action).Some? {
      MovePassesIff(w, db, id, Find(db.paths[id].status, action).value);
    }
  }

  /** A transition is accepted exactly for a permitted caller in scope, at the expected version, along an
      edge that is no decision. Planning needs besides that the grants cover the draft and that nobody is
      in the way; resuming, that nobody is in the way unless suspended allocations keep their spectrum. */
  lemma TransitionSucceedsIff(w: World, db: Db, caller: Caller, id: nat, action: Action, expected: Option<nat>)
    requires TableInv(w, db) && WorldValid(w)
    ensures TransitionPath(w, db, caller, id, action, expected, false).Ok? <==>
            && id in db.paths && caller.allowed && caller.inScope
            && (expected.Some? ==> expected.value == db.paths[id].recordVersion)
            && action !in {Approve, Reject} && (exists to :: Edge(db.paths[id].status, action, to))
            && (action == Plan ==>
                  && GrantsCover(db.paths[id]) && LegsInsideGrants(w, db.paths[id])
                  && NobodyInTheWay(w, db.rows, id, db.paths[id]))
            && (action == Resume ==> w.suspendedRetains || NobodyInTheWay(w, db.rows, id, db.paths[id]))
  {
    TransitionIsGuarded(w, db, caller, id, action, expected);
    if id in db.paths {
      PossibleIff(w, db, id, action);
    }
  }

  lemma DecisionIsGuarded(w: World, db: Db, caller: Caller, id: nat, verdict: Verdict, expected: Option<nat>)
    ensures DecidePath(w, db, caller, id, verdict, expected).Ok? <==>
            && id in db.paths && caller.allowed && caller.inScope && caller.user.Some?
            && db.paths[id].status == PendingApproval
            && (expected.Some? ==> expected.value == db.paths[id].recordVersion)
            && (w.requireSeparateApprover ==> db.paths[id].createdBy != caller.user)
            && Possible(w, db, id, if verdict == Approved then Approve else Reject)
  {
  }

  /** A decision is accepted exactly from a known, permitted person in scope, at the expected version, on
      an allocation that waits for one and, where the setting asks for separate approvers, is not theirs.
      The table never refuses it. */
  lemma DecideSucceedsIff(w: World, db: Db, caller: Caller, id: nat, verdict: Verdict, expected: Option<nat>)
    requires TableInv(w, db) && WorldValid(w)
    ensures DecidePath(w, db, caller, id, verdict, expected).Ok? <==>
            && id in db.paths && caller.allowed && caller.inScope && caller.user.Some?
            && db.paths[id].status == PendingApproval
            && (expected.Some? ==> expected.value == db.paths[id].recordVersion)
            && (w.requireSeparateApprover ==> db.paths[id].createdBy != caller.user)
  {
    DecisionIsGuarded(w, db, caller, id, verdict, expected);
    if id in db.paths && db.paths[id].status == PendingApproval {
      assert Edge(PendingApproval, Approve, OnAir) && Edge(PendingApproval, Reject, Planned);
      PossibleIff(w, db, id, if verdict == Approved then Approve else Reject);
    }
  }

  // ------------------------------------------------------------------------------------------
  // What a refusal says
  // ------------------------------------------------------------------------------------------

  lemma RefusedRestatusIsAConflict(w: World, db: Db, id: nat, to: Status)
    requires TableInv(w, db) && HoldsRows(to)
    requires SetStatusRows(db.rows, id, to, ReservesSpectrum(to, w.suspendedRetains)).Err?
    ensures SetStatusRows(db.rows, id, to, ReservesSpectrum(to, w.suspendedRetains)).error == SpectrumConflict
  {
    var reserves, order := ReservesSpectrum(to, w.suspendedRetains), OwnIndices(db.rows, id, 0);
    OwnIndicesEnumerate(db.rows, id);
    forall k | 0 <= k < |order|
      ensures CheckRow(Restatus(db.rows[order[k]], to, reserves))
    {
      OwnRowsMayMove(w, db, id, to, db.rows[order[k]]);
    }
    UpdateRefusalIsAConflict(db.rows, db.rows, order, id, to, reserves);
  }

  lemma RefusedPlanIsExplained(w: World, db: Db, id: nat)
    requires TableInv(w, db) && id in db.paths && db.paths[id].status == Draft
    requires ApplyMove(w, db, id, Move(Plan, Planned, WriteSpectrum)).Err?
    ensures var e := ApplyMove(w, db, id, Move(Plan, Planned, WriteSpectrum)).error;
            e == TransitionRefused || (e == IntegrityError && !LegsInsideGrants(w, db.paths[id]))
  {
    var p := db.paths[id];
    var planned := p.(status := Planned, recordVersion := p.recordVersion + 1);
    KnownRecordIsSound(w, db, id);
    var occupancies := OccupanciesOf(w.configs[ConfigKey(planned)], planned);
    var b := BookingOf(id, planned, w.suspendedRetains);
    ReserveRefusalIsExplained(db.rows, occupancies, b);
    if ReserveRows(db.rows, occupancies, b).error == IntegrityError {
      var r :| r in RowsForAll(occupancies, b) && !CheckRow(r);
      MalformedRowIsOutside(w, db.rows, id, planned, r);
      assert !LegsInsideGrants(w, planned);
      var s, resource :| OfLeg(planned, s) && CompetesOn(w, planned, s, resource) && !s.assignment.rf.Contains(s.alloc);
      assert OfLeg(p, s) && CompetesOn(w, p, s, resource);
    }
  }

  lemma MalformedRowIsOutside(w: World, rows: seq<Row>, id: nat, p: Path, r: Row)
    requires RecordSound(w, p) && p.status == Planned
    requires r in ExpectedRows(w, id, p) && !CheckRow(r)
    ensures !LegsInsideGrants(w, p)
  {
    ViewMirrors(w, id, p, r);
    var s :| OfLeg(p, s) && CompetesOn(w, p, s, r.resource) && Mirrors(w, r, id, p, s);
    PlannedRowMeetsSomebodyIff(w, rows, id, p, s, r);
  }

  /** A move the table refuses is reported as a refused transition, and a leg outside its grant, which is no
      refusal the service knows, as what the database says. */
  lemma RefusedMoveIsExplained(w: World, db: Db, id: nat, move: Move)
    requires TableInv(w, db) && id in db.paths && move in AvailableFrom(db.paths[id].status)
    requires ApplyMove(w, db, id, move).Err?
    ensures var e := ApplyMove(w, db, id, move).error;
            e == TransitionRefused || (e == IntegrityError && move.action == Plan && !LegsInsideGrants(w, db.paths[id]))
  {
    ActionsTellTheirMoves(db.paths[id].status, move);
    MovesMatchStatuses(db.paths[id].status, move);
    if move.action == Plan {
      RefusedPlanIsExplained(w, db, id);
    } else if move.spectrum == MoveSpectrum {
      RefusedRestatusIsAConflict(w, db, id, move.to);
    }
  }

  /** The first guard a request fails names its refusal. */
  lemma GuardsNameTheirRefusals(w: World, db: Db, c: Command)
    ensures match c.request
            case Creating(satnet, v, status) =>
              && (satnet !in w.satnets ==> Attempt(w, db, c) == Err(DoesNotExist))
              && (KnownSatnet(w, satnet) && !c.caller.allowed ==> Attempt(w, db, c) == Err(PermissionDenied))
              && (KnownSatnet(w, satnet) && c.caller.allowed && !c.caller.inScope ==> Attempt(w, db, c) == Err(PathBlocked))
            case _ => true
    ensures !c.request.Creating? && c.request.path !in db.paths ==> Attempt(w, db, c) == Err(DoesNotExist)
    ensures !c.request.Creating? && c.request.path in db.paths ==>
              var p := db.paths[c.request.path];
              match c.request
              case Editing(_, _, expected) =>
                (if !c.caller.allowed then Attempt(w, db, c) == Err(PermissionDenied)
                 else if !c.caller.inScope then Attempt(w, db, c) == Err(TransitionRefused)
                 else if p.status != Draft && p.status != Planned then Attempt(w, db, c) == Err(NotEditable)
                 else expected != p.recordVersion ==> Attempt(w, db, c) == Err(StaleRecord))
              case Moving(_, action, expected) =>
                (if forall to :: !Edge(p.status, action, to) then Attempt(w, db, c) == Err(IllegalTransition)
                 else if !c.caller.allowed then Attempt(w, db, c) == Err(PermissionDenied)
                 else if !c.caller.inScope || action == Approve || action == Reject then Attempt(w, db, c) == Err(TransitionRefused)
                 else expected.Some? && expected.value != p.recordVersion ==> Attempt(w, db, c) == Err(StaleRecord))
              case Deciding(_, _, expected) =>
                (if !c.caller.allowed then Attempt(w, db, c) == Err(PermissionDenied)
                 else if c.caller.user.None? || p.status != PendingApproval || !c.caller.inScope
                         || (w.requireSeparateApprover && p.createdBy == c.caller.user)
                 then Attempt(w, db, c) == Err(ApprovalRefused)
                 else expected.Some? && expected.value != p.recordVersion ==> Attempt(w, db, c) == Err(StaleRecord))
              case Revising(_, _, at, expected) =>
                (if !c.caller.allowed then Attempt(w, db, c) == Err(PermissionDenied)
                 else if !c.caller.inScope then Attempt(w, db, c) == Err(TransitionRefused)
                 else if expected.Some? && expected.value != p.recordVersion then Attempt(w, db, c) == Err(StaleRecord)
                 else (|| p.status == Cancelled || p.status == Retired || at <= p.period.start
                       || exists later :: later in db.paths && db.paths[later].supersedes == Some(c.request.path)) ==>
                        Attempt(w, db, c) == Err(TransitionRefused))
              case Creating(_, _, _) => true
  {
    if !c.request.Creating? && c.request.path in db.paths {
      var p := db.paths[c.request.path];
      if c.request.Moving? {
        FindFollowsTheGraph(p.status, c.request.action);
      }
      if c.request.Deciding? {
        FindFollowsTheGraph(PendingApproval, Approve);
        FindFollowsTheGraph(PendingApproval, Reject);
        assert Edge(PendingApproval, Approve, OnAir) && Edge(PendingApproval, Reject, Planned);
      }
    }
  }
}
