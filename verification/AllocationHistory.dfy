/** What a run can and cannot do to one allocation, one revision chain and one version number. */
module AllocationHistory {
  import opened Wrappers
  import opened MasterData
  import opened Reservations
  import opened PathServices
  import opened Lifecycle
  import opened RowAccounting
  import opened TableInvariant
  import opened HistoryInvariant
  import opened AllocationSafety

  // ------------------------------------------------------------------------------------------
  // Only the named record changes
  // ------------------------------------------------------------------------------------------

  function Named(c: Command): Option<nat> {
    match c.request
    case Creating(_, _, _) => None
    case Editing(path, _, _) => Some(path)
    case Moving(path, _, _) => Some(path)
    case Deciding(path, _, _) => Some(path)
    case Revising(path, _, _, _) => Some(path)
  }

  function ExpectedVersion(c: Command): Option<nat> {
    match c.request
    case Creating(_, _, _) => None
    case Editing(_, _, expected) => Some(expected)
    case Moving(_, _, expected) => expected
    case Deciding(_, _, expected) => expected
    case Revising(_, _, _, expected) => expected
  }

  predicate Final(status: Status) {
    status in {Cancelled, Retired}
  }

  /** How one record may move in one accepted request that names it. */
  ghost predicate Advances(before: Path, after: Path) {
    && SameIdentity(before, after)
    && after.recordVersion == before.recordVersion + 1
    && !Final(before.status)
    && (after.status == before.status || after.status == Retired || Follows(before.status, after.status))
  }

  ghost predicate Follows(from: Status, to: Status) {
    exists move :: move in AvailableFrom(from) && move.to == to
  }

  /** An accepted request changes the record it names, by one version along the graph, and adds at
      most one record; every other record is untouched. */
  ghost predicate TouchesOnly(db: Db, after: Db, named: Option<nat>) {
    && db.nextId <= after.nextId
    && (forall k :: k in db.paths ==> k in after.paths && (named != Some(k) ==> after.paths[k] == db.paths[k]))
    && (named.Some? ==> named.value in db.paths && named.value in after.paths
                        && Advances(db.paths[named.value], after.paths[named.value]))
  }

  lemma CreateTouches(w: World, db: Db, now: int, caller: Caller, satnet: nat, v: Values, status: Status, after: Db)
    requires Inv(w, db) && CreatePath(w, db, now, caller, satnet, v, status) == Ok(after)
    ensures TouchesOnly(db, after, None)
  {
    var p := Preview(w, db.rows, now, satnet, v, None).value;
    WriteNewAddsOneRecord(w, db, satnet, v, p, status, caller.user, None, after);
  }

  lemma TransitionTouches(w: World, db: Db, caller: Caller, id: nat, action: Action, expected: Option<nat>, after: Db)
    requires TransitionPath(w, db, caller, id, action, expected, false) == Ok(after)
    ensures TouchesOnly(db, after, Some(id))
    ensures expected.Some? ==> expected.value == db.paths[id].recordVersion
  {
    var move := TransitionIsOneMove(w, db, caller, id, action, expected, false, after);
    ApplyMoveKeepsIdentity(w, db, id, move, after);
  }

  lemma DecideTouches(w: World, db: Db, caller: Caller, id: nat, verdict: Verdict, expected: Option<nat>, after: Db)
    requires DecidePath(w, db, caller, id, verdict, expected) == Ok(after)
    ensures TouchesOnly(db, after, Some(id))
    ensures expected.Some? ==> expected.value == db.paths[id].recordVersion
  {
    DecisionRecordsItsMove(w, db, caller, id, verdict, expected, after);
    DecisionIsCurrent(w, db, caller, id, verdict, expected);
    FindInIsMember(AvailableFrom(PendingApproval), ActionOf(verdict));
    var move := Find(PendingApproval, ActionOf(verdict)).value;
    assert move.to == after.paths[id].status;
  }

  lemma EditTouches(w: World, db: Db, now: int, caller: Caller, id: nat, v: Values, expected: nat, after: Db)
    requires EditPath(w, db, now, caller, id, v, expected) == Ok(after)
    ensures TouchesOnly(db, after, Some(id)) && expected == db.paths[id].recordVersion
  {
    RewriteKeepsIdentity(w, db, now, id, v, after);
  }

  lemma ClosingAdvances(db: Db, id: nat, effectiveAt: int)
    requires id in db.paths && effectiveAt > db.paths[id].period.start && !Final(db.paths[id].status)
    ensures TouchesOnly(db, Closed(db, id, effectiveAt), Some(id))
  {
  }

  lemma AddingAfterTouching(db: Db, middle: Db, after: Db, named: Option<nat>)
    requires TouchesOnly(db, middle, named)
    requires middle.nextId !in middle.paths && middle.nextId in after.paths
    requires after.paths == middle.paths[middle.nextId := after.paths[middle.nextId]]
    requires after.nextId == middle.nextId + 1
    ensures TouchesOnly(db, after, named)
  {
  }

  lemma ReviseTouches(w: World, db: Db, now: int, caller: Caller, id: nat, changes: Changes, effectiveAt: int,
                      expected: Option<nat>, after: Db)
    requires (forall k :: k in db.paths ==> k < db.nextId)
    requires RevisePath(w, db, now, caller, id, changes, effectiveAt, expected) == Ok(after)
    ensures TouchesOnly(db, after, Some(id))
    ensures expected.Some? ==> expected.value == db.paths[id].recordVersion
  {
    var p := RevisionClosesThenOpens(w, db, now, caller, id, changes, effectiveAt, expected, after);
    var closed := Closed(db, id, effectiveAt);
    ClosingAdvances(db, id, effectiveAt);
    WriteNewAddsOneRecord(w, closed, db.paths[id].satnet, RevisionValues(closed.paths[id], changes, effectiveAt), p,
                          SuccessorStatus(db.paths[id].status), caller.user, Some(id), after);
    AddingAfterTouching(db, closed, after, Some(id));
  }

  lemma AcceptedTouchesOnlyNamed(w: World, db: Db, c: Command, after: Db)
    requires Inv(w, db) && Attempt(w, db, c) == Ok(after)
    ensures TouchesOnly(db, after, Named(c))
    ensures ExpectedVersion(c).Some? ==> ExpectedVersion(c).value == db.paths[Named(c).value].recordVersion
  {
    match c.request {
      case Creating(satnet, v, status) => CreateTouches(w, db, c.now, c.caller, satnet, v, status, after);
      case Editing(id, v, expected) => EditTouches(w, db, c.now, c.caller, id, v, expected, after);
      case Moving(id, action, expected) => TransitionTouches(w, db, c.caller, id, action, expected, after);
      case Deciding(id, verdict, expected) => DecideTouches(w, db, c.caller, id, verdict, expected, after);
      case Revising(id, changes, at, expected) => ReviseTouches(w, db, c.now, c.caller, id, changes, at, expected, after);
    }
  }

  /** Nothing happens for a caller the checks refuse; nobody decides anonymously or, with the setting on,
      on what they made; only drafts and planned allocations are edited; no history is revised; and no
      approval is reached except by a decision. */
  lemma AcceptedRequestsWereAllowed(w: World, db: Db, c: Command)
    requires Attempt(w, db, c).Ok?
    ensures c.caller.allowed && c.caller.inScope
    ensures Named(c).Some? ==> Named(c).value in db.paths
    ensures match c.request
            case Creating(_, _, _) => true
            case Editing(id, _, _) => db.paths[id].status in {Draft, Planned}
            case Moving(_, action, _) => action !in {Approve, Reject}
            case Deciding(id, _, _) =>
              db.paths[id].status == PendingApproval && c.caller.user.Some? && !SelfApproval(w, db.paths[id], c.caller.user.value)
            case Revising(id, _, _, _) => !Final(db.paths[id].status) && !Superseded(db.paths, id)
  {
    if c.request.Moving? {
      var move := TransitionIsOneMove(w, db, c.caller, c.request.path, c.request.action, c.request.expectedVersion, false,
                                      Attempt(w, db, c).value);
    }
  }

  /** What one step, accepted or refused, can do to a record that exists. */
  lemma StepOnRecord(w: World, db: Db, c: Command, id: nat)
    requires Inv(w, db) && id in db.paths
    ensures id in Step(w, db, c).paths
    ensures Step(w, db, c).paths[id].recordVersion >= db.paths[id].recordVersion
    ensures Final(db.paths[id].status) ==> Step(w, db, c).paths[id] == db.paths[id]
  {
    if Attempt(w, db, c).Ok? {
      AcceptedTouchesOnlyNamed(w, db, c, Attempt(w, db, c).value);
    }
  }

  lemma DecisionIsCurrent(w: World, db: Db, caller: Caller, id: nat, verdict: Verdict, expected: Option<nat>)
    requires DecidePath(w, db, caller, id, verdict, expected).Ok?
    ensures id in db.paths && (expected.Some? ==> expected.value == db.paths[id].recordVersion)
  {
  }

  /** A request leaves the rows of every allocation it does not name exactly as they were. */
  lemma RowsOfOthersAreUntouched(w: World, db: Db, c: Command, other: nat)
    requires Inv(w, db) && PermittedCommand(c)
    requires other in db.paths && Named(c) != Some(other)
    ensures RowsOf(Step(w, db, c).rows, Some(other)) == RowsOf(db.rows, Some(other))
  {
    StepKeeps(w, db, c);
    if Attempt(w, db, c).Ok? {
      AcceptedTouchesOnlyNamed(w, db, c, Attempt(w, db, c).value);
    }
  }

  // ------------------------------------------------------------------------------------------
  // Final is for ever
  // ------------------------------------------------------------------------------------------

  lemma {:induction false} FinalRecordsStay(w: World, db: Db, commands: seq<Command>, id: nat)
    requires Inv(w, db) && forall c :: c in commands ==> PermittedCommand(c)
    requires id in db.paths && Final(db.paths[id].status)
    ensures id in Run(w, db, commands).paths && Run(w, db, commands).paths[id] == db.paths[id]
    decreases |commands|
  {
    if commands != [] {
      var next := Step(w, db, commands[0]);
      assert commands[0] in commands;
      StepKeeps(w, db, commands[0]);
      StepOnRecord(w, db, commands[0], id);
      FinalRecordsStay(w, next, commands[1..], id);
    }
  }

  lemma FinalRecordHoldsNothing(w: World, db: Db, id: nat)
    requires Inv(w, db) && id in db.paths && Final(db.paths[id].status)
    ensures RowsOf(db.rows, Some(id)) == []
  {
  }

  /** A cancelled or retired record never changes again, and never holds spectrum again. */
  lemma FinalRecordsNeverChange(w: World, db: Db, commands: seq<Command>, id: nat)
    requires Inv(w, db) && forall c :: c in commands ==> PermittedCommand(c)
    requires id in db.paths && Final(db.paths[id].status)
    ensures var after := Run(w, db, commands);
            id in after.paths && after.paths[id] == db.paths[id] && RowsOf(after.rows, Some(id)) == []
  {
    FinalRecordsStay(w, db, commands, id);
    RunKeeps(w, db, commands);
    FinalRecordHoldsNothing(w, Run(w, db, commands), id);
  }

  // ------------------------------------------------------------------------------------------
  // A version is spent once
  // ------------------------------------------------------------------------------------------

  lemma {:induction false} VersionsOnlyGrow(w: World, db: Db, commands: seq<Command>, id: nat)
    requires Inv(w, db) && (forall c :: c in commands ==> PermittedCommand(c)) && id in db.paths
    ensures var after := Run(w, db, commands);
            id in after.paths && after.paths[id].recordVersion >= db.paths[id].recordVersion
    decreases |commands|
  {
    if commands != [] {
      assert commands[0] in commands;
      StepKeeps(w, db, commands[0]);
      StepOnRecord(w, db, commands[0], id);
      VersionsOnlyGrow(w, Step(w, db, commands[0]), commands[1..], id);
    }
  }

  lemma SpendsAVersion(w: World, db: Db, c: Command, after: Db)
    requires Inv(w, db) && Attempt(w, db, c) == Ok(after)
    requires Named(c).Some? && ExpectedVersion(c).Some?
    ensures Named(c).value in after.paths && after.paths[Named(c).value].recordVersion > ExpectedVersion(c).value
  {
    AcceptedTouchesOnlyNamed(w, db, c, after);
  }

  lemma SpentVersionIsRefused(w: World, db: Db, c: Command)
    requires Inv(w, db) && Named(c).Some? && ExpectedVersion(c).Some?
    requires Named(c).value in db.paths && db.paths[Named(c).value].recordVersion > ExpectedVersion(c).value
    ensures Attempt(w, db, c).Err?
  {
    if Attempt(w, db, c).Ok? {
      AcceptedTouchesOnlyNamed(w, db, c, Attempt(w, db, c).value);
    }
  }

  /** Of all the requests that were made against one version of one record, however long the run
      between them, at most one is accepted. */
  lemma OneAcceptedRequestPerVersion(w: World, db: Db, first: Command, between: seq<Command>, second: Command)
    requires Inv(w, db) && PermittedCommand(first) && forall c :: c in between ==> PermittedCommand(c)
    requires Named(first).Some? && Named(first) == Named(second)
    requires ExpectedVersion(first).Some? && ExpectedVersion(first) == ExpectedVersion(second)
    requires Attempt(w, db, first).Ok?
    ensures Attempt(w, Run(w, Step(w, db, first), between), second).Err?
  {
    var next := Step(w, db, first);
    StepKeeps(w, db, first);
    SpendsAVersion(w, db, first, next);
    VersionsOnlyGrow(w, next, between, Named(first).value);
    RunKeeps(w, next, between);
    SpentVersionIsRefused(w, Run(w, next, between), second);
  }

  // ------------------------------------------------------------------------------------------
  // Revision chains
  // ------------------------------------------------------------------------------------------

  /** The chain is unbroken: below any revision there is one with every smaller number, in the same
      group, and it is retired. */
  lemma {:induction false} EarlierRevisionsExistAndAreRetired(paths: map<nat, Path>, id: nat, number: nat) returns (earlier: nat)
    requires LineagesSound(paths) && id in paths && 1 <= number < paths[id].revision
    ensures earlier in paths && paths[earlier].group == paths[id].group
    ensures paths[earlier].revision == number && paths[earlier].status == Retired
    decreases paths[id].revision
  {
    assert LineageSound(paths, paths[id]);
    earlier := paths[id].supersedes.value;
    if paths[earlier].revision > number {
      earlier := EarlierRevisionsExistAndAreRetired(paths, earlier, number);
    }
  }

  lemma LowerRevisionIsRetired(paths: map<nat, Path>, a: nat, b: nat)
    requires LineagesSound(paths) && RevisionsDistinct(paths) && a in paths && b in paths
    requires paths[a].group == paths[b].group && paths[a].revision < paths[b].revision
    ensures paths[a].status == Retired
  {
    assert LineageSound(paths, paths[a]);
    var earlier := EarlierRevisionsExistAndAreRetired(paths, b, paths[a].revision);
    assert earlier == a;
  }

  /** So of two revisions of one allocation the lower is retired, and at most one revision of an
      allocation ever has rows in the table. */
  lemma AtMostOneRevisionHoldsSpectrum(w: World, db: Db, a: nat, b: nat)
    requires Inv(w, db) && a in db.paths && b in db.paths && a != b
    requires db.paths[a].group == db.paths[b].group
    ensures RowsOf(db.rows, Some(a)) == [] || RowsOf(db.rows, Some(b)) == []
  {
    if db.paths[a].revision < db.paths[b].revision {
      LowerRevisionIsRetired(db.paths, a, b);
      FinalRecordHoldsNothing(w, db, a);
    } else {
      LowerRevisionIsRetired(db.paths, b, a);
      FinalRecordHoldsNothing(w, db, b);
    }
  }

  /** No two revisions replace the same one. */
  lemma ChainsDoNotFork(w: World, db: Db, a: nat, b: nat)
    requires Inv(w, db) && a in db.paths && b in db.paths
    requires db.paths[a].supersedes.Some? && db.paths[a].supersedes == db.paths[b].supersedes
    ensures a == b
  {
    assert LineageSound(db.paths, db.paths[a]) && LineageSound(db.paths, db.paths[b]);
  }

  // ------------------------------------------------------------------------------------------
  // Approvals
  // ------------------------------------------------------------------------------------------

  lemma ApprovalsOf(w: World, db: Db, id: nat)
    requires HistoryInv(w, db) && id in db.paths
    ensures db.paths[id].status in {OnAir, Suspended} ==> ApprovalCount(db.decisions, id) == 1
    ensures db.paths[id].status in {Draft, Planned, PendingApproval, Cancelled} ==> ApprovalCount(db.decisions, id) == 0
    ensures forall d :: d in db.decisions && d.path == id ==>
              DecisionSound(d) && (w.requireSeparateApprover ==> db.paths[id].createdBy != Some(d.decidedBy))
  {
    assert ApprovalsMatch(db.paths[id].status, ApprovalCount(db.decisions, id));
  }

  /** Whatever is on air or suspended has exactly one approval of its own, and with separate approvers
      required nobody who decided on an allocation is its author. */
  lemma OnAirMeansApprovedOnceBySomebodyElse(w: World, db: Db, commands: seq<Command>, id: nat)
    requires Initial(db) && forall c :: c in commands ==> PermittedCommand(c)
    requires id in Run(w, db, commands).paths
    ensures var after := Run(w, db, commands); var path := after.paths[id];
            && (path.status in {OnAir, Suspended} ==> ApprovalCount(after.decisions, id) == 1)
            && (path.status in {Draft, Planned, PendingApproval, Cancelled} ==> ApprovalCount(after.decisions, id) == 0)
            && (forall d :: d in after.decisions && d.path == id ==>
                  DecisionSound(d) && (w.requireSeparateApprover ==> path.createdBy != Some(d.decidedBy)))
  {
    InitialTable(w, db);
    RunKeeps(w, db, commands);
    ApprovalsOf(w, Run(w, db, commands), id);
  }
}
