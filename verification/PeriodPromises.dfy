/**
 * What an accepted request promises about periods: against the parents of the allocation, and
 * between one revision and the next.
 */
module PeriodPromises {
  import opened Wrappers
  import opened Periods
  import opened MasterData
  import opened Reservations
  import opened PathServices
  import opened Lifecycle
  import opened RowAccounting
  import opened TableInvariant
  import opened HistoryInvariant
  import opened AllocationSafety
  import opened AllocationHistory
  import opened Previews

  // ------------------------------------------------------------------------------------------
  // Against the parents
  // ------------------------------------------------------------------------------------------

  /** The whole period lies inside the Satnet's and the Beam's. */
  predicate InsideParents(w: World, p: Path)
    requires KnownSatnet(w, p.satnet)
  {
    && w.satnets[p.satnet].period.Contains(p.period)
    && w.beams[w.satnets[p.satnet].beam].period.Contains(p.period)
  }

  lemma CreatedInsideParents(w: World, db: Db, now: int, caller: Caller, satnet: nat, v: Values, status: Status, after: Db)
    requires CreatePath(w, db, now, caller, satnet, v, status) == Ok(after) && status != Draft
    ensures db.nextId in after.paths && after.paths[db.nextId].satnet == satnet
    ensures InsideParents(w, after.paths[db.nextId])
  {
    var p := Preview(w, db.rows, now, satnet, v, None).value;
    CleanProposalFacts(w, db.rows, now, satnet, v, None, p);
    WriteNewAddsOneRecord(w, db, satnet, v, p, status, caller.user, None, after);
  }

  lemma EditedInsideParents(w: World, db: Db, now: int, caller: Caller, id: nat, v: Values, expected: nat, after: Db)
    requires EditPath(w, db, now, caller, id, v, expected) == Ok(after) && db.paths[id].status != Draft
    ensures id in after.paths && after.paths[id].satnet == db.paths[id].satnet
    ensures InsideParents(w, after.paths[id])
  {
    var p := Preview(w, db.rows, now, db.paths[id].satnet, v, Some(id)).value;
    CleanProposalFacts(w, db.rows, now, db.paths[id].satnet, v, Some(id), p);
  }

  lemma RevisedInsideParents(w: World, db: Db, now: int, caller: Caller, id: nat, changes: Changes, effectiveAt: int,
                             expected: Option<nat>, after: Db)
    requires RevisePath(w, db, now, caller, id, changes, effectiveAt, expected) == Ok(after)
    ensures id in db.paths && db.nextId in after.paths && after.paths[db.nextId].satnet == db.paths[id].satnet
    ensures KnownSatnet(w, db.paths[id].satnet) && InsideParents(w, after.paths[db.nextId])
  {
    var p := RevisionClosesThenOpens(w, db, now, caller, id, changes, effectiveAt, expected, after);
    var closed := Closed(db, id, effectiveAt);
    var v := RevisionValues(closed.paths[id], changes, effectiveAt);
    CleanProposalFacts(w, closed.rows, now, db.paths[id].satnet, v, Some(id), p);
    WriteNewAddsOneRecord(w, closed, db.paths[id].satnet, v, p, SuccessorStatus(db.paths[id].status), caller.user, Some(id), after);
  }

  /** The three ways a period enters the table keep it inside the Satnet and the Beam. */
  lemma AcceptedPeriodsAreInsideTheirParents(w: World, db: Db, c: Command, after: Db) returns (written: nat)
    requires Attempt(w, db, c) == Ok(after)
    requires match c.request
             case Creating(_, _, status) => status != Draft
             case Editing(id, _, _) => id in db.paths && db.paths[id].status != Draft
             case Revising(_, _, _, _) => true
             case _ => false
    ensures written in after.paths && KnownSatnet(w, after.paths[written].satnet) && InsideParents(w, after.paths[written])
    ensures written == if c.request.Editing? then c.request.path else db.nextId
  {
    match c.request {
      case Creating(satnet, v, status) =>
        CreatedInsideParents(w, db, c.now, c.caller, satnet, v, status, after);
        written := db.nextId;
      case Editing(id, v, expected) =>
        EditedInsideParents(w, db, c.now, c.caller, id, v, expected, after);
        written := id;
      case Revising(id, changes, at, expected) =>
        RevisedInsideParents(w, db, c.now, c.caller, id, changes, at, expected, after);
        written := db.nextId;
    }
  }

  /** Planning a draft asks only the grants and the table. Whatever periods the Satnets and Beams have,
      the answer is the same. */
  lemma PlanningAsksNoParent(w: World, other: World, db: Db, caller: Caller, id: nat, expected: Option<nat>)
    requires w.configs == other.configs && w.suspendedRetains == other.suspendedRetains
    ensures TransitionPath(w, db, caller, id, Plan, expected, false) ==
            TransitionPath(other, db, caller, id, Plan, expected, false)
  {
  }

  /** The same world, but with the Satnet opening only after this allocation starts. */
  function OpeningLate(w: World, p: Path): World
    requires p.satnet in w.satnets
  {
    w.(satnets := w.satnets[p.satnet := w.satnets[p.satnet].(period := Span(p.period.start + 1, None))])
  }

  lemma PlanningKeepsThePeriod(w: World, db: Db, caller: Caller, id: nat, expected: Option<nat>, after: Db)
    requires TransitionPath(w, db, caller, id, Plan, expected, false) == Ok(after)
    ensures id in db.paths && id in after.paths && after.paths[id].status == Planned
    ensures after.paths[id].satnet == db.paths[id].satnet && after.paths[id].period == db.paths[id].period
  {
    var move := TransitionIsOneMove(w, db, caller, id, Plan, expected, false, after);
    ApplyMoveKeepsIdentity(w, db, id, move, after);
  }

  /** So a planned allocation is inside its parents exactly when its draft was; and whatever plan is
      accepted, it is accepted just the same where the Satnet has not opened yet. */
  lemma PlannedIsInsideIffItsDraftWas(w: World, db: Db, caller: Caller, id: nat, expected: Option<nat>, after: Db)
    requires Inv(w, db) && TransitionPath(w, db, caller, id, Plan, expected, false) == Ok(after)
    ensures id in db.paths && id in after.paths && after.paths[id].status == Planned
    ensures KnownSatnet(w, db.paths[id].satnet) && after.paths[id].satnet == db.paths[id].satnet
    ensures InsideParents(w, after.paths[id]) <==> InsideParents(w, db.paths[id])
    ensures var other := OpeningLate(w, db.paths[id]);
            && Inv(other, db) && TransitionPath(other, db, caller, id, Plan, expected, false) == Ok(after)
            && KnownSatnet(other, after.paths[id].satnet) && !InsideParents(other, after.paths[id])
  {
    PlanningKeepsThePeriod(w, db, caller, id, expected, after);
    assert RecordSound(w, db.paths[id]);
    var other := OpeningLate(w, db.paths[id]);
    PlanningAsksNoParent(w, other, db, caller, id, expected);
    ParentsDoNotMatterToTheInvariant(w, other, db);
  }

  lemma ParentsDoNotMatterToTheInvariant(w: World, other: World, db: Db)
    requires Inv(w, db)
    requires other.configs == w.configs && other.beams == w.beams
    requires other.suspendedRetains == w.suspendedRetains && other.requireSeparateApprover == w.requireSeparateApprover
    requires other.satnets.Keys == w.satnets.Keys && forall s :: s in w.satnets ==> other.satnets[s].beam == w.satnets[s].beam
    ensures Inv(other, db)
  {
    forall id | id in db.paths
      ensures RecordSound(other, db.paths[id]) && ExpectedRows(other, id, db.paths[id]) == ExpectedRows(w, id, db.paths[id])
    {
      assert RecordSound(w, db.paths[id]);
    }
    forall d | d in db.decisions
      ensures d.path in db.paths && DecisionSound(d) && DecidedBySomebodyElse(other, db.paths[d.path], d)
    {
      assert DecisionsSound(w, db);
    }
  }

  // ------------------------------------------------------------------------------------------
  // Over a whole run
  // ------------------------------------------------------------------------------------------

  predicate Inside(w: World, p: Path) {
    KnownSatnet(w, p.satnet) && InsideParents(w, p)
  }

  /** Whatever has rows lies inside its Satnet and its Beam. */
  ghost predicate HoldersInside(w: World, paths: map<nat, Path>) {
    forall id :: id in paths && HoldsRows(paths[id].status) ==> Inside(w, paths[id])
  }

  /** A plan, if it is accepted, is of a draft that was inside. */
  predicate PlansInside(w: World, db: Db, c: Command) {
    c.request.Moving? && c.request.action == Plan && Attempt(w, db, c).Ok? && c.request.path in db.paths ==>
      Inside(w, db.paths[c.request.path])
  }

  lemma OneHolderChanges(w: World, before: map<nat, Path>, after: map<nat, Path>, id: nat)
    requires HoldersInside(w, before) && id in after && after == before[id := after[id]]
    ensures HoldersInside(w, after) <==> (HoldsRows(after[id].status) ==> Inside(w, after[id]))
  {
  }

  lemma CreatingKeepsInside(w: World, db: Db, now: int, caller: Caller, satnet: nat, v: Values, status: Status, after: Db)
    requires CreatePath(w, db, now, caller, satnet, v, status) == Ok(after) && HoldersInside(w, db.paths)
    ensures HoldersInside(w, after.paths)
  {
    var p := Preview(w, db.rows, now, satnet, v, None).value;
    WriteNewAddsOneRecord(w, db, satnet, v, p, status, caller.user, None, after);
    if status != Draft {
      CreatedInsideParents(w, db, now, caller, satnet, v, status, after);
    }
    OneHolderChanges(w, db.paths, after.paths, db.nextId);
  }

  lemma EditingKeepsInside(w: World, db: Db, now: int, caller: Caller, id: nat, v: Values, expected: nat, after: Db)
    requires EditPath(w, db, now, caller, id, v, expected) == Ok(after) && HoldersInside(w, db.paths)
    ensures HoldersInside(w, after.paths)
  {
    RewriteKeepsIdentity(w, db, now, id, v, after);
    if db.paths[id].status != Draft {
      EditedInsideParents(w, db, now, caller, id, v, expected, after);
    }
    OneHolderChanges(w, db.paths, after.paths, id);
  }

  lemma MoveKeepsPeriod(w: World, db: Db, id: nat, move: Move, after: Db)
    requires id in db.paths && ApplyMove(w, db, id, move) == Ok(after)
    ensures id in after.paths && after.paths == db.paths[id := after.paths[id]] && after.paths[id].status == move.to
    ensures Inside(w, after.paths[id]) <==> Inside(w, db.paths[id])
  {
  }

  /** Only planning starts to hold rows, so only planning can bring something from outside. */
  lemma MovingKeepsInsideIff(w: World, db: Db, id: nat, move: Move, after: Db)
    requires HoldersInside(w, db.paths) && id in db.paths && move in AvailableFrom(db.paths[id].status)
    requires ApplyMove(w, db, id, move) == Ok(after)
    ensures HoldersInside(w, after.paths) <==> (move.action == Plan ==> Inside(w, db.paths[id]))
  {
    MoveKeepsPeriod(w, db, id, move, after);
    MovesMatchStatuses(db.paths[id].status, move);
    OneHolderChanges(w, db.paths, after.paths, id);
  }

  lemma DecidingKeepsInside(w: World, db: Db, caller: Caller, id: nat, verdict: Verdict, expected: Option<nat>, after: Db)
    requires DecidePath(w, db, caller, id, verdict, expected) == Ok(after) && HoldersInside(w, db.paths)
    ensures HoldersInside(w, after.paths)
  {
    DecisionRecordsItsMove(w, db, caller, id, verdict, expected, after);
    FindInIsMember(AvailableFrom(PendingApproval), ActionOf(verdict));
    MovingKeepsInsideIff(w, db, id, Find(PendingApproval, ActionOf(verdict)).value, after.(decisions := db.decisions));
  }

  lemma RevisingKeepsInside(w: World, db: Db, now: int, caller: Caller, id: nat, changes: Changes, effectiveAt: int,
                            expected: Option<nat>, after: Db)
    requires RevisePath(w, db, now, caller, id, changes, effectiveAt, expected) == Ok(after) && HoldersInside(w, db.paths)
    ensures HoldersInside(w, after.paths)
  {
    RevisedInsideParents(w, db, now, caller, id, changes, effectiveAt, expected, after);
    var p := RevisionClosesThenOpens(w, db, now, caller, id, changes, effectiveAt, expected, after);
    var closed := Closed(db, id, effectiveAt);
    WriteNewAddsOneRecord(w, closed, db.paths[id].satnet, RevisionValues(closed.paths[id], changes, effectiveAt), p,
                          SuccessorStatus(db.paths[id].status), caller.user, Some(id), after);
    OneHolderChanges(w, db.paths, closed.paths, id);
    OneHolderChanges(w, closed.paths, after.paths, db.nextId);
  }

  lemma StepKeepsInsideIff(w: World, db: Db, c: Command)
    requires HoldersInside(w, db.paths)
    ensures HoldersInside(w, Step(w, db, c).paths) <==> PlansInside(w, db, c)
  {
    if Attempt(w, db, c).Ok? {
      var after := Attempt(w, db, c).value;
      match c.request {
        case Creating(satnet, v, status) => CreatingKeepsInside(w, db, c.now, c.caller, satnet, v, status, after);
        case Editing(id, v, expected) => EditingKeepsInside(w, db, c.now, c.caller, id, v, expected, after);
        case Moving(id, action, expected) =>
          var move := TransitionIsOneMove(w, db, c.caller, id, action, expected, false, after);
          MovingKeepsInsideIff(w, db, id, move, after);
        case Deciding(id, verdict, expected) => DecidingKeepsInside(w, db, c.caller, id, verdict, expected, after);
        case Revising(id, changes, at, expected) =>
          RevisingKeepsInside(w, db, c.now, c.caller, id, changes, at, expected, after);
      }
    }
  }

  ghost predicate AlwaysInside(w: World, db: Db, commands: seq<Command>)
    decreases |commands|
  {
    HoldersInside(w, db.paths) && (commands != [] ==> AlwaysInside(w, Step(w, db, commands[0]), commands[1..]))
  }

  predicate AllPlansInside(w: World, db: Db, commands: seq<Command>)
    decreases |commands|
  {
    commands != [] ==> PlansInside(w, db, commands[0]) && AllPlansInside(w, Step(w, db, commands[0]), commands[1..])
  }

  /** In every state of a run whatever has rows lies inside its Satnet and its Beam, exactly when every
      plan the run accepts is of a draft that does. */
  lemma {:induction false} RunStaysInsideIff(w: World, db: Db, commands: seq<Command>)
    requires HoldersInside(w, db.paths)
    ensures AlwaysInside(w, db, commands) <==> AllPlansInside(w, db, commands)
    decreases |commands|
  {
    if commands != [] {
      StepKeepsInsideIff(w, db, commands[0]);
      if PlansInside(w, db, commands[0]) {
        RunStaysInsideIff(w, Step(w, db, commands[0]), commands[1..]);
      }
    }
  }

  // ------------------------------------------------------------------------------------------
  // Between one revision and the next
  // ------------------------------------------------------------------------------------------

  /** The two records an accepted revision leaves. */
  ghost predicate Succeeds(before: Path, predecessor: Path, successor: Path, id: nat, effectiveAt: int) {
    && predecessor.status == Retired
    && predecessor.period == Span(before.period.start, Some(effectiveAt))
    && successor.period.start == effectiveAt && !predecessor.period.Overlaps(successor.period)
    && successor.supersedes == Some(id) && successor.group == before.group
    && successor.revision == before.revision + 1
    && successor.status == if before.status in {OnAir, PendingApproval} then PendingApproval else Planned
  }

  lemma RevisionRecords(w: World, db: Db, now: int, caller: Caller, id: nat, changes: Changes, effectiveAt: int,
                        expected: Option<nat>, after: Db)
    requires id in db.paths && id < db.nextId
    requires RevisePath(w, db, now, caller, id, changes, effectiveAt, expected) == Ok(after)
    ensures id in after.paths && db.nextId in after.paths
    ensures Succeeds(db.paths[id], after.paths[id], after.paths[db.nextId], id, effectiveAt)
  {
    var p := RevisionClosesThenOpens(w, db, now, caller, id, changes, effectiveAt, expected, after);
    var closed := Closed(db, id, effectiveAt);
    WriteNewAddsOneRecord(w, closed, db.paths[id].satnet, RevisionValues(closed.paths[id], changes, effectiveAt), p,
                          SuccessorStatus(db.paths[id].status), caller.user, Some(id), after);
  }

  lemma RevisionHasRows(w: World, db: Db, now: int, caller: Caller, id: nat, changes: Changes, effectiveAt: int,
                        expected: Option<nat>, after: Db)
    requires Exclusive(db.rows)
    requires RevisePath(w, db, now, caller, id, changes, effectiveAt, expected) == Ok(after)
    ensures RowsOf(after.rows, Some(db.nextId)) != []
  {
    var p := RevisionClosesThenOpens(w, db, now, caller, id, changes, effectiveAt, expected, after);
    var closed := Closed(db, id, effectiveAt);
    var v := RevisionValues(closed.paths[id], changes, effectiveAt);
    var satnet, status := db.paths[id].satnet, SuccessorStatus(db.paths[id].status);
    ReleaseKeepsExclusive(db.rows, id);
    CleanProposalIsMapped(w, closed.rows, now, satnet, v, Some(id), p);
    WrittenProposalHasRows(w, closed, satnet, v, p, status, caller.user, Some(id), after);
  }

  /** What an accepted revision leaves: the old record retired and without rows, ending at the moment
      the new one begins; the new one holding its own rows and with no approval inherited. */
  lemma RevisionMeetsItsPredecessor(w: World, db: Db, now: int, caller: Caller, id: nat, changes: Changes, effectiveAt: int,
                                    expected: Option<nat>, after: Db)
    requires Inv(w, db)
    requires RevisePath(w, db, now, caller, id, changes, effectiveAt, expected) == Ok(after)
    ensures id in db.paths && id in after.paths && db.nextId in after.paths && db.nextId != id
    ensures Succeeds(db.paths[id], after.paths[id], after.paths[db.nextId], id, effectiveAt)
    ensures RowsOf(after.rows, Some(id)) == []
    ensures RowsOf(after.rows, Some(db.nextId)) == ExpectedRows(w, db.nextId, after.paths[db.nextId]) != []
    ensures ApprovalCount(after.decisions, db.nextId) == 0
  {
    ReviseKeeps(w, db, now, caller, id, changes, effectiveAt, expected, after);
    KnownRecord(w, db, id);
    RevisionRecords(w, db, now, caller, id, changes, effectiveAt, expected, after);
    RevisionHasRows(w, db, now, caller, id, changes, effectiveAt, expected, after);
    FinalRecordHoldsNothing(w, after, id);
    ApprovalsOf(w, after, db.nextId);
    ViewOf(w, after, db.nextId);
  }

  lemma KnownRecord(w: World, db: Db, id: nat)
    requires Inv(w, db) && id in db.paths
    ensures id < db.nextId && Exclusive(db.rows)
  {
  }

  lemma ViewOf(w: World, db: Db, id: nat)
    requires TableInv(w, db) && id in db.paths
    ensures RowsOf(db.rows, Some(id)) == ExpectedRows(w, id, db.paths[id])
  {
  }

  lemma CleanProposalIsMapped(w: World, rows: seq<Row>, now: int, satnet: nat, v: Values, exclude: Option<nat>, p: Proposal)
    requires KnownSatnet(w, satnet) && Preview(w, rows, now, satnet, v, exclude) == Ok(p) && p.findings == []
    ensures LegResources(p.config.resources, p.canonical.leg) != []
  {
    MappedMeansSomething(p.config, p.canonical.leg);
    CleanProposalFacts(w, rows, now, satnet, v, exclude, p);
  }

  lemma WrittenProposalHasRows(w: World, db: Db, satnet: nat, v: Values, p: Proposal, status: Status, user: Option<nat>,
                               predecessor: Option<nat>, after: Db)
    requires KnownSatnet(w, satnet) && (predecessor.Some? ==> predecessor.value in db.paths)
    requires Exclusive(db.rows) && status != Draft
    requires LegResources(p.config.resources, p.canonical.leg) != []
    requires WriteNew(w, db, satnet, v, p, status, user, predecessor) == Ok(after)
    ensures RowsOf(after.rows, Some(db.nextId)) != []
  {
    var id := db.nextId;
    var occupancies, b := ProposedOccupancies(p), BookingOf(id, after.paths[id], true);
    ReserveIsWholeSetChecking(db.rows, occupancies, b);
    ReservingAddsToOneOwner(db.rows, occupancies, b, Some(id));
    ViewOfLegIsNotEmpty(occupancies[0], occupancies[1..], b);
    assert occupancies == [occupancies[0]] + occupancies[1..];
  }

  /** `_carried_forward` promises the predecessor's own end when the caller names none. It reads the
      record after its end was overwritten, so it keeps the promise exactly when the caller names an
      end or the predecessor already ended there. */
  lemma EndIsCarriedForwardIff(db: Db, id: nat, changes: Changes, effectiveAt: int)
    requires id in db.paths && effectiveAt > db.paths[id].period.start
    ensures var v := RevisionValues(Closed(db, id, effectiveAt).paths[id], changes, effectiveAt);
            v.validUntil == Choose(changes.validUntil, db.paths[id].period.end) <==>
            changes.validUntil.Some? || db.paths[id].period.end == Some(effectiveAt)
  {
  }

  /** And then the period that results is empty: a revision that leaves the end alone is always
      refused, and one that names an end needs a later one. */
  lemma RevisingNeedsAnEnd(w: World, db: Db, now: int, caller: Caller, id: nat, changes: Changes, effectiveAt: int,
                           expected: Option<nat>)
    requires RevisePath(w, db, now, caller, id, changes, effectiveAt, expected).Ok?
    ensures changes.validUntil.Some?
    ensures changes.validUntil.value.Some? ==> changes.validUntil.value.value > effectiveAt
  {
    var after := RevisePath(w, db, now, caller, id, changes, effectiveAt, expected).value;
    var p := RevisionClosesThenOpens(w, db, now, caller, id, changes, effectiveAt, expected, after);
  }
}
