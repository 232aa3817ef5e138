/**
 * Decisions and revisions: what every operation preserves about who approved what, and about the
 * chain each allocation belongs to.
 */
module HistoryInvariant {
  import opened Wrappers
  import opened Periods
  import opened MasterData
  import opened Reservations
  import opened PathServices
  import opened Lifecycle

  // ------------------------------------------------------------------------------------------
  // Decisions
  // ------------------------------------------------------------------------------------------

  function ApprovalCount(decisions: seq<Decision>, id: nat): nat {
    if decisions == [] then 0
    else (if decisions[0].path == id && decisions[0].verdict == Approved then 1 else 0) + ApprovalCount(decisions[1..], id)
  }

  lemma {:induction false} ApprovalCountAppend(decisions: seq<Decision>, d: Decision, id: nat)
    ensures ApprovalCount(decisions + [d], id) ==
            ApprovalCount(decisions, id) + (if d.path == id && d.verdict == Approved then 1 else 0)
  {
    if decisions == [] {
      assert decisions + [d] == [d];
    } else {
      ApprovalCountAppend(decisions[1..], d, id);
      assert (decisions + [d])[1..] == decisions[1..] + [d];
    }
  }

  lemma {:induction false} NoDecisionsNoApprovals(decisions: seq<Decision>, id: nat)
    requires forall d :: d in decisions ==> d.path != id
    ensures ApprovalCount(decisions, id) == 0
  {
    if decisions != [] {
      assert decisions == [decisions[0]] + decisions[1..];
      NoDecisionsNoApprovals(decisions[1..], id);
    }
  }

  /** How many approvals a revision of this status has of its own. */
  predicate ApprovalsMatch(status: Status, approvals: nat) {
    match status
    case OnAir | Suspended => approvals == 1
    case Retired => approvals <= 1
    case _ => approvals == 0
  }

  /** `ck_approval_decision_transition`. */
  predicate DecisionSound(d: Decision) {
    d.from == PendingApproval && d.to == if d.verdict == Approved then OnAir else Planned
  }

  predicate DecidedBySomebodyElse(w: World, p: Path, d: Decision) {
    w.requireSeparateApprover ==> p.createdBy != Some(d.decidedBy)
  }

  // ------------------------------------------------------------------------------------------
  // Revisions
  // ------------------------------------------------------------------------------------------

  /** Revision 1 supersedes nothing; every later one supersedes the retired revision before it. */
  predicate LineageSound(paths: map<nat, Path>, p: Path) {
    match p.supersedes
    case None => p.revision == 1
    case Some(q) =>
      && q in paths
      && paths[q].group == p.group && paths[q].revision + 1 == p.revision
      && paths[q].revision >= 1
      && paths[q].status == Retired
  }

  ghost predicate ApprovalsSound(db: Db) {
    forall id :: id in db.paths ==> ApprovalsMatch(db.paths[id].status, ApprovalCount(db.decisions, id))
  }

  ghost predicate DecisionsSound(w: World, db: Db) {
    forall d :: d in db.decisions ==>
      d.path in db.paths && DecisionSound(d) && DecidedBySomebodyElse(w, db.paths[d.path], d)
  }

  ghost predicate LineagesSound(paths: map<nat, Path>) {
    forall id {:trigger LineageSound(paths, paths[id])} :: id in paths ==> LineageSound(paths, paths[id])
  }

  ghost predicate RevisionsDistinct(paths: map<nat, Path>) {
    forall a, b :: a in paths && b in paths && a != b ==>
      paths[a].group != paths[b].group || paths[a].revision != paths[b].revision
  }

  ghost predicate HistoryInv(w: World, db: Db) {
    && (forall id :: id in db.paths ==> id < db.nextId && db.paths[id].group < db.nextId)
    && ApprovalsSound(db)
    && DecisionsSound(w, db)
    && LineagesSound(db.paths)
    && RevisionsDistinct(db.paths)
  }

  predicate SameIdentity(a: Path, b: Path) {
    && a.satnet == b.satnet && a.beam == b.beam
    && a.group == b.group && a.revision == b.revision && a.supersedes == b.supersedes
    && a.createdBy == b.createdBy
  }

  lemma ChangeKeepsLineages(before: map<nat, Path>, after: map<nat, Path>, id: nat)
    requires LineagesSound(before) && id in before && id in after && after == before[id := after[id]]
    requires SameIdentity(before[id], after[id])
    requires before[id].status == Retired ==> after[id].status == Retired
    ensures LineagesSound(after)
  {
    forall k | k in after
      ensures LineageSound(after, after[k])
    {
      assert LineageSound(before, before[k]);
    }
  }

  lemma ChangeKeepsRevisionsDistinct(before: map<nat, Path>, after: map<nat, Path>, id: nat)
    requires RevisionsDistinct(before) && id in before && id in after && after == before[id := after[id]]
    requires SameIdentity(before[id], after[id])
    ensures RevisionsDistinct(after)
  {
  }

  /** A record changes under its own identity, and its own decisions change with it. */
  lemma ChangeKeepsHistory(w: World, before: Db, after: Db, id: nat)
    requires HistoryInv(w, before) && id in before.paths && id in after.paths
    requires after.paths == before.paths[id := after.paths[id]] && after.nextId == before.nextId
    requires SameIdentity(before.paths[id], after.paths[id])
    requires before.paths[id].status == Retired ==> after.paths[id].status == Retired
    requires ApprovalsMatch(after.paths[id].status, ApprovalCount(after.decisions, id))
    requires forall other :: other != id ==> ApprovalCount(after.decisions, other) == ApprovalCount(before.decisions, other)
    requires DecisionsSound(w, after)
    ensures HistoryInv(w, after)
  {
    ChangeKeepsLineages(before.paths, after.paths, id);
    ChangeKeepsRevisionsDistinct(before.paths, after.paths, id);
    assert ApprovalsSound(after);
  }

  lemma PlainMovesKeepApprovals(status: Status, move: Move, approvals: nat)
    requires move in AvailableFrom(status) && !move.IsApproval() && ApprovalsMatch(status, approvals)
    ensures ApprovalsMatch(move.to, approvals)
  {
  }

  /** The graph, read as a relation: there is at most one move between two statuses, `find` reaches it by
      its action, what is cancelled or retired has no way out, and what is on air got there by approval
      or by resuming. */
  lemma EdgesOfTheGraph(from: Status, move: Move)
    ensures move in AvailableFrom(from) ==>
              && Find(from, move.action) == Some(move)
              && (forall other :: other in AvailableFrom(from) && other.to == move.to ==> other == move)
              && from !in {Cancelled, Retired, ImportReview}
              && (move.to == OnAir ==> (from == PendingApproval && move.action == Approve) || (from == Suspended && move.action == Resume))
              && (move.to == Retired ==> from in {OnAir, Suspended})
              && (move.to == Cancelled ==> from in {Draft, Planned})
              && (move.IsApproval() <==> from == PendingApproval)
  {
  }

  /** And every other status is at most two moves from the end. */
  lemma EveryOpenStatusHasAWayOut(from: Status) returns (way: Move, last: Move)
    requires from !in {Cancelled, Retired, ImportReview}
    ensures way in AvailableFrom(from)
    ensures way.to in {Cancelled, Retired} || (last in AvailableFrom(way.to) && last.to in {Cancelled, Retired})
  {
    match from {
      case Draft | Planned => way := Move(Cancel, Cancelled, DropSpectrum);
      case PendingApproval => way := Move(Reject, Planned, MoveSpectrum);
      case OnAir | Suspended => way := Move(Retire, Retired, DropSpectrum);
    }
    last := Move(Cancel, Cancelled, DropSpectrum);
  }

  lemma {:induction false} FindInIsMember(moves: seq<Move>, action: Action)
    ensures FindIn(moves, action).Some? ==>
              FindIn(moves, action).value in moves && FindIn(moves, action).value.action == action
  {
    if moves != [] {
      FindInIsMember(moves[1..], action);
    }
  }

  lemma ApplyMoveKeepsIdentity(w: World, db: Db, id: nat, move: Move, after: Db)
    requires id in db.paths && ApplyMove(w, db, id, move) == Ok(after)
    ensures after.paths == db.paths[id := after.paths[id]] && after.nextId == db.nextId && after.decisions == db.decisions
    ensures id in after.paths && SameIdentity(db.paths[id], after.paths[id]) && after.paths[id].status == move.to
    ensures after.paths[id].recordVersion == db.paths[id].recordVersion + 1
  {
  }

  lemma PlainMoveKeepsHistory(w: World, db: Db, id: nat, move: Move, after: Db)
    requires HistoryInv(w, db) && id in db.paths
    requires move in AvailableFrom(db.paths[id].status) && !move.IsApproval()
    requires ApplyMove(w, db, id, move) == Ok(after)
    ensures HistoryInv(w, after)
  {
    ApplyMoveKeepsIdentity(w, db, id, move, after);
    PlainMovesKeepApprovals(db.paths[id].status, move, ApprovalCount(db.decisions, id));
    ChangeKeepsHistory(w, db, after, id);
  }

  /** What a recorded decision consists of: a move out of `PENDING_APPROVAL`, and one row saying so. */
  lemma DecisionRecordsItsMove(w: World, db: Db, caller: Caller, id: nat, verdict: Verdict, expected: Option<nat>, after: Db)
    requires DecidePath(w, db, caller, id, verdict, expected) == Ok(after)
    ensures id in db.paths && db.paths[id].status == PendingApproval
    ensures caller.user.Some? && !SelfApproval(w, db.paths[id], caller.user.value)
    ensures id in after.paths && after.paths == db.paths[id := after.paths[id]] && after.nextId == db.nextId
    ensures SameIdentity(db.paths[id], after.paths[id])
    ensures after.paths[id].recordVersion == db.paths[id].recordVersion + 1
    ensures after.paths[id].status == if verdict == Approved then OnAir else Planned
    ensures after.decisions == db.decisions + [Decision(id, verdict, caller.user.value, PendingApproval, after.paths[id].status)]
    ensures ApplyMove(w, db, id, Find(PendingApproval, ActionOf(verdict)).value) == Ok(after.(decisions := db.decisions))
  {
    var move := Find(PendingApproval, ActionOf(verdict)).value;
    var moved := ApplyMove(w, db, id, move).value;
    ApplyMoveKeepsIdentity(w, db, id, move, moved);
  }

  /** A decision and the move it makes, together. */
  lemma DecisionKeepsHistory(w: World, db: Db, after: Db, id: nat, d: Decision)
    requires HistoryInv(w, db) && id in db.paths && db.paths[id].status == PendingApproval
    requires id in after.paths && after.paths == db.paths[id := after.paths[id]] && after.nextId == db.nextId
    requires SameIdentity(db.paths[id], after.paths[id])
    requires after.decisions == db.decisions + [d] && d.path == id
    requires DecisionSound(d) && after.paths[id].status == d.to
    requires DecidedBySomebodyElse(w, db.paths[id], d)
    ensures HistoryInv(w, after)
  {
    forall k
      ensures ApprovalCount(after.decisions, k) ==
              ApprovalCount(db.decisions, k) + (if k == id && d.verdict == Approved then 1 else 0)
    {
      ApprovalCountAppend(db.decisions, d, k);
    }
    assert DecisionsSound(w, after);
    ChangeKeepsHistory(w, db, after, id);
  }

  lemma RewriteKeepsIdentity(w: World, db: Db, now: int, id: nat, v: Values, after: Db)
    requires id in db.paths && Rewrite(w, db, now, id, v) == Ok(after)
    ensures after.paths == db.paths[id := after.paths[id]] && after.nextId == db.nextId && after.decisions == db.decisions
    ensures id in after.paths && SameIdentity(db.paths[id], after.paths[id])
    ensures after.paths[id].status == db.paths[id].status
    ensures after.paths[id].recordVersion == db.paths[id].recordVersion + 1
  {
  }

  lemma RewriteKeepsHistory(w: World, db: Db, now: int, id: nat, v: Values, after: Db)
    requires HistoryInv(w, db) && id in db.paths
    requires Rewrite(w, db, now, id, v) == Ok(after)
    ensures HistoryInv(w, after)
  {
    RewriteKeepsIdentity(w, db, now, id, v, after);
    ChangeKeepsHistory(w, db, after, id);
  }

  lemma ClosingKeepsHistory(w: World, db: Db, id: nat, effectiveAt: int)
    requires HistoryInv(w, db) && id in db.paths && effectiveAt > db.paths[id].period.start
    ensures HistoryInv(w, Closed(db, id, effectiveAt))
  {
    ChangeKeepsHistory(w, db, Closed(db, id, effectiveAt), id);
  }

  /** What a new record is, besides its engineering. */
  lemma WriteNewAddsOneRecord(w: World, db: Db, satnet: nat, v: Values, p: Proposal, status: Status, user: Option<nat>,
                              predecessor: Option<nat>, after: Db)
    requires KnownSatnet(w, satnet) && (predecessor.Some? ==> predecessor.value in db.paths)
    requires WriteNew(w, db, satnet, v, p, status, user, predecessor) == Ok(after)
    ensures var id := db.nextId;
            && id in after.paths && after.paths == db.paths[id := after.paths[id]]
            && after.nextId == id + 1 && after.decisions == db.decisions
            && after.paths[id].status == status && after.paths[id].createdBy == user
            && MakePeriod(v.validFrom, v.validUntil) == Some(after.paths[id].period)
            && after.paths[id].inputs == v.inputs && after.paths[id].satnet == satnet
            && after.paths[id].beam == w.satnets[satnet].beam && after.paths[id].recordVersion == 1
            && !RevisionTaken(db.paths, id, after.paths[id])
            && after.paths[id].supersedes == predecessor
            && (match predecessor
                case None => after.paths[id].group == id && after.paths[id].revision == 1
                case Some(q) => after.paths[id].group == db.paths[q].group
                                && after.paths[id].revision == db.paths[q].revision + 1)
  {
  }

  lemma AddingKeepsHistory(w: World, db: Db, after: Db, id: nat)
    requires HistoryInv(w, db) && id == db.nextId
    requires id in after.paths && after.paths == db.paths[id := after.paths[id]]
    requires after.nextId == id + 1 && after.decisions == db.decisions
    requires ApprovalsMatch(after.paths[id].status, 0)
    requires !RevisionTaken(db.paths, id, after.paths[id])
    requires match after.paths[id].supersedes
             case None => after.paths[id].group == id && after.paths[id].revision == 1
             case Some(q) => q in db.paths && db.paths[q].status == Retired && after.paths[id].group == db.paths[q].group
                             && after.paths[id].revision == db.paths[q].revision + 1
    ensures HistoryInv(w, after)
  {
    NoDecisionsNoApprovals(db.decisions, id);
    AddingKeepsLineages(db.paths, after.paths, id);
    AddingKeepsRevisionsDistinct(db.paths, after.paths, id);
    assert ApprovalsSound(after);
    assert DecisionsSound(w, after);
  }

  lemma AddingKeepsLineages(before: map<nat, Path>, after: map<nat, Path>, id: nat)
    requires LineagesSound(before) && id !in before && id in after && after == before[id := after[id]]
    requires match after[id].supersedes
             case None => after[id].revision == 1
             case Some(q) => q in before && before[q].status == Retired && after[id].group == before[q].group
                             && after[id].revision == before[q].revision + 1
    ensures LineagesSound(after)
  {
    forall k | k in after
      ensures LineageSound(after, after[k])
    {
      assert k != id ==> LineageSound(before, before[k]);
      assert k == id && after[id].supersedes.Some? ==> LineageSound(before, before[after[id].supersedes.value]);
    }
  }

  lemma AddingKeepsRevisionsDistinct(before: map<nat, Path>, after: map<nat, Path>, id: nat)
    requires RevisionsDistinct(before) && id !in before && id in after && after == before[id := after[id]]
    requires !RevisionTaken(before, id, after[id])
    ensures RevisionsDistinct(after)
  {
  }
}
