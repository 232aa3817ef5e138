/**
 * What each operation on a Satnet Path does to the stored state: `satnet_paths/lifecycle.py`, the
 * writing half of `satnet_paths/services.py`, and `approvals/services.py`. Every operation is one
 * transaction, so it is either a new state or an error.
 */
module Lifecycle {
  import opened Wrappers
  import opened Periods
  import opened Bandwidth
  import opened MasterData
  import opened Reservations
  import opened PathServices

  // ------------------------------------------------------------------------------------------
  // The transition graph, as data
  // ------------------------------------------------------------------------------------------

  datatype Action = Plan | Cancel | Submit | Approve | Reject | Suspend | Resume | Retire

  datatype SpectrumMove = WriteSpectrum | MoveSpectrum | DropSpectrum

  datatype Move = Move(action: Action, to: Status, spectrum: SpectrumMove) {
    predicate IsApproval() {
      action in {Approve, Reject}
    }
  }

  function AvailableFrom(status: Status): seq<Move> {
    match status
    case Draft => [Move(Plan, Planned, WriteSpectrum), Move(Cancel, Cancelled, DropSpectrum)]
    case Planned => [Move(Submit, PendingApproval, MoveSpectrum), Move(Cancel, Cancelled, DropSpectrum)]
    case PendingApproval => [Move(Approve, OnAir, MoveSpectrum), Move(Reject, Planned, MoveSpectrum)]
    case OnAir => [Move(Suspend, Suspended, MoveSpectrum), Move(Retire, Retired, DropSpectrum)]
    case Suspended => [Move(Resume, OnAir, MoveSpectrum), Move(Retire, Retired, DropSpectrum)]
    case Cancelled => []
    case Retired => []
    case ImportReview => []
  }

  function FindIn(moves: seq<Move>, action: Action): Option<Move> {
    if moves == [] then None else if moves[0].action == action then Some(moves[0]) else FindIn(moves[1..], action)
  }

  function Find(status: Status, action: Action): Option<Move> {
    FindIn(AvailableFrom(status), action)
  }

  // ------------------------------------------------------------------------------------------
  // The stored state
  // ------------------------------------------------------------------------------------------

  datatype Verdict = Approved | Rejected

  datatype Decision = Decision(path: nat, verdict: Verdict, decidedBy: nat, from: Status, to: Status)

  /** Identifiers are handed out in order; the original draws fresh UUIDs. */
  datatype Db = Db(paths: map<nat, Path>, rows: seq<Row>, decisions: seq<Decision>, nextId: nat)

  /** Who asks, and what the permission and scope checks answer for them. */
  datatype Caller = Caller(user: Option<nat>, allowed: bool, inScope: bool)

  predicate CodeTaken(paths: map<nat, Path>, id: nat, p: Path) {
    exists other :: other in paths && other != id && paths[other].satnet == p.satnet
      && paths[other].inputs.code == p.inputs.code && paths[other].revision == p.revision
  }

  predicate RevisionTaken(paths: map<nat, Path>, id: nat, p: Path) {
    exists other :: other in paths && other != id && paths[other].group == p.group
      && paths[other].revision == p.revision
  }

  /** `full_clean` and the constraints of the path table. */
  predicate Saveable(paths: map<nat, Path>, id: nat, p: Path) {
    CheckPath(p) && !CodeTaken(paths, id, p) && !RevisionTaken(paths, id, p)
  }

  // ------------------------------------------------------------------------------------------
  // create
  // ------------------------------------------------------------------------------------------

  /** A record with nothing in it yet but its identity. */
  function EmptyRecord(w: World, id: nat, satnet: nat, v: Values, status: Status, period: TimePeriod, user: Option<nat>,
                       p: Proposal): Path
    requires KnownSatnet(w, satnet)
    requires p.canonicalAssignment.Some? && p.translatedAssignment.Some?
  {
    Path(satnet, w.satnets[satnet].beam, v.inputs, status, period, 1, id, 1, None, user, p.guards, p.symbolRate,
         p.occupiedBandwidth, 0, Stored(p.canonical, p.canonicalAssignment.value, 0),
         Stored(p.translated, p.translatedAssignment.value, 0))
  }

  /** The identity `_create` gives a record: its own group, or its predecessor's next revision. */
  function WithLineage(path: Path, predecessor: Option<nat>, paths: map<nat, Path>): Path
    requires predecessor.Some? ==> predecessor.value in paths
  {
    match predecessor
    case None => path
    case Some(before) =>
      path.(group := paths[before].group, revision := paths[before].revision + 1, supersedes := predecessor)
  }

  /** The writes of `_create`: save the record, then its rows. The rows are written under the default
      answer to whether a suspended allocation keeps its spectrum, not under the setting. */
  function SaveNew(db: Db, path: Path, p: Proposal): Result<Db, Error>
    requires p.canonicalAssignment.Some? && p.translatedAssignment.Some?
  {
    var id := db.nextId;
    if !Saveable(db.paths, id, path) then Err(ValidationError)
    else
      var saved := db.(paths := db.paths[id := path], nextId := id + 1);
      if path.status == Draft then Ok(saved)
      else match ReserveRows(db.rows, ProposedOccupancies(p), BookingOf(id, path, true))
        case Err(e) => Err(e)
        case Ok(rows) => Ok(saved.(rows := rows))
  }

  /** Everything a record must have before it can be written at all. */
  predicate Complete(v: Values, p: Proposal) {
    p.canonicalAssignment.Some? && p.translatedAssignment.Some? && MakePeriod(v.validFrom, v.validUntil).Some?
  }

  /** The record `_create` saves. */
  function NewRecord(w: World, db: Db, satnet: nat, v: Values, p: Proposal, status: Status, user: Option<nat>,
                     predecessor: Option<nat>): Path
    requires KnownSatnet(w, satnet) && Complete(v, p)
    requires predecessor.Some? ==> predecessor.value in db.paths
  {
    var period := MakePeriod(v.validFrom, v.validUntil).value;
    WithLineage(WithDerived(EmptyRecord(w, db.nextId, satnet, v, status, period, user, p), v, period, p), predecessor, db.paths)
  }

  /** `_create`. */
  function WriteNew(w: World, db: Db, satnet: nat, v: Values, p: Proposal, status: Status, user: Option<nat>,
                    predecessor: Option<nat>): Result<Db, Error>
    requires KnownSatnet(w, satnet)
    requires predecessor.Some? ==> predecessor.value in db.paths
  {
    if !Complete(v, p) then Err(ValidationError)
    else SaveNew(db, NewRecord(w, db, satnet, v, p, status, user, predecessor), p)
  }

  function CreatePath(w: World, db: Db, now: int, caller: Caller, satnet: nat, v: Values, status: Status): Result<Db, Error> {
    if !KnownSatnet(w, satnet) then Err(DoesNotExist)
    else if !caller.allowed then Err(PermissionDenied)
    else if !caller.inScope then Err(PathBlocked)
    else match Preview(w, db.rows, now, satnet, v, None)
      case Err(e) => Err(e)
      case Ok(p) =>
        if p.findings != [] && status != Draft then Err(PathBlocked)
        else WriteNew(w, db, satnet, v, p, status, caller.user, None)
  }

  // ------------------------------------------------------------------------------------------
  // edit
  // ------------------------------------------------------------------------------------------

  /** The record `rewrite` saves over an old one. */
  function ChangedRecord(path: Path, v: Values, p: Proposal): Path
    requires Complete(v, p)
  {
    WithDerived(path, v, MakePeriod(v.validFrom, v.validUntil).value, p).(recordVersion := path.recordVersion + 1)
  }

  /** The writes of `rewrite`: release, save the recomputed record, reserve again. */
  function Replace(db: Db, id: nat, v: Values, p: Proposal): Result<Db, Error>
    requires id in db.paths
  {
    var path := db.paths[id];
    if !Complete(v, p) then Err(ValidationError)
    else
      var released := Released(db.rows, id);
      var changed := ChangedRecord(path, v, p);
      if !Saveable(db.paths, id, changed) then Err(ValidationError)
      else
        var saved := db.(paths := db.paths[id := changed], rows := released);
        if path.status == Draft then Ok(saved)
        else match ReserveRows(released, OccupanciesOf(p.config, changed), BookingOf(id, changed, true))
          case Err(e) => Err(e)
          case Ok(rows) => Ok(saved.(rows := rows))
  }

  /** `rewrite`. */
  function Rewrite(w: World, db: Db, now: int, id: nat, v: Values): Result<Db, Error>
    requires id in db.paths
  {
    var path := db.paths[id];
    if !KnownSatnet(w, path.satnet) then Err(DoesNotExist)
    else match Preview(w, db.rows, now, path.satnet, v, Some(id))
      case Err(e) => Err(e)
      case Ok(p) => if p.findings != [] && path.status != Draft then Err(PathBlocked) else Replace(db, id, v, p)
  }

  function EditPath(w: World, db: Db, now: int, caller: Caller, id: nat, v: Values, expected: nat): Result<Db, Error> {
    if id !in db.paths then Err(DoesNotExist)
    else if !caller.allowed then Err(PermissionDenied)
    else if !caller.inScope then Err(TransitionRefused)
    else if db.paths[id].status !in {Draft, Planned} then Err(NotEditable)
    else if expected != db.paths[id].recordVersion then Err(StaleRecord)
    else Rewrite(w, db, now, id, v)
  }

  // ------------------------------------------------------------------------------------------
  // transition
  // ------------------------------------------------------------------------------------------

  /** `_move_spectrum` names its refusals; anything else the database says passes through. */
  function AsRefusal(e: Error): Error {
    if e in {SpectrumConflict, OutsideEntitlement} then TransitionRefused else e
  }

  /** `_apply`: the status, and in the same transaction the rows. */
  function ApplyMove(w: World, db: Db, id: nat, move: Move): Result<Db, Error>
    requires id in db.paths
  {
    var path := db.paths[id].(status := move.to, recordVersion := db.paths[id].recordVersion + 1);
    var saved := db.(paths := db.paths[id := path]);
    match move.spectrum
    case WriteSpectrum =>
      if ConfigKey(path) !in w.configs then Err(DoesNotExist)
      else (
        match ReserveRows(db.rows, OccupanciesOf(w.configs[ConfigKey(path)], path), BookingOf(id, path, w.suspendedRetains))
        case Err(e) => Err(AsRefusal(e))
        case Ok(rows) => Ok(saved.(rows := rows)))
    case MoveSpectrum => (
        match SetStatusRows(db.rows, id, path.status, ReservesSpectrum(path.status, w.suspendedRetains))
        case Err(e) => Err(AsRefusal(e))
        case Ok(rows) => Ok(saved.(rows := rows)))
    case DropSpectrum => Ok(saved.(rows := Released(db.rows, id)))
  }

  function TransitionPath(w: World, db: Db, caller: Caller, id: nat, action: Action, expected: Option<nat>,
                          onBehalfOfApproval: bool): Result<Db, Error>
  {
    if id !in db.paths then Err(DoesNotExist)
    else
      var move := Find(db.paths[id].status, action);
      if move.None? then Err(IllegalTransition)
      else if !caller.allowed then Err(PermissionDenied)
      else if !caller.inScope then Err(TransitionRefused)
      else if move.value.IsApproval() && !onBehalfOfApproval then Err(TransitionRefused)
      else if expected.Some? && expected.value != db.paths[id].recordVersion then Err(StaleRecord)
      else ApplyMove(w, db, id, move.value)
  }

  // ------------------------------------------------------------------------------------------
  // decide
  // ------------------------------------------------------------------------------------------

  function ActionOf(verdict: Verdict): Action {
    if verdict == Approved then Approve else Reject
  }

  /** `_check_separate_approver`. */
  predicate SelfApproval(w: World, path: Path, user: nat) {
    w.requireSeparateApprover && path.createdBy == Some(user)
  }

  function DecidePath(w: World, db: Db, caller: Caller, id: nat, verdict: Verdict, expected: Option<nat>): Result<Db, Error> {
    if id !in db.paths then Err(DoesNotExist)
    else if !caller.allowed then Err(PermissionDenied)
    else if caller.user.None? || db.paths[id].status != PendingApproval
         || SelfApproval(w, db.paths[id], caller.user.value) then Err(ApprovalRefused)
    else match TransitionPath(w, db, caller, id, ActionOf(verdict), expected, true)
      case Err(TransitionRefused) => Err(ApprovalRefused)
      case Err(e) => Err(e)
      case Ok(moved) =>
        var record := Decision(id, verdict, caller.user.value, db.paths[id].status, moved.paths[id].status);
        Ok(moved.(decisions := moved.decisions + [record]))
  }

  // ------------------------------------------------------------------------------------------
  // revise
  // ------------------------------------------------------------------------------------------

  /** What the operator changes; whatever is absent is carried forward from the predecessor. */
  datatype Changes = Changes(
    code: Option<string>,
    direction: Option<Direction>,
    mode: Option<InputMode>,
    value: Option<int>,
    rolloff: Option<int>,
    guardPolicy: Option<Option<GuardPolicy>>,
    centre: Option<int>,
    validUntil: Option<Option<int>>)

  function Choose<T>(change: Option<T>, carried: T): T {
    if change.Some? then change.value else carried
  }

  /** `_carried_forward` overlaid with the changes and the start of the revision. It reads the
      predecessor after its period has been closed. */
  function RevisionValues(closed: Path, c: Changes, effectiveAt: int): Values {
    var i := closed.inputs;
    Values(Inputs(Choose(c.code, i.code), Choose(c.direction, i.direction), Choose(c.mode, i.mode),
                  Choose(c.value, i.value), Choose(c.rolloff, i.rolloff), Choose(c.guardPolicy, i.guardPolicy),
                  Choose(c.centre, i.centre)),
           effectiveAt, Choose(c.validUntil, closed.period.end))
  }

  predicate Superseded(paths: map<nat, Path>, id: nat) {
    exists later :: later in paths && paths[later].supersedes == Some(id)
  }

  /** Where a successor re-enters the graph. */
  function SuccessorStatus(predecessor: Status): Status {
    if predecessor in {OnAir, PendingApproval} then PendingApproval else Planned
  }

  /** The first two statements of a revision: the old period closes and its rows go. */
  function Closed(db: Db, id: nat, effectiveAt: int): Db
    requires id in db.paths && effectiveAt > db.paths[id].period.start
  {
    var path := db.paths[id];
    var closed := path.(period := Span(path.period.start, Some(effectiveAt)), status := Retired,
                        recordVersion := path.recordVersion + 1);
    db.(paths := db.paths[id := closed], rows := Released(db.rows, id))
  }

  /** What `revise` calls a conflict met while writing the successor. */
  function AsLostRace(e: Error): Error {
    if e == SpectrumConflict then TransitionRefused else e
  }

  /** `create_revision`, as `revise` reports it. */
  function Succeed(w: World, closed: Db, now: int, user: Option<nat>, id: nat, v: Values, status: Status): Result<Db, Error>
    requires id in closed.paths && KnownSatnet(w, closed.paths[id].satnet)
  {
    var satnet := closed.paths[id].satnet;
    match Preview(w, closed.rows, now, satnet, v, Some(id))
    case Err(e) => Err(e)
    case Ok(p) =>
      if p.findings != [] then Err(PathBlocked)
      else match WriteNew(w, closed, satnet, v, p, status, user, Some(id))
        case Err(e) => Err(AsLostRace(e))
        case Ok(after) => Ok(after)
  }

  function RevisePath(w: World, db: Db, now: int, caller: Caller, id: nat, changes: Changes, effectiveAt: int,
                      expected: Option<nat>): Result<Db, Error>
  {
    if id !in db.paths then Err(DoesNotExist)
    else
      var path := db.paths[id];
      if !caller.allowed then Err(PermissionDenied)
      else if !caller.inScope then Err(TransitionRefused)
      else if expected.Some? && expected.value != path.recordVersion then Err(StaleRecord)
      else if Superseded(db.paths, id) || path.status in {Cancelled, Retired} || effectiveAt <= path.period.start
      then Err(TransitionRefused)
      else if !KnownSatnet(w, path.satnet) then Err(DoesNotExist)
      else
        var closed := Closed(db, id, effectiveAt);
        Succeed(w, closed, now, caller.user, id, RevisionValues(closed.paths[id], changes, effectiveAt),
                SuccessorStatus(path.status))
  }

  // ------------------------------------------------------------------------------------------
  // Runs
  // ------------------------------------------------------------------------------------------

  datatype Request =
    | Creating(satnet: nat, values: Values, status: Status)
    | Editing(path: nat, values: Values, expected: nat)
    | Moving(path: nat, action: Action, expectedVersion: Option<nat>)
    | Deciding(path: nat, verdict: Verdict, expectedVersion: Option<nat>)
    | Revising(path: nat, changes: Changes, effectiveAt: int, expectedVersion: Option<nat>)

  /** One request, by one caller, at one moment. */
  datatype Command = Command(caller: Caller, now: int, request: Request)

  function Attempt(w: World, db: Db, c: Command): Result<Db, Error> {
    match c.request
    case Creating(satnet, values, status) => CreatePath(w, db, c.now, c.caller, satnet, values, status)
    case Editing(path, values, expected) => EditPath(w, db, c.now, c.caller, path, values, expected)
    case Moving(path, action, expected) => TransitionPath(w, db, c.caller, path, action, expected, false)
    case Deciding(path, verdict, expected) => DecidePath(w, db, c.caller, path, verdict, expected)
    case Revising(path, changes, at, expected) => RevisePath(w, db, c.now, c.caller, path, changes, at, expected)
  }

  /** A refused request rolls back to the state it found. */
  function Step(w: World, db: Db, c: Command): Db {
    match Attempt(w, db, c)
    case Ok(after) => after
    case Err(_) => db
  }

  function Run(w: World, db: Db, commands: seq<Command>): Db
    decreases |commands|
  {
    if commands == [] then db else Run(w, Step(w, db, commands[0]), commands[1..])
  }
}
