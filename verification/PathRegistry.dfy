/**
 * The services as they run: records and rows changed step by step inside a transaction, and put back
 * on the first refusal. Each method does exactly what the function of the same name in `Lifecycle`
 * says, so everything proved about those functions holds of it.
 */
module PathRegistry {
  import opened Wrappers
  import opened Ranges
  import opened Periods
  import opened Bandwidth
  import opened MasterData
  import opened Reservations
  import opened Selectors
  import opened PathServices
  import Containment
  import P = PathServices
  import opened Previews
  import L = Lifecycle
  import opened AllocationSafety

  class Registry {
    const world: World
    const table: ReservationTable
    var paths: map<nat, Path>
    var decisions: seq<L.Decision>
    var nextId: nat

    ghost function State(): L.Db
      reads this, table
    {
      L.Db(paths, table.rows, decisions, nextId)
    }

    /** What a transaction leaves: the new state, or the old one and a reason. */
    ghost predicate Outcome(result: Result<L.Db, Error>, before: L.Db, error: Option<Error>)
      reads this, table
    {
      match result
      case Ok(after) => error == None && State() == after
      case Err(e) => error == Some(e) && State() == before
    }

    constructor (world: World, reserves: seq<Row>)
      ensures this.world == world && fresh(table)
      ensures State() == L.Db(map[], reserves, [], 0)
    {
      this.world := world;
      table := new ReservationTable(reserves);
      paths := map[];
      decisions := [];
      nextId := 0;
    }

    // ----------------------------------------------------------------------------------------
    // preview
    // ----------------------------------------------------------------------------------------

    /** The walk of `_check_conflicts` over the held rows. */
    static method RivalsAmong(held: seq<Row>, proposed: FrequencyRange, requested: TimePeriod) returns (rivals: seq<Row>)
      ensures rivals == Rivals(held, proposed, requested)
    {
      rivals := [];
      assert held[0..] == held;
      for i := 0 to |held|
        invariant rivals + Rivals(held[i..], proposed, requested) == Rivals(held, proposed, requested)
      {
        assert held[i..][1..] == held[i + 1..];
        if proposed.Overlaps(held[i].alloc) && requested.Overlaps(held[i].period) {
          assert rivals + ([held[i]] + Rivals(held[i + 1..], proposed, requested)) ==
                 (rivals + [held[i]]) + Rivals(held[i + 1..], proposed, requested);
          rivals := rivals + [held[i]];
        } else {
          assert [] + Rivals(held[i + 1..], proposed, requested) == Rivals(held[i + 1..], proposed, requested);
        }
      }
      assert held[|held|..] == [];
    }

    /** `_check_conflicts`. */
    method CheckConflicts(c: DirectionConfig, side: Side, grant: Assignment, requested: TimePeriod, now: int,
                          exclude: Option<nat>) returns (findings: seq<PathFinding>)
      ensures findings == LegFindings(c, table.rows, side, grant, requested, now, exclude)
    {
      var resources := LegResources(c.resources, side.leg);
      if resources == [] {
        return [LegHasNoResource(side.leg)];
      }
      findings := [];
      if !grant.rf.Contains(side.alloc) {
        findings := findings + [OutsideGrant(side.leg)];
      }
      var rivals := RivalsAmong(ReservationsOn(table.rows, resources, now, exclude), side.alloc, requested);
      if rivals != [] {
        findings := findings + [Collides(side.leg, rivals)];
      }
    }

    /** The findings of `preview`, in the order they are added: none exactly when the parents cover the
        period and both legs are clear. */
    method Findings(satnet: Satnet, beam: Beam, c: DirectionConfig, canonical: Side, translated: Side,
                    canonicalGrant: Assignment, translatedGrant: Assignment, requested: TimePeriod, now: int,
                    exclude: Option<nat>) returns (findings: seq<PathFinding>)
      ensures findings == ProposalFindings(satnet, beam, c, table.rows, canonical, translated, canonicalGrant,
                                           translatedGrant, requested, now, exclude)
      ensures findings == [] <==>
              && CoveredByParents(satnet, beam, c, canonicalGrant, requested, canonical)
              && LegClear(c, table.rows, canonical, canonicalGrant, requested, now, exclude)
              && LegClear(c, table.rows, translated, translatedGrant, requested, now, exclude)
    {
      FindingsAreNoneIff(satnet, beam, c, table.rows, canonical, translated, canonicalGrant, translatedGrant, requested, now,
                         exclude);
      var verdict := Containment.Evaluate(satnet, beam, canonicalGrant, c, requested, c.direction, canonical.window.polarization);
      findings := AsPathFindings(verdict.findings);
      var more := CheckConflicts(c, canonical, canonicalGrant, requested, now, exclude);
      findings := findings + more;
      more := CheckConflicts(c, translated, translatedGrant, requested, now, exclude);
      findings := findings + more;
    }

    /** `preview`: compute both legs, look up their grants, then list what is wrong. */
    method Preview(now: int, satnetId: nat, v: Values, exclude: Option<nat>) returns (preview: Result<Proposal, Error>)
      requires KnownSatnet(world, satnetId)
      ensures preview == P.Preview(world, table.rows, now, satnetId, v, exclude)
    {
      var satnet := world.satnets[satnetId];
      var key := (satnet.beam, v.inputs.direction);
      if key !in world.configs {
        return Err(DoesNotExist);
      }
      var c := world.configs[key];
      var resolved := ResolveRequest(v.inputs.mode, v.inputs.value, v.inputs.rolloff);
      if resolved.None? || c.translation.constant < 0 {
        return Err(BadValue);
      }
      var (rate, bandwidth) := resolved.value;
      var guards := GuardsFor(satnet, v.inputs.guardPolicy, bandwidth);
      var placement := PlaceBothSides(rate, bandwidth, v.inputs.rolloff, v.inputs.centre, guards, c.translation, UplinkSide);
      var (canonical, translated) := SidesFor(c, placement);
      var canonicalGrant := AssignmentFor(c, canonical.window, now);
      var translatedGrant := AssignmentFor(c, translated.window, now);
      var findings: seq<PathFinding> := [NoActiveAssignment];
      if canonicalGrant.Some? && translatedGrant.Some? {
        var requested := MakePeriod(v.validFrom, v.validUntil);
        if requested.None? {
          return Err(BadValue);
        }
        findings := Findings(satnet, world.beams[satnet.beam], c, canonical, translated, canonicalGrant.value,
                             translatedGrant.value, requested.value, now, exclude);
      }
      preview := Ok(Proposal(c, canonical, translated, canonicalGrant, translatedGrant, guards, rate, bandwidth, findings));
    }

    // ----------------------------------------------------------------------------------------
    // create
    // ----------------------------------------------------------------------------------------

    method SaveNew(path: Path, p: Proposal) returns (error: Option<Error>)
      requires p.canonicalAssignment.Some? && p.translatedAssignment.Some?
      modifies this, table
      ensures Outcome(old(L.SaveNew(State(), path, p)), old(State()), error)
    {
      var id, saved := nextId, paths;
      if !L.Saveable(paths, id, path) {
        return Some(ValidationError);
      }
      paths := paths[id := path];
      nextId := id + 1;
      if path.status == Draft {
        return None;
      }
      error := table.Reserve(ProposedOccupancies(p), BookingOf(id, path, true));
      if error.Some? {
        paths, nextId := saved, id;
      }
    }

    method WriteNew(satnet: nat, v: Values, p: Proposal, status: Status, user: Option<nat>, predecessor: Option<nat>)
      returns (error: Option<Error>)
      requires KnownSatnet(world, satnet)
      requires predecessor.Some? ==> predecessor.value in paths
      modifies this, table
      ensures Outcome(old(L.WriteNew(world, State(), satnet, v, p, status, user, predecessor)), old(State()), error)
    {
      var period := MakePeriod(v.validFrom, v.validUntil);
      if p.canonicalAssignment.None? || p.translatedAssignment.None? || period.None? {
        return Some(ValidationError);
      }
      var id := nextId;
      var path := WithDerived(L.EmptyRecord(world, id, satnet, v, status, period.value, user, p), v, period.value, p);
      if predecessor.Some? {
        var before := paths[predecessor.value];
        path := path.(group := before.group, revision := before.revision + 1, supersedes := predecessor);
      }
      assert path == L.WithLineage(WithDerived(L.EmptyRecord(world, id, satnet, v, status, period.value, user, p), v,
                                               period.value, p), predecessor, paths);
      error := SaveNew(path, p);
    }

    method Create(now: int, caller: L.Caller, satnet: nat, v: Values, status: Status) returns (error: Option<Error>)
      modifies this, table
      ensures Outcome(old(L.CreatePath(world, State(), now, caller, satnet, v, status)), old(State()), error)
    {
      if !KnownSatnet(world, satnet) {
        return Some(DoesNotExist);
      }
      if !caller.allowed {
        return Some(PermissionDenied);
      }
      if !caller.inScope {
        return Some(PathBlocked);
      }
      var preview := Preview(now, satnet, v, None);
      match preview {
        case Err(e) => return Some(e);
        case Ok(p) =>
          if p.findings != [] && status != Draft {
            return Some(PathBlocked);
          }
          error := WriteNew(satnet, v, p, status, caller.user, None);
      }
    }

    // ----------------------------------------------------------------------------------------
    // edit
    // ----------------------------------------------------------------------------------------

    /** The old rows go before the new ones come. */
    method Replace(id: nat, v: Values, p: Proposal) returns (error: Option<Error>)
      requires id in paths
      modifies this, table
      ensures Outcome(old(L.Replace(State(), id, v, p)), old(State()), error)
    {
      var period := MakePeriod(v.validFrom, v.validUntil);
      if p.canonicalAssignment.None? || p.translatedAssignment.None? || period.None? {
        return Some(ValidationError);
      }
      var savedRows, savedPaths := table.rows, paths;
      table.Release(id);
      var path := WithDerived(paths[id], v, period.value, p);
      path := path.(recordVersion := path.recordVersion + 1);
      if !L.Saveable(paths, id, path) {
        table.rows := savedRows;
        return Some(ValidationError);
      }
      paths := paths[id := path];
      if path.status == Draft {
        return None;
      }
      error := table.Reserve(OccupanciesOf(p.config, path), BookingOf(id, path, true));
      if error.Some? {
        table.rows := savedRows;
        paths := savedPaths;
      }
    }

    method Rewrite(now: int, id: nat, v: Values) returns (error: Option<Error>)
      requires id in paths
      modifies this, table
      ensures Outcome(old(L.Rewrite(world, State(), now, id, v)), old(State()), error)
    {
      var path := paths[id];
      if !KnownSatnet(world, path.satnet) {
        return Some(DoesNotExist);
      }
      var preview := Preview(now, path.satnet, v, Some(id));
      if preview.Err? {
        return Some(preview.error);
      }
      var p := preview.value;
      if p.findings != [] && path.status != Draft {
        return Some(PathBlocked);
      }
      error := Replace(id, v, p);
    }

    method Edit(now: int, caller: L.Caller, id: nat, v: Values, expected: nat) returns (error: Option<Error>)
      modifies this, table
      ensures Outcome(old(L.EditPath(world, State(), now, caller, id, v, expected)), old(State()), error)
    {
      if id !in paths {
        return Some(DoesNotExist);
      }
      if !caller.allowed {
        return Some(PermissionDenied);
      }
      if !caller.inScope {
        return Some(TransitionRefused);
      }
      if paths[id].status !in {Draft, Planned} {
        return Some(NotEditable);
      }
      if expected != paths[id].recordVersion {
        return Some(StaleRecord);
      }
      error := Rewrite(now, id, v);
    }

    // ----------------------------------------------------------------------------------------
    // transition
    // ----------------------------------------------------------------------------------------

    /** `_move_spectrum`: the rows follow the status. */
    method MoveSpectrum(id: nat, path: Path, spectrum: L.SpectrumMove) returns (error: Option<Error>)
      modifies table
      ensures match spectrum
              case WriteSpectrum =>
                if ConfigKey(path) !in world.configs then error == Some(DoesNotExist) && table.rows == old(table.rows)
                else (
                  match ReserveRows(old(table.rows), OccupanciesOf(world.configs[ConfigKey(path)], path),
                                    BookingOf(id, path, world.suspendedRetains))
                  case Ok(rows) => error == None && table.rows == rows
                  case Err(e) => error == Some(L.AsRefusal(e)) && table.rows == old(table.rows))
              case MoveSpectrum => (
                  match SetStatusRows(old(table.rows), id, path.status, ReservesSpectrum(path.status, world.suspendedRetains))
                  case Ok(rows) => error == None && table.rows == rows
                  case Err(e) => error == Some(L.AsRefusal(e)) && table.rows == old(table.rows))
              case DropSpectrum => error == None && table.rows == Released(old(table.rows), id)
    {
      error := None;
      match spectrum {
        case WriteSpectrum =>
          if ConfigKey(path) !in world.configs {
            return Some(DoesNotExist);
          }
          error := table.Reserve(OccupanciesOf(world.configs[ConfigKey(path)], path),
                                 BookingOf(id, path, world.suspendedRetains));
        case MoveSpectrum =>
          error := table.SetStatus(id, path.status, ReservesSpectrum(path.status, world.suspendedRetains));
        case DropSpectrum =>
          table.Release(id);
      }
      if error.Some? {
        error := Some(L.AsRefusal(error.value));
      }
    }

    method ApplyMove(id: nat, move: L.Move) returns (error: Option<Error>)
      requires id in paths
      modifies this, table
      ensures Outcome(old(L.ApplyMove(world, State(), id, move)), old(State()), error)
    {
      var saved := paths;
      var path := paths[id].(status := move.to, recordVersion := paths[id].recordVersion + 1);
      paths := paths[id := path];
      error := MoveSpectrum(id, path, move.spectrum);
      if error.Some? {
        paths := saved;
      }
    }

    method Transition(caller: L.Caller, id: nat, action: L.Action, expected: Option<nat>, onBehalfOfApproval: bool)
      returns (error: Option<Error>)
      modifies this, table
      ensures Outcome(old(L.TransitionPath(world, State(), caller, id, action, expected, onBehalfOfApproval)),
                      old(State()), error)
    {
      if id !in paths {
        return Some(DoesNotExist);
      }
      var move := L.Find(paths[id].status, action);
      if move.None? {
        return Some(IllegalTransition);
      }
      if !caller.allowed {
        return Some(PermissionDenied);
      }
      if !caller.inScope {
        return Some(TransitionRefused);
      }
      if move.value.IsApproval() && !onBehalfOfApproval {
        return Some(TransitionRefused);
      }
      if expected.Some? && expected.value != paths[id].recordVersion {
        return Some(StaleRecord);
      }
      error := ApplyMove(id, move.value);
    }

    // ----------------------------------------------------------------------------------------
    // decide
    // ----------------------------------------------------------------------------------------

    /** The move and the record of who made it, together or not at all. */
    method Decide(caller: L.Caller, id: nat, verdict: L.Verdict, expected: Option<nat>) returns (error: Option<Error>)
      modifies this, table
      ensures Outcome(old(L.DecidePath(world, State(), caller, id, verdict, expected)), old(State()), error)
    {
      if id !in paths {
        return Some(DoesNotExist);
      }
      if !caller.allowed {
        return Some(PermissionDenied);
      }
      if caller.user.None? || paths[id].status != PendingApproval || L.SelfApproval(world, paths[id], caller.user.value) {
        return Some(ApprovalRefused);
      }
      var from := paths[id].status;
      error := Transition(caller, id, L.ActionOf(verdict), expected, true);
      if error == Some(TransitionRefused) {
        return Some(ApprovalRefused);
      }
      if error.None? {
        decisions := decisions + [L.Decision(id, verdict, caller.user.value, from, paths[id].status)];
      }
    }

    // ----------------------------------------------------------------------------------------
    // revise
    // ----------------------------------------------------------------------------------------

    /** Close, release, and only then write the successor; any refusal undoes all three. */
    method Revise(now: int, caller: L.Caller, id: nat, changes: L.Changes, effectiveAt: int, expected: Option<nat>)
      returns (error: Option<Error>)
      modifies this, table
      ensures Outcome(old(L.RevisePath(world, State(), now, caller, id, changes, effectiveAt, expected)), old(State()), error)
    {
      if id !in paths {
        return Some(DoesNotExist);
      }
      var path := paths[id];
      if !caller.allowed {
        return Some(PermissionDenied);
      }
      if !caller.inScope {
        return Some(TransitionRefused);
      }
      if expected.Some? && expected.value != path.recordVersion {
        return Some(StaleRecord);
      }
      if L.Superseded(paths, id) || path.status in {Cancelled, Retired} || effectiveAt <= path.period.start {
        return Some(TransitionRefused);
      }
      if !KnownSatnet(world, path.satnet) {
        return Some(DoesNotExist);
      }
      var savedPaths, savedRows := paths, table.rows;
      var closed := path.(period := Span(path.period.start, Some(effectiveAt)), status := Retired,
                          recordVersion := path.recordVersion + 1);
      paths := paths[id := closed];
      table.Release(id);
      assert State() == old(L.Closed(State(), id, effectiveAt));
      error := Succeed(now, caller.user, id, L.RevisionValues(closed, changes, effectiveAt), L.SuccessorStatus(path.status));
      if error.Some? {
        paths := savedPaths;
        table.rows := savedRows;
      }
    }

    /** `create_revision`, and how `revise` reports its refusals. */
    method Succeed(now: int, user: Option<nat>, id: nat, v: Values, status: Status) returns (error: Option<Error>)
      requires id in paths && KnownSatnet(world, paths[id].satnet)
      modifies this, table
      ensures Outcome(old(L.Succeed(world, State(), now, user, id, v, status)), old(State()), error)
    {
      var preview := Preview(now, paths[id].satnet, v, Some(id));
      match preview {
        case Err(e) => return Some(e);
        case Ok(p) =>
          if p.findings != [] {
            return Some(PathBlocked);
          }
          error := WriteNew(paths[id].satnet, v, p, status, user, Some(id));
          if error.Some? {
            error := Some(L.AsLostRace(error.value));
          }
      }
    }

    // ----------------------------------------------------------------------------------------
    // Requests
    // ----------------------------------------------------------------------------------------

    method Dispatch(c: L.Command) returns (error: Option<Error>)
      modifies this, table
      ensures Outcome(old(L.Attempt(world, State(), c)), old(State()), error)
    {
      match c.request {
        case Creating(satnet, values, status) => error := Create(c.now, c.caller, satnet, values, status);
        case Editing(path, values, expected) => error := Edit(c.now, c.caller, path, values, expected);
        case Moving(path, action, expected) => error := Transition(c.caller, path, action, expected, false);
        case Deciding(path, verdict, expected) => error := Decide(c.caller, path, verdict, expected);
        case Revising(path, changes, at, expected) => error := Revise(c.now, c.caller, path, changes, at, expected);
      }
    }

    /** One request: one step of the model, and the invariant kept. */
    method Handle(c: L.Command) returns (error: Option<Error>)
      modifies this, table
      ensures State() == old(L.Step(world, State(), c))
      ensures error.None? <==> old(L.Attempt(world, State(), c)).Ok?
      ensures old(Inv(world, State())) && PermittedCommand(c) ==> Inv(world, State())
    {
      if Inv(world, State()) && PermittedCommand(c) {
        StepKeeps(world, State(), c);
      }
      error := Dispatch(c);
    }

    /** A whole run: after every request, refused or not, the table is exclusive and is the view of the
        records. */
    method HandleAll(commands: seq<L.Command>)
      requires Inv(world, State()) && forall c :: c in commands ==> PermittedCommand(c)
      modifies this, table
      ensures State() == old(L.Run(world, State(), commands))
      ensures Inv(world, State()) && Exclusive(table.rows)
    {
      assert commands[0..] == commands;
      for i := 0 to |commands|
        invariant Inv(world, State())
        invariant old(L.Run(world, State(), commands)) == L.Run(world, State(), commands[i..])
      {
        assert commands[i..][1..] == commands[i + 1..];
        var error := Handle(commands[i]);
      }
      assert commands[|commands|..] == [];
    }
  }
}
