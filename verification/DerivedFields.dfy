/**
 * The stored arithmetic of every record is what the engine computes from the record's own inputs.
 * Creation, edit and revision share one dictionary of derived fields (`satnet_paths/services.py`) so
 * that no writer can leave a record describing an allocation it no longer is; this is that promise,
 * over every run.
 */
module DerivedFields {
  import opened Wrappers
  import opened Ranges
  import opened Periods
  import opened Bandwidth
  import opened MasterData
  import opened Reservations
  import opened Selectors
  import opened PathServices
  import opened Previews
  import opened Lifecycle
  import opened HistoryInvariant
  import opened AllocationSafety

  /** The engine's answer for these inputs under this Satnet. */
  function Computed(w: World, satnet: nat, inputs: Inputs): Option<(DirectionConfig, TwoSided)>
    requires KnownSatnet(w, satnet)
  {
    var key := (w.satnets[satnet].beam, inputs.direction);
    var resolved := ResolveRequest(inputs.mode, inputs.value, inputs.rolloff);
    if key !in w.configs || resolved.None? then None
    else
      var (rate, bandwidth) := resolved.value;
      var guards := GuardsFor(w.satnets[satnet], inputs.guardPolicy, bandwidth);
      Some((w.configs[key], PlaceBothSides(rate, bandwidth, inputs.rolloff, inputs.centre, guards,
                                           w.configs[key].translation, UplinkSide)))
  }

  predicate StoresLeg(s: StoredSide, leg: Leg, window: Window, p: Placement) {
    && s.leg == leg && s.window == window.id && s.polarization == window.polarization
    && s.occupied == p.occupied && s.alloc == p.alloc
  }

  /** Which stored leg is the uplink one. */
  function UplinkOf(c: DirectionConfig, p: Path): StoredSide {
    if c.canonicalLeg == Some(c.uplinkLeg) then p.canonical else p.translated
  }

  function DownlinkOf(c: DirectionConfig, p: Path): StoredSide {
    if c.canonicalLeg == Some(c.uplinkLeg) then p.translated else p.canonical
  }

  /** Every derived field of the record, against the engine. */
  predicate Consistent(w: World, p: Path) {
    && KnownSatnet(w, p.satnet)
    && Computed(w, p.satnet, p.inputs).Some?
    && var (c, placed) := Computed(w, p.satnet, p.inputs).value;
       && StoresLeg(UplinkOf(c, p), c.uplinkLeg, c.uplinkWindow, placed.uplink)
       && StoresLeg(DownlinkOf(c, p), c.downlinkLeg, c.downlinkWindow, placed.downlink)
       && p.symbolRate == placed.uplink.symbolRate && p.guards == placed.uplink.guards
       && ResolveRequest(p.inputs.mode, p.inputs.value, p.inputs.rolloff) == Some((p.symbolRate, p.occupiedBandwidth))
       && p.allocatedBandwidth == p.canonical.alloc.Width()
       && p.canonical.centre == p.inputs.centre && p.translated.centre == MidpointOf(p.translated.occupied)
       && UnderAGrant(c, p.canonical) && UnderAGrant(c, p.translated)
  }

  /** The stored grant is one of the direction's, active, and of the stored window. */
  predicate UnderAGrant(c: DirectionConfig, s: StoredSide) {
    s.assignment in c.assignments && s.assignment.isActive && s.assignment.window.id == s.window
  }

  ghost predicate AllConsistent(w: World, db: Db) {
    forall id :: id in db.paths ==> Consistent(w, db.paths[id])
  }

  /** The fields a move or a closing touches are none of the derived ones. */
  predicate SameDerived(a: Path, b: Path) {
    && a.satnet == b.satnet && a.inputs == b.inputs && a.symbolRate == b.symbolRate && a.guards == b.guards
    && a.occupiedBandwidth == b.occupiedBandwidth && a.allocatedBandwidth == b.allocatedBandwidth
    && a.canonical == b.canonical && a.translated == b.translated
  }

  lemma SameDerivedIsConsistent(w: World, a: Path, b: Path)
    requires Consistent(w, a) && SameDerived(a, b)
    ensures Consistent(w, b)
  {
  }

  lemma OneChangeKeepsConsistent(w: World, before: map<nat, Path>, after: map<nat, Path>, id: nat)
    requires forall k :: k in before ==> Consistent(w, before[k])
    requires id in after && after == before[id := after[id]] && Consistent(w, after[id])
    ensures forall k :: k in after ==> Consistent(w, after[k])
  {
  }

  lemma WrittenIsConsistent(w: World, rows: seq<Row>, now: int, satnet: nat, v: Values, exclude: Option<nat>, p: Proposal,
                            base: Path, period: TimePeriod)
    requires KnownSatnet(w, satnet) && base.satnet == satnet
    requires Preview(w, rows, now, satnet, v, exclude) == Ok(p)
    requires p.canonicalAssignment.Some? && p.translatedAssignment.Some?
    ensures Consistent(w, WithDerived(base, v, period, p))
  {
    ActiveAssignmentMembers(p.config, now, Some(p.canonical.window.id), p.canonicalAssignment.value);
    ActiveAssignmentMembers(p.config, now, Some(p.translated.window.id), p.translatedAssignment.value);
  }

  lemma WriteNewWritesDerived(w: World, db: Db, satnet: nat, v: Values, p: Proposal, status: Status, user: Option<nat>,
                              predecessor: Option<nat>, after: Db) returns (record: Path)
    requires KnownSatnet(w, satnet) && (predecessor.Some? ==> predecessor.value in db.paths)
    requires WriteNew(w, db, satnet, v, p, status, user, predecessor) == Ok(after)
    ensures p.canonicalAssignment.Some? && p.translatedAssignment.Some? && MakePeriod(v.validFrom, v.validUntil).Some?
    ensures db.nextId in after.paths && after.paths == db.paths[db.nextId := after.paths[db.nextId]] && record.satnet == satnet
    ensures SameDerived(WithDerived(record, v, MakePeriod(v.validFrom, v.validUntil).value, p), after.paths[db.nextId])
  {
    record := EmptyRecord(w, db.nextId, satnet, v, status, MakePeriod(v.validFrom, v.validUntil).value, user, p);
  }

  lemma SavedIsConsistent(w: World, rows: seq<Row>, db: Db, now: int, satnet: nat, v: Values, exclude: Option<nat>, p: Proposal,
                          status: Status, user: Option<nat>, predecessor: Option<nat>, after: Db)
    requires KnownSatnet(w, satnet) && (predecessor.Some? ==> predecessor.value in db.paths)
    requires Preview(w, rows, now, satnet, v, exclude) == Ok(p)
    requires WriteNew(w, db, satnet, v, p, status, user, predecessor) == Ok(after)
    requires AllConsistent(w, db)
    ensures AllConsistent(w, after)
  {
    var record := WriteNewWritesDerived(w, db, satnet, v, p, status, user, predecessor, after);
    var period := MakePeriod(v.validFrom, v.validUntil).value;
    WrittenIsConsistent(w, rows, now, satnet, v, exclude, p, record, period);
    SameDerivedIsConsistent(w, WithDerived(record, v, period, p), after.paths[db.nextId]);
    OneChangeKeepsConsistent(w, db.paths, after.paths, db.nextId);
  }

  lemma ReplaceWritesDerived(db: Db, id: nat, v: Values, p: Proposal, after: Db)
    requires id in db.paths && Replace(db, id, v, p) == Ok(after)
    ensures p.canonicalAssignment.Some? && p.translatedAssignment.Some? && MakePeriod(v.validFrom, v.validUntil).Some?
    ensures id in after.paths && after.paths == db.paths[id := after.paths[id]]
    ensures SameDerived(WithDerived(db.paths[id], v, MakePeriod(v.validFrom, v.validUntil).value, p), after.paths[id])
  {
  }

  lemma RewrittenIsConsistent(w: World, db: Db, now: int, id: nat, v: Values, after: Db)
    requires id in db.paths && Rewrite(w, db, now, id, v) == Ok(after) && AllConsistent(w, db)
    ensures AllConsistent(w, after)
  {
    var path := db.paths[id];
    var p := Preview(w, db.rows, now, path.satnet, v, Some(id)).value;
    ReplaceWritesDerived(db, id, v, p, after);
    var period := MakePeriod(v.validFrom, v.validUntil).value;
    WrittenIsConsistent(w, db.rows, now, path.satnet, v, Some(id), p, path, period);
    SameDerivedIsConsistent(w, WithDerived(path, v, period, p), after.paths[id]);
    OneChangeKeepsConsistent(w, db.paths, after.paths, id);
  }

  lemma MovedIsConsistent(w: World, db: Db, id: nat, move: Move, after: Db)
    requires id in db.paths && ApplyMove(w, db, id, move) == Ok(after) && AllConsistent(w, db)
    ensures AllConsistent(w, after)
  {
    SameDerivedIsConsistent(w, db.paths[id], after.paths[id]);
    OneChangeKeepsConsistent(w, db.paths, after.paths, id);
  }

  lemma ClosedIsConsistent(w: World, db: Db, id: nat, effectiveAt: int)
    requires id in db.paths && effectiveAt > db.paths[id].period.start && AllConsistent(w, db)
    ensures AllConsistent(w, Closed(db, id, effectiveAt))
  {
    SameDerivedIsConsistent(w, db.paths[id], Closed(db, id, effectiveAt).paths[id]);
  }

  lemma RevisedIsConsistent(w: World, db: Db, now: int, caller: Caller, id: nat, changes: Changes, effectiveAt: int,
                            expected: Option<nat>, after: Db)
    requires RevisePath(w, db, now, caller, id, changes, effectiveAt, expected) == Ok(after) && AllConsistent(w, db)
    ensures AllConsistent(w, after)
  {
    var p := RevisionClosesThenOpens(w, db, now, caller, id, changes, effectiveAt, expected, after);
    var closed := Closed(db, id, effectiveAt);
    ClosedIsConsistent(w, db, id, effectiveAt);
    SavedIsConsistent(w, closed.rows, closed, now, db.paths[id].satnet,
                      RevisionValues(closed.paths[id], changes, effectiveAt), Some(id), p,
                      SuccessorStatus(db.paths[id].status), caller.user, Some(id), after);
  }

  lemma CreatedIsConsistent(w: World, db: Db, now: int, caller: Caller, satnet: nat, v: Values, status: Status, after: Db)
    requires CreatePath(w, db, now, caller, satnet, v, status) == Ok(after) && AllConsistent(w, db)
    ensures AllConsistent(w, after)
  {
    var p := Preview(w, db.rows, now, satnet, v, None).value;
    SavedIsConsistent(w, db.rows, db, now, satnet, v, None, p, status, caller.user, None, after);
  }

  lemma DecidedIsConsistent(w: World, db: Db, caller: Caller, id: nat, verdict: Verdict, expected: Option<nat>, after: Db)
    requires DecidePath(w, db, caller, id, verdict, expected) == Ok(after) && AllConsistent(w, db)
    ensures AllConsistent(w, after)
  {
    DecisionRecordsItsMove(w, db, caller, id, verdict, expected, after);
    MovedIsConsistent(w, db, id, Find(PendingApproval, ActionOf(verdict)).value, after.(decisions := db.decisions));
  }

  lemma StepKeepsConsistent(w: World, db: Db, c: Command)
    requires AllConsistent(w, db)
    ensures AllConsistent(w, Step(w, db, c))
  {
    if Attempt(w, db, c).Ok? {
      var after := Attempt(w, db, c).value;
      match c.request {
        case Creating(satnet, v, status) => CreatedIsConsistent(w, db, c.now, c.caller, satnet, v, status, after);
        case Editing(id, v, expected) => RewrittenIsConsistent(w, db, c.now, id, v, after);
        case Moving(id, action, expected) =>
          var move := TransitionIsOneMove(w, db, c.caller, id, action, expected, false, after);
          MovedIsConsistent(w, db, id, move, after);
        case Deciding(id, verdict, expected) => DecidedIsConsistent(w, db, c.caller, id, verdict, expected, after);
        case Revising(id, changes, at, expected) => RevisedIsConsistent(w, db, c.now, c.caller, id, changes, at, expected, after);
      }
    }
  }

  lemma {:induction false} RunKeepsConsistent(w: World, db: Db, commands: seq<Command>)
    requires AllConsistent(w, db)
    ensures AllConsistent(w, Run(w, db, commands))
    decreases |commands|
  {
    if commands != [] {
      StepKeepsConsistent(w, db, commands[0]);
      RunKeepsConsistent(w, Step(w, db, commands[0]), commands[1..]);
    }
  }

  /** So in every reachable state the two legs of every record are one transmission: the downlink is the
      image of the uplink, the occupied ranges are as wide as the bandwidth asked for, rounded up to a
      whole half-width, each sits inside what is reserved around it, and the two reservations are
      equally wide. */
  lemma StoredLegsAreOneTransmission(w: World, db: Db, commands: seq<Command>, id: nat)
    requires db.paths == map[] && id in Run(w, db, commands).paths
    ensures var p := Run(w, db, commands).paths[id];
            && ConfigKeyOf(w, p) in w.configs
            && var c := w.configs[ConfigKeyOf(w, p)];
               var up, down := UplinkOf(c, p), DownlinkOf(c, p);
               && down.occupied == Translate(up.occupied, c.translation) && down.alloc == Translate(up.alloc, c.translation)
               && up.alloc.Contains(up.occupied) && down.alloc.Contains(down.occupied)
               && p.occupiedBandwidth <= up.occupied.Width() == down.occupied.Width() <= p.occupiedBandwidth + 1
               && up.alloc.Width() == down.alloc.Width() == p.allocatedBandwidth
               && p.allocatedBandwidth == up.occupied.Width() + p.guards.left + p.guards.right
  {
    RunKeepsConsistent(w, db, commands);
    ConsistentLegs(w, Run(w, db, commands).paths[id]);
  }

  function ConfigKeyOf(w: World, p: Path): (nat, Direction)
  {
    if p.satnet in w.satnets then (w.satnets[p.satnet].beam, p.inputs.direction) else (p.beam, p.inputs.direction)
  }

  lemma ConsistentLegs(w: World, p: Path)
    requires Consistent(w, p)
    ensures ConfigKeyOf(w, p) in w.configs
    ensures var c := w.configs[ConfigKeyOf(w, p)];
            var up, down := UplinkOf(c, p), DownlinkOf(c, p);
            && down.occupied == Translate(up.occupied, c.translation) && down.alloc == Translate(up.alloc, c.translation)
            && up.alloc.Contains(up.occupied) && down.alloc.Contains(down.occupied)
            && p.occupiedBandwidth <= up.occupied.Width() == down.occupied.Width() <= p.occupiedBandwidth + 1
            && up.alloc.Width() == down.alloc.Width() == p.allocatedBandwidth
            && p.allocatedBandwidth == up.occupied.Width() + p.guards.left + p.guards.right
  {
    var c := w.configs[ConfigKeyOf(w, p)];
    BothSidesDescribeOneTransmission(p.symbolRate, p.occupiedBandwidth, p.inputs.rolloff, p.inputs.centre, p.guards,
                                     c.translation, UplinkSide);
  }

  // ------------------------------------------------------------------------------------------
  // What the figures are
  // ------------------------------------------------------------------------------------------

  /** This leg and window of the configuration, under a grant of that window. */
  predicate OnWindow(c: DirectionConfig, s: StoredSide, leg: Leg, window: Window) {
    && s.leg == leg && s.window == window.id && s.polarization == window.polarization
    && s.assignment in c.assignments && s.assignment.isActive && s.assignment.window.id == window.id
  }

  /** The uplink around the typed centre, the downlink its image, each under a grant of its window; each
      centre in the middle of what it is the centre of. */
  predicate LegsFit(c: DirectionConfig, p: Path) {
    var (up, down) := if c.canonicalLeg == Some(c.uplinkLeg) then (p.canonical, p.translated) else (p.translated, p.canonical);
    && OnWindow(c, up, c.uplinkLeg, c.uplinkWindow) && OnWindow(c, down, c.downlinkLeg, c.downlinkWindow)
    && PlacedAround(p.inputs.centre, p.occupiedBandwidth, p.guards, up.occupied, up.alloc)
    && down.occupied == Translate(up.occupied, c.translation) && down.alloc == Translate(up.alloc, c.translation)
    && p.canonical.centre == p.inputs.centre
    && p.translated.occupied.start + p.translated.occupied.end == 2 * p.translated.centre
    && p.allocatedBandwidth == p.occupiedBandwidth + p.occupiedBandwidth % 2 + p.guards.left + p.guards.right
  }

  /** The figures a record must have, said of its own inputs and nothing else it stores. */
  ghost predicate FiguresFit(w: World, p: Path)
    requires KnownSatnet(w, p.satnet)
  {
    && p.occupiedBandwidth > 0 && SizesFit(p.inputs, p.symbolRate, p.occupiedBandwidth)
    && GuardsFit(w.satnets[p.satnet], p.inputs, p.occupiedBandwidth, p.guards)
    && (w.satnets[p.satnet].beam, p.inputs.direction) in w.configs
    && LegsFit(w.configs[(w.satnets[p.satnet].beam, p.inputs.direction)], p)
  }

  lemma ImageKeepsWidth(r: FrequencyRange, t: Translation)
    ensures Translate(r, t).Width() == r.Width()
    ensures r.Width() % 2 == 0 ==> forall half :: half in {r, Translate(r, t)} ==> MidpointOf(half) * 2 == half.start + half.end
  {
  }

  lemma PlacedLegsFit(c: DirectionConfig, p: Path)
    requires p.occupiedBandwidth > 0
    requires var placed := Place(p.symbolRate, p.occupiedBandwidth, p.inputs.rolloff, p.inputs.centre, p.guards);
             && StoresLeg(UplinkOf(c, p), c.uplinkLeg, c.uplinkWindow, placed)
             && StoresLeg(DownlinkOf(c, p), c.downlinkLeg, c.downlinkWindow, ImageOf(placed, c.translation, true))
    requires UnderAGrant(c, p.canonical) && UnderAGrant(c, p.translated)
    requires p.allocatedBandwidth == p.canonical.alloc.Width()
    requires p.canonical.centre == p.inputs.centre && p.translated.centre == MidpointOf(p.translated.occupied)
    ensures LegsFit(c, p)
  {
    var up := UplinkOf(c, p);
    PlacementIsAround(p.inputs.centre, p.occupiedBandwidth, p.guards);
    ImageKeepsWidth(up.occupied, c.translation);
    ImageKeepsWidth(up.alloc, c.translation);
  }

  lemma ConsistentFiguresFit(w: World, p: Path)
    requires Consistent(w, p)
    ensures FiguresFit(w, p)
  {
    RequestIsResolved(p.inputs.mode, p.inputs.value, p.inputs.rolloff);
    GuardsAreTheNarrowest(w.satnets[p.satnet], p.inputs, p.occupiedBandwidth);
    PlacedLegsFit(w.configs[(w.satnets[p.satnet].beam, p.inputs.direction)], p);
  }

  /** In every reachable state each record's figures fit its own inputs: a typed rate has the least bandwidth
      that holds it at its roll-off and a typed bandwidth the greatest rate it holds; the guards are the
      narrowest that satisfy the policy in force; the uplink stands around the typed centre and the
      downlink is its image. */
  lemma StoredFiguresFitTheInputs(w: World, db: Db, commands: seq<Command>, id: nat)
    requires db.paths == map[] && id in Run(w, db, commands).paths
    ensures KnownSatnet(w, Run(w, db, commands).paths[id].satnet) && FiguresFit(w, Run(w, db, commands).paths[id])
  {
    RunKeepsConsistent(w, db, commands);
    ConsistentFiguresFit(w, Run(w, db, commands).paths[id]);
  }
}
