/**
 * Exactly which creations, edits and revisions are accepted (`satnet_paths/services.py`,
 * `satnet_paths/lifecycle.py`), said of the stored records and rows and of what the preview shows.
 */
module Acceptance {
  import opened Wrappers
  import opened Periods
  import opened Bandwidth
  import opened MasterData
  import opened Reservations
  import opened PathServices
  import opened Previews
  import opened Lifecycle
  import opened RowAccounting
  import opened TableInvariant
  import opened HistoryInvariant
  import opened AllocationSafety
  import opened CloseThenOpen
  import opened PeriodPromises
  import opened Requests

  // ------------------------------------------------------------------------------------------
  // The record
  // ------------------------------------------------------------------------------------------

  /** The configuration names the legs of this direction, the one with the hub's uplink or the remote's
      uplink as the canonical one. */
  predicate LegsOf(p: Proposal, direction: Direction) {
    match direction
    case Fwd => p.canonical.leg == HubUplink && p.translated.leg == RemoteDownlink
    case Rtn => p.canonical.leg == RemoteUplink && p.translated.leg == HubDownlink
  }

  /** What the engine's two ranges are to one another and to the typed centre. */
  lemma PlacedSidesFit(v: Values, p: Proposal)
    requires p.occupiedBandwidth > 0
    requires var up, down := UplinkSideOf(p), DownlinkSideOf(p);
             && PlacedAround(v.inputs.centre, p.occupiedBandwidth, p.guards, up.occupied, up.alloc)
             && down.occupied == Translate(up.occupied, p.config.translation)
             && down.alloc == Translate(up.alloc, p.config.translation)
    ensures UplinkSideOf(p).occupied.ContainsHz(v.inputs.centre)
    ensures forall side :: side in {p.canonical, p.translated} ==>
              && side.alloc.Contains(side.occupied) && side.occupied.ContainsHz(MidpointOf(side.occupied))
              && side.alloc.Width() >= p.occupiedBandwidth
  {
    var up := UplinkSideOf(p);
    ImageKeepsShape(up.occupied, up.alloc, p.config.translation);
    assert {p.canonical, p.translated} == {UplinkSideOf(p), DownlinkSideOf(p)};
  }

  predicate TypedOnItsUplink(p: Proposal) {
    p.config.canonicalLeg == Some(p.config.uplinkLeg)
  }

  lemma FittingRecordPassesIff(v: Values, p: Proposal, base: Path, period: TimePeriod)
    requires p.canonicalAssignment.Some? && p.translatedAssignment.Some?
    requires v.inputs.value > 0 && 0 <= v.inputs.rolloff <= 1000 && p.occupiedBandwidth > 0
    requires UplinkSideOf(p).occupied.ContainsHz(v.inputs.centre)
    requires forall side :: side in {p.canonical, p.translated} ==>
               && side.alloc.Contains(side.occupied) && side.occupied.ContainsHz(MidpointOf(side.occupied))
               && side.alloc.Width() >= p.occupiedBandwidth
    ensures CheckPath(WithDerived(base, v, period, p)) <==>
            && p.symbolRate > 0 && LegsOf(p, v.inputs.direction)
            && (TypedOnItsUplink(p) || p.canonical.occupied.ContainsHz(v.inputs.centre))
  {
    assert p.canonical in {p.canonical, p.translated} && p.translated in {p.canonical, p.translated};
  }

  /** A record the engine computed passes the CHECKs of its table exactly when it carries at least one
      symbol a second, its legs are its direction's, and the typed centre lies on the leg it is stored
      with, as it does wherever a direction is typed on its uplink. */
  lemma ComputedRecordPassesIff(w: World, rows: seq<Row>, now: int, satnet: nat, v: Values, exclude: Option<nat>, p: Proposal,
                                base: Path, period: TimePeriod)
    requires KnownSatnet(w, satnet) && Preview(w, rows, now, satnet, v, exclude) == Ok(p)
    requires p.canonicalAssignment.Some? && p.translatedAssignment.Some?
    ensures CheckPath(WithDerived(base, v, period, p)) <==> Storable(p, v)
  {
    PreviewSizes(w, rows, now, satnet, v, exclude, p);
    RequestIsResolved(v.inputs.mode, v.inputs.value, v.inputs.rolloff);
    PreviewDescribesTheRequest(w, rows, now, satnet, v, exclude, p);
    PlacedSidesFit(v, p);
    FittingRecordPassesIff(v, p, base, period);
  }

  predicate Storable(p: Proposal, v: Values) {
    && p.symbolRate > 0 && LegsOf(p, v.inputs.direction)
    && (TypedOnItsUplink(p) || p.canonical.occupied.ContainsHz(v.inputs.centre))
  }

  /** A payload goes up on an uplink and comes down on a downlink. Then a direction that names no canonical
      leg, or its downlink, can be previewed and never stored: the preview takes the downlink for the
      canonical leg, which no record may have. */
  lemma OnlyUplinkDirectionsAreStored(w: World, rows: seq<Row>, now: int, satnet: nat, v: Values, exclude: Option<nat>,
                                      p: Proposal)
    requires KnownSatnet(w, satnet) && Preview(w, rows, now, satnet, v, exclude) == Ok(p)
    requires p.config.uplinkLeg in {HubUplink, RemoteUplink} && p.config.downlinkLeg in {RemoteDownlink, HubDownlink}
    ensures Storable(p, v) ==> TypedOnItsUplink(p)
  {
    PreviewPlaces(w, rows, now, satnet, v, exclude, p);
  }

  // ------------------------------------------------------------------------------------------
  // The rows
  // ------------------------------------------------------------------------------------------

  predicate SideOf(p: Proposal, side: Side) {
    side == p.canonical || side == p.translated
  }

  /** No row of another allocation, and no fixed reserve, shares Hz and period with either leg on a resource
      it competes on, whenever that row is in force. */
  ghost predicate NoRival(rows: seq<Row>, p: Proposal, requested: Span, exclude: Option<nat>) {
    forall side, row ::
      SideOf(p, side) && row in rows && Resource(row.resource, side.leg) in p.config.resources && row.reserves
      && (exclude.Some? ==> row.path != exclude) ==>
        !(side.alloc.Overlaps(row.alloc) && requested.Overlaps(row.period))
  }

  lemma AskedRowIs(p: Proposal, b: Booking, r: Row)
    requires p.canonicalAssignment.Some? && p.translatedAssignment.Some?
    requires r in RowsForAll(ProposedOccupancies(p), b)
    ensures r.reserves == b.reserves && r.period == b.period
    ensures exists side :: SideOf(p, side) && Resource(r.resource, side.leg) in p.config.resources && r.alloc == side.alloc
  {
    var first := OccupancyOf(p.config, p.canonical, p.canonicalAssignment.value);
    var second := OccupancyOf(p.config, p.translated, p.translatedAssignment.value);
    TwoLegRows(first, second, b);
    RowsForResourcesMembers(first, first.resources, b, r);
    RowsForResourcesMembers(second, second.resources, b, r);
    LegResourcesMembers(p.config.resources, p.canonical.leg, r.resource);
    LegResourcesMembers(p.config.resources, p.translated.leg, r.resource);
  }

  lemma AskedRowExists(p: Proposal, b: Booking, side: Side, resource: nat) returns (r: Row)
    requires p.canonicalAssignment.Some? && p.translatedAssignment.Some?
    requires SideOf(p, side) && Resource(resource, side.leg) in p.config.resources
    ensures r in RowsForAll(ProposedOccupancies(p), b)
    ensures r.resource == resource && r.reserves == b.reserves && r.period == b.period && r.alloc == side.alloc
  {
    var first := OccupancyOf(p.config, p.canonical, p.canonicalAssignment.value);
    var second := OccupancyOf(p.config, p.translated, p.translatedAssignment.value);
    TwoLegRows(first, second, b);
    r := RowFor(if side == p.canonical then first else second, resource, b);
    RowsForResourcesMembers(first, first.resources, b, r);
    RowsForResourcesMembers(second, second.resources, b, r);
    LegResourcesMembers(p.config.resources, side.leg, resource);
  }

  lemma LosesOnlyToARival(base: seq<Row>, p: Proposal, b: Booking, exclude: Option<nat>, now: int)
    requires p.canonicalAssignment.Some? && p.translatedAssignment.Some?
    requires LosesToUnseen(base, RowsForAll(ProposedOccupancies(p), b), exclude, now)
    ensures !NoRival(base, p, b.period, exclude)
  {
    var held, r :| held in base && r in RowsForAll(ProposedOccupancies(p), b) && Conflict(held, r)
      && (exclude.Some? ==> held.path != exclude) && !held.period.InForce(now);
    AskedRowIs(p, b, r);
    var side :| SideOf(p, side) && Resource(r.resource, side.leg) in p.config.resources && r.alloc == side.alloc;
    assert held.resource == r.resource;
  }

  lemma RivalOfACleanProposalWins(c: DirectionConfig, base: seq<Row>, p: Proposal, b: Booking, exclude: Option<nat>, now: int)
    requires p.canonicalAssignment.Some? && p.translatedAssignment.Some? && p.config == c && b.reserves
    requires forall side, row :: SideOf(p, side) && row in base ==> !InTheWayNow(c, side, b.period, now, exclude, row)
    requires !NoRival(base, p, b.period, exclude)
    ensures LosesToUnseen(base, RowsForAll(ProposedOccupancies(p), b), exclude, now)
  {
    var side, row :| SideOf(p, side) && row in base && Resource(row.resource, side.leg) in p.config.resources && row.reserves
      && (exclude.Some? ==> row.path != exclude) && side.alloc.Overlaps(row.alloc) && b.period.Overlaps(row.period);
    var r := AskedRowExists(p, b, side, row.resource);
    assert Conflict(row, r);
  }

  /** A proposal the preview accepted finds its rows writable exactly when the grant of the translated leg
      covers the period too and there is no rival at any time. */
  lemma WritableIff(w: World, table: seq<Row>, base: seq<Row>, now: int, satnet: nat, v: Values, exclude: Option<nat>,
                    p: Proposal, id: nat, status: Status)
    requires KnownSatnet(w, satnet) && Preview(w, table, now, satnet, v, exclude) == Ok(p) && p.findings == []
    requires Complete(v, p) && forall r :: r in base ==> r in table
    ensures Writable(base, p, id, v, status, exclude, now) <==>
            && p.translatedAssignment.value.period.Contains(Span(v.validFrom, v.validUntil))
            && NoRival(base, p, Span(v.validFrom, v.validUntil), exclude)
  {
    var requested := MakePeriod(v.validFrom, v.validUntil).value;
    var b := Booking(id, v.inputs.direction, status, requested, true);
    PreviewIsCleanIff(w, table, now, satnet, v, exclude, p);
    if LosesToUnseen(base, RowsForAll(ProposedOccupancies(p), b), exclude, now) {
      LosesOnlyToARival(base, p, b, exclude, now);
    } else if !NoRival(base, p, requested, exclude) {
      RivalOfACleanProposalWins(p.config, base, p, b, exclude, now);
    }
  }

  // ------------------------------------------------------------------------------------------
  // Creation
  // ------------------------------------------------------------------------------------------

  /** Another record of this Satnet has this code at this revision. */
  ghost predicate CodeInUse(paths: map<nat, Path>, id: nat, satnet: nat, code: string, revision: nat) {
    exists other :: other in paths && other != id
      && paths[other].satnet == satnet && paths[other].inputs.code == code && paths[other].revision == revision
  }

  lemma NewRecordIsSaveableIff(w: World, rows: seq<Row>, db: Db, now: int, satnet: nat, v: Values, exclude: Option<nat>,
                               p: Proposal, status: Status, user: Option<nat>)
    requires KnownSatnet(w, satnet) && Preview(w, rows, now, satnet, v, exclude) == Ok(p) && Complete(v, p)
    requires HistoryInv(w, db)
    ensures Saveable(db.paths, db.nextId, NewRecord(w, db, satnet, v, p, status, user, None)) <==>
            Storable(p, v) && !CodeInUse(db.paths, db.nextId, satnet, v.inputs.code, 1)
  {
    var period := MakePeriod(v.validFrom, v.validUntil).value;
    var record := EmptyRecord(w, db.nextId, satnet, v, status, period, user, p);
    ComputedRecordPassesIff(w, rows, now, satnet, v, exclude, p, record, period);
    assert !RevisionTaken(db.paths, db.nextId, WithDerived(record, v, period, p));
  }

  /** An allocation that holds spectrum is created exactly for a permitted caller in scope, when the preview
      is clean, the record can be stored under a code that is free, the grant of the translated leg covers
      the period, and there is no rival at any time. */
  lemma CreationIsAcceptedIff(w: World, db: Db, now: int, caller: Caller, satnet: nat, v: Values, status: Status)
    requires Inv(w, db) && WorldValid(w) && status in {Planned, PendingApproval, OnAir}
    ensures CreatePath(w, db, now, caller, satnet, v, status).Ok? <==>
            && caller.allowed && caller.inScope && satnet in w.satnets
            && Preview(w, db.rows, now, satnet, v, None).Ok?
            && var p := Preview(w, db.rows, now, satnet, v, None).value;
               && p.findings == [] && Storable(p, v) && !CodeInUse(db.paths, db.nextId, satnet, v.inputs.code, 1)
               && p.translatedAssignment.Some? && p.translatedAssignment.value.period.Contains(Span(v.validFrom, v.validUntil))
               && NoRival(db.rows, p, Span(v.validFrom, v.validUntil), None)
  {
    CreateSucceedsIff(w, db, now, caller, satnet, v, status);
    if satnet in w.satnets && Preview(w, db.rows, now, satnet, v, None).Ok? {
      var p := Preview(w, db.rows, now, satnet, v, None).value;
      if p.findings == [] {
        CleanIsComplete(w, db.rows, now, satnet, v, None, p);
        NewRecordIsSaveableIff(w, db.rows, db, now, satnet, v, None, p, status, caller.user);
        WritableIff(w, db.rows, db.rows, now, satnet, v, None, p, db.nextId, status);
      }
    }
  }

  /** A draft is created exactly when there is something to store: both legs granted now, a record its table
      takes, a free code. What the preview finds against it does not matter. */
  lemma DraftIsAcceptedIff(w: World, db: Db, now: int, caller: Caller, satnet: nat, v: Values)
    requires Inv(w, db) && WorldValid(w)
    ensures CreatePath(w, db, now, caller, satnet, v, Draft).Ok? <==>
            && caller.allowed && caller.inScope && satnet in w.satnets
            && Preview(w, db.rows, now, satnet, v, None).Ok?
            && var p := Preview(w, db.rows, now, satnet, v, None).value;
               && p.canonicalAssignment.Some? && p.translatedAssignment.Some?
               && Storable(p, v) && !CodeInUse(db.paths, db.nextId, satnet, v.inputs.code, 1)
  {
    if satnet in w.satnets && Preview(w, db.rows, now, satnet, v, None).Ok? {
      var p := Preview(w, db.rows, now, satnet, v, None).value;
      if Complete(v, p) {
        NewRecordIsSaveableIff(w, db.rows, db, now, satnet, v, None, p, Draft, caller.user);
      }
    }
  }

  // ------------------------------------------------------------------------------------------
  // Edits
  // ------------------------------------------------------------------------------------------

  lemma OthersRivalAlone(rows: seq<Row>, p: Proposal, requested: Span, id: nat)
    ensures NoRival(Released(rows, id), p, requested, Some(id)) <==> NoRival(rows, p, requested, Some(id))
  {
    forall row
      ensures row in Released(rows, id) <==> row in rows && row.path != Some(id)
    {
      ReleasedMembers(rows, id, row);
    }
  }

  lemma ChangedRecordIsSaveableIff(w: World, db: Db, now: int, id: nat, v: Values, p: Proposal)
    requires HistoryInv(w, db) && id in db.paths && KnownSatnet(w, db.paths[id].satnet)
    requires Preview(w, db.rows, now, db.paths[id].satnet, v, Some(id)) == Ok(p) && Complete(v, p)
    ensures Saveable(db.paths, id, ChangedRecord(db.paths[id], v, p)) <==>
            Storable(p, v) && !CodeInUse(db.paths, id, db.paths[id].satnet, v.inputs.code, db.paths[id].revision)
  {
    var was, period := db.paths[id], MakePeriod(v.validFrom, v.validUntil).value;
    ComputedRecordPassesIff(w, db.rows, now, was.satnet, v, Some(id), p, was, period);
    assert CheckPath(ChangedRecord(was, v, p)) <==> CheckPath(WithDerived(was, v, period, p));
    assert !RevisionTaken(db.paths, id, ChangedRecord(was, v, p));
  }

  /** A planned allocation is edited exactly for a permitted caller in scope, at its current version, when
      the preview next to everybody else is clean, the record can be stored under a code that is free, the
      grant of the translated leg covers the period, and there is no rival at any time. Its own rows are
      never in its way. */
  lemma EditIsAcceptedIff(w: World, db: Db, now: int, caller: Caller, id: nat, v: Values, expected: nat)
    requires Inv(w, db) && WorldValid(w) && id in db.paths && db.paths[id].status == Planned
    ensures db.paths[id].satnet in w.satnets
    ensures EditPath(w, db, now, caller, id, v, expected).Ok? <==>
            && caller.allowed && caller.inScope && expected == db.paths[id].recordVersion
            && Preview(w, Released(db.rows, id), now, db.paths[id].satnet, v, None).Ok?
            && var p := Preview(w, Released(db.rows, id), now, db.paths[id].satnet, v, None).value;
               && p.findings == [] && Storable(p, v)
               && !CodeInUse(db.paths, id, db.paths[id].satnet, v.inputs.code, db.paths[id].revision)
               && p.translatedAssignment.Some? && p.translatedAssignment.value.period.Contains(Span(v.validFrom, v.validUntil))
               && NoRival(db.rows, p, Span(v.validFrom, v.validUntil), Some(id))
  {
    var satnet := db.paths[id].satnet;
    assert RecordSound(w, db.paths[id]);
    ExcludingIsPreviewingTheRest(w, db.rows, now, satnet, v, id);
    EditSucceedsIff(w, db, now, caller, id, v, expected);
    if Preview(w, db.rows, now, satnet, v, Some(id)).Ok? {
      var p := Preview(w, db.rows, now, satnet, v, Some(id)).value;
      if p.findings == [] {
        CleanIsComplete(w, db.rows, now, satnet, v, Some(id), p);
        ChangedRecordIsSaveableIff(w, db, now, id, v, p);
        forall r | r in Released(db.rows, id)
          ensures r in db.rows
        {
          ReleasedMembers(db.rows, id, r);
        }
        WritableIff(w, db.rows, Released(db.rows, id), now, satnet, v, Some(id), p, id, Planned);
        OthersRivalAlone(db.rows, p, Span(v.validFrom, v.validUntil), id);
      }
    }
  }

  lemma DraftRewriteIsAcceptedIff(w: World, db: Db, now: int, id: nat, v: Values)
    requires HistoryInv(w, db) && id in db.paths && db.paths[id].status == Draft && KnownSatnet(w, db.paths[id].satnet)
    ensures Rewrite(w, db, now, id, v).Ok? <==>
            && Preview(w, db.rows, now, db.paths[id].satnet, v, Some(id)).Ok?
            && var p := Preview(w, db.rows, now, db.paths[id].satnet, v, Some(id)).value;
               && p.canonicalAssignment.Some? && p.translatedAssignment.Some? && Storable(p, v)
               && !CodeInUse(db.paths, id, db.paths[id].satnet, v.inputs.code, db.paths[id].revision)
  {
    if Preview(w, db.rows, now, db.paths[id].satnet, v, Some(id)).Ok? {
      var p := Preview(w, db.rows, now, db.paths[id].satnet, v, Some(id)).value;
      if Complete(v, p) {
        ChangedRecordIsSaveableIff(w, db, now, id, v, p);
      }
    }
  }

  /** A draft is edited like it is created: whatever the preview finds against it. */
  lemma DraftEditIsAcceptedIff(w: World, db: Db, now: int, caller: Caller, id: nat, v: Values, expected: nat)
    requires Inv(w, db) && WorldValid(w) && id in db.paths && db.paths[id].status == Draft
    ensures db.paths[id].satnet in w.satnets
    ensures EditPath(w, db, now, caller, id, v, expected).Ok? <==>
            && caller.allowed && caller.inScope && expected == db.paths[id].recordVersion
            && Preview(w, db.rows, now, db.paths[id].satnet, v, Some(id)).Ok?
            && var p := Preview(w, db.rows, now, db.paths[id].satnet, v, Some(id)).value;
               && p.canonicalAssignment.Some? && p.translatedAssignment.Some? && Storable(p, v)
               && !CodeInUse(db.paths, id, db.paths[id].satnet, v.inputs.code, db.paths[id].revision)
  {
    assert RecordSound(w, db.paths[id]);
    DraftRewriteIsAcceptedIff(w, db, now, id, v);
  }

  // ------------------------------------------------------------------------------------------
  // Revisions
  // ------------------------------------------------------------------------------------------

  lemma {:induction false} ReleasedTwice(rows: seq<Row>, id: nat)
    ensures Released(Released(rows, id), id) == Released(rows, id)
  {
    if rows != [] {
      ReleasedTwice(rows[1..], id);
      if !Belongs(rows[0], id) {
        assert ([rows[0]] + Released(rows[1..], id))[1..] == Released(rows[1..], id);
      }
    }
  }

  /** Some record says it replaces this one. */
  ghost predicate Replaced(paths: map<nat, Path>, id: nat) {
    exists later :: later in paths && paths[later].supersedes == Some(id)
  }

  lemma NextRevisionIsFree(w: World, db: Db, id: nat, other: nat)
    requires HistoryInv(w, db) && id in db.paths && other in db.paths && !Replaced(db.paths, id)
    ensures db.paths[other].group != db.paths[id].group || db.paths[other].revision != db.paths[id].revision + 1
  {
    assert LineageSound(db.paths, db.paths[other]) && LineageSound(db.paths, db.paths[id]);
  }

  lemma LineageIsNotChecked(a: Path, b: Path)
    requires b == a.(group := b.group, revision := b.revision, supersedes := b.supersedes)
    ensures CheckPath(a) <==> CheckPath(b)
  {
  }

  /** Closing a record frees neither its code nor its number. */
  lemma ClosingFreesNothing(before: map<nat, Path>, closed: map<nat, Path>, id: nat, next: nat, path: Path)
    requires id in before && id in closed && closed == before[id := closed[id]]
    requires SameIdentity(before[id], closed[id]) && before[id].inputs == closed[id].inputs
    requires forall other :: other in before ==> before[other].group != path.group || before[other].revision != path.revision
    ensures CodeTaken(closed, next, path) <==> CodeInUse(before, next, path.satnet, path.inputs.code, path.revision)
    ensures !RevisionTaken(closed, next, path)
  {
    assert closed.Keys == before.Keys;
  }

  lemma SuccessorIsSaveableIff(w: World, db: Db, now: int, id: nat, effectiveAt: int, v: Values, p: Proposal, status: Status,
                               user: Option<nat>)
    requires HistoryInv(w, db) && id in db.paths && KnownSatnet(w, db.paths[id].satnet)
    requires effectiveAt > db.paths[id].period.start && !Replaced(db.paths, id)
    requires Preview(w, Released(db.rows, id), now, db.paths[id].satnet, v, Some(id)) == Ok(p) && Complete(v, p)
    ensures var closed := Closed(db, id, effectiveAt);
            Saveable(closed.paths, db.nextId, NewRecord(w, closed, db.paths[id].satnet, v, p, status, user, Some(id))) <==>
            && Storable(p, v)
            && !CodeInUse(db.paths, db.nextId, db.paths[id].satnet, v.inputs.code, db.paths[id].revision + 1)
  {
    var closed, satnet := Closed(db, id, effectiveAt), db.paths[id].satnet;
    var period := MakePeriod(v.validFrom, v.validUntil).value;
    var record := EmptyRecord(w, db.nextId, satnet, v, status, period, user, p);
    var path := NewRecord(w, closed, satnet, v, p, status, user, Some(id));
    ComputedRecordPassesIff(w, Released(db.rows, id), now, satnet, v, Some(id), p, record, period);
    LineageIsNotChecked(WithDerived(record, v, period, p), path);
    forall other | other in db.paths
      ensures db.paths[other].group != path.group || db.paths[other].revision != path.revision
    {
      NextRevisionIsFree(w, db, id, other);
    }
    ClosingFreesNothing(db.paths, closed.paths, id, db.nextId, path);
  }

  lemma SuccessionIsAcceptedIff(w: World, db: Db, now: int, user: Option<nat>, id: nat, v: Values, effectiveAt: int)
    requires Inv(w, db) && id in db.paths && KnownSatnet(w, db.paths[id].satnet)
    requires effectiveAt > db.paths[id].period.start && !Replaced(db.paths, id)
    ensures SuccessionPasses(w, Closed(db, id, effectiveAt), now, user, id, v, SuccessorStatus(db.paths[id].status)) <==>
            && Preview(w, Released(db.rows, id), now, db.paths[id].satnet, v, None).Ok?
            && var p := Preview(w, Released(db.rows, id), now, db.paths[id].satnet, v, None).value;
               && p.findings == [] && Storable(p, v)
               && !CodeInUse(db.paths, db.nextId, db.paths[id].satnet, v.inputs.code, db.paths[id].revision + 1)
               && p.translatedAssignment.Some? && p.translatedAssignment.value.period.Contains(Span(v.validFrom, v.validUntil))
               && NoRival(db.rows, p, Span(v.validFrom, v.validUntil), Some(id))
  {
    var satnet, rows, status := db.paths[id].satnet, Released(db.rows, id), SuccessorStatus(db.paths[id].status);
    ExcludingIsPreviewingTheRest(w, rows, now, satnet, v, id);
    ReleasedTwice(db.rows, id);
    if Preview(w, rows, now, satnet, v, Some(id)).Ok? {
      var p := Preview(w, rows, now, satnet, v, Some(id)).value;
      if p.findings == [] {
        CleanIsComplete(w, rows, now, satnet, v, Some(id), p);
        SuccessorIsSaveableIff(w, db, now, id, effectiveAt, v, p, status, user);
        WritableIff(w, rows, rows, now, satnet, v, Some(id), p, db.nextId, status);
        OthersRivalAlone(db.rows, p, Span(v.validFrom, v.validUntil), id);
      }
    }
  }

  /** An allocation is revised exactly for a permitted caller in scope, at the expected version, when nothing
      replaces it yet, it is not cancelled or retired, the change comes after it began and says when it ends,
      and its successor passes as a creation would in a table without it. `v` is what the successor is to
      be: the changes over the predecessor's own inputs, from that moment to that end. */
  lemma RevisionIsAcceptedIff(w: World, db: Db, now: int, caller: Caller, id: nat, c: Changes, effectiveAt: int,
                              expected: Option<nat>, v: Values)
    requires Inv(w, db) && WorldValid(w) && id in db.paths
    requires ChangesOver(c, db.paths[id].inputs, v.inputs) && v.validFrom == effectiveAt
    requires c.validUntil.Some? ==> v.validUntil == c.validUntil.value
    ensures db.paths[id].satnet in w.satnets
    ensures RevisePath(w, db, now, caller, id, c, effectiveAt, expected).Ok? <==>
            && caller.allowed && caller.inScope && (expected.Some? ==> expected.value == db.paths[id].recordVersion)
            && !Replaced(db.paths, id) && db.paths[id].status !in {Cancelled, Retired}
            && effectiveAt > db.paths[id].period.start && c.validUntil.Some?
            && Preview(w, Released(db.rows, id), now, db.paths[id].satnet, v, None).Ok?
            && var p := Preview(w, Released(db.rows, id), now, db.paths[id].satnet, v, None).value;
               && p.findings == [] && Storable(p, v)
               && !CodeInUse(db.paths, db.nextId, db.paths[id].satnet, v.inputs.code, db.paths[id].revision + 1)
               && p.translatedAssignment.Some? && p.translatedAssignment.value.period.Contains(Span(v.validFrom, v.validUntil))
               && NoRival(db.rows, p, Span(v.validFrom, v.validUntil), Some(id))
  {
    assert RecordSound(w, db.paths[id]);
    if RevisePath(w, db, now, caller, id, c, effectiveAt, expected).Ok? {
      RevisingNeedsAnEnd(w, db, now, caller, id, c, effectiveAt, expected);
    }
    ReviseSucceedsIff(w, db, now, caller, id, c, effectiveAt, expected);
    if effectiveAt > db.paths[id].period.start && c.validUntil.Some? && !Replaced(db.paths, id) {
      ChangesGoOverTheClosedRecord(db, id, c, effectiveAt);
      assert v == RevisionValues(Closed(db, id, effectiveAt).paths[id], c, effectiveAt);
      SuccessionIsAcceptedIff(w, db, now, caller.user, id, v, effectiveAt);
    }
  }

  // ------------------------------------------------------------------------------------------
  // What a refusal says
  // ------------------------------------------------------------------------------------------

  /** A creation whose preview is clean is refused as invalid exactly when its record cannot be stored or its
      code is taken; as outside its grant only when the translated grant ends too soon; and as a conflict
      only when there is a rival. */
  lemma RefusedCreationSaysWhy(w: World, db: Db, now: int, caller: Caller, satnet: nat, v: Values, status: Status, p: Proposal)
    requires Inv(w, db) && WorldValid(w) && status in {Planned, PendingApproval, OnAir}
    requires caller.allowed && caller.inScope && satnet in w.satnets
    requires Preview(w, db.rows, now, satnet, v, None) == Ok(p) && p.findings == []
    requires CreatePath(w, db, now, caller, satnet, v, status).Err?
    ensures p.translatedAssignment.Some?
    ensures match CreatePath(w, db, now, caller, satnet, v, status).error
            case ValidationError => !Storable(p, v) || CodeInUse(db.paths, db.nextId, satnet, v.inputs.code, 1)
            case OutsideEntitlement => !p.translatedAssignment.value.period.Contains(Span(v.validFrom, v.validUntil))
            case SpectrumConflict => !NoRival(db.rows, p, Span(v.validFrom, v.validUntil), None)
            case _ => false
    ensures !Storable(p, v) || CodeInUse(db.paths, db.nextId, satnet, v.inputs.code, 1) ==>
              CreatePath(w, db, now, caller, satnet, v, status).error == ValidationError
  {
    CleanWriteIsDecided(w, db, now, satnet, v, None, p, status, caller.user, None);
    NewRecordIsSaveableIff(w, db.rows, db, now, satnet, v, None, p, status, caller.user);
    RefusedWriteMeetsARival(w, db.rows, db.rows, now, satnet, v, None, p, db.nextId, status);
  }

  lemma RefusedWriteMeetsARival(w: World, table: seq<Row>, base: seq<Row>, now: int, satnet: nat, v: Values, exclude: Option<nat>,
                                p: Proposal, id: nat, status: Status)
    requires KnownSatnet(w, satnet) && Preview(w, table, now, satnet, v, exclude) == Ok(p) && p.findings == []
    requires Complete(v, p)
    ensures LosesToUnseen(base, RowsAskedFor(p, id, v, status), exclude, now) ==>
              !NoRival(base, p, Span(v.validFrom, v.validUntil), exclude)
  {
    var b := Booking(id, v.inputs.direction, status, MakePeriod(v.validFrom, v.validUntil).value, true);
    if LosesToUnseen(base, RowsForAll(ProposedOccupancies(p), b), exclude, now) {
      LosesOnlyToARival(base, p, b, exclude, now);
    }
  }

  lemma PassedGuardsSucceed(w: World, db: Db, now: int, caller: Caller, id: nat, c: Changes, effectiveAt: int,
                            expected: Option<nat>, v: Values)
    requires id in db.paths && KnownSatnet(w, db.paths[id].satnet)
    requires ChangesOver(c, db.paths[id].inputs, v.inputs) && v.validFrom == effectiveAt
    requires c.validUntil.Some? && v.validUntil == c.validUntil.value
    requires caller.allowed && caller.inScope && (expected.Some? ==> expected.value == db.paths[id].recordVersion)
    requires !Replaced(db.paths, id) && db.paths[id].status !in {Cancelled, Retired} && effectiveAt > db.paths[id].period.start
    ensures RevisePath(w, db, now, caller, id, c, effectiveAt, expected) ==
            Succeed(w, Closed(db, id, effectiveAt), now, caller.user, id, v, SuccessorStatus(db.paths[id].status))
  {
    ChangesGoOverTheClosedRecord(db, id, c, effectiveAt);
    assert v == RevisionValues(Closed(db, id, effectiveAt).paths[id], c, effectiveAt);
  }

  /** Why the table or its records refuse a successor. */
  ghost predicate SuccessorIsRefusedFor(e: Error, db: Db, id: nat, v: Values, p: Proposal)
    requires id in db.paths && p.translatedAssignment.Some?
  {
    match e
    case ValidationError =>
      || !Storable(p, v)
      || CodeInUse(db.paths, db.nextId, db.paths[id].satnet, v.inputs.code, db.paths[id].revision + 1)
    case OutsideEntitlement => !p.translatedAssignment.value.period.Contains(Span(v.validFrom, v.validUntil))
    case TransitionRefused => !NoRival(db.rows, p, Span(v.validFrom, v.validUntil), Some(id))
    case _ => false
  }

  lemma RefusedSuccessorSaysWhy(w: World, db: Db, now: int, user: Option<nat>, id: nat, effectiveAt: int, v: Values, p: Proposal)
    requires Inv(w, db) && WorldValid(w) && id in db.paths && KnownSatnet(w, db.paths[id].satnet)
    requires !Replaced(db.paths, id) && effectiveAt > db.paths[id].period.start
    requires Preview(w, Released(db.rows, id), now, db.paths[id].satnet, v, Some(id)) == Ok(p) && p.findings == []
    ensures p.translatedAssignment.Some?
    ensures var status := SuccessorStatus(db.paths[id].status);
            match WriteNew(w, Closed(db, id, effectiveAt), db.paths[id].satnet, v, p, status, user, Some(id))
            case Ok(_) => true
            case Err(e) => SuccessorIsRefusedFor(if e == SpectrumConflict then TransitionRefused else e, db, id, v, p)
  {
    var satnet, rows, status := db.paths[id].satnet, Released(db.rows, id), SuccessorStatus(db.paths[id].status);
    CleanRevisionIsDecided(w, db, now, user, id, v, effectiveAt, p);
    SuccessorIsSaveableIff(w, db, now, id, effectiveAt, v, p, status, user);
    RefusedWriteMeetsARival(w, rows, rows, now, satnet, v, Some(id), p, db.nextId, status);
    OthersRivalAlone(db.rows, p, Span(v.validFrom, v.validUntil), id);
  }

  lemma LostRacesAreRefusals(w: World, closed: Db, now: int, user: Option<nat>, id: nat, v: Values, status: Status, p: Proposal)
    requires id in closed.paths && KnownSatnet(w, closed.paths[id].satnet)
    requires Preview(w, closed.rows, now, closed.paths[id].satnet, v, Some(id)) == Ok(p) && p.findings == []
    ensures match WriteNew(w, closed, closed.paths[id].satnet, v, p, status, user, Some(id))
            case Ok(after) => Succeed(w, closed, now, user, id, v, status) == Ok(after)
            case Err(e) =>
              Succeed(w, closed, now, user, id, v, status) == Err(if e == SpectrumConflict then TransitionRefused else e)
  {
  }

  /** A revision whose guards and preview pass likewise; only that it calls a conflict a refused transition. */
  lemma RefusedRevisionSaysWhy(w: World, db: Db, now: int, caller: Caller, id: nat, c: Changes, effectiveAt: int,
                               expected: Option<nat>, v: Values, p: Proposal)
    requires Inv(w, db) && WorldValid(w) && id in db.paths && db.paths[id].satnet in w.satnets
    requires ChangesOver(c, db.paths[id].inputs, v.inputs) && v.validFrom == effectiveAt
    requires c.validUntil.Some? && v.validUntil == c.validUntil.value
    requires caller.allowed && caller.inScope && (expected.Some? ==> expected.value == db.paths[id].recordVersion)
    requires !Replaced(db.paths, id) && db.paths[id].status !in {Cancelled, Retired} && effectiveAt > db.paths[id].period.start
    requires Preview(w, Released(db.rows, id), now, db.paths[id].satnet, v, None) == Ok(p) && p.findings == []
    requires RevisePath(w, db, now, caller, id, c, effectiveAt, expected).Err?
    ensures p.translatedAssignment.Some?
    ensures SuccessorIsRefusedFor(RevisePath(w, db, now, caller, id, c, effectiveAt, expected).error, db, id, v, p)
  {
    var satnet, rows := db.paths[id].satnet, Released(db.rows, id);
    ExcludingIsPreviewingTheRest(w, rows, now, satnet, v, id);
    ReleasedTwice(db.rows, id);
    PassedGuardsSucceed(w, db, now, caller, id, c, effectiveAt, expected, v);
    RefusedSuccessorSaysWhy(w, db, now, caller.user, id, effectiveAt, v, p);
    LostRacesAreRefusals(w, Closed(db, id, effectiveAt), now, caller.user, id, v, SuccessorStatus(db.paths[id].status), p);
  }
}
