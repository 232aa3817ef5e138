/** Exactly when a preview has nothing to say (`preview` and `_check_conflicts` in `satnet_paths/services.py`). */
module Previews {
  import opened Wrappers
  import opened Ranges
  import opened Periods
  import opened Bandwidth
  import opened Sorting
  import opened MasterData
  import opened Reservations
  import opened Selectors
  import opened PathServices
  import Containment

  lemma {:induction false} RivalsMembers(rows: seq<Row>, proposed: FrequencyRange, requested: TimePeriod, row: Row)
    ensures row in Rivals(rows, proposed, requested) <==>
            row in rows && proposed.Overlaps(row.alloc) && requested.Overlaps(row.period)
  {
    if rows != [] {
      RivalsMembers(rows[1..], proposed, requested, row);
      assert rows == [rows[0]] + rows[1..];
    }
  }

  /** Somebody else's row, in force now, that shares Hz and period with this leg. */
  predicate InTheWayNow(c: DirectionConfig, side: Side, requested: TimePeriod, now: int, exclude: Option<nat>, row: Row) {
    HoldsOnLeg(c, side.leg, row, now, exclude) && side.alloc.Overlaps(row.alloc) && requested.Overlaps(row.period)
  }

  /** A mapped leg, inside its grant, with nothing in force now in its way. */
  ghost predicate LegClear(c: DirectionConfig, rows: seq<Row>, side: Side, grant: Assignment, requested: TimePeriod,
                           now: int, exclude: Option<nat>) {
    && Mapped(c, side.leg)
    && grant.rf.Contains(side.alloc)
    && forall row :: row in rows ==> !InTheWayNow(c, side, requested, now, exclude, row)
  }

  /** The rivals of a leg, as its finding lists them. */
  ghost predicate ListsRivals(c: DirectionConfig, rows: seq<Row>, side: Side, requested: TimePeriod, now: int,
                              exclude: Option<nat>, rivals: seq<Row>) {
    && (forall i, j :: 0 <= i < j < |rivals| ==> rivals[i].alloc.start <= rivals[j].alloc.start)
    && forall row :: row in rivals <==> row in rows && InTheWayNow(c, side, requested, now, exclude, row)
  }

  lemma {:induction false} RivalsStayInOrder(rows: seq<Row>, proposed: FrequencyRange, requested: TimePeriod)
    requires Sorted(rows, ByAllocStart)
    ensures Sorted(Rivals(rows, proposed, requested), ByAllocStart)
  {
    if rows != [] {
      var rest := Rivals(rows[1..], proposed, requested);
      RivalsStayInOrder(rows[1..], proposed, requested);
      forall row | row in rest
        ensures ByAllocStart(rows[0], row)
      {
        RivalsMembers(rows[1..], proposed, requested, row);
        var k :| 0 <= k < |rows[1..]| && rows[1..][k] == row;
        assert rows[k + 1] == row;
      }
    }
  }

  lemma LegRivals(c: DirectionConfig, rows: seq<Row>, side: Side, requested: TimePeriod, now: int, exclude: Option<nat>)
    ensures var held := ReservationsOn(rows, LegResources(c.resources, side.leg), now, exclude);
            ListsRivals(c, rows, side, requested, now, exclude, Rivals(held, side.alloc, requested))
  {
    var held := ReservationsOn(rows, LegResources(c.resources, side.leg), now, exclude);
    ReservationsOnAscend(rows, LegResources(c.resources, side.leg), now, exclude);
    RivalsStayInOrder(held, side.alloc, requested);
    forall row
      ensures row in Rivals(held, side.alloc, requested) <==> row in rows && InTheWayNow(c, side, requested, now, exclude, row)
    {
      RivalsMembers(held, side.alloc, requested, row);
      HeldOnLegMembers(c, rows, side.leg, now, exclude, row);
    }
  }

  /** Each finding about a leg means just what it says. */
  lemma LegFindingsMean(c: DirectionConfig, rows: seq<Row>, side: Side, grant: Assignment, requested: TimePeriod,
                        now: int, exclude: Option<nat>)
    ensures var findings := LegFindings(c, rows, side, grant, requested, now, exclude);
            && (LegHasNoResource(side.leg) in findings <==> !Mapped(c, side.leg))
            && (OutsideGrant(side.leg) in findings <==> Mapped(c, side.leg) && !grant.rf.Contains(side.alloc))
            && ((exists rivals :: Collides(side.leg, rivals) in findings) <==>
                exists row :: row in rows && InTheWayNow(c, side, requested, now, exclude, row))
            && (forall f :: f in findings ==>
                  match f
                  case LegHasNoResource(leg) => leg == side.leg
                  case OutsideGrant(leg) => leg == side.leg
                  case Collides(leg, rivals) =>
                    leg == side.leg && ListsRivals(c, rows, side, requested, now, exclude, rivals)
                  case _ => false)
  {
    var findings := LegFindings(c, rows, side, grant, requested, now, exclude);
    var rivals := Rivals(ReservationsOn(rows, LegResources(c.resources, side.leg), now, exclude), side.alloc, requested);
    MappedMeansSomething(c, side.leg);
    LegRivals(c, rows, side, requested, now, exclude);
    if Mapped(c, side.leg) && rivals != [] {
      assert rivals[0] in rivals;
      assert Collides(side.leg, rivals) in findings;
    }
  }

  /** One leg passes the preview exactly when it is mapped, its grant contains it, and nothing in
      force now shares its Hz and its period. */
  lemma LegIsCleanIff(c: DirectionConfig, rows: seq<Row>, side: Side, grant: Assignment, requested: TimePeriod,
                      now: int, exclude: Option<nat>)
    ensures LegFindings(c, rows, side, grant, requested, now, exclude) == [] <==>
            LegClear(c, rows, side, grant, requested, now, exclude)
  {
    var rivals := Rivals(ReservationsOn(rows, LegResources(c.resources, side.leg), now, exclude), side.alloc, requested);
    MappedMeansSomething(c, side.leg);
    LegRivals(c, rows, side, requested, now, exclude);
    assert rivals != [] ==> rivals[0] in rivals;
  }

  // ------------------------------------------------------------------------------------------
  // What a preview computes
  // ------------------------------------------------------------------------------------------

  /** An active grant of this window is in force. */
  predicate GrantOf(c: DirectionConfig, window: nat, now: int, a: Assignment) {
    a in c.assignments && a.isActive && a.period.InForce(now) && a.window.id == window
  }

  /** The grant a leg is judged by is the lowest of its window that is active and in force now. */
  lemma AssignmentIsTheLowestGrant(c: DirectionConfig, window: Window, now: int)
    ensures var found := AssignmentFor(c, window, now);
            && (found.None? <==> forall a :: !GrantOf(c, window.id, now, a))
            && (found.Some? ==> GrantOf(c, window.id, now, found.value)
                                && forall a :: GrantOf(c, window.id, now, a) ==> found.value.rf.start <= a.rf.start)
  {
    var active := ActiveAssignments(c, now, Some(window.id));
    assert IsOrder(ByRfStart);
    SortSorts(Applicable(c.assignments, now, Some(window.id)), ByRfStart);
    forall a
      ensures a in active <==> GrantOf(c, window.id, now, a)
    {
      ActiveAssignmentMembers(c, now, Some(window.id), a);
    }
    assert active != [] ==> active[0] in active;
    assert forall i :: 0 < i < |active| ==> ByRfStart(active[0], active[i]);
  }

  /** The rate and the bandwidth fit what was typed: a typed rate gets the least bandwidth that holds it, a
      typed bandwidth the greatest rate it holds. */
  ghost predicate SizesFit(i: Inputs, rate: int, bandwidth: int) {
    match i.mode
    case SymbolRateMode => rate == i.value && forall b :: bandwidth <= b <==> i.value * (1000 + i.rolloff) <= b * 1000
    case OccupiedBw =>
      && bandwidth == i.value
      && (i.value < QUOTIENT_SAFE_BELOW ==>
            rate * (1000 + i.rolloff) <= i.value * 1000 < (rate + 1) * (1000 + i.rolloff))
  }

  /** The guards are the narrowest that satisfy the policy: the allocation's own where it has one, else its
      Satnet's; without either there are none. */
  ghost predicate GuardsFit(satnet: Satnet, i: Inputs, bandwidth: nat, guards: GuardWidths) {
    match if i.guardPolicy.Some? then i.guardPolicy else satnet.guardPolicy
    case None => guards == GuardWidths(0, 0)
    case Some(policy) =>
      forall hz ::
        && (Satisfies(policy, bandwidth, true, hz) <==> hz >= guards.left)
        && (Satisfies(policy, bandwidth, false, hz) <==> hz >= guards.right)
  }

  /** The guards stand on either side of a range that is centred where it was typed, as wide as the
      bandwidth, or 1 Hz wider to be even. */
  predicate PlacedAround(centre: int, bandwidth: int, guards: GuardWidths, occupied: FrequencyRange, alloc: FrequencyRange) {
    && occupied.start + occupied.end == 2 * centre
    && occupied.Width() == bandwidth + bandwidth % 2
    && alloc == Interval(occupied.start - guards.left, occupied.end + guards.right)
  }

  lemma GuardsAreTheNarrowest(satnet: Satnet, i: Inputs, bandwidth: nat)
    ensures GuardsFit(satnet, i, bandwidth, GuardsFor(satnet, i.guardPolicy, bandwidth))
  {
    var chosen := if i.guardPolicy.Some? then i.guardPolicy else satnet.guardPolicy;
    if chosen.Some? {
      var guards := GuardsFor(satnet, i.guardPolicy, bandwidth);
      forall hz
        ensures Satisfies(chosen.value, bandwidth, true, hz) <==> hz >= guards.left
        ensures Satisfies(chosen.value, bandwidth, false, hz) <==> hz >= guards.right
      {
        GuardsAreLeast(chosen.value, bandwidth, hz);
      }
    }
  }

  lemma PlacementIsAround(centre: int, bandwidth: int, guards: GuardWidths)
    requires bandwidth > 0
    ensures var occupied := OccupiedRange(centre, bandwidth);
            PlacedAround(centre, bandwidth, guards, occupied, occupied.Expanded(guards.left, guards.right))
  {
    OccupiedIsCentred(centre, bandwidth);
  }

  lemma PreviewSizes(w: World, rows: seq<Row>, now: int, satnetId: nat, v: Values, exclude: Option<nat>, p: Proposal)
    requires KnownSatnet(w, satnetId)
    requires Preview(w, rows, now, satnetId, v, exclude) == Ok(p)
    ensures ResolveRequest(v.inputs.mode, v.inputs.value, v.inputs.rolloff) == Some((p.symbolRate, p.occupiedBandwidth))
    ensures p.guards == GuardsFor(w.satnets[satnetId], v.inputs.guardPolicy, p.occupiedBandwidth)
    ensures (w.satnets[satnetId].beam, v.inputs.direction) in w.configs
    ensures p.config == w.configs[(w.satnets[satnetId].beam, v.inputs.direction)]
  {
  }

  /** Which side of a proposal is the uplink. */
  function UplinkSideOf(p: Proposal): Side {
    if p.config.canonicalLeg == Some(p.config.uplinkLeg) then p.canonical else p.translated
  }

  function DownlinkSideOf(p: Proposal): Side {
    if p.config.canonicalLeg == Some(p.config.uplinkLeg) then p.translated else p.canonical
  }

  lemma PreviewPlaces(w: World, rows: seq<Row>, now: int, satnetId: nat, v: Values, exclude: Option<nat>, p: Proposal)
    requires KnownSatnet(w, satnetId)
    requires Preview(w, rows, now, satnetId, v, exclude) == Ok(p)
    ensures p.occupiedBandwidth > 0
    ensures var up, down := UplinkSideOf(p), DownlinkSideOf(p);
            && up.leg == p.config.uplinkLeg && up.window == p.config.uplinkWindow
            && down.leg == p.config.downlinkLeg && down.window == p.config.downlinkWindow
            && up.occupied == OccupiedRange(v.inputs.centre, p.occupiedBandwidth)
            && up.alloc == up.occupied.Expanded(p.guards.left, p.guards.right)
            && down.occupied == Translate(up.occupied, p.config.translation)
            && down.alloc == Translate(up.alloc, p.config.translation)
    ensures p.canonicalAssignment == AssignmentFor(p.config, p.canonical.window, now)
    ensures p.translatedAssignment == AssignmentFor(p.config, p.translated.window, now)
    ensures p.canonicalAssignment.None? || p.translatedAssignment.None? ==> p.findings == [NoActiveAssignment]
  {
  }

  /** The lowest grant of the leg's window in force now, or none where there is none. */
  ghost predicate JudgedBy(c: DirectionConfig, side: Side, grant: Option<Assignment>, now: int) {
    && (grant.None? <==> forall a :: !GrantOf(c, side.window.id, now, a))
    && (grant.Some? ==> GrantOf(c, side.window.id, now, grant.value)
                        && forall a :: GrantOf(c, side.window.id, now, a) ==> grant.value.rf.start <= a.rf.start)
  }

  /** Sizes and guards that fit what was typed; an uplink around the typed centre; its image on the downlink. */
  ghost predicate Describes(satnet: Satnet, v: Values, p: Proposal) {
    && p.occupiedBandwidth > 0 && SizesFit(v.inputs, p.symbolRate, p.occupiedBandwidth)
    && GuardsFit(satnet, v.inputs, p.occupiedBandwidth, p.guards)
    && var up, down := UplinkSideOf(p), DownlinkSideOf(p);
       && up.leg == p.config.uplinkLeg && up.window == p.config.uplinkWindow
       && down.leg == p.config.downlinkLeg && down.window == p.config.downlinkWindow
       && PlacedAround(v.inputs.centre, p.occupiedBandwidth, p.guards, up.occupied, up.alloc)
       && down.occupied == Translate(up.occupied, p.config.translation)
       && down.alloc == Translate(up.alloc, p.config.translation)
  }

  lemma SizedAndPlacedDescribes(satnet: Satnet, v: Values, p: Proposal)
    requires p.occupiedBandwidth > 0
    requires ResolveRequest(v.inputs.mode, v.inputs.value, v.inputs.rolloff) == Some((p.symbolRate, p.occupiedBandwidth))
    requires p.guards == GuardsFor(satnet, v.inputs.guardPolicy, p.occupiedBandwidth)
    requires var up, down := UplinkSideOf(p), DownlinkSideOf(p);
             && up.leg == p.config.uplinkLeg && up.window == p.config.uplinkWindow
             && down.leg == p.config.downlinkLeg && down.window == p.config.downlinkWindow
             && up.occupied == OccupiedRange(v.inputs.centre, p.occupiedBandwidth)
             && up.alloc == up.occupied.Expanded(p.guards.left, p.guards.right)
             && down.occupied == Translate(up.occupied, p.config.translation)
             && down.alloc == Translate(up.alloc, p.config.translation)
    ensures Describes(satnet, v, p)
  {
    RequestIsResolved(v.inputs.mode, v.inputs.value, v.inputs.rolloff);
    GuardsAreTheNarrowest(satnet, v.inputs, p.occupiedBandwidth);
    PlacementIsAround(v.inputs.centre, p.occupiedBandwidth, p.guards);
  }

  /** A preview is of the Satnet's own Beam in the direction asked for. Its sizes and guards fit what was
      typed, its uplink stands around the typed centre, its downlink is the uplink's image, and it names
      the lowest grant in force of either window; without both it has that to say and nothing else. */
  lemma PreviewDescribesTheRequest(w: World, rows: seq<Row>, now: int, satnetId: nat, v: Values, exclude: Option<nat>, p: Proposal)
    requires KnownSatnet(w, satnetId)
    requires Preview(w, rows, now, satnetId, v, exclude) == Ok(p)
    ensures (w.satnets[satnetId].beam, v.inputs.direction) in w.configs
    ensures p.config == w.configs[(w.satnets[satnetId].beam, v.inputs.direction)]
    ensures Describes(w.satnets[satnetId], v, p)
    ensures JudgedBy(p.config, p.canonical, p.canonicalAssignment, now)
    ensures JudgedBy(p.config, p.translated, p.translatedAssignment, now)
    ensures p.canonicalAssignment.None? || p.translatedAssignment.None? ==> p.findings == [NoActiveAssignment]
  {
    PreviewSizes(w, rows, now, satnetId, v, exclude, p);
    PreviewPlaces(w, rows, now, satnetId, v, exclude, p);
    SizedAndPlacedDescribes(w.satnets[satnetId], v, p);
    AssignmentIsTheLowestGrant(p.config, p.canonical.window, now);
    AssignmentIsTheLowestGrant(p.config, p.translated.window, now);
  }

  ghost predicate BothGranted(c: DirectionConfig, now: int) {
    (exists a :: GrantOf(c, c.uplinkWindow.id, now, a)) && (exists a :: GrantOf(c, c.downlinkWindow.id, now, a))
  }

  /** A preview is refused exactly for a direction that is not configured; and in one that is, for a value
      that is not positive, a roll-off outside 0 to 1, a payload constant below zero, or, where both windows
      are granted, a period that does not run forwards. */
  lemma PreviewIsRefusedIff(w: World, rows: seq<Row>, now: int, satnetId: nat, v: Values, exclude: Option<nat>)
    requires KnownSatnet(w, satnetId)
    ensures var key := (w.satnets[satnetId].beam, v.inputs.direction);
            var preview := Preview(w, rows, now, satnetId, v, exclude);
            && (preview == Err(DoesNotExist) <==> key !in w.configs)
            && (preview == Err(BadValue) <==>
                key in w.configs
                && (|| v.inputs.value <= 0 || v.inputs.rolloff < 0 || v.inputs.rolloff > 1000
                    || w.configs[key].translation.constant < 0
                    || (BothGranted(w.configs[key], now) && v.validUntil.Some? && v.validUntil.value <= v.validFrom)))
            && preview.Ok? == (preview !in {Err(DoesNotExist), Err(BadValue)})
  {
    var key := (w.satnets[satnetId].beam, v.inputs.direction);
    RequestIsResolved(v.inputs.mode, v.inputs.value, v.inputs.rolloff);
    if key in w.configs {
      AssignmentIsTheLowestGrant(w.configs[key], w.configs[key].uplinkWindow, now);
      AssignmentIsTheLowestGrant(w.configs[key], w.configs[key].downlinkWindow, now);
    }
  }

  // ------------------------------------------------------------------------------------------
  // Leaving an allocation out
  // ------------------------------------------------------------------------------------------

  /** A preview that leaves an allocation out is the preview of the table without its rows. */
  lemma ExcludingIsPreviewingTheRest(w: World, rows: seq<Row>, now: int, satnetId: nat, v: Values, id: nat)
    requires KnownSatnet(w, satnetId)
    ensures Preview(w, rows, now, satnetId, v, Some(id)) == Preview(w, Released(rows, id), now, satnetId, v, None)
  {
    forall c, side, grant, requested
      ensures LegFindings(c, rows, side, grant, requested, now, Some(id)) ==
              LegFindings(c, Released(rows, id), side, grant, requested, now, None)
    {
      ExcludingIsReleasing(rows, LegResources(c.resources, side.leg), now, id);
    }
  }

  // ------------------------------------------------------------------------------------------
  // Exactly when it has nothing to say
  // ------------------------------------------------------------------------------------------

  lemma {:induction false} AsPathFindingsMembers(findings: seq<Containment.Finding>, f: PathFinding)
    ensures f in AsPathFindings(findings) <==> f.NotContained? && f.finding in findings
  {
    if findings != [] {
      AsPathFindingsMembers(findings[1..], f);
      assert findings == [findings[0]] + findings[1..];
    }
  }

  /** What it lists is what the three parents and the two legs have against it. */
  lemma FindingsComeFromParentsAndLegs(satnet: Satnet, beam: Beam, c: DirectionConfig, rows: seq<Row>, canonical: Side,
                                       translated: Side, grant: Assignment, other: Assignment, requested: TimePeriod,
                                       now: int, exclude: Option<nat>, f: PathFinding)
    ensures f in ProposalFindings(satnet, beam, c, rows, canonical, translated, grant, other, requested, now, exclude) <==>
            || f in LegFindings(c, rows, canonical, grant, requested, now, exclude)
            || f in LegFindings(c, rows, translated, other, requested, now, exclude)
            || (f.NotContained? && Containment.Objects(satnet, beam, grant, c, requested, c.direction,
                                                       canonical.window.polarization, f.finding))
  {
    if f.NotContained? {
      Containment.FindingsMean(satnet, beam, grant, c, requested, c.direction, canonical.window.polarization, f.finding);
    }
    AsPathFindingsMembers(Containment.Evaluate(satnet, beam, grant, c, requested, c.direction,
                                               canonical.window.polarization).findings, f);
  }

  /** The grant is one of this direction, and it, the Beam and the Satnet cover the whole period. */
  predicate CoveredByParents(satnet: Satnet, beam: Beam, c: DirectionConfig, grant: Assignment, requested: TimePeriod, side: Side) {
    && c.beam == beam.id == satnet.beam
    && grant.window.polarization == side.window.polarization && c.payloadPath == grant.payloadPath
    && satnet.period.Contains(requested) && beam.period.Contains(requested) && grant.period.Contains(requested)
  }

  /** What a preview passes: both legs granted and clear, and a period every parent covers. Nothing more,
      and nothing less. */
  lemma PreviewIsCleanIff(w: World, rows: seq<Row>, now: int, satnet: nat, v: Values, exclude: Option<nat>, p: Proposal)
    requires KnownSatnet(w, satnet) && Preview(w, rows, now, satnet, v, exclude) == Ok(p)
    ensures p.findings == [] <==>
            && p.canonicalAssignment.Some? && p.translatedAssignment.Some? && MakePeriod(v.validFrom, v.validUntil).Some?
            && var requested := MakePeriod(v.validFrom, v.validUntil).value;
               && CoveredByParents(w.satnets[satnet], w.beams[w.satnets[satnet].beam], p.config, p.canonicalAssignment.value,
                           requested, p.canonical)
               && LegClear(p.config, rows, p.canonical, p.canonicalAssignment.value, requested, now, exclude)
               && LegClear(p.config, rows, p.translated, p.translatedAssignment.value, requested, now, exclude)
  {
    if p.canonicalAssignment.Some? && p.translatedAssignment.Some? {
      var requested := MakePeriod(v.validFrom, v.validUntil).value;
      var parent, beam := w.satnets[satnet], w.beams[w.satnets[satnet].beam];
      var grant, other := p.canonicalAssignment.value, p.translatedAssignment.value;
      FindingsAreNoneIff(parent, beam, p.config, rows, p.canonical, p.translated, grant, other, requested, now, exclude);
    }
  }

  lemma FindingsAreNoneIff(satnet: Satnet, beam: Beam, c: DirectionConfig, rows: seq<Row>, canonical: Side, translated: Side,
                           grant: Assignment, other: Assignment, requested: TimePeriod, now: int, exclude: Option<nat>)
    ensures ProposalFindings(satnet, beam, c, rows, canonical, translated, grant, other, requested, now, exclude) == [] <==>
            && CoveredByParents(satnet, beam, c, grant, requested, canonical)
            && LegClear(c, rows, canonical, grant, requested, now, exclude)
            && LegClear(c, rows, translated, other, requested, now, exclude)
  {
    Containment.CleanVerdictMeansContained(satnet, beam, grant, c, requested, c.direction, canonical.window.polarization);
    LegIsCleanIff(c, rows, canonical, grant, requested, now, exclude);
    LegIsCleanIff(c, rows, translated, other, requested, now, exclude);
  }

  /** What a clean proposal has established about both legs. */
  lemma CleanProposalFacts(w: World, rows: seq<Row>, now: int, satnet: nat, v: Values, exclude: Option<nat>, p: Proposal)
    requires KnownSatnet(w, satnet) && Preview(w, rows, now, satnet, v, exclude) == Ok(p) && p.findings == []
    ensures p.canonicalAssignment.Some? && p.translatedAssignment.Some?
    ensures p.canonicalAssignment.value.isActive && p.translatedAssignment.value.isActive
    ensures MakePeriod(v.validFrom, v.validUntil).Some?
    ensures var requested := MakePeriod(v.validFrom, v.validUntil).value;
            && LegFindings(p.config, rows, p.canonical, p.canonicalAssignment.value, requested, now, exclude) == []
            && LegFindings(p.config, rows, p.translated, p.translatedAssignment.value, requested, now, exclude) == []
            && w.satnets[satnet].period.Contains(requested)
            && w.beams[w.satnets[satnet].beam].period.Contains(requested)
            && p.canonicalAssignment.value.period.Contains(requested)
    ensures p.canonical.alloc.Contains(p.canonical.occupied) && p.translated.alloc.Contains(p.translated.occupied)
  {
    PreviewIsCleanIff(w, rows, now, satnet, v, exclude, p);
    var requested := MakePeriod(v.validFrom, v.validUntil).value;
    LegIsCleanIff(p.config, rows, p.canonical, p.canonicalAssignment.value, requested, now, exclude);
    LegIsCleanIff(p.config, rows, p.translated, p.translatedAssignment.value, requested, now, exclude);
    ActiveAssignmentMembers(p.config, now, Some(p.canonical.window.id), p.canonicalAssignment.value);
    ActiveAssignmentMembers(p.config, now, Some(p.translated.window.id), p.translatedAssignment.value);
  }
}
