/** Is a requested period allowed by all three parents (`satnets/containment.py`)? */
module Containment {
  import opened Wrappers
  import opened Periods
  import opened MasterData

  datatype Limiter = SatnetLimit | BeamLimit | AssignmentLimit

  datatype FindingCode =
    | WrongBeam | BeamNotTheSatnets | WrongDirection | WrongPolarization | StalePayloadPath
    | NoCommonPeriod | PeriodNotContained

  datatype Finding = Finding(code: FindingCode, limiter: Option<Limiter>)

  datatype Verdict = Verdict(permitted: Option<TimePeriod>, findings: seq<Finding>, limiter: Option<Limiter>)

  function Parents(satnet: Satnet, beam: Beam, assignment: Assignment): seq<TimePeriod> {
    [satnet.period, beam.period, assignment.period]
  }

  function ParentPeriod(l: Limiter, satnet: Satnet, beam: Beam, assignment: Assignment): TimePeriod {
    match l
    case SatnetLimit => satnet.period
    case BeamLimit => beam.period
    case AssignmentLimit => assignment.period
  }

  /** `_check_assignment_belongs`; `config` is the configuration the assignment was drawn on. */
  function BelongsFindings(satnet: Satnet, beam: Beam, assignment: Assignment, config: DirectionConfig,
                           direction: Direction, polarization: Polarization): seq<Finding> {
    (if config.beam != beam.id then [Finding(WrongBeam, Some(AssignmentLimit))] else [])
    + (if beam.id != satnet.beam then [Finding(BeamNotTheSatnets, Some(BeamLimit))] else [])
    + (if config.direction != direction then [Finding(WrongDirection, Some(AssignmentLimit))] else [])
    + (if assignment.window.polarization != polarization then [Finding(WrongPolarization, Some(AssignmentLimit))] else [])
    + (if config.payloadPath != assignment.payloadPath then [Finding(StalePayloadPath, Some(AssignmentLimit))] else [])
  }

  /** `_limiting_parent`: the first parent, in the order an operator can act on, that is broken. */
  function LimitingParent(satnet: Satnet, beam: Beam, assignment: Assignment, requested: TimePeriod): Option<Limiter> {
    if !satnet.period.Contains(requested) then Some(SatnetLimit)
    else if !beam.period.Contains(requested) then Some(BeamLimit)
    else if !assignment.period.Contains(requested) then Some(AssignmentLimit)
    else None
  }

  predicate EndsBefore(a: Option<int>, b: Option<int>) {
    a.Some? && (b.None? || a.value < b.value)
  }

  function LatestStarting(satnet: Satnet, beam: Beam, assignment: Assignment): Limiter {
    var sb := if beam.period.start > satnet.period.start then BeamLimit else SatnetLimit;
    if assignment.period.start > ParentPeriod(sb, satnet, beam, assignment).start then AssignmentLimit else sb
  }

  /** `_earliest_ending`: the parent that closes first; by latest start when none of them closes. */
  function EarliestEnding(satnet: Satnet, beam: Beam, assignment: Assignment): Limiter {
    if satnet.period.end.None? && beam.period.end.None? && assignment.period.end.None? then
      LatestStarting(satnet, beam, assignment)
    else
      var sb := if EndsBefore(beam.period.end, satnet.period.end) then BeamLimit else SatnetLimit;
      if EndsBefore(assignment.period.end, ParentPeriod(sb, satnet, beam, assignment).end) then AssignmentLimit else sb
  }

  function Evaluate(satnet: Satnet, beam: Beam, assignment: Assignment, config: DirectionConfig,
                    requested: TimePeriod, direction: Direction, polarization: Polarization): Verdict {
    var belongs := BelongsFindings(satnet, beam, assignment, config, direction, polarization);
    match Intersect(Parents(satnet, beam, assignment))
    case None =>
      Verdict(None, belongs + [Finding(NoCommonPeriod, Some(EarliestEnding(satnet, beam, assignment)))], None)
    case Some(permitted) =>
      if permitted.Contains(requested) then Verdict(Some(permitted), belongs, None)
      else
        var limiter := LimitingParent(satnet, beam, assignment, requested);
        Verdict(Some(permitted), belongs + [Finding(PeriodNotContained, limiter)], limiter)
  }

  lemma CommonPeriodFitsEveryParent(satnet: Satnet, beam: Beam, assignment: Assignment, p: TimePeriod)
    ensures var common := Intersect(Parents(satnet, beam, assignment));
            (common.Some? && common.value.Contains(p)) <==>
            satnet.period.Contains(p) && beam.period.Contains(p) && assignment.period.Contains(p)
  {
    var parents := Parents(satnet, beam, assignment);
    assert parents[0] == satnet.period && parents[1] == beam.period && parents[2] == assignment.period;
    IntersectIsGreatestLowerBound(parents, p);
  }

  /** The verdict is clean exactly when the assignment is the right one and every parent covers the
      whole period. */
  lemma CleanVerdictMeansContained(satnet: Satnet, beam: Beam, assignment: Assignment, config: DirectionConfig,
                                   requested: TimePeriod, direction: Direction, polarization: Polarization)
    ensures Evaluate(satnet, beam, assignment, config, requested, direction, polarization).findings == [] <==>
            && config.beam == beam.id == satnet.beam && config.direction == direction
            && assignment.window.polarization == polarization && config.payloadPath == assignment.payloadPath
            && satnet.period.Contains(requested) && beam.period.Contains(requested)
            && assignment.period.Contains(requested)
  {
    CommonPeriodFitsEveryParent(satnet, beam, assignment, requested);
  }

  /** The first parent, Satnet before Beam before assignment, that does not cover the period. */
  predicate FirstBroken(l: Limiter, satnet: Satnet, beam: Beam, assignment: Assignment, requested: TimePeriod) {
    match l
    case SatnetLimit => !satnet.period.Contains(requested)
    case BeamLimit => satnet.period.Contains(requested) && !beam.period.Contains(requested)
    case AssignmentLimit =>
      satnet.period.Contains(requested) && beam.period.Contains(requested) && !assignment.period.Contains(requested)
  }

  /** The first parent in the same order of those that end soonest. */
  predicate FirstToEnd(l: Limiter, satnet: Satnet, beam: Beam, assignment: Assignment) {
    var s, b, a := satnet.period.end, beam.period.end, assignment.period.end;
    match l
    case SatnetLimit => !EndsSooner(b, s) && !EndsSooner(a, s)
    case BeamLimit => EndsSooner(b, s) && !EndsSooner(a, b)
    case AssignmentLimit => EndsSooner(a, s) && EndsSooner(a, b)
  }

  /** There is an end, and the other comes later or never. */
  predicate EndsSooner(a: Option<int>, b: Option<int>) {
    match (a, b)
    case (None, _) => false
    case (Some(x), None) => true
    case (Some(x), Some(y)) => x < y
  }

  /** What each finding says, with the parent it names. */
  predicate Objects(satnet: Satnet, beam: Beam, assignment: Assignment, config: DirectionConfig, requested: TimePeriod,
                          direction: Direction, polarization: Polarization, f: Finding) {
    match f.code
    case WrongBeam => config.beam != beam.id && f.limiter == Some(AssignmentLimit)
    case BeamNotTheSatnets => beam.id != satnet.beam && f.limiter == Some(BeamLimit)
    case WrongDirection => config.direction != direction && f.limiter == Some(AssignmentLimit)
    case WrongPolarization => assignment.window.polarization != polarization && f.limiter == Some(AssignmentLimit)
    case StalePayloadPath => config.payloadPath != assignment.payloadPath && f.limiter == Some(AssignmentLimit)
    case NoCommonPeriod =>
      && TwoNeverTogether(satnet, beam, assignment)
      && f.limiter.Some? && FirstToEnd(f.limiter.value, satnet, beam, assignment)
    case PeriodNotContained =>
      && !TwoNeverTogether(satnet, beam, assignment)
      && f.limiter.Some? && FirstBroken(f.limiter.value, satnet, beam, assignment, requested)
  }

  /** Two of the parents are never in force together. */
  predicate TwoNeverTogether(satnet: Satnet, beam: Beam, assignment: Assignment) {
    || !satnet.period.Overlaps(beam.period)
    || !satnet.period.Overlaps(assignment.period)
    || !beam.period.Overlaps(assignment.period)
  }

  lemma NoCommonPeriodIff(satnet: Satnet, beam: Beam, assignment: Assignment)
    ensures Intersect(Parents(satnet, beam, assignment)).None? <==> TwoNeverTogether(satnet, beam, assignment)
  {
    var parents := Parents(satnet, beam, assignment);
    assert parents[0] == satnet.period && parents[1] == beam.period && parents[2] == assignment.period;
    NoIntersectionIffTwoDisjoint(parents);
  }

  lemma EarliestEndingIsFirst(satnet: Satnet, beam: Beam, assignment: Assignment, l: Limiter)
    requires TwoNeverTogether(satnet, beam, assignment)
    ensures EarliestEnding(satnet, beam, assignment) == l <==> FirstToEnd(l, satnet, beam, assignment)
  {
  }

  lemma BelongsFindingsMean(satnet: Satnet, beam: Beam, assignment: Assignment, config: DirectionConfig,
                            direction: Direction, polarization: Polarization, f: Finding)
    ensures f in BelongsFindings(satnet, beam, assignment, config, direction, polarization) <==>
            match f.code
            case WrongBeam => config.beam != beam.id && f.limiter == Some(AssignmentLimit)
            case BeamNotTheSatnets => beam.id != satnet.beam && f.limiter == Some(BeamLimit)
            case WrongDirection => config.direction != direction && f.limiter == Some(AssignmentLimit)
            case WrongPolarization => assignment.window.polarization != polarization && f.limiter == Some(AssignmentLimit)
            case StalePayloadPath => config.payloadPath != assignment.payloadPath && f.limiter == Some(AssignmentLimit)
            case _ => false
  {
  }

  /** The verdict holds a finding exactly when what it says is so: each way of belonging that is wrong, with
      its parent; no common period, with the first parent to end; a period that is not contained, with the
      first parent that does not cover it. Nothing limits a request with no common period or inside it. */
  lemma FindingsMean(satnet: Satnet, beam: Beam, assignment: Assignment, config: DirectionConfig, requested: TimePeriod,
                     direction: Direction, polarization: Polarization, f: Finding)
    ensures var v := Evaluate(satnet, beam, assignment, config, requested, direction, polarization);
            && (f in v.findings <==> Objects(satnet, beam, assignment, config, requested, direction, polarization, f))
            && (v.permitted.None? <==> TwoNeverTogether(satnet, beam, assignment))
            && (v.limiter.Some? ==> v.permitted.Some? && FirstBroken(v.limiter.value, satnet, beam, assignment, requested))
            && (v.limiter.None? ==> v.permitted.None? || v.permitted.value.Contains(requested))
  {
    NoCommonPeriodIff(satnet, beam, assignment);
    CommonPeriodFitsEveryParent(satnet, beam, assignment, requested);
    BelongsFindingsMean(satnet, beam, assignment, config, direction, polarization, f);
    if f.limiter.Some? && TwoNeverTogether(satnet, beam, assignment) {
      EarliestEndingIsFirst(satnet, beam, assignment, f.limiter.value);
    }
  }

  /** When the period is refused, the parent that is named really does not cover it. */
  lemma RefusalNamesABrokenParent(satnet: Satnet, beam: Beam, assignment: Assignment, config: DirectionConfig,
                                  requested: TimePeriod, direction: Direction, polarization: Polarization)
    ensures var v := Evaluate(satnet, beam, assignment, config, requested, direction, polarization);
            v.permitted.Some? && !v.permitted.value.Contains(requested) ==>
              && v.limiter.Some? && !ParentPeriod(v.limiter.value, satnet, beam, assignment).Contains(requested)
              && Finding(PeriodNotContained, v.limiter) in v.findings
  {
    CommonPeriodFitsEveryParent(satnet, beam, assignment, requested);
  }

  /** And the maximum that is offered is the largest period every parent covers. */
  lemma OfferedMaximumIsTheCommonPeriod(satnet: Satnet, beam: Beam, assignment: Assignment, config: DirectionConfig,
                                        requested: TimePeriod, direction: Direction, polarization: Polarization,
                                        p: TimePeriod)
    ensures var v := Evaluate(satnet, beam, assignment, config, requested, direction, polarization);
            (v.permitted.Some? && v.permitted.value.Contains(p)) <==>
            satnet.period.Contains(p) && beam.period.Contains(p) && assignment.period.Contains(p)
  {
    CommonPeriodFitsEveryParent(satnet, beam, assignment, p);
  }

  lemma EarliestEndingEndsFirst(satnet: Satnet, beam: Beam, assignment: Assignment, l: Limiter)
    requires ParentPeriod(l, satnet, beam, assignment).end.Some?
    ensures var named := ParentPeriod(EarliestEnding(satnet, beam, assignment), satnet, beam, assignment);
            named.end.Some? && named.end.value <= ParentPeriod(l, satnet, beam, assignment).end.value
  {
  }

  /** Of parents that never end, the first of those that start last. */
  lemma OpenEndedNamesTheLatestStart(satnet: Satnet, beam: Beam, assignment: Assignment)
    requires satnet.period.end.None? && beam.period.end.None? && assignment.period.end.None?
    ensures var s, b, a := satnet.period.start, beam.period.start, assignment.period.start;
            match EarliestEnding(satnet, beam, assignment)
            case SatnetLimit => s >= b && s >= a
            case BeamLimit => b > s && b >= a
            case AssignmentLimit => a > s && a > b
  {
  }

  lemma TwoParentsApart(satnet: Satnet, beam: Beam, assignment: Assignment) returns (closes: Limiter, opens: Limiter)
    requires Intersect(Parents(satnet, beam, assignment)).None?
    ensures var closing := ParentPeriod(closes, satnet, beam, assignment);
            closing.end.Some? && closing.end.value <= ParentPeriod(opens, satnet, beam, assignment).start
  {
    var parents := Parents(satnet, beam, assignment);
    var limits := [SatnetLimit, BeamLimit, AssignmentLimit];
    assert forall k :: 0 <= k < 3 ==> parents[k] == ParentPeriod(limits[k], satnet, beam, assignment);
    NoIntersectionIffTwoDisjoint(parents);
    var i, j :| 0 <= i < |parents| && 0 <= j < |parents| && !parents[i].Overlaps(parents[j]);
    closes, opens := limits[i], limits[j];
    if !(parents[i].end.Some? && parents[j].start >= parents[i].end.value) {
      closes, opens := opens, closes;
    }
  }

  /** When there is no common period, the parent that is named has an end, no other parent ends
      sooner, and some parent has not begun when it ends. Falling back on the latest start, for
      parents that never end, cannot happen. */
  lemma NoCommonPeriodNamesTheFirstToClose(satnet: Satnet, beam: Beam, assignment: Assignment)
    requires Intersect(Parents(satnet, beam, assignment)).None?
    ensures var named := ParentPeriod(EarliestEnding(satnet, beam, assignment), satnet, beam, assignment);
            && named.end.Some?
            && (forall l :: ParentPeriod(l, satnet, beam, assignment).end.Some? ==>
                  named.end.value <= ParentPeriod(l, satnet, beam, assignment).end.value)
            && (exists l :: named.end.value <= ParentPeriod(l, satnet, beam, assignment).start)
  {
    var closes, opens := TwoParentsApart(satnet, beam, assignment);
    EarliestEndingEndsFirst(satnet, beam, assignment, closes);
    var named := ParentPeriod(EarliestEnding(satnet, beam, assignment), satnet, beam, assignment);
    assert named.end.value <= ParentPeriod(opens, satnet, beam, assignment).start;
    forall l | ParentPeriod(l, satnet, beam, assignment).end.Some?
      ensures named.end.value <= ParentPeriod(l, satnet, beam, assignment).end.value
    {
      EarliestEndingEndsFirst(satnet, beam, assignment, l);
    }
  }
}
