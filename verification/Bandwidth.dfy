/**
 * Bandwidth, guards and payload translation: `calculations/bandwidth.py`, `guards.py`,
 * `translation.py` and the value types of `types.py`.
 *
 * A roll-off is a whole number of thousandths and a guard percentage a whole number of
 * thousandths of a percent, as their columns store them. `None` is the original's ValueError.
 */
module Bandwidth {
  import opened Wrappers
  import opened Ranges
  import opened Rounding

  // ------------------------------------------------------------------------------------------
  // Symbol rate and occupied bandwidth
  // ------------------------------------------------------------------------------------------

  const QUOTIENT_SAFE_BELOW: nat := 1_0000000000_0000000000_0000000000_0000000000

  predicate ValidRolloff(rolloff: int) {
    0 <= rolloff <= 1000
  }

  /** `occupied_bandwidth_hz`: the exact product, rounded up. */
  function OccupiedBandwidth(rate: int, rolloff: int): Option<int> {
    if !ValidRolloff(rolloff) || rate <= 0 then None
    else Some(CeilDiv(rate * (1000 + rolloff), 1000))
  }

  /** `symbol_rate_sps`: the fifty-digit quotient, rounded down. */
  function SymbolRate(bandwidth: int, rolloff: int): Option<int> {
    if !ValidRolloff(rolloff) || bandwidth <= 0 then None
    else Some(FloorHz(Quotient(bandwidth * 1000, 1000 + rolloff)))
  }

  /** Below 10^40 Hz the fifty-digit quotient and the true quotient have the same floor. */
  lemma QuotientNeverChangesTheFloor(bandwidth: int, rolloff: int)
    requires ValidRolloff(rolloff) && 0 < bandwidth < QUOTIENT_SAFE_BELOW
    ensures SymbolRate(bandwidth, rolloff) == Some(FloorDiv(bandwidth * 1000, 1000 + rolloff))
  {
    var n, d := bandwidth * 1000, 1000 + rolloff;
    assert Pow10(4) == 10 * (10 * (10 * (10 * Pow10(0))));
    PlacesAtLeast(n, d, 4);
    Pow10Grows(4, Places(n, d));
    FloorSurvivesRounding(n, d);
  }

  /** The rate is the one whole number that the bandwidth can carry and whose successor it cannot. */
  lemma RateIs(bandwidth: int, rolloff: int, rate: int)
    requires ValidRolloff(rolloff) && 0 < bandwidth < QUOTIENT_SAFE_BELOW
    requires rate * (1000 + rolloff) <= bandwidth * 1000 < (rate + 1) * (1000 + rolloff)
    ensures SymbolRate(bandwidth, rolloff) == Some(rate)
  {
    QuotientNeverChangesTheFloor(bandwidth, rolloff);
    FloorDivIsGreatest(bandwidth * 1000, 1000 + rolloff, rate);
    FloorDivIsGreatest(bandwidth * 1000, 1000 + rolloff, rate + 1);
  }

  /** The two roundings are adjoint: a rate's bandwidth fits in b exactly when the rate is no more
      than the rate b can carry. */
  lemma RoundingsAreAdjoint(rate: int, bandwidth: int, rolloff: int)
    requires ValidRolloff(rolloff) && 0 < rate && 0 < bandwidth < QUOTIENT_SAFE_BELOW
    ensures OccupiedBandwidth(rate, rolloff).value <= bandwidth <==>
            rate <= SymbolRate(bandwidth, rolloff).value
  {
    QuotientNeverChangesTheFloor(bandwidth, rolloff);
    CeilDivIsLeast(rate * (1000 + rolloff), 1000, bandwidth);
    FloorDivIsGreatest(bandwidth * 1000, 1000 + rolloff, rate);
  }

  lemma WidensByAtLeastOne(rate: int, rolloff: int)
    requires ValidRolloff(rolloff) && 0 < rate
    ensures OccupiedBandwidth(rate + 1, rolloff).value > OccupiedBandwidth(rate, rolloff).value >= rate
  {
    var q := 1000 + rolloff;
    var b := OccupiedBandwidth(rate, rolloff).value;
    CeilDivIsLeast((rate + 1) * q, 1000, b);
    CeilDivIsLeast(rate * q, 1000, b - 1);
    assert (rate + 1) * q == rate * q + q;
    CeilDivIsLeast(rate * q, 1000, rate - 1);
    MulMonotone(1000, q, rate);
  }

  /** Symbol rate to bandwidth and back is the identity. */
  lemma RateRoundTrip(rate: int, rolloff: int)
    requires ValidRolloff(rolloff) && 0 < rate
    requires OccupiedBandwidth(rate, rolloff).value < QUOTIENT_SAFE_BELOW
    ensures SymbolRate(OccupiedBandwidth(rate, rolloff).value, rolloff) == Some(rate)
  {
    var b := OccupiedBandwidth(rate, rolloff).value;
    WidensByAtLeastOne(rate, rolloff);
    RoundingsAreAdjoint(rate, b, rolloff);
    RoundingsAreAdjoint(rate + 1, b, rolloff);
  }

  /** Bandwidth to a positive symbol rate and back never grows and loses at most 1 Hz. */
  lemma BandwidthRoundTrip(bandwidth: int, rolloff: int)
    requires ValidRolloff(rolloff) && 0 < bandwidth < QUOTIENT_SAFE_BELOW
    requires SymbolRate(bandwidth, rolloff).value > 0
    ensures bandwidth - 1 <= OccupiedBandwidth(SymbolRate(bandwidth, rolloff).value, rolloff).value <= bandwidth
  {
    var q := 1000 + rolloff;
    var rate := SymbolRate(bandwidth, rolloff).value;
    QuotientNeverChangesTheFloor(bandwidth, rolloff);
    RoundingsAreAdjoint(rate, bandwidth, rolloff);
    FloorDivIsGreatest(bandwidth * 1000, q, rate + 1);
    OneRateStep(rate, q, bandwidth);
    CeilDivIsLeast(rate * q, 1000, bandwidth - 2);
  }

  lemma OneRateStep(rate: int, q: int, bandwidth: int)
    requires q <= 2000 && (rate + 1) * q > bandwidth * 1000
    ensures rate * q > (bandwidth - 2) * 1000
  {
    assert (rate + 1) * q == rate * q + q;
  }

  datatype InputMode = OccupiedBw | SymbolRateMode

  /** `BandwidthRequest` and `resolve_request`: (symbol rate, occupied bandwidth). */
  function ResolveRequest(mode: InputMode, value: int, rolloff: int): (r: Option<(int, int)>)
    ensures r.Some? ==> r.value.1 > 0
  {
    if value <= 0 || rolloff < 0 then None
    else match mode
      case SymbolRateMode =>
        var bandwidth := OccupiedBandwidth(value, rolloff);
        if bandwidth.None? then None
        else
          assert bandwidth.value > 0 by { WidensByAtLeastOne(value, rolloff); }
          Some((value, bandwidth.value))
      case OccupiedBw =>
        var rate := SymbolRate(value, rolloff);
        if rate.None? then None else Some((rate.value, value))
  }

  /** What a resolved request is. It is refused exactly for a value that is not positive or a roll-off
      outside 0 to 1. Otherwise what was typed is kept; a typed rate gets the least bandwidth that holds
      it at this roll-off, and a typed bandwidth the greatest rate it holds. */
  lemma RequestIsResolved(mode: InputMode, value: int, rolloff: int)
    ensures ResolveRequest(mode, value, rolloff) == None <==> value <= 0 || rolloff < 0 || rolloff > 1000
    ensures ResolveRequest(mode, value, rolloff).Some? ==>
              var (rate, bandwidth) := ResolveRequest(mode, value, rolloff).value;
              match mode
              case SymbolRateMode =>
                rate == value && forall b :: bandwidth <= b <==> value * (1000 + rolloff) <= b * 1000
              case OccupiedBw =>
                bandwidth == value
                && (value < QUOTIENT_SAFE_BELOW ==>
                      rate * (1000 + rolloff) <= value * 1000 < (rate + 1) * (1000 + rolloff))
  {
    if ResolveRequest(mode, value, rolloff).Some? {
      match mode {
        case SymbolRateMode =>
          forall b
            ensures OccupiedBandwidth(value, rolloff).value <= b <==> value * (1000 + rolloff) <= b * 1000
          {
            CeilDivIsLeast(value * (1000 + rolloff), 1000, b);
          }
        case OccupiedBw =>
          if value < QUOTIENT_SAFE_BELOW {
            QuotientNeverChangesTheFloor(value, rolloff);
            var rate := SymbolRate(value, rolloff).value;
            FloorDivIsGreatest(value * 1000, 1000 + rolloff, rate);
            FloorDivIsGreatest(value * 1000, 1000 + rolloff, rate + 1);
          }
      }
    }
  }

  // ------------------------------------------------------------------------------------------
  // Guards
  // ------------------------------------------------------------------------------------------

  datatype GuardPolicy =
    | FixedGuard(fixedLeft: nat, fixedRight: nat)
    | PercentGuard(percentLeft: nat, percentRight: nat)
    | MaxGuard(fixedLeft: nat, fixedRight: nat, percentLeft: nat, percentRight: nat)

  datatype GuardWidths = GuardWidths(left: nat, right: nat)

  /** `_percent_of`: rounded up, so a guard is never narrower than its percentage. */
  function PercentOf(bandwidth: nat, percent: nat): (hz: nat)
    ensures bandwidth * percent <= hz * 100000 < bandwidth * percent + 100000
  {
    CeilDivIsLeast(bandwidth * percent, 100000, -1);
    CeilDiv(bandwidth * percent, 100000)
  }

  /** `guards.resolve`. */
  function ResolveGuards(policy: Option<GuardPolicy>, bandwidth: nat): GuardWidths {
    match policy
    case None => GuardWidths(0, 0)
    case Some(FixedGuard(l, r)) => GuardWidths(l, r)
    case Some(PercentGuard(l, r)) => GuardWidths(PercentOf(bandwidth, l), PercentOf(bandwidth, r))
    case Some(MaxGuard(fl, fr, pl, pr)) =>
      GuardWidths(Max(fl, PercentOf(bandwidth, pl)), Max(fr, PercentOf(bandwidth, pr)))
  }

  function Max(a: nat, b: nat): nat {
    if a < b then b else a
  }

  /** Wide enough on one side for what the policy asks there. */
  predicate Satisfies(policy: GuardPolicy, bandwidth: nat, left: bool, hz: int) {
    match policy
    case FixedGuard(l, r) => hz >= if left then l else r
    case PercentGuard(l, r) => hz * 100000 >= bandwidth * if left then l else r
    case MaxGuard(fl, fr, pl, pr) =>
      hz >= (if left then fl else fr) && hz * 100000 >= bandwidth * if left then pl else pr
  }

  lemma PercentIsLeast(bandwidth: nat, percent: nat, hz: int)
    ensures hz * 100000 >= bandwidth * percent <==> hz >= PercentOf(bandwidth, percent)
  {
  }

  /** A guard is the narrowest whole number of Hz that is wide enough for its policy on either side. */
  lemma GuardsAreLeast(policy: GuardPolicy, bandwidth: nat, hz: int)
    ensures Satisfies(policy, bandwidth, true, hz) <==> hz >= ResolveGuards(Some(policy), bandwidth).left
    ensures Satisfies(policy, bandwidth, false, hz) <==> hz >= ResolveGuards(Some(policy), bandwidth).right
  {
    match policy {
      case FixedGuard(_, _) =>
      case PercentGuard(l, r) =>
        PercentIsLeast(bandwidth, l, hz);
        PercentIsLeast(bandwidth, r, hz);
      case MaxGuard(_, _, l, r) =>
        PercentIsLeast(bandwidth, l, hz);
        PercentIsLeast(bandwidth, r, hz);
    }
  }

  // ------------------------------------------------------------------------------------------
  // Translation
  // ------------------------------------------------------------------------------------------

  datatype TranslationMethod = OffsetAdd | OffsetSubtract | LoReflect

  datatype Translation = Translation(rule: TranslationMethod, constant: int, inversionFlag: bool)

  function Translate(uplink: FrequencyRange, t: Translation): FrequencyRange {
    match t.rule
    case OffsetAdd => uplink.Shift(t.constant)
    case OffsetSubtract => uplink.Shift(-t.constant)
    case LoReflect => uplink.Reflect(t.constant)
  }

  function Untranslate(downlink: FrequencyRange, t: Translation): FrequencyRange {
    match t.rule
    case OffsetAdd => downlink.Shift(-t.constant)
    case OffsetSubtract => downlink.Shift(t.constant)
    case LoReflect => downlink.Reflect(t.constant)
  }

  function TranslateFrequency(uplink: int, t: Translation): int {
    match t.rule
    case OffsetAdd => uplink + t.constant
    case OffsetSubtract => uplink - t.constant
    case LoReflect => t.constant - uplink
  }

  // ------------------------------------------------------------------------------------------
  // Placement on both legs
  // ------------------------------------------------------------------------------------------

  datatype Placement = Placement(
    symbolRate: int,
    rolloff: int,
    occupiedBandwidth: int,
    occupied: FrequencyRange,
    alloc: FrequencyRange,
    guards: GuardWidths)

  datatype EnteredSide = UplinkSide | DownlinkSide

  datatype TwoSided = TwoSided(uplink: Placement, downlink: Placement, entered: EnteredSide, inverted: bool)

  function OccupiedRange(centre: int, bandwidth: int): FrequencyRange
    requires bandwidth > 0
  {
    Interval(centre - HalfWidth(bandwidth), centre + HalfWidth(bandwidth))
  }

  function Place(rate: int, bandwidth: int, rolloff: int, centre: int, guards: GuardWidths): Placement
    requires bandwidth > 0
  {
    var occupied := OccupiedRange(centre, bandwidth);
    Placement(rate, rolloff, occupied.Width(), occupied, occupied.Expanded(guards.left, guards.right), guards)
  }

  function ImageOf(source: Placement, t: Translation, forward: bool): Placement {
    if forward
    then source.(occupied := Translate(source.occupied, t), alloc := Translate(source.alloc, t))
    else source.(occupied := Untranslate(source.occupied, t), alloc := Untranslate(source.alloc, t))
  }

  function PlaceBothSides(rate: int, bandwidth: int, rolloff: int, centre: int, guards: GuardWidths,
                          t: Translation, entered: EnteredSide): TwoSided
    requires bandwidth > 0
  {
    var source := Place(rate, bandwidth, rolloff, centre, guards);
    var inverted := t.rule == LoReflect || t.inversionFlag;
    match entered
    case UplinkSide => TwoSided(source, ImageOf(source, t, true), entered, inverted)
    case DownlinkSide => TwoSided(ImageOf(source, t, false), source, entered, inverted)
  }

  /** Translation is a bijection of ranges: each direction undoes the other. */
  lemma TranslationRoundTrip(r: FrequencyRange, t: Translation)
    ensures Untranslate(Translate(r, t), t) == r
    ensures Translate(Untranslate(r, t), t) == r
  {
  }

  /** Adding moves every Hz up by the constant, subtracting moves it down, reflecting turns Hz x into
      constant - 1 - x; a frequency, which is an edge and not an Hz, goes to constant - x. */
  lemma TranslationMovesEveryHz(r: FrequencyRange, t: Translation, hz: int)
    ensures match t.rule
            case OffsetAdd => Translate(r, t).ContainsHz(hz + t.constant) <==> r.ContainsHz(hz)
            case OffsetSubtract => Translate(r, t).ContainsHz(hz - t.constant) <==> r.ContainsHz(hz)
            case LoReflect => Translate(r, t).ContainsHz(t.constant - 1 - hz) <==> r.ContainsHz(hz)
    ensures var edges := {TranslateFrequency(r.start, t), TranslateFrequency(r.end, t)};
            edges == {Translate(r, t).start, Translate(r, t).end}
  {
  }

  /** Whichever side was typed, the downlink is the exact image of the uplink, both legs reserve
      the same widths around the same transmission, and the image is centred on the image of the
      centre. Reflection swaps which guard is on which side; a shift does not. */
  lemma BothSidesDescribeOneTransmission(rate: int, bandwidth: int, rolloff: int, centre: int,
                                         guards: GuardWidths, t: Translation, entered: EnteredSide)
    requires bandwidth > 0
    ensures var p := PlaceBothSides(rate, bandwidth, rolloff, centre, guards, t, entered);
            && p.downlink.occupied == Translate(p.uplink.occupied, t)
            && p.downlink.alloc == Translate(p.uplink.alloc, t)
            && p.uplink.occupied.Width() == p.downlink.occupied.Width() == p.uplink.occupiedBandwidth
            && p.uplink.alloc.Width() == p.downlink.alloc.Width()
            && bandwidth <= p.uplink.occupiedBandwidth <= bandwidth + 1
            && p.uplink.alloc.Contains(p.uplink.occupied)
            && p.downlink.alloc.Contains(p.downlink.occupied)
            && MidpointOf(p.downlink.occupied) == TranslateFrequency(MidpointOf(p.uplink.occupied), t)
            && p.entered == entered && (p.inverted <==> t.rule == LoReflect || t.inversionFlag)
            && (forall leg :: leg in {p.uplink, p.downlink} ==>
                  (leg.symbolRate, leg.rolloff, leg.guards, leg.occupiedBandwidth) ==
                  (rate, rolloff, guards, p.uplink.occupiedBandwidth))
            && (entered == UplinkSide ==>
                  LeftMargin(p.uplink) == guards.left && RightMargin(p.uplink) == guards.right)
            && (entered == DownlinkSide ==>
                  LeftMargin(p.downlink) == guards.left && RightMargin(p.downlink) == guards.right)
            && (entered == UplinkSide ==> MidpointOf(p.uplink.occupied) == centre)
            && (entered == DownlinkSide ==> MidpointOf(p.downlink.occupied) == centre)
            && (if t.rule == LoReflect
                then LeftMargin(p.downlink) == RightMargin(p.uplink) && RightMargin(p.downlink) == LeftMargin(p.uplink)
                else LeftMargin(p.downlink) == LeftMargin(p.uplink) && RightMargin(p.downlink) == RightMargin(p.uplink))
  {
    var source := Place(rate, bandwidth, rolloff, centre, guards);
    OccupiedIsCentred(centre, bandwidth);
    TranslationRoundTrip(source.occupied, t);
    TranslationRoundTrip(source.alloc, t);
    if entered == UplinkSide {
      ImageKeepsShape(source.occupied, source.alloc, t);
    } else {
      ImageKeepsShape(Untranslate(source.occupied, t), Untranslate(source.alloc, t), t);
    }
  }

  lemma OccupiedIsCentred(centre: int, bandwidth: int)
    requires bandwidth > 0
    ensures var r := OccupiedRange(centre, bandwidth);
            r.Width() % 2 == 0 && bandwidth <= r.Width() <= bandwidth + 1 && MidpointOf(r) == centre
  {
  }

  /** What an image keeps of a range inside another, and what a reflection swaps. */
  lemma ImageKeepsShape(inner: FrequencyRange, outer: FrequencyRange, t: Translation)
    requires inner.Width() % 2 == 0
    ensures Translate(inner, t).Width() == inner.Width() && Translate(outer, t).Width() == outer.Width()
    ensures MidpointOf(Translate(inner, t)) == TranslateFrequency(MidpointOf(inner), t)
    ensures Translate(outer, t).Contains(Translate(inner, t)) <==> outer.Contains(inner)
    ensures var below, above := inner.start - outer.start, outer.end - inner.end;
            var imageBelow := Translate(inner, t).start - Translate(outer, t).start;
            var imageAbove := Translate(outer, t).end - Translate(inner, t).end;
            (imageBelow, imageAbove) == if t.rule == LoReflect then (above, below) else (below, above)
  {
  }

  /** The middle of a range, rounded down. */
  function MidpointOf(r: FrequencyRange): (middle: int)
    ensures 2 * middle <= r.start + r.end < 2 * middle + 2
  {
    r.start + r.Width() / 2
  }

  function LeftMargin(p: Placement): int {
    p.occupied.start - p.alloc.start
  }

  function RightMargin(p: Placement): int {
    p.alloc.end - p.occupied.end
  }

  /** Two allocations through one payload collide on the uplink exactly when they collide on the
      downlink, so checking one leg and reserving on both never disagree. */
  lemma CollisionsAgreeOnBothLegs(a: FrequencyRange, b: FrequencyRange, t: Translation)
    ensures a.Overlaps(b) <==> Translate(a, t).Overlaps(Translate(b, t))
    ensures a.Contains(b) <==> Translate(a, t).Contains(Translate(b, t))
  {
  }
}
