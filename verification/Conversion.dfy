/** Conversion between RF and IF, and choosing equipment (`calculations/conversion.py`). */
module Conversion {
  import opened Wrappers
  import opened Ranges
  import opened Sorting

  datatype ConversionRule = LoPlusIf | LoMinusIf | FixedOffset

  datatype Sideband = LowSide | HighSide

  datatype ProfileSpec = ProfileSpec(
    code: string,
    rule: ConversionRule,
    sideband: Sideband,
    lo: int,
    rfLimits: FrequencyRange,
    ifLimits: FrequencyRange,
    priority: int,
    offset: Option<int>)
  {
    /** `__post_init__`. */
    predicate Valid() {
      && lo > 0
      && (rule == LoPlusIf ==> sideband == LowSide)
      && (rule == LoMinusIf ==> sideband == HighSide)
    }

    function Constant(): int {
      if offset.Some? then offset.value else lo
    }
  }

  type Profile = p: ProfileSpec | p.Valid()
    witness ProfileSpec("", LoPlusIf, LowSide, 1, Interval(0, 1), Interval(0, 1), 100, None)

  /** A specification is refused when its sideband is not the one its rule implies, or its oscillator is not
      positive. */
  function MakeProfile(spec: ProfileSpec): Option<Profile> {
    if spec.Valid() then Some(spec) else None
  }

  lemma ProfileIsRefusedIff(spec: ProfileSpec)
    ensures MakeProfile(spec) == None <==>
            || spec.lo <= 0
            || (spec.rule, spec.sideband) in {(LoPlusIf, HighSide), (LoMinusIf, LowSide)}
    ensures MakeProfile(spec).Some? ==> MakeProfile(spec).value == spec
  {
    match spec.sideband {
      case LowSide =>
      case HighSide =>
    }
  }

  // ------------------------------------------------------------------------------------------
  // RF and IF
  // ------------------------------------------------------------------------------------------

  function ReflectChecked(source: FrequencyRange, constant: int): Option<FrequencyRange> {
    if source.end > constant then None else Some(source.Reflect(constant))
  }

  function NonNegative(converted: Option<FrequencyRange>): Option<FrequencyRange> {
    if converted.Some? && converted.value.start < 0 then None else converted
  }

  /** `to_intermediate`; nothing where the original raises. */
  function ToIntermediate(rf: FrequencyRange, p: Profile): Option<FrequencyRange> {
    NonNegative(
      match p.rule
      case LoPlusIf => Some(rf.Shift(-p.lo))
      case LoMinusIf => ReflectChecked(rf, p.lo)
      case FixedOffset => Some(rf.Shift(-p.Constant())))
  }

  /** `to_radio`. */
  function ToRadio(intermediate: FrequencyRange, p: Profile): Option<FrequencyRange> {
    NonNegative(
      match p.rule
      case LoPlusIf => Some(intermediate.Shift(p.lo))
      case LoMinusIf => ReflectChecked(intermediate, p.lo)
      case FixedOffset => Some(intermediate.Shift(p.Constant())))
  }

  /** Converting up undoes every conversion down, exactly for RF that is not below zero, and keeps the
      width; and converting down undoes every conversion up of an IF that is not below zero. */
  lemma ConversionRoundTrip(r: FrequencyRange, p: Profile)
    ensures ToIntermediate(r, p).Some? ==>
              && (ToRadio(ToIntermediate(r, p).value, p) == Some(r) <==> r.start >= 0)
              && ToIntermediate(r, p).value.Width() == r.Width()
    ensures ToRadio(r, p).Some? ==>
              (ToIntermediate(ToRadio(r, p).value, p) == Some(r) <==> r.start >= 0)
  {
    if p.rule == LoMinusIf && r.end <= p.lo {
      assert r.Reflect(p.lo).Reflect(p.lo) == r;
    } else if p.rule == LoPlusIf {
      assert r.Shift(-p.lo).Shift(p.lo) == r && r.Shift(p.lo).Shift(-p.lo) == r;
    } else if p.rule == FixedOffset {
      assert r.Shift(-p.Constant()).Shift(p.Constant()) == r && r.Shift(p.Constant()).Shift(-p.Constant()) == r;
    }
  }

  /** What a rule shifts by: the LO, and for a fixed offset the stored offset where there is one. */
  function ShiftOf(p: Profile): int {
    match (p.rule, p.offset)
    case (FixedOffset, Some(hz)) => hz
    case (_, _) => p.lo
  }

  /** Conversion down, Hz by Hz. A shift takes Hz x to x less the LO, or less the offset under a fixed one,
      and is refused exactly when that leaves an Hz below zero. A reflection takes it to LO - 1 - x and is
      refused exactly when the interval reaches past the LO. */
  lemma DownConversionMovesEveryHz(rf: FrequencyRange, p: Profile)
    ensures p.rule != LoMinusIf ==>
              && (ToIntermediate(rf, p) == None <==> exists hz :: rf.ContainsHz(hz) && hz - ShiftOf(p) < 0)
              && (ToIntermediate(rf, p).Some? ==>
                    forall hz :: rf.ContainsHz(hz) <==> ToIntermediate(rf, p).value.ContainsHz(hz - ShiftOf(p)))
    ensures p.rule == LoMinusIf ==>
              && (ToIntermediate(rf, p) == None <==> exists hz :: rf.ContainsHz(hz) && hz >= p.lo)
              && (ToIntermediate(rf, p).Some? ==>
                    forall hz :: rf.ContainsHz(hz) <==> ToIntermediate(rf, p).value.ContainsHz(p.lo - 1 - hz))
  {
    assert rf.ContainsHz(rf.start) && rf.ContainsHz(rf.end - 1);
  }

  /** Conversion up likewise, the other way. */
  lemma UpConversionMovesEveryHz(intermediate: FrequencyRange, p: Profile)
    ensures p.rule != LoMinusIf ==>
              && (ToRadio(intermediate, p) == None <==> exists hz :: intermediate.ContainsHz(hz) && hz + ShiftOf(p) < 0)
              && (ToRadio(intermediate, p).Some? ==>
                    forall hz :: intermediate.ContainsHz(hz) <==> ToRadio(intermediate, p).value.ContainsHz(hz + ShiftOf(p)))
    ensures p.rule == LoMinusIf ==>
              && (ToRadio(intermediate, p) == None <==> exists hz :: intermediate.ContainsHz(hz) && hz >= p.lo)
              && (ToRadio(intermediate, p).Some? ==>
                    forall hz :: intermediate.ContainsHz(hz) <==> ToRadio(intermediate, p).value.ContainsHz(p.lo - 1 - hz))
  {
    assert intermediate.ContainsHz(intermediate.start) && intermediate.ContainsHz(intermediate.end - 1);
  }

  // ------------------------------------------------------------------------------------------
  // One profile against one interval
  // ------------------------------------------------------------------------------------------

  datatype Rejection = OutsideRfLimits | NotConvertible | OutsideIfLimits

  datatype ProfileMatch = ProfileMatch(profile: Profile, intermediate: Option<FrequencyRange>, rejected: Option<Rejection>)

  predicate Usable(m: ProfileMatch) {
    m.rejected.None?
  }

  function Evaluate(rf: FrequencyRange, p: Profile): (m: ProfileMatch)
    ensures m.profile == p
  {
    if !p.rfLimits.Contains(rf) then ProfileMatch(p, None, Some(OutsideRfLimits))
    else match ToIntermediate(rf, p)
      case None => ProfileMatch(p, None, Some(NotConvertible))
      case Some(i) =>
        if p.ifLimits.Contains(i) then ProfileMatch(p, Some(i), None) else ProfileMatch(p, Some(i), Some(OutsideIfLimits))
  }

  /** A usable profile carries the whole interval at an IF inside its limits, and back again. */
  lemma UsableMeansCarried(rf: FrequencyRange, p: Profile)
    ensures Usable(Evaluate(rf, p)) <==>
            && p.rfLimits.Contains(rf)
            && exists i: FrequencyRange :: ToIntermediate(rf, p) == Some(i) && p.ifLimits.Contains(i)
    ensures Usable(Evaluate(rf, p)) && rf.start >= 0 ==>
              && Evaluate(rf, p).intermediate.Some?
              && ToRadio(Evaluate(rf, p).intermediate.value, p) == Some(rf)
  {
    ConversionRoundTrip(rf, p);
  }

  /** And each rejection names its reason: an Hz outside the RF limits, no conversion, or an Hz of what it
      converts to outside the IF limits. The IF is reported wherever there is one. */
  lemma RejectionsSayWhy(rf: FrequencyRange, p: Profile)
    ensures var m := Evaluate(rf, p);
            var inside := forall hz :: rf.ContainsHz(hz) ==> p.rfLimits.ContainsHz(hz);
            && m.profile == p && (m.intermediate == if inside then ToIntermediate(rf, p) else None)
            && (m.rejected == Some(OutsideRfLimits) <==> !inside)
            && (m.rejected == Some(NotConvertible) <==> inside && ToIntermediate(rf, p).None?)
            && (m.rejected == Some(OutsideIfLimits) <==>
                m.intermediate.Some? && exists hz :: m.intermediate.value.ContainsHz(hz) && !p.ifLimits.ContainsHz(hz))
  {
    ContainmentIsEveryHz(p.rfLimits, rf);
    if ToIntermediate(rf, p).Some? {
      ContainmentIsEveryHz(p.ifLimits, ToIntermediate(rf, p).value);
    }
  }

  // ------------------------------------------------------------------------------------------
  // The order of matches
  // ------------------------------------------------------------------------------------------

  /** Python's order on strings. */
  predicate StringLe(a: string, b: string) {
    if a == [] then true
    else if b == [] then false
    else a[0] < b[0] || (a[0] == b[0] && StringLe(a[1..], b[1..]))
  }

  lemma {:induction false} StringLeIsTotal(a: string, b: string)
    ensures StringLe(a, b) || StringLe(b, a)
    ensures StringLe(a, b) && StringLe(b, a) ==> a == b
  {
    if a != [] && b != [] {
      StringLeIsTotal(a[1..], b[1..]);
      assert a == [a[0]] + a[1..] && b == [b[0]] + b[1..];
    }
  }

  lemma {:induction false} StringLeIsTransitive(a: string, b: string, c: string)
    requires StringLe(a, b) && StringLe(b, c)
    ensures StringLe(a, c)
  {
    if a != [] && b != [] && c != [] && a[0] == b[0] == c[0] {
      StringLeIsTransitive(a[1..], b[1..], c[1..]);
    }
  }

  /** At the first place where they differ the first has the smaller character, or it ends there. */
  ghost predicate Alphabetical(a: string, b: string) {
    a <= b || exists k :: 0 <= k < |a| && k < |b| && a[..k] == b[..k] && a[k] < b[k]
  }

  lemma {:induction false} StringLeIsAlphabetical(a: string, b: string)
    ensures StringLe(a, b) <==> Alphabetical(a, b)
  {
    if a != [] && b != [] {
      if a[0] == b[0] {
        StringLeIsAlphabetical(a[1..], b[1..]);
        FirstCharacterAside(a, b);
      } else if a[0] < b[0] {
        assert a[..0] == b[..0];
      } else {
        assert forall k :: 0 < k < |a| && k < |b| ==> a[..k][0] != b[..k][0];
      }
    }
  }

  lemma FirstCharacterAside(a: string, b: string)
    requires a != [] && b != [] && a[0] == b[0]
    ensures Alphabetical(a, b) <==> Alphabetical(a[1..], b[1..])
  {
    assert a == [a[0]] + a[1..] && b == [b[0]] + b[1..];
    assert a <= b <==> a[1..] <= b[1..];
    if k :| 0 <= k < |a| && k < |b| && a[..k] == b[..k] && a[k] < b[k] {
      assert k > 0 && a[1..][..k - 1] == a[..k][1..] && b[1..][..k - 1] == b[..k][1..];
      assert a[1..][k - 1] < b[1..][k - 1];
    }
    if k :| 0 <= k < |a[1..]| && k < |b[1..]| && a[1..][..k] == b[1..][..k] && a[1..][k] < b[1..][k] {
      assert a[..k + 1] == [a[0]] + a[1..][..k] && b[..k + 1] == [b[0]] + b[1..][..k];
      assert a[k + 1] < b[k + 1];
    }
  }

  predicate ByPriority(a: ProfileMatch, b: ProfileMatch) {
    a.profile.priority < b.profile.priority
    || (a.profile.priority == b.profile.priority && StringLe(a.profile.code, b.profile.code))
  }

  lemma ByPriorityIsOrder()
    ensures IsOrder(ByPriority)
  {
    forall a, b
      ensures ByPriority(a, b) || ByPriority(b, a)
    {
      StringLeIsTotal(a.profile.code, b.profile.code);
    }
    forall a, b, c | ByPriority(a, b) && ByPriority(b, c)
      ensures ByPriority(a, c)
    {
      if a.profile.priority == b.profile.priority == c.profile.priority {
        StringLeIsTransitive(a.profile.code, b.profile.code, c.profile.code);
      }
    }
  }

  // ------------------------------------------------------------------------------------------
  // match_profiles
  // ------------------------------------------------------------------------------------------

  function EvaluateAll(rf: FrequencyRange, profiles: seq<Profile>): seq<ProfileMatch> {
    if profiles == [] then [] else [Evaluate(rf, profiles[0])] + EvaluateAll(rf, profiles[1..])
  }

  function Keep(matches: seq<ProfileMatch>, usable: bool): seq<ProfileMatch> {
    if matches == [] then []
    else if Usable(matches[0]) == usable then [matches[0]] + Keep(matches[1..], usable)
    else Keep(matches[1..], usable)
  }

  function MatchProfiles(rf: FrequencyRange, profiles: seq<Profile>): seq<ProfileMatch> {
    var evaluated := EvaluateAll(rf, profiles);
    Sort(Keep(evaluated, true), ByPriority) + Sort(Keep(evaluated, false), ByPriority)
  }

  lemma {:induction false} KeepCounts(matches: seq<ProfileMatch>, usable: bool, m: ProfileMatch)
    ensures multiset(Keep(matches, usable))[m] == if Usable(m) == usable then multiset(matches)[m] else 0
  {
    if matches != [] {
      KeepCounts(matches[1..], usable, m);
      assert matches == [matches[0]] + matches[1..];
    }
  }

  lemma CountOfHead<T>(x: T, rest: seq<T>, y: T)
    ensures multiset([x] + rest)[y] == (if x == y then 1 else 0) + multiset(rest)[y]
  {
  }

  lemma {:induction false} EvaluateAllCounts(rf: FrequencyRange, profiles: seq<Profile>, m: ProfileMatch)
    ensures multiset(EvaluateAll(rf, profiles))[m] == if m == Evaluate(rf, m.profile) then multiset(profiles)[m.profile] else 0
  {
    if profiles != [] {
      EvaluateAllCounts(rf, profiles[1..], m);
      CountOfHead(Evaluate(rf, profiles[0]), EvaluateAll(rf, profiles[1..]), m);
      CountOfHead(profiles[0], profiles[1..], m.profile);
      assert profiles == [profiles[0]] + profiles[1..];
    }
  }

  lemma MatchesAreTheVerdicts(rf: FrequencyRange, profiles: seq<Profile>)
    ensures multiset(MatchProfiles(rf, profiles)) == multiset(EvaluateAll(rf, profiles))
  {
    var evaluated := EvaluateAll(rf, profiles);
    SortKeepsElements(Keep(evaluated, true), ByPriority);
    SortKeepsElements(Keep(evaluated, false), ByPriority);
    forall m
      ensures multiset(Keep(evaluated, true))[m] + multiset(Keep(evaluated, false))[m] == multiset(evaluated)[m]
    {
      KeepCounts(evaluated, true, m);
      KeepCounts(evaluated, false, m);
    }
  }

  /** Every profile is reported exactly as often as it was offered, with its own verdict, and nothing
      else is. */
  lemma MatchingIsAPermutation(rf: FrequencyRange, profiles: seq<Profile>, p: Profile)
    ensures multiset(MatchProfiles(rf, profiles))[Evaluate(rf, p)] == multiset(profiles)[p]
    ensures |MatchProfiles(rf, profiles)| == |profiles|
  {
    MatchesAreTheVerdicts(rf, profiles);
    SameElements(MatchProfiles(rf, profiles), EvaluateAll(rf, profiles));
    OneVerdictEach(rf, profiles);
    EvaluateAllCounts(rf, profiles, Evaluate(rf, p));
  }

  lemma {:induction false} OneVerdictEach(rf: FrequencyRange, profiles: seq<Profile>)
    ensures |EvaluateAll(rf, profiles)| == |profiles|
  {
    if profiles != [] {
      OneVerdictEach(rf, profiles[1..]);
    }
  }

  /** The smaller priority, or the same and the code that comes first. */
  ghost predicate Precedes(p: Profile, q: Profile) {
    p.priority < q.priority || (p.priority == q.priority && Alphabetical(p.code, q.code))
  }

  lemma PrioritiesPrecede(a: ProfileMatch, b: ProfileMatch)
    ensures ByPriority(a, b) <==> Precedes(a.profile, b.profile)
  {
    StringLeIsAlphabetical(a.profile.code, b.profile.code);
  }

  /** Usable ones first; among the usable, and among the rejected, by priority and then by code. */
  ghost predicate Ranked(matches: seq<ProfileMatch>) {
    forall i, j :: 0 <= i < j < |matches| ==>
      (matches[j].rejected == None ==> matches[i].rejected == None)
      && ((matches[i].rejected == None) == (matches[j].rejected == None) ==> Precedes(matches[i].profile, matches[j].profile))
  }

  lemma {:induction false} KeepKeeps(matches: seq<ProfileMatch>, usable: bool)
    ensures forall m :: m in Keep(matches, usable) ==> Usable(m) == usable
  {
    if matches != [] {
      KeepKeeps(matches[1..], usable);
    }
  }

  lemma MatchesAreRanked(rf: FrequencyRange, profiles: seq<Profile>)
    ensures Ranked(MatchProfiles(rf, profiles))
  {
    var evaluated := EvaluateAll(rf, profiles);
    var first, second := Sort(Keep(evaluated, true), ByPriority), Sort(Keep(evaluated, false), ByPriority);
    ByPriorityIsOrder();
    SortSorts(Keep(evaluated, true), ByPriority);
    SortSorts(Keep(evaluated, false), ByPriority);
    KeepKeeps(evaluated, true);
    KeepKeeps(evaluated, false);
    var all := first + second;
    forall i | 0 <= i < |all|
      ensures Usable(all[i]) <==> i < |first|
    {
      assert i < |first| ==> all[i] in first;
      assert i >= |first| ==> all[i] in second;
    }
    forall i, j | 0 <= i < j < |all| && Usable(all[i]) == Usable(all[j])
      ensures Precedes(all[i].profile, all[j].profile)
    {
      assert if j < |first| then ByPriority(first[i], first[j]) else ByPriority(second[i - |first|], second[j - |first|]);
      PrioritiesPrecede(all[i], all[j]);
    }
  }

  ghost predicate DistinctCodes(profiles: seq<Profile>) {
    forall p, q :: p in profiles && q in profiles && p.code == q.code ==> p == q
  }

  lemma MatchesComeFromProfiles(rf: FrequencyRange, profiles: seq<Profile>, m: ProfileMatch)
    requires m in EvaluateAll(rf, profiles)
    ensures m.profile in profiles && m == Evaluate(rf, m.profile)
  {
    EvaluateAllCounts(rf, profiles, m);
    assert m in multiset(EvaluateAll(rf, profiles));
    assert multiset(profiles)[m.profile] > 0;
  }

  lemma SortedPartIgnoresOrder(rf: FrequencyRange, a: seq<Profile>, b: seq<Profile>, usable: bool)
    requires multiset(a) == multiset(b) && DistinctCodes(a)
    ensures Sort(Keep(EvaluateAll(rf, a), usable), ByPriority) == Sort(Keep(EvaluateAll(rf, b), usable), ByPriority)
  {
    var left, right := Keep(EvaluateAll(rf, a), usable), Keep(EvaluateAll(rf, b), usable);
    forall m
      ensures multiset(left)[m] == multiset(right)[m]
      ensures m in left ==> m in EvaluateAll(rf, a)
    {
      KeepCounts(EvaluateAll(rf, a), usable, m);
      KeepCounts(EvaluateAll(rf, b), usable, m);
      EvaluateAllCounts(rf, a, m);
      EvaluateAllCounts(rf, b, m);
      assert m in left ==> m in multiset(left);
      assert m in multiset(EvaluateAll(rf, a)) ==> m in EvaluateAll(rf, a);
    }
    assert multiset(left) == multiset(right);
    ByPriorityIsOrder();
    SortSorts(left, ByPriority);
    SortSorts(right, ByPriority);
    SortKeepsElements(left, ByPriority);
    SortKeepsElements(right, ByPriority);
    var sorted := Sort(left, ByPriority);
    forall x, y | x in sorted && y in sorted && ByPriority(x, y) && ByPriority(y, x)
      ensures x == y
    {
      MatchesComeFromProfiles(rf, a, x);
      MatchesComeFromProfiles(rf, a, y);
      StringLeIsTotal(x.profile.code, y.profile.code);
    }
    SortedIsUnique(sorted, Sort(right, ByPriority), ByPriority);
  }

  /** With distinct codes the answer does not depend on the order the profiles came in. */
  lemma MatchingIgnoresOrder(rf: FrequencyRange, a: seq<Profile>, b: seq<Profile>)
    requires multiset(a) == multiset(b) && DistinctCodes(a)
    ensures MatchProfiles(rf, a) == MatchProfiles(rf, b)
  {
    SortedPartIgnoresOrder(rf, a, b, true);
    SortedPartIgnoresOrder(rf, a, b, false);
  }

  /** `best_profile`: the first usable match, which is the usable profile no other comes before. */
  method BestProfile(rf: FrequencyRange, profiles: seq<Profile>) returns (best: Option<ProfileMatch>)
    ensures best.None? <==> forall p :: p in profiles ==> !Usable(Evaluate(rf, p))
    ensures best.Some? ==>
              && best.value.profile in profiles && best.value == Evaluate(rf, best.value.profile) && Usable(best.value)
              && forall p :: p in profiles && Usable(Evaluate(rf, p)) ==> Precedes(best.value.profile, p)
  {
    var matches := MatchProfiles(rf, profiles);
    MatchesAreRanked(rf, profiles);
    MatchingCoversProfiles(rf, profiles);
    ByPriorityIsOrder();
    for i := 0 to |matches|
      invariant forall k :: 0 <= k < i ==> !Usable(matches[k])
    {
      if Usable(matches[i]) {
        assert matches[i] in matches;
        forall p | p in profiles && Usable(Evaluate(rf, p))
          ensures Precedes(matches[i].profile, p)
        {
          var k :| 0 <= k < |matches| && matches[k] == Evaluate(rf, p);
          PrioritiesPrecede(matches[i], matches[i]);
          assert ByPriority(matches[i], matches[i]);
        }
        return Some(matches[i]);
      }
    }
    best := None;
  }

  lemma MatchingCoversProfiles(rf: FrequencyRange, profiles: seq<Profile>)
    ensures forall p :: p in profiles ==> Evaluate(rf, p) in MatchProfiles(rf, profiles)
    ensures forall m :: m in MatchProfiles(rf, profiles) ==> m.profile in profiles && m == Evaluate(rf, m.profile)
  {
    MatchesAreTheVerdicts(rf, profiles);
    SameElements(MatchProfiles(rf, profiles), EvaluateAll(rf, profiles));
    forall p | p in profiles
      ensures Evaluate(rf, p) in MatchProfiles(rf, profiles)
    {
      assert p in multiset(profiles);
      MatchingIsAPermutation(rf, profiles, p);
      assert Evaluate(rf, p) in multiset(MatchProfiles(rf, profiles));
    }
    forall m | m in MatchProfiles(rf, profiles)
      ensures m.profile in profiles && m == Evaluate(rf, m.profile)
    {
      MatchesComeFromProfiles(rf, profiles, m);
    }
  }
}
