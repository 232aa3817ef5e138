/**
 * Master data that is superseded rather than overwritten (`inventory/versioning.py`,
 * `inventory/models/base.py`): a table of versions, two constraints on it, and the operation that
 * closes one version and opens the next.
 */
module Versioning {
  import opened Wrappers
  import opened Periods

  /** The columns a form edits, by name. */
  type Fields = map<string, int>

  /** One row; its place in the table is its identity. */
  datatype Version = Version(
    group: nat,
    number: nat,
    supersedes: Option<nat>,
    period: TimePeriod,
    isActive: bool,
    recordVersion: nat,
    fields: Fields)

  datatype Refusal = AlreadySuperseded | TooEarly | NumberTaken | VersionOverlap | RetroactiveEdit | StaleRecord

  // ------------------------------------------------------------------------------------------
  // The constraints
  // ------------------------------------------------------------------------------------------

  /** What `excl_*_version_overlap` refuses. */
  predicate Clash(a: Version, b: Version) {
    a.isActive && b.isActive && a.group == b.group && a.period.Overlaps(b.period)
  }

  /** What `uq_*_group_version` refuses. */
  predicate SameNumber(a: Version, b: Version) {
    a.group == b.group && a.number == b.number
  }

  ghost predicate Constrained(vs: seq<Version>) {
    forall i, j :: 0 <= i < j < |vs| ==> !Clash(vs[i], vs[j]) && !SameNumber(vs[i], vs[j])
  }

  // ------------------------------------------------------------------------------------------
  // The statements
  // ------------------------------------------------------------------------------------------

  function InsertVersion(vs: seq<Version>, v: Version): Result<seq<Version>, Refusal> {
    if exists i :: 0 <= i < |vs| && SameNumber(vs[i], v) then Err(NumberTaken)
    else if exists i :: 0 <= i < |vs| && Clash(vs[i], v) then Err(VersionOverlap)
    else Ok(vs + [v])
  }

  function ClosedAt(v: Version, at: int): Version
    requires at > v.period.start
  {
    v.(period := Span(v.period.start, Some(at)))
  }

  function CloseVersion(vs: seq<Version>, i: nat, at: int): Result<seq<Version>, Refusal>
    requires i < |vs| && at > vs[i].period.start
  {
    if exists j :: 0 <= j < |vs| && j != i && Clash(vs[j], ClosedAt(vs[i], at)) then Err(VersionOverlap)
    else Ok(vs[i := ClosedAt(vs[i], at)])
  }

  /** `_copy_for_next_version`: everything carried, the changes on top, a fresh place in the chain. */
  function Successor(v: Version, place: nat, values: Fields, from: int): Version {
    Version(v.group, v.number + 1, Some(place), Span(from, None), v.isActive, 1, v.fields + values)
  }

  /** `_supersede`: close, then open. */
  function SupersedeVersion(vs: seq<Version>, i: nat, values: Fields, from: int): Result<seq<Version>, Refusal>
    requires i < |vs|
  {
    if vs[i].period.end.Some? then Err(AlreadySuperseded)
    else if from <= vs[i].period.start then Err(TooEarly)
    else match CloseVersion(vs, i, from)
      case Err(e) => Err(e)
      case Ok(closed) => InsertVersion(closed, Successor(vs[i], i, values, from))
  }

  // ------------------------------------------------------------------------------------------
  // Chains
  // ------------------------------------------------------------------------------------------

  predicate Follows(later: Version, v: Version, place: nat) {
    && later.supersedes == Some(place)
    && later.group == v.group && later.number == v.number + 1
    && v.period.end == Some(later.period.start)
  }

  /** Version 1 replaces nothing; every other version starts where the one it replaces ends; and a
      version has an end only because a later one replaced it. */
  ghost predicate Linked(vs: seq<Version>, i: nat)
    requires i < |vs|
  {
    && vs[i].number >= 1
    && (vs[i].supersedes.None? ==> vs[i].number == 1)
    && (vs[i].supersedes.Some? ==>
          vs[i].supersedes.value < i && Follows(vs[i], vs[vs[i].supersedes.value], vs[i].supersedes.value))
    && (vs[i].period.end.Some? ==> exists s :: i < s < |vs| && Follows(vs[s], vs[i], i))
  }

  ghost predicate Chained(vs: seq<Version>) {
    && Constrained(vs)
    && forall i :: 0 <= i < |vs| ==> Linked(vs, i)
  }

  /** Along a chain, a lower number is over before a higher one begins. */
  lemma {:induction false} LowerNumberEndsFirst(vs: seq<Version>, a: nat, b: nat)
    requires Chained(vs) && a < |vs| && b < |vs|
    requires vs[a].group == vs[b].group && vs[a].number < vs[b].number
    ensures vs[a].period.end.Some? && vs[a].period.end.value <= vs[b].period.start
    decreases vs[b].number
  {
    assert Linked(vs, b) && Linked(vs, a);
    var p := vs[b].supersedes.value;
    if vs[p].number == vs[a].number {
      assert SameNumber(vs[a], vs[p]);
      assert a == p;
    } else {
      LowerNumberEndsFirst(vs, a, p);
    }
  }

  lemma TwoVersionsAreApart(vs: seq<Version>, a: nat, b: nat)
    requires Chained(vs) && a < |vs| && b < |vs| && a != b && vs[a].group == vs[b].group
    ensures !vs[a].period.Overlaps(vs[b].period) && vs[a].number != vs[b].number
    ensures vs[a].period.end.Some? || vs[b].period.end.Some?
  {
    assert !SameNumber(vs[a], vs[b]) by {
      if a < b { assert !SameNumber(vs[a], vs[b]); } else { assert !SameNumber(vs[b], vs[a]); }
    }
    if vs[a].number < vs[b].number {
      LowerNumberEndsFirst(vs, a, b);
    } else {
      LowerNumberEndsFirst(vs, b, a);
    }
  }

  /** From any version onwards, every instant is covered by some version of the chain. */
  lemma {:induction false} CoveredFrom(vs: seq<Version>, i: nat, at: int) returns (k: nat)
    requires Chained(vs) && i < |vs| && vs[i].period.start <= at
    ensures k < |vs| && vs[k].group == vs[i].group && vs[k].period.InForce(at)
    decreases |vs| - i
  {
    if vs[i].period.InForce(at) {
      k := i;
    } else {
      assert Linked(vs, i);
      var s :| i < s < |vs| && Follows(vs[s], vs[i], i);
      k := CoveredFrom(vs, s, at);
    }
  }

  lemma {:induction false} EarlierNumbersExist(vs: seq<Version>, i: nat, number: nat) returns (k: nat)
    requires Chained(vs) && i < |vs| && 1 <= number <= vs[i].number
    ensures k < |vs| && vs[k].group == vs[i].group && vs[k].number == number
    decreases vs[i].number
  {
    assert Linked(vs, i);
    if number == vs[i].number {
      k := i;
    } else {
      k := EarlierNumbersExist(vs, vs[i].supersedes.value, number);
    }
  }

  predicate InForceIn(vs: seq<Version>, group: nat, i: nat, at: int) {
    i < |vs| && vs[i].group == group && vs[i].period.InForce(at)
  }

  /** A group's versions partition time: each instant is in exactly one of them from the start of the
      first one on, and in none before. */
  lemma EachInstantHasOneVersion(vs: seq<Version>, first: nat, at: int)
    requires Chained(vs) && first < |vs| && vs[first].number == 1
    ensures vs[first].period.start <= at <==> exists k :: InForceIn(vs, vs[first].group, k, at)
    ensures forall a, b :: InForceIn(vs, vs[first].group, a, at) && InForceIn(vs, vs[first].group, b, at) ==> a == b
  {
    var group := vs[first].group;
    if vs[first].period.start <= at {
      var k := CoveredFrom(vs, first, at);
      assert InForceIn(vs, group, k, at);
    }
    forall k: nat | InForceIn(vs, group, k, at)
      ensures vs[first].period.start <= at
    {
      assert Linked(vs, k);
      if k != first {
        TwoVersionsAreApart(vs, first, k);
        LowerNumberEndsFirst(vs, first, k);
      }
    }
    forall a: nat, b: nat | InForceIn(vs, group, a, at) && InForceIn(vs, group, b, at)
      ensures a == b
    {
      if a != b {
        TwoVersionsAreApart(vs, a, b);
        OverlapIsSharedMoment(vs[a].period, vs[b].period);
      }
    }
  }

  /** `current_version`: the open, active version with the highest number. */
  predicate IsCurrent(vs: seq<Version>, group: nat, i: nat) {
    && i < |vs| && vs[i].group == group && vs[i].isActive && vs[i].period.end.None?
    && forall k :: 0 <= k < |vs| && vs[k].group == group && vs[k].isActive && vs[k].period.end.None? ==>
         vs[k].number <= vs[i].number
  }

  predicate HasNumber(vs: seq<Version>, group: nat, number: nat) {
    exists k :: 0 <= k < |vs| && vs[k].group == group && vs[k].number == number
  }

  /** Numbers run 1, 2, … up to the last version, which is the only open one. */
  lemma ExactlyTheLastIsOpen(vs: seq<Version>, i: nat)
    requires Chained(vs) && i < |vs|
    ensures vs[i].period.end.None? <==>
            forall k :: 0 <= k < |vs| && vs[k].group == vs[i].group ==> vs[k].number <= vs[i].number
    ensures forall number :: 1 <= number <= vs[i].number ==> HasNumber(vs, vs[i].group, number)
    ensures vs[i].period.end.None? && vs[i].isActive ==> IsCurrent(vs, vs[i].group, i)
  {
    assert Linked(vs, i);
    if vs[i].period.end.Some? {
      var s :| i < s < |vs| && Follows(vs[s], vs[i], i);
      assert vs[s].number > vs[i].number;
    } else {
      forall k | 0 <= k < |vs| && vs[k].group == vs[i].group
        ensures vs[k].number <= vs[i].number
      {
        if vs[k].number > vs[i].number {
          LowerNumberEndsFirst(vs, i, k);
        }
      }
    }
    forall number: nat | 1 <= number <= vs[i].number
      ensures HasNumber(vs, vs[i].group, number)
    {
      var k := EarlierNumbersExist(vs, i, number);
    }
  }

  // ------------------------------------------------------------------------------------------
  // Close, then open
  // ------------------------------------------------------------------------------------------

  ghost predicate Supersedable(vs: seq<Version>, i: nat, from: int) {
    i < |vs| && vs[i].period.end.None? && vs[i].period.start < from
  }

  lemma OthersEndBefore(vs: seq<Version>, i: nat, from: int, k: nat)
    requires Chained(vs) && Supersedable(vs, i, from) && k < |vs| && k != i && vs[k].group == vs[i].group
    ensures vs[k].period.end.Some? && vs[k].period.end.value <= vs[i].period.start && vs[k].number < vs[i].number
  {
    ExactlyTheLastIsOpen(vs, i);
    TwoVersionsAreApart(vs, k, i);
    LowerNumberEndsFirst(vs, k, i);
  }

  lemma ClosingIsAllowed(vs: seq<Version>, i: nat, from: int)
    requires Chained(vs) && Supersedable(vs, i, from)
    ensures CloseVersion(vs, i, from).Ok? && Constrained(vs[i := ClosedAt(vs[i], from)])
  {
    forall k | 0 <= k < |vs| && k != i
      ensures !Clash(vs[k], ClosedAt(vs[i], from)) && !Clash(ClosedAt(vs[i], from), vs[k])
      ensures !SameNumber(vs[k], ClosedAt(vs[i], from)) && !SameNumber(ClosedAt(vs[i], from), vs[k])
    {
      if vs[k].group == vs[i].group {
        OthersEndBefore(vs, i, from, k);
      }
    }
  }

  lemma OpeningIsAllowed(vs: seq<Version>, i: nat, values: Fields, from: int)
    requires Chained(vs) && Supersedable(vs, i, from)
    ensures var closed := vs[i := ClosedAt(vs[i], from)]; var next := Successor(vs[i], i, values, from);
            InsertVersion(closed, next) == Ok(closed + [next]) && Constrained(closed + [next])
  {
    var closed := vs[i := ClosedAt(vs[i], from)];
    var next := Successor(vs[i], i, values, from);
    ClosingIsAllowed(vs, i, from);
    forall k | 0 <= k < |vs|
      ensures !Clash(closed[k], next) && !SameNumber(closed[k], next)
    {
      if k != i && vs[k].group == vs[i].group {
        OthersEndBefore(vs, i, from, k);
      }
    }
  }

  lemma SupersedingKeepsLinks(vs: seq<Version>, i: nat, values: Fields, from: int)
    requires Chained(vs) && Supersedable(vs, i, from)
    ensures var after := vs[i := ClosedAt(vs[i], from)] + [Successor(vs[i], i, values, from)];
            forall k :: 0 <= k < |after| ==> Linked(after, k)
  {
    var after := vs[i := ClosedAt(vs[i], from)] + [Successor(vs[i], i, values, from)];
    forall k | 0 <= k < |after|
      ensures Linked(after, k)
    {
      if k == |vs| {
        assert Follows(after[k], after[i], i);
        assert Linked(vs, i);
      } else {
        assert Linked(vs, k);
        if k == i {
          assert Follows(after[|vs|], after[i], i);
        } else if vs[k].period.end.Some? {
          var s :| k < s < |vs| && Follows(vs[s], vs[k], k);
          assert Follows(after[s], after[k], k);
        }
      }
    }
  }

  /** Closing and then opening is accepted exactly when the version is open and the change comes after
      it began: the constraints never refuse it, neither statement leaves two versions in force at
      once, and the chain is one longer. */
  lemma SupersedeSucceedsIff(vs: seq<Version>, i: nat, values: Fields, from: int)
    requires Chained(vs) && i < |vs|
    ensures SupersedeVersion(vs, i, values, from).Ok? <==> Supersedable(vs, i, from)
    ensures Supersedable(vs, i, from) ==>
              && CloseVersion(vs, i, from).Ok? && Constrained(CloseVersion(vs, i, from).value)
              && SupersedeVersion(vs, i, values, from).value ==
                 vs[i := ClosedAt(vs[i], from)] + [Successor(vs[i], i, values, from)]
              && Chained(SupersedeVersion(vs, i, values, from).value)
  {
    if Supersedable(vs, i, from) {
      ClosingIsAllowed(vs, i, from);
      OpeningIsAllowed(vs, i, values, from);
      SupersedingKeepsLinks(vs, i, values, from);
    }
  }

  /** What a row says of each column after these changes: the change where one was sent, else what it said. */
  predicate Overlaid(after: Fields, before: Fields, values: Fields) {
    && after.Keys == before.Keys + values.Keys
    && forall f :: f in after ==> after[f] == if f in values then values[f] else before[f]
  }

  /** Superseding leaves the version as it was but for its end, and adds the next: every column carried that
      was not changed, the next number, open from that moment, active as before, at its own first version. */
  lemma SupersedingOpensTheNext(vs: seq<Version>, i: nat, values: Fields, from: int, after: seq<Version>)
    requires i < |vs| && SupersedeVersion(vs, i, values, from) == Ok(after)
    ensures |after| == |vs| + 1
    ensures forall k :: 0 <= k < |vs| && k != i ==> after[k] == vs[k]
    ensures after[i] == vs[i].(period := Span(vs[i].period.start, Some(from)))
    ensures var next := after[|vs|];
            && Overlaid(next.fields, vs[i].fields, values)
            && next.period == Span(from, None) && next.isActive == vs[i].isActive && next.recordVersion == 1
            && next.group == vs[i].group && next.number == vs[i].number + 1 && next.supersedes == Some(i)
  {
  }

  /** A refused change of a chain says what was wrong with it. */
  lemma SupersedeRefusalIsExplained(vs: seq<Version>, i: nat, values: Fields, from: int)
    requires Chained(vs) && i < |vs|
    ensures SupersedeVersion(vs, i, values, from) == Err(AlreadySuperseded) <==> vs[i].period.end.Some?
    ensures SupersedeVersion(vs, i, values, from) == Err(TooEarly) <==> vs[i].period.end.None? && from <= vs[i].period.start
    ensures SupersedeVersion(vs, i, values, from).Ok? || SupersedeVersion(vs, i, values, from).error in {AlreadySuperseded, TooEarly}
  {
    SupersedeSucceedsIff(vs, i, values, from);
  }

  /** A version is added unless its number is taken in its group, or else it is active and would be in force
      at a moment another active version of the group is. */
  lemma InsertIsDecided(vs: seq<Version>, v: Version)
    ensures InsertVersion(vs, v) == Err(NumberTaken) <==>
            exists k :: 0 <= k < |vs| && vs[k].group == v.group && vs[k].number == v.number
    ensures InsertVersion(vs, v) == Err(VersionOverlap) <==>
            && (forall k :: 0 <= k < |vs| && vs[k].group == v.group ==> vs[k].number != v.number)
            && exists k, at :: 0 <= k < |vs| && BothInForce(vs[k], v, at)
    ensures InsertVersion(vs, v) in {Err(NumberTaken), Err(VersionOverlap), Ok(vs + [v])}
  {
    forall k | 0 <= k < |vs|
      ensures Clash(vs[k], v) <==> exists at :: BothInForce(vs[k], v, at)
    {
      OverlapIsSharedMoment(vs[k].period, v.period);
      if Clash(vs[k], v) {
        var at :| vs[k].period.InForce(at) && v.period.InForce(at);
        assert BothInForce(vs[k], v, at);
      }
    }
    assert forall k :: 0 <= k < |vs| ==> (SameNumber(vs[k], v) <==> vs[k].group == v.group && vs[k].number == v.number);
  }

  /** Two active versions of one group, in force together. */
  predicate BothInForce(a: Version, b: Version, at: int) {
    a.isActive && b.isActive && a.group == b.group && a.period.InForce(at) && b.period.InForce(at)
  }

  /** Opening before closing is refused by the overlap constraint, exactly when the version is active. */
  lemma OpeningFirstIsRefused(vs: seq<Version>, i: nat, values: Fields, from: int)
    requires Chained(vs) && Supersedable(vs, i, from)
    ensures InsertVersion(vs, Successor(vs[i], i, values, from)) ==
            if vs[i].isActive then Err(VersionOverlap) else Ok(vs + [Successor(vs[i], i, values, from)])
  {
    var next := Successor(vs[i], i, values, from);
    forall k | 0 <= k < |vs|
      ensures !SameNumber(vs[k], next) && (Clash(vs[k], next) ==> k == i)
    {
      if k != i && vs[k].group == vs[i].group {
        OthersEndBefore(vs, i, from, k);
      }
    }
    assert vs[i].isActive ==> Clash(vs[i], next);
  }

  // ------------------------------------------------------------------------------------------
  // Editing in place
  // ------------------------------------------------------------------------------------------

  function ChangedFields(fields: Fields, values: Fields): set<string> {
    set f | f in values && (f !in fields || fields[f] != values[f])
  }

  /** `assert_editable`, then the conditional write of `update`. */
  function AmendVersion(vs: seq<Version>, i: nat, values: Fields, expected: Option<nat>, engineering: set<string>,
                        inUse: bool): Result<seq<Version>, Refusal>
    requires i < |vs|
  {
    var v := vs[i];
    var target := if expected.Some? then expected.value else v.recordVersion;
    if ChangedFields(v.fields, values) * engineering != {} && inUse then Err(RetroactiveEdit)
    else if v.recordVersion != target then Err(StaleRecord)
    else Ok(vs[i := v.(fields := v.fields + values, recordVersion := target + 1)])
  }

  /** The change would alter or add an engineering column. */
  ghost predicate TouchesEngineering(fields: Fields, values: Fields, engineering: set<string>) {
    exists f :: f in engineering && f in values && (f in fields ==> fields[f] != values[f])
  }

  lemma ChangedMeansTouched(fields: Fields, values: Fields, engineering: set<string>)
    ensures ChangedFields(fields, values) * engineering != {} <==> TouchesEngineering(fields, values, engineering)
  {
    if TouchesEngineering(fields, values, engineering) {
      var f :| f in engineering && f in values && (f in fields ==> fields[f] != values[f]);
      assert f in ChangedFields(fields, values) * engineering;
    }
    if ChangedFields(fields, values) * engineering != {} {
      var f :| f in ChangedFields(fields, values) * engineering;
    }
  }

  /** An edit in place is refused exactly when it would alter engineering columns of a version in use, or
      else names a version that is not the stored one. Accepted, it changes the columns it names and the
      record version by one, and no other row; so engineering columns do change while nothing refers to
      the version. */
  lemma AmendIsDecided(vs: seq<Version>, i: nat, values: Fields, expected: Option<nat>, engineering: set<string>, inUse: bool)
    requires i < |vs|
    ensures var outcome := AmendVersion(vs, i, values, expected, engineering, inUse);
            var retroactive := inUse && TouchesEngineering(vs[i].fields, values, engineering);
            && (outcome == Err(RetroactiveEdit) <==> retroactive)
            && (outcome == Err(StaleRecord) <==> !retroactive && expected.Some? && expected.value != vs[i].recordVersion)
            && (outcome.Err? ==> outcome.error in {RetroactiveEdit, StaleRecord})
            && (outcome.Ok? ==>
                  && |outcome.value| == |vs| && (forall k :: 0 <= k < |vs| && k != i ==> outcome.value[k] == vs[k])
                  && var after := outcome.value[i];
                     && after == vs[i].(fields := after.fields, recordVersion := vs[i].recordVersion + 1)
                     && Overlaid(after.fields, vs[i].fields, values))
  {
    ChangedMeansTouched(vs[i].fields, values, engineering);
  }

  predicate SameEngineering(a: Fields, b: Fields, engineering: set<string>) {
    forall f :: f in engineering ==> (f in a <==> f in b) && (f in a && f in b ==> a[f] == b[f])
  }

  lemma AmendKeepsChains(vs: seq<Version>, i: nat, values: Fields, expected: Option<nat>, engineering: set<string>, inUse: bool)
    requires Chained(vs) && i < |vs| && AmendVersion(vs, i, values, expected, engineering, inUse).Ok?
    ensures Chained(AmendVersion(vs, i, values, expected, engineering, inUse).value)
  {
    var after := AmendVersion(vs, i, values, expected, engineering, inUse).value;
    forall k | 0 <= k < |after|
      ensures Linked(after, k)
    {
      assert Linked(vs, k);
      if vs[k].period.end.Some? {
        var s :| k < s < |vs| && Follows(vs[s], vs[k], k);
        assert Follows(after[s], after[k], k);
      }
    }
  }

  lemma AmendKeepsEngineeringInUse(vs: seq<Version>, i: nat, values: Fields, expected: Option<nat>, engineering: set<string>)
    requires i < |vs| && AmendVersion(vs, i, values, expected, engineering, true).Ok?
    ensures SameEngineering(vs[i].fields, AmendVersion(vs, i, values, expected, engineering, true).value[i].fields, engineering)
  {
    forall f | f in engineering && f in values
      ensures f in vs[i].fields && vs[i].fields[f] == values[f]
    {
      assert f !in ChangedFields(vs[i].fields, values) * engineering;
    }
  }

  // ------------------------------------------------------------------------------------------
  // Runs
  // ------------------------------------------------------------------------------------------

  /** The versions, and how often operational records refer to each. */
  datatype Store = Store(versions: seq<Version>, references: multiset<nat>)

  datatype Change =
    | Opening(group: nat, fields: Fields, from: int)
    | Superseding(version: nat, values: Fields, from: int)
    | Amending(version: nat, values: Fields, expected: Option<nat>)
    | Referring(version: nat)
    | Releasing(version: nat)

  /** One change; a refused one leaves everything as it was. */
  function Apply(s: Store, c: Change, engineering: set<string>): Store {
    match c
    case Opening(group, fields, from) => (
        match InsertVersion(s.versions, Version(group, 1, None, Span(from, None), true, 1, fields))
        case Ok(vs) => if exists k :: 0 <= k < |s.versions| && s.versions[k].group == group then s else s.(versions := vs)
        case Err(_) => s)
    case Superseding(i, values, from) =>
      if i >= |s.versions| then s
      else (
        match SupersedeVersion(s.versions, i, values, from)
        case Ok(vs) => s.(versions := vs)
        case Err(_) => s)
    case Amending(i, values, expected) =>
      if i >= |s.versions| then s
      else (
        match AmendVersion(s.versions, i, values, expected, engineering, s.references[i] > 0)
        case Ok(vs) => s.(versions := vs)
        case Err(_) => s)
    case Referring(i) => s.(references := s.references + multiset{i})
    case Releasing(i) => s.(references := s.references - multiset{i})
  }

  function ApplyAll(s: Store, changes: seq<Change>, engineering: set<string>): Store
    decreases |changes|
  {
    if changes == [] then s else ApplyAll(Apply(s, changes[0], engineering), changes[1..], engineering)
  }

  /** A group is opened once, with version 1 of what was sent, active and without an end. */
  lemma OpeningStartsAGroup(s: Store, group: nat, fields: Fields, from: int, engineering: set<string>)
    requires Chained(s.versions)
    ensures var after := Apply(s, Opening(group, fields, from), engineering);
            if exists k :: 0 <= k < |s.versions| && s.versions[k].group == group then after == s
            else after == s.(versions := s.versions + [Version(group, 1, None, Span(from, None), true, 1, fields)])
  {
  }

  /** References are counted: one more, or one less if there is one. */
  lemma ReferencesAreCounted(s: Store, i: nat, k: nat, engineering: set<string>)
    ensures Apply(s, Referring(i), engineering).versions == s.versions == Apply(s, Releasing(i), engineering).versions
    ensures Apply(s, Referring(i), engineering).references[k] == s.references[k] + (if k == i then 1 else 0)
    ensures Apply(s, Releasing(i), engineering).references[k] ==
            if k == i && s.references[k] > 0 then s.references[k] - 1 else s.references[k]
  {
  }

  lemma OpeningKeepsChains(vs: seq<Version>, v: Version)
    requires Chained(vs) && (forall k :: 0 <= k < |vs| ==> vs[k].group != v.group)
    requires v.number == 1 && v.supersedes.None? && v.period.end.None?
    ensures Chained(vs + [v])
  {
    var after := vs + [v];
    forall k | 0 <= k < |after|
      ensures Linked(after, k)
    {
      if k < |vs| {
        assert Linked(vs, k);
        if vs[k].period.end.Some? {
          var s :| k < s < |vs| && Follows(vs[s], vs[k], k);
          assert Follows(after[s], after[k], k);
        }
      }
    }
  }

  lemma ApplyKeepsChains(s: Store, c: Change, engineering: set<string>)
    requires Chained(s.versions)
    ensures Chained(Apply(s, c, engineering).versions)
  {
    match c {
      case Opening(group, fields, from) =>
        if Apply(s, c, engineering) != s {
          OpeningKeepsChains(s.versions, Version(group, 1, None, Span(from, None), true, 1, fields));
        }
      case Superseding(i, values, from) =>
        if i < |s.versions| {
          SupersedeSucceedsIff(s.versions, i, values, from);
        }
      case Amending(i, values, expected) =>
        if i < |s.versions| && AmendVersion(s.versions, i, values, expected, engineering, s.references[i] > 0).Ok? {
          AmendKeepsChains(s.versions, i, values, expected, engineering, s.references[i] > 0);
        }
      case Referring(_) =>
      case Releasing(_) =>
    }
  }

  /** Whatever is opened, superseded and amended, and however often it is refused, every group stays
      one unbroken chain and no two active versions of a group are ever in force together. */
  lemma {:induction false} RunsKeepChains(s: Store, changes: seq<Change>, engineering: set<string>)
    requires Chained(s.versions)
    ensures Chained(ApplyAll(s, changes, engineering).versions)
    decreases |changes|
  {
    if changes != [] {
      ApplyKeepsChains(s, changes[0], engineering);
      RunsKeepChains(Apply(s, changes[0], engineering), changes[1..], engineering);
    }
  }

  lemma ApplyKeepsEngineeringInUse(s: Store, c: Change, engineering: set<string>, i: nat)
    requires i < |s.versions| && s.references[i] > 0
    ensures var after := Apply(s, c, engineering);
            i < |after.versions| && SameEngineering(s.versions[i].fields, after.versions[i].fields, engineering)
  {
    if c.Amending? && c.version == i && AmendVersion(s.versions, i, c.values, c.expected, engineering, true).Ok? {
      AmendKeepsEngineeringInUse(s.versions, i, c.values, c.expected, engineering);
    }
  }

  /** Something refers to the version in every state the run passes through, however references come
      and go in between. */
  ghost predicate InUseThroughout(s: Store, changes: seq<Change>, engineering: set<string>, i: nat)
    decreases |changes|
  {
    s.references[i] > 0
    && (changes != [] ==> InUseThroughout(Apply(s, changes[0], engineering), changes[1..], engineering, i))
  }

  /** While anything refers to a version, no run changes what it was validated against. */
  lemma {:induction false} EngineeringIsFrozenWhileInUse(s: Store, changes: seq<Change>, engineering: set<string>, i: nat)
    requires i < |s.versions| && InUseThroughout(s, changes, engineering, i)
    ensures var after := ApplyAll(s, changes, engineering);
            i < |after.versions| && SameEngineering(s.versions[i].fields, after.versions[i].fields, engineering)
    decreases |changes|
  {
    if changes != [] {
      ApplyKeepsEngineeringInUse(s, changes[0], engineering, i);
      EngineeringIsFrozenWhileInUse(Apply(s, changes[0], engineering), changes[1..], engineering, i);
    }
  }

  // ------------------------------------------------------------------------------------------
  // The table as it is written
  // ------------------------------------------------------------------------------------------

  class VersionTable {
    var versions: seq<Version>
    const engineering: set<string>

    constructor (engineering: set<string>)
      ensures versions == [] && this.engineering == engineering
    {
      versions := [];
      this.engineering := engineering;
    }

    method Insert(v: Version) returns (refusal: Option<Refusal>)
      modifies this
      ensures match InsertVersion(old(versions), v)
              case Ok(after) => refusal == None && versions == after
              case Err(e) => refusal == Some(e) && versions == old(versions)
    {
      for i := 0 to |versions|
        invariant forall k :: 0 <= k < i ==> !SameNumber(versions[k], v)
        invariant versions == old(versions)
      {
        if SameNumber(versions[i], v) {
          return Some(NumberTaken);
        }
      }
      for i := 0 to |versions|
        invariant forall k :: 0 <= k < i ==> !Clash(versions[k], v)
        invariant versions == old(versions)
      {
        if Clash(versions[i], v) {
          return Some(VersionOverlap);
        }
      }
      versions := versions + [v];
      refusal := None;
    }

    method Close(i: nat, at: int) returns (refusal: Option<Refusal>)
      requires i < |versions| && at > versions[i].period.start
      modifies this
      ensures match CloseVersion(old(versions), i, at)
              case Ok(after) => refusal == None && versions == after
              case Err(e) => refusal == Some(e) && versions == old(versions)
    {
      var closed := ClosedAt(versions[i], at);
      for j := 0 to |versions|
        invariant forall k :: 0 <= k < j && k != i ==> !Clash(versions[k], closed)
        invariant versions == old(versions)
      {
        if j != i && Clash(versions[j], closed) {
          return Some(VersionOverlap);
        }
      }
      versions := versions[i := closed];
      refusal := None;
    }

    /** `_copy_for_next_version`: the dictionary, filled column by column. */
    method CopyForNextVersion(instance: Version, place: nat, values: Fields, from: int) returns (next: Version)
      ensures next == Successor(instance, place, values, from)
    {
      var fields: Fields := map[];
      var left := instance.fields.Keys;
      while left != {}
        invariant left <= instance.fields.Keys
        invariant fields.Keys == instance.fields.Keys - left
        invariant forall f :: f in fields ==> fields[f] == instance.fields[f]
        decreases |left|
      {
        var f :| f in left;
        fields := fields[f := instance.fields[f]];
        left := left - {f};
      }
      assert fields == instance.fields;
      next := Version(instance.group, instance.number + 1, Some(place), Span(from, None), instance.isActive, 1, fields + values);
    }

    /** `_supersede`, one transaction: both statements or neither. */
    method Supersede(i: nat, values: Fields, from: int) returns (refusal: Option<Refusal>)
      requires i < |versions|
      modifies this
      ensures match SupersedeVersion(old(versions), i, values, from)
              case Ok(after) => refusal == None && versions == after
              case Err(e) => refusal == Some(e) && versions == old(versions)
      ensures Chained(old(versions)) ==>
                && Chained(versions)
                && (refusal.None? <==> old(Supersedable(versions, i, from)))
    {
      if Chained(versions) {
        SupersedeSucceedsIff(versions, i, values, from);
      }
      var instance := versions[i];
      if instance.period.end.Some? {
        return Some(AlreadySuperseded);
      }
      if from <= instance.period.start {
        return Some(TooEarly);
      }
      var snapshot := versions;
      refusal := Close(i, from);
      if refusal.Some? {
        return;
      }
      var next := CopyForNextVersion(instance, i, values, from);
      refusal := Insert(next);
      if refusal.Some? {
        versions := snapshot;
      }
    }

    /** `update` of a version, when nobody else is writing. */
    method Amend(i: nat, values: Fields, expected: Option<nat>, inUse: bool) returns (refusal: Option<Refusal>)
      requires i < |versions|
      modifies this
      ensures match AmendVersion(old(versions), i, values, expected, engineering, inUse)
              case Ok(after) => refusal == None && versions == after
              case Err(e) => refusal == Some(e) && versions == old(versions)
      ensures inUse ==> SameEngineering(old(versions)[i].fields, versions[i].fields, engineering)
    {
      if inUse && AmendVersion(versions, i, values, expected, engineering, true).Ok? {
        AmendKeepsEngineeringInUse(versions, i, values, expected, engineering);
      }
      var v := versions[i];
      if ChangedFields(v.fields, values) * engineering != {} && inUse {
        return Some(RetroactiveEdit);
      }
      var target := if expected.Some? then expected.value else v.recordVersion;
      if v.recordVersion != target {
        return Some(StaleRecord);
      }
      versions := versions[i := v.(fields := v.fields + values, recordVersion := target + 1)];
      refusal := None;
    }
  }
}
