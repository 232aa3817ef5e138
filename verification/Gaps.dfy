/** The free-capacity engine (`calculations/gaps.py`). */
module Gaps {
  import opened Wrappers
  import opened Ranges
  import opened Sorting

  // ------------------------------------------------------------------------------------------
  // subtract: one entitlement minus everything occupied
  // ------------------------------------------------------------------------------------------

  predicate ByStart(a: FrequencyRange, b: FrequencyRange) {
    a.start <= b.start
  }

  function Later(a: int, b: int): int {
    if a < b then b else a
  }

  function Earlier(a: int, b: int): int {
    if a < b then a else b
  }

  predicate Outside(taken: FrequencyRange, entitlement: FrequencyRange) {
    taken.end <= entitlement.start || taken.start >= entitlement.end
  }

  /** What the sweep still has to report once it stands at `cursor`. */
  function Sweep(entitlement: FrequencyRange, ordered: seq<FrequencyRange>, cursor: int): seq<FrequencyRange>
    requires entitlement.start <= cursor <= entitlement.end
  {
    if ordered == [] then
      if cursor < entitlement.end then [Interval(cursor, entitlement.end)] else []
    else if Outside(ordered[0], entitlement) then
      Sweep(entitlement, ordered[1..], cursor)
    else
      var start := Later(ordered[0].start, entitlement.start);
      var next := Later(cursor, Earlier(ordered[0].end, entitlement.end));
      if start > cursor then [Interval(cursor, start)] + Sweep(entitlement, ordered[1..], next)
      else Sweep(entitlement, ordered[1..], next)
  }

  function Free(entitlement: FrequencyRange, occupied: seq<FrequencyRange>): seq<FrequencyRange> {
    Sweep(entitlement, Sort(occupied, ByStart), entitlement.start)
  }

  method Subtract(entitlement: FrequencyRange, occupied: seq<FrequencyRange>) returns (free: seq<FrequencyRange>)
    ensures free == Free(entitlement, occupied)
    ensures forall hz :: InSome(free, hz) <==> entitlement.ContainsHz(hz) && !InSome(occupied, hz)
    ensures Separated(free)
  {
    free := [];
    var cursor := entitlement.start;
    var ordered := Sort(occupied, ByStart);
    for i := 0 to |ordered|
      invariant entitlement.start <= cursor <= entitlement.end
      invariant free + Sweep(entitlement, ordered[i..], cursor) == Free(entitlement, occupied)
    {
      var taken := ordered[i];
      assert ordered[i..][1..] == ordered[i + 1..];
      if taken.end <= entitlement.start || taken.start >= entitlement.end {
        continue;
      }
      var start := Later(taken.start, entitlement.start);
      if start > cursor {
        free := free + [Interval(cursor, start)];
      }
      cursor := Later(cursor, Earlier(taken.end, entitlement.end));
    }
    if cursor < entitlement.end {
      free := free + [Interval(cursor, entitlement.end)];
    }
    SubtractIsComplement(entitlement, occupied);
  }

  /** Ascending, pairwise disjoint, and never touching: no two pieces could be joined. */
  ghost predicate Separated(ranges: seq<FrequencyRange>) {
    forall i, j :: 0 <= i < j < |ranges| ==> ranges[i].end < ranges[j].start
  }

  lemma InSomeCons(r: FrequencyRange, rest: seq<FrequencyRange>, hz: int)
    ensures InSome([r] + rest, hz) <==> r.ContainsHz(hz) || InSome(rest, hz)
  {
    var all := [r] + rest;
    if r.ContainsHz(hz) {
      assert all[0].ContainsHz(hz);
    }
    if InSome(rest, hz) {
      var i :| 0 <= i < |rest| && rest[i].ContainsHz(hz);
      assert all[i + 1].ContainsHz(hz);
    }
    if InSome(all, hz) {
      var i :| 0 <= i < |all| && all[i].ContainsHz(hz);
      if i > 0 {
        assert rest[i - 1].ContainsHz(hz);
      }
    }
  }

  /** One step of the sweep, for one Hz: what the piece before `taken` and the rest report. */
  lemma SweepStepAt(entitlement: FrequencyRange, taken: FrequencyRange, rest: seq<FrequencyRange>, cursor: int, hz: int)
    requires entitlement.start <= cursor <= entitlement.end && !Outside(taken, entitlement)
    requires InSome(rest, hz) ==> taken.start <= hz
    ensures var start := Later(taken.start, entitlement.start);
            var next := Later(cursor, Earlier(taken.end, entitlement.end));
            (cursor <= hz < start || (next <= hz < entitlement.end && !InSome(rest, hz))) <==>
            cursor <= hz < entitlement.end && !InSome([taken] + rest, hz)
  {
    InSomeCons(taken, rest, hz);
  }

  lemma StartsAfterHead(ordered: seq<FrequencyRange>, hz: int)
    requires ordered != [] && Sorted(ordered, ByStart) && InSome(ordered[1..], hz)
    ensures ordered[0].start <= hz
  {
    var i :| 0 <= i < |ordered[1..]| && ordered[1..][i].ContainsHz(hz);
    assert ByStart(ordered[0], ordered[i + 1]);
  }

  ghost predicate Complements(free: seq<FrequencyRange>, lo: int, hi: int, occupied: seq<FrequencyRange>) {
    && (forall hz :: InSome(free, hz) <==> lo <= hz < hi && !InSome(occupied, hz))
    && Separated(free)
    && (forall i :: 0 <= i < |free| ==> lo <= free[i].start && free[i].end <= hi)
  }

  lemma {:induction false} SweepIsComplement(entitlement: FrequencyRange, ordered: seq<FrequencyRange>, cursor: int)
    requires entitlement.start <= cursor <= entitlement.end
    requires Sorted(ordered, ByStart)
    ensures Complements(Sweep(entitlement, ordered, cursor), cursor, entitlement.end, ordered)
  {
    if ordered == [] {
      NothingTaken(entitlement, cursor);
    } else {
      var taken, rest := ordered[0], ordered[1..];
      assert ordered == [taken] + rest;
      if Outside(taken, entitlement) {
        SweepIsComplement(entitlement, rest, cursor);
        forall hz ensures InSome(ordered, hz) <==> taken.ContainsHz(hz) || InSome(rest, hz) {
          InSomeCons(taken, rest, hz);
        }
      } else {
        var next := Later(cursor, Earlier(taken.end, entitlement.end));
        SweepIsComplement(entitlement, rest, next);
        OverTaken(entitlement, taken, rest, cursor, Sweep(entitlement, rest, next));
      }
    }
  }

  lemma NothingTaken(entitlement: FrequencyRange, cursor: int)
    requires entitlement.start <= cursor <= entitlement.end
    ensures Complements(Sweep(entitlement, [], cursor), cursor, entitlement.end, [])
  {
    var free := Sweep(entitlement, [], cursor);
    forall hz ensures InSome(free, hz) <==> cursor <= hz < entitlement.end {
      if free != [] {
        assert InSome(free, hz) <==> free[0].ContainsHz(hz);
      }
    }
  }

  /** The piece before `taken`, if there is one, in front of what the rest of the sweep reports. */
  lemma OverTaken(entitlement: FrequencyRange, taken: FrequencyRange, rest: seq<FrequencyRange>, cursor: int,
                  tail: seq<FrequencyRange>)
    requires entitlement.start <= cursor <= entitlement.end
    requires Sorted([taken] + rest, ByStart) && !Outside(taken, entitlement)
    requires Complements(tail, Later(cursor, Earlier(taken.end, entitlement.end)), entitlement.end, rest)
    ensures var start := Later(taken.start, entitlement.start);
            Complements(if start > cursor then [Interval(cursor, start)] + tail else tail,
                        cursor, entitlement.end, [taken] + rest)
  {
    var start := Later(taken.start, entitlement.start);
    forall hz
      ensures (start > cursor && Interval(cursor, start).ContainsHz(hz)) || InSome(tail, hz) <==>
              cursor <= hz < entitlement.end && !InSome([taken] + rest, hz)
    {
      if InSome(rest, hz) {
        assert ([taken] + rest)[1..] == rest;
        StartsAfterHead([taken] + rest, hz);
      }
      SweepStepAt(entitlement, taken, rest, cursor, hz);
    }
    if start > cursor {
      var piece := Interval(cursor, start);
      forall hz
        ensures InSome([piece] + tail, hz) <==> piece.ContainsHz(hz) || InSome(tail, hz)
      {
        InSomeCons(piece, tail, hz);
      }
    }
  }

  /** The sweep computes the exact complement, for any list of occupied ranges. */
  lemma SubtractIsComplement(entitlement: FrequencyRange, occupied: seq<FrequencyRange>)
    ensures forall hz :: InSome(Free(entitlement, occupied), hz) <==> entitlement.ContainsHz(hz) && !InSome(occupied, hz)
    ensures Separated(Free(entitlement, occupied))
    ensures forall i :: 0 <= i < |Free(entitlement, occupied)| ==> entitlement.Contains(Free(entitlement, occupied)[i])
  {
    var ordered := Sort(occupied, ByStart);
    SortSorts(occupied, ByStart);
    SweepIsComplement(entitlement, ordered, entitlement.start);
    assert Complements(Free(entitlement, occupied), entitlement.start, entitlement.end, ordered);
    forall hz ensures InSome(ordered, hz) <==> InSome(occupied, hz) {
      SameRangesSameHz(ordered, occupied, hz);
    }
  }

  lemma SameRangesSameHz(a: seq<FrequencyRange>, b: seq<FrequencyRange>, hz: int)
    requires forall r :: r in a <==> r in b
    ensures InSome(a, hz) <==> InSome(b, hz)
  {
    if InSome(a, hz) {
      var i :| 0 <= i < |a| && a[i].ContainsHz(hz);
      assert a[i] in b;
      var j :| 0 <= j < |b| && b[j] == a[i];
      assert b[j].ContainsHz(hz);
    }
    if InSome(b, hz) {
      var i :| 0 <= i < |b| && b[i].ContainsHz(hz);
      assert b[i] in a;
      var j :| 0 <= j < |a| && a[j] == b[i];
      assert a[j].ContainsHz(hz);
    }
  }

  lemma FirstStartsAgree(a: seq<FrequencyRange>, b: seq<FrequencyRange>)
    requires a != [] && b != [] && Separated(a) && Separated(b)
    requires forall hz :: InSome(a, hz) ==> InSome(b, hz)
    ensures b[0].start <= a[0].start
  {
    assert a[0].ContainsHz(a[0].start);
    assert InSome(b, a[0].start);
    var i :| 0 <= i < |b| && b[i].ContainsHz(a[0].start);
  }

  /** The end of a piece belongs to no piece. */
  lemma EndIsUncovered(a: seq<FrequencyRange>, i: nat)
    requires Separated(a) && i < |a|
    ensures !InSome(a, a[i].end)
  {
    forall j | 0 <= j < |a|
      ensures !a[j].ContainsHz(a[i].end)
    {
      assert j < i ==> a[j].end < a[i].start;
      assert i < j ==> a[i].end < a[j].start;
    }
  }

  lemma FirstEndsAgree(a: seq<FrequencyRange>, b: seq<FrequencyRange>)
    requires a != [] && b != [] && Separated(a) && Separated(b) && a[0].start == b[0].start
    requires forall hz :: InSome(a, hz) ==> InSome(b, hz)
    ensures a[0].end <= b[0].end
  {
    EndIsUncovered(b, 0);
    if b[0].end < a[0].end {
      assert a[0].ContainsHz(b[0].end);
    }
  }

  /** Separated lists are a normal form: they are determined by the Hz they cover. */
  lemma {:induction false} SeparatedIsUnique(a: seq<FrequencyRange>, b: seq<FrequencyRange>)
    requires Separated(a) && Separated(b)
    requires forall hz :: InSome(a, hz) <==> InSome(b, hz)
    ensures a == b
  {
    if a == [] || b == [] {
      if a != [] {
        assert a[0].ContainsHz(a[0].start);
        assert InSome(a, a[0].start);
      } else if b != [] {
        assert b[0].ContainsHz(b[0].start);
        assert InSome(b, b[0].start);
      }
    } else {
      FirstStartsAgree(a, b);
      FirstStartsAgree(b, a);
      FirstEndsAgree(a, b);
      FirstEndsAgree(b, a);
      assert a == [a[0]] + a[1..] && b == [b[0]] + b[1..];
      forall hz ensures InSome(a[1..], hz) <==> InSome(b[1..], hz) {
        InSomeCons(a[0], a[1..], hz);
        InSomeCons(b[0], b[1..], hz);
        if InSome(a[1..], hz) {
          AfterFirst(a, hz);
        }
        if InSome(b[1..], hz) {
          AfterFirst(b, hz);
        }
      }
      SeparatedIsUnique(a[1..], b[1..]);
    }
  }

  lemma AfterFirst(a: seq<FrequencyRange>, hz: int)
    requires a != [] && Separated(a) && InSome(a[1..], hz)
    ensures !a[0].ContainsHz(hz)
  {
    var i :| 0 <= i < |a[1..]| && a[1..][i].ContainsHz(hz);
    assert a[1..][i] == a[i + 1];
  }

  /** The answer depends only on which Hz are occupied, not on how, or in what order, the list
      says so. */
  lemma SubtractIgnoresPresentation(entitlement: FrequencyRange, a: seq<FrequencyRange>, b: seq<FrequencyRange>)
    requires forall hz :: InSome(a, hz) <==> InSome(b, hz)
    ensures Free(entitlement, a) == Free(entitlement, b)
  {
    SubtractIsComplement(entitlement, a);
    SubtractIsComplement(entitlement, b);
    SeparatedIsUnique(Free(entitlement, a), Free(entitlement, b));
  }

  /** A range is free exactly when it lies inside a single piece of what is left. */
  lemma FreeRangeLiesInOnePiece(entitlement: FrequencyRange, occupied: seq<FrequencyRange>, r: FrequencyRange)
    ensures (exists i :: 0 <= i < |Free(entitlement, occupied)| && Free(entitlement, occupied)[i].Contains(r)) <==>
            entitlement.Contains(r) && forall k :: 0 <= k < |occupied| ==> !occupied[k].Overlaps(r)
  {
    var free := Free(entitlement, occupied);
    SubtractIsComplement(entitlement, occupied);
    if i :| 0 <= i < |free| && free[i].Contains(r) {
      forall k | 0 <= k < |occupied|
        ensures !occupied[k].Overlaps(r)
      {
        var hz := Later(occupied[k].start, r.start);
        assert occupied[k].Overlaps(r) ==> occupied[k].ContainsHz(hz) && free[i].ContainsHz(hz);
        assert InSome(free, hz) ==> !InSome(occupied, hz);
      }
    }
    if entitlement.Contains(r) && forall k :: 0 <= k < |occupied| ==> !occupied[k].Overlaps(r) {
      forall hz | r.ContainsHz(hz)
        ensures InSome(free, hz)
      {
        assert entitlement.ContainsHz(hz);
        assert forall k :: 0 <= k < |occupied| ==> !occupied[k].ContainsHz(hz);
      }
      assert r.ContainsHz(r.start);
      var i :| 0 <= i < |free| && free[i].ContainsHz(r.start);
      var end := free[i].end;
      assert end < r.end ==> r.ContainsHz(end);
      EndIsUncovered(free, i);
      assert free[i].Contains(r);
    }
  }

  // ------------------------------------------------------------------------------------------
  // find: every gap of every entitlement
  // ------------------------------------------------------------------------------------------

  datatype Gap = Gap(range: FrequencyRange, below: Option<int>, above: Option<int>) {
    predicate Fits(width: int) {
      range.Width() >= width
    }
  }

  predicate ByGapStart(a: Gap, b: Gap) {
    a.range.start <= b.range.start
  }

  /** `_nearest_below`: the highest occupied end at or below an edge. */
  function NearestBelow(edge: int, occupied: seq<FrequencyRange>): (e: Option<int>)
    ensures e.None? <==> forall k :: 0 <= k < |occupied| ==> occupied[k].end > edge
    ensures e.Some? ==> e.value <= edge && exists k :: 0 <= k < |occupied| && occupied[k].end == e.value
    ensures e.Some? ==> forall k :: 0 <= k < |occupied| && occupied[k].end <= edge ==> occupied[k].end <= e.value
  {
    if occupied == [] then None
    else
      var rest := NearestBelow(edge, occupied[1..]);
      assert forall k :: 1 <= k < |occupied| ==> occupied[k] == occupied[1..][k - 1];
      if occupied[0].end <= edge && (rest.None? || rest.value < occupied[0].end)
      then Some(occupied[0].end) else rest
  }

  /** `_nearest_above`: the lowest occupied start at or above an edge. */
  function NearestAbove(edge: int, occupied: seq<FrequencyRange>): (e: Option<int>)
    ensures e.None? <==> forall k :: 0 <= k < |occupied| ==> occupied[k].start < edge
    ensures e.Some? ==> e.value >= edge && exists k :: 0 <= k < |occupied| && occupied[k].start == e.value
    ensures e.Some? ==> forall k :: 0 <= k < |occupied| && occupied[k].start >= edge ==> occupied[k].start >= e.value
  {
    if occupied == [] then None
    else
      var rest := NearestAbove(edge, occupied[1..]);
      assert forall k :: 1 <= k < |occupied| ==> occupied[k] == occupied[1..][k - 1];
      if occupied[0].start >= edge && (rest.None? || rest.value > occupied[0].start)
      then Some(occupied[0].start) else rest
  }

  function GapAt(free: FrequencyRange, taken: seq<FrequencyRange>): Gap {
    Gap(free, NearestBelow(free.start, taken), NearestAbove(free.end, taken))
  }

  function GapsIn(free: seq<FrequencyRange>, taken: seq<FrequencyRange>, minimum: int): seq<Gap> {
    if free == [] then []
    else if free[0].Width() < minimum then GapsIn(free[1..], taken, minimum)
    else [GapAt(free[0], taken)] + GapsIn(free[1..], taken, minimum)
  }

  function GapsAcross(entitlements: seq<FrequencyRange>, taken: seq<FrequencyRange>, minimum: int): seq<Gap> {
    if entitlements == [] then []
    else GapsIn(Free(entitlements[0], taken), taken, minimum) + GapsAcross(entitlements[1..], taken, minimum)
  }

  function FindGaps(entitlements: seq<FrequencyRange>, occupied: seq<FrequencyRange>, minimum: int): seq<Gap> {
    Sort(GapsAcross(Sort(entitlements, ByStart), Sort(occupied, ByStart), minimum), ByGapStart)
  }

  lemma GapsInCons(piece: FrequencyRange, rest: seq<FrequencyRange>, taken: seq<FrequencyRange>, minimum: int)
    ensures GapsIn([piece] + rest, taken, minimum) ==
            if piece.Width() < minimum then GapsIn(rest, taken, minimum)
            else [GapAt(piece, taken)] + GapsIn(rest, taken, minimum)
  {
    assert ([piece] + rest)[1..] == rest;
  }

  lemma {:induction false} GapsInAppend(a: seq<FrequencyRange>, b: seq<FrequencyRange>, taken: seq<FrequencyRange>, minimum: int)
    ensures GapsIn(a + b, taken, minimum) == GapsIn(a, taken, minimum) + GapsIn(b, taken, minimum)
  {
    if a == [] {
      assert a + b == b;
    } else {
      GapsInAppend(a[1..], b, taken, minimum);
      GapsInCons(a[0], a[1..], taken, minimum);
      GapsInCons(a[0], a[1..] + b, taken, minimum);
      Associates([GapAt(a[0], taken)], GapsIn(a[1..], taken, minimum), GapsIn(b, taken, minimum));
      assert a == [a[0]] + a[1..] && a + b == [a[0]] + (a[1..] + b);
    }
  }

  lemma GapsAcrossStep(ordered: seq<FrequencyRange>, i: nat, taken: seq<FrequencyRange>, minimum: int)
    requires i < |ordered|
    ensures GapsAcross(ordered[i..], taken, minimum) ==
            GapsIn(Free(ordered[i], taken), taken, minimum) + GapsAcross(ordered[i + 1..], taken, minimum)
  {
    assert ordered[i..][1..] == ordered[i + 1..];
  }

  lemma GapsInStep(free: seq<FrequencyRange>, k: nat, taken: seq<FrequencyRange>, minimum: int)
    requires k < |free|
    ensures GapsIn(free[..k + 1], taken, minimum) ==
            GapsIn(free[..k], taken, minimum) + (if free[k].Width() < minimum then [] else [GapAt(free[k], taken)])
  {
    assert free[..k + 1] == free[..k] + [free[k]];
    GapsInCons(free[k], [], taken, minimum);
    assert [free[k]] + [] == [free[k]];
    GapsInAppend(free[..k], [free[k]], taken, minimum);
  }

  lemma Associates<T>(a: seq<T>, b: seq<T>, c: seq<T>)
    ensures a + (b + c) == (a + b) + c
  {
  }

  method Find(entitlements: seq<FrequencyRange>, occupied: seq<FrequencyRange>, minimum: int) returns (gaps: seq<Gap>)
    ensures gaps == FindGaps(entitlements, occupied, minimum)
  {
    gaps := [];
    var taken := Sort(occupied, ByStart);
    var ordered := Sort(entitlements, ByStart);
    ghost var all := GapsAcross(ordered, taken, minimum);
    assert ordered[0..] == ordered;
    for i := 0 to |ordered|
      invariant gaps + GapsAcross(ordered[i..], taken, minimum) == all
    {
      var free := Subtract(ordered[i], taken);
      GapsAcrossStep(ordered, i, taken, minimum);
      ghost var before := gaps;
      for k := 0 to |free|
        invariant gaps == before + GapsIn(free[..k], taken, minimum)
      {
        GapsInStep(free, k, taken, minimum);
        if free[k].Width() < minimum {
          continue;
        }
        gaps := gaps + [GapAt(free[k], taken)];
      }
      assert free[..|free|] == free;
      Associates(before, GapsIn(free, taken, minimum), GapsAcross(ordered[i + 1..], taken, minimum));
    }
    assert GapsAcross(ordered[|ordered|..], taken, minimum) == [];
    assert gaps == all;
    gaps := Sort(gaps, ByGapStart);
  }

  lemma {:induction false} GapsInMembers(free: seq<FrequencyRange>, taken: seq<FrequencyRange>, minimum: int, g: Gap)
    ensures g in GapsIn(free, taken, minimum) <==>
            exists k :: 0 <= k < |free| && free[k].Width() >= minimum && g == GapAt(free[k], taken)
  {
    if free != [] {
      GapsInMembers(free[1..], taken, minimum, g);
      if k :| 0 <= k < |free| && free[k].Width() >= minimum && g == GapAt(free[k], taken) {
        if k > 0 {
          assert free[1..][k - 1] == free[k];
        }
      }
      if k :| 0 <= k < |free[1..]| && free[1..][k].Width() >= minimum && g == GapAt(free[1..][k], taken) {
        assert free[k + 1] == free[1..][k];
      }
    }
  }

  lemma {:induction false} GapsAcrossMembers(entitlements: seq<FrequencyRange>, taken: seq<FrequencyRange>, minimum: int, g: Gap)
    ensures g in GapsAcross(entitlements, taken, minimum) <==>
            exists i :: 0 <= i < |entitlements| && g in GapsIn(Free(entitlements[i], taken), taken, minimum)
  {
    if entitlements != [] {
      GapsAcrossMembers(entitlements[1..], taken, minimum, g);
      if i :| 0 <= i < |entitlements| && g in GapsIn(Free(entitlements[i], taken), taken, minimum) {
        if i > 0 {
          assert entitlements[1..][i - 1] == entitlements[i];
        }
      }
      if i :| 0 <= i < |entitlements[1..]| && g in GapsIn(Free(entitlements[1..][i], taken), taken, minimum) {
        assert entitlements[i + 1] == entitlements[1..][i];
      }
    }
  }

  /** The gaps that `find` reports are the pieces that each entitlement has left. */
  lemma FindMembers(entitlements: seq<FrequencyRange>, occupied: seq<FrequencyRange>, minimum: int, g: Gap)
    ensures var taken := Sort(occupied, ByStart);
            g in FindGaps(entitlements, occupied, minimum) <==>
            exists e :: e in entitlements && g in GapsIn(Free(e, taken), taken, minimum)
  {
    var taken, ordered := Sort(occupied, ByStart), Sort(entitlements, ByStart);
    var across := GapsAcross(ordered, taken, minimum);
    SortSorts(entitlements, ByStart);
    SortKeepsElements(across, ByGapStart);
    SameElements(FindGaps(entitlements, occupied, minimum), across);
    GapsAcrossMembers(ordered, taken, minimum, g);
    if e :| e in entitlements && g in GapsIn(Free(e, taken), taken, minimum) {
      assert e in ordered;
    }
  }

  lemma PieceCovers(e: FrequencyRange, occupied: seq<FrequencyRange>, r: FrequencyRange)
    ensures var taken := Sort(occupied, ByStart);
            (exists g :: g in GapsIn(Free(e, taken), taken, 1) && g.range.Contains(r)) <==>
            e.Contains(r) && forall o :: o in occupied ==> !o.Overlaps(r)
  {
    var taken := Sort(occupied, ByStart);
    var free := Free(e, taken);
    SortSorts(occupied, ByStart);
    FreeRangeLiesInOnePiece(e, taken, r);
    if k :| 0 <= k < |free| && free[k].Contains(r) {
      GapsInMembers(free, taken, 1, GapAt(free[k], taken));
    }
    if g :| g in GapsIn(free, taken, 1) && g.range.Contains(r) {
      GapsInMembers(free, taken, 1, g);
    }
    assert (forall k :: 0 <= k < |taken| ==> !taken[k].Overlaps(r)) <==> forall o :: o in taken ==> !o.Overlaps(r);
  }

  /** A range lies inside a reported gap exactly when it fits one entitlement and is clear of
      everything occupied. */
  lemma GapsCoverExactlyTheFreeRanges(entitlements: seq<FrequencyRange>, occupied: seq<FrequencyRange>, r: FrequencyRange)
    ensures (exists g :: g in FindGaps(entitlements, occupied, 1) && g.range.Contains(r)) <==>
            (exists e :: e in entitlements && e.Contains(r)) && forall o :: o in occupied ==> !o.Overlaps(r)
  {
    var taken := Sort(occupied, ByStart);
    if g :| g in FindGaps(entitlements, occupied, 1) && g.range.Contains(r) {
      FindMembers(entitlements, occupied, 1, g);
      var e :| e in entitlements && g in GapsIn(Free(e, taken), taken, 1);
      PieceCovers(e, occupied, r);
    }
    if e :| e in entitlements && e.Contains(r) {
      PieceCovers(e, occupied, r);
      if g :| g in GapsIn(Free(e, taken), taken, 1) && g.range.Contains(r) {
        FindMembers(entitlements, occupied, 1, g);
      }
    }
  }

  /** A stretch of free entitlement that cannot be widened on either side. */
  ghost predicate WholePiece(e: FrequencyRange, occupied: seq<FrequencyRange>, r: FrequencyRange) {
    && e.Contains(r) && (forall k :: 0 <= k < |occupied| ==> !occupied[k].Overlaps(r))
    && (e.start < r.start ==> InSome(occupied, r.start - 1))
    && (r.end < e.end ==> InSome(occupied, r.end))
  }

  lemma StartIsEdge(a: seq<FrequencyRange>, i: nat)
    requires Separated(a) && i < |a|
    ensures !InSome(a, a[i].start - 1)
  {
    forall j | 0 <= j < |a|
      ensures !a[j].ContainsHz(a[i].start - 1)
    {
      assert j < i ==> a[j].end < a[i].start;
      assert i < j ==> a[i].end < a[j].start;
    }
  }

  lemma PieceIsWhole(e: FrequencyRange, occupied: seq<FrequencyRange>, i: nat)
    requires i < |Free(e, occupied)|
    ensures WholePiece(e, occupied, Free(e, occupied)[i])
  {
    var free := Free(e, occupied);
    SubtractIsComplement(e, occupied);
    FreeRangeLiesInOnePiece(e, occupied, free[i]);
    StartIsEdge(free, i);
    EndIsUncovered(free, i);
  }

  lemma WholeIsPiece(e: FrequencyRange, occupied: seq<FrequencyRange>, r: FrequencyRange)
    requires WholePiece(e, occupied, r)
    ensures exists i :: 0 <= i < |Free(e, occupied)| && Free(e, occupied)[i] == r
  {
    var free := Free(e, occupied);
    SubtractIsComplement(e, occupied);
    FreeRangeLiesInOnePiece(e, occupied, r);
    var i :| 0 <= i < |free| && free[i].Contains(r);
    var piece := free[i];
    assert piece.start < r.start ==> piece.ContainsHz(r.start - 1) && InSome(free, r.start - 1);
    assert r.end < piece.end ==> piece.ContainsHz(r.end) && InSome(free, r.end);
  }

  /** `find` reports a range exactly when it is wide enough and a whole piece of what some entitlement has
      left; pieces of different entitlements are never joined. */
  lemma FindReportsExactlyTheWholePieces(entitlements: seq<FrequencyRange>, occupied: seq<FrequencyRange>, minimum: int,
                                         r: FrequencyRange)
    ensures (exists g :: g in FindGaps(entitlements, occupied, minimum) && g.range == r) <==>
            r.Width() >= minimum && exists e :: e in entitlements && WholePiece(e, occupied, r)
  {
    var taken := Sort(occupied, ByStart);
    forall e | e in entitlements
      ensures Free(e, taken) == Free(e, occupied)
    {
      SortedTakesTheSame(e, occupied);
    }
    if g :| g in FindGaps(entitlements, occupied, minimum) && g.range == r {
      FindMembers(entitlements, occupied, minimum, g);
      var e :| e in entitlements && g in GapsIn(Free(e, taken), taken, minimum);
      GapsInMembers(Free(e, taken), taken, minimum, g);
      var k :| 0 <= k < |Free(e, taken)| && Free(e, taken)[k].Width() >= minimum && g == GapAt(Free(e, taken)[k], taken);
      PieceIsWhole(e, occupied, k);
    }
    if r.Width() >= minimum {
      if e :| e in entitlements && WholePiece(e, occupied, r) {
        WholeIsPiece(e, occupied, r);
        var g := GapAt(r, taken);
        GapsInMembers(Free(e, taken), taken, minimum, g);
        FindMembers(entitlements, occupied, minimum, g);
      }
    }
  }

  lemma SortedTakesTheSame(e: FrequencyRange, occupied: seq<FrequencyRange>)
    ensures Free(e, Sort(occupied, ByStart)) == Free(e, occupied)
  {
    SortSorts(occupied, ByStart);
    forall hz
      ensures InSome(Sort(occupied, ByStart), hz) <==> InSome(occupied, hz)
    {
      SameRangesSameHz(Sort(occupied, ByStart), occupied, hz);
    }
    SubtractIgnoresPresentation(e, Sort(occupied, ByStart), occupied);
  }

  /** The nearest occupied edge at or below this one, or that there is none. */
  ghost predicate EndsNearestBelow(e: Option<int>, edge: int, occupied: seq<FrequencyRange>) {
    match e
    case None => forall o :: o in occupied ==> o.end > edge
    case Some(x) =>
      x <= edge && (exists o :: o in occupied && o.end == x) && forall o :: o in occupied && o.end <= edge ==> o.end <= x
  }

  /** The nearest at or above, likewise. */
  ghost predicate StartsNearestAbove(e: Option<int>, edge: int, occupied: seq<FrequencyRange>) {
    match e
    case None => forall o :: o in occupied ==> o.start < edge
    case Some(x) =>
      x >= edge && (exists o :: o in occupied && o.start == x) && forall o :: o in occupied && o.start >= edge ==> o.start >= x
  }

  lemma NearestAmong(edge: int, taken: seq<FrequencyRange>, occupied: seq<FrequencyRange>)
    requires forall o :: o in taken <==> o in occupied
    ensures EndsNearestBelow(NearestBelow(edge, taken), edge, occupied)
    ensures StartsNearestAbove(NearestAbove(edge, taken), edge, occupied)
  {
    var below, above := NearestBelow(edge, taken), NearestAbove(edge, taken);
    forall o | o in occupied
      ensures exists k :: 0 <= k < |taken| && taken[k] == o
    {
      assert o in taken;
    }
    if below.Some? {
      var k :| 0 <= k < |taken| && taken[k].end == below.value;
      assert taken[k] in occupied;
    }
    if above.Some? {
      var k :| 0 <= k < |taken| && taken[k].start == above.value;
      assert taken[k] in occupied;
    }
  }

  /** What a gap knows of its neighbours: the nearest occupied edge on either side, or that there is none. */
  lemma GapsKnowTheirNeighbours(entitlements: seq<FrequencyRange>, occupied: seq<FrequencyRange>, minimum: int, g: Gap)
    requires g in FindGaps(entitlements, occupied, minimum)
    ensures EndsNearestBelow(g.below, g.range.start, occupied)
    ensures StartsNearestAbove(g.above, g.range.end, occupied)
  {
    var taken := Sort(occupied, ByStart);
    FindMembers(entitlements, occupied, minimum, g);
    var e :| e in entitlements && g in GapsIn(Free(e, taken), taken, minimum);
    GapsInMembers(Free(e, taken), taken, minimum, g);
    SortKeepsElements(occupied, ByStart);
    SameElements(taken, occupied);
    NearestAmong(g.range.start, taken, occupied);
    NearestAmong(g.range.end, taken, occupied);
  }

  lemma FindIsAscending(entitlements: seq<FrequencyRange>, occupied: seq<FrequencyRange>, minimum: int)
    ensures Sorted(FindGaps(entitlements, occupied, minimum), ByGapStart)
  {
    SortSorts(GapsAcross(Sort(entitlements, ByStart), Sort(occupied, ByStart), minimum), ByGapStart);
  }

  /** Gaps come by their starts. */
  lemma GapsAscend(entitlements: seq<FrequencyRange>, occupied: seq<FrequencyRange>, minimum: int, i: nat, j: nat)
    requires i < j < |FindGaps(entitlements, occupied, minimum)|
    ensures FindGaps(entitlements, occupied, minimum)[i].range.start <= FindGaps(entitlements, occupied, minimum)[j].range.start
  {
    FindIsAscending(entitlements, occupied, minimum);
    var gaps := FindGaps(entitlements, occupied, minimum);
    assert ByGapStart(gaps[i], gaps[j]);
  }

  // ------------------------------------------------------------------------------------------
  // first_fit
  // ------------------------------------------------------------------------------------------

  /** `next((gap for gap in gaps if gap.fits(width)), None)`. */
  function FirstFitting(gaps: seq<Gap>, width: int): Option<Gap> {
    if gaps == [] then None else if gaps[0].Fits(width) then Some(gaps[0]) else FirstFitting(gaps[1..], width)
  }

  function FirstFit(entitlements: seq<FrequencyRange>, occupied: seq<FrequencyRange>, width: int): Option<Gap> {
    FirstFitting(FindGaps(entitlements, occupied, 1), width)
  }

  lemma {:induction false} FirstFittingIsFirst(gaps: seq<Gap>, width: int)
    requires Sorted(gaps, ByGapStart)
    ensures FirstFitting(gaps, width).None? <==> forall g :: g in gaps ==> !g.Fits(width)
    ensures FirstFitting(gaps, width).Some? ==>
              var found := FirstFitting(gaps, width).value;
              && found in gaps && found.Fits(width)
              && forall g :: g in gaps && g.Fits(width) ==> found.range.start <= g.range.start
  {
    if gaps != [] && !gaps[0].Fits(width) {
      FirstFittingIsFirst(gaps[1..], width);
      assert gaps == [gaps[0]] + gaps[1..];
    } else if gaps != [] {
      forall g | g in gaps ensures gaps[0].range.start <= g.range.start {
        var i :| 0 <= i < |gaps| && gaps[i] == g;
        assert i == 0 || ByGapStart(gaps[0], gaps[i]);
      }
    }
  }

  /** Where a range of this width could go: inside one entitlement, clear of everything taken. */
  ghost predicate CouldGo(entitlements: seq<FrequencyRange>, occupied: seq<FrequencyRange>, r: FrequencyRange, width: int) {
    && r.Width() == width
    && (exists e :: e in entitlements && e.Contains(r))
    && (forall o :: o in occupied ==> !o.Overlaps(r))
  }

  lemma PlacesAreInGaps(entitlements: seq<FrequencyRange>, occupied: seq<FrequencyRange>, r: FrequencyRange, width: int)
    ensures CouldGo(entitlements, occupied, r, width) <==>
            r.Width() == width && exists g :: g in FindGaps(entitlements, occupied, 1) && g.range.Contains(r)
  {
    GapsCoverExactlyTheFreeRanges(entitlements, occupied, r);
  }

  lemma FitIsNoHigher(entitlements: seq<FrequencyRange>, occupied: seq<FrequencyRange>, width: int, r: FrequencyRange)
    requires CouldGo(entitlements, occupied, r, width)
    ensures FirstFit(entitlements, occupied, width).Some?
    ensures FirstFit(entitlements, occupied, width).value.range.start <= r.start
  {
    var gaps := FindGaps(entitlements, occupied, 1);
    FindIsAscending(entitlements, occupied, 1);
    FirstFittingIsFirst(gaps, width);
    PlacesAreInGaps(entitlements, occupied, r, width);
    var g :| g in gaps && g.range.Contains(r);
    assert g.Fits(width);
  }

  lemma FitCanGo(entitlements: seq<FrequencyRange>, occupied: seq<FrequencyRange>, width: int)
    requires width >= 1 && FirstFit(entitlements, occupied, width).Some?
    ensures var start := FirstFit(entitlements, occupied, width).value.range.start;
            CouldGo(entitlements, occupied, Interval(start, start + width), width)
  {
    var gaps := FindGaps(entitlements, occupied, 1);
    FindIsAscending(entitlements, occupied, 1);
    FirstFittingIsFirst(gaps, width);
    var g := FirstFit(entitlements, occupied, width).value;
    var r := Interval(g.range.start, g.range.start + width);
    assert g in gaps && g.range.Contains(r);
    PlacesAreInGaps(entitlements, occupied, r, width);
  }

  /** Complete and lowest: `None` only when the width fits nowhere; otherwise the lower end of the
      gap holds a range of that width and no such range starts lower. */
  lemma FirstFitIsCompleteAndLowest(entitlements: seq<FrequencyRange>, occupied: seq<FrequencyRange>, width: int)
    requires width >= 1
    ensures FirstFit(entitlements, occupied, width).None? <==>
            forall r: FrequencyRange :: !CouldGo(entitlements, occupied, r, width)
    ensures FirstFit(entitlements, occupied, width).Some? ==>
              var start := FirstFit(entitlements, occupied, width).value.range.start;
              && CouldGo(entitlements, occupied, Interval(start, start + width), width)
              && forall r: FrequencyRange :: CouldGo(entitlements, occupied, r, width) ==> start <= r.start
  {
    if FirstFit(entitlements, occupied, width).Some? {
      FitCanGo(entitlements, occupied, width);
    }
    forall r: FrequencyRange | CouldGo(entitlements, occupied, r, width)
      ensures FirstFit(entitlements, occupied, width).Some? && FirstFit(entitlements, occupied, width).value.range.start <= r.start
    {
      FitIsNoHigher(entitlements, occupied, width, r);
    }
  }
}
