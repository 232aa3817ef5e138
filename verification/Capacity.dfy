/**
 * Capacity accounting (`summarise` in `calculations/gaps.py`): what is free and what is covered
 * add up to the entitlements, counted Hz by Hz.
 */
module Capacity {
  import opened Ranges
  import opened Sorting
  import opened Gaps

  datatype CapacitySummary = CapacitySummary(total: int, free: int, gaps: seq<Gap>)

  function TotalWidth(ranges: seq<FrequencyRange>): int {
    if ranges == [] then 0 else ranges[0].Width() + TotalWidth(ranges[1..])
  }

  function GapWidth(gaps: seq<Gap>): int {
    if gaps == [] then 0 else gaps[0].range.Width() + GapWidth(gaps[1..])
  }

  function Summarise(entitlements: seq<FrequencyRange>, occupied: seq<FrequencyRange>): CapacitySummary {
    var gaps := FindGaps(entitlements, occupied, 1);
    CapacitySummary(TotalWidth(entitlements), GapWidth(gaps), gaps)
  }

  ghost function HzOf(r: FrequencyRange): set<int> {
    set hz | r.start <= hz < r.end && r.ContainsHz(hz)
  }

  ghost function HzOfAll(ranges: seq<FrequencyRange>): set<int> {
    if ranges == [] then {} else HzOf(ranges[0]) + HzOfAll(ranges[1..])
  }

  /** The entitled Hz that something occupied covers. */
  ghost function CoveredHz(entitlements: seq<FrequencyRange>, occupied: seq<FrequencyRange>): set<int> {
    set hz | hz in HzOfAll(entitlements) && InSome(occupied, hz)
  }

  lemma HzBelowTheLast(r: FrequencyRange)
    requires r.start + 1 < r.end
    ensures HzOf(r) == HzOf(Interval(r.start, r.end - 1)) + {r.end - 1}
    ensures r.end - 1 !in HzOf(Interval(r.start, r.end - 1))
  {
  }

  lemma {:induction false} WidthCountsHz(r: FrequencyRange)
    ensures |HzOf(r)| == r.Width()
    decreases r.end - r.start
  {
    if r.start + 1 < r.end {
      HzBelowTheLast(r);
      WidthCountsHz(Interval(r.start, r.end - 1));
    } else {
      assert HzOf(r) == {r.start};
    }
  }

  lemma {:induction false} InHzOfAll(ranges: seq<FrequencyRange>, hz: int)
    ensures hz in HzOfAll(ranges) <==> InSome(ranges, hz)
  {
    if ranges != [] {
      InHzOfAll(ranges[1..], hz);
      InSomeCons(ranges[0], ranges[1..], hz);
      assert ranges == [ranges[0]] + ranges[1..];
    }
  }

  lemma {:induction false} DisjointWidthsCountHz(ranges: seq<FrequencyRange>)
    requires PairwiseDisjoint(ranges)
    ensures TotalWidth(ranges) == |HzOfAll(ranges)|
  {
    if ranges != [] {
      DisjointWidthsCountHz(ranges[1..]);
      WidthCountsHz(ranges[0]);
      forall hz | hz in HzOfAll(ranges[1..])
        ensures hz !in HzOf(ranges[0])
      {
        InHzOfAll(ranges[1..], hz);
        var i :| 0 <= i < |ranges[1..]| && ranges[1..][i].ContainsHz(hz);
        assert !ranges[0].Overlaps(ranges[i + 1]);
      }
      assert HzOf(ranges[0]) !! HzOfAll(ranges[1..]);
    }
  }

  lemma FreeAndCovered(e: FrequencyRange, occupied: seq<FrequencyRange>)
    ensures HzOf(e) == HzOfAll(Free(e, occupied)) + CoveredHz([e], occupied)
    ensures HzOfAll(Free(e, occupied)) !! CoveredHz([e], occupied)
  {
    var free, covered := Free(e, occupied), CoveredHz([e], occupied);
    SubtractIsComplement(e, occupied);
    assert HzOfAll([e]) == HzOf(e);
    forall hz
      ensures hz in HzOfAll(free) <==> hz in HzOf(e) && hz !in covered
    {
      InHzOfAll(free, hz);
    }
  }

  /** One entitlement: the pieces that are left and the Hz that are covered make up its width. */
  lemma PieceBalance(e: FrequencyRange, occupied: seq<FrequencyRange>)
    ensures TotalWidth(Free(e, occupied)) + |CoveredHz([e], occupied)| == e.Width()
  {
    SubtractIsComplement(e, occupied);
    assert PairwiseDisjoint(Free(e, occupied));
    DisjointWidthsCountHz(Free(e, occupied));
    WidthCountsHz(e);
    FreeAndCovered(e, occupied);
  }

  // ------------------------------------------------------------------------------------------
  // Sorting and splitting do not change sums
  // ------------------------------------------------------------------------------------------

  lemma {:induction false} GapWidthAppend(a: seq<Gap>, b: seq<Gap>)
    ensures GapWidth(a + b) == GapWidth(a) + GapWidth(b)
  {
    if a == [] {
      assert a + b == b;
    } else {
      GapWidthAppend(a[1..], b);
      assert (a + b)[1..] == a[1..] + b;
    }
  }

  lemma {:induction false} GapWidthInsert(x: Gap, s: seq<Gap>)
    ensures GapWidth(Insert(x, s, ByGapStart)) == x.range.Width() + GapWidth(s)
  {
    if !(s == [] || ByGapStart(x, s[0])) {
      GapWidthInsert(x, s[1..]);
    }
  }

  lemma {:induction false} GapWidthSort(s: seq<Gap>)
    ensures GapWidth(Sort(s, ByGapStart)) == GapWidth(s)
  {
    if s != [] {
      GapWidthSort(s[1..]);
      GapWidthInsert(s[0], Sort(s[1..], ByGapStart));
    }
  }

  lemma {:induction false} GapsInWidth(free: seq<FrequencyRange>, taken: seq<FrequencyRange>)
    ensures GapWidth(GapsIn(free, taken, 1)) == TotalWidth(free)
  {
    if free != [] {
      GapsInWidth(free[1..], taken);
    }
  }

  /** The width left in each entitlement, summed. */
  function FreeWidth(entitlements: seq<FrequencyRange>, occupied: seq<FrequencyRange>): int {
    if entitlements == [] then 0
    else TotalWidth(Free(entitlements[0], occupied)) + FreeWidth(entitlements[1..], occupied)
  }

  lemma {:induction false} GapsAcrossWidth(entitlements: seq<FrequencyRange>, taken: seq<FrequencyRange>)
    ensures GapWidth(GapsAcross(entitlements, taken, 1)) == FreeWidth(entitlements, taken)
  {
    if entitlements != [] {
      GapsAcrossWidth(entitlements[1..], taken);
      GapsInWidth(Free(entitlements[0], taken), taken);
      GapWidthAppend(GapsIn(Free(entitlements[0], taken), taken, 1), GapsAcross(entitlements[1..], taken, 1));
    }
  }

  lemma {:induction false} FreeWidthInsert(x: FrequencyRange, s: seq<FrequencyRange>, occupied: seq<FrequencyRange>)
    ensures FreeWidth(Insert(x, s, ByStart), occupied) == TotalWidth(Free(x, occupied)) + FreeWidth(s, occupied)
  {
    if !(s == [] || ByStart(x, s[0])) {
      FreeWidthInsert(x, s[1..], occupied);
    }
  }

  lemma {:induction false} FreeWidthSort(s: seq<FrequencyRange>, occupied: seq<FrequencyRange>)
    ensures FreeWidth(Sort(s, ByStart), occupied) == FreeWidth(s, occupied)
  {
    if s != [] {
      FreeWidthSort(s[1..], occupied);
      FreeWidthInsert(s[0], Sort(s[1..], ByStart), occupied);
    }
  }

  lemma {:induction false} FreeWidthSortedOccupied(entitlements: seq<FrequencyRange>, occupied: seq<FrequencyRange>)
    ensures FreeWidth(entitlements, Sort(occupied, ByStart)) == FreeWidth(entitlements, occupied)
  {
    if entitlements != [] {
      FreeWidthSortedOccupied(entitlements[1..], occupied);
      SortedTakesTheSame(entitlements[0], occupied);
    }
  }

  lemma SummaryCountsEveryPiece(entitlements: seq<FrequencyRange>, occupied: seq<FrequencyRange>)
    ensures Summarise(entitlements, occupied).free == FreeWidth(entitlements, occupied)
  {
    var taken, ordered := Sort(occupied, ByStart), Sort(entitlements, ByStart);
    GapWidthSort(GapsAcross(ordered, taken, 1));
    GapsAcrossWidth(ordered, taken);
    FreeWidthSort(entitlements, taken);
    FreeWidthSortedOccupied(entitlements, occupied);
  }

  lemma {:induction false} FreeWidthBounds(entitlements: seq<FrequencyRange>, occupied: seq<FrequencyRange>)
    ensures 0 <= FreeWidth(entitlements, occupied) <= TotalWidth(entitlements)
  {
    if entitlements != [] {
      FreeWidthBounds(entitlements[1..], occupied);
      PieceBalance(entitlements[0], occupied);
      SubtractIsComplement(entitlements[0], occupied);
      DisjointWidthsCountHz(Free(entitlements[0], occupied));
    }
  }

  /** No Hz that is covered belongs to two entitlements at once. */
  ghost predicate CoveredOnce(entitlements: seq<FrequencyRange>, occupied: seq<FrequencyRange>) {
    forall i, j, hz :: 0 <= i < j < |entitlements| && entitlements[i].ContainsHz(hz) && entitlements[j].ContainsHz(hz) ==>
      !InSome(occupied, hz)
  }

  lemma CoveredOnceCons(e: FrequencyRange, rest: seq<FrequencyRange>, occupied: seq<FrequencyRange>)
    ensures CoveredOnce([e] + rest, occupied) <==>
            CoveredOnce(rest, occupied) && CoveredHz([e], occupied) !! CoveredHz(rest, occupied)
  {
    var all := [e] + rest;
    assert HzOfAll([e]) == HzOf(e);
    if CoveredOnce(all, occupied) {
      forall i, j, hz | 0 <= i < j < |rest| && rest[i].ContainsHz(hz) && rest[j].ContainsHz(hz)
        ensures !InSome(occupied, hz)
      {
        assert all[i + 1] == rest[i] && all[j + 1] == rest[j];
      }
      forall hz | hz in CoveredHz(rest, occupied)
        ensures hz !in CoveredHz([e], occupied)
      {
        InHzOfAll(rest, hz);
        var i :| 0 <= i < |rest| && rest[i].ContainsHz(hz);
        assert all[0] == e && all[i + 1] == rest[i];
      }
    }
    if CoveredOnce(rest, occupied) && CoveredHz([e], occupied) !! CoveredHz(rest, occupied) {
      forall i, j, hz | 0 <= i < j < |all| && all[i].ContainsHz(hz) && all[j].ContainsHz(hz)
        ensures !InSome(occupied, hz)
      {
        if i == 0 {
          InHzOfAll(rest, hz);
          assert rest[j - 1].ContainsHz(hz);
          assert InSome(occupied, hz) ==> hz in CoveredHz([e], occupied) && hz in CoveredHz(rest, occupied);
        } else {
          assert all[i] == rest[i - 1] && all[j] == rest[j - 1];
        }
      }
    }
  }

  lemma UnionSize<T>(a: set<T>, b: set<T>)
    ensures |a + b| <= |a| + |b|
    ensures |a + b| == |a| + |b| <==> a !! b
  {
    assert |a + b| + |a * b| == |a| + |b|;
    if a !! b {
      assert a * b == {};
    } else {
      var x :| x in a && x in b;
      assert x in a * b;
    }
  }

  lemma {:induction false} CoveredBalance(entitlements: seq<FrequencyRange>, occupied: seq<FrequencyRange>)
    ensures FreeWidth(entitlements, occupied) + |CoveredHz(entitlements, occupied)| <= TotalWidth(entitlements)
    ensures FreeWidth(entitlements, occupied) + |CoveredHz(entitlements, occupied)| == TotalWidth(entitlements) <==>
            CoveredOnce(entitlements, occupied)
  {
    if entitlements != [] {
      var e, rest := entitlements[0], entitlements[1..];
      assert entitlements == [e] + rest;
      CoveredBalance(rest, occupied);
      PieceBalance(e, occupied);
      CoveredOnceCons(e, rest, occupied);
      UnionSize(CoveredHz([e], occupied), CoveredHz(rest, occupied));
      assert HzOfAll([e]) == HzOf(e);
      assert CoveredHz(entitlements, occupied) == CoveredHz([e], occupied) + CoveredHz(rest, occupied);
    }
  }

  /** Conservation: what is reported free lies between nothing and everything, and together with the
      covered Hz it never exceeds the total. It makes up the total exactly when no covered Hz was
      entitled twice, as it is whenever the entitlements do not overlap. */
  lemma CapacityIsConserved(entitlements: seq<FrequencyRange>, occupied: seq<FrequencyRange>)
    ensures var s := Summarise(entitlements, occupied);
            && 0 <= s.free <= s.total
            && s.free + |CoveredHz(entitlements, occupied)| <= s.total
            && (s.free + |CoveredHz(entitlements, occupied)| == s.total <==> CoveredOnce(entitlements, occupied))
    ensures PairwiseDisjoint(entitlements) ==> CoveredOnce(entitlements, occupied)
  {
    SummaryCountsEveryPiece(entitlements, occupied);
    FreeWidthBounds(entitlements, occupied);
    CoveredBalance(entitlements, occupied);
    forall i, j, hz | 0 <= i < j < |entitlements| && entitlements[i].ContainsHz(hz) && entitlements[j].ContainsHz(hz)
      ensures !PairwiseDisjoint(entitlements)
    {
      OverlapIsSharedHz(entitlements[i], entitlements[j]);
    }
  }
}
