/**
 * Half-open frequency intervals (`calculations/ranges.py`).
 *
 * A range with no width cannot be built in the original, so the type rules it out here and every
 * operation that builds a range proves that it has one.
 */
module Ranges {
  import opened Wrappers
  import opened Sorting

  datatype Interval = Interval(start: int, end: int) {

    function Width(): int {
      end - start
    }

    predicate ContainsHz(hz: int) {
      start <= hz < end
    }

    predicate Contains(other: Interval) {
      start <= other.start && other.end <= end
    }

    predicate Overlaps(other: Interval) {
      start < other.end && other.start < end
    }

    function Shift(delta: int): Interval {
      Interval(start + delta, end + delta)
    }

    /** Reflection through f(x) = constant - x, renormalised to [constant - end, constant - start). */
    function Reflect(constant: int): Interval {
      Interval(constant - end, constant - start)
    }

    function Expanded(left: nat, right: nat): Interval {
      Interval(start - left, end + right)
    }
  }

  type FrequencyRange = r: Interval | r.start < r.end witness Interval(0, 1)

  ghost predicate InSome(ranges: seq<FrequencyRange>, hz: int) {
    exists i :: 0 <= i < |ranges| && ranges[i].ContainsHz(hz)
  }

  /** Overlap compares edges; it means that one Hz belongs to both ranges. */
  lemma OverlapIsSharedHz(a: FrequencyRange, b: FrequencyRange)
    ensures a.Overlaps(b) <==> exists hz :: a.ContainsHz(hz) && b.ContainsHz(hz)
  {
    if a.Overlaps(b) {
      var hz := if a.start < b.start then b.start else a.start;
      assert a.ContainsHz(hz) && b.ContainsHz(hz);
    }
  }

  /** Containment compares edges; it means that every Hz of the inner range is in the outer one. */
  lemma ContainmentIsEveryHz(outer: FrequencyRange, inner: FrequencyRange)
    ensures outer.Contains(inner) <==> forall hz :: inner.ContainsHz(hz) ==> outer.ContainsHz(hz)
  {
    if forall hz :: inner.ContainsHz(hz) ==> outer.ContainsHz(hz) {
      assert inner.ContainsHz(inner.start) && inner.ContainsHz(inner.end - 1);
    }
  }

  /** A shift moves every Hz by delta, a reflection turns Hz x into constant - 1 - x, and expanding adds just
      the Hz on either side. */
  lemma OperationsMoveEveryHz(r: FrequencyRange, delta: int, constant: int, left: nat, right: nat, hz: int)
    ensures r.Shift(delta).ContainsHz(hz + delta) <==> r.ContainsHz(hz)
    ensures r.Reflect(constant).ContainsHz(constant - 1 - hz) <==> r.ContainsHz(hz)
    ensures r.Expanded(left, right).ContainsHz(hz) <==>
            r.ContainsHz(hz) || r.start - left <= hz < r.start || r.end <= hz < r.end + right
  {
  }

  // ------------------------------------------------------------------------------------------
  // any_overlap: a scan of neighbours
  // ------------------------------------------------------------------------------------------

  ghost predicate PairwiseDisjoint(ranges: seq<FrequencyRange>) {
    forall i, j :: 0 <= i < j < |ranges| ==> !ranges[i].Overlaps(ranges[j])
  }

  /** The order the dataclass gives its values. */
  predicate InSpectrumOrder(a: FrequencyRange, b: FrequencyRange) {
    a.start < b.start || (a.start == b.start && a.end <= b.end)
  }

  /** The loop of `any_overlap`, over ranges already in spectrum order: neighbours only. */
  function NeighbourOverlap(ordered: seq<FrequencyRange>): Option<(FrequencyRange, FrequencyRange)> {
    if |ordered| < 2 then None
    else if ordered[0].Overlaps(ordered[1]) then Some((ordered[0], ordered[1]))
    else NeighbourOverlap(ordered[1..])
  }

  function AnyOverlap(ranges: seq<FrequencyRange>): Option<(FrequencyRange, FrequencyRange)> {
    NeighbourOverlap(Sort(ranges, InSpectrumOrder))
  }

  /** These two are neighbours in the list that overlap, and nothing before them overlaps anything. */
  ghost predicate FirstOverlapAt(ordered: seq<FrequencyRange>, pair: (FrequencyRange, FrequencyRange), k: nat) {
    && k + 1 < |ordered| && pair == (ordered[k], ordered[k + 1]) && ordered[k].Overlaps(ordered[k + 1])
    && forall i, j :: 0 <= i < k && 0 <= j < |ordered| && i != j ==> !ordered[i].Overlaps(ordered[j])
  }

  lemma HeadIsClear(ordered: seq<FrequencyRange>, j: nat)
    requires Sorted(ordered, InSpectrumOrder) && |ordered| >= 2 && !ordered[0].Overlaps(ordered[1])
    requires 1 <= j < |ordered|
    ensures !ordered[0].Overlaps(ordered[j]) && !ordered[j].Overlaps(ordered[0])
  {
    assert j > 1 ==> InSpectrumOrder(ordered[1], ordered[j]);
    assert InSpectrumOrder(ordered[0], ordered[1]);
  }

  lemma FirstOverlapAfterHead(ordered: seq<FrequencyRange>, pair: (FrequencyRange, FrequencyRange), k: nat)
    requires Sorted(ordered, InSpectrumOrder) && |ordered| >= 2 && !ordered[0].Overlaps(ordered[1])
    requires FirstOverlapAt(ordered[1..], pair, k)
    ensures FirstOverlapAt(ordered, pair, k + 1)
  {
    var rest := ordered[1..];
    forall i, j | 0 <= i < k + 1 && 0 <= j < |ordered| && i != j
      ensures !ordered[i].Overlaps(ordered[j])
    {
      if i == 0 {
        HeadIsClear(ordered, j);
      } else if j == 0 {
        HeadIsClear(ordered, i);
      } else {
        assert ordered[i] == rest[i - 1] && ordered[j] == rest[j - 1];
      }
    }
  }

  lemma {:induction false} NeighboursAreEnough(ordered: seq<FrequencyRange>)
    requires Sorted(ordered, InSpectrumOrder)
    ensures NeighbourOverlap(ordered).None? <==> PairwiseDisjoint(ordered)
    ensures NeighbourOverlap(ordered).Some? ==> exists k :: FirstOverlapAt(ordered, NeighbourOverlap(ordered).value, k)
  {
    if |ordered| >= 2 {
      var rest := ordered[1..];
      assert ordered == [ordered[0]] + rest;
      NeighboursAreEnough(rest);
      if ordered[0].Overlaps(ordered[1]) {
        assert FirstOverlapAt(ordered, NeighbourOverlap(ordered).value, 0);
      } else {
        forall j | 1 <= j < |ordered|
          ensures !ordered[0].Overlaps(ordered[j])
        {
          HeadIsClear(ordered, j);
        }
        DisjointCons(ordered[0], rest);
        if NeighbourOverlap(rest).Some? {
          var k :| FirstOverlapAt(rest, NeighbourOverlap(rest).value, k);
          FirstOverlapAfterHead(ordered, NeighbourOverlap(rest).value, k);
        }
      }
    }
  }

  ghost predicate ClearOf(r: FrequencyRange, ranges: seq<FrequencyRange>) {
    forall q :: q in ranges ==> !r.Overlaps(q)
  }

  lemma DisjointCons(r: FrequencyRange, rest: seq<FrequencyRange>)
    ensures PairwiseDisjoint([r] + rest) <==> PairwiseDisjoint(rest) && ClearOf(r, rest)
  {
    var all := [r] + rest;
    if PairwiseDisjoint(all) {
      forall i, j | 0 <= i < j < |rest|
        ensures !rest[i].Overlaps(rest[j])
      {
        assert !all[i + 1].Overlaps(all[j + 1]);
      }
      forall j | 0 <= j < |rest|
        ensures !r.Overlaps(rest[j])
      {
        assert !all[0].Overlaps(all[j + 1]);
      }
    }
  }

  lemma ClearOfCons(r: FrequencyRange, x: FrequencyRange, rest: seq<FrequencyRange>)
    ensures ClearOf(r, [x] + rest) <==> !r.Overlaps(x) && ClearOf(r, rest)
  {
    assert x in [x] + rest;
  }

  lemma ClearOfSame(r: FrequencyRange, a: seq<FrequencyRange>, b: seq<FrequencyRange>)
    requires multiset(a) == multiset(b)
    ensures ClearOf(r, a) <==> ClearOf(r, b)
  {
    SameElements(a, b);
  }

  lemma {:induction false} InsertKeepsDisjointness(x: FrequencyRange, s: seq<FrequencyRange>)
    ensures PairwiseDisjoint(Insert(x, s, InSpectrumOrder)) <==> PairwiseDisjoint(s) && ClearOf(x, s)
  {
    if s == [] || InSpectrumOrder(x, s[0]) {
      DisjointCons(x, s);
    } else {
      var head, rest := s[0], s[1..];
      var inserted := Insert(x, rest, InSpectrumOrder);
      assert s == [head] + rest;
      InsertKeepsDisjointness(x, rest);
      DisjointCons(head, inserted);
      DisjointCons(head, rest);
      InsertKeepsElements(x, rest, InSpectrumOrder);
      ClearOfSame(head, inserted, [x] + rest);
      ClearOfCons(head, x, rest);
      ClearOfCons(x, head, rest);
    }
  }

  lemma {:induction false} SortingKeepsDisjointness(s: seq<FrequencyRange>)
    ensures PairwiseDisjoint(Sort(s, InSpectrumOrder)) <==> PairwiseDisjoint(s)
  {
    if s != [] {
      var rest := Sort(s[1..], InSpectrumOrder);
      SortingKeepsDisjointness(s[1..]);
      SortKeepsElements(s[1..], InSpectrumOrder);
      SameElements(rest, s[1..]);
      InsertKeepsDisjointness(s[0], rest);
      DisjointCons(s[0], s[1..]);
      assert s == [s[0]] + s[1..];
    }
  }

  /** Sorting and comparing neighbours is enough, for any list: nothing is found exactly when no two
      ranges overlap, and what is found is the first pair in spectrum order that does. */
  lemma NeighbourScanIsComplete(ranges: seq<FrequencyRange>)
    ensures AnyOverlap(ranges).None? <==> PairwiseDisjoint(ranges)
    ensures var ordered := Sort(ranges, InSpectrumOrder);
            && multiset(ordered) == multiset(ranges)
            && (forall i, j :: 0 <= i < j < |ordered| ==>
                  ordered[i].start < ordered[j].start || (ordered[i].start == ordered[j].start && ordered[i].end <= ordered[j].end))
            && (AnyOverlap(ranges).Some? ==> exists k :: FirstOverlapAt(ordered, AnyOverlap(ranges).value, k))
  {
    assert IsOrder(InSpectrumOrder);
    SortSorts(ranges, InSpectrumOrder);
    SortKeepsElements(ranges, InSpectrumOrder);
    NeighboursAreEnough(Sort(ranges, InSpectrumOrder));
    SortingKeepsDisjointness(ranges);
  }
}
