/** Half-open time periods with an optional end (`calculations/periods.py`). */
module Periods {
  import opened Wrappers

  datatype Span = Span(start: int, end: Option<int>) {

    predicate Contains(other: Span) {
      if other.start < start then false
      else if end.None? then true
      else if other.end.None? then false
      else other.end.value <= end.value
    }

    predicate Overlaps(other: Span) {
      if end.Some? && other.start >= end.value then false
      else if other.end.Some? && start >= other.end.value then false
      else true
    }

    /** The rows `filter(from <= at).filter(until is null or until > at)` selects. */
    predicate InForce(at: int) {
      start <= at && (end.None? || end.value > at)
    }
  }

  type TimePeriod = p: Span | p.end.Some? ==> p.start < p.end.value witness Span(0, None)

  /** `TimePeriod.__post_init__`: a period that does not run forwards is refused. */
  function MakePeriod(start: int, end: Option<int>): Option<TimePeriod> {
    if end.Some? && end.value <= start then None else Some(Span(start, end))
  }

  function LatestStart(periods: seq<TimePeriod>): (start: int)
    requires periods != []
    ensures exists i :: 0 <= i < |periods| && periods[i].start == start
    ensures forall i :: 0 <= i < |periods| ==> periods[i].start <= start
  {
    if |periods| == 1 then periods[0].start
    else
      var rest := LatestStart(periods[1..]);
      assert forall i :: 1 <= i < |periods| ==> periods[i] == periods[1..][i - 1];
      if periods[0].start > rest then periods[0].start else rest
  }

  function EarliestEnd(periods: seq<TimePeriod>): (end: Option<int>)
    ensures end.None? <==> forall i :: 0 <= i < |periods| ==> periods[i].end.None?
    ensures end.Some? ==> exists i :: 0 <= i < |periods| && periods[i].end == end
    ensures end.Some? ==>
              forall i :: 0 <= i < |periods| && periods[i].end.Some? ==> end.value <= periods[i].end.value
  {
    if periods == [] then None
    else
      var rest := EarliestEnd(periods[1..]);
      assert forall i :: 1 <= i < |periods| ==> periods[i] == periods[1..][i - 1];
      match periods[0].end
      case None => rest
      case Some(e) => if rest.Some? && rest.value < e then rest else Some(e)
  }

  /** `intersect`: max of the starts, min of the ends that exist. */
  function Intersect(periods: seq<TimePeriod>): Option<TimePeriod>
    requires periods != []
  {
    MakePeriod(LatestStart(periods), EarliestEnd(periods))
  }

  /** What two periods share, when they share anything, is a moment both are in force. */
  lemma OverlapIsSharedMoment(a: TimePeriod, b: TimePeriod)
    ensures a.Overlaps(b) <==> exists at :: a.InForce(at) && b.InForce(at)
  {
    if a.Overlaps(b) {
      var at := if a.start < b.start then b.start else a.start;
      assert a.InForce(at) && b.InForce(at);
    }
  }

  /** Containment compares starts and ends; it means that every moment of the inner period is one of the
      outer. */
  lemma ContainmentIsEveryMoment(outer: TimePeriod, inner: TimePeriod)
    ensures outer.Contains(inner) <==> forall at :: inner.InForce(at) ==> outer.InForce(at)
  {
    if forall at :: inner.InForce(at) ==> outer.InForce(at) {
      assert inner.InForce(inner.start);
      if outer.end.Some? {
        var at := if inner.start < outer.end.value then outer.end.value else inner.start;
        assert inner.InForce(at) ==> outer.InForce(at);
      }
    }
  }

  /** A period is refused exactly when no moment would be in force. */
  lemma PeriodIsRefusedIff(start: int, end: Option<int>)
    ensures MakePeriod(start, end) == None <==> forall at :: !Span(start, end).InForce(at)
    ensures MakePeriod(start, end).Some? ==> MakePeriod(start, end).value == Span(start, end)
  {
    if MakePeriod(start, end).Some? {
      assert Span(start, end).InForce(start);
    }
  }

  /** Greatest lower bound: what fits the intersection is exactly what fits every period. */
  lemma IntersectIsGreatestLowerBound(periods: seq<TimePeriod>, p: TimePeriod)
    requires periods != []
    ensures (Intersect(periods).Some? && Intersect(periods).value.Contains(p)) <==>
            forall i :: 0 <= i < |periods| ==> periods[i].Contains(p)
  {
    var start, end := LatestStart(periods), EarliestEnd(periods);
    var latest :| 0 <= latest < |periods| && periods[latest].start == start;
    if end.Some? {
      var earliest :| 0 <= earliest < |periods| && periods[earliest].end == end;
      if forall i :: 0 <= i < |periods| ==> periods[i].Contains(p) {
        assert periods[latest].Contains(p) && periods[earliest].Contains(p);
      }
    } else if forall i :: 0 <= i < |periods| ==> periods[i].Contains(p) {
      assert periods[latest].Contains(p);
    }
  }

  /** No intersection exactly when some two of the periods already have nothing in common. */
  lemma NoIntersectionIffTwoDisjoint(periods: seq<TimePeriod>)
    requires periods != []
    ensures Intersect(periods).None? <==>
            exists i, j :: 0 <= i < |periods| && 0 <= j < |periods| && !periods[i].Overlaps(periods[j])
  {
    var start, end := LatestStart(periods), EarliestEnd(periods);
    var latest :| 0 <= latest < |periods| && periods[latest].start == start;
    if Intersect(periods).None? {
      var earliest :| 0 <= earliest < |periods| && periods[earliest].end == end;
      assert !periods[latest].Overlaps(periods[earliest]);
    }
  }
}
