/** A stable insertion sort standing for Python's `sorted`, with what callers may rely on. */
module Sorting {

  ghost predicate IsOrder<T(!new)>(le: (T, T) -> bool) {
    && (forall a, b :: le(a, b) || le(b, a))
    && (forall a, b, c :: le(a, b) && le(b, c) ==> le(a, c))
  }

  ghost predicate Sorted<T>(s: seq<T>, le: (T, T) -> bool) {
    forall i, j :: 0 <= i < j < |s| ==> le(s[i], s[j])
  }

  function Insert<T>(x: T, s: seq<T>, le: (T, T) -> bool): seq<T> {
    if s == [] || le(x, s[0]) then [x] + s else [s[0]] + Insert(x, s[1..], le)
  }

  function Sort<T>(s: seq<T>, le: (T, T) -> bool): seq<T> {
    if s == [] then [] else Insert(s[0], Sort(s[1..], le), le)
  }

  lemma {:induction false} InsertKeepsElements<T>(x: T, s: seq<T>, le: (T, T) -> bool)
    ensures multiset(Insert(x, s, le)) == multiset{x} + multiset(s)
  {
    if !(s == [] || le(x, s[0])) {
      InsertKeepsElements(x, s[1..], le);
      assert s == [s[0]] + s[1..];
    }
  }

  lemma {:induction false} InsertKeepsSorted<T(!new)>(x: T, s: seq<T>, le: (T, T) -> bool)
    requires IsOrder(le) && Sorted(s, le)
    ensures Sorted(Insert(x, s, le), le)
  {
    if !(s == [] || le(x, s[0])) {
      var rest := Insert(x, s[1..], le);
      InsertKeepsSorted(x, s[1..], le);
      InsertKeepsElements(x, s[1..], le);
      forall k | 0 <= k < |rest|
        ensures le(s[0], rest[k])
      {
        assert rest[k] in multiset(rest);
        assert rest[k] == x || rest[k] in s[1..];
      }
    }
  }

  lemma {:induction false} SortKeepsElements<T>(s: seq<T>, le: (T, T) -> bool)
    ensures multiset(Sort(s, le)) == multiset(s)
  {
    if s != [] {
      SortKeepsElements(s[1..], le);
      InsertKeepsElements(s[0], Sort(s[1..], le), le);
      assert s == [s[0]] + s[1..];
    }
  }

  lemma {:induction false} SortSorts<T(!new)>(s: seq<T>, le: (T, T) -> bool)
    requires IsOrder(le)
    ensures Sorted(Sort(s, le), le)
    ensures forall x :: x in Sort(s, le) <==> x in s
    ensures |Sort(s, le)| == |s|
  {
    if s != [] {
      SortSorts(s[1..], le);
      InsertKeepsSorted(s[0], Sort(s[1..], le), le);
    }
    SortKeepsElements(s, le);
    SameElements(Sort(s, le), s);
  }

  /** The elements tied with `t`, in their order. */
  ghost function Tied<T>(s: seq<T>, le: (T, T) -> bool, t: T): seq<T> {
    if s == [] then []
    else if le(s[0], t) && le(t, s[0]) then [s[0]] + Tied(s[1..], le, t)
    else Tied(s[1..], le, t)
  }

  lemma TiedCons<T>(x: T, rest: seq<T>, le: (T, T) -> bool, t: T)
    ensures Tied([x] + rest, le, t) == if le(x, t) && le(t, x) then [x] + Tied(rest, le, t) else Tied(rest, le, t)
  {
    assert ([x] + rest)[1..] == rest;
  }

  lemma {:induction false} InsertIsStable<T(!new)>(x: T, s: seq<T>, le: (T, T) -> bool, t: T)
    requires IsOrder(le)
    ensures Tied(Insert(x, s, le), le, t) == Tied([x] + s, le, t)
  {
    TiedCons(x, s, le, t);
    if !(s == [] || le(x, s[0])) {
      var rest := s[1..];
      InsertIsStable(x, rest, le, t);
      TiedCons(s[0], Insert(x, rest, le), le, t);
      TiedCons(x, rest, le, t);
      TiedCons(s[0], rest, le, t);
      assert s == [s[0]] + rest;
      assert !(le(x, t) && le(t, x) && le(s[0], t) && le(t, s[0]));
    }
  }

  /** Elements that tie stay in the order they came in. */
  lemma {:induction false} SortIsStable<T(!new)>(s: seq<T>, le: (T, T) -> bool, t: T)
    requires IsOrder(le)
    ensures Tied(Sort(s, le), le, t) == Tied(s, le, t)
  {
    if s != [] {
      SortIsStable(s[1..], le, t);
      InsertIsStable(s[0], Sort(s[1..], le), le, t);
      TiedCons(s[0], Sort(s[1..], le), le, t);
      TiedCons(s[0], s[1..], le, t);
      assert s == [s[0]] + s[1..];
    }
  }

  lemma SameElements<T>(a: seq<T>, b: seq<T>)
    requires multiset(a) == multiset(b)
    ensures forall x :: x in a <==> x in b
    ensures |a| == |b|
  {
    assert |a| == |multiset(a)| == |multiset(b)| == |b|;
    assert forall x :: x in a <==> x in multiset(a);
    assert forall x :: x in b <==> x in multiset(b);
  }

  lemma SortedHeadsAgree<T(!new)>(a: seq<T>, b: seq<T>, le: (T, T) -> bool)
    requires IsOrder(le) && Sorted(a, le) && Sorted(b, le) && a != []
    requires multiset(a) == multiset(b)
    ensures b != [] && le(a[0], b[0]) && le(b[0], a[0]) && b[0] in a
  {
    SameElements(a, b);
    assert b[0] in b && a[0] in a;
    var i :| 0 <= i < |a| && a[i] == b[0];
    var j :| 0 <= j < |b| && b[j] == a[0];
    assert le(a[0], a[0]) && le(b[0], b[0]);
  }

  lemma SameHeadSameTail<T>(a: seq<T>, b: seq<T>)
    requires a != [] && b != [] && a[0] == b[0] && multiset(a) == multiset(b)
    ensures multiset(a[1..]) == multiset(b[1..])
  {
    assert a == [a[0]] + a[1..] && b == [b[0]] + b[1..];
    assert multiset(a[1..]) == multiset(a) - multiset{a[0]};
    assert multiset(b[1..]) == multiset(b) - multiset{b[0]};
  }

  /** Two sorted arrangements of the same elements are one list when ties are impossible. */
  lemma {:induction false} SortedIsUnique<T(!new)>(a: seq<T>, b: seq<T>, le: (T, T) -> bool)
    requires IsOrder(le) && Sorted(a, le) && Sorted(b, le)
    requires multiset(a) == multiset(b)
    requires forall x, y :: x in a && y in a && le(x, y) && le(y, x) ==> x == y
    ensures a == b
  {
    if a != [] {
      SortedHeadsAgree(a, b, le);
      SameHeadSameTail(a, b);
      SortedIsUnique(a[1..], b[1..], le);
      assert a == [a[0]] + a[1..] && b == [b[0]] + b[1..];
    } else {
      SameElements(a, b);
    }
  }
}
