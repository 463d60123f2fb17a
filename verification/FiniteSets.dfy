/** Sizes of intervals and of sets within one another. */
module FiniteSets {

  /** The integers from `lo` up to but not including `hi`. */
  function Interval(lo: int, hi: int): (r: set<int>)
    ensures forall i :: i in r <==> lo <= i < hi
    decreases hi - lo
  {
    if lo >= hi then {} else Interval(lo, hi - 1) + {hi - 1}
  }

  lemma {:induction false} IntervalSize(lo: int, hi: int)
    requires lo <= hi
    ensures |Interval(lo, hi)| == hi - lo
    decreases hi - lo
  {
    if lo < hi {
      IntervalSize(lo, hi - 1);
      assert hi - 1 !in Interval(lo, hi - 1);
    }
  }

  lemma {:induction false} SubsetSize<T>(a: set<T>, b: set<T>)
    requires a <= b
    ensures |a| <= |b|
    ensures |a| == |b| ==> a == b
  {
    assert b == a + (b - a);
  }

  lemma Pick<T>(s: set<T>) returns (x: T)
    requires s != {}
    ensures x in s
  {
    x :| x in s;
  }

  lemma UnionSize<T>(a: set<T>, b: set<T>)
    requires a !! b
    ensures |a + b| == |a| + |b|
  {}

  /** Sets on either side of a bound. */
  lemma SplitByBound(a: set<int>, b: set<int>, m: int)
    requires forall v :: v in a ==> v < m
    requires forall v :: v in b ==> v >= m
    ensures |a + b| == |a| + |b|
  {
    forall v: int | v in a
      ensures v !in b
    {
    }
    UnionSize(a, b);
  }
}
