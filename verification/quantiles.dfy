/** Percentiles with linear interpolation between order statistics, the
    default method of pandas' `Series.quantile`: for `n` sorted values and
    level `p`, the position `h = (n - 1) * p` lies between the order
    statistics `floor(h)` and `floor(h) + 1`, and the result moves from the
    first towards the second by the fractional part of `h`. */
module Quantiles {
  import opened Seqs

  predicate Ascending(a: seq<real>)
  {
    forall i, j :: 0 <= i < j < |a| ==> a[i] <= a[j]
  }

  /** The values in non-decreasing order: a descending sort by `-x`. */
  function SortAscending(xs: seq<real>): (r: seq<real>)
    ensures Ascending(r)
    ensures multiset(r) == multiset(xs)
    ensures |r| == |xs|
  {
    var r := SortDescending(xs, x => -x);
    assert forall i, j :: 0 <= i < j < |r| ==> -r[i] >= -r[j];
    r
  }

  /** The head of an ascending sequence is at most each of its elements. */
  lemma HeadIsLeast(a: seq<real>, x: real)
    requires Ascending(a) && x in multiset(a)
    ensures a[0] <= x
  {
    var i :| 0 <= i < |a| && a[i] == x;
    assert a[0] <= a[i];
  }

  /** Dropping the head of an ascending sequence leaves it ascending. */
  lemma AscendingTail(a: seq<real>)
    requires Ascending(a) && a != []
    ensures Ascending(a[1..])
  {
    var t := a[1..];
    forall i, j | 0 <= i < j < |t| ensures t[i] <= t[j] {
      assert t[i] == a[i + 1] && t[j] == a[j + 1];
    }
  }

  /** Two ascending sequences with the same elements start with the same
      element and continue with the same remaining elements. */
  lemma AscendingHeads(a: seq<real>, b: seq<real>)
    requires Ascending(a) && Ascending(b) && multiset(a) == multiset(b) && a != []
    ensures b != [] && a[0] == b[0]
    ensures multiset(a[1..]) == multiset(b[1..])
  {
    assert |multiset(a)| == |a| && |multiset(b)| == |b|;
    var x, y := a[0], b[0];
    assert y in multiset(a) by {
      assert y in multiset(b);
    }
    assert x in multiset(b) by {
      assert x in multiset(a);
    }
    HeadIsLeast(a, y);
    HeadIsLeast(b, x);
    MultisetTail(a);
    MultisetTail(b);
  }

  /** Two ascending sequences with the same elements are equal. */
  lemma {:induction false} AscendingUnique(a: seq<real>, b: seq<real>)
    requires Ascending(a) && Ascending(b) && multiset(a) == multiset(b)
    ensures a == b
    decreases |a|
  {
    if a == [] {
      assert |multiset(b)| == |b|;
    } else {
      AscendingHeads(a, b);
      AscendingTail(a);
      AscendingTail(b);
      AscendingUnique(a[1..], b[1..]);
      ConsEqual(a, b);
    }
  }

  /** `0 <= p * m <= m` for a non-negative `m` and `0 <= p <= 1`. */
  lemma ScaleWithin(m: real, p: real)
    requires 0.0 <= m && 0.0 <= p <= 1.0
    ensures 0.0 <= p * m <= m
  {
    assert (1.0 - p) * m >= 0.0;
  }

  /** Scaling a non-negative `m` by a larger factor gives no less. */
  lemma ScaleMonotone(m: real, p1: real, p2: real)
    requires 0.0 <= m && p1 <= p2
    ensures p1 * m <= p2 * m
  {
    assert (p2 - p1) * m >= 0.0;
  }

  /** The point a fraction `f` of the way from `x` to `y`. */
  function Lerp(x: real, y: real, f: real): (v: real)
    requires x <= y && 0.0 <= f <= 1.0
    ensures x <= v <= y
  {
    var d := y - x;
    ScaleWithin(d, f);
    x + f * d
  }

  /** A larger fraction moves no less far along the same segment. */
  lemma LerpMonotone(x: real, y: real, f1: real, f2: real)
    requires x <= y && 0.0 <= f1 <= f2 <= 1.0
    ensures Lerp(x, y, f1) <= Lerp(x, y, f2)
  {
    var d := y - x;
    ScaleMonotone(d, f1, f2);
    var v1, v2 := x + f1 * d, x + f2 * d;
    assert v1 <= v2;
    assert Lerp(x, y, f1) == v1 && Lerp(x, y, f2) == v2;
  }

  /** The fractional part of a real lies in `[0, 1)`. */
  lemma FloorFraction(h: real)
    ensures 0.0 <= h - h.Floor as real < 1.0
  {
  }

  /** The integer part of a real in `[0, m]` is an integer in `[0, m]`. */
  lemma FloorWithin(h: real, m: int)
    requires 0.0 <= h <= m as real
    ensures 0 <= h.Floor <= m
  {
  }

  /** The position of level `p` among `n` order statistics, `(n - 1) * p`,
      with its integer part a valid index. */
  function Position(n: nat, p: real): (h: real)
    requires n > 0 && 0.0 <= p <= 1.0
    ensures 0.0 <= h <= (n - 1) as real
    ensures 0 <= h.Floor <= n - 1
  {
    var m := (n - 1) as real;
    ScaleWithin(m, p);
    var h := p * m;
    FloorWithin(h, n - 1);
    h
  }

  /** Level 0 sits at the first order statistic and level 1 at the last. */
  lemma PositionEnds(n: nat)
    requires n > 0
    ensures Position(n, 0.0) == 0.0
    ensures Position(n, 1.0) == (n - 1) as real
  {
  }

  /** A higher level never gives an earlier position. */
  lemma PositionMonotone(n: nat, p1: real, p2: real)
    requires n > 0 && 0.0 <= p1 <= p2 <= 1.0
    ensures Position(n, p1) <= Position(n, p2)
  {
    var m := (n - 1) as real;
    ScaleMonotone(m, p1, p2);
    var h1, h2 := p1 * m, p2 * m;
    assert h1 <= h2;
    assert Position(n, p1) == h1 && Position(n, p2) == h2;
  }

  /** Taking the integer part keeps the order of two reals. */
  lemma FloorMonotone(h1: real, h2: real)
    requires h1 <= h2
    ensures h1.Floor <= h2.Floor
  {
  }

  /** The `p`-quantile of sorted values, interpolating linearly between the
      two order statistics around position `(n - 1) * p`. */
  function Interpolate(a: seq<real>, p: real): (v: real)
    requires |a| > 0 && 0.0 <= p <= 1.0 && Ascending(a)
    ensures a[0] <= v <= a[|a| - 1]
  {
    var h := Position(|a|, p);
    var lo := h.Floor;
    if lo + 1 < |a| then
      FloorFraction(h);
      Lerp(a[lo], a[lo + 1], h - lo as real)
    else
      a[lo]
  }

  /** A higher level never gives a lower quantile. */
  lemma InterpolateMonotone(a: seq<real>, p1: real, p2: real)
    requires |a| > 0 && Ascending(a)
    requires 0.0 <= p1 <= p2 <= 1.0
    ensures Interpolate(a, p1) <= Interpolate(a, p2)
  {
    var n := |a|;
    var h1, h2 := Position(n, p1), Position(n, p2);
    PositionMonotone(n, p1, p2);
    var lo1, lo2 := h1.Floor, h2.Floor;
    FloorMonotone(h1, h2);
    FloorFraction(h1);
    FloorFraction(h2);
    if lo1 + 1 < n {
      var f1 := h1 - lo1 as real;
      var v1 := Lerp(a[lo1], a[lo1 + 1], f1);
      assert Interpolate(a, p1) == v1;
      if lo1 == lo2 {
        var f2 := h2 - lo2 as real;
        assert f1 <= f2;
        LerpMonotone(a[lo1], a[lo1 + 1], f1, f2);
      } else {
        assert v1 <= a[lo1 + 1] <= a[lo2];
        if lo2 + 1 < n {
          var v2 := Lerp(a[lo2], a[lo2 + 1], h2 - lo2 as real);
          assert Interpolate(a, p2) == v2;
        }
      }
    }
  }

  /** The `p`-quantile of a non-empty collection of values, in any order. */
  function Quantile(values: seq<real>, p: real): (v: real)
    requires |values| > 0 && 0.0 <= p <= 1.0
    ensures exists i :: 0 <= i < |values| && values[i] <= v
    ensures exists i :: 0 <= i < |values| && v <= values[i]
  {
    var a := SortAscending(values);
    assert a[0] in multiset(values) && a[|a| - 1] in multiset(values);
    Interpolate(a, p)
  }

  /** When the position `(n - 1) * p` is a whole index `j`, the quantile is
      the `j`-th order statistic itself: level 0 gives the smallest value and
      level 1 the largest. */
  lemma InterpolateAtIndex(a: seq<real>, p: real, j: nat)
    requires |a| > 0 && 0.0 <= p <= 1.0 && Ascending(a)
    requires j < |a| && Position(|a|, p) == j as real
    ensures Interpolate(a, p) == a[j]
  {
    var h := Position(|a|, p);
    assert h.Floor == j;
    if j + 1 < |a| {
      assert Interpolate(a, p) == Lerp(a[j], a[j + 1], 0.0);
    }
  }

  /** pandas' worked numbers: the 15th percentile of `[0, 1, 1]` sits at
      position 0.3, three tenths of the way from 0 to 1, and that of `[0, 1]`
      at position 0.15. */
  lemma FifteenthPercentileExamples()
    ensures Interpolate([0.0, 1.0, 1.0], 0.15) == 0.3
    ensures Interpolate([0.0, 1.0], 0.15) == 0.15
  {
    assert Position(3, 0.15) == 0.3;
    assert (0.3).Floor == 0;
    assert Position(2, 0.15) == 0.15;
    assert (0.15).Floor == 0;
  }

  /** The quantile depends only on the values and how often each occurs,
      not on their order. */
  lemma QuantileOfMultiset(v1: seq<real>, v2: seq<real>, p: real)
    requires |v1| > 0 && 0.0 <= p <= 1.0 && multiset(v1) == multiset(v2)
    ensures |v2| > 0
    ensures Quantile(v1, p) == Quantile(v2, p)
  {
    assert |v1| == |multiset(v1)| == |multiset(v2)| == |v2|;
    AscendingUnique(SortAscending(v1), SortAscending(v2));
  }

  /** The quantile is the `j`-th smallest value when the position
      `(n - 1) * p` is the whole index `j`. */
  lemma QuantileAtIndex(values: seq<real>, p: real, j: nat)
    requires |values| > 0 && 0.0 <= p <= 1.0
    requires j < |values| && Position(|values|, p) == j as real
    ensures Quantile(values, p) == SortAscending(values)[j]
  {
    var a := SortAscending(values);
    InterpolateAtIndex(a, p, j);
    assert Quantile(values, p) == Interpolate(a, p);
  }

  /** An ascending arrangement of the values starts at their least and ends
      at their greatest element. */
  lemma ArrangementBounds(a: seq<real>, values: seq<real>)
    requires Ascending(a) && multiset(a) == multiset(values) && a != []
    ensures a[0] in values && a[|a| - 1] in values
    ensures forall i :: 0 <= i < |values| ==> a[0] <= values[i] <= a[|a| - 1]
  {
    var last := |a| - 1;
    assert a[0] in multiset(a) && a[last] in multiset(a);
    forall i | 0 <= i < |values| ensures a[0] <= values[i] <= a[last] {
      assert values[i] in multiset(values);
      HeadIsLeast(a, values[i]);
      var k :| 0 <= k < |a| && a[k] == values[i];
      assert a[k] <= a[last];
    }
  }

  /** Level 0 gives the smallest value and level 1 the largest. */
  lemma QuantileEnds(values: seq<real>)
    requires |values| > 0
    ensures Quantile(values, 0.0) in values && Quantile(values, 1.0) in values
    ensures forall i :: 0 <= i < |values| ==> Quantile(values, 0.0) <= values[i] <= Quantile(values, 1.0)
  {
    var a := SortAscending(values);
    PositionEnds(|values|);
    QuantileAtIndex(values, 0.0, 0);
    QuantileAtIndex(values, 1.0, |a| - 1);
    ArrangementBounds(a, values);
  }

  /** Quantiles of the same values are ordered like their levels. */
  lemma QuantileMonotone(values: seq<real>, p1: real, p2: real)
    requires |values| > 0
    requires 0.0 <= p1 <= p2 <= 1.0
    ensures Quantile(values, p1) <= Quantile(values, p2)
  {
    InterpolateMonotone(SortAscending(values), p1, p2);
  }
}
