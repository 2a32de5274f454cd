/** numpy's `np.percentile` with its default ('linear') method, on finite samples. */
module Percentiles {

  predicate Sorted(s: seq<real>)
  {
    forall i, j :: 0 <= i < j < |s| ==> s[i] <= s[j]
  }

  function Insert(x: real, s: seq<real>): (r: seq<real>)
    requires Sorted(s)
    ensures Sorted(r)
    ensures |r| == |s| + 1
    ensures r[0] == x || (s != [] && r[0] == s[0])
    ensures multiset(r) == multiset(s) + multiset{x}
  {
    if s == [] || x <= s[0] then [x] + s
    else
      assert s == [s[0]] + s[1..];
      [s[0]] + Insert(x, s[1..])
  }

  /** The ascending copy numpy takes of the samples. */
  function Sort(s: seq<real>): (r: seq<real>)
    ensures Sorted(r)
    ensures |r| == |s|
    ensures multiset(r) == multiset(s)
  {
    if s == [] then []
    else
      assert s == [s[0]] + s[1..];
      Insert(s[0], Sort(s[1..]))
  }

  /** Linear interpolation of sorted samples at the virtual index `v`, numpy's 'linear' rule. */
  function LerpAt(a: seq<real>, v: real): real
    requires |a| > 0 && 0.0 <= v <= (|a| - 1) as real
  {
    var lo := v.Floor;
    var hi := if lo + 1 < |a| then lo + 1 else |a| - 1;
    Mix(a[lo], a[hi], v - lo as real)
  }

  /** `x + (y - x) * g`: the point a fraction `g` of the way from `x` to `y`. */
  function Mix(x: real, y: real, g: real): real
  {
    x + (y - x) * g
  }

  lemma MixSame(x: real, g: real)
    ensures Mix(x, x, g) == x
  {
  }

  /** For `x <= y`, going a larger fraction of the way from `x` to `y` never gives less. */
  lemma MixMonotone(x: real, y: real, g1: real, g2: real)
    requires x <= y && g1 <= g2
    ensures Mix(x, y, g1) <= Mix(x, y, g2)
  {
    var d := y - x;
    var m1, m2 := d * g1, d * g2;
    assert m1 == (y - x) * g1 && m2 == (y - x) * g2;
    MulMonotone(d, g1, g2);
    assert Mix(x, y, g1) == x + m1 && Mix(x, y, g2) == x + m2;
  }

  /** numpy's virtual index for the percentile `p` of `n + 1` samples. */
  function VirtualIndex(p: real, n: nat): (v: real)
    requires 0.0 <= p <= 100.0
    ensures 0.0 <= v <= n as real
  {
    var f := p / 100.0;
    assert f * n as real <= 1.0 * n as real;
    f * n as real
  }

  /** `np.percentile(s, p)`: the virtual index is `p / 100 * (n - 1)` in the sorted samples. */
  function Percentile(s: seq<real>, p: real): (r: real)
    requires |s| > 0 && 0.0 <= p <= 100.0
    ensures Sort(s)[0] <= r <= Sort(s)[|s| - 1]
  {
    var a := Sort(s);
    var v := VirtualIndex(p, |a| - 1);
    LerpBetween(a, v);
    LerpAt(a, v)
  }

  lemma MulMonotone(d: real, g1: real, g2: real)
    requires 0.0 <= d && g1 <= g2
    ensures d * g1 <= d * g2
  {
    assert d * g2 - d * g1 == d * (g2 - g1);
  }

  lemma VirtualIndexMonotone(p: real, q: real, n: nat)
    requires 0.0 <= p <= q <= 100.0
    ensures VirtualIndex(p, n) <= VirtualIndex(q, n)
  {
    var x := n as real;
    var lo, hi := x * p, x * q;
    MulMonotone(x, p, q);
    assert lo / 100.0 <= hi / 100.0;
    assert VirtualIndex(p, n) == lo / 100.0;
    assert VirtualIndex(q, n) == hi / 100.0;
  }

  /** The interpolated value lies between the two samples around the virtual index. */
  lemma LerpBetween(a: seq<real>, v: real)
    requires |a| > 0 && 0.0 <= v <= (|a| - 1) as real && Sorted(a)
    ensures var lo := v.Floor;
      var hi := if lo + 1 < |a| then lo + 1 else |a| - 1;
      0 <= lo <= hi < |a| && a[lo] <= LerpAt(a, v) <= a[hi]
  {
    var lo := v.Floor;
    var hi := if lo + 1 < |a| then lo + 1 else |a| - 1;
    var g := v - lo as real;
    assert 0.0 <= g < 1.0 && a[lo] <= a[hi];
    MixMonotone(a[lo], a[hi], 0.0, g);
    MixMonotone(a[lo], a[hi], g, 1.0);
  }

  /** Interpolation in sorted samples does not decrease along the virtual index. */
  lemma LerpMonotone(a: seq<real>, v1: real, v2: real)
    requires |a| > 0 && Sorted(a)
    requires 0.0 <= v1 <= v2 <= (|a| - 1) as real
    ensures LerpAt(a, v1) <= LerpAt(a, v2)
  {
    var lo1, lo2 := v1.Floor, v2.Floor;
    LerpBetween(a, v1);
    LerpBetween(a, v2);
    if lo1 == lo2 {
      LerpSameCell(a, v1, v2);
    } else {
      var hi1 := if lo1 + 1 < |a| then lo1 + 1 else |a| - 1;
      assert lo1 < lo2 by { assert lo1 as real <= v1 <= v2 < lo2 as real + 1.0; }
      assert hi1 <= lo2 && a[hi1] <= a[lo2];
    }
  }

  /** Between the same two samples the interpolation grows with the virtual index. */
  lemma LerpSameCell(a: seq<real>, v1: real, v2: real)
    requires |a| > 0 && Sorted(a)
    requires 0.0 <= v1 <= v2 <= (|a| - 1) as real && v1.Floor == v2.Floor
    ensures LerpAt(a, v1) <= LerpAt(a, v2)
  {
    var lo := v1.Floor;
    var hi := if lo + 1 < |a| then lo + 1 else |a| - 1;
    MixMonotone(a[lo], a[hi], v1 - lo as real, v2 - lo as real);
  }

  /** The 16th, 50th and 84th percentiles come out ordered: lower <= center <= upper. */
  lemma PercentileMonotone(s: seq<real>, p: real, q: real)
    requires |s| > 0 && 0.0 <= p <= q <= 100.0
    ensures Percentile(s, p) <= Percentile(s, q)
  {
    var a := Sort(s);
    VirtualIndexMonotone(p, q, |a| - 1);
    LerpMonotone(a, VirtualIndex(p, |a| - 1), VirtualIndex(q, |a| - 1));
  }

  /** Every percentile lies within the samples' range. */
  lemma PercentileBounds(s: seq<real>, p: real)
    requires |s| > 0 && 0.0 <= p <= 100.0
    ensures exists i, j :: 0 <= i < |s| && 0 <= j < |s| && s[i] <= Percentile(s, p) <= s[j]
  {
    var a := Sort(s);
    var v := VirtualIndex(p, |a| - 1);
    LerpBetween(a, v);
    var lo := v.Floor;
    var hi := if lo + 1 < |a| then lo + 1 else |a| - 1;
    assert a[lo] in multiset(s) && a[hi] in multiset(s);
    var i :| 0 <= i < |s| && s[i] == a[lo];
    var j :| 0 <= j < |s| && s[j] == a[hi];
  }

  /** A column whose samples all equal `c` has every percentile equal to `c` (the lag-0 column is all 1). */
  lemma PercentileConstant(s: seq<real>, p: real, c: real)
    requires |s| > 0 && 0.0 <= p <= 100.0
    requires forall i :: 0 <= i < |s| ==> s[i] == c
    ensures Percentile(s, p) == c
  {
    var a := Sort(s);
    forall k | 0 <= k < |a| ensures a[k] == c {
      assert a[k] in multiset(s);
    }
    var v := VirtualIndex(p, |a| - 1);
    MixSame(c, v - v.Floor as real);
  }

  /** The median of three ascending samples is the middle one. */
  lemma MedianOfSorted(a: real, b: real, c: real)
    requires a <= b <= c
    ensures Percentile([a, b, c], 50.0) == b
  {
    var s := [a, b, c];
    assert Sort(s) == s by {
      assert Sorted(s);
      SortedIsFixed(s);
    }
    assert VirtualIndex(50.0, 2) == 1.0;
    assert LerpAt(s, 1.0) == b by {
      assert (1.0).Floor == 1;
    }
  }

  /** Sorting leaves an ascending sequence as it is; in particular sorting twice is sorting once. */
  lemma {:induction false} SortedIsFixed(s: seq<real>)
    requires Sorted(s)
    ensures Sort(s) == s
  {
    if s != [] {
      assert Sorted(s[1..]);
      SortedIsFixed(s[1..]);
      assert s == [s[0]] + s[1..];
      assert s[1..] == [] || s[0] <= s[1..][0];
    }
  }

  /** Sorting is idempotent. */
  lemma SortIdempotent(s: seq<real>)
    ensures Sort(Sort(s)) == Sort(s)
  {
    SortedIsFixed(Sort(s));
  }
}
