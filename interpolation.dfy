/**
 * The two interpolations of `Cube.LSF_calc`: scipy's `interp1d(y, x)(0.5)`, an inverse lookup
 * of the half-maximum lag, and numpy's `np.interp`, the remap onto the k-scaled lag grid. Both
 * end in `np.interp`: for one-dimensional float data the linear `interp1d` hands its sorted
 * points to it.
 */
module Interpolation {
  import opened Values

  /** One sample of the lookup table: the curve value as key, the lag as value. */
  datatype Pt = Pt(key: real, val: real)

  function Zip(keys: seq<real>, vals: seq<real>): (r: seq<Pt>)
    requires |keys| == |vals|
    ensures |r| == |keys| && forall j :: 0 <= j < |r| ==> r[j] == Pt(keys[j], vals[j])
  {
    seq(|keys|, j requires 0 <= j < |keys| => Pt(keys[j], vals[j]))
  }

  predicate SortedByKey(ps: seq<Pt>)
  {
    forall i, j :: 0 <= i < j < |ps| ==> ps[i].key <= ps[j].key
  }

  /** Inserts `p` before the first sample whose key is not smaller, so equal keys keep their order. */
  function InsertPt(p: Pt, ps: seq<Pt>): (r: seq<Pt>)
    requires SortedByKey(ps)
    ensures SortedByKey(r)
    ensures |r| == |ps| + 1
    ensures r[0] == p || (ps != [] && r[0] == ps[0])
    ensures multiset(r) == multiset(ps) + multiset{p}
  {
    if ps == [] || p.key <= ps[0].key then [p] + ps
    else
      assert ps == [ps[0]] + ps[1..];
      [ps[0]] + InsertPt(p, ps[1..])
  }

  /** The table reordered by key: `np.argsort(y, kind="mergesort")`, a stable sort. */
  function SortPts(ps: seq<Pt>): (r: seq<Pt>)
    ensures SortedByKey(r)
    ensures |r| == |ps|
    ensures multiset(r) == multiset(ps)
  {
    if ps == [] then []
    else
      assert ps == [ps[0]] + ps[1..];
      InsertPt(ps[0], SortPts(ps[1..]))
  }

  /** The keys of a table, in order: the `xp` that `interp1d` hands to `np.interp`. */
  function Keys(ps: seq<Pt>): (r: seq<real>)
    ensures |r| == |ps| && forall j :: 0 <= j < |ps| ==> r[j] == ps[j].key
    ensures SortedByKey(ps) ==> NonDecreasing(r)
  {
    seq(|ps|, j requires 0 <= j < |ps| => ps[j].key)
  }

  /** The values of a table, in order: the `fp` that `interp1d` hands to `np.interp`. */
  function Vals(ps: seq<Pt>): (r: seq<real>)
    ensures |r| == |ps| && forall j :: 0 <= j < |ps| ==> r[j] == ps[j].val
  {
    seq(|ps|, j requires 0 <= j < |ps| => ps[j].val)
  }

  /**
   * `scipy.interpolate.interp1d(y, x)(t)` with the defaults (linear, bounds error, unsorted input):
   * the points `(y[j], x[j])` are sorted stably by `y`, a `t` outside `[min y, max y]` raises, and
   * the lag is `np.interp(t, ys, xs)` on the sorted keys `ys` and values `xs`.
   */
  function Crossing(x: seq<real>, y: seq<real>, t: real): (r: Result<real>)
    ensures r.Ok? ==> |x| == |y| >= 2
    ensures r.Err? ==> r.error == LengthMismatch || r.error == TooFewPoints || r.error == BelowRange || r.error == AboveRange
  {
    if |x| != |y| then Err(LengthMismatch)
    else if |y| < 2 then Err(TooFewPoints)
    else
      var ps := SortPts(Zip(y, x));
      var n := |ps|;
      if t < ps[0].key then Err(BelowRange)
      else if t > ps[n - 1].key then Err(AboveRange)
      else Ok(InterpAt(t, Keys(ps), Vals(ps)))
  }

  /** The value at `t` of the line through `(k0, a)` and `(k1, b)`: `slope * (t - k0) + a`. */
  function Lerp(a: real, b: real, k0: real, k1: real, t: real): real
    requires k0 != k1
  {
    (b - a) / (k1 - k0) * (t - k0) + a
  }

  /** The line through `(k0, a)` and `(k1, b)` stays between `a` and `b` while `t` lies between `k0` and `k1`. */
  lemma LerpWithin(a: real, b: real, k0: real, k1: real, t: real)
    requires k0 != k1
    ensures var r := Lerp(a, b, k0, k1, t);
      k0 < k1 && k0 <= t <= k1 ==> (a <= b ==> a <= r <= b) && (b <= a ==> b <= r <= a)
    ensures var r := Lerp(a, b, k0, k1, t);
      k0 < k1 && k0 < t < k1 ==> (a < b ==> a < r < b) && (b < a ==> b < r < a)
  {
    if k0 < k1 && k0 <= t <= k1 {
      var d, u := k1 - k0, t - k0;
      var g := u / d;
      UnitFraction(u, d);
      var c := b - a;
      var m := c * g;
      assert Lerp(a, b, k0, k1, t) == m + a by {
        assert (b - a) / d * u == (b - a) * g;
      }
      if a <= b {
        MulMono(c, 0.0, g);
        MulMono(c, g, 1.0);
        if 0.0 < g < 1.0 && a < b { MulStrict(c, 0.0, g); MulStrict(c, g, 1.0); }
      } else {
        var e := a - b;
        assert m == -(e * g);
        MulMono(e, 0.0, g);
        MulMono(e, g, 1.0);
        if 0.0 < g < 1.0 { MulStrict(e, 0.0, g); MulStrict(e, g, 1.0); }
      }
    }
  }

  /** `u / d` lies in [0, 1] when `0 <= u <= d`, strictly inside when `0 < u < d`. */
  lemma UnitFraction(u: real, d: real)
    requires 0.0 < d && 0.0 <= u <= d
    ensures 0.0 <= u / d <= 1.0
    ensures 0.0 < u < d ==> 0.0 < u / d < 1.0
  {
    var g := u / d;
    assert g * d == u;
    if g > 1.0 { MulStrict(d, 1.0, g); }
    if g < 0.0 { MulStrict(d, g, 0.0); }
    if 0.0 < u < d {
      if g >= 1.0 { MulMono(d, 1.0, g); }
      if g <= 0.0 { MulMono(d, g, 0.0); }
    }
  }

  lemma MulMono(d: real, g1: real, g2: real)
    requires 0.0 <= d && g1 <= g2
    ensures d * g1 <= d * g2
  {
    assert d * g2 - d * g1 == d * (g2 - g1);
  }

  lemma MulStrict(d: real, g1: real, g2: real)
    requires 0.0 < d && g1 < g2
    ensures d * g1 < d * g2
  {
    assert d * g2 - d * g1 == d * (g2 - g1);
  }

  /** `interpolate(x0, y)` of the source: the half-maximum crossing. */
  function HalfMax(x: seq<real>, y: seq<real>): Result<real>
  {
    Crossing(x, y, 0.5)
  }

  lemma InZip(p: Pt, keys: seq<real>, vals: seq<real>)
    requires |keys| == |vals| && p in multiset(Zip(keys, vals))
    ensures exists j :: 0 <= j < |keys| && keys[j] == p.key && vals[j] == p.val
  {
    var z := Zip(keys, vals);
    assert p in z;
    var j :| 0 <= j < |z| && z[j] == p;
  }

  /** The first and last sorted keys are the curve's minimum and maximum. */
  lemma SortedEnds(x: seq<real>, y: seq<real>, ps: seq<Pt>)
    requires |x| == |y| >= 2 && ps == SortPts(Zip(y, x))
    ensures ps[0].key == Min(y) && ps[|ps| - 1].key == Max(y)
  {
    var z := Zip(y, x);
    var last := |ps| - 1;
    PermutationEnds(z, ps);
    forall j | 0 <= j < |y| ensures ps[0].key <= y[j] <= ps[last].key {
      assert z[j].key == y[j];
    }
    KeyIn(ps[0], y, x);
    KeyIn(ps[last], y, x);
    EndsAreExtremes(y, ps[0].key, ps[last].key);
  }

  /** A key-sorted rearrangement of `z` starts at a smallest key and ends at a largest one. */
  lemma PermutationEnds(z: seq<Pt>, ps: seq<Pt>)
    requires |ps| == |z| >= 1 && SortedByKey(ps) && multiset(ps) == multiset(z)
    ensures forall j :: 0 <= j < |z| ==> ps[0].key <= z[j].key <= ps[|ps| - 1].key
    ensures ps[0] in multiset(z) && ps[|ps| - 1] in multiset(z)
  {
    forall j | 0 <= j < |z| ensures ps[0].key <= z[j].key <= ps[|ps| - 1].key {
      assert z[j] in multiset(ps);
      var i :| 0 <= i < |ps| && ps[i] == z[j];
    }
    assert ps[0] in ps && ps[|ps| - 1] in ps;
  }

  lemma KeyIn(p: Pt, keys: seq<real>, vals: seq<real>)
    requires |keys| == |vals| && p in multiset(Zip(keys, vals))
    ensures p.key in keys
  {
    InZip(p, keys, vals);
  }

  lemma EndsAreExtremes(y: seq<real>, k0: real, k1: real)
    requires |y| >= 1
    requires forall j :: 0 <= j < |y| ==> k0 <= y[j] <= k1
    requires k0 in y && k1 in y
    ensures k0 == Min(y) && k1 == Max(y)
  {
  }

  /** The lookup fails exactly when the lengths differ, there are too few points, or `t` is outside `[min y, max y]`. */
  lemma CrossingErrors(x: seq<real>, y: seq<real>, t: real)
    ensures Crossing(x, y, t) == Err(LengthMismatch) <==> |x| != |y|
    ensures Crossing(x, y, t) == Err(TooFewPoints) <==> |x| == |y| < 2
    ensures Crossing(x, y, t) == Err(BelowRange) <==> |x| == |y| >= 2 && t < Min(y)
    ensures Crossing(x, y, t) == Err(AboveRange) <==> |x| == |y| >= 2 && Min(y) <= t && t > Max(y)
    ensures Crossing(x, y, t).Ok? <==> |x| == |y| >= 2 && Min(y) <= t <= Max(y)
  {
    if |x| != |y| {
      assert Crossing(x, y, t) == Err(LengthMismatch);
    } else if |y| < 2 {
      assert Crossing(x, y, t) == Err(TooFewPoints);
    } else {
      var ps := SortPts(Zip(y, x));
      SortedEnds(x, y, ps);
      if t < Min(y) {
        assert Crossing(x, y, t) == Err(BelowRange);
      } else if t > Max(y) {
        assert Crossing(x, y, t) == Err(AboveRange);
      } else {
        assert Crossing(x, y, t).Ok?;
      }
    }
  }

  /**
   * A successful lookup reads the sorted table at `j`, the last sorted point whose key is at most
   * `t`: its value when that key is `t`, otherwise the line to the next point, whose key is above `t`.
   */
  lemma CrossingValue(x: seq<real>, y: seq<real>, t: real) returns (ps: seq<Pt>, j: nat)
    requires Crossing(x, y, t).Ok?
    ensures |x| == |y| >= 2 && ps == SortPts(Zip(y, x))
    ensures j < |ps| && ps[j].key <= t
    ensures forall i :: j < i < |ps| ==> t < ps[i].key
    ensures ps[j].key == t ==> Crossing(x, y, t) == Ok(ps[j].val)
    ensures ps[j].key < t ==>
      j + 1 < |ps| && t < ps[j + 1].key &&
      Crossing(x, y, t) == Ok(Lerp(ps[j].val, ps[j + 1].val, ps[j].key, ps[j + 1].key, t))
  {
    ps := SortPts(Zip(y, x));
    var xp, fp := Keys(ps), Vals(ps);
    assert Crossing(x, y, t) == Ok(InterpAt(t, xp, fp));
    j := InterpSlot(t, xp, fp);
  }

  /**
   * Inside the sample range `np.interp` reads the last sample point `xp[j]` at or below `v`:
   * `fp[j]` when that point is `v`, otherwise the line to the next point, which is above `v`.
   */
  lemma InterpSlot(v: real, xp: seq<real>, fp: seq<real>) returns (j: nat)
    requires |xp| == |fp| >= 1 && NonDecreasing(xp) && xp[0] <= v <= xp[|xp| - 1]
    ensures j < |xp| && xp[j] <= v
    ensures forall i :: j < i < |xp| ==> v < xp[i]
    ensures xp[j] == v ==> InterpAt(v, xp, fp) == fp[j]
    ensures xp[j] < v ==>
      j + 1 < |xp| && v < xp[j + 1] && InterpAt(v, xp, fp) == Lerp(fp[j], fp[j + 1], xp[j], xp[j + 1], v)
  {
    var n := |xp|;
    if v == xp[n - 1] {
      j := n - 1;
    } else {
      j := FindInterval(v, xp, 0);
      forall i | j < i < n ensures v < xp[i] {
        assert xp[j + 1] <= xp[i];
      }
    }
  }

  /**
   * A successful lookup is the lag `x[i]` of a point with `y[i] == t`, or lies on the line
   * between two curve points `(y[i], x[i])` and `(y[k], x[k])` on either side of `t`.
   */
  lemma CrossingOnSegment(x: seq<real>, y: seq<real>, t: real) returns (i: nat, k: nat)
    requires Crossing(x, y, t).Ok?
    ensures |x| == |y| && i < |y| && k < |y| && y[i] <= t <= y[k]
    ensures y[i] == t ==> Crossing(x, y, t) == Ok(x[i])
    ensures y[i] < t ==> t < y[k] && Crossing(x, y, t) == Ok(Lerp(x[i], x[k], y[i], y[k], t))
  {
    var z := Zip(y, x);
    var ps, j := CrossingValue(x, y, t);
    assert ps[j] in multiset(z);
    InZip(ps[j], y, x);
    i :| 0 <= i < |y| && y[i] == ps[j].key && x[i] == ps[j].val;
    k := i;
    if ps[j].key < t {
      assert ps[j + 1] in multiset(z);
      InZip(ps[j + 1], y, x);
      k :| 0 <= k < |y| && y[k] == ps[j + 1].key && x[k] == ps[j + 1].val;
    }
  }

  /**
   * When `t` is a value the curve takes, the lookup returns the lag of the last point with that
   * value: the stable sort keeps tied points in their order, and `np.interp` reads the last of them.
   */
  lemma CrossingAtSample(x: seq<real>, y: seq<real>, t: real, m: nat)
    requires |x| == |y| >= 2 && m < |y| && y[m] == t
    requires forall i :: m < i < |y| ==> y[i] != t
    ensures Crossing(x, y, t) == Ok(x[m])
  {
    SampleInRange(x, y, t, m);
    var ps, j := CrossingValue(x, y, t);
    SortedSlot(Zip(y, x), ps, j, m, t);
  }

  /** A value the curve takes lies within its range, so the lookup succeeds. */
  lemma SampleInRange(x: seq<real>, y: seq<real>, t: real, m: nat)
    requires |x| == |y| >= 2 && m < |y| && y[m] == t
    ensures Crossing(x, y, t).Ok?
  {
    assert Min(y) <= y[m] <= Max(y);
    CrossingErrors(x, y, t);
  }

  /** The last sorted point at or below `t` is point `m`, the last table point whose key is `t`. */
  lemma SortedSlot(z: seq<Pt>, ps: seq<Pt>, j: nat, m: nat, t: real)
    requires ps == SortPts(z) && j < |ps| && ps[j].key <= t
    requires forall i :: j < i < |ps| ==> t < ps[i].key
    requires m < |z| && z[m].key == t
    requires forall i :: m < i < |z| ==> z[i].key != t
    ensures ps[j] == z[m]
  {
    var p := SortedPosition(z, ps, m);
    LastAtOrBelow(ps, j, p, t);
    TiedLast(z, ps, j, m, t);
  }

  /** Point `m` of a table sits at some position `p` of any rearrangement of it. */
  lemma SortedPosition(z: seq<Pt>, ps: seq<Pt>, m: nat) returns (p: nat)
    requires m < |z| && multiset(ps) == multiset(z)
    ensures p < |ps| && ps[p] == z[m]
  {
    assert z[m] in multiset(ps) by { assert z[m] in z; }
    p :| 0 <= p < |ps| && ps[p] == z[m];
  }

  /** In a sorted table the last point at or below `t` has key `t` when some point has. */
  lemma LastAtOrBelow(ps: seq<Pt>, j: nat, p: nat, t: real)
    requires SortedByKey(ps) && j < |ps| && p < |ps| && ps[j].key <= t && ps[p].key == t
    requires forall i :: j < i < |ps| ==> t < ps[i].key
    ensures ps[j].key == t
  {
    assert p <= j;
    if p < j {
      assert ps[p].key <= ps[j].key;
    }
  }

  /** The last sorted point with key `t` is the last table point with that key. */
  lemma TiedLast(z: seq<Pt>, ps: seq<Pt>, j: nat, m: nat, t: real)
    requires ps == SortPts(z) && j < |ps| && ps[j].key == t && m < |z| && z[m].key == t
    requires forall i :: j < i < |ps| ==> t < ps[i].key
    requires forall i :: m < i < |z| ==> z[i].key != t
    ensures ps[j] == z[m]
  {
    SortKeepsTies(z, t);
    LastWithKey(ps, t, j);
    LastWithKey(z, t, m);
  }

  /** The points of a table whose key is `t`, in table order. */
  function WithKey(ps: seq<Pt>, t: real): seq<Pt>
  {
    if ps == [] then []
    else (if ps[0].key == t then [ps[0]] else []) + WithKey(ps[1..], t)
  }

  /** `ps[j]`, the last point with key `t`, is the last of the points with that key. */
  lemma {:induction false} LastWithKey(ps: seq<Pt>, t: real, j: nat)
    requires j < |ps| && ps[j].key == t
    requires forall i :: j < i < |ps| ==> ps[i].key != t
    ensures var w := WithKey(ps, t); |w| > 0 && w[|w| - 1] == ps[j]
  {
    if j == 0 {
      NoKey(ps[1..], t);
    } else {
      LastWithKey(ps[1..], t, j - 1);
    }
  }

  lemma {:induction false} NoKey(ps: seq<Pt>, t: real)
    requires forall i :: 0 <= i < |ps| ==> ps[i].key != t
    ensures WithKey(ps, t) == []
  {
    if ps != [] {
      NoKey(ps[1..], t);
    }
  }

  /** Sorting keeps the points of every key in their table order: the sort is stable. */
  lemma {:induction false} SortKeepsTies(ps: seq<Pt>, t: real)
    ensures WithKey(SortPts(ps), t) == WithKey(ps, t)
  {
    if ps != [] {
      SortKeepsTies(ps[1..], t);
      InsertKeepsTies(ps[0], SortPts(ps[1..]), t);
    }
  }

  /** Inserting `p` puts it before every point of its key already in the table. */
  lemma {:induction false} InsertKeepsTies(p: Pt, ps: seq<Pt>, t: real)
    requires SortedByKey(ps)
    ensures WithKey(InsertPt(p, ps), t) == (if p.key == t then [p] else []) + WithKey(ps, t)
  {
    if ps == [] || p.key <= ps[0].key {
      WithKeyCons(p, ps, t);
    } else {
      var rest := InsertPt(p, ps[1..]);
      assert InsertPt(p, ps) == [ps[0]] + rest;
      InsertKeepsTies(p, ps[1..], t);
      WithKeyCons(ps[0], rest, t);
      WithKeyCons(ps[0], ps[1..], t);
      assert [ps[0]] + ps[1..] == ps;
      if p.key == t {
        // `ps[0]` lies below `p`, so only `p` has key `t`
        assert WithKey(InsertPt(p, ps), t) == WithKey(rest, t) == [p] + WithKey(ps[1..], t);
        assert WithKey(ps, t) == WithKey(ps[1..], t);
      } else {
        var head := if ps[0].key == t then [ps[0]] else [];
        assert WithKey(InsertPt(p, ps), t) == head + WithKey(rest, t);
        assert WithKey(rest, t) == WithKey(ps[1..], t);
        assert WithKey(ps, t) == head + WithKey(ps[1..], t);
      }
    }
  }

  lemma WithKeyCons(p: Pt, ps: seq<Pt>, t: real)
    ensures WithKey([p] + ps, t) == (if p.key == t then [p] else []) + WithKey(ps, t)
  {
    assert ([p] + ps)[1..] == ps;
  }

  /** On the lag grid `0 .. n-1` the half-maximum crossing lies in `[0, n-1]`. */
  lemma HalfMaxInRange(n: nat, y: seq<real>)
    requires HalfMax(Grid(n), y).Ok?
    ensures 0.0 <= HalfMax(Grid(n), y).value <= (n - 1) as real
  {
    var i, k := CrossingOnSegment(Grid(n), y, 0.5);
    if y[i] < 0.5 {
      LerpWithin(i as real, k as real, y[i], y[k], 0.5);
    }
  }

  /**
   * A curve that does not sit at 0.5 at lag 0 (the correlation curves start at 1) crosses
   * the half maximum at a positive lag, so the ratio of two crossings is defined and positive.
   */
  lemma HalfMaxPositive(n: nat, y: seq<real>)
    requires HalfMax(Grid(n), y).Ok?
    requires |y| > 0 && y[0] != 0.5
    ensures HalfMax(Grid(n), y).value > 0.0
  {
    var i, k := CrossingOnSegment(Grid(n), y, 0.5);
    if y[i] < 0.5 {
      LerpWithin(i as real, k as real, y[i], y[k], 0.5);
    }
  }

  predicate StrictlyIncreasing(xp: seq<real>)
  {
    forall i, j :: 0 <= i < j < |xp| ==> xp[i] < xp[j]
  }

  /** Sample points in order, possibly repeated: the sorted keys of `interp1d`. */
  predicate NonDecreasing(xp: seq<real>)
  {
    forall i, j :: 0 <= i < j < |xp| ==> xp[i] <= xp[j]
  }

  /**
   * The sample interval `[xp[j], xp[j+1])` holding `v`, searched from `j` upward. With repeated
   * sample points `r` is the last index whose point is at most `v`, as numpy's binary search finds.
   */
  function FindInterval(v: real, xp: seq<real>, j: nat): (r: nat)
    requires NonDecreasing(xp) && j < |xp| - 1 && xp[j] <= v < xp[|xp| - 1]
    ensures j <= r < |xp| - 1 && xp[r] <= v < xp[r + 1]
    decreases |xp| - j
  {
    if v < xp[j + 1] then j else FindInterval(v, xp, j + 1)
  }

  /**
   * `np.interp(v, xp, fp)` with its default ends: `fp[0]` left of the first sample point,
   * `fp[-1]` at and right of the last, the sample value at a sample point, linear in between.
   */
  function InterpAt(v: real, xp: seq<real>, fp: seq<real>): real
    requires |xp| == |fp| >= 1 && NonDecreasing(xp)
  {
    var last := |xp| - 1;
    if v > xp[last] then fp[last]
    else if v < xp[0] then fp[0]
    else if v == xp[last] then fp[last]
    else
      var j := FindInterval(v, xp, 0);
      if xp[j] == v then fp[j]
      else Lerp(fp[j], fp[j + 1], xp[j], xp[j + 1], v)
  }

  /** `np.interp(x, xp, fp)` over a whole sequence of query points. */
  function Interp(x: seq<real>, xp: seq<real>, fp: seq<real>): (r: seq<real>)
    requires |xp| == |fp| >= 1 && NonDecreasing(xp)
    ensures |r| == |x|
  {
    if x == [] then [] else Interp(x[..|x| - 1], xp, fp) + [InterpAt(x[|x| - 1], xp, fp)]
  }

  /** Entry `i` of `np.interp(x, xp, fp)` is the interpolation at `x[i]`. */
  lemma {:induction false} InterpIndex(x: seq<real>, xp: seq<real>, fp: seq<real>, i: nat)
    requires |xp| == |fp| >= 1 && NonDecreasing(xp) && i < |x|
    ensures Interp(x, xp, fp)[i] == InterpAt(x[i], xp, fp)
  {
    if i < |x| - 1 {
      InterpIndex(x[..|x| - 1], xp, fp, i);
    }
  }

  /**
   * Points beyond either end take the end value, and so do the points at the last sample point
   * and at a first sample point that is not repeated.
   */
  lemma InterpClamps(v: real, xp: seq<real>, fp: seq<real>)
    requires |xp| == |fp| >= 1 && NonDecreasing(xp)
    ensures v < xp[0] ==> InterpAt(v, xp, fp) == fp[0]
    ensures v == xp[0] && (|xp| == 1 || xp[0] < xp[1]) ==> InterpAt(v, xp, fp) == fp[0]
    ensures v >= xp[|xp| - 1] ==> InterpAt(v, xp, fp) == fp[|fp| - 1]
  {
    if v == xp[0] && |xp| > 1 && xp[0] < xp[1] {
      assert FindInterval(v, xp, 0) == 0;
    }
  }

  /** Every interpolated value lies within the range of `fp`. */
  lemma InterpBounds(v: real, xp: seq<real>, fp: seq<real>)
    requires |xp| == |fp| >= 1 && NonDecreasing(xp)
    ensures Min(fp) <= InterpAt(v, xp, fp) <= Max(fp)
  {
    var k := InterpSource(v, xp, fp);
    var lo, hi := Min(fp), Max(fp);
    assert lo <= fp[k] <= hi;
    if k + 1 < |fp| {
      assert lo <= fp[k + 1] <= hi;
    }
  }

  /** The interpolated value lies between two neighbouring values `fp[k]` and `fp[k+1]`. */
  lemma InterpSource(v: real, xp: seq<real>, fp: seq<real>) returns (k: nat)
    requires |xp| == |fp| >= 1 && NonDecreasing(xp)
    ensures k + 1 < |fp| || (k == |fp| - 1 && InterpAt(v, xp, fp) == fp[k])
    ensures k + 1 < |fp| ==>
      (fp[k] <= fp[k + 1] ==> fp[k] <= InterpAt(v, xp, fp) <= fp[k + 1]) &&
      (fp[k + 1] <= fp[k] ==> fp[k + 1] <= InterpAt(v, xp, fp) <= fp[k])
  {
    var last := |xp| - 1;
    if v >= xp[last] {
      k := last;
      assert InterpAt(v, xp, fp) == fp[last];
    } else if v < xp[0] {
      k := 0;
      assert InterpAt(v, xp, fp) == fp[0];
    } else {
      k := InterpInside(v, xp, fp);
    }
  }

  /** Strictly inside the sample points the interpolation lies between the values of its interval. */
  lemma InterpInside(v: real, xp: seq<real>, fp: seq<real>) returns (k: nat)
    requires |xp| == |fp| >= 2 && NonDecreasing(xp) && xp[0] <= v < xp[|xp| - 1]
    ensures k + 1 < |fp|
    ensures fp[k] <= fp[k + 1] ==> fp[k] <= InterpAt(v, xp, fp) <= fp[k + 1]
    ensures fp[k + 1] <= fp[k] ==> fp[k + 1] <= InterpAt(v, xp, fp) <= fp[k]
  {
    k := FindInterval(v, xp, 0);
    var r := InterpAt(v, xp, fp);
    if xp[k] == v {
      assert r == fp[k];
    } else {
      assert r == Lerp(fp[k], fp[k + 1], xp[k], xp[k + 1], v);
      LerpWithin(fp[k], fp[k + 1], xp[k], xp[k + 1], v);
    }
  }

  /** Sampled at its own sample points, `np.interp` gives back `fp`. */
  lemma InterpAtSamples(xp: seq<real>, fp: seq<real>, i: nat)
    requires |xp| == |fp| >= 1 && StrictlyIncreasing(xp) && i < |xp|
    ensures InterpAt(xp[i], xp, fp) == fp[i]
  {
    if i < |xp| - 1 {
      FindIntervalAt(xp, i, 0);
    }
  }

  lemma {:induction false} FindIntervalAt(xp: seq<real>, i: nat, j: nat)
    requires StrictlyIncreasing(xp) && j <= i < |xp| - 1
    ensures FindInterval(xp[i], xp, j) == i
    decreases i - j
  {
    if j < i {
      FindIntervalAt(xp, i, j + 1);
    }
  }

  /** The lag grid stretched by `k`: `np.array(x0) * k`. */
  function ScaledGrid(n: nat, k: real): (r: seq<real>)
    ensures |r| == n
    ensures forall i :: 0 <= i < n ==> r[i] == i as real * k
  {
    seq(n, i => i as real * k)
  }

  /** For `k > 0` the stretched grid is a valid `xp` for `np.interp`. */
  lemma ScaledGridIncreasing(n: nat, k: real)
    requires k > 0.0
    ensures StrictlyIncreasing(ScaledGrid(n, k))
  {
    var r := ScaledGrid(n, k);
    forall i, j | 0 <= i < j < n ensures r[i] < r[j] {
      var a, b := i as real, j as real;
      MulStrict(k, a, b);
      assert r[i] == a * k && r[j] == b * k;
    }
  }

  /** `np.interp(x0, np.array(x0) * k, y0)`: the curve re-read on the `k`-scaled lag axis. */
  function Remap(y: seq<real>, k: real): (r: seq<real>)
    requires |y| >= 1 && k > 0.0
    ensures |r| == |y|
  {
    ScaledGridIncreasing(|y|, k);
    Interp(Grid(|y|), ScaledGrid(|y|, k), y)
  }

  /** The remap keeps the lag-0 value: the first grid point is 0 on both axes. */
  lemma RemapKeepsFirst(y: seq<real>, k: real)
    requires |y| >= 1 && k > 0.0
    ensures Remap(y, k)[0] == y[0]
  {
    ScaledGridIncreasing(|y|, k);
    var xp := ScaledGrid(|y|, k);
    assert Grid(|y|)[0] == 0.0 == xp[0];
    InterpIndex(Grid(|y|), xp, y, 0);
    InterpClamps(0.0, xp, y);
  }

  /** The remapped curve stays within the range of the original one. */
  lemma RemapBounded(y: seq<real>, k: real)
    requires |y| >= 1 && k > 0.0
    ensures forall i :: 0 <= i < |y| ==> Min(y) <= Remap(y, k)[i] <= Max(y)
  {
    ScaledGridIncreasing(|y|, k);
    var xp := ScaledGrid(|y|, k);
    forall i | 0 <= i < |y| ensures Min(y) <= Remap(y, k)[i] <= Max(y) {
      InterpIndex(Grid(|y|), xp, y, i);
      InterpBounds(i as real, xp, y);
    }
  }

  /** Lags at or beyond `(W-1)·k` are clamped to the curve's last value. */
  lemma RemapClampsTail(y: seq<real>, k: real)
    requires |y| >= 1 && k > 0.0
    ensures forall i :: 0 <= i < |y| && i as real >= (|y| - 1) as real * k ==> Remap(y, k)[i] == y[|y| - 1]
  {
    ScaledGridIncreasing(|y|, k);
    var xp := ScaledGrid(|y|, k);
    var end := (|y| - 1) as real * k;
    assert xp[|y| - 1] == end;
    forall i | 0 <= i < |y| && i as real >= end ensures Remap(y, k)[i] == y[|y| - 1] {
      InterpIndex(Grid(|y|), xp, y, i);
      InterpClamps(i as real, xp, y);
    }
  }

  /**
   * `np.interp(x0, x0 * 0, y0)`, the remap a zero `k_factor` would give: every sample point is 0,
   * every lag is at or beyond the last one, so every value is `y0[-1]`.
   */
  lemma ZeroScaleGivesLast(y: seq<real>)
    requires |y| >= 1
    ensures forall i :: 0 <= i < |y| ==> Interp(Grid(|y|), ScaledGrid(|y|, 0.0), y)[i] == y[|y| - 1]
  {
    var xp := ScaledGrid(|y|, 0.0);
    assert NonDecreasing(xp) by {
      forall i, j | 0 <= i < j < |xp| ensures xp[i] <= xp[j] {
        assert xp[i] == 0.0 && xp[j] == 0.0;
      }
    }
    forall i | 0 <= i < |y| ensures Interp(Grid(|y|), xp, y)[i] == y[|y| - 1] {
      assert xp[|y| - 1] == 0.0;
      InterpIndex(Grid(|y|), xp, y, i);
      InterpClamps(i as real, xp, y);
    }
  }

  /** With `k = 1` the scaled grid is the grid itself and the remap is the identity. */
  lemma RemapIdentity(y: seq<real>)
    requires |y| >= 1
    ensures Remap(y, 1.0) == y
  {
    ScaledGridIncreasing(|y|, 1.0);
    var xp := ScaledGrid(|y|, 1.0);
    forall i | 0 <= i < |y| ensures Remap(y, 1.0)[i] == y[i] {
      assert xp[i] == i as real == Grid(|y|)[i];
      InterpIndex(Grid(|y|), xp, y, i);
      InterpAtSamples(xp, y, i);
    }
  }
}
