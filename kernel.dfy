/**
 * `Cube.cube_corr_kernel` as specification functions: the row-major pixel sweep producing one
 * lag curve per pixel, the transpose into lag columns, and the 16/50/84 percentile bands.
 */
module Kernel {
  import opened Values
  import opened NdArrays
  import opened Correlation
  import opened Percentiles

  type Pearson = (seq<real>, seq<real>) -> Val

  /** `array_check(imagen.data[cube_slicer(y0, x0)])` as a one-dimensional trace. */
  function PixelTrace(data: NdArray, dim: nat, y0: nat, x0: nat): Result<seq<Val>>
  {
    match Select(data, CubeSlicer(dim, y0, x0))
    case Err(e) => Err(e)
    case Ok(b) =>
      match ArrayCheck(b)
      case Err(e) => Err(e)
      case Ok(s) => ToTrace(s)
  }

  /** The lag curve of pixel `(y0, x0)`. */
  function PixelCurve(data: NdArray, dim: nat, y0: nat, x0: nat, w: nat, pearson: Pearson): (r: Result<seq<Val>>)
    ensures r.Ok? ==> |r.value| == w && (w > 0 ==> r.value[0] == Num(1.0))
    ensures r.Ok? <==> PixelTrace(data, dim, y0, x0).Ok?
  {
    match PixelTrace(data, dim, y0, x0)
    case Err(e) => Err(e)
    case Ok(t) => Ok(CubeCorrelation(t, w, pearson))
  }

  /** The per-pixel step of the sweep, as a function of `(y0, x0)`. */
  function PixelStep(data: NdArray, dim: nat, w: nat, pearson: Pearson): (nat, nat) -> Result<seq<Val>>
  {
    (y0: nat, x0: nat) => PixelCurve(data, dim, y0, x0, w, pearson)
  }

  /** The results of pixels `(y0, 0) .. (y0, cols-1)`, or the first pixel's error. */
  function Row<T>(f: (nat, nat) -> Result<T>, y0: nat, cols: nat): Result<seq<T>>
  {
    if cols == 0 then Ok([])
    else match Row(f, y0, cols - 1)
      case Err(e) => Err(e)
      case Ok(prev) =>
        match f(y0, cols - 1)
        case Err(e) => Err(e)
        case Ok(c) => Ok(prev + [c])
  }

  /** The results of every pixel of rows `0 .. rows-1`, `y` outer and `x` inner, or the first error. */
  function Sweep<T>(f: (nat, nat) -> Result<T>, rows: nat, cols: nat): (r: Result<seq<T>>)
    ensures r.Ok? ==> |r.value| == rows * cols
  {
    if rows == 0 then Ok([])
    else match Sweep(f, rows - 1, cols)
      case Err(e) => Err(e)
      case Ok(prev) =>
        match Row(f, rows - 1, cols)
        case Err(e) => Err(e)
        case Ok(row) =>
          RowShape(f, rows - 1, cols);
          RowMajorSplit(rows, cols);
          Ok(prev + row)
  }

  /** A row succeeds exactly when each of its pixels does, and then lists them in column order. */
  lemma {:induction false} RowShape<T>(f: (nat, nat) -> Result<T>, y0: nat, cols: nat)
    ensures Row(f, y0, cols).Ok? <==> forall x: nat :: x < cols ==> f(y0, x).Ok?
    ensures Row(f, y0, cols).Ok? ==>
      |Row(f, y0, cols).value| == cols && forall x: nat :: x < cols ==> f(y0, x) == Ok(Row(f, y0, cols).value[x])
  {
    if cols > 0 {
      RowShape(f, y0, cols - 1);
    }
  }

  /** Once a row has failed, a longer row fails with the same error. */
  lemma {:induction false} RowErrorStays<T>(f: (nat, nat) -> Result<T>, y0: nat, c1: nat, c2: nat)
    requires c1 <= c2 && Row(f, y0, c1).Err?
    ensures Row(f, y0, c2) == Row(f, y0, c1)
    decreases c2 - c1
  {
    if c1 < c2 {
      RowErrorStays(f, y0, c1, c2 - 1);
    }
  }

  /** A row that has succeeded so far grows by the next pixel's result, or takes its error. */
  lemma RowNext<T>(f: (nat, nat) -> Result<T>, y0: nat, x: nat)
    requires Row(f, y0, x).Ok?
    ensures f(y0, x).Ok? ==> Row(f, y0, x + 1) == Ok(Row(f, y0, x).value + [f(y0, x).value])
    ensures f(y0, x).Err? ==> Row(f, y0, x + 1) == Err(f(y0, x).error)
  {
  }

  /** A sweep that has succeeded so far grows by the next full row. */
  lemma SweepNext<T>(f: (nat, nat) -> Result<T>, y: nat, cols: nat)
    requires Sweep(f, y, cols).Ok? && Row(f, y, cols).Ok?
    ensures Sweep(f, y + 1, cols) == Ok(Sweep(f, y, cols).value + Row(f, y, cols).value)
  {
  }

  /** Once a sweep has failed, sweeping more rows fails with the same error. */
  lemma {:induction false} SweepErrorStays<T>(f: (nat, nat) -> Result<T>, r1: nat, r2: nat, cols: nat)
    requires r1 <= r2 && Sweep(f, r1, cols).Err?
    ensures Sweep(f, r2, cols) == Sweep(f, r1, cols)
    decreases r2 - r1
  {
    if r1 < r2 {
      SweepErrorStays(f, r1, r2 - 1, cols);
    }
  }

  /** The sweep succeeds exactly when every pixel does. */
  lemma {:induction false} SweepSucceeds<T>(f: (nat, nat) -> Result<T>, rows: nat, cols: nat)
    ensures Sweep(f, rows, cols).Ok? <==> forall y: nat, x: nat :: y < rows && x < cols ==> f(y, x).Ok?
  {
    if rows > 0 {
      SweepSucceeds(f, rows - 1, cols);
      RowShape(f, rows - 1, cols);
    }
  }

  /**
   * In a successful sweep the result of pixel `(y, x)` sits at position `y * cols + x`
   * (row-major order: `y` outer, `x` inner).
   */
  lemma {:induction false} SweepRowMajor<T>(f: (nat, nat) -> Result<T>, rows: nat, cols: nat, y: nat, x: nat)
    requires Sweep(f, rows, cols).Ok? && y < rows && x < cols
    ensures y * cols + x < |Sweep(f, rows, cols).value|
    ensures f(y, x) == Ok(Sweep(f, rows, cols).value[y * cols + x])
  {
    SweepStep(f, rows, cols);
    RowShape(f, rows - 1, cols);
    var prev := Sweep(f, rows - 1, cols).value;
    var row := Row(f, rows - 1, cols).value;
    var p, before := y * cols + x, (rows - 1) * cols;
    RowMajorIndex(y, x, rows, cols, p, before);
    if y < rows - 1 {
      SweepRowMajor(f, rows - 1, cols, y, x);
    }
    ConcatPick(prev, row, p, x, y < rows - 1);
  }

  /** Unfolds one step of a successful sweep: the earlier rows, then the last row. */
  lemma SweepStep<T>(f: (nat, nat) -> Result<T>, rows: nat, cols: nat)
    requires rows > 0 && Sweep(f, rows, cols).Ok?
    ensures Sweep(f, rows - 1, cols).Ok? && Row(f, rows - 1, cols).Ok?
    ensures Sweep(f, rows, cols).value == Sweep(f, rows - 1, cols).value + Row(f, rows - 1, cols).value
  {
  }

  /** Position `p` of `prev + row`: in `prev` when `early`, otherwise entry `x` of `row`. */
  lemma ConcatPick<T>(prev: seq<T>, row: seq<T>, p: nat, x: nat, early: bool)
    requires early ==> p < |prev|
    requires !early ==> p == |prev| + x && x < |row|
    ensures p < |prev + row|
    ensures early ==> (prev + row)[p] == prev[p]
    ensures !early ==> (prev + row)[p] == row[x]
  {
  }

  /** Every curve of a successful pixel sweep has one entry per lag, starting with 1. */
  lemma SweepCurveLengths(data: NdArray, dim: nat, rows: nat, cols: nat, w: nat, pearson: Pearson)
    requires Sweep(PixelStep(data, dim, w, pearson), rows, cols).Ok?
    ensures var cs := Sweep(PixelStep(data, dim, w, pearson), rows, cols).value;
      forall p :: 0 <= p < |cs| ==> |cs[p]| == w && (w > 0 ==> cs[p][0] == Num(1.0))
  {
    var f := PixelStep(data, dim, w, pearson);
    var cs := Sweep(f, rows, cols).value;
    forall p | 0 <= p < |cs| ensures |cs[p]| == w && (w > 0 ==> cs[p][0] == Num(1.0)) {
      var y, x := RowMajorInverse(p, rows, cols);
      SweepRowMajor(f, rows, cols, y, x);
    }
  }

  lemma RowMajorSplit(rows: nat, cols: nat)
    requires rows > 0
    ensures (rows - 1) * cols + cols == rows * cols
  {
  }

  /** Where index `p` of pixel `(y, x)` falls relative to the `before` entries of the earlier rows. */
  lemma RowMajorIndex(y: nat, x: nat, rows: nat, cols: nat, p: int, before: int)
    requires y < rows && x < cols && p == y * cols + x && before == (rows - 1) * cols
    ensures 0 <= p < rows * cols
    ensures y < rows - 1 ==> p < before
    ensures y == rows - 1 ==> p == before + x
  {
    assert (y + 1) * cols == y * cols + cols;
    MulLeft(y + 1, rows, cols);
    if y < rows - 1 {
      MulLeft(y + 1, rows - 1, cols);
    }
  }

  /** Every position below `rows * cols` is some pixel's row-major index. */
  lemma RowMajorInverse(p: nat, rows: nat, cols: nat) returns (y: nat, x: nat)
    requires p < rows * cols
    ensures y < rows && x < cols && p == y * cols + x
  {
    assert cols > 0;
    y, x := p / cols, p % cols;
    if y >= rows {
      MulLeft(rows, y, cols);
    }
  }

  lemma MulLeft(a: nat, b: nat, c: nat)
    requires a <= b
    ensures a * c <= b * c
  {
    assert b * c - a * c == (b - a) * c;
  }

  /** `np.transpose` of the per-pixel curves: one column per lag; an empty list has no columns. */
  function Transpose(curves: seq<seq<Val>>, w: nat): (cols: seq<seq<Val>>)
    requires forall p :: 0 <= p < |curves| ==> |curves[p]| == w
    ensures curves == [] ==> cols == []
    ensures curves != [] ==> |cols| == w
    ensures forall c, p :: 0 <= c < |cols| && 0 <= p < |curves| ==> |cols[c]| == |curves| && cols[c][p] == curves[p][c]
  {
    if curves == [] then []
    else seq(w, c requires 0 <= c < w => seq(|curves|, p requires 0 <= p < |curves| => curves[p][c]))
  }

  /** A lag column with at least one number left once NaN is dropped. */
  predicate Usable(col: seq<Val>)
  {
    DropNaN(col) != []
  }

  /**
   * `np.percentile(c_val, [16, 50, 84])` of a column without NaN. `AggregateBy` stops on an empty
   * column before summarising it, so the zeros for `[]` are never used; they only make `Levels` total.
   */
  function Levels(finite: seq<real>): (real, real, real)
  {
    if finite == [] then (0.0, 0.0, 0.0)
    else (Percentile(finite, 16.0), Percentile(finite, 50.0), Percentile(finite, 84.0))
  }

  /**
   * Three bands built column by column from a summary of each column without NaN; the first column
   * with nothing left stops it.
   */
  function AggregateBy(cols: seq<seq<Val>>, levels: seq<real> -> (real, real, real)): (r: Result<seq<seq<real>>>)
    ensures r.Err? ==> r.error == EmptyColumn
    ensures r.Ok? ==> |r.value| == 3 && |r.value[0]| == |r.value[1]| == |r.value[2]| == |cols|
  {
    if cols == [] then Ok([[], [], []])
    else
      match AggregateBy(cols[..|cols| - 1], levels)
      case Err(e) => Err(e)
      case Ok(k) =>
        var finite := DropNaN(cols[|cols| - 1]);
        if finite == [] then Err(EmptyColumn)
        else
          var l := levels(finite);
          Ok([k[0] + [l.0], k[1] + [l.1], k[2] + [l.2]])
  }

  /** The bands exist exactly when every column keeps a number once NaN is dropped. */
  lemma {:induction false} AggregateBySucceeds(cols: seq<seq<Val>>, levels: seq<real> -> (real, real, real))
    ensures AggregateBy(cols, levels).Ok? <==> forall c :: 0 <= c < |cols| ==> Usable(cols[c])
  {
    if cols != [] {
      var n := |cols| - 1;
      AggregateBySucceeds(cols[..n], levels);
      assert forall c :: 0 <= c < n ==> cols[..n][c] == cols[c];
    }
  }

  /** Column `c` of the bands holds the summary of that column. */
  lemma {:induction false} AggregateByAt(cols: seq<seq<Val>>, levels: seq<real> -> (real, real, real), c: nat)
    requires AggregateBy(cols, levels).Ok? && c < |cols|
    ensures Usable(cols[c])
    ensures var k := AggregateBy(cols, levels).value;
      var l := levels(DropNaN(cols[c]));
      k[0][c] == l.0 && k[1][c] == l.1 && k[2][c] == l.2
  {
    var n := |cols| - 1;
    if c < n {
      AggregateByAt(cols[..n], levels, c);
      assert cols[..n][c] == cols[c];
    }
  }

  /** The three bands `[y_down, y_mean, y_up]`: the 16th, 50th and 84th percentiles of each column without NaN. */
  function Aggregate(cols: seq<seq<Val>>): (r: Result<seq<seq<real>>>)
    ensures r.Err? ==> r.error == EmptyColumn
    ensures r.Ok? ==> |r.value| == 3 && |r.value[0]| == |r.value[1]| == |r.value[2]| == |cols|
  {
    AggregateBy(cols, Levels)
  }

  /** The bands exist exactly when every column keeps a number once NaN is dropped. */
  lemma AggregateSucceeds(cols: seq<seq<Val>>)
    ensures Aggregate(cols).Ok? <==> forall c :: 0 <= c < |cols| ==> Usable(cols[c])
  {
    AggregateBySucceeds(cols, Levels);
  }

  /** Column `c` of the bands holds that column's 16th, 50th and 84th percentiles. */
  lemma AggregateAt(cols: seq<seq<Val>>, c: nat)
    requires Aggregate(cols).Ok? && c < |cols|
    ensures Usable(cols[c])
    ensures var k := Aggregate(cols).value;
      && k[0][c] == Percentile(DropNaN(cols[c]), 16.0)
      && k[1][c] == Percentile(DropNaN(cols[c]), 50.0)
      && k[2][c] == Percentile(DropNaN(cols[c]), 84.0)
  {
    AggregateByAt(cols, Levels, c);
  }

  /** At every lag the bands are ordered: lower (16th) <= center (50th) <= upper (84th). */
  lemma AggregateOrdered(cols: seq<seq<Val>>)
    requires Aggregate(cols).Ok?
    ensures var k := Aggregate(cols).value;
      forall c :: 0 <= c < |cols| ==> k[0][c] <= k[1][c] <= k[2][c]
  {
    var k := Aggregate(cols).value;
    forall c | 0 <= c < |cols| ensures k[0][c] <= k[1][c] <= k[2][c] {
      AggregateAt(cols, c);
      PercentileMonotone(DropNaN(cols[c]), 16.0, 50.0);
      PercentileMonotone(DropNaN(cols[c]), 50.0, 84.0);
    }
  }

  /** `cube_corr_kernel` as a whole: sweep, transpose, aggregate. */
  function CubeKernel(data: NdArray, shape: seq<nat>, w: nat, pearson: Pearson): (r: Result<seq<seq<real>>>)
    ensures r.Ok? ==> |shape| >= 2 && |r.value| == 3 && |r.value[0]| == |r.value[1]| == |r.value[2]|
  {
    if |shape| < 2 then Err(TooFewAxes)
    else
      match Sweep(PixelStep(data, |shape|, w, pearson), shape[|shape| - 2], shape[|shape| - 1])
      case Err(e) => Err(e)
      case Ok(cs) =>
        SweepCurveLengths(data, |shape|, shape[|shape| - 2], shape[|shape| - 1], w, pearson);
        Aggregate(Transpose(cs, w))
  }

  lemma ZeroProduct(m: nat, n: nat)
    ensures m * n == 0 <==> m == 0 || n == 0
  {
    if m > 0 && n > 0 {
      assert m * n >= n by { assert m * n == (m - 1) * n + n; }
    }
  }

  /** Three bands `[y_down, y_mean, y_up]` of `len` lags each, ordered at every lag, all starting at 1. */
  predicate OrderedBands(k: seq<seq<real>>, len: nat)
  {
    && |k| == 3
    && |k[0]| == |k[1]| == |k[2]| == len
    && (forall c :: 0 <= c < len ==> k[0][c] <= k[1][c] <= k[2][c])
    && (len > 0 ==> k[0][0] == k[1][0] == k[2][0] == 1.0)
  }

  /**
   * A computed kernel has three ordered bands of one length: `w` when the grid has pixels, else 0
   * (numpy transposes an empty list to no columns). Every band starts at 1, the lag-0 value of every pixel.
   */
  lemma CubeKernelShape(data: NdArray, shape: seq<nat>, w: nat, pearson: Pearson)
    requires |shape| >= 2 && CubeKernel(data, shape, w, pearson).Ok?
    ensures OrderedBands(CubeKernel(data, shape, w, pearson).value,
      if shape[|shape| - 2] == 0 || shape[|shape| - 1] == 0 then 0 else w)
  {
    var rows, cols := shape[|shape| - 2], shape[|shape| - 1];
    SweepCurveLengths(data, |shape|, rows, cols, w, pearson);
    var cs := Sweep(PixelStep(data, |shape|, w, pearson), rows, cols).value;
    assert CubeKernel(data, shape, w, pearson) == Aggregate(Transpose(cs, w));
    assert |cs| == 0 <==> rows == 0 || cols == 0 by { ZeroProduct(rows, cols); }
    CurvesKernelShape(cs, w);
  }

  /** `CubeKernelShape` for any collection of curves of `w` lags that start at 1. */
  lemma CurvesKernelShape(cs: seq<seq<Val>>, w: nat)
    requires forall p :: 0 <= p < |cs| ==> |cs[p]| == w && (w > 0 ==> cs[p][0] == Num(1.0))
    requires Aggregate(Transpose(cs, w)).Ok?
    ensures OrderedBands(Aggregate(Transpose(cs, w)).value, if cs == [] then 0 else w)
  {
    var t := Transpose(cs, w);
    AggregateOrdered(t);
    if |t| > 0 {
      var col := t[0];
      forall p | 0 <= p < |cs| ensures col[p] == Num(1.0) {
        assert col[p] == cs[p][0];
      }
      AggregateOnes(t);
    }
  }

  /** When the first lag column is all ones, the three bands start at 1. */
  lemma AggregateOnes(cols: seq<seq<Val>>)
    requires Aggregate(cols).Ok? && |cols| > 0
    requires cols[0] != [] && forall p :: 0 <= p < |cols[0]| ==> cols[0][p] == Num(1.0)
    ensures var k := Aggregate(cols).value; k[0][0] == k[1][0] == k[2][0] == 1.0
  {
    OnesColumn(cols[0]);
    AggregateAt(cols, 0);
  }

  /** A column of ones keeps its ones when NaN is dropped, and each of its percentiles is 1. */
  lemma OnesColumn(col: seq<Val>)
    requires col != [] && forall p :: 0 <= p < |col| ==> col[p] == Num(1.0)
    ensures Usable(col)
    ensures Percentile(DropNaN(col), 16.0) == Percentile(DropNaN(col), 50.0) == Percentile(DropNaN(col), 84.0) == 1.0
  {
    var f := DropNaN(col);
    assert col[0] in col;
    assert 1.0 in f;
    forall i | 0 <= i < |f| ensures f[i] == 1.0 {
      assert f[i] in f;
    }
    PercentileConstant(f, 16.0, 1.0);
    PercentileConstant(f, 50.0, 1.0);
    PercentileConstant(f, 84.0, 1.0);
  }

  /** Three ascending samples have their middle one as median, bracketed by the 16th and 84th percentiles. */
  lemma SpreadOfThree(a: real, b: real, c: real)
    requires a <= b <= c
    ensures Percentile([a, b, c], 50.0) == b
    ensures Percentile([a, b, c], 16.0) <= b <= Percentile([a, b, c], 84.0)
  {
    MedianOfSorted(a, b, c);
    PercentileMonotone([a, b, c], 16.0, 50.0);
    PercentileMonotone([a, b, c], 50.0, 84.0);
  }

}
