/**
 * The `Cube` object: the pixel array of one FITS extension, the number of lags it is analysed
 * over, and the kernel, `k_factor` and LSF profiles its methods fill in.
 */
module CubeModel {
  import opened Values
  import opened NdArrays
  import opened Percentiles
  import opened Kernel
  import opened Profiles
  import opened Calibration
  import opened Interpolation

  class Cube {
    /** `imagen.data` and `imagen.shape`. */
    const data: NdArray
    const shape: seq<nat>
    /** `used_channels`: the lags `0 .. used_channels-1` of every correlation curve. */
    const usedChannels: nat
    /** `x0`, the lag grid. */
    const x0: seq<real>
    /** `cube_kernel`: `[]`, then `[y_down, y_mean, y_up]`. */
    var kernel: seq<seq<real>>
    /** `k_factor`: unset until a band of `LSF_calc` computes it. */
    var kFactor: Option<real>
    /** `LSF`: `[0, 0, 0]`, then one profile per band. */
    var lsf: seq<LsfEntry>

    /** Three LSF slots, at most three bands, and the lag grid of `used_channels` points. */
    ghost predicate Valid()
      reads this
    {
      && HasShape(data, shape)
      && |lsf| == 3
      && |kernel| <= 3
      && x0 == Grid(usedChannels)
    }

    /** `Cube(path, extension, used_channels = 8)` once the extension's array has been read. */
    constructor (data: NdArray, shape: seq<nat>, usedChannels: nat := 8)
      requires HasShape(data, shape)
      ensures Valid()
      ensures this.data == data && this.shape == shape && this.usedChannels == usedChannels
      ensures kernel == [] && kFactor == None && lsf == Sentinel
    {
      this.data := data;
      this.shape := shape;
      this.usedChannels := usedChannels;
      x0 := Grid(usedChannels);
      kernel := [];
      kFactor := None;
      lsf := Sentinel;
    }

    /**
     * `cube_corr_kernel`: the lag curve of every pixel, row by row, then the 16th, 50th and 84th
     * percentile of every lag column. On an error nothing is stored.
     */
    method CubeCorrKernel(pearson: Pearson) returns (err: Option<Error>)
      requires Valid()
      modifies this
      ensures Valid()
      ensures kFactor == old(kFactor) && lsf == old(lsf)
      ensures match CubeKernel(data, shape, usedChannels, pearson)
        case Ok(k) => err == None && kernel == k
        case Err(e) => err == Some(e) && kernel == old(kernel)
    {
      if |shape| < 2 {
        return Some(TooFewAxes);
      }
      var curves := SweepCurves(data, |shape|, shape[|shape| - 2], shape[|shape| - 1], usedChannels, pearson);
      if curves.Err? {
        return Some(curves.error);
      }
      SweepCurveLengths(data, |shape|, shape[|shape| - 2], shape[|shape| - 1], usedChannels, pearson);
      var bands := PercentileBands(Transpose(curves.value, usedChannels));
      if bands.Err? {
        return Some(bands.error);
      }
      kernel := bands.value;
      err := None;
    }

    /**
     * `LSF_calc`: band `idx` of the kernel is calibrated into `LSF[idx]`, setting `k_factor` on the
     * way; then `LSF[0]` and `LSF[1]` swap places. An error stops the loop and skips the swap,
     * keeping what the earlier bands wrote.
     */
    method LsfCalc(lagCorr: LagCorr) returns (err: Option<Error>)
      requires Valid()
      modifies this
      ensures Valid()
      ensures kernel == old(kernel)
      ensures var s := Calibration.LsfCalc(kernel, old(lsf), old(kFactor), usedChannels, lagCorr);
        lsf == s.lsf && kFactor == s.kFactor && err == s.failure
    {
      var outcome := CalcLoop(kernel, lsf, kFactor, BandStep(usedChannels, lagCorr));
      lsf, kFactor, err := outcome.lsf, outcome.kFactor, outcome.failure;
    }

    /** `get_LSF`: the kernel, then the LSF profiles from it; an error of either step is passed on. */
    method GetLsf(pearson: Pearson, lagCorr: LagCorr) returns (r: Result<seq<LsfEntry>>)
      requires Valid()
      modifies this
      ensures Valid()
      ensures r == Estimate(data, shape, usedChannels, old(lsf), old(kFactor), pearson, lagCorr)
      ensures match CubeKernel(data, shape, usedChannels, pearson)
        case Ok(k) =>
          var s := Calibration.LsfCalc(k, old(lsf), old(kFactor), usedChannels, lagCorr);
          kernel == k && lsf == s.lsf && kFactor == s.kFactor
        case Err(_) => kernel == old(kernel) && lsf == old(lsf) && kFactor == old(kFactor)
    {
      var err := CubeCorrKernel(pearson);
      if err.Some? {
        return Err(err.value);
      }
      err := LsfCalc(lagCorr);
      if err.Some? {
        return Err(err.value);
      }
      r := Ok(lsf);
    }

    /** `save_LSF(path_destino, format = '.3f', write = True)` on the current `LSF`. */
    function SaveLsf(path: string, format: string := ".3f", write: bool := true): (r: SaveOutcome)
      reads this
      requires Valid()
      ensures r.NotReady? <==> lsf == Sentinel
      ensures r.Saved? ==> lsf == [Profile(r.table.lsf50), Profile(r.table.lsf16), Profile(r.table.lsf84)]
      ensures r.Saved? ==> r.table.file == path + "_LSF.dat" && r.table.written == write
    {
      SaveTable(lsf, usedChannels, path, format, write)
    }
  }

  /**
   * The table `save_LSF` builds: the channel column `-w+1 .. w-1`, then `LSF[0]`, `LSF[1]` and
   * `LSF[2]` under the names `LSF_50`, `LSF_16` and `LSF_84`, each printed with `format`.
   * `file` is the name it is written to, `written` whether it was.
   */
  datatype Table = Table(channels: seq<int>, lsf50: seq<real>, lsf16: seq<real>, lsf84: seq<real>,
                         format: string, file: string, written: bool)

  /** `save_LSF` refuses before any estimation, returns the table, or fails to build it. */
  datatype SaveOutcome = NotReady | Saved(table: Table) | Failed(error: Error)

  /** The three LSF slots hold profiles as long as the channel column of `w` lags. */
  predicate Tabulable(lsf: seq<LsfEntry>, w: nat)
    requires |lsf| == 3
  {
    forall b :: 0 <= b < 3 ==> lsf[b].Profile? && |lsf[b].values| == |ChannelAxis(w)|
  }

  /**
   * `save_LSF` on `LSF = lsf`: the assertion against `[0, 0, 0]` stops it first; a table whose
   * columns differ in length, or hold the placeholder `0`, cannot be built.
   */
  function SaveTable(lsf: seq<LsfEntry>, w: nat, path: string, format: string, write: bool): (r: SaveOutcome)
    requires |lsf| == 3
    ensures r.NotReady? <==> lsf == Sentinel
    ensures r.Saved? <==> lsf != Sentinel && Tabulable(lsf, w)
    ensures r.Failed? ==> r.error == InconsistentColumns
    ensures r.Saved? ==>
      && r.table.channels == ChannelAxis(w)
      && r.table.lsf50 == lsf[0].values && r.table.lsf16 == lsf[1].values && r.table.lsf84 == lsf[2].values
      && |r.table.lsf50| == |r.table.lsf16| == |r.table.lsf84| == |r.table.channels|
      && r.table.format == format && r.table.file == path + "_LSF.dat" && r.table.written == write
  {
    if lsf == Sentinel then NotReady
    else if !Tabulable(lsf, w) then Failed(InconsistentColumns)
    else Saved(Table(ChannelAxis(w), lsf[0].values, lsf[1].values, lsf[2].values, format, path + "_LSF.dat", write))
  }

  /**
   * After a successful estimation the table is built: `2w - 1` rows, the row of channel `c` holds the
   * same values as the row of `-c`, and the row of channel 0 holds 1 for `LSF_50` and 0 for the others.
   */
  lemma SaveAfterEstimate(data: NdArray, shape: seq<nat>, w: nat, lsf: seq<LsfEntry>, kFactor: Option<real>,
                          pearson: Pearson, lagCorr: LagCorr, path: string, format: string, write: bool)
    requires |lsf| == 3 && Estimate(data, shape, w, lsf, kFactor, pearson, lagCorr).Ok?
    ensures var r := Estimate(data, shape, w, lsf, kFactor, pearson, lagCorr).value;
      |r| == 3 && TableOfProfiles(SaveTable(r, w, path, format, write), w)
  {
    EstimateShape(data, shape, w, lsf, kFactor, pearson, lagCorr);
    var r := Estimate(data, shape, w, lsf, kFactor, pearson, lagCorr).value;
    SaveProfiles(r, w, path, format, write);
  }

  /** A saved table of `2w - 1` mirrored rows whose channel-0 row is `(0, 1, 0, 0)`. */
  predicate TableOfProfiles(o: SaveOutcome, w: nat)
  {
    && o.Saved?
    && w >= 1
    && |o.table.channels| == |o.table.lsf50| == |o.table.lsf16| == |o.table.lsf84| == 2 * w - 1
    && (forall i, j :: 0 <= i < 2 * w - 1 && i + j == 2 * w - 2 ==> o.table.channels[i] == -o.table.channels[j])
    && Symmetric(o.table.lsf50) && Symmetric(o.table.lsf16) && Symmetric(o.table.lsf84)
    && o.table.channels[w - 1] == 0
    && o.table.lsf50[w - 1] == 1.0 && o.table.lsf16[w - 1] == 0.0 && o.table.lsf84[w - 1] == 0.0
  }

  /** `SaveAfterEstimate` for any three mirrored profiles of `2w - 1` values with those centres. */
  lemma SaveProfiles(r: seq<LsfEntry>, w: nat, path: string, format: string, write: bool)
    requires w >= 2 && |r| == 3
    requires forall b :: 0 <= b < 3 ==> r[b].Profile? && |r[b].values| == 2 * w - 1 && Symmetric(r[b].values)
    requires r[0].values[w - 1] == 1.0 && r[1].values[w - 1] == 0.0 && r[2].values[w - 1] == 0.0
    ensures TableOfProfiles(SaveTable(r, w, path, format, write), w)
  {
    assert r != Sentinel by { assert r[0] != Zero; }
    assert Tabulable(r, w);
  }

  /** Before any estimation `save_LSF` refuses, and an `LSF_calc` without a kernel changes nothing of that. */
  lemma SaveBeforeEstimate(kFactor: Option<real>, w: nat, lagCorr: LagCorr, path: string, format: string, write: bool)
    ensures SaveTable(Sentinel, w, path, format, write) == NotReady
    ensures SaveTable(Calibration.LsfCalc([], Sentinel, kFactor, w, lagCorr).lsf, w, path, format, write) == NotReady
  {
    LsfCalcWithoutKernel(kFactor, w, lagCorr);
  }

  /**
   * `get_LSF` on a cube whose `LSF` and `k_factor` are `lsf` and `kFactor`: the profiles it
   * returns, or the error it stops with.
   */
  function Estimate(data: NdArray, shape: seq<nat>, w: nat, lsf: seq<LsfEntry>, kFactor: Option<real>,
                    pearson: Pearson, lagCorr: LagCorr): (r: Result<seq<LsfEntry>>)
    requires |lsf| == 3
    ensures r.Ok? ==> CubeKernel(data, shape, w, pearson).Ok? && |r.value| == 3
  {
    var kernel := CubeKernel(data, shape, w, pearson);
    if kernel.Err? then Err(kernel.error)
    else
      CubeKernelShape(data, shape, w, pearson);
      LsfOutcome(kernel.value, lsf, kFactor, w, lagCorr)
  }

  /** The `LSF_calc` half of `get_LSF`: the profiles, or the error that stopped the loop. */
  function LsfOutcome(kernel: seq<seq<real>>, lsf: seq<LsfEntry>, kFactor: Option<real>, w: nat, lagCorr: LagCorr)
    : Result<seq<LsfEntry>>
    requires |kernel| <= |lsf| == 3
  {
    var s := Calibration.LsfCalc(kernel, lsf, kFactor, w, lagCorr);
    if s.failure.Some? then Err(s.failure.value) else Ok(s.lsf)
  }

  /**
   * A successful estimation returns three palindromes of `2w - 1` values: the median profile,
   * centred on 1 (every lag curve starts at 1), then the lower and the upper one, centred on 0.
   */
  lemma EstimateShape(data: NdArray, shape: seq<nat>, w: nat, lsf: seq<LsfEntry>, kFactor: Option<real>,
                      pearson: Pearson, lagCorr: LagCorr)
    requires |lsf| == 3 && Estimate(data, shape, w, lsf, kFactor, pearson, lagCorr).Ok?
    ensures w >= 2
    ensures var r := Estimate(data, shape, w, lsf, kFactor, pearson, lagCorr).value;
      && |r| == 3
      && (forall b :: 0 <= b < 3 ==> r[b].Profile? && |r[b].values| == 2 * w - 1 && Symmetric(r[b].values))
      && r[0].values[w - 1] == 1.0
      && r[1].values[w - 1] == 0.0
      && r[2].values[w - 1] == 0.0
  {
    CubeKernelShape(data, shape, w, pearson);
    var kernel := CubeKernel(data, shape, w, pearson).value;
    LsfOutcomeShape(kernel, lsf, kFactor, w, lagCorr);
  }

  /** The `LSF_calc` half of `EstimateShape`, for any three-band kernel whose bands start at 1. */
  lemma LsfOutcomeShape(kernel: seq<seq<real>>, lsf: seq<LsfEntry>, kFactor: Option<real>, w: nat, lagCorr: LagCorr)
    requires |kernel| == 3 && |lsf| == 3 && LsfOutcome(kernel, lsf, kFactor, w, lagCorr).Ok?
    requires |kernel[1]| > 0 ==> kernel[1][0] == 1.0
    ensures w >= 2
    ensures var r := LsfOutcome(kernel, lsf, kFactor, w, lagCorr).value;
      && |r| == 3
      && (forall b :: 0 <= b < 3 ==> r[b].Profile? && |r[b].values| == 2 * w - 1 && Symmetric(r[b].values))
      && r[0].values[w - 1] == 1.0
      && r[1].values[w - 1] == 0.0
      && r[2].values[w - 1] == 0.0
  {
    LsfCalcShape(kernel, lsf, kFactor, w, lagCorr);
  }

  /**
   * Once the kernel exists, the estimation never stops at a zero crossing: its bands start at 1,
   * so each is either empty or crosses the half maximum at a positive lag.
   */
  lemma EstimateNoZeroCrossing(data: NdArray, shape: seq<nat>, w: nat, lsf: seq<LsfEntry>, kFactor: Option<real>,
                               pearson: Pearson, lagCorr: LagCorr)
    requires |lsf| == 3 && CubeKernel(data, shape, w, pearson).Ok?
    ensures Estimate(data, shape, w, lsf, kFactor, pearson, lagCorr) != Err(NonPositiveCrossing)
  {
    CubeKernelShape(data, shape, w, pearson);
    var kernel := CubeKernel(data, shape, w, pearson).value;
    StartAtOne(kernel);
    LsfOutcomeNoZeroCrossing(kernel, lsf, kFactor, w, lagCorr);
  }

  /** The `LSF_calc` half of `EstimateNoZeroCrossing`, for any kernel whose bands are empty or start at 1. */
  lemma LsfOutcomeNoZeroCrossing(kernel: seq<seq<real>>, lsf: seq<LsfEntry>, kFactor: Option<real>, w: nat, lagCorr: LagCorr)
    requires |kernel| <= |lsf| == 3
    requires forall i :: 0 <= i < |kernel| ==> kernel[i] == [] || kernel[i][0] == 1.0
    ensures LsfOutcome(kernel, lsf, kFactor, w, lagCorr) != Err(NonPositiveCrossing)
  {
    var s := Calibration.LsfCalc(kernel, lsf, kFactor, w, lagCorr);
    if s.failure.Some? {
      LsfCalcFailure(kernel, lsf, kFactor, w, lagCorr);
      var i :| 0 <= i < |kernel| && BandProfile(kernel[i], i, w, lagCorr) == Err(s.failure.value);
      if kernel[i] != [] {
        NoZeroCrossing(kernel[i], i, w, lagCorr);
      }
    }
  }

  /** Three equal bands that start at 1 when they are not empty: each band is empty or starts at 1. */
  lemma StartAtOne(kernel: seq<seq<real>>)
    requires |kernel| == 3 && |kernel[0]| == |kernel[1]| == |kernel[2]|
    requires |kernel[0]| > 0 ==> kernel[0][0] == kernel[1][0] == kernel[2][0] == 1.0
    ensures forall i :: 0 <= i < |kernel| ==> kernel[i] == [] || kernel[i][0] == 1.0
  {
  }

  /** A cube without pixels has an empty kernel, and the estimation stops at its first band. */
  lemma EstimateEmptyGrid(data: NdArray, shape: seq<nat>, w: nat, lsf: seq<LsfEntry>, kFactor: Option<real>,
                          pearson: Pearson, lagCorr: LagCorr)
    requires |lsf| == 3 && |shape| >= 2 && (shape[|shape| - 2] == 0 || shape[|shape| - 1] == 0)
    ensures CubeKernel(data, shape, w, pearson) == Ok([[], [], []])
    ensures Estimate(data, shape, w, lsf, kFactor, pearson, lagCorr) == Err(EmptyKernel)
  {
    var rows, cols := shape[|shape| - 2], shape[|shape| - 1];
    var f := PixelStep(data, |shape|, w, pearson);
    SweepSucceeds(f, rows, cols);
    assert CubeKernel(data, shape, w, pearson) == Aggregate([]);
    LsfOutcomeEmpty(lsf, kFactor, w, lagCorr);
  }

  /** An empty three-band kernel stops `LSF_calc` at its first band. */
  lemma LsfOutcomeEmpty(lsf: seq<LsfEntry>, kFactor: Option<real>, w: nat, lagCorr: LagCorr)
    requires |lsf| == 3
    ensures LsfOutcome([[], [], []], lsf, kFactor, w, lagCorr) == Err(EmptyKernel)
  {
    var kernel: seq<seq<real>> := [[], [], []];
    var bands := Bands(kernel, w, lagCorr);
    var start := CalcState(lsf, kFactor, None);
    BandsAt(kernel, w, lagCorr, 0);
    CrossingsEarlyErrors([], 0, w, lagCorr);
    assert CalcBands(bands, 1, start).failure == Some(EmptyKernel);
    CalcBandsStops(bands, 1, 3, start);
  }

  /**
   * The loop of `LSF_calc` over the bands, then the swap of `LSF[0]` and `LSF[1]`: the state it
   * leaves in `LSF` and `k_factor`, and the error that stopped it. `step(band, idx)` is one pass.
   */
  method CalcLoop(kernel: seq<seq<real>>, lsf0: seq<LsfEntry>, kFactor0: Option<real>, step: (seq<real>, nat) -> Result<Band>)
    returns (s: CalcState)
    requires |kernel| <= |lsf0| == 3
    ensures s == RunBands(Enumerate(kernel, |kernel|, step), lsf0, kFactor0)
  {
    ghost var bands := Enumerate(kernel, |kernel|, step);
    ghost var start := CalcState(lsf0, kFactor0, None);
    var lsf, kFactor := lsf0, kFactor0;
    var idx := 0;
    while idx < |kernel|
      invariant idx <= |kernel| && |lsf| == 3
      invariant CalcBands(bands, idx, start) == CalcState(lsf, kFactor, None)
    {
      var band := step(kernel[idx], idx);
      EnumerateAt(kernel, |kernel|, step, idx);
      if band.Err? {
        CalcBandsStops(bands, idx + 1, |bands|, start);
        return CalcState(lsf, kFactor, Some(band.error));
      }
      kFactor := Some(band.value.k);
      lsf := lsf[idx := Profile(band.value.profile)];
      idx := idx + 1;
    }
    lsf := lsf[0 := lsf[1]][1 := lsf[0]];
    s := CalcState(lsf, kFactor, None);
  }

  /** The loops of `cube_corr_kernel` over `y0` and `x0`: one lag curve per pixel, or the first error. */
  method SweepCurves(data: NdArray, dim: nat, rows: nat, cols: nat, w: nat, pearson: Pearson)
    returns (r: Result<seq<seq<Val>>>)
    ensures r == Sweep(PixelStep(data, dim, w, pearson), rows, cols)
  {
    r := SweepPixels(PixelStep(data, dim, w, pearson), rows, cols);
  }

  /** Rows outer, columns inner, each pixel's result appended in turn; the first error stops both loops. */
  method SweepPixels<T>(f: (nat, nat) -> Result<T>, rows: nat, cols: nat) returns (r: Result<seq<T>>)
    ensures r == Sweep(f, rows, cols)
  {
    var values: seq<T> := [];
    var y := 0;
    while y < rows
      invariant y <= rows
      invariant Sweep(f, y, cols) == Ok(values)
    {
      ghost var before := values;
      var x := 0;
      while x < cols
        invariant x <= cols
        invariant Row(f, y, x).Ok? && values == before + Row(f, y, x).value
      {
        var result := f(y, x);
        RowNext(f, y, x);
        if result.Err? {
          RowErrorStays(f, y, x + 1, cols);
          SweepErrorStays(f, y + 1, rows, cols);
          return Err(result.error);
        }
        values := values + [result.value];
        x := x + 1;
      }
      SweepNext(f, y, cols);
      y := y + 1;
    }
    r := Ok(values);
  }

  /**
   * The loop of `cube_corr_kernel` over the lag columns: NaN dropped, then the 16th, 50th and 84th
   * percentiles appended to `y_down`, `y_mean` and `y_up`; a column with nothing left stops it.
   */
  method PercentileBands(columns: seq<seq<Val>>) returns (r: Result<seq<seq<real>>>)
    ensures r == Aggregate(columns)
  {
    var yDown, yMean, yUp := [], [], [];
    var c := 0;
    while c < |columns|
      invariant c <= |columns|
      invariant AggregateBy(columns[..c], Levels) == Ok([yDown, yMean, yUp])
    {
      assert columns[..c + 1][..c] == columns[..c];
      var finite := DropNaN(columns[c]);
      if finite == [] {
        AggregateBySucceeds(columns, Levels);
        return Err(EmptyColumn);
      }
      var (down, mean, up) := Levels(finite);
      yDown := yDown + [down];
      yMean := yMean + [mean];
      yUp := yUp + [up];
      c := c + 1;
    }
    assert columns[..c] == columns;
    r := Ok([yDown, yMean, yUp]);
  }
}
