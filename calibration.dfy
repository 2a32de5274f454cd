/**
 * `Cube.LSF_calc` and `Cube.kernel_correlation` as specification functions: each kernel band is
 * compared with the correlation curve of a simulated spectrum convolved with the mirrored band,
 * the ratio of the two half-maximum crossings rescales the band's lag axis, and the rescaled
 * band is mirrored into a symmetric LSF profile.
 */
module Calibration {
  import opened Values
  import opened Correlation
  import opened Interpolation
  import opened Profiles

  /** The lag-`i` coefficient of a simulated spectrum convolved with a kernel (`Spectrum.get_correlation`). */
  type LagCorr = (SimulatedSpectrum, seq<real>, nat) -> Val

  /** One calibrated band: its `k_factor` and its mirrored LSF profile. */
  datatype Band = Band(k: real, profile: seq<real>)

  /** An entry of `self.LSF`: the placeholder `0` or a computed profile. */
  datatype LsfEntry = Zero | Profile(values: seq<real>)

  /** `[0, 0, 0]`, the value of `self.LSF` before any estimation. */
  const Sentinel: seq<LsfEntry> := [Zero, Zero, Zero]

  /**
   * `kernel_correlation(band)`: `Spectrum(27583).get_correlation(band[::-1] + band[1:], w)`.
   * Each call draws a fresh spectrum; `draw`, the band index, tells apart the three draws of one
   * `LSF_calc`, but not the draws of two separate calls. `np.convolve` refuses an empty kernel.
   */
  function KernelCorrelation(band: seq<real>, draw: nat, w: nat, lagCorr: LagCorr): (r: Result<seq<Val>>)
    ensures r.Ok? <==> band != []
    ensures r.Err? ==> r.error == EmptyKernel
    ensures r.Ok? ==> |r.value| == w && (w > 0 ==> r.value[0] == Num(1.0))
  {
    if band == [] then Err(EmptyKernel)
    else Ok(ReferenceCorrelation(SimulatedSpectrum(SimulatedChannels, draw), Mirror(band), w, lagCorr))
  }

  /** `y_shifted[0] = 0` for the lower (0) and upper (2) bands; the median band keeps its lag-0 value. */
  function ZeroCentre(shifted: seq<real>, idx: nat): (r: seq<real>)
    requires |shifted| >= 1
    ensures |r| == |shifted| && r[1..] == shifted[1..]
    ensures r[0] == if idx == 0 || idx == 2 then 0.0 else shifted[0]
  {
    if idx == 0 || idx == 2 then shifted[0 := 0.0] else shifted
  }

  /**
   * The two half-maximum crossings of one pass of the `LSF_calc` loop, reference first, on the lag
   * grid `0 .. w-1`. Where numpy would carry NaN or a division by zero forward, the pass stops
   * with an error instead.
   */
  function Crossings(band: seq<real>, idx: nat, w: nat, lagCorr: LagCorr): (r: Result<(real, real)>)
    ensures r.Ok? ==> |band| == w >= 2
    ensures PositiveCrossings(band, r)
  {
    match KernelCorrelation(band, idx, w, lagCorr)
    case Err(e) => Err(e)
    case Ok(reference) =>
      if !AllNum(reference) then Err(NanInReference)
      else
        match HalfMax(Grid(w), Reals(reference))
        case Err(e) => Err(e)
        case Ok(refCrossing) =>
          match HalfMax(Grid(w), band)
          case Err(e) => Err(e)
          case Ok(crossing) =>
            if refCrossing <= 0.0 || crossing <= 0.0 then Err(NonPositiveCrossing)
            else
              CrossingErrors(Grid(w), band, 0.5);
              Ok((refCrossing, crossing))
  }

  /** Both crossings, reference first, are the half-maximum crossings of the reference curve and of the band. */
  lemma CrossingsMeaning(band: seq<real>, idx: nat, w: nat, lagCorr: LagCorr)
    requires Crossings(band, idx, w, lagCorr).Ok?
    ensures var reference := KernelCorrelation(band, idx, w, lagCorr);
      var c := Crossings(band, idx, w, lagCorr).value;
      && reference.Ok? && AllNum(reference.value)
      && HalfMax(Grid(w), Reals(reference.value)) == Ok(c.0)
      && HalfMax(Grid(w), band) == Ok(c.1)
  {
    var reference := KernelCorrelation(band, idx, w, lagCorr);
    assert reference.Ok? && AllNum(reference.value);
    var rc := HalfMax(Grid(w), Reals(reference.value));
    var bc := HalfMax(Grid(w), band);
    assert rc.Ok? && bc.Ok?;
    assert Crossings(band, idx, w, lagCorr) == Ok((rc.value, bc.value));
  }

  /**
   * The rest of one pass once `k_factor` is known: `np.interp(x0, x0 * k, band)` re-reads the band
   * on the `k`-scaled lag axis, the outer bands get a zero centre, and the result is mirrored.
   */
  function Calibrate(band: seq<real>, k: real, idx: nat): (p: seq<real>)
    requires |band| >= 1 && k > 0.0
    ensures |p| == 2 * |band| - 1
  {
    Mirror(ZeroCentre(Remap(band, k), idx))
  }

  /** One pass of the `LSF_calc` loop for band `idx`: `k_factor` is the band's crossing over the reference's. */
  function BandProfile(band: seq<real>, idx: nat, w: nat, lagCorr: LagCorr): (r: Result<Band>)
    ensures r.Ok? <==> Crossings(band, idx, w, lagCorr).Ok?
    ensures r.Ok? ==> |band| == w >= 2 && r.value.k > 0.0 && |r.value.profile| == 2 * w - 1
  {
    Calibrated(band, idx, Crossings(band, idx, w, lagCorr))
  }

  /** The crossings of a band that has them: two positive lags. */
  predicate PositiveCrossings(band: seq<real>, crossings: Result<(real, real)>)
  {
    crossings.Ok? ==> |band| >= 1 && crossings.value.0 > 0.0 && crossings.value.1 > 0.0
  }

  /** A pass once its crossings are known: an error stops it, otherwise `k = crossing / reference` calibrates the band. */
  function Calibrated(band: seq<real>, idx: nat, crossings: Result<(real, real)>): (r: Result<Band>)
    requires PositiveCrossings(band, crossings)
    ensures r.Ok? <==> crossings.Ok?
    ensures r.Err? ==> r.error == crossings.error
    ensures r.Ok? ==> r.value.k > 0.0 && |r.value.profile| == 2 * |band| - 1
    ensures r.Ok? ==> Scales(r.value.k, crossings.value.0, crossings.value.1)
  {
    match crossings
    case Err(e) => Err(e)
    case Ok(c) =>
      var k := Ratio(c.1, c.0);
      RatioScales(c.1, c.0);
      Ok(Band(k, Calibrate(band, k, idx)))
  }

  /** `interpol_correlation / interpol_kernel` for two positive crossings. */
  function Ratio(a: real, b: real): (k: real)
    requires a > 0.0 && b > 0.0
    ensures k > 0.0
  {
    a / b
  }

  /** `k` stretches the lag `from` onto the lag `to`. */
  predicate Scales(k: real, from: real, to: real)
  {
    k * from == to
  }

  /** The ratio scales the divisor onto the dividend. */
  lemma RatioScales(a: real, b: real)
    requires a > 0.0 && b > 0.0
    ensures Scales(Ratio(a, b), b, a)
  {
  }

  /**
   * A calibrated profile is a palindrome of `2|band| - 1` values centred on 0 (outer bands) or on
   * the band's lag-0 value (median band).
   */
  lemma CalibrateShape(band: seq<real>, k: real, idx: nat)
    requires |band| >= 1 && k > 0.0
    ensures var p := Calibrate(band, k, idx);
      && |p| == 2 * |band| - 1
      && Symmetric(p)
      && p[|band| - 1] == (if idx == 0 || idx == 2 then 0.0 else band[0])
  {
    RemapKeepsFirst(band, k);
  }

  /** Away from the centre the profile holds the rescaled band, read at the offset's magnitude. */
  lemma CalibrateOffset(band: seq<real>, k: real, idx: nat, i: nat)
    requires |band| >= 1 && k > 0.0 && i < 2 * |band| - 1 && i != |band| - 1
    ensures Abs(i - (|band| - 1)) < |band|
    ensures Calibrate(band, k, idx)[i] == Remap(band, k)[Abs(i - (|band| - 1))]
  {
    MirroredAt(Remap(band, k), idx, i);
  }

  /** Off the centre, the mirrored curve with a zeroed centre holds the curve at the offset's magnitude. */
  lemma MirroredAt(y: seq<real>, idx: nat, i: nat)
    requires |y| >= 1 && i < 2 * |y| - 1 && i != |y| - 1
    ensures Abs(i - (|y| - 1)) < |y| && Mirror(ZeroCentre(y, idx))[i] == y[Abs(i - (|y| - 1))]
  {
    var w := |y|;
    var z := ZeroCentre(y, idx);
    var d := Abs(i - (w - 1));
    assert z[d] == y[d] by {
      assert z[1..][d - 1] == y[1..][d - 1];
    }
    if i > w - 1 {
      assert i == w - 1 + d;
    } else {
      assert i == w - 1 - d;
    }
  }

  /** Away from the centre the profile stays within the band's range. */
  lemma CalibrateBounded(band: seq<real>, k: real, idx: nat, i: nat)
    requires |band| >= 1 && k > 0.0 && i < 2 * |band| - 1 && i != |band| - 1
    ensures Min(band) <= Calibrate(band, k, idx)[i] <= Max(band)
  {
    CalibrateOffset(band, k, idx, i);
    RemapBounded(band, k);
  }

  /** At offsets of at least `(w-1)·k` the profile holds the band's last value. */
  lemma CalibrateClamped(band: seq<real>, k: real, idx: nat, i: nat)
    requires |band| >= 1 && k > 0.0 && i < 2 * |band| - 1 && i != |band| - 1
    requires Abs(i - (|band| - 1)) as real >= (|band| - 1) as real * k
    ensures Calibrate(band, k, idx)[i] == band[|band| - 1]
  {
    CalibrateOffset(band, k, idx, i);
    RemapClampsTail(band, k);
  }

  /** With `k = 1` (both crossings at the same lag) the band is mirrored unchanged. */
  lemma CalibrateUnscaled(band: seq<real>, idx: nat)
    requires |band| >= 1
    ensures RightHalf(Calibrate(band, 1.0, idx)) == ZeroCentre(band, idx)
  {
    RemapIdentity(band);
    MirrorRoundTrip(ZeroCentre(band, idx));
  }

  /**
   * A calibrated band is a palindrome of `2|band| - 1` values centred on 0 (outer bands) or on
   * the band's lag-0 value (median band).
   */
  lemma CalibratedShape(band: seq<real>, idx: nat, crossings: Result<(real, real)>)
    requires PositiveCrossings(band, crossings) && crossings.Ok?
    ensures var b := Calibrated(band, idx, crossings).value;
      && |b.profile| == 2 * |band| - 1
      && Symmetric(b.profile)
      && b.profile[|band| - 1] == (if idx == 0 || idx == 2 then 0.0 else band[0])
  {
    var c := crossings.value;
    CalibrateShape(band, Ratio(c.1, c.0), idx);
  }

  /** Away from the centre, a calibrated profile holds the band re-read at `k` times the offset's magnitude. */
  lemma CalibratedOffset(band: seq<real>, idx: nat, crossings: Result<(real, real)>, i: nat)
    requires PositiveCrossings(band, crossings) && crossings.Ok?
    requires i < 2 * |band| - 1 && i != |band| - 1
    ensures var b := Calibrated(band, idx, crossings).value;
      && Abs(i - (|band| - 1)) < |band|
      && b.profile[i] == Remap(band, b.k)[Abs(i - (|band| - 1))]
      && Min(band) <= b.profile[i] <= Max(band)
  {
    var c := crossings.value;
    CalibrateOffset(band, Ratio(c.1, c.0), idx, i);
    CalibrateBounded(band, Ratio(c.1, c.0), idx, i);
  }

  /** When the band crosses the half maximum where the reference does, `k = 1` and the band is mirrored unchanged. */
  lemma CalibratedUnscaled(band: seq<real>, idx: nat, crossings: Result<(real, real)>)
    requires PositiveCrossings(band, crossings) && crossings.Ok?
    requires crossings.value.0 == crossings.value.1
    ensures Calibrated(band, idx, crossings).value.k == 1.0
    ensures RightHalf(Calibrated(band, idx, crossings).value.profile) == ZeroCentre(band, idx)
  {
    var a := crossings.value.0;
    assert a > 0.0 && a / a == 1.0;
    assert Ratio(a, a) == 1.0;
    CalibrateUnscaled(band, idx);
  }

  /** The errors that stop a band before any crossing is defined: an empty band, or fewer than two lags. */
  lemma CrossingsEarlyErrors(band: seq<real>, idx: nat, w: nat, lagCorr: LagCorr)
    ensures band == [] ==> Crossings(band, idx, w, lagCorr) == Err(EmptyKernel)
    ensures band != [] && w < 2 ==> Crossings(band, idx, w, lagCorr) == Err(TooFewPoints)
  {
    if band != [] && w < 2 {
      var reference := KernelCorrelation(band, idx, w, lagCorr).value;
      assert AllNum(reference);
      CrossingErrors(Grid(w), Reals(reference), 0.5);
    }
  }

  /** A zero crossing is reported only when both crossings were found and one of them is not positive. */
  lemma NonPositiveCases(band: seq<real>, idx: nat, w: nat, lagCorr: LagCorr)
    requires Crossings(band, idx, w, lagCorr) == Err(NonPositiveCrossing)
    ensures band != [] && AllNum(KernelCorrelation(band, idx, w, lagCorr).value)
    ensures var rc := HalfMax(Grid(w), Reals(KernelCorrelation(band, idx, w, lagCorr).value));
      var bc := HalfMax(Grid(w), band);
      rc.Ok? && bc.Ok? && (rc.value <= 0.0 || bc.value <= 0.0)
  {
    var reference := KernelCorrelation(band, idx, w, lagCorr);
    assert reference.Ok? && AllNum(reference.value);
    var rc := HalfMax(Grid(w), Reals(reference.value));
    var bc := HalfMax(Grid(w), band);
    assert rc.Ok? && bc.Ok?;
  }

  /**
   * A band that does not sit at 0.5 at lag 0 (the kernel bands start at 1) never meets a zero
   * crossing: the reference curve starts at 1 as well, so both crossings lie at positive lags.
   */
  lemma NoZeroCrossing(band: seq<real>, idx: nat, w: nat, lagCorr: LagCorr)
    requires band != [] && band[0] != 0.5
    ensures Crossings(band, idx, w, lagCorr) != Err(NonPositiveCrossing)
  {
    if Crossings(band, idx, w, lagCorr) == Err(NonPositiveCrossing) {
      NonPositiveCases(band, idx, w, lagCorr);
      var ys := Reals(KernelCorrelation(band, idx, w, lagCorr).value);
      CrossingErrors(Grid(w), ys, 0.5);
      assert ys[0] == 1.0;
      HalfMaxPositive(w, ys);
      HalfMaxPositive(w, band);
    }
  }

  /** The state `LSF_calc` leaves behind: `self.LSF`, `self.k_factor`, and the error that stopped it, if any. */
  datatype CalcState = CalcState(lsf: seq<LsfEntry>, kFactor: Option<real>, failure: Option<Error>)

  /** One pass of the loop as a function of the band and its index. */
  function BandStep(w: nat, lagCorr: LagCorr): (seq<real>, nat) -> Result<Band>
  {
    (band: seq<real>, idx: nat) => BandProfile(band, idx, w, lagCorr)
  }

  /** `step(kernel[i], i)` for the first `n` positions, in order (`enumerate`). */
  function Enumerate<T>(kernel: seq<seq<real>>, n: nat, step: (seq<real>, nat) -> T): (r: seq<T>)
    requires n <= |kernel|
    ensures |r| == n
  {
    if n == 0 then [] else Enumerate(kernel, n - 1, step) + [step(kernel[n - 1], n - 1)]
  }

  /** Position `i` holds `step(kernel[i], i)`. */
  lemma {:induction false} EnumerateAt<T>(kernel: seq<seq<real>>, n: nat, step: (seq<real>, nat) -> T, i: nat)
    requires i < n <= |kernel|
    ensures Enumerate(kernel, n, step)[i] == step(kernel[i], i)
  {
    if i < n - 1 {
      EnumerateAt(kernel, n - 1, step, i);
    }
  }

  /** The outcome of every band of the kernel, band `i` calibrated as band `i`. */
  function Bands(kernel: seq<seq<real>>, w: nat, lagCorr: LagCorr): (r: seq<Result<Band>>)
    ensures |r| == |kernel|
  {
    Enumerate(kernel, |kernel|, BandStep(w, lagCorr))
  }

  /** Outcome `i` is band `i` calibrated as band `i`. */
  lemma BandsAt(kernel: seq<seq<real>>, w: nat, lagCorr: LagCorr, i: nat)
    requires i < |kernel|
    ensures Bands(kernel, w, lagCorr)[i] == BandProfile(kernel[i], i, w, lagCorr)
  {
    EnumerateAt(kernel, |kernel|, BandStep(w, lagCorr), i);
  }

  /** The loop over the first `n` band outcomes: band `i` writes `LSF[i]` and `k_factor`; the first error stops it. */
  function CalcBands(bands: seq<Result<Band>>, n: nat, start: CalcState): (s: CalcState)
    requires n <= |bands| <= |start.lsf|
    ensures |s.lsf| == |start.lsf|
  {
    if n == 0 then start
    else
      var s := CalcBands(bands, n - 1, start);
      if s.failure.Some? then s
      else
        match bands[n - 1]
        case Err(e) => s.(failure := Some(e))
        case Ok(b) => s.(lsf := s.lsf[n - 1 := Profile(b.profile)], kFactor := Some(b.k))
  }

  /** `self.LSF[0], self.LSF[1] = self.LSF[1], self.LSF[0]`. */
  function Swap01(lsf: seq<LsfEntry>): (r: seq<LsfEntry>)
    requires |lsf| >= 2
    ensures |r| == |lsf| && r[0] == lsf[1] && r[1] == lsf[0] && r[2..] == lsf[2..]
  {
    lsf[0 := lsf[1]][1 := lsf[0]]
  }

  /** The loop over all band outcomes, then the swap that puts the median profile first. */
  function RunBands(bands: seq<Result<Band>>, lsf: seq<LsfEntry>, kFactor: Option<real>): (s: CalcState)
    requires |bands| <= |lsf| && |lsf| >= 2
    ensures |s.lsf| == |lsf|
  {
    var s := CalcBands(bands, |bands|, CalcState(lsf, kFactor, None));
    if s.failure.None? then s.(lsf := Swap01(s.lsf)) else s
  }

  /** `LSF_calc` as a whole: every band of the kernel in turn, then the swap. */
  function LsfCalc(kernel: seq<seq<real>>, lsf: seq<LsfEntry>, kFactor: Option<real>, w: nat, lagCorr: LagCorr): (s: CalcState)
    requires |kernel| <= |lsf| && |lsf| >= 2
    ensures |s.lsf| == |lsf|
  {
    RunBands(Bands(kernel, w, lagCorr), lsf, kFactor)
  }

  /** The loop fails exactly when one of its bands does, and then with that band's error. */
  lemma {:induction false} CalcBandsFailure(bands: seq<Result<Band>>, n: nat, start: CalcState)
    requires n <= |bands| <= |start.lsf| && start.failure.None?
    ensures CalcBands(bands, n, start).failure.None? <==> forall i :: 0 <= i < n ==> bands[i].Ok?
    ensures CalcBands(bands, n, start).failure.Some? ==>
      exists i :: 0 <= i < n && bands[i] == Err(CalcBands(bands, n, start).failure.value)
  {
    if n > 0 {
      CalcBandsFailure(bands, n - 1, start);
      if CalcBands(bands, n - 1, start).failure.None? && bands[n - 1].Err? {
        assert CalcBands(bands, n, start).failure == Some(bands[n - 1].error);
      }
    }
  }

  /** Once a band has failed, the later passes leave the state as it is. */
  lemma {:induction false} CalcBandsStops(bands: seq<Result<Band>>, n: nat, m: nat, start: CalcState)
    requires n <= m <= |bands| <= |start.lsf|
    requires CalcBands(bands, n, start).failure.Some?
    ensures CalcBands(bands, m, start) == CalcBands(bands, n, start)
    decreases m
  {
    if m > n {
      CalcBandsStops(bands, n, m - 1, start);
    }
  }

  /** A successful loop writes profile `i` into `LSF[i]` for every band and leaves the rest, with `k_factor` from the last band. */
  lemma {:induction false} CalcBandsWrites(bands: seq<Result<Band>>, n: nat, start: CalcState)
    requires n <= |bands| <= |start.lsf| && start.failure.None?
    requires CalcBands(bands, n, start).failure.None?
    ensures forall i :: 0 <= i < n ==> bands[i].Ok?
    ensures forall i :: 0 <= i < n ==> CalcBands(bands, n, start).lsf[i] == Profile(bands[i].value.profile)
    ensures forall i :: n <= i < |start.lsf| ==> CalcBands(bands, n, start).lsf[i] == start.lsf[i]
    ensures CalcBands(bands, n, start).kFactor == if n == 0 then start.kFactor else Some(bands[n - 1].value.k)
  {
    if n > 0 {
      CalcBandsWrites(bands, n - 1, start);
    }
  }

  /**
   * A successful run over three band outcomes `[down, median, up]` holds the median profile first,
   * then the lower and the upper one, and the `k_factor` of the upper band; it succeeds exactly
   * when each band does.
   */
  lemma RunBandsOrder(bands: seq<Result<Band>>, lsf: seq<LsfEntry>, kFactor: Option<real>)
    requires |bands| == 3 && |lsf| == 3
    ensures RunBands(bands, lsf, kFactor).failure.None? <==> bands[0].Ok? && bands[1].Ok? && bands[2].Ok?
    ensures RunBands(bands, lsf, kFactor).failure.None? ==>
      && RunBands(bands, lsf, kFactor).lsf
         == [Profile(bands[1].value.profile), Profile(bands[0].value.profile), Profile(bands[2].value.profile)]
      && RunBands(bands, lsf, kFactor).kFactor == Some(bands[2].value.k)
  {
    var start := CalcState(lsf, kFactor, None);
    CalcBandsFailure(bands, 3, start);
    var s := CalcBands(bands, 3, start);
    if s.failure.None? {
      CalcBandsWrites(bands, 3, start);
      var l := Swap01(s.lsf);
      assert l == [l[0], l[1], l[2]];
    }
  }

  /**
   * A calibrated band has `w >= 2` lags and becomes a palindrome of `2w - 1` values centred on 0
   * (outer bands) or on the band's lag-0 value (median band).
   */
  lemma BandProfileShape(band: seq<real>, idx: nat, w: nat, lagCorr: LagCorr)
    requires BandProfile(band, idx, w, lagCorr).Ok?
    ensures var p := BandProfile(band, idx, w, lagCorr).value.profile;
      && |band| == w >= 2
      && |p| == 2 * w - 1
      && Symmetric(p)
      && p[w - 1] == (if idx == 0 || idx == 2 then 0.0 else band[0])
  {
    CalibratedShape(band, idx, Crossings(band, idx, w, lagCorr));
  }

  /** Band `i` of a kernel, calibrated, is a palindrome of `2w - 1` values, `w >= 2` the band's length. */
  lemma BandsShape(kernel: seq<seq<real>>, w: nat, lagCorr: LagCorr, i: nat)
    requires i < |kernel| && Bands(kernel, w, lagCorr)[i].Ok?
    ensures |kernel[i]| == w >= 2
    ensures Bands(kernel, w, lagCorr)[i].value.k > 0.0
    ensures var p := Bands(kernel, w, lagCorr)[i].value.profile;
      |p| == 2 * w - 1 && Symmetric(p)
  {
    BandsAt(kernel, w, lagCorr, i);
    BandProfileShape(kernel[i], i, w, lagCorr);
  }

  /** The calibrated lower (0) and upper (2) bands of a kernel are centred on 0. */
  lemma OuterBandCentre(kernel: seq<seq<real>>, w: nat, lagCorr: LagCorr, i: nat)
    requires i < |kernel| && Bands(kernel, w, lagCorr)[i].Ok? && (i == 0 || i == 2)
    ensures |kernel[i]| == w >= 2
    ensures var p := Bands(kernel, w, lagCorr)[i].value.profile;
      |p| == 2 * w - 1 && p[w - 1] == 0.0
  {
    BandsAt(kernel, w, lagCorr, i);
    BandProfileShape(kernel[i], i, w, lagCorr);
  }

  /** The calibrated median band (1) of a kernel is centred on its lag-0 value. */
  lemma MedianBandCentre(kernel: seq<seq<real>>, w: nat, lagCorr: LagCorr)
    requires 1 < |kernel| && Bands(kernel, w, lagCorr)[1].Ok?
    ensures |kernel[1]| == w >= 2
    ensures var p := Bands(kernel, w, lagCorr)[1].value.profile;
      |p| == 2 * w - 1 && p[w - 1] == kernel[1][0]
  {
    InnerBandCentre(kernel, w, lagCorr, 1);
  }

  lemma InnerBandCentre(kernel: seq<seq<real>>, w: nat, lagCorr: LagCorr, i: nat)
    requires i < |kernel| && Bands(kernel, w, lagCorr)[i].Ok? && i != 0 && i != 2
    ensures |kernel[i]| == w >= 2
    ensures var p := Bands(kernel, w, lagCorr)[i].value.profile;
      |p| == 2 * w - 1 && p[w - 1] == kernel[i][0]
  {
    BandsAt(kernel, w, lagCorr, i);
    BandProfileShape(kernel[i], i, w, lagCorr);
  }

  /** A band that fails reports the error of its crossings. */
  lemma BandsFailure(kernel: seq<seq<real>>, w: nat, lagCorr: LagCorr, i: nat)
    requires i < |kernel| && Bands(kernel, w, lagCorr)[i].Err?
    ensures Crossings(kernel[i], i, w, lagCorr) == Err(Bands(kernel, w, lagCorr)[i].error)
  {
    BandsAt(kernel, w, lagCorr, i);
  }

  /** A run succeeds exactly when every band does. */
  lemma RunBandsSucceeds(bands: seq<Result<Band>>, lsf: seq<LsfEntry>, kFactor: Option<real>)
    requires |bands| <= |lsf| && |lsf| >= 2
    ensures RunBands(bands, lsf, kFactor).failure.None? <==> forall i :: 0 <= i < |bands| ==> bands[i].Ok?
  {
    CalcBandsFailure(bands, |bands|, CalcState(lsf, kFactor, None));
  }

  /** A calibrated band outcome: positive `k`, and a palindrome of `2w - 1` values centred on `centre`. */
  predicate Calibrates(band: Result<Band>, w: nat, centre: real)
  {
    && band.Ok? && band.value.k > 0.0 && w >= 1
    && |band.value.profile| == 2 * w - 1 && Symmetric(band.value.profile)
    && band.value.profile[w - 1] == centre
  }

  /**
   * A run over three calibrated band outcomes fills all three slots with palindromes of `2w - 1`
   * values, the median band's profile first, and keeps the upper band's `k`.
   */
  lemma RunBandsShape(bands: seq<Result<Band>>, lsf: seq<LsfEntry>, kFactor: Option<real>, w: nat, centre: real)
    requires |bands| == 3 && |lsf| == 3
    requires Calibrates(bands[0], w, 0.0) && Calibrates(bands[1], w, centre) && Calibrates(bands[2], w, 0.0)
    ensures var s := RunBands(bands, lsf, kFactor);
      && s.failure.None?
      && s.kFactor.Some? && s.kFactor.value > 0.0
      && (forall b :: 0 <= b < 3 ==> s.lsf[b].Profile? && |s.lsf[b].values| == 2 * w - 1 && Symmetric(s.lsf[b].values))
      && s.lsf[0].values[w - 1] == centre
      && s.lsf[1].values[w - 1] == 0.0
      && s.lsf[2].values[w - 1] == 0.0
  {
    RunBandsOrder(bands, lsf, kFactor);
  }

  /** Each band of a three-band kernel that calibrates does so around its expected centre. */
  lemma KernelBandsCalibrate(kernel: seq<seq<real>>, w: nat, lagCorr: LagCorr)
    requires |kernel| == 3
    requires forall j :: 0 <= j < 3 ==> Bands(kernel, w, lagCorr)[j].Ok?
    ensures |kernel[0]| == |kernel[1]| == |kernel[2]| == w >= 2
    ensures var bands := Bands(kernel, w, lagCorr);
      Calibrates(bands[0], w, 0.0) && Calibrates(bands[1], w, kernel[1][0]) && Calibrates(bands[2], w, 0.0)
  {
    BandsShape(kernel, w, lagCorr, 0);
    BandsShape(kernel, w, lagCorr, 1);
    BandsShape(kernel, w, lagCorr, 2);
    OuterBandCentre(kernel, w, lagCorr, 0);
    OuterBandCentre(kernel, w, lagCorr, 2);
    MedianBandCentre(kernel, w, lagCorr);
  }

  /**
   * A successful `LSF_calc` over a three-band kernel fills all three slots with palindromes of
   * `2w - 1` values: the median profile first, centred on the median band's lag-0 value, then the
   * lower and the upper profile, centred on 0; `k_factor` is positive.
   */
  lemma LsfCalcShape(kernel: seq<seq<real>>, lsf: seq<LsfEntry>, kFactor: Option<real>, w: nat, lagCorr: LagCorr)
    requires |kernel| == 3 && |lsf| == 3
    requires LsfCalc(kernel, lsf, kFactor, w, lagCorr).failure.None?
    ensures |kernel[0]| == |kernel[1]| == |kernel[2]| == w >= 2
    ensures var s := LsfCalc(kernel, lsf, kFactor, w, lagCorr);
      && s.kFactor.Some? && s.kFactor.value > 0.0
      && (forall b :: 0 <= b < 3 ==> s.lsf[b].Profile? && |s.lsf[b].values| == 2 * w - 1 && Symmetric(s.lsf[b].values))
      && s.lsf[0].values[w - 1] == kernel[1][0]
      && s.lsf[1].values[w - 1] == 0.0
      && s.lsf[2].values[w - 1] == 0.0
  {
    var bands := Bands(kernel, w, lagCorr);
    RunBandsSucceeds(bands, lsf, kFactor);
    KernelBandsCalibrate(kernel, w, lagCorr);
    RunBandsShape(bands, lsf, kFactor, w, kernel[1][0]);
  }

  /** A failed estimation reports the error of one of the bands. */
  lemma LsfCalcFailure(kernel: seq<seq<real>>, lsf: seq<LsfEntry>, kFactor: Option<real>, w: nat, lagCorr: LagCorr)
    requires |kernel| <= |lsf| && |lsf| >= 2
    requires LsfCalc(kernel, lsf, kFactor, w, lagCorr).failure.Some?
    ensures exists i :: 0 <= i < |kernel| && BandProfile(kernel[i], i, w, lagCorr) == Err(LsfCalc(kernel, lsf, kFactor, w, lagCorr).failure.value)
  {
    var bs := Bands(kernel, w, lagCorr);
    CalcBandsFailure(bs, |bs|, CalcState(lsf, kFactor, None));
    var i :| 0 <= i < |kernel| && bs[i] == Err(LsfCalc(kernel, lsf, kFactor, w, lagCorr).failure.value);
    BandsAt(kernel, w, lagCorr, i);
  }

  /**
   * After a successful `LSF_calc` over `[y_down, y_mean, y_up]`, `LSF` is the calibrated median,
   * lower and upper profile in that order, and `k_factor` is the one of the upper band, the last
   * processed. (`BandsAt` names each band's calibration.)
   */
  lemma LsfCalcOrder(kernel: seq<seq<real>>, lsf: seq<LsfEntry>, kFactor: Option<real>, w: nat, lagCorr: LagCorr)
    requires |kernel| == 3 && |lsf| == 3
    requires LsfCalc(kernel, lsf, kFactor, w, lagCorr).failure.None?
    ensures var b := Bands(kernel, w, lagCorr);
      && b[0].Ok? && b[1].Ok? && b[2].Ok?
      && LsfCalc(kernel, lsf, kFactor, w, lagCorr).lsf
         == [Profile(b[1].value.profile), Profile(b[0].value.profile), Profile(b[2].value.profile)]
      && LsfCalc(kernel, lsf, kFactor, w, lagCorr).kFactor == Some(b[2].value.k)
  {
    RunBandsOrder(Bands(kernel, w, lagCorr), lsf, kFactor);
  }

  /** Without a kernel the loop has nothing to do, and swapping the placeholders leaves `[0, 0, 0]`. */
  lemma LsfCalcWithoutKernel(kFactor: Option<real>, w: nat, lagCorr: LagCorr)
    ensures LsfCalc([], Sentinel, kFactor, w, lagCorr) == CalcState(Sentinel, kFactor, None)
  {
  }
}
