/**
 * Lag correlation of one spectral trace (`Cube.cube_correlation`) and of the simulated
 * reference spectrum (`Spectrum.get_correlation`). The Pearson coefficient, the random
 * flux and the convolution are parameters: only the lag structure is modelled.
 */
module Correlation {
  import opened Values

  /** Python's `s[:-i]` for a lag `i >= 1`: everything but the last `i` samples. */
  function DropLast(s: seq<real>, i: nat): (r: seq<real>)
    requires i >= 1
    ensures |r| == if i <= |s| then |s| - i else 0
    ensures forall j :: 0 <= j < |r| ==> r[j] == s[j]
  {
    if i <= |s| then s[..|s| - i] else []
  }

  /** Python's `s[i:]`: everything but the first `i` samples. */
  function DropFirst(s: seq<real>, i: nat): (r: seq<real>)
    ensures |r| == if i <= |s| then |s| - i else 0
    ensures forall j :: 0 <= j < |r| ==> r[j] == s[j + i]
  {
    if i <= |s| then s[i..] else []
  }

  /** The two slices compared at lag `i` have one length, and pair sample `j` with sample `j + i`. */
  lemma LagSlicesAligned(s: seq<real>, i: nat)
    requires 1 <= i
    ensures |DropLast(s, i)| == |DropFirst(s, i)|
    ensures i < |s| ==> |DropLast(s, i)| == |s| - i
    ensures forall j :: 0 <= j < |DropLast(s, i)| ==>
      DropLast(s, i)[j] == s[j] && DropFirst(s, i)[j] == s[j + i]
  {
  }

  /**
   * `cube_correlation(spectrum, channels)`: NaN is replaced by 0, lag 0 is fixed to 1, and
   * lag `i` is the Pearson coefficient of the trace against itself shifted by `i`.
   */
  function CubeCorrelation(spectrum: seq<Val>, channels: nat, pearson: (seq<real>, seq<real>) -> Val): (r: seq<Val>)
    ensures |r| == channels
    ensures channels > 0 ==> r[0] == Num(1.0)
    ensures forall i :: 1 <= i < channels ==>
      r[i] == pearson(DropLast(NanToNumSeq(spectrum), i), DropFirst(NanToNumSeq(spectrum), i))
  {
    var s := NanToNumSeq(spectrum);
    seq(channels, i requires 0 <= i < channels => if i == 0 then Num(1.0) else pearson(DropLast(s, i), DropFirst(s, i)))
  }

  /** numpy arrays replace NaN by 0 before any coefficient is taken, so the two traces correlate alike. */
  lemma NanIsZero(spectrum: seq<Val>, channels: nat, pearson: (seq<real>, seq<real>) -> Val)
    ensures CubeCorrelation(spectrum, channels, pearson)
         == CubeCorrelation(seq(|spectrum|, j requires 0 <= j < |spectrum| => Num(NanToNum(spectrum[j]))), channels, pearson)
  {
    var zeroed := seq(|spectrum|, j requires 0 <= j < |spectrum| => Num(NanToNum(spectrum[j])));
    assert NanToNumSeq(zeroed) == NanToNumSeq(spectrum);
  }

  /** The simulated spectrum behind one `Spectrum(total_channels)` object: its size and the band it is drawn for. */
  datatype SimulatedSpectrum = SimulatedSpectrum(totalChannels: nat, draw: nat)

  /** `kernel_correlation`'s default `spect_channels`. */
  const SimulatedChannels: nat := 27583

  /**
   * `Spectrum.get_correlation(kernel, n)`: lag 0 is 1 and lag `i` is the coefficient of the
   * convolved flux against itself shifted by `i`, which `lagCorr` stands for.
   */
  function ReferenceCorrelation(sim: SimulatedSpectrum, kernel: seq<real>, n: nat,
                                lagCorr: (SimulatedSpectrum, seq<real>, nat) -> Val): (r: seq<Val>)
    ensures |r| == n
    ensures n > 0 ==> r[0] == Num(1.0)
    ensures forall i :: 1 <= i < n ==> r[i] == lagCorr(sim, kernel, i)
  {
    seq(n, i requires 0 <= i < n => if i == 0 then Num(1.0) else lagCorr(sim, kernel, i))
  }
}
