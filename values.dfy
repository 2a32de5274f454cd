/** Scalar values, errors and results shared by the whole model. */
module Values {

  /** A float sample of the cube: a finite number or NaN. */
  datatype Val = Num(r: real) | NaN

  /** The exceptions the pipeline can raise, one constructor per cause. */
  datatype Error =
    | TooFewAxes          // `(y, x) = shape[-2:]` on an array with fewer than two axes
    | NoLength            // `len()` of a numpy scalar
    | IndexOutOfRange     // `array[0]` of an empty array, or an index past an axis
    | TooManyIndices      // an index tuple longer than the array has axes
    | NotOneDimensional   // the peeled trace still has more than one axis
    | EmptyColumn         // a percentile of a lag column whose entries are all NaN
    | LengthMismatch      // interp1d with x and y of different lengths
    | TooFewPoints        // interp1d with fewer than two points
    | BelowRange          // the queried 0.5 is below the interpolation range
    | AboveRange          // the queried 0.5 is above the interpolation range
    | NanInReference      // the simulated correlation curve holds a NaN
    | NonPositiveCrossing // a half-maximum crossing at lag 0, so k is 0 or undefined
    | EmptyKernel         // `np.convolve` with an empty kernel
    | InconsistentColumns // a table whose columns differ in length

  datatype Result<T> = Ok(value: T) | Err(error: Error)

  datatype Option<T> = None | Some(value: T)

  /** numpy's `nan_to_num` restricted to NaN: NaN becomes 0. */
  function NanToNum(v: Val): (r: real)
    ensures v.Num? ==> r == v.r
    ensures v.NaN? ==> r == 0.0
  {
    match v
    case Num(x) => x
    case NaN => 0.0
  }

  /** `np.nan_to_num` applied to a whole trace. */
  function NanToNumSeq(s: seq<Val>): (r: seq<real>)
    ensures |r| == |s|
    ensures forall i :: 0 <= i < |s| ==> r[i] == NanToNum(s[i])
  {
    seq(|s|, i requires 0 <= i < |s| => NanToNum(s[i]))
  }

  /** The same trace kept only where it holds numbers: `c[~np.isnan(c)]`. */
  function DropNaN(s: seq<Val>): (r: seq<real>)
    ensures |r| <= |s|
    ensures forall x :: x in r <==> Num(x) in s
  {
    if s == [] then []
    else match s[0]
      case NaN => DropNaN(s[1..])
      case Num(x) => [x] + DropNaN(s[1..])
  }

  /**
   * Every number occurs in the filtered trace exactly as often as in the trace: nothing is lost
   * or duplicated, which is all a percentile of the filtered trace depends on.
   */
  lemma {:induction false} DropNaNCounts(s: seq<Val>)
    ensures forall x :: multiset(DropNaN(s))[x] == multiset(s)[Num(x)]
  {
    if s != [] {
      DropNaNCounts(s[1..]);
      assert s == [s[0]] + s[1..];
    }
  }

  /** Filtering a concatenation filters each part: the mask works entry by entry, in order. */
  lemma {:induction false} DropNaNConcat(s: seq<Val>, t: seq<Val>)
    ensures DropNaN(s + t) == DropNaN(s) + DropNaN(t)
  {
    if s == [] {
      assert s + t == t;
    } else {
      assert (s + t)[1..] == s[1..] + t;
      DropNaNConcat(s[1..], t);
    }
  }

  /** A trace without NaN keeps all its numbers, in order. */
  lemma {:induction false} DropNaNNumbers(s: seq<Val>)
    requires AllNum(s)
    ensures DropNaN(s) == Reals(s)
  {
    if s != [] {
      DropNaNNumbers(s[1..]);
      assert Reals(s) == [s[0].r] + Reals(s[1..]);
    }
  }

  predicate AllNum(s: seq<Val>)
  {
    forall i :: 0 <= i < |s| ==> s[i].Num?
  }

  /** The numbers of a NaN-free sequence. */
  function Reals(s: seq<Val>): (r: seq<real>)
    requires AllNum(s)
    ensures |r| == |s|
    ensures forall i :: 0 <= i < |s| ==> Num(r[i]) == s[i]
  {
    seq(|s|, i requires 0 <= i < |s| => s[i].r)
  }

  /** The integers 0 .. n-1 as reals: `range(n)` once numpy has cast it to floats. */
  function Grid(n: nat): (r: seq<real>)
    ensures |r| == n
    ensures forall i :: 0 <= i < n ==> r[i] == i as real
  {
    seq(n, i => i as real)
  }

  function Min(s: seq<real>): (m: real)
    requires |s| > 0
    ensures m in s
    ensures forall i :: 0 <= i < |s| ==> m <= s[i]
  {
    if |s| == 1 then s[0]
    else var rest := Min(s[1..]); if s[0] <= rest then s[0] else rest
  }

  function Max(s: seq<real>): (m: real)
    requires |s| > 0
    ensures m in s
    ensures forall i :: 0 <= i < |s| ==> s[i] <= m
  {
    if |s| == 1 then s[0]
    else var rest := Max(s[1..]); if s[0] >= rest then s[0] else rest
  }
}
