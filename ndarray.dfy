/** The cube's pixel array, numpy-style index tuples, and the singleton unwrap. */
module NdArrays {
  import opened Values

  /** An n-dimensional array: a scalar, or an axis holding sub-arrays. */
  datatype NdArray = Scalar(v: Val) | Dim(items: seq<NdArray>)

  /** One entry of an index tuple: `slice(None)` or an integer position. */
  datatype Index = All | At(i: nat)

  /** `a` is a regular array whose axes have the lengths `sh` (numpy's `shape`). */
  ghost predicate HasShape(a: NdArray, sh: seq<nat>)
    decreases sh
  {
    if sh == [] then a.Scalar?
    else
      && a.Dim?
      && |a.items| == sh[0]
      && forall i :: 0 <= i < |a.items| ==> HasShape(a.items[i], sh[1..])
  }

  /** A tuple of `n` full slices. */
  function Alls(n: nat): (r: seq<Index>)
    ensures |r| == n && forall i :: 0 <= i < n ==> r[i] == All
  {
    seq(n, _ => All)
  }

  /** An index path as a tuple of integer positions. */
  function Ats(p: seq<nat>): (r: seq<Index>)
    ensures |r| == |p| && forall i :: 0 <= i < |p| ==> r[i] == At(p[i])
  {
    seq(|p|, i requires 0 <= i < |p| => At(p[i]))
  }

  /** All results, or the first error among them. */
  function Collect<T>(rs: seq<Result<T>>): (r: Result<seq<T>>)
    ensures r.Ok? <==> forall i :: 0 <= i < |rs| ==> rs[i].Ok?
    ensures r.Ok? ==> |r.value| == |rs| && forall i :: 0 <= i < |rs| ==> rs[i] == Ok(r.value[i])
  {
    if rs == [] then Ok([])
    else match rs[0]
      case Err(e) => Err(e)
      case Ok(v) =>
        match Collect(rs[1..])
        case Err(e) => Err(e)
        case Ok(vs) => Ok([v] + vs)
  }

  /** numpy basic indexing `a[ix]`: a full slice keeps an axis, an integer drops it. */
  function Select(a: NdArray, ix: seq<Index>): Result<NdArray>
    decreases a
  {
    if ix == [] then Ok(a)
    else match a
      case Scalar(_) => Err(TooManyIndices)
      case Dim(cs) =>
        match ix[0]
        case At(i) => if i < |cs| then Select(cs[i], ix[1..]) else Err(IndexOutOfRange)
        case All =>
          var parts := seq(|cs|, j requires 0 <= j < |cs| => Select(cs[j], ix[1..]));
          match Collect(parts)
          case Err(e) => Err(e)
          case Ok(vs) => Ok(Dim(vs))
  }

  /** `cube_slicer`: `(slice(None),) * (dim - 2) + (y0, x0)`. */
  function CubeSlicer(dim: nat, y0: nat, x0: nat): (r: seq<Index>)
    ensures |r| == if dim < 2 then 2 else dim
    ensures r == Alls(|r| - 2) + Ats([y0, x0])
  {
    Alls(if dim < 2 then 0 else dim - 2) + [At(y0), At(x0)]
  }

  /** Integer positions inside the axes `sh`. */
  predicate InBounds(p: seq<nat>, sh: seq<nat>)
  {
    |p| == |sh| && forall i :: 0 <= i < |p| ==> p[i] < sh[i]
  }

  /** An in-bounds path `q` over the leading axes of `sh` selects a sub-array of the remaining shape. */
  lemma {:induction false} SelectAts(a: NdArray, sh: seq<nat>, q: seq<nat>)
    requires HasShape(a, sh)
    requires |q| <= |sh| && InBounds(q, sh[..|q|])
    ensures Select(a, Ats(q)).Ok? && HasShape(Select(a, Ats(q)).value, sh[|q|..])
    decreases q
  {
    if q != [] {
      assert a.items[q[0]] in a.items;
      assert Ats(q)[1..] == Ats(q[1..]);
      assert sh[1..][..|q[1..]|] == sh[..|q|][1..];
      SelectAts(a.items[q[0]], sh[1..], q[1..]);
      assert sh[1..][|q| - 1..] == sh[|q|..];
    }
  }

  /**
   * Full slices over the first `n` axes followed by integer positions `q` over the rest
   * give an array of the leading shape whose element at `p` is the element of `a` at `p + q`.
   */
  lemma {:induction false} SelectSlices(a: NdArray, sh: seq<nat>, n: nat, q: seq<nat>)
    requires HasShape(a, sh)
    requires n + |q| == |sh| && InBounds(q, sh[n..])
    ensures Select(a, Alls(n) + Ats(q)).Ok?
    ensures HasShape(Select(a, Alls(n) + Ats(q)).value, sh[..n])
    ensures forall p :: InBounds(p, sh[..n]) ==>
      Select(Select(a, Alls(n) + Ats(q)).value, Ats(p)) == Select(a, Ats(p + q))
    decreases n
  {
    if n == 0 {
      assert Alls(0) + Ats(q) == Ats(q);
      assert sh[0..] == sh && sh[..|q|] == sh;
      SelectAts(a, sh, q);
      forall p | InBounds(p, sh[..0]) ensures Select(Select(a, Ats(q)).value, Ats(p)) == Select(a, Ats(p + q)) {
        assert p == [] && p + q == q;
      }
    } else {
      var cs := a.items;
      var rest := Alls(n - 1) + Ats(q);
      assert Alls(n) + Ats(q) == [All] + rest;
      assert sh[1..][n - 1..] == sh[n..];
      assert sh[1..][..n - 1] == sh[..n][1..];
      forall j | 0 <= j < |cs| ensures Select(cs[j], rest).Ok? {
        SelectSlices(cs[j], sh[1..], n - 1, q);
      }
      SelectAll(cs, rest);
      var vs := Select(a, [All] + rest).value.items;
      forall j | 0 <= j < |vs|
        ensures HasShape(vs[j], sh[..n][1..])
        ensures forall p :: InBounds(p, sh[..n][1..]) ==> Select(vs[j], Ats(p)) == Select(cs[j], Ats(p + q))
      {
        SelectSlices(cs[j], sh[1..], n - 1, q);
      }
      assert HasShape(Dim(vs), sh[..n]);
      forall p | InBounds(p, sh[..n]) ensures Select(Dim(vs), Ats(p)) == Select(a, Ats(p + q)) {
        SelectAtHead(Dim(vs), p);
        SelectAtHead(a, p + q);
        TailOfConcat(p, q);
        assert InBounds(p[1..], sh[..n][1..]);
      }
    }
  }

  lemma TailOfConcat<T>(p: seq<T>, q: seq<T>)
    requires p != []
    ensures (p + q)[0] == p[0] && (p + q)[1..] == p[1..] + q
  {
  }

  /** A full slice over an axis whose entries all select keeps the axis, entry by entry. */
  lemma SelectAll(cs: seq<NdArray>, rest: seq<Index>)
    requires forall j :: 0 <= j < |cs| ==> Select(cs[j], rest).Ok?
    ensures Select(Dim(cs), [All] + rest).Ok?
    ensures var v := Select(Dim(cs), [All] + rest).value;
      v.Dim? && |v.items| == |cs| && forall j :: 0 <= j < |cs| ==> Select(cs[j], rest) == Ok(v.items[j])
  {
    assert ([All] + rest)[0] == All && ([All] + rest)[1..] == rest;
  }

  /** An integer position first selects an entry of the axis, the rest of the path selects inside it. */
  lemma SelectAtHead(a: NdArray, p: seq<nat>)
    requires a.Dim? && p != [] && p[0] < |a.items|
    ensures Select(a, Ats(p)) == Select(a.items[p[0]], Ats(p[1..]))
  {
    assert Ats(p)[0] == At(p[0]) && Ats(p)[1..] == Ats(p[1..]);
  }

  /** `cube_slicer(y0, x0)` applied to a pixel inside the spatial grid keeps every leading axis. */
  lemma PixelSlice(a: NdArray, sh: seq<nat>, y0: nat, x0: nat)
    requires HasShape(a, sh) && |sh| >= 2
    requires y0 < sh[|sh| - 2] && x0 < sh[|sh| - 1]
    ensures Select(a, CubeSlicer(|sh|, y0, x0)).Ok?
    ensures HasShape(Select(a, CubeSlicer(|sh|, y0, x0)).value, sh[..|sh| - 2])
    ensures forall p :: InBounds(p, sh[..|sh| - 2]) ==>
      Select(Select(a, CubeSlicer(|sh|, y0, x0)).value, Ats(p)) == Select(a, Ats(p + [y0, x0]))
  {
    assert InBounds([y0, x0], sh[|sh| - 2..]);
    SelectSlices(a, sh, |sh| - 2, [y0, x0]);
  }

  /** `array_check`: unwrap length-one axes until an axis longer than one is reached. */
  function ArrayCheck(a: NdArray): (r: Result<NdArray>)
    ensures r.Ok? ==> r.value.Dim? && |r.value.items| > 1
    ensures a.Dim? && |a.items| > 1 ==> r == Ok(a)
    decreases a
  {
    match a
    case Scalar(_) => Err(NoLength)
    case Dim(cs) =>
      if |cs| > 1 then Ok(a)
      else if |cs| == 0 then Err(IndexOutOfRange)
      else ArrayCheck(cs[0])
  }

  /** Number of leading axes of length one. */
  function LeadingUnits(sh: seq<nat>): (k: nat)
    ensures k <= |sh|
    ensures forall i :: 0 <= i < k ==> sh[i] == 1
    ensures k < |sh| ==> sh[k] != 1
  {
    if sh == [] || sh[0] != 1 then 0 else 1 + LeadingUnits(sh[1..])
  }

  /**
   * On a regular array `array_check` is an axis squeeze: it drops the leading unit axes,
   * returns the rest when the next axis is longer than one, and fails otherwise.
   */
  lemma {:induction false} ArrayCheckSqueezes(a: NdArray, sh: seq<nat>)
    requires HasShape(a, sh)
    ensures var k := LeadingUnits(sh);
      if k == |sh| then ArrayCheck(a) == Err(NoLength)
      else if sh[k] == 0 then ArrayCheck(a) == Err(IndexOutOfRange)
      else ArrayCheck(a).Ok? && HasShape(ArrayCheck(a).value, sh[k..])
    decreases sh
  {
    if sh != [] && sh[0] == 1 {
      assert a.items[0] in a.items;
      ArrayCheckSqueezes(a.items[0], sh[1..]);
      assert sh[1..][LeadingUnits(sh[1..])..] == sh[LeadingUnits(sh)..];
    }
  }

  /** The values of a one-dimensional array, which is what `cube_correlation` expects. */
  function ToTrace(b: NdArray): (r: Result<seq<Val>>)
    ensures r.Ok? <==> b.Dim? && forall i :: 0 <= i < |b.items| ==> b.items[i].Scalar?
    ensures r.Ok? ==> |r.value| == |b.items|
    ensures r.Ok? ==> forall i :: 0 <= i < |b.items| ==> b.items[i] == Scalar(r.value[i])
  {
    match b
    case Scalar(_) => Err(NotOneDimensional)
    case Dim(cs) =>
      if forall i :: 0 <= i < |cs| ==> cs[i].Scalar? then Ok(seq(|cs|, i requires 0 <= i < |cs| => cs[i].v))
      else Err(NotOneDimensional)
  }
}
