/** The symmetric LSF profile: the mirror construction and the channel-offset axis. */
module Profiles {

  function Abs(i: int): nat
  {
    if i < 0 then -i else i
  }

  /** Python's `y[::-1]`. */
  function Reverse(y: seq<real>): (r: seq<real>)
    ensures |r| == |y| && forall i :: 0 <= i < |y| ==> r[i] == y[|y| - 1 - i]
  {
    seq(|y|, i requires 0 <= i < |y| => y[|y| - 1 - i])
  }

  /** `p` reads the same backwards: entries `i` and `|p| - 1 - i` agree. */
  predicate Symmetric(p: seq<real>)
  {
    forall i, j :: 0 <= i < |p| && i + j == |p| - 1 ==> p[i] == p[j]
  }

  /** `y[::-1] + y[1:]`: the one-sided curve reflected about its lag-0 element. */
  function Mirror(y: seq<real>): (r: seq<real>)
    ensures |y| == 0 ==> r == []
    ensures |y| >= 1 ==> |r| == 2 * |y| - 1
    // a palindrome whose centre (index W-1) is y[0] and whose offset d on either side is y[d]
    ensures Symmetric(r)
    ensures |y| >= 1 ==> r[|y| - 1] == y[0]
    ensures forall d :: 0 <= d < |y| ==> r[|y| - 1 + d] == y[d] && r[|y| - 1 - d] == y[d]
  {
    Reverse(y) + (if |y| == 0 then [] else y[1..])
  }

  /** The right half of a mirrored profile, from its centre on. */
  function RightHalf(r: seq<real>): (h: seq<real>)
    ensures |r| >= 1 ==> |h| == |r| - (|r| - 1) / 2
  {
    if |r| == 0 then [] else r[(|r| - 1) / 2..]
  }

  /** The mirror loses nothing: its right half is the one-sided curve again. */
  lemma MirrorRoundTrip(y: seq<real>)
    ensures RightHalf(Mirror(y)) == y
  {
    if |y| >= 1 {
      var r := Mirror(y);
      assert (|r| - 1) / 2 == |y| - 1;
      assert forall d :: 0 <= d < |y| ==> RightHalf(r)[d] == r[|y| - 1 + d];
    }
  }

  /** `np.arange(-W + 1, W, 1)`: the signed channel offsets of the saved table. */
  function ChannelAxis(w: nat): (a: seq<int>)
    ensures |a| == if w == 0 then 0 else 2 * w - 1
    ensures forall i :: 0 <= i < |a| ==> a[i] == i - w + 1
  {
    if w == 0 then [] else seq(2 * w - 1, i => i - w + 1)
  }

  /** Read against the channel axis, a mirrored profile holds the curve's value at the offset's magnitude. */
  lemma ProfileAtOffset(y: seq<real>, p: nat)
    requires |y| >= 1 && p < 2 * |y| - 1
    ensures Abs(ChannelAxis(|y|)[p]) < |y|
    ensures Mirror(y)[p] == y[Abs(ChannelAxis(|y|)[p])]
  {
  }
}
