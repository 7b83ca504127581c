// The map between the fitted (scaled) parameters and the full parameter
// list: fitted parameter j is full parameter xplace[j], scaled by
// xscale[j]. bobyqa_x_funcval and bobyqa_xfull write x[j]*xscale[j] into
// xfull[xplace[j]] and leave the fixed parameters as they are.
module Scatter {

  /** xplace lists distinct positions of a full list of length nfull, in
      increasing order. */
  predicate Placement(xplace: seq<int>, nfull: int)
  {
    InRange(xplace, nfull) && (forall i, j :: 0 <= i < j < |xplace| ==> xplace[i] < xplace[j])
  }

  /** Every entry of xplace is a position of a full list of length nfull. */
  predicate InRange(xplace: seq<int>, nfull: int)
  {
    forall j :: 0 <= j < |xplace| ==> 0 <= xplace[j] < nfull
  }

  /** The lengths and positions that a scatter of x needs. */
  predicate Fits(xfull: seq<real>, xplace: seq<int>, xscale: seq<real>, x: seq<real>)
  {
    |xplace| == |x| && |xscale| == |x| && InRange(xplace, |xfull|)
  }

  /** The full-list value of a fitted parameter v with scale c. */
  function Scaled(v: real, c: real): real
  {
    v * c
  }

  /** xfull after the writes xfull[xplace[j]] = x[j]*xscale[j] for
      j = 0, 1, ..., k-1 in turn. */
  function ScatterUpTo(xfull: seq<real>, xplace: seq<int>, xscale: seq<real>, x: seq<real>, k: nat): (r: seq<real>)
    requires Fits(xfull, xplace, xscale, x) && k <= |x|
    ensures |r| == |xfull|
  {
    if k == 0 then xfull
    else ScatterUpTo(xfull, xplace, xscale, x, k - 1)[xplace[k - 1] := Scaled(x[k - 1], xscale[k - 1])]
  }

  /** xfull after all the writes of bobyqa_xfull. */
  function Scatter(xfull: seq<real>, xplace: seq<int>, xscale: seq<real>, x: seq<real>): (r: seq<real>)
    requires Fits(xfull, xplace, xscale, x)
    ensures |r| == |xfull|
  {
    ScatterUpTo(xfull, xplace, xscale, x, |x|)
  }

  /** After the first k writes, each of those parameters is in its place,
      scaled, and every position not written keeps its value. */
  lemma {:induction false} ScatterUpToWrites(xfull: seq<real>, xplace: seq<int>, xscale: seq<real>, x: seq<real>, k: nat)
    requires Fits(xfull, xplace, xscale, x) && Placement(xplace, |xfull|) && k <= |x|
    ensures forall j :: 0 <= j < k ==> ScatterUpTo(xfull, xplace, xscale, x, k)[xplace[j]] == x[j] * xscale[j]
    ensures forall i :: 0 <= i < |xfull| && (forall j :: 0 <= j < k ==> xplace[j] != i)
              ==> ScatterUpTo(xfull, xplace, xscale, x, k)[i] == xfull[i]
  {
    if k > 0 {
      ScatterUpToWrites(xfull, xplace, xscale, x, k - 1);
    }
  }

  /** Each fitted parameter lands in its place, scaled, and every position
      outside xplace keeps its value. */
  lemma ScatterWrites(xfull: seq<real>, xplace: seq<int>, xscale: seq<real>, x: seq<real>)
    requires Fits(xfull, xplace, xscale, x) && Placement(xplace, |xfull|)
    ensures forall j :: 0 <= j < |x| ==> Scatter(xfull, xplace, xscale, x)[xplace[j]] == x[j] * xscale[j]
    ensures forall i :: 0 <= i < |xfull| && i !in xplace ==> Scatter(xfull, xplace, xscale, x)[i] == xfull[i]
  {
    ScatterUpToWrites(xfull, xplace, xscale, x, |x|);
  }

  /** The full list is determined by the fixed parameters and x alone: a
      second scatter overwrites everything the first one wrote. */
  lemma ScatterOverwrite(xfull: seq<real>, xplace: seq<int>, xscale: seq<real>, a: seq<real>, b: seq<real>)
    requires Fits(xfull, xplace, xscale, a) && |b| == |a| && Placement(xplace, |xfull|)
    ensures Scatter(Scatter(xfull, xplace, xscale, a), xplace, xscale, b) == Scatter(xfull, xplace, xscale, b)
  {
    var mid := Scatter(xfull, xplace, xscale, a);
    var lhs := Scatter(mid, xplace, xscale, b);
    var rhs := Scatter(xfull, xplace, xscale, b);
    ScatterWrites(xfull, xplace, xscale, a);
    ScatterWrites(mid, xplace, xscale, b);
    ScatterWrites(xfull, xplace, xscale, b);
    forall i | 0 <= i < |xfull|
      ensures lhs[i] == rhs[i]
    {
      if i in xplace {
        var j :| 0 <= j < |xplace| && xplace[j] == i;
      }
    }
  }
}
