// Clipping of candidate points into their boxes. BOBYQA works with
// displacements from a base point xbase; sl = xl - xbase and su = xu - xbase
// bound the displacements, and every point handed to the objective is
// clipped back into [xl, xu].
module Bounds {
  import opened Common

  /** fmin(fmax(lo, v), hi): the clamp used before each evaluation. */
  function ClampLowFirst(lo: real, hi: real, v: real): (r: real)
    ensures lo <= hi ==> lo <= r <= hi
    ensures lo <= v <= hi ==> r == v
  {
    Min(Max(lo, v), hi)
  }

  /** fmax(lo, fmin(hi, v)): the clamp used on displacements xnew and xalt. */
  function ClampHighFirst(lo: real, hi: real, v: real): (r: real)
    ensures lo <= hi ==> lo <= r <= hi
    ensures lo <= v <= hi ==> r == v
  {
    Max(lo, Min(hi, v))
  }

  /** The two clamps agree on every proper interval. */
  lemma ClampsAgree(lo: real, hi: real, v: real)
    requires lo <= hi
    ensures ClampLowFirst(lo, hi, v) == ClampHighFirst(lo, hi, v)
  {
  }

  /** One coordinate of the point xbase + off handed to the objective by
      bobyqb_xupdate, bobyqb_calc_with_xnew and bobyqa_rescue: the clamp into
      [lo, hi], replaced by lo when off equals sl and then by hi when off
      equals su. */
  function ShiftedClip(lo: real, hi: real, base: real, off: real, sl: real, su: real): (r: real)
    ensures lo <= hi ==> lo <= r <= hi
    ensures off == su ==> r == hi
    ensures off == sl && off != su ==> r == lo
  {
    var c := ClampLowFirst(lo, hi, base + off);
    var c1 := if off == sl then lo else c;
    if off == su then hi else c1
  }

  /** bobyqa_prelim's variant, which tests su only when off differs from sl. */
  function ShiftedClipPrelim(lo: real, hi: real, base: real, off: real, sl: real, su: real): (r: real)
    ensures lo <= hi ==> lo <= r <= hi
    ensures off == sl ==> r == lo
    ensures off == su && off != sl ==> r == hi
  {
    var c := ClampLowFirst(lo, hi, base + off);
    if off == sl then lo else if off == su then hi else c
  }

  /** The two variants differ only when sl == su == off. */
  lemma ClipVariantsAgree(lo: real, hi: real, base: real, off: real, sl: real, su: real)
    requires !(off == sl && off == su)
    ensures ShiftedClip(lo, hi, base, off, sl, su) == ShiftedClipPrelim(lo, hi, base, off, sl, su)
  {
  }

  /** When the displacement bounds are the box shifted by the base point and
      the displacement is feasible, the clip is the identity: the objective is
      evaluated exactly at xbase + off. */
  lemma ShiftedClipExact(lo: real, hi: real, base: real, off: real, sl: real, su: real)
    requires base + sl == lo && base + su == hi && sl <= off <= su
    ensures ShiftedClip(lo, hi, base, off, sl, su) == base + off
    ensures ShiftedClipPrelim(lo, hi, base, off, sl, su) == base + off
  {
  }

  /** x lies componentwise in [lo, hi]. */
  predicate InBox(x: seq<real>, lo: seq<real>, hi: seq<real>)
  {
    |x| == |lo| && |hi| == |lo| && forall i {:trigger x[i]} :: 0 <= i < |x| ==> lo[i] <= x[i] <= hi[i]
  }

  /** Every point of a list lies in the box [lo, hi]. */
  predicate AllInBox(pts: seq<seq<real>>, lo: seq<real>, hi: seq<real>)
  {
    forall j :: 0 <= j < |pts| ==> InBox(pts[j], lo, hi)
  }

  /** Every lower bound is at most its upper bound. */
  predicate ProperBox(lo: seq<real>, hi: seq<real>)
  {
    |hi| == |lo| && forall i :: 0 <= i < |lo| ==> lo[i] <= hi[i]
  }

  /** The displacement bounds sl, su are the box [xl, xu] seen from xbase. */
  predicate ShiftedBounds(xl: seq<real>, xu: seq<real>, xbase: seq<real>, sl: seq<real>, su: seq<real>)
  {
    |xu| == |xl| && |xbase| == |xl| && |sl| == |xl| && |su| == |xl|
    && forall i :: 0 <= i < |xl| ==> xbase[i] + sl[i] == xl[i] && xbase[i] + su[i] == xu[i]
  }

  /** The full point handed to the objective for the displacement off: each
      coordinate is clipped by ShiftedClip. */
  function ClipPoint(xl: seq<real>, xu: seq<real>, xbase: seq<real>, off: seq<real>, sl: seq<real>, su: seq<real>): (x: seq<real>)
    requires |xu| == |xl| && |xbase| == |xl| && |off| == |xl| && |sl| == |xl| && |su| == |xl|
    ensures |x| == |xl|
    ensures ProperBox(xl, xu) ==> InBox(x, xl, xu)
    ensures ShiftedBounds(xl, xu, xbase, sl, su) && InBox(off, sl, su)
            ==> forall i :: 0 <= i < |x| ==> x[i] == xbase[i] + off[i]
  {
    seq(|xl|, i requires 0 <= i < |xl| => ShiftedClip(xl[i], xu[i], xbase[i], off[i], sl[i], su[i]))
  }

  /** The same with bobyqa_prelim's variant of the clip. */
  function ClipPointPrelim(xl: seq<real>, xu: seq<real>, xbase: seq<real>, off: seq<real>, sl: seq<real>, su: seq<real>): (x: seq<real>)
    requires |xu| == |xl| && |xbase| == |xl| && |off| == |xl| && |sl| == |xl| && |su| == |xl|
    ensures |x| == |xl|
    ensures ProperBox(xl, xu) ==> InBox(x, xl, xu)
    ensures ShiftedBounds(xl, xu, xbase, sl, su) && InBox(off, sl, su)
            ==> forall i :: 0 <= i < |x| ==> x[i] == xbase[i] + off[i]
  {
    seq(|xl|, i requires 0 <= i < |xl| => ShiftedClipPrelim(xl[i], xu[i], xbase[i], off[i], sl[i], su[i]))
  }

  /** A feasible displacement from xbase is left in place by the prelim
      clip when the displacement bounds are the box seen from xbase. */
  lemma ClipPrelimExact(xl: seq<real>, xu: seq<real>, xbase: seq<real>, off: seq<real>, sl: seq<real>, su: seq<real>)
    requires ShiftedBounds(xl, xu, xbase, sl, su) && InBox(off, sl, su)
    ensures ClipPointPrelim(xl, xu, xbase, off, sl, su) == Plus(xbase, off)
  {
  }

  /** xbase plus a feasible displacement lies in the box. */
  lemma ShiftedInBox(xl: seq<real>, xu: seq<real>, xbase: seq<real>, sl: seq<real>, su: seq<real>, off: seq<real>)
    requires ShiftedBounds(xl, xu, xbase, sl, su) && InBox(off, sl, su)
    ensures InBox(Plus(xbase, off), xl, xu)
  {
  }

  /** One coordinate of the trust-region step's end point (trsbox_set_xnew):
      on the lower bound when xbdi is -1, on the upper bound when it is 1,
      otherwise xopt + d clamped into [sl, su]. */
  function TrsboxComponent(xbdi: real, xopt: real, d: real, sl: real, su: real): (r: real)
    ensures sl <= su ==> sl <= r <= su
    ensures xbdi == -1.0 ==> r == sl
    ensures xbdi == 1.0 ==> r == su
  {
    if xbdi == -1.0 then sl
    else if xbdi == 1.0 then su
    else Max(Min(xopt + d, su), sl)
  }

  /** One coordinate of the point bobyqa_altmov picks on the line from xopt
      to another interpolation point: xopt + step*(xpt - xopt) clamped into
      [sl, su]. */
  function LineComponent(xopt: real, xk: real, step: real, sl: real, su: real): (r: real)
    ensures sl <= su ==> sl <= r <= su
    ensures sl <= xopt + step * (xk - xopt) <= su ==> r == xopt + step * (xk - xopt)
  {
    ClampHighFirst(sl, su, xopt + step * (xk - xopt))
  }

  /** One coordinate of altmov's constrained Cauchy point XALT: a free
      coordinate (ccstep == bigstp) moves along -step*glag and is clamped, a
      coordinate with no step stays at xopt, and the others sit on the bound
      the gradient points away from. The first component is the new ccstep. */
  function CauchyComponent(ccstep: real, bigstp: real, step: real, glag: real, xopt: real, sl: real, su: real): (r: (real, real))
    ensures sl <= su && sl <= xopt <= su ==> sl <= r.1 <= su
    ensures ccstep != bigstp ==> r.0 == ccstep
    ensures ccstep == bigstp ==> r.0 == -step * glag
    ensures ccstep != bigstp && ccstep != 0.0 ==> r.1 == sl || r.1 == su
  {
    if ccstep == bigstp then
      var c := -step * glag;
      (c, ClampHighFirst(sl, su, xopt + c))
    else if ccstep == 0.0 then (ccstep, xopt)
    else if glag > 0.0 then (ccstep, sl)
    else (ccstep, su)
  }
}
