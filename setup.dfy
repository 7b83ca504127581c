// Argument checks of bobyqa(): fixed-parameter detection, the map from
// fitted to full parameters, the choice and range check of npt, the initial
// trust-region radius and the adjustment of the start point to the bounds.
module Setup {
  import opened Common

  /** The three bound/step vectors of the full parameter list have one entry
      per parameter. */
  predicate Shaped(lower: seq<real>, upper: seq<real>, delta: Option<seq<real>>)
  {
    |upper| == |lower| && (delta.Some? ==> |delta.value| == |lower|)
  }

  /** fixed_params's test on parameter i: an empty or inverted range, or a
      zero step when steps are given. */
  predicate IsFixed(lower: seq<real>, upper: seq<real>, delta: Option<seq<real>>, i: int)
    requires Shaped(lower, upper, delta) && 0 <= i < |lower|
  {
    upper[i] <= lower[i] || (delta.Some? && delta.value[i] == 0.0)
  }

  /** The fixed parameters among the first k. */
  ghost function FixedIndices(lower: seq<real>, upper: seq<real>, delta: Option<seq<real>>, k: nat): set<int>
    requires Shaped(lower, upper, delta) && k <= |lower|
  {
    set i | 0 <= i < k && IsFixed(lower, upper, delta, i)
  }

  /** fixed_params: the number of parameters that are not to be fitted. */
  method FixedParams(lower: seq<real>, upper: seq<real>, delta: Option<seq<real>>) returns (fixedN: int)
    requires Shaped(lower, upper, delta)
    ensures fixedN == |FixedIndices(lower, upper, delta, |lower|)|
    ensures 0 <= fixedN <= |lower|
  {
    fixedN := 0;
    var i := 0;
    while i < |lower|
      invariant 0 <= i <= |lower|
      invariant fixedN == |FixedIndices(lower, upper, delta, i)|
      invariant fixedN <= i
    {
      ghost var before := FixedIndices(lower, upper, delta, i);
      if upper[i] <= lower[i] {
        assert FixedIndices(lower, upper, delta, i + 1) == before + {i};
        fixedN := fixedN + 1;
      } else if delta.Some? && delta.value[i] == 0.0 {
        assert FixedIndices(lower, upper, delta, i + 1) == before + {i};
        fixedN := fixedN + 1;
      } else {
        assert FixedIndices(lower, upper, delta, i + 1) == before;
      }
      i := i + 1;
    }
  }

  /** bobyqa_set_optimization's test for a parameter to be fitted. */
  predicate IsFree(dx: seq<real>, xl: seq<real>, xu: seq<real>, i: int)
    requires |xl| == |dx| && |xu| == |dx| && 0 <= i < |dx|
  {
    dx[i] != 0.0 && xu[i] > xl[i]
  }

  /** The positions, in increasing order, of the fitted parameters among the
      first k: the list that bobyqa_set_optimization stores in xplace. */
  function FreeIndices(dx: seq<real>, xl: seq<real>, xu: seq<real>, k: nat): (p: seq<int>)
    requires |xl| == |dx| && |xu| == |dx| && k <= |dx|
    ensures |p| <= k
    ensures forall j :: 0 <= j < |p| ==> 0 <= p[j] < k && IsFree(dx, xl, xu, p[j])
  {
    if k == 0 then []
    else FreeIndices(dx, xl, xu, k - 1) + (if IsFree(dx, xl, xu, k - 1) then [k - 1] else [])
  }

  /** A strictly increasing list of positions below bound. */
  predicate IncreasingBelow(p: seq<int>, bound: int)
  {
    (forall j :: 0 <= j < |p| ==> 0 <= p[j] < bound)
    && (forall i, j :: 0 <= i < j < |p| ==> p[i] < p[j])
  }

  /** xplace holds exactly the fitted parameters, each once, in increasing
      order. */
  lemma {:induction false} FreeIndicesExact(dx: seq<real>, xl: seq<real>, xu: seq<real>, k: nat)
    requires |xl| == |dx| && |xu| == |dx| && k <= |dx|
    ensures IncreasingBelow(FreeIndices(dx, xl, xu, k), k)
    ensures forall i :: 0 <= i < k ==> (i in FreeIndices(dx, xl, xu, k) <==> IsFree(dx, xl, xu, i))
  {
    if k > 0 {
      FreeIndicesExact(dx, xl, xu, k - 1);
    }
  }

  /** With the steps given, the fitted parameters are exactly the ones
      fixed_params does not count, so xplace has n - fixed_n entries. */
  lemma {:induction false} FreeAndFixedPartition(dx: seq<real>, xl: seq<real>, xu: seq<real>, k: nat)
    requires |xl| == |dx| && |xu| == |dx| && k <= |dx|
    ensures |FreeIndices(dx, xl, xu, k)| + |FixedIndices(xl, xu, Some(dx), k)| == k
  {
    if k > 0 {
      FreeAndFixedPartition(dx, xl, xu, k - 1);
      var before := FixedIndices(xl, xu, Some(dx), k - 1);
      if IsFree(dx, xl, xu, k - 1) {
        assert FixedIndices(xl, xu, Some(dx), k) == before;
      } else {
        assert FixedIndices(xl, xu, Some(dx), k) == before + {k - 1};
      }
    }
  }

  /** The admissible range of npt for fitted_n free parameters. */
  predicate NptInRange(npt: int, fittedN: int)
  {
    fittedN + 2 <= npt <= (fittedN + 2) * (fittedN + 1) / 2
  }

  /** The npt that bobyqa uses: 2*fitted_n+1 when the caller gives none,
      and no value (INVALID_ARGS) when the choice is out of range. */
  function CheckedNpt(npt: int, fittedN: int): (r: Option<int>)
    ensures r.Some? ==> NptInRange(r.value, fittedN)
    ensures npt > 0 ==> (r.Some? <==> NptInRange(npt, fittedN)) && (r.Some? ==> r.value == npt)
  {
    var chosen := if npt <= 0 then 2 * fittedN + 1 else npt;
    if NptInRange(chosen, fittedN) then Some(chosen) else None
  }

  /** The default npt always passes the range check. */
  lemma DefaultNptPasses(npt: int, fittedN: int)
    requires npt <= 0 && fittedN >= 1
    ensures CheckedNpt(npt, fittedN) == Some(2 * fittedN + 1)
  {
    var f := fittedN;
    assert (f + 2) * (f + 1) == f * f + 3 * f + 2;
    assert f * f >= f;
    assert (f + 2) * (f + 1) >= 2 * (2 * f + 1);
  }

  /** The smallest gap xu[j] - xl[j] over the first k fitted parameters. */
  function MinGap(xl: seq<real>, xu: seq<real>, k: nat): (dm: real)
    requires 1 <= k <= |xl| && |xu| == |xl|
    ensures dm <= xu[0] - xl[0] && dm <= xu[k - 1] - xl[k - 1]
  {
    if k == 1 then xu[0] - xl[0]
    else Min(MinGap(xl, xu, k - 1), xu[k - 1] - xl[k - 1])
  }

  /** MinGap is a lower bound of every gap, and attained. */
  lemma {:induction false} MinGapIsMinimum(xl: seq<real>, xu: seq<real>, k: nat)
    requires 1 <= k <= |xl| && |xu| == |xl|
    ensures forall j :: 0 <= j < k ==> MinGap(xl, xu, k) <= xu[j] - xl[j]
    ensures exists j :: 0 <= j < k && MinGap(xl, xu, k) == xu[j] - xl[j]
  {
    if k == 1 {
      assert MinGap(xl, xu, k) == xu[0] - xl[0];
    } else {
      MinGapIsMinimum(xl, xu, k - 1);
      if MinGap(xl, xu, k) == xu[k - 1] - xl[k - 1] {
        assert 0 <= k - 1 < k;
      }
    }
  }

  /** The initial radius rhobeg for the smallest gap dm: 1 when it fits twice
      into every gap, half the smallest gap otherwise, and no value
      (INVALID_ARGS) when that gap is 1e-20 or less. */
  function InitialRhobeg(dm: real): (r: Option<real>)
    ensures r.None? <==> dm <= 1.0e-20
    ensures r.Some? ==> 0.0 < r.value <= 1.0 && 2.0 * r.value <= dm
    ensures r.Some? ==> r.value == 1.0 || r.value == 0.5 * dm
  {
    if dm < 2.0 * 1.0 then
      if dm > 1.0e-20 then Some(0.5 * dm) else None
    else Some(1.0)
  }

  /** rhoend as given, or xtol_rel * rhobeg when the caller gives none.
      The default lies strictly between 0 and rhobeg whenever xtol_rel is
      in (0, 1), so it passes the checks of the single-parameter search. */
  function InitialRhoend(rhoend: real, xtolRel: real, rhobeg: real): (r: real)
    ensures rhoend > 0.0 ==> r == rhoend
    ensures r > 0.0 <==> rhoend > 0.0 || xtolRel * rhobeg > 0.0
    ensures rhoend <= 0.0 && 0.0 < xtolRel < 1.0 && rhobeg > 0.0 ==> 0.0 < r < rhobeg
  {
    if rhoend > 0.0 then rhoend else xtolRel * rhobeg
  }

  /** One fitted parameter after the start-point adjustment: its value and
      the bounds sl, su on moves from it. */
  datatype StartPoint = StartPoint(x: real, sl: real, su: real)

  /** The start-point adjustment of one fitted parameter. A start within
      rhobeg of a bound is moved onto that bound or to rhobeg from it, so that
      each bound is either met exactly or at least rhobeg away. */
  function AdjustStart(x: real, xl: real, xu: real, rhobeg: real): (p: StartPoint)
    requires 0.0 < rhobeg && 2.0 * rhobeg <= xu - xl
    ensures xl <= p.x <= xu
    ensures p.sl == xl - p.x && p.su == xu - p.x
    ensures p.sl == 0.0 || p.sl <= -rhobeg
    ensures p.su == 0.0 || p.su >= rhobeg
    ensures xl - x < -rhobeg && xu - x > rhobeg ==> p.x == x
  {
    var d := xu - xl;
    var sl := xl - x;
    var su := xu - x;
    if sl >= -rhobeg then
      if sl >= 0.0 then StartPoint(xl, 0.0, d)
      else StartPoint(xl + rhobeg, -rhobeg, Max(xu - (xl + rhobeg), rhobeg))
    else if su <= rhobeg then
      if su <= 0.0 then StartPoint(xu, -d, 0.0)
      else StartPoint(xu - rhobeg, Min(xl - (xu - rhobeg), -rhobeg), rhobeg)
    else StartPoint(x, sl, su)
  }
}
