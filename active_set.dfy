// The active set of bobyqa_trsbox: xbdi[i] is -1 or 1 when variable i is
// fixed at its lower or upper bound for the trust-region step, 0 when it is
// free, and nact counts the fixed variables.
module ActiveSet {

  /** The number of fixed (nonzero) entries of xbdi. */
  function CountActive(xbdi: seq<real>): (c: nat)
    ensures c <= |xbdi|
  {
    if |xbdi| == 0 then 0
    else CountActive(xbdi[..|xbdi| - 1]) + (if xbdi[|xbdi| - 1] != 0.0 then 1 else 0)
  }

  /** Every entry is -1, 0 or 1. */
  predicate Flags(xbdi: seq<real>)
  {
    forall i :: 0 <= i < |xbdi| ==> xbdi[i] == -1.0 || xbdi[i] == 0.0 || xbdi[i] == 1.0
  }

  /** The initial flag of one variable (bobyqa.c:2605-2608): fixed at a bound
      when xopt sits on it and the gradient points out of the box. */
  function InitialFlag(xopt: real, sl: real, su: real, g: real): (f: real)
    ensures f == -1.0 <==> xopt <= sl && g >= 0.0
    ensures f == 1.0 <==> !(xopt <= sl && g >= 0.0) && xopt >= su && g <= 0.0
    ensures f == -1.0 || f == 0.0 || f == 1.0
  {
    if xopt <= sl && g >= 0.0 then -1.0
    else if xopt >= su && g <= 0.0 then 1.0
    else 0.0
  }

  lemma {:induction false} CountActiveAppend(xbdi: seq<real>, v: real)
    ensures CountActive(xbdi + [v]) == CountActive(xbdi) + (if v != 0.0 then 1 else 0)
  {
    assert (xbdi + [v])[..|xbdi|] == xbdi;
  }

  /** The initialisation loop of bobyqa_trsbox (bobyqa.c:2603-2612). */
  method InitialActiveSet(xopt: seq<real>, sl: seq<real>, su: seq<real>, gopt: seq<real>)
    returns (xbdi: seq<real>, nact: int)
    requires |sl| == |xopt| && |su| == |xopt| && |gopt| == |xopt|
    ensures |xbdi| == |xopt| && Flags(xbdi)
    ensures forall i :: 0 <= i < |xopt| ==> xbdi[i] == InitialFlag(xopt[i], sl[i], su[i], gopt[i])
    ensures nact == CountActive(xbdi)
  {
    xbdi := [];
    nact := 0;
    var i := 0;
    while i < |xopt|
      invariant 0 <= i <= |xopt| && |xbdi| == i
      invariant forall k :: 0 <= k < i ==> xbdi[k] == InitialFlag(xopt[k], sl[k], su[k], gopt[k])
      invariant nact == CountActive(xbdi)
    {
      var flag := 0.0;
      if xopt[i] <= sl[i] && gopt[i] >= 0.0 {
        flag := -1.0;
      } else if xopt[i] >= su[i] && gopt[i] <= 0.0 {
        flag := 1.0;
      }
      CountActiveAppend(xbdi, flag);
      xbdi := xbdi + [flag];
      if flag != 0.0 {
        nact := nact + 1;
      }
      i := i + 1;
    }
  }

  /** Fixing a free variable (bobyqa.c:2691-2693, 2756-2757, 2829) adds one
      to the count: so `nact++` beside each such assignment keeps nact equal
      to the number of fixed variables. */
  lemma {:induction false} FixVariable(xbdi: seq<real>, i: nat, v: real)
    requires i < |xbdi| && xbdi[i] == 0.0 && v != 0.0
    ensures CountActive(xbdi[i := v]) == CountActive(xbdi) + 1
    decreases |xbdi|
  {
    var last := |xbdi| - 1;
    if i == last {
      assert xbdi[i := v][..last] == xbdi[..last];
    } else {
      assert xbdi[i := v][..last] == xbdi[..last][i := v];
      FixVariable(xbdi[..last], i, v);
    }
  }

  /** One fixing step as trsbox performs it: set xbdi[i] to the bound's
      sign and increase nact. */
  function Fix(xbdi: seq<real>, nact: int, i: nat, v: real): (r: (seq<real>, int))
    requires i < |xbdi|
    ensures |r.0| == |xbdi| && r.0[i] == v
    ensures forall k :: 0 <= k < |xbdi| && k != i ==> r.0[k] == xbdi[k]
    ensures nact == CountActive(xbdi) && xbdi[i] == 0.0 && v != 0.0 ==> r.1 == CountActive(r.0)
    ensures Flags(xbdi) && (v == -1.0 || v == 1.0) ==> Flags(r.0)
  {
    if xbdi[i] == 0.0 && v != 0.0 then
      FixVariable(xbdi, i, v);
      (xbdi[i := v], nact + 1)
    else
      (xbdi[i := v], nact + 1)
  }
}
