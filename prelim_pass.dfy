// The loop of bobyqa_prelim (bobyqa.c:2076-2158) on values: each pass
// makes the next interpolation point, clips xbase plus it into the box,
// hands it to the objective through bobyqa_x_funcval, records the value,
// and stops early when a value is below minf_max or the evaluation budget
// is spent.
module PrelimPass {
  import opened Common
  import opened ResultCodes
  import opened Bounds
  import Prelim
  import Scatter
  import Vectors

  /** The stop tests after an evaluation with value f, the count of
      evaluations being nevals (bobyqa.c:2149-2155): minf_max first, then
      the budget, which maxeval > 0 sets. */
  function Stop(f: real, nevals: int, minfMax: real, maxeval: int): (r: Option<ResultCode>)
    ensures r == None <==> minfMax <= f && (maxeval <= 0 || nevals < maxeval)
    ensures r == Some(MinfMaxReached) <==> f < minfMax
  {
    if f < minfMax then Some(MinfMaxReached)
    else if maxeval > 0 && nevals >= maxeval then Some(MaxevalReached)
    else None
  }

  /** The value that pass k hands back. */
  ghost function PassValue(p: Prelim.Problem, k: int): real
    requires 0 <= k < p.npt
  {
    Prelim.Value(p, Prelim.Point(p, k))
  }

  /** The values handed back by the first k passes, in order. */
  ghost function Values(p: Prelim.Problem, k: int): (s: seq<real>)
    requires 0 <= k <= p.npt
    ensures |s| == k
  {
    if k == 0 then [] else Values(p, k - 1) + [PassValue(p, k - 1)]
  }

  /** Entry i of Values is the value of pass i. */
  lemma {:induction false} ValuesArePassValues(p: Prelim.Problem, k: int)
    requires 0 <= k <= p.npt
    ensures forall i :: 0 <= i < k ==> Values(p, k)[i] == PassValue(p, i)
  {
    if k > 0 {
      ValuesArePassValues(p, k - 1);
    }
  }

  /** How a loop of k passes ends: no pass before the last met a stop
      test, r is the outcome of the tests after the last pass (Success when
      none fired), and a loop that was not stopped made all npt passes. */
  ghost predicate Ends(p: Prelim.Problem, nevals0: int, minfMax: real, maxeval: int, k: int, r: ResultCode)
    requires 0 < k <= p.npt
  {
    (forall i :: 0 <= i < k - 1 ==> Stop(Values(p, k)[i], nevals0 + i + 1, minfMax, maxeval) == None)
    && (var stop := Stop(Values(p, k)[k - 1], nevals0 + k, minfMax, maxeval);
        (stop == None ==> r == Success && k == p.npt) && (stop.Some? ==> r == stop.value))
  }

  /** The points handed to the objective by the first k passes, in order. */
  ghost function Evaluated(p: Prelim.Problem, k: int): (s: seq<seq<real>>)
    requires 0 <= k <= p.npt
    ensures |s| == k
  {
    if k == 0 then [] else Evaluated(p, k - 1) + [Plus(p.xbase, Prelim.Point(p, k - 1))]
  }

  /** Entry i of Evaluated is xbase plus the displacement of point i + 1. */
  lemma {:induction false} EvaluatedPoints(p: Prelim.Problem, k: int)
    requires 0 <= k <= p.npt
    ensures forall i :: 0 <= i < k ==> Evaluated(p, k)[i] == Plus(p.xbase, Prelim.Point(p, i))
  {
    if k > 0 {
      EvaluatedPoints(p, k - 1);
    }
  }

  /** Every point handed to the objective lies in the box [xl, xu] of which
      sl and su are the view from xbase. */
  lemma EvaluatedInBox(p: Prelim.Problem, k: int, xl: seq<real>, xu: seq<real>)
    requires 0 <= k <= p.npt && ShiftedBounds(xl, xu, p.xbase, p.sl, p.su)
    ensures forall i :: 0 <= i < k ==> InBox(Evaluated(p, k)[i], xl, xu)
  {
    EvaluatedPoints(p, k);
    forall i | 0 <= i < k
      ensures InBox(Evaluated(p, k)[i], xl, xu)
    {
      ShiftedInBox(xl, xu, p.xbase, p.sl, p.su, Prelim.Point(p, i));
    }
  }

  /** One pass of the loop of bobyqa_prelim (bobyqa.c:2049-2119): point
      k + 1 is made, x becomes xbase plus it clipped into the box, which
      leaves it in place, the full list gets x, and the objective's value
      there is recorded in the table. */
  method Pass(p: Prelim.Problem, xl: seq<real>, xu: seq<real>, k: int, t: Prelim.Table, x: seq<real>,
              xfull: seq<real>)
    returns (u: Prelim.Table, x1: seq<real>, xfull1: seq<real>, f: real)
    requires 0 <= k < p.npt && t == Prelim.Run(p, k) && |x| == p.n
    requires ShiftedBounds(xl, xu, p.xbase, p.sl, p.su) && Scatter.Placement(p.xplace, |p.xf0|)
    requires xfull == p.xf0 || xfull == Scatter.Scatter(p.xf0, p.xplace, p.xscale, x)
    ensures u == Prelim.Run(p, k + 1) && f == PassValue(p, k) && u.fval[u.kopt - 1] <= f
    ensures x1 == Plus(p.xbase, Prelim.Point(p, k)) && xfull1 == Scatter.Scatter(p.xf0, p.xplace, p.xscale, x1)
  {
    Prelim.PassRecords(p, k);
    var d := Prelim.NewRow(t.xpt, k, p.n, p.rhobeg, p.sl, p.su);
    x1 := Vectors.ClipPrelimLoop(x, xl, xu, p.xbase, d, p.sl, p.su);
    ClipPrelimExact(xl, xu, p.xbase, d, p.sl, p.su);
    xfull1 := Vectors.ScatterLoop(xfull, p.xplace, p.xscale, x1);
    if xfull != p.xf0 {
      Scatter.ScatterOverwrite(p.xf0, p.xplace, p.xscale, x, x1);
    }
    f := p.obj(xfull1);
    u := Prelim.Record(t.(xpt := t.xpt[k := d]), k + 1, p.n, f);
  }

  /** The state of the loop of bobyqa_prelim after k passes: the table is
      Prelim.Run(p, k), x is the last point and the full list has it in
      place, log and vals list the points and values so far, stop is the
      outcome of the tests after the last pass, and no earlier pass met a
      stop test. */
  ghost predicate Looped(p: Prelim.Problem, nevals0: int, minfMax: real, maxeval: int, t: Prelim.Table, k: int,
                         x: seq<real>, xfull: seq<real>, nevals: int, stop: Option<ResultCode>,
                         log: seq<seq<real>>, vals: seq<real>)
  {
    0 <= k <= p.npt && t == Prelim.Run(p, k) && nevals == nevals0 + k && |x| == p.n
    && log == Evaluated(p, k) && vals == Values(p, k)
    && (k == 0 ==> stop == None && xfull == p.xf0)
    && (k > 0 ==> x == Plus(p.xbase, Prelim.Point(p, k - 1))
                  && xfull == Scatter.Scatter(p.xf0, p.xplace, p.xscale, x)
                  && stop == Stop(vals[k - 1], nevals, minfMax, maxeval)
                  && t.fval[t.kopt - 1] <= vals[k - 1])
    && (forall i :: 0 <= i < k - 1 ==> Stop(vals[i], nevals0 + i + 1, minfMax, maxeval) == None)
  }

  /** One turn of the loop: a pass, its count and its stop tests. */
  method Advance(p: Prelim.Problem, xl: seq<real>, xu: seq<real>, nevals0: int, minfMax: real, maxeval: int,
                 t: Prelim.Table, k: int, x: seq<real>, xfull: seq<real>, nevals: int,
                 ghost log: seq<seq<real>>, ghost vals: seq<real>)
    returns (t1: Prelim.Table, x1: seq<real>, xfull1: seq<real>, nevals1: int, stop1: Option<ResultCode>,
             ghost log1: seq<seq<real>>, ghost vals1: seq<real>)
    requires Looped(p, nevals0, minfMax, maxeval, t, k, x, xfull, nevals, None, log, vals) && k < p.npt
    requires ShiftedBounds(xl, xu, p.xbase, p.sl, p.su) && Scatter.Placement(p.xplace, |p.xf0|)
    ensures Looped(p, nevals0, minfMax, maxeval, t1, k + 1, x1, xfull1, nevals1, stop1, log1, vals1)
  {
    var f;
    t1, x1, xfull1, f := Pass(p, xl, xu, k, t, x, xfull);
    nevals1 := nevals + 1;
    log1, vals1 := log + [x1], vals + [f];
    stop1 := Stop(f, nevals1, minfMax, maxeval);
  }

  /** The loop of bobyqa_prelim from the zeroed table, with x the current
      point and nevals0 evaluations made before: after k passes the table is
      Prelim.Run(p, k), x is the last point, the full list has it in place,
      and log lists the points handed to the objective, all in the box. The
      loop stops after the first pass whose stop tests fire, or after npt
      passes. */
  method Passes(p: Prelim.Problem, xl: seq<real>, xu: seq<real>, x0: seq<real>, nevals0: int,
                minfMax: real, maxeval: int)
    returns (t: Prelim.Table, k: int, x: seq<real>, xfull: seq<real>, nevals: int,
             stop: Option<ResultCode>, ghost log: seq<seq<real>>, ghost vals: seq<real>)
    requires |x0| == p.n && ShiftedBounds(xl, xu, p.xbase, p.sl, p.su)
    requires Scatter.Placement(p.xplace, |p.xf0|)
    ensures 0 < k <= p.npt && t == Prelim.Run(p, k) && nevals == nevals0 + k
    ensures x == Plus(p.xbase, Prelim.Point(p, k - 1))
    ensures xfull == Scatter.Scatter(p.xf0, p.xplace, p.xscale, x)
    ensures log == Evaluated(p, k)
    ensures forall i :: 0 <= i < k ==> InBox(log[i], xl, xu)
    ensures vals == Values(p, k)
    ensures forall i :: 0 <= i < k - 1 ==> Stop(vals[i], nevals0 + i + 1, minfMax, maxeval) == None
    ensures stop == Stop(vals[k - 1], nevals, minfMax, maxeval)
    ensures stop == None ==> k == p.npt
    ensures stop == Some(MinfMaxReached) ==> t.fval[t.kopt - 1] < minfMax
  {
    t := Prelim.Table(ZeroMatrix(p.npt, p.n), p.fval0, 0);
    k, x, xfull, nevals, stop, log, vals := 0, x0, p.xf0, nevals0, None, [], [];
    while k < p.npt && stop.None?
      invariant Looped(p, nevals0, minfMax, maxeval, t, k, x, xfull, nevals, stop, log, vals)
      decreases p.npt - k
    {
      t, x, xfull, nevals, stop, log, vals := Advance(p, xl, xu, nevals0, minfMax, maxeval, t, k, x, xfull, nevals, log, vals);
      k := k + 1;
    }
    Stopped(p, xl, xu, nevals0, minfMax, maxeval, t, k, x, xfull, nevals, stop, log, vals);
  }

  /** What the loop state gives once the loop has ended: at least one pass
      was made, every point handed to the objective lies in the box, and a
      loop that no test stopped made all npt passes. */
  lemma Stopped(p: Prelim.Problem, xl: seq<real>, xu: seq<real>, nevals0: int, minfMax: real, maxeval: int,
                t: Prelim.Table, k: int, x: seq<real>, xfull: seq<real>, nevals: int, stop: Option<ResultCode>,
                log: seq<seq<real>>, vals: seq<real>)
    requires Looped(p, nevals0, minfMax, maxeval, t, k, x, xfull, nevals, stop, log, vals)
    requires !(k < p.npt && stop.None?) && ShiftedBounds(xl, xu, p.xbase, p.sl, p.su)
    ensures 0 < k && forall i :: 0 <= i < k ==> InBox(log[i], xl, xu)
    ensures stop == None ==> k == p.npt
    ensures stop == Some(MinfMaxReached) ==> t.fval[t.kopt - 1] < minfMax
  {
    EvaluatedInBox(p, k, xl, xu);
  }

  /** What a run of the loop of bobyqa_prelim leaves, nevals0 evaluations
      having been made before it and nevals after it: the table is
      Prelim.Run of the passes made, x is the last point evaluated and the
      full list has it in place, log lists the points handed to the
      objective, each in the box [xl, xu], and the passes end as Ends says,
      with r Success when no stop test fired. */
  ghost predicate Made(p: Prelim.Problem, xl: seq<real>, xu: seq<real>, nevals0: int, minfMax: real, maxeval: int,
                       t: Prelim.Table, x: seq<real>, xfull: seq<real>, nevals: int, r: ResultCode,
                       log: seq<seq<real>>)
  {
    nevals0 < nevals <= nevals0 + p.npt && t == Prelim.Run(p, nevals - nevals0)
    && x == Plus(p.xbase, Prelim.Point(p, nevals - nevals0 - 1))
    && xfull == Scatter.Scatter(p.xf0, p.xplace, p.xscale, x)
    && log == Evaluated(p, nevals - nevals0)
    && (forall i :: 0 <= i < |log| ==> InBox(log[i], xl, xu))
    && Ends(p, nevals0, minfMax, maxeval, nevals - nevals0, r)
    && (r == Success || r == MinfMaxReached || r == MaxevalReached)
    && (r == MinfMaxReached ==> t.fval[t.kopt - 1] < minfMax)
  }

  /** The sizes of what Made describes, and the log appended to a list of
      points in the box keeps every point in the box. */
  lemma MadeShape(p: Prelim.Problem, xl: seq<real>, xu: seq<real>, nevals0: int, minfMax: real, maxeval: int,
                  t: Prelim.Table, x: seq<real>, xfull: seq<real>, nevals: int, r: ResultCode,
                  log: seq<seq<real>>, before: seq<seq<real>>)
    requires Made(p, xl, xu, nevals0, minfMax, maxeval, t, x, xfull, nevals, r, log)
    requires |p.xbase| == p.n && AllInBox(before, xl, xu)
    ensures IsMatrix(t.xpt, p.npt, p.n) && |t.fval| == p.npt && |x| == p.n && |xfull| == |p.xf0|
    ensures AllInBox(before + log, xl, xu) && (before + log)[|before|..] == log
  {
    var all := before + log;
    forall j | 0 <= j < |all| ensures InBox(all[j], xl, xu)
    {
      if j >= |before| {
        assert all[j] == log[j - |before|];
      }
    }
  }

  /** Passes with its outcome as a result code (Success when no stop test
      fired) and the number of passes read off the count of evaluations. */
  method Points(p: Prelim.Problem, xl: seq<real>, xu: seq<real>, x0: seq<real>, nevals0: int,
                minfMax: real, maxeval: int)
    returns (t: Prelim.Table, x: seq<real>, xfull: seq<real>, nevals: int, r: ResultCode,
             ghost log: seq<seq<real>>)
    requires |x0| == p.n && ShiftedBounds(xl, xu, p.xbase, p.sl, p.su)
    requires Scatter.Placement(p.xplace, |p.xf0|)
    ensures Made(p, xl, xu, nevals0, minfMax, maxeval, t, x, xfull, nevals, r, log)
  {
    var k: int, stop: Option<ResultCode>;
    ghost var vals: seq<real>;
    t, k, x, xfull, nevals, stop, log, vals := Passes(p, xl, xu, x0, nevals0, minfMax, maxeval);
    r := if stop.Some? then stop.value else Success;
  }
}
