// The bobyqa_data record and the routines of bobyqa.c that update it in
// place: memory setup, the start point, the evaluation wrapper, best-value
// reporting, the initial interpolation points, the base shift and the
// safety envelope of the main loop.
//
// C cuts one block of doubles into slices (bobyqa_set_memory); the record
// holds that block as one value wm of type Block, with one component per
// slice the model uses. The column-major matrices xpt, bmat and zmat are
// sequences of rows (xpt[k][j] is C's xpt[k + j*npt]). The objective is an
// abstract function of the full parameter list.
module BobyqaState {
  import opened Common
  import opened ResultCodes
  import opened Bounds
  import Setup
  import Workspace
  import Scatter
  import Radius
  import Prelim
  import PrelimPass
  import SingleSearch
  import Bracket

  import Vectors

  /** max(0, k): the length of a slice whose recorded size is k. */
  function Len(k: int): (r: nat)
    ensures k >= 0 ==> r == k
    ensures k < 0 ==> r == 0
  {
    if k < 0 then 0 else k
  }

  /** The slices of the working block that the modelled routines read or
      write. gopt, w2npt, wn, gnew, s, hs, hred and hcol belong to the
      numerical kernels and exist only as sizes in the layout. */
  datatype Block = Block(
    xfull: seq<real>, x: seq<real>, xl: seq<real>, xu: seq<real>, xbase: seq<real>,
    xpt: seq<seq<real>>, fval: seq<real>, xopt: seq<real>, hq: seq<real>, pq: seq<real>,
    bmat: seq<seq<real>>, zmat: seq<seq<real>>, sl: seq<real>, su: seq<real>,
    xnew: seq<real>, xalt: seq<real>, dtrial: seq<real>, vlag: seq<real>, wndim: seq<real>,
    xbdi: seq<real>, glag: seq<real>, ccstep: seq<real>, xscale: seq<real>)
  {
    /** Every slice has the length bobyqa_working_memory_size gives it for nf
        parameters of which k are fitted and p interpolation points. */
    predicate Shaped(nf: int, k: int, p: int)
    {
      |xfull| == nf
      && |x| == k && |xl| == k && |xu| == k && |xbase| == k && |xopt| == k
      && |sl| == k && |su| == k && |xnew| == k && |xalt| == k && |dtrial| == k
      && |xbdi| == k && |glag| == k && |xscale| == k && |ccstep| == 2 * k
      && IsMatrix(xpt, p, k) && |fval| == p && |hq| == PackedSize(k) && |pq| == p
      && IsMatrix(bmat, p + k, k) && IsMatrix(zmat, p, Len(p - k - 1))
      && |vlag| == p + k && |wndim| == p + k
    }
  }

  /** A block whose slices fit the sizes read off xfull (the full list), x
      (the fitted parameters) and fval (the interpolation points). */
  type Sized = b: Block | b.Shaped(|b.xfull|, |b.x|, |b.fval|) witness EmptyBlock()

  /** The stopping rules recorded by bobyqa_set_optimization. */
  datatype Settings = Settings(rhobeg: real, rhoend: real, minfMax: real, ftolRel: real,
                               ftolAbs: real, maxeval: int)

  /** The scalars of the main loop of bobyqb that the record carries between
      the routines. */
  datatype LoopState = LoopState(
    minf: real, rho: real, delta: real, ratio: real, fsave: real, fopt: real, newf: real,
    dnorm: real, dsq: real, xoptsq: real, scaden: real, biglsq: real, distsq: real,
    diffa: real, diffb: real, diffc: real, ntrits: int, nfsav: int, kopt: int, knew: int,
    rc: ResultCode)

  /** The record before bobyqa_set_memory: no slices. */
  function EmptyBlock(): (b: Block)
    ensures b.Shaped(0, 0, 0)
  {
    Block([], [], [], [], [], [], [], [], [], [], [], [], [], [], [], [], [], [], [], [], [], [], [])
  }

  /** A block with every slice of its recorded length; the content of fresh
      memory is not specified in C and is zero here. */
  function ZeroBlock(nf: nat, k: nat, p: nat): (b: Block)
    ensures b.Shaped(nf, k, p)
  {
    Block(Zeros(nf), Zeros(k), Zeros(k), Zeros(k), Zeros(k),
          ZeroMatrix(p, k), Zeros(p), Zeros(k), Zeros(PackedSize(k)), Zeros(p),
          ZeroMatrix(p + k, k), ZeroMatrix(p, Len(p - k - 1)), Zeros(k), Zeros(k),
          Zeros(k), Zeros(k), Zeros(k), Zeros(p + k), Zeros(p + k),
          Zeros(k), Zeros(k), Zeros(2 * k), Zeros(k))
  }


  /** The computations of bobyqa_set_optimization (bobyqa.c:734-808) on
      values, for a record allocated for n fitted parameters: the fitted
      positions place with their scales, the scaled start xs and bounds ls
      and us, the radius rb and the start point x1 moved away from the
      bounds with sl1 and su1 the bounds seen from it. r is INVALID_ARGS
      when the count of fitted parameters is not n or when the smallest
      scaled gap is 1e-20 or less. */
  method Start(x0: seq<real>, dx: seq<real>, xl0: seq<real>, xu0: seq<real>, n: int)
    returns (r: ResultCode, place: seq<int>, scale: seq<real>, xs: seq<real>, ls: seq<real>, us: seq<real>,
             x1: seq<real>, sl1: seq<real>, su1: seq<real>, rb: real)
    requires 1 <= n && |dx| == |x0| && |xl0| == |x0| && |xu0| == |x0|
    ensures place == Setup.FreeIndices(dx, xl0, xu0, |x0|) && scale == Vectors.FreeScale(dx, place)
    ensures xs == Vectors.FreeScaled(x0, dx, place)
    ensures ls == Vectors.FreeScaled(xl0, dx, place) && us == Vectors.FreeScaled(xu0, dx, place)
    ensures r == Success || r == InvalidArgs
    ensures |place| != n ==> r == InvalidArgs
    ensures |place| == n ==> (r == Success <==> Setup.MinGap(ls, us, n) > 1.0e-20)
    ensures r == Success ==>
      Scatter.Placement(place, |x0|) && ProperBox(ls, us) && 0.0 < rb
      && Setup.InitialRhobeg(Setup.MinGap(ls, us, n)) == Some(rb)
      && |x1| == n && |sl1| == n && |su1| == n && InBox(x1, ls, us) && Prelim.StartBounds(rb, sl1, su1)
      && (forall j :: 0 <= j < n ==> sl1[j] == ls[j] - x1[j] && su1[j] == us[j] - x1[j])
      && (forall j :: 0 <= j < n ==>
            Setup.StartPoint(x1[j], sl1[j], su1[j]) == Setup.AdjustStart(xs[j], ls[j], us[j], rb))
  {
    place, scale, xs, ls, us := Vectors.SelectFree(x0, dx, xl0, xu0);
    x1, sl1, su1, rb := xs, [], [], 1.0;
    if |place| != n {
      return InvalidArgs, place, scale, xs, ls, us, x1, sl1, su1, rb;
    }
    Setup.FreeIndicesExact(dx, xl0, xu0, |x0|);
    Vectors.ScaledRangeProper(dx, xl0, xu0, place);
    var dm := Vectors.MinGapLoop(ls, us);
    var choice := Setup.InitialRhobeg(dm);
    if choice.None? {
      return InvalidArgs, place, scale, xs, ls, us, x1, sl1, su1, rb;
    }
    rb := choice.value;
    Setup.MinGapIsMinimum(ls, us, n);
    x1, sl1, su1 := Vectors.StartLoop(xs, ls, us, rb);
    StartFacts(xs, ls, us, x1, sl1, su1, rb);
    r := Success;
  }

  /** The facts BobyqaData.Started() needs, read off the start-point adjustment of
      every coordinate. */
  lemma StartFacts(xs: seq<real>, ls: seq<real>, us: seq<real>,
                          x1: seq<real>, sl1: seq<real>, su1: seq<real>, rb: real)
    requires |ls| == |xs| && |us| == |xs| && 0.0 < rb
    requires forall j :: 0 <= j < |xs| ==> 2.0 * rb <= us[j] - ls[j]
    requires |x1| == |xs| && |sl1| == |xs| && |su1| == |xs|
    requires forall j :: 0 <= j < |xs| ==>
      Setup.StartPoint(x1[j], sl1[j], su1[j]) == Setup.AdjustStart(xs[j], ls[j], us[j], rb)
    ensures InBox(x1, ls, us) && Prelim.StartBounds(rb, sl1, su1)
    ensures forall j :: 0 <= j < |xs| ==> sl1[j] == ls[j] - x1[j] && su1[j] == us[j] - x1[j]
  {
    forall j | 0 <= j < |xs|
      ensures ls[j] <= x1[j] <= us[j] && Prelim.StartFacts(rb, sl1[j], su1[j])
      ensures sl1[j] == ls[j] - x1[j] && su1[j] == us[j] - x1[j]
    {
      var p := Setup.AdjustStart(xs[j], ls[j], us[j], rb);
      assert p.x == x1[j] && p.sl == sl1[j] && p.su == su1[j];
    }
  }


  /** The block bobyqb_xupdate leaves when w is the block before it, kopt
      the best interpolation point and fsave the value it is compared with:
      x becomes xbase + xopt clipped into the box, and the full list is
      updated with it, when fval[kopt-1] <= fsave; otherwise nothing
      changes. */
  function XUpdated(w: Sized, place: seq<int>, kopt: int, fsave: real): (r: Sized)
    requires 1 <= kopt <= |w.fval| && |place| == |w.x| && Scatter.InRange(place, |w.xfull|)
    ensures r.(x := w.x, xfull := w.xfull) == w
    ensures w.fval[kopt - 1] <= fsave && ProperBox(w.xl, w.xu) ==> InBox(r.x, w.xl, w.xu)
  {
    if w.fval[kopt - 1] <= fsave then
      var p := ClipPoint(w.xl, w.xu, w.xbase, w.xopt, w.sl, w.su);
      w.(x := p, xfull := Scatter.Scatter(w.xfull, place, w.xscale, p))
    else w
  }

  /** The number of fitted parameters bobyqa() derives from fixed_params:
      all parameters but those with an empty range or a zero step. */
  ghost function FittedCount(dx: seq<real>, xl0: seq<real>, xu0: seq<real>): int
    requires |xl0| == |dx| && |xu0| == |dx|
  {
    |dx| - |Setup.FixedIndices(xl0, xu0, Some(dx), |dx|)|
  }

  /** bobyqa()'s set-up succeeds: some parameter is fitted, npt (or its
      default) is in range, the working memory is available and the
      scaled box is wider than 1e-20 in every fitted coordinate. */
  ghost predicate SetsUp(dx: seq<real>, xl0: seq<real>, xu0: seq<real>, nptIn: int, memory: bool)
    requires |xl0| == |dx| && |xu0| == |dx|
  {
    var k := FittedCount(dx, xl0, xu0);
    var p := Setup.FreeIndices(dx, xl0, xu0, |dx|);
    k >= 1 && Setup.CheckedNpt(nptIn, k).Some? && memory && |p| == k
    && Setup.MinGap(Vectors.FreeScaled(xl0, dx, p), Vectors.FreeScaled(xu0, dx, p), k) > 1.0e-20
  }

  class BobyqaData {
    var n: int          // number of fitted parameters
    var nfull: int      // length of the full parameter list
    var npt: int        // number of interpolation points
    var ndim: int       // npt + n
    var nptm: int       // npt - n - 1, the number of columns of zmat

    /** The working block of doubles. */
    var wm: Sized
    /** The positions of the fitted parameters in the full list. */
    var xplace: seq<int>
    /** Where each of the 31 slices starts, and the size of the block. */
    var offsets: seq<int>
    var wmsize: int

    var cfg: Settings
    var objf: seq<real> -> real
    var nevals: int
    var st: LoopState

    /** The scaled points handed to bobyqa_x_funcval since the optimisation
        was set, in order. */
    ghost var evalLog: seq<seq<real>>

    /** The sizes after a successful bobyqa_set_memory with npt >= n + 1. */
    predicate Allocated()
      reads this
    {
      1 <= n && n + 1 <= npt && ndim == npt + n && nptm == npt - (n + 1)
      && |xplace| == n && |wm.xfull| == nfull && |wm.x| == n && |wm.fval| == npt
    }

    /** After bobyqa_set_optimization: xplace lists distinct positions of
        the full list in increasing order, and the box is proper. */
    predicate Placed()
      reads this
    {
      Allocated() && Scatter.Placement(xplace, nfull) && ProperBox(wm.xl, wm.xu)
    }

    /** What bobyqa_set_optimization establishes about the start point: it
        lies in the box, which is at least 2 rhobeg wide, sl and su are the
        bounds seen from it, and each is 0 or at least rhobeg away. */
    predicate Started()
      reads this
    {
      Placed() && 0.0 < cfg.rhobeg && InBox(wm.x, wm.xl, wm.xu)
      && (forall j :: 0 <= j < n ==> wm.sl[j] == wm.xl[j] - wm.x[j])
      && (forall j :: 0 <= j < n ==> wm.su[j] == wm.xu[j] - wm.x[j])
      && Prelim.StartBounds(cfg.rhobeg, wm.sl, wm.su)
    }

    /** The relation kept from the first iteration on: sl and su are the box
        seen from xbase, and xopt lies between them. */
    predicate Framed()
      reads this
    {
      Placed() && ShiftedBounds(wm.xl, wm.xu, wm.xbase, wm.sl, wm.su) && InBox(wm.xopt, wm.sl, wm.su)
    }

    /** Every interpolation point is a feasible displacement from xbase. */
    predicate PointsFeasible()
      reads this
    {
      Allocated() && forall k :: 0 <= k < npt ==> InBox(wm.xpt[k], wm.sl, wm.su)
    }

    /** Every point handed to the objective lay within the scaled bounds. */
    ghost predicate Logged()
      reads this
    {
      AllInBox(evalLog, wm.xl, wm.xu)
    }

    /** The evaluation budget is used up (maxeval > 0 sets a limit). */
    predicate BudgetSpent()
      reads this
    {
      cfg.maxeval > 0 && nevals >= cfg.maxeval
    }

    constructor ()
      ensures n == 0 && nfull == 0 && npt == 0 && nevals == 0
      ensures wm == EmptyBlock() && xplace == [] && offsets == [] && evalLog == []
    {
      n, nfull, npt, ndim, nptm := 0, 0, 0, 0, 0;
      wm, xplace, offsets, wmsize := EmptyBlock(), [], [], 0;
      cfg := Settings(0.0, 0.0, 0.0, 0.0, 0.0, 0);
      objf := _ => 0.0;
      nevals := 0;
      st := LoopState(0.0, 0.0, 0.0, 0.0, 0.0, 0.0, 0.0, 0.0, 0.0, 0.0, 0.0, 0.0, 0.0,
                      0.0, 0.0, 0.0, 0, 0, 0, 0, Success);
      evalLog := [];
    }

    /** bobyqa_reset_memory: the counters and scalars of a fresh run, or
        INVALID_ARGS when the sizes are not set. */
    method ResetMemory() returns (r: ResultCode)
      modifies this`st, this`nptm, this`nevals
      ensures npt < 1 || n < 1 ==> r == InvalidArgs && unchanged(this)
      ensures npt >= 1 && n >= 1 ==>
        r == Success && nptm == npt - (n + 1) && nevals == 0
        && st == old(st).(dsq := 0.0, xoptsq := 0.0, rc := Success, knew := 0, scaden := 0.0, biglsq := 0.0)
    {
      if npt < 1 || n < 1 {
        return InvalidArgs;
      }
      st := st.(dsq := 0.0, xoptsq := 0.0, rc := Success, knew := 0, scaden := 0.0, biglsq := 0.0);
      nptm := npt - (n + 1);
      nevals := 0;
      r := Success;
    }

    /** bobyqa_set_memory for fullN parameters of which fittedN are fitted
        and points interpolation points: the slice sizes are recorded, the
        slices are laid out at Workspace.Offsets, and the counters are
        reset. */
    method SetMemory(fullN: int, fittedN: int, points: int) returns (r: ResultCode)
      modifies this
      ensures fullN < 1 || fittedN < 1 || points < 1 ==> r == InvalidArgs && unchanged(this)
      ensures fullN >= 1 && fittedN >= 1 && points >= 1 ==> r == Success
      ensures r == Success ==>
        n == fittedN && nfull == fullN && npt == points && ndim == points + fittedN
        && wmsize == Workspace.WorkingMemorySize(fullN, fittedN, points)
        && offsets == Workspace.Offsets(Workspace.SliceSizes(fullN, fittedN, points))
        && wm.Shaped(fullN, fittedN, points) && |xplace| == fittedN
        && nevals == 0 && st.knew == 0 && st.rc == Success && nptm == points - (fittedN + 1)
      ensures r == Success && points >= fittedN + 1 ==> Allocated()
    {
      if fullN < 1 || fittedN < 1 || points < 1 {
        return InvalidArgs;
      }
      var sizes := Workspace.SliceSizes(fullN, fittedN, points);
      nfull, wmsize, offsets := fullN, Workspace.WorkingMemorySize(fullN, fittedN, points), Workspace.Offsets(sizes);
      wm, xplace := ZeroBlock(fullN, fittedN, points), seq(fittedN, _ => 0);
      n, npt, ndim := fittedN, points, points + fittedN;
      r := ResetMemory();
    }

    /** bobyqa_set_optimization: copies the full start list, selects the
        fitted parameters (non-zero step and a non-empty range), scales them
        by |dx|, chooses rhobeg and rhoend, and moves the start away from
        the bounds. The log of evaluated points starts afresh. */
    method SetOptimization(fullN: int, x0: seq<real>, dx: seq<real>, xl0: seq<real>, xu0: seq<real>,
                           rhoendIn: real, xtolRel: real, minfMaxIn: real, ftolRelIn: real,
                           ftolAbsIn: real, maxevalIn: int, f: seq<real> -> real) returns (r: ResultCode)
      requires Allocated()
      requires |x0| == fullN && |dx| == fullN && |xl0| == fullN && |xu0| == fullN
      modifies this`wm, this`xplace, this`cfg, this`objf, this`evalLog
      ensures r == Success || r == InvalidArgs
      ensures Allocated()
      ensures fullN != nfull ==> r == InvalidArgs && unchanged(this)
      ensures fullN == nfull && |Setup.FreeIndices(dx, xl0, xu0, fullN)| != n ==> r == InvalidArgs
      ensures fullN == nfull && |Setup.FreeIndices(dx, xl0, xu0, fullN)| == n ==>
        var p := Setup.FreeIndices(dx, xl0, xu0, fullN);
        (r == Success <==> Setup.MinGap(Vectors.FreeScaled(xl0, dx, p), Vectors.FreeScaled(xu0, dx, p), n) > 1.0e-20)
      ensures r == Success ==>
        Started() && Logged() && evalLog == []
        && xplace == Setup.FreeIndices(dx, xl0, xu0, fullN) && wm.xfull == x0
        && wm.xscale == Vectors.FreeScale(dx, xplace)
        && wm.xl == Vectors.FreeScaled(xl0, dx, xplace) && wm.xu == Vectors.FreeScaled(xu0, dx, xplace)
        && Setup.InitialRhobeg(Setup.MinGap(wm.xl, wm.xu, n)) == Some(cfg.rhobeg)
        && cfg == Settings(cfg.rhobeg, Setup.InitialRhoend(rhoendIn, xtolRel, cfg.rhobeg),
                           minfMaxIn, ftolRelIn, ftolAbsIn, maxevalIn)
        && objf == f
      ensures r == Success ==> forall j :: 0 <= j < n ==>
        Setup.StartPoint(wm.x[j], wm.sl[j], wm.su[j])
        == Setup.AdjustStart(Vectors.FreeScaled(x0, dx, xplace)[j], wm.xl[j], wm.xu[j], cfg.rhobeg)
      ensures fullN == nfull && |Setup.FreeIndices(dx, xl0, xu0, fullN)| != n ==>
        wm == old(wm).(xfull := x0) && xplace == old(xplace) && cfg == old(cfg)
        && objf == old(objf) && evalLog == old(evalLog)
      ensures fullN == nfull && |Setup.FreeIndices(dx, xl0, xu0, fullN)| == n && r == InvalidArgs ==>
        var p := Setup.FreeIndices(dx, xl0, xu0, fullN);
        wm == old(wm).(xfull := x0, x := Vectors.FreeScaled(x0, dx, p), xl := Vectors.FreeScaled(xl0, dx, p),
                       xu := Vectors.FreeScaled(xu0, dx, p), xscale := Vectors.FreeScale(dx, p))
        && xplace == p && cfg == old(cfg).(rhobeg := 1.0) && objf == old(objf) && evalLog == old(evalLog)
    {
      if fullN != nfull {
        return InvalidArgs;
      }
      var place: seq<int>, scale: seq<real>, xs: seq<real>, ls: seq<real>, us: seq<real>;
      var x1: seq<real>, sl1: seq<real>, su1: seq<real>, rb: real;
      r, place, scale, xs, ls, us, x1, sl1, su1, rb := Start(x0, dx, xl0, xu0, n);
      if |place| != n {
        wm := wm.(xfull := x0);
        return;
      }
      if r != Success {
        RecordRejected(x0, place, scale, xs, ls, us);
        return;
      }
      RecordStart(x0, place, scale, ls, us, x1, sl1, su1,
                  Settings(rb, Setup.InitialRhoend(rhoendIn, xtolRel, rb), minfMaxIn, ftolRelIn, ftolAbsIn, maxevalIn), f);
    }

    /** What bobyqa_set_optimization has written when it rejects a box
        narrower than 1e-20 (bobyqa.c:735-771): the full list, the scaled
        fitted parameters, bounds and scales, the positions, and rhobeg = 1. */
    method RecordRejected(x0: seq<real>, place: seq<int>, scale: seq<real>, xs: seq<real>, ls: seq<real>, us: seq<real>)
      requires Allocated() && |x0| == nfull && |place| == n
      requires |scale| == n && |xs| == n && |ls| == n && |us| == n
      modifies this`wm, this`xplace, this`cfg
      ensures Allocated()
      ensures wm == old(wm).(xfull := x0, x := xs, xl := ls, xu := us, xscale := scale)
      ensures xplace == place && cfg == old(cfg).(rhobeg := 1.0)
    {
      wm := wm.(xfull := x0, x := xs, xl := ls, xu := us, xscale := scale);
      xplace, cfg := place, cfg.(rhobeg := 1.0);
    }

    /** What a successful bobyqa_set_optimization records: the full list,
        the adjusted start x1 with its move bounds sl1 and su1, the scaled
        box and scales, the positions, the settings and the objective; the
        log of evaluated points starts afresh. */
    method RecordStart(x0: seq<real>, place: seq<int>, scale: seq<real>, ls: seq<real>, us: seq<real>,
                       x1: seq<real>, sl1: seq<real>, su1: seq<real>, c: Settings, f: seq<real> -> real)
      requires Allocated() && |x0| == nfull && |place| == n && |scale| == n && |ls| == n && |us| == n
      requires |x1| == n && |sl1| == n && |su1| == n
      modifies this`wm, this`xplace, this`cfg, this`objf, this`evalLog
      ensures Allocated()
      ensures wm == old(wm).(xfull := x0, x := x1, xl := ls, xu := us, xscale := scale, sl := sl1, su := su1)
      ensures xplace == place && cfg == c && objf == f && evalLog == []
    {
      wm := wm.(xfull := x0, x := x1, xl := ls, xu := us, xscale := scale, sl := sl1, su := su1);
      xplace, cfg, objf := place, c, f;
      evalLog := [];
    }

    /** bobyqa_xfull: writes the scaled fitted parameters x into their places
        of the full list; the fixed parameters keep their values. */
    method XFull()
      requires Placed()
      modifies this`wm
      ensures wm == old(wm).(xfull := Scatter.Scatter(old(wm.xfull), xplace, old(wm.xscale), old(wm.x)))
      ensures Placed()
    {
      var full := Vectors.ScatterLoop(wm.xfull, xplace, wm.xscale, wm.x);
      wm := wm.(xfull := full);
    }

    /** bobyqa_x_funcval: the objective at the full list with the scaled
        point v in place, counted as exactly one more evaluation. */
    method XFuncVal(v: seq<real>) returns (f: real)
      requires Placed() && |v| == n
      modifies this`wm, this`nevals, this`evalLog
      ensures wm == old(wm).(xfull := Scatter.Scatter(old(wm.xfull), xplace, old(wm.xscale), v))
      ensures Placed() && f == objf(wm.xfull)
      ensures nevals == old(nevals) + 1
      ensures evalLog == old(evalLog) + [v]
    {
      var full := Vectors.ScatterLoop(wm.xfull, xplace, wm.xscale, v);
      wm := wm.(xfull := full);
      f := objf(full);
      nevals := nevals + 1;
      evalLog := evalLog + [v];
    }

    /** bobyqb_xupdate: minf becomes the smaller of the best interpolated
        value and fsave; when the interpolated value wins, x becomes xbase +
        xopt clipped into the box and the full list is updated with it. */
    method XUpdate()
      requires Placed() && 1 <= st.kopt <= npt
      modifies this`wm, this`st
      ensures st == old(st).(minf := old(Min(wm.fval[st.kopt - 1], st.fsave)))
      ensures old(wm.fval[st.kopt - 1] <= st.fsave) ==>
        var c := old(ClipPoint(wm.xl, wm.xu, wm.xbase, wm.xopt, wm.sl, wm.su));
        wm == old(wm).(x := c, xfull := Scatter.Scatter(old(wm.xfull), xplace, old(wm.xscale), c))
      ensures old(wm.fval[st.kopt - 1] > st.fsave) ==> wm == old(wm)
      ensures wm == XUpdated(old(wm), xplace, st.kopt, old(st.fsave))
      ensures Placed()
    {
      var fv := wm.fval[st.kopt - 1];
      if fv <= st.fsave {
        var c := Vectors.ClipLoop(wm.x, wm.xl, wm.xu, wm.xbase, wm.xopt, wm.sl, wm.su);
        wm := wm.(x := c);
        st := st.(minf := fv);
        XFull();
      } else {
        st := st.(minf := st.fsave);
      }
    }

    /** bobyqa_prelim (bobyqa.c:2027-2158), with the values it computes for
        bmat, hq and zmat after zeroing them (bobyqa.c:2104-2145) given as
        bmatFit, hqFit and zmatFit: xbase becomes the start point,
        and the interpolation points are made and evaluated one by one until
        npt are done, a value is below minf_max or the budget is spent
        (PrelimPass.Points). The table built is Prelim.Run of the passes
        made, so every point is a feasible displacement from xbase, every
        stored value is the objective at its point, also after a swap, and
        kopt indexes a least value; x is the last point evaluated, the full
        list has it in place, and the log grows by the points evaluated. */
    method PrelimPoints(bmatFit: seq<seq<real>>, hqFit: seq<real>, zmatFit: seq<seq<real>>)
      returns (r: ResultCode, p: Prelim.Problem)
      requires Started() && Logged() && n + 2 <= npt <= PackedSize(n + 1)
      requires IsMatrix(bmatFit, ndim, n) && |hqFit| == |wm.hq| && IsMatrix(zmatFit, npt, nptm)
      modifies this`wm, this`st, this`nevals, this`evalLog
      ensures p == Prelim.Input(npt, n, cfg.rhobeg, wm.sl, wm.su, objf, old(wm.xfull), xplace, wm.xscale,
                                old(wm.x), old(wm.fval))
      ensures wm == old(wm).(xbase := old(wm.x), xpt := wm.xpt, fval := wm.fval, x := wm.x, xfull := wm.xfull,
                             bmat := bmatFit, hq := hqFit, pq := Zeros(npt), zmat := zmatFit)
      ensures st == old(st).(kopt := st.kopt)
      ensures |old(evalLog)| <= |evalLog| && evalLog[..|old(evalLog)|] == old(evalLog)
      ensures PrelimPass.Made(p, wm.xl, wm.xu, old(nevals), cfg.minfMax, cfg.maxeval,
                              Prelim.Table(wm.xpt, wm.fval, st.kopt), wm.x, wm.xfull, nevals, r, evalLog[|old(evalLog)|..])
      ensures Placed() && Logged() && ShiftedBounds(wm.xl, wm.xu, wm.xbase, wm.sl, wm.su)
    {
      p := Prelim.Input(npt, n, cfg.rhobeg, wm.sl, wm.su, objf, wm.xfull, xplace, wm.xscale, wm.x, wm.fval);
      var t: Prelim.Table, x: seq<real>, full: seq<real>, ev: int;
      ghost var log: seq<seq<real>>;
      t, x, full, ev, r, log := PrelimPass.Points(p, wm.xl, wm.xu, wm.x, nevals, cfg.minfMax, cfg.maxeval);
      PrelimPass.MadeShape(p, wm.xl, wm.xu, nevals, cfg.minfMax, cfg.maxeval, t, x, full, ev, r, log, evalLog);
      StorePrelim(t, x, full, ev, log, bmatFit, hqFit, zmatFit);
    }

    /** The writes of bobyqa_prelim to the record: xbase takes the start
        point, the table and the last point are stored, pq is zeroed, bmat,
        hq and zmat take the values prelim fits, and the count and log
        advance. */
    method StorePrelim(t: Prelim.Table, x1: seq<real>, full: seq<real>, ev: int, ghost log: seq<seq<real>>,
                       bmatFit: seq<seq<real>>, hqFit: seq<real>, zmatFit: seq<seq<real>>)
      requires Allocated() && IsMatrix(t.xpt, npt, n) && |t.fval| == npt && |x1| == n && |full| == nfull
      requires IsMatrix(bmatFit, ndim, n) && |hqFit| == |wm.hq| && IsMatrix(zmatFit, npt, nptm)
      modifies this`wm, this`st, this`nevals, this`evalLog
      ensures Allocated()
      ensures wm == old(wm).(xbase := old(wm.x), xpt := t.xpt, fval := t.fval, x := x1, xfull := full,
                             bmat := bmatFit, hq := hqFit, pq := Zeros(npt), zmat := zmatFit)
      ensures st == old(st).(kopt := t.kopt) && nevals == ev && evalLog == old(evalLog) + log
    {
      wm := wm.(xbase := wm.x, xpt := t.xpt, fval := t.fval, x := x1, xfull := full, bmat := bmatFit,
                hq := hqFit, pq := Zeros(npt), zmat := zmatFit);
      st := st.(kopt := t.kopt);
      nevals := ev;
      evalLog := evalLog + log;
    }

    /** The set-up of xopt after bobyqa_prelim (bobyqa.c:1528-1532): the
        best interpolation point becomes the trust-region centre, with its
        squared length, and fsave is the first value. */
    method TakeBestPoint()
      requires Placed() && 1 <= st.kopt <= npt
      modifies this`wm, this`st
      ensures wm == old(wm).(xopt := old(wm.xpt[st.kopt - 1]))
      ensures st == old(st).(xoptsq := SumSq(wm.xopt), fsave := wm.fval[0])
      ensures old(PointsFeasible()) && ShiftedBounds(wm.xl, wm.xu, wm.xbase, wm.sl, wm.su) ==> Framed()
    {
      var v, sq := Vectors.CopyWithSumSq(wm.xpt[st.kopt - 1]);
      wm := wm.(xopt := v);
      st := st.(xoptsq := sq, fsave := wm.fval[0]);
    }

    /** bobyqb_shift_xbase (bobyqa.c:877-951). Its floating-point revisions
        are taken as parameters: revised is bmat after the updates of
        bobyqa.c:902-904 and 923-927, hqRevised is hq after those of
        bobyqa.c:940-941 and vlagLast is vlag as the loop at bobyqa.c:916
        leaves it. xbase moves to xbase + xopt; xpt, xnew, sl and su are
        taken relative to it; xopt becomes the origin; and the trailing
        block of bmat is made symmetric from the lower triangle of revised.
        The points themselves do not move, feasible points stay feasible and
        Framed() is kept. */
    method ShiftXbase(revised: seq<seq<real>>, hqRevised: seq<real>, vlagLast: seq<real>)
      requires Framed() && IsMatrix(revised, ndim, n)
      requires |hqRevised| == |wm.hq| && |vlagLast| == |wm.vlag|
      modifies this`wm, this`st
      ensures Framed() && st == old(st).(xoptsq := 0.0) && wm.xopt == Zeros(n)
      ensures wm == old(wm).(xbase := wm.xbase, xpt := wm.xpt, bmat := wm.bmat, xnew := wm.xnew,
                             sl := wm.sl, su := wm.su, xopt := wm.xopt, hq := hqRevised, vlag := vlagLast)
      ensures forall i :: 0 <= i < n ==> wm.xbase[i] == old(wm.xbase[i] + wm.xopt[i])
      ensures forall i :: 0 <= i < n ==> wm.xnew[i] == old(wm.xnew[i] - wm.xopt[i])
      ensures forall k, i :: 0 <= k < npt && 0 <= i < n ==> wm.xpt[k][i] == old(wm.xpt[k][i] - wm.xopt[i])
      ensures forall k, i :: 0 <= k < npt && 0 <= i < n ==>
        wm.xbase[i] + wm.xpt[k][i] == old(wm.xbase[i] + wm.xpt[k][i])
      ensures forall i :: 0 <= i < n ==> wm.xbase[i] + wm.xnew[i] == old(wm.xbase[i] + wm.xnew[i])
      ensures Vectors.SymmetricTrailing(wm.bmat, npt, n)
      ensures forall row, c :: 0 <= row < ndim && 0 <= c < n ==>
        wm.bmat[row][c] == Vectors.MirrorEntry(revised, npt, n, row, c)
      ensures old(PointsFeasible()) ==> PointsFeasible()
    {
      var pts := Vectors.ShiftPoints(wm.xpt, wm.xopt);
      var b := Vectors.MirrorLoop(revised, npt, n);
      var base, d, l, u, o := Vectors.ShiftLoop(wm.xbase, wm.xnew, wm.sl, wm.su, wm.xopt);
      wm := wm.(xpt := pts, bmat := b, xbase := base, xnew := d, sl := l, su := u, xopt := o,
                hq := hqRevised, vlag := vlagLast);
      st := st.(xoptsq := 0.0);
    }

    /** bobyqb_next_rho_delta: the next lower bound rho and radius delta
        (Radius.NextRhoDelta, with sqrt(rho/rhoend) supplied as root); the
        trust-region step counter restarts. */
    method NextRhoDelta(root: real)
      requires cfg.rhoend > 0.0 ==> root >= 0.0 && root * root == st.rho / cfg.rhoend
      modifies this`st
      ensures Radius.Radii(st.rho, st.delta) == Radius.NextRhoDelta(old(st.rho), cfg.rhoend, root)
      ensures st == old(st).(rho := st.rho, delta := st.delta, ntrits := 0, nfsav := nevals,
                             ratio := if cfg.rhoend != 0.0 then old(st.rho) / cfg.rhoend else old(st.ratio))
    {
      var next := Radius.NextRhoDelta(st.rho, cfg.rhoend, root);
      var ra := if cfg.rhoend != 0.0 then st.rho / cfg.rhoend else st.ratio;
      st := st.(rho := next.rho, delta := next.delta, ratio := ra, ntrits := 0, nfsav := nevals);
    }

    /** bobyqb_ip_dist: knew becomes the first interpolation point farthest
        from xopt whose squared distance exceeds the current distsq, and
        distsq that distance; knew stays 0 when no point is farther. The
        result says whether a point was found. */
    method IpDist() returns (found: int)
      requires Allocated()
      modifies this`st
      ensures st == old(st).(knew := st.knew, distsq := st.distsq)
      ensures 0 <= st.knew <= npt && found == (if st.knew == 0 then 0 else 1)
      ensures forall k :: 0 <= k < npt ==> DistSq(wm.xpt[k], wm.xopt) <= st.distsq
      ensures st.knew == 0 ==> st.distsq == old(st.distsq)
      ensures st.knew > 0 ==> st.distsq == DistSq(wm.xpt[st.knew - 1], wm.xopt) > old(st.distsq)
      ensures st.knew > 0 ==> forall k :: 0 <= k < st.knew - 1 ==> DistSq(wm.xpt[k], wm.xopt) < st.distsq
    {
      var d0 := st.distsq;
      var kn, best := 0, d0;
      var k := 0;
      while k < npt
        invariant 0 <= k <= npt && 0 <= kn <= k
        invariant forall j :: 0 <= j < k ==> DistSq(wm.xpt[j], wm.xopt) <= best
        invariant kn == 0 ==> best == d0
        invariant kn > 0 ==> best == DistSq(wm.xpt[kn - 1], wm.xopt) > d0
        invariant kn > 0 ==> forall j :: 0 <= j < kn - 1 ==> DistSq(wm.xpt[j], wm.xopt) < best
        invariant st == old(st)
      {
        var sum := Vectors.DistSqLoop(wm.xpt[k], wm.xopt);
        if sum > best {
          kn, best := k + 1, sum;
        }
        k := k + 1;
      }
      st := st.(knew := kn, distsq := best);
      found := if kn == 0 then 0 else 1;
    }

    /** trsbox_set_xnew: the end point xnew of the trust-region step, on
        the bound for the coordinates fixed there (xbdi = -1 or 1) and the
        step clamped into [sl, su] otherwise; dtrial is the step it makes
        and dsq its squared length. xnew is feasible. */
    method TrsboxSetXnew()
      requires Framed()
      modifies this`wm, this`st
      ensures Framed() && InBox(wm.xnew, wm.sl, wm.su)
      ensures wm == old(wm).(xnew := wm.xnew, dtrial := wm.dtrial)
      ensures forall i :: 0 <= i < n ==>
        wm.xnew[i] == TrsboxComponent(wm.xbdi[i], wm.xopt[i], old(wm.dtrial[i]), wm.sl[i], wm.su[i])
        && wm.dtrial[i] == wm.xnew[i] - wm.xopt[i]
      ensures st == old(st).(dsq := SumSq(wm.dtrial))
    {
      var xn, d, sq := Vectors.TrsboxLoop(wm.xbdi, wm.xopt, wm.dtrial, wm.sl, wm.su);
      wm := wm.(xnew := xn, dtrial := d);
      st := st.(dsq := sq);
    }

    /** bobyqa_altmov's xnew (bobyqa.c:1873-1879): the point on the line
        from xopt to interpolation point ksav + 1 at parameter stpsav, clamped
        into [sl, su], with coordinate |ibdsav| put on the bound the line
        search hit. It is feasible. */
    method AltmovXnew(ksav: int, stpsav: real, ibdsav: int)
      requires Framed() && 0 <= ksav < npt && -n < ibdsav < n
      modifies this`wm
      ensures Framed() && InBox(wm.xnew, wm.sl, wm.su)
      ensures wm == old(wm).(xnew := wm.xnew)
      ensures forall i :: 0 <= i < n ==>
        wm.xnew[i] == (if ibdsav < 0 && i == -ibdsav then wm.sl[i]
                       else if ibdsav > 0 && i == ibdsav then wm.su[i]
                       else LineComponent(wm.xopt[i], wm.xpt[ksav][i], stpsav, wm.sl[i], wm.su[i]))
    {
      var xn := Vectors.LineLoop(wm.xnew, wm.xopt, wm.xpt[ksav], stpsav, wm.sl, wm.su, ibdsav);
      wm := wm.(xnew := xn);
    }

    /** bobyqa_altmov's constrained Cauchy point xalt (bobyqa.c:1950-1961):
        free coordinates (ccstep == bigstp) step along -step*glag and are
        clamped, the others stay at xopt or sit on a bound. It is
        feasible. */
    method AltmovXalt(bigstp: real, step: real)
      requires Framed()
      modifies this`wm
      ensures Framed() && InBox(wm.xalt, wm.sl, wm.su)
      ensures wm == old(wm).(ccstep := wm.ccstep, xalt := wm.xalt)
      ensures forall i :: 0 <= i < n ==>
        (wm.ccstep[i], wm.xalt[i])
        == CauchyComponent(old(wm.ccstep[i]), bigstp, step, wm.glag[i], wm.xopt[i], wm.sl[i], wm.su[i])
      ensures forall i :: n <= i < 2 * n ==> wm.ccstep[i] == old(wm.ccstep[i])
    {
      var cc, alt := Vectors.CauchyLoop(wm.ccstep[..n], wm.xalt, bigstp, step, wm.glag, wm.xopt, wm.sl, wm.su);
      wm := wm.(ccstep := cc + wm.ccstep[n..], xalt := alt);
    }

    /** The evaluation step of bobyqb_calc_with_xnew (bobyqa.c:1000-1035):
        x becomes xbase + xnew clipped into the box; when the budget is spent
        or an earlier stop is pending, nothing is evaluated and the best
        point is reported; otherwise the objective is evaluated once at x,
        and the run stops on ntrits == -1 (XTOL_REACHED) or on a value below
        minf_max. None means the main loop goes on. */
    method CalcWithXnew() returns (r: Option<ResultCode>)
      requires Framed() && Logged() && 1 <= st.kopt <= npt
      modifies this`wm, this`st, this`nevals, this`evalLog
      ensures Framed() && Logged()
      ensures st == old(st).(rc := st.rc, minf := st.minf, newf := st.newf, fsave := st.fsave)
      ensures old(BudgetSpent()) ==> st.rc == MaxevalReached && r == Some(MaxevalReached)
      ensures old(BudgetSpent()) || old(st.rc) != Success ==>
        nevals == old(nevals) && evalLog == old(evalLog) && r == Some(st.rc)
        && st.minf == Min(wm.fval[st.kopt - 1], st.fsave)
      ensures !old(BudgetSpent()) && old(st.rc) == Success ==>
        nevals == old(nevals) + 1
        && evalLog == old(evalLog) + [ClipPoint(wm.xl, wm.xu, wm.xbase, wm.xnew, wm.sl, wm.su)]
      ensures !old(BudgetSpent()) && old(st.rc) == Success && st.ntrits == -1 ==>
        st.fsave == st.newf && st.rc == XtolReached && r == Some(XtolReached)
        && st.minf == Min(wm.fval[st.kopt - 1], st.fsave)
      ensures !old(BudgetSpent()) && old(st.rc) == Success && st.ntrits != -1 && st.newf < cfg.minfMax ==>
        st.minf == st.newf && r == Some(MinfMaxReached) && st.rc == Success
      ensures r == None <==>
        !old(BudgetSpent()) && old(st.rc) == Success && st.ntrits != -1 && st.newf >= cfg.minfMax
      ensures !old(BudgetSpent()) && old(st.rc) == Success && st.ntrits != -1 ==> st.newf == objf(wm.xfull)
      ensures r == None ==>
        st == old(st).(newf := st.newf)
        && wm.x == ClipPoint(wm.xl, wm.xu, wm.xbase, wm.xnew, wm.sl, wm.su)
      ensures r == None && InBox(wm.xnew, wm.sl, wm.su) ==>
        forall i :: 0 <= i < n ==> wm.x[i] == wm.xbase[i] + wm.xnew[i]
      ensures var c := old(ClipPoint(wm.xl, wm.xu, wm.xbase, wm.xnew, wm.sl, wm.su));
        var w1 := old(wm).(x := c, xfull := Scatter.Scatter(old(wm.xfull), xplace, old(wm.xscale), c));
        wm == if old(BudgetSpent()) || old(st.rc) != Success then XUpdated(old(wm).(x := c), xplace, st.kopt, old(st.fsave))
              else if st.ntrits == -1 then XUpdated(w1, xplace, st.kopt, st.newf)
              else w1
    {
      var c := Vectors.ClipLoop(wm.x, wm.xl, wm.xu, wm.xbase, wm.xnew, wm.sl, wm.su);
      if BudgetSpent() || st.rc != Success {
        r := StopAt(c, if BudgetSpent() then st.(rc := MaxevalReached) else st);
      } else {
        r := EvaluateAt(c);
      }
    }

    /** The early return of bobyqb_calc_with_xnew (bobyqa.c:1011-1019): x
        is set to the clipped point c, the stop code of s is kept, and
        bobyqb_xupdate reports the best point; nothing is evaluated. */
    method StopAt(c: seq<real>, s: LoopState) returns (r: Option<ResultCode>)
      requires Framed() && Logged() && |c| == n && 1 <= s.kopt <= npt && s.rc != Success
      modifies this`wm, this`st
      ensures Framed() && Logged()
      ensures st == s.(minf := Min(wm.fval[s.kopt - 1], s.fsave)) && r == Some(s.rc)
      ensures wm == XUpdated(old(wm).(x := c), xplace, s.kopt, s.fsave)
    {
      wm := wm.(x := c);
      st := s;
      XUpdate();
      r := Some(st.rc);
    }

    /** The evaluation of bobyqb_calc_with_xnew (bobyqa.c:1021-1035) at the
        clipped point c, which lies in the box: one call of
        bobyqa_x_funcval, then XTOL_REACHED on ntrits == -1, or
        MINF_MAX_REACHED on a value below minf_max, or None to go on. */
    method EvaluateAt(c: seq<real>) returns (r: Option<ResultCode>)
      requires Framed() && Logged() && 1 <= st.kopt <= npt && st.rc == Success
      requires c == ClipPoint(wm.xl, wm.xu, wm.xbase, wm.xnew, wm.sl, wm.su)
      modifies this`wm, this`st, this`nevals, this`evalLog
      ensures Framed() && Logged()
      ensures st == old(st).(rc := st.rc, minf := st.minf, newf := st.newf, fsave := st.fsave)
      ensures nevals == old(nevals) + 1
      ensures evalLog == old(evalLog) + [ClipPoint(wm.xl, wm.xu, wm.xbase, wm.xnew, wm.sl, wm.su)]
      ensures st.ntrits == -1 ==>
        st.fsave == st.newf && st.rc == XtolReached && r == Some(XtolReached)
        && st.minf == Min(wm.fval[st.kopt - 1], st.fsave)
      ensures st.ntrits != -1 ==>
        st.newf == objf(wm.xfull) && wm.x == ClipPoint(wm.xl, wm.xu, wm.xbase, wm.xnew, wm.sl, wm.su)
      ensures st.ntrits != -1 && st.newf < cfg.minfMax ==>
        st.minf == st.newf && r == Some(MinfMaxReached) && st.rc == Success
      ensures r == None <==> st.ntrits != -1 && st.newf >= cfg.minfMax
      ensures r == None ==> st == old(st).(newf := st.newf)
      ensures var w1 := old(wm).(x := c, xfull := Scatter.Scatter(old(wm.xfull), xplace, old(wm.xscale), c));
        wm == if st.ntrits == -1 then XUpdated(w1, xplace, st.kopt, st.newf) else w1
    {
      wm := wm.(x := c);
      var f := XFuncVal(c);
      if st.ntrits == -1 {
        st := st.(newf := f, fsave := f, rc := XtolReached);
        XUpdate();
        return Some(XtolReached);
      }
      if f < cfg.minfMax {
        st := st.(newf := f, minf := f);
        return Some(MinfMaxReached);
      }
      st := st.(newf := f);
      r := None;
    }

    /** The bookkeeping of bobyqb_calc_with_xnew after the evaluation
        (bobyqa.c:1039-1083), given the change vquad that the quadratic
        model predicts for the step (its computation from gopt, hq, pq and
        w2npt is not modelled): fopt, the last three prediction errors and
        nfsav are updated; after a trust-region step that fails to reduce
        the model the run stops with XTOL_REACHED; otherwise the reduction
        ratio sets the next radius. */
    method AfterEvaluation(vquad: real) returns (r: Option<ResultCode>)
      requires Placed() && 1 <= st.kopt <= npt
      modifies this`wm, this`st
      ensures Placed() && st.kopt == old(st.kopt) && wm.fval == old(wm.fval)
      ensures st.fopt == wm.fval[st.kopt - 1]
      ensures st.diffa == Abs(st.newf - st.fopt - vquad) && st.diffb == old(st.diffa) && st.diffc == old(st.diffb)
      ensures st.nfsav == (if st.dnorm > st.rho then nevals else old(st.nfsav))
      ensures st.ntrits > 0 && vquad >= 0.0 ==>
        r == Some(XtolReached)
        && st == old(st).(fopt := st.fopt, diffa := st.diffa, diffb := st.diffb, diffc := st.diffc,
                          nfsav := st.nfsav, fsave := st.newf, rc := XtolReached, minf := Min(st.fopt, st.newf))
        && wm == XUpdated(old(wm), xplace, st.kopt, st.newf)
      ensures r == None <==> st.ntrits <= 0 || vquad < 0.0
      ensures st.ntrits > 0 && vquad < 0.0 ==>
        wm == old(wm)
        && st == old(st).(fopt := st.fopt, diffa := st.diffa, diffb := st.diffb, diffc := st.diffc,
                          nfsav := st.nfsav, ratio := (st.newf - st.fopt) / vquad,
                          delta := Radius.RatioTestDelta(st.ratio, old(st.delta), st.dnorm, st.rho))
        && (st.ratio > 0.0 <==> st.newf < st.fopt)
      ensures st.ntrits <= 0 ==>
        wm == old(wm)
        && st == old(st).(fopt := st.fopt, diffa := st.diffa, diffb := st.diffb, diffc := st.diffc,
                          nfsav := st.nfsav)
    {
      var fo := wm.fval[st.kopt - 1];
      var da := Abs(st.newf - fo - vquad);
      var nfs := if st.dnorm > st.rho then nevals else st.nfsav;
      st := st.(fopt := fo, diffc := st.diffb, diffb := st.diffa, diffa := da, nfsav := nfs);
      if st.ntrits > 0 && vquad >= 0.0 {
        st := st.(fsave := st.newf, rc := XtolReached);
        XUpdate();
        return Some(XtolReached);
      }
      if st.ntrits > 0 {
        var ra := (st.newf - fo) / vquad;
        QuotientSign(st.newf - fo, vquad);
        st := st.(ratio := ra, delta := Radius.RatioTestDelta(ra, st.delta, st.dnorm, st.rho));
      }
      r := None;
    }

    /** bobyqa_minimize_single_parameter (bobyqa.c:191-357): the search of
        SingleSearch.Search, the objective seen from the only fitted
        parameter being objf at the full list with that parameter in place.
        The count of evaluations restarts at zero; x becomes the position
        reported and minf its value, the full list holds the last position
        evaluated, and the log grows by every position evaluated. */
    method MinimizeSingleParameter() returns (r: ResultCode)
      requires Placed()
      modifies this`wm, this`st, this`nevals, this`evalLog
      ensures n != 1 ==> r == InvalidArgs
      ensures r == InvalidArgs ==> wm == old(wm) && st == old(st) && nevals == old(nevals) && evalLog == old(evalLog)
      ensures |old(evalLog)| <= |evalLog| && evalLog[..|old(evalLog)|] == old(evalLog)
      ensures wm == old(wm).(x := wm.x, xfull := wm.xfull) && st == old(st).(minf := st.minf)
      ensures Placed()
      ensures n == 1 ==>
        SingleSearch.Outcome(Bracket.AsWritten, objf, old(wm.xfull), xplace, wm.xscale, old(wm.x[0]), wm.xl[0], wm.xu[0], cfg.rhoend,
                             cfg.rhobeg, cfg.maxeval, r, wm.x, wm.xfull, st.minf, nevals, evalLog[|old(evalLog)|..])
    {
      if n != 1 {
        return InvalidArgs;
      }
      var x: seq<real>, full: seq<real>, minf: real, ev: int;
      ghost var log: seq<seq<real>>;
      r, x, full, minf, ev, log :=
        SingleSearch.Run(Bracket.AsWritten, objf, wm.xfull, xplace, wm.xscale, wm.x[0], wm.xl[0], wm.xu[0], cfg.rhoend, cfg.rhobeg,
                         cfg.maxeval);
      if r == InvalidArgs {
        return;
      }
      wm := wm.(x := x, xfull := full);
      st := st.(minf := minf);
      nevals := ev;
      evalLog := evalLog + log;
    }

    /** bobyqa() (bobyqa.c:79-187) run on this record. The fitted count
        comes from fixed_params, npt from Setup.CheckedNpt; memory says
        whether bobyqa_set_memory finds its working memory. With one fitted
        parameter the search of MinimizeSingleParameter runs; with more,
        bobyqb is not modelled and its outcome is given: the code rb, the
        fitted parameters xb, the value minfb and the count nevalsb. Then
        bobyqa_xfull fills the full list, and out holds what is copied to
        the caller (x, nevals and minf), None when the call returns before
        writing them. start and searchFull are the start the search began
        from and the full list it left. */
    method Bobyqa(x0: seq<real>, dx: seq<real>, xl0: seq<real>, xu0: seq<real>, nptIn: int,
                  rhoendIn: real, xtolRel: real, minfMaxIn: real, ftolRelIn: real, ftolAbsIn: real,
                  maxevalIn: int, f: seq<real> -> real, memory: bool,
                  rb: ResultCode, xb: seq<real>, minfb: real, nevalsb: int)
      returns (r: ResultCode, out: Option<(seq<real>, int, real)>, ghost start: real, ghost searchFull: seq<real>)
      requires |dx| == |x0| && |xl0| == |x0| && |xu0| == |x0|
      requires |xb| == |Setup.FreeIndices(dx, xl0, xu0, |x0|)|
      modifies this
      ensures var k := FittedCount(dx, xl0, xu0);
        k < 1 || Setup.CheckedNpt(nptIn, k).None? ==> r == InvalidArgs && out == None && unchanged(this)
      ensures var k := FittedCount(dx, xl0, xu0);
        k >= 1 && Setup.CheckedNpt(nptIn, k).Some? && !memory ==> r == OutOfMemory && out == None && unchanged(this)
      ensures !SetsUp(dx, xl0, xu0, nptIn, memory) ==> out == None && (r == InvalidArgs || r == OutOfMemory)
      ensures SetsUp(dx, xl0, xu0, nptIn, memory) ==>
        n == FittedCount(dx, xl0, xu0) && nfull == |x0| && Setup.CheckedNpt(nptIn, n) == Some(npt)
        && Placed() && xplace == Setup.FreeIndices(dx, xl0, xu0, |x0|)
        && wm.xscale == Vectors.FreeScale(dx, xplace) && objf == f
        && wm.xl == Vectors.FreeScaled(xl0, dx, xplace) && wm.xu == Vectors.FreeScaled(xu0, dx, xplace)
        && Setup.InitialRhobeg(Setup.MinGap(wm.xl, wm.xu, n)) == Some(cfg.rhobeg)
        && cfg == Settings(cfg.rhobeg, Setup.InitialRhoend(rhoendIn, xtolRel, cfg.rhobeg),
                           minfMaxIn, ftolRelIn, ftolAbsIn, maxevalIn)
        && out == Some((wm.xfull, nevals, st.minf))
      ensures SetsUp(dx, xl0, xu0, nptIn, memory) && n == 1 ==>
        start == Setup.AdjustStart(Vectors.FreeScaled(x0, dx, xplace)[0], wm.xl[0], wm.xu[0], cfg.rhobeg).x
        && SingleSearch.Outcome(Bracket.AsWritten, f, x0, xplace, wm.xscale, start, wm.xl[0], wm.xu[0], cfg.rhoend,
                                cfg.rhobeg, cfg.maxeval, r, wm.x, searchFull, st.minf, nevals, evalLog)
        && |searchFull| == nfull && wm.xfull == Scatter.Scatter(searchFull, xplace, wm.xscale, wm.x)
      ensures SetsUp(dx, xl0, xu0, nptIn, memory) && n > 1 ==>
        r == rb && wm.x == xb && st.minf == minfb && nevals == nevalsb
        && wm.xfull == Scatter.Scatter(x0, xplace, wm.xscale, xb)
    {
      start, searchFull := 0.0, [];
      out := None;
      var fixedN := Setup.FixedParams(xl0, xu0, Some(dx));
      var fitted := |x0| - fixedN;
      if fitted < 1 {
        return InvalidArgs, out, start, searchFull;
      }
      var chosen := Setup.CheckedNpt(nptIn, fitted);
      if chosen.None? {
        return InvalidArgs, out, start, searchFull;
      }
      if !memory {
        return OutOfMemory, out, start, searchFull;
      }
      r := Prepare(x0, dx, xl0, xu0, fitted, chosen.value, rhoendIn, xtolRel, minfMaxIn, ftolRelIn, ftolAbsIn,
                   maxevalIn, f);
      if r != Success {
        return InvalidArgs, out, start, searchFull;
      }
      r, start, searchFull := Fit(rb, xb, minfb, nevalsb);
      out := Some((wm.xfull, nevals, st.minf));
    }

    /** bobyqa_set_memory followed by bobyqa_set_optimization, as bobyqa()
        calls them (bobyqa.c:139-148) once fitted_n and npt have passed
        their checks. fixed_params and bobyqa_set_optimization agree on the
        number of fitted parameters, so the only failure left is a box
        narrower than 1e-20. */
    method Prepare(x0: seq<real>, dx: seq<real>, xl0: seq<real>, xu0: seq<real>, fitted: int, points: int,
                   rhoendIn: real, xtolRel: real, minfMaxIn: real, ftolRelIn: real, ftolAbsIn: real,
                   maxevalIn: int, f: seq<real> -> real) returns (r: ResultCode)
      requires |dx| == |x0| && |xl0| == |x0| && |xu0| == |x0|
      requires fitted == FittedCount(dx, xl0, xu0) && fitted >= 1 && Setup.NptInRange(points, fitted)
      modifies this
      ensures n == fitted && nfull == |x0| && npt == points && Allocated()
      ensures r == Success || r == InvalidArgs
      ensures var p := Setup.FreeIndices(dx, xl0, xu0, |x0|);
        |p| == fitted
        && (r == Success <==> Setup.MinGap(Vectors.FreeScaled(xl0, dx, p), Vectors.FreeScaled(xu0, dx, p), n) > 1.0e-20)
      ensures r == Success ==>
        Started() && evalLog == []
        && xplace == Setup.FreeIndices(dx, xl0, xu0, |x0|) && wm.xfull == x0
        && wm.xscale == Vectors.FreeScale(dx, xplace)
        && wm.xl == Vectors.FreeScaled(xl0, dx, xplace) && wm.xu == Vectors.FreeScaled(xu0, dx, xplace)
        && Setup.InitialRhobeg(Setup.MinGap(wm.xl, wm.xu, n)) == Some(cfg.rhobeg)
        && cfg == Settings(cfg.rhobeg, Setup.InitialRhoend(rhoendIn, xtolRel, cfg.rhobeg),
                           minfMaxIn, ftolRelIn, ftolAbsIn, maxevalIn)
        && objf == f
      ensures r == Success ==> forall j :: 0 <= j < n ==>
        Setup.StartPoint(wm.x[j], wm.sl[j], wm.su[j])
        == Setup.AdjustStart(Vectors.FreeScaled(x0, dx, xplace)[j], wm.xl[j], wm.xu[j], cfg.rhobeg)
    {
      r := SetMemory(|x0|, fitted, points);
      Setup.FreeAndFixedPartition(dx, xl0, xu0, |x0|);
      r := SetOptimization(|x0|, x0, dx, xl0, xu0, rhoendIn, xtolRel, minfMaxIn, ftolRelIn, ftolAbsIn, maxevalIn, f);
    }

    /** The dispatch of bobyqa() (bobyqa.c:155-172) on a set-up record: with
        more than one fitted parameter bobyqb runs, which is not modelled,
        and leaves the code rb, the fitted parameters xb, the value minfb and
        the count nevalsb; with one, MinimizeSingleParameter searches from
        start, leaving the full list searchFull. Then bobyqa_xfull writes
        the fitted parameters into the full list. */
    method Fit(rb: ResultCode, xb: seq<real>, minfb: real, nevalsb: int)
      returns (r: ResultCode, ghost start: real, ghost searchFull: seq<real>)
      requires Placed() && |xb| == n && evalLog == []
      modifies this`wm, this`st, this`nevals, this`evalLog
      ensures Placed() && wm.(x := old(wm.x), xfull := old(wm.xfull)) == old(wm)
      ensures n == 1 ==>
        start == old(wm.x[0])
        && SingleSearch.Outcome(Bracket.AsWritten, objf, old(wm.xfull), xplace, wm.xscale, start, wm.xl[0], wm.xu[0],
                                cfg.rhoend, cfg.rhobeg, cfg.maxeval, r, wm.x, searchFull, st.minf, nevals, evalLog)
        && |searchFull| == nfull && wm.xfull == Scatter.Scatter(searchFull, xplace, wm.xscale, wm.x)
      ensures n > 1 ==>
        r == rb && wm.x == xb && st.minf == minfb && nevals == nevalsb
        && wm.xfull == Scatter.Scatter(old(wm.xfull), xplace, wm.xscale, xb)
    {
      start, searchFull := 0.0, [];
      if n > 1 {
        wm := wm.(x := xb);
        st := st.(minf := minfb);
        nevals := nevalsb;
        r := rb;
      } else {
        start := wm.x[0];
        r := MinimizeSingleParameter();
        searchFull := wm.xfull;
      }
      XFull();
    }

    /** A quotient by a negative number is positive exactly when the
        numerator is negative. */
    static lemma QuotientSign(a: real, b: real)
      requires b < 0.0
      ensures a / b > 0.0 <==> a < 0.0
    {
      if a < 0.0 {
        assert a / b == (-a) / (-b);
      } else {
        assert a / b == -(a / (-b));
      }
    }
  }
}
