// The loops of bobyqa.c that rewrite a vector or a matrix of the working
// block element by element. Each loop is a method proved against the
// function or the pointwise relation that states its result; the methods of
// BobyqaState.BobyqaData store those results in the record.
module Vectors {
  import opened Common
  import opened Bounds
  import Scatter
  import Setup

  /** The writes full[place[j]] = v[j]*scale[j] for j = 0, 1, ... in turn
      (bobyqa.c:691, 703-704). */
  method ScatterLoop(full: seq<real>, place: seq<int>, scale: seq<real>, v: seq<real>) returns (r: seq<real>)
    requires Scatter.Fits(full, place, scale, v)
    ensures r == Scatter.Scatter(full, place, scale, v)
  {
    r := full;
    var j := 0;
    while j < |v|
      invariant 0 <= j <= |v|
      invariant r == Scatter.ScatterUpTo(full, place, scale, v, j)
    {
      r := r[place[j] := Scatter.Scaled(v[j], scale[j])];
      j := j + 1;
    }
  }

  /** Every entry of place is a position of dx with a nonzero step. */
  predicate Places(dx: seq<real>, place: seq<int>)
  {
    forall j :: 0 <= j < |place| ==> 0 <= place[j] < |dx| && dx[place[j]] != 0.0
  }

  /** The scale factors |dx[i]| of the parameters at the positions place. */
  function FreeScale(dx: seq<real>, place: seq<int>): (s: seq<real>)
    requires Places(dx, place)
    ensures |s| == |place| && forall j :: 0 <= j < |s| ==> s[j] > 0.0
  {
    seq(|place|, j requires 0 <= j < |place| => Abs(dx[place[j]]))
  }

  /** The entries of v at the positions place, each divided by its scale. */
  function FreeScaled(v: seq<real>, dx: seq<real>, place: seq<int>): (r: seq<real>)
    requires |v| == |dx| && Places(dx, place)
    ensures |r| == |place|
  {
    seq(|place|, j requires 0 <= j < |place| => v[place[j]] / Abs(dx[place[j]]))
  }

  /** bobyqa_set_optimization's selection loop (bobyqa.c:742-753): the
      positions of the parameters with a nonzero step and a proper range, in
      increasing order, their scales, and the start and bounds in scaled
      units. */
  method SelectFree(x0: seq<real>, dx: seq<real>, xl0: seq<real>, xu0: seq<real>)
    returns (place: seq<int>, scale: seq<real>, xs: seq<real>, ls: seq<real>, us: seq<real>)
    requires |dx| == |x0| && |xl0| == |x0| && |xu0| == |x0|
    ensures place == Setup.FreeIndices(dx, xl0, xu0, |x0|) && Places(dx, place)
    ensures scale == FreeScale(dx, place) && xs == FreeScaled(x0, dx, place)
    ensures ls == FreeScaled(xl0, dx, place) && us == FreeScaled(xu0, dx, place)
  {
    place, scale, xs, ls, us := [], [], [], [], [];
    var i := 0;
    while i < |x0|
      invariant 0 <= i <= |x0|
      invariant place == Setup.FreeIndices(dx, xl0, xu0, i) && Places(dx, place)
      invariant scale == FreeScale(dx, place) && xs == FreeScaled(x0, dx, place)
      invariant ls == FreeScaled(xl0, dx, place) && us == FreeScaled(xu0, dx, place)
    {
      if dx[i] != 0.0 && xu0[i] > xl0[i] {
        var s := Abs(dx[i]);
        place := place + [i];
        scale := scale + [s];
        xs := xs + [x0[i] / s];
        ls := ls + [xl0[i] / s];
        us := us + [xu0[i] / s];
      }
      i := i + 1;
    }
  }

  /** Scaling keeps a proper range proper: xl < xu gives xl/s < xu/s. */
  lemma ScaledRangeProper(dx: seq<real>, xl0: seq<real>, xu0: seq<real>, place: seq<int>)
    requires |xl0| == |dx| && |xu0| == |dx| && Places(dx, place)
    requires forall j :: 0 <= j < |place| ==> xl0[place[j]] < xu0[place[j]]
    ensures forall j :: 0 <= j < |place| ==> FreeScaled(xl0, dx, place)[j] < FreeScaled(xu0, dx, place)[j]
  {
    forall j | 0 <= j < |place|
      ensures FreeScaled(xl0, dx, place)[j] < FreeScaled(xu0, dx, place)[j]
    {
      var s := Abs(dx[place[j]]);
      DivideStrict(xl0[place[j]], xu0[place[j]], s);
    }
  }

  lemma DivideStrict(a: real, b: real, s: real)
    requires a < b && s > 0.0
    ensures a / s < b / s
  {
    assert (b / s - a / s) * s == b - a;
  }

  /** The smallest gap loop of bobyqa_set_optimization (bobyqa.c:761-762). */
  method MinGapLoop(xl: seq<real>, xu: seq<real>) returns (dm: real)
    requires 1 <= |xl| && |xu| == |xl|
    ensures dm == Setup.MinGap(xl, xu, |xl|)
  {
    dm := xu[0] - xl[0];
    var j := 1;
    while j < |xl|
      invariant 1 <= j <= |xl|
      invariant dm == Setup.MinGap(xl, xu, j)
    {
      var d := xu[j] - xl[j];
      if d < dm {
        dm := d;
      }
      j := j + 1;
    }
  }

  /** The start-point loop of bobyqa_set_optimization (bobyqa.c:789-815):
      each fitted parameter moved as Setup.AdjustStart says, with the bounds
      sl, su on moves from the new start. */
  method StartLoop(x: seq<real>, xl: seq<real>, xu: seq<real>, rhobeg: real)
    returns (xs: seq<real>, sl: seq<real>, su: seq<real>)
    requires |xl| == |x| && |xu| == |x| && 0.0 < rhobeg
    requires forall j :: 0 <= j < |x| ==> 2.0 * rhobeg <= xu[j] - xl[j]
    ensures |xs| == |x| && |sl| == |x| && |su| == |x|
    ensures forall j :: 0 <= j < |x| ==>
      Setup.StartPoint(xs[j], sl[j], su[j]) == Setup.AdjustStart(x[j], xl[j], xu[j], rhobeg)
  {
    xs, sl, su := x, [], [];
    var j := 0;
    while j < |x|
      invariant 0 <= j <= |x| && |xs| == |x| && |sl| == j && |su| == j
      invariant forall k :: 0 <= k < j ==>
        Setup.StartPoint(xs[k], sl[k], su[k]) == Setup.AdjustStart(x[k], xl[k], xu[k], rhobeg)
      invariant forall k :: j <= k < |x| ==> xs[k] == x[k]
    {
      var d := xu[j] - xl[j];
      var lo := xl[j] - xs[j];
      var hi := xu[j] - xs[j];
      if lo >= -rhobeg {
        if lo >= 0.0 {
          xs := xs[j := xl[j]];
          lo, hi := 0.0, d;
        } else {
          xs := xs[j := xl[j] + rhobeg];
          lo, hi := -rhobeg, Max(xu[j] - xs[j], rhobeg);
        }
      } else if hi <= rhobeg {
        if hi <= 0.0 {
          xs := xs[j := xu[j]];
          lo, hi := -d, 0.0;
        } else {
          xs := xs[j := xu[j] - rhobeg];
          lo, hi := Min(xl[j] - xs[j], -rhobeg), rhobeg;
        }
      }
      sl, su := sl + [lo], su + [hi];
      j := j + 1;
    }
  }

  /** The clip loop before an evaluation in bobyqb_xupdate and
      bobyqb_calc_with_xnew (bobyqa.c:841-846, 1003-1008): x[i] becomes
      ShiftedClip of xbase[i] + off[i]. */
  method ClipLoop(x: seq<real>, xl: seq<real>, xu: seq<real>, xbase: seq<real>, off: seq<real>,
                  sl: seq<real>, su: seq<real>) returns (r: seq<real>)
    requires |x| == |xl| && |xu| == |xl| && |xbase| == |xl| && |off| == |xl|
    requires |sl| == |xl| && |su| == |xl|
    ensures r == ClipPoint(xl, xu, xbase, off, sl, su)
  {
    r := x;
    var i := 0;
    while i < |xl|
      invariant 0 <= i <= |xl| && |r| == |xl|
      invariant forall k :: 0 <= k < i ==> r[k] == ShiftedClip(xl[k], xu[k], xbase[k], off[k], sl[k], su[k])
    {
      var a := Max(xl[i], xbase[i] + off[i]);
      r := r[i := Min(a, xu[i])];
      if off[i] == sl[i] {
        r := r[i := xl[i]];
      }
      if off[i] == su[i] {
        r := r[i := xu[i]];
      }
      i := i + 1;
    }
  }

  /** bobyqa_prelim's clip loop (bobyqa.c:2078-2086), which tests su only
      when the displacement differs from sl. */
  method ClipPrelimLoop(x: seq<real>, xl: seq<real>, xu: seq<real>, xbase: seq<real>, off: seq<real>,
                        sl: seq<real>, su: seq<real>) returns (r: seq<real>)
    requires |x| == |xl| && |xu| == |xl| && |xbase| == |xl| && |off| == |xl|
    requires |sl| == |xl| && |su| == |xl|
    ensures r == ClipPointPrelim(xl, xu, xbase, off, sl, su)
  {
    r := x;
    var i := 0;
    while i < |xl|
      invariant 0 <= i <= |xl| && |r| == |xl|
      invariant forall k :: 0 <= k < i ==> r[k] == ShiftedClipPrelim(xl[k], xu[k], xbase[k], off[k], sl[k], su[k])
    {
      var d1 := Max(xl[i], xbase[i] + off[i]);
      r := r[i := Min(d1, xu[i])];
      if off[i] == sl[i] {
        r := r[i := xl[i]];
      } else if off[i] == su[i] {
        r := r[i := xu[i]];
      }
      i := i + 1;
    }
  }

  /** The closing loop of bobyqb_shift_xbase (bobyqa.c:946-950): xbase
      moves by xopt, xnew, sl and su are taken relative to the new base, and
      xopt becomes the origin. */
  method ShiftLoop(xbase: seq<real>, xnew: seq<real>, sl: seq<real>, su: seq<real>, xopt: seq<real>)
    returns (b: seq<real>, d: seq<real>, l: seq<real>, u: seq<real>, o: seq<real>)
    requires |xnew| == |xbase| && |sl| == |xbase| && |su| == |xbase| && |xopt| == |xbase|
    ensures |b| == |xbase| && |d| == |xbase| && |l| == |xbase| && |u| == |xbase| && o == Zeros(|xbase|)
    ensures forall i :: 0 <= i < |xbase| ==>
      b[i] == xbase[i] + xopt[i] && d[i] == xnew[i] - xopt[i]
      && l[i] == sl[i] - xopt[i] && u[i] == su[i] - xopt[i]
  {
    b, d, l, u, o := xbase, xnew, sl, su, xopt;
    var i := 0;
    while i < |xbase|
      invariant 0 <= i <= |xbase|
      invariant |b| == |xbase| && |d| == |xbase| && |l| == |xbase| && |u| == |xbase| && |o| == |xbase|
      invariant forall k :: 0 <= k < i ==> b[k] == xbase[k] + xopt[k]
      invariant forall k :: 0 <= k < i ==> d[k] == xnew[k] - xopt[k]
      invariant forall k :: 0 <= k < i ==> l[k] == sl[k] - xopt[k]
      invariant forall k :: 0 <= k < i ==> u[k] == su[k] - xopt[k]
      invariant forall k :: 0 <= k < i ==> o[k] == 0.0
      invariant forall k :: i <= k < |xbase| ==> b[k] == xbase[k] && d[k] == xnew[k]
      invariant forall k :: i <= k < |xbase| ==> l[k] == sl[k] && u[k] == su[k]
      invariant forall k :: i <= k < |xbase| ==> o[k] == xopt[k]
    {
      b, d := b[i := b[i] + o[i]], d[i := d[i] - o[i]];
      l, u := l[i := l[i] - o[i]], u[i := u[i] - o[i]];
      o := o[i := 0.0];
      i := i + 1;
    }
  }

  /** The interpolation points of bobyqb_shift_xbase, taken relative to the
      new base (bobyqa.c:933-938): xpt[k][i] -= xopt[i], column by column
      as the column-major C loop runs. */
  method ShiftPoints(xpt: seq<seq<real>>, xopt: seq<real>) returns (r: seq<seq<real>>)
    requires IsMatrix(xpt, |xpt|, |xopt|)
    ensures IsMatrix(r, |xpt|, |xopt|)
    ensures forall k, i :: 0 <= k < |xpt| && 0 <= i < |xopt| ==> r[k][i] == xpt[k][i] - xopt[i]
  {
    r := xpt;
    var i := 0;
    while i < |xopt|
      invariant 0 <= i <= |xopt| && IsMatrix(r, |xpt|, |xopt|)
      invariant forall k, c :: 0 <= k < |xpt| && 0 <= c < i ==> r[k][c] == xpt[k][c] - xopt[c]
      invariant forall k, c :: 0 <= k < |xpt| && i <= c < |xopt| ==> r[k][c] == xpt[k][c]
    {
      var k := 0;
      while k < |xpt|
        invariant 0 <= k <= |xpt| && IsMatrix(r, |xpt|, |xopt|)
        invariant forall q, c :: 0 <= q < |xpt| && 0 <= c < i ==> r[q][c] == xpt[q][c] - xopt[c]
        invariant forall q :: 0 <= q < k ==> r[q][i] == xpt[q][i] - xopt[i]
        invariant forall q, c :: 0 <= q < |xpt| && i < c < |xopt| ==> r[q][c] == xpt[q][c]
        invariant forall q :: k <= q < |xpt| ==> r[q][i] == xpt[q][i]
      {
        r := r[k := r[k][i := r[k][i] - xopt[i]]];
        k := k + 1;
      }
      i := i + 1;
    }
  }

  /** The value that bobyqb_shift_xbase's copy loop leaves at row row,
      column c of bmat: the trailing k-by-k block below row p gets its upper
      triangle from the lower one. */
  function MirrorEntry(b: seq<seq<real>>, p: nat, k: nat, row: nat, c: nat): (v: real)
    requires IsMatrix(b, p + k, k) && row < p + k && c < k
    ensures row < p || c < row - p ==> v == b[row][c]
    ensures SymmetricTrailing(b, p, k) ==> v == b[row][c]
  {
    if row >= p && row - p <= c then b[p + c][row - p] else b[row][c]
  }

  /** The trailing block of bmat below row p is symmetric. */
  predicate SymmetricTrailing(b: seq<seq<real>>, p: nat, k: nat)
    requires IsMatrix(b, p + k, k)
  {
    forall row :: p <= row < p + k ==> forall c :: 0 <= c < k ==> b[row][c] == b[p + c][row - p]
  }

  /** The copy loop of bobyqb_shift_xbase (bobyqa.c:939-944 with the hq
      revision left out): bmat[p+j][i] = bmat[p+i][j] for j <= i. */
  method MirrorLoop(b: seq<seq<real>>, p: nat, k: nat) returns (r: seq<seq<real>>)
    requires IsMatrix(b, p + k, k)
    ensures IsMatrix(r, p + k, k) && SymmetricTrailing(r, p, k)
    ensures forall row, c :: 0 <= row < p + k && 0 <= c < k ==> r[row][c] == MirrorEntry(b, p, k, row, c)
  {
    r := b;
    var i := 0;
    while i < k
      invariant 0 <= i <= k && IsMatrix(r, p + k, k)
      invariant forall row, c :: 0 <= row < p && 0 <= c < k ==> r[row][c] == b[row][c]
      invariant forall row, c :: p <= row < p + k && row - p <= c < i ==> r[row][c] == b[p + c][row - p]
      invariant forall row, c :: p <= row < p + k && i <= c < k ==> r[row][c] == b[row][c]
      invariant forall row, c :: p <= row < p + k && 0 <= c < row - p ==> r[row][c] == b[row][c]
    {
      r := MirrorColumn(r, p, k, i);
      i := i + 1;
    }
    forall row | p <= row < p + k
      ensures forall c :: 0 <= c < k ==> r[row][c] == r[p + c][row - p]
    {
      var a := row - p;
      forall c | 0 <= c < k
        ensures r[row][c] == r[p + c][a]
      {
        if a < c {
          assert r[p + a][c] == b[p + c][a];
          assert r[p + c][a] == b[p + c][a];
        } else if c < a {
          assert r[p + c][a] == b[p + a][c];
          assert r[p + a][c] == b[p + a][c];
        }
      }
    }
  }

  /** One pass of the inner copy loop: column i of the trailing block, from
      row p down to the diagonal, takes the values of row p+i. */
  method MirrorColumn(b: seq<seq<real>>, p: nat, k: nat, i: nat) returns (r: seq<seq<real>>)
    requires IsMatrix(b, p + k, k) && i < k
    ensures IsMatrix(r, p + k, k)
    ensures forall row, c :: 0 <= row < p + k && 0 <= c < k && !(c == i && p <= row <= p + i) ==> r[row][c] == b[row][c]
    ensures forall row :: p <= row <= p + i ==> r[row][i] == b[p + i][row - p]
  {
    r := b;
    var j := 0;
    while j <= i
      invariant 0 <= j <= i + 1 && IsMatrix(r, p + k, k)
      invariant forall row, c :: 0 <= row < p + k && 0 <= c < k && !(c == i && p <= row < p + j) ==> r[row][c] == b[row][c]
      invariant forall row :: p <= row < p + j ==> r[row][i] == b[p + i][row - p]
    {
      r := r[p + j := r[p + j][i := r[p + i][j]]];
      j := j + 1;
    }
  }

  /** trsbox_set_xnew's loop (bobyqa.c:2568-2577): the end point of the
      trust-region step, the step it makes from xopt, and its squared
      length. */
  method TrsboxLoop(xbdi: seq<real>, xopt: seq<real>, dtrial: seq<real>, sl: seq<real>, su: seq<real>)
    returns (xnew: seq<real>, d: seq<real>, dsq: real)
    requires |xopt| == |xbdi| && |dtrial| == |xbdi| && |sl| == |xbdi| && |su| == |xbdi|
    ensures |xnew| == |xbdi| && |d| == |xbdi|
    ensures forall i :: 0 <= i < |xbdi| ==>
      xnew[i] == TrsboxComponent(xbdi[i], xopt[i], dtrial[i], sl[i], su[i]) && d[i] == xnew[i] - xopt[i]
    ensures dsq == SumSq(d)
  {
    xnew, d, dsq := [], [], 0.0;
    var i := 0;
    while i < |xbdi|
      invariant 0 <= i <= |xbdi| && |xnew| == i && |d| == i
      invariant forall k :: 0 <= k < i ==>
        xnew[k] == TrsboxComponent(xbdi[k], xopt[k], dtrial[k], sl[k], su[k]) && d[k] == xnew[k] - xopt[k]
      invariant dsq == SumSqPrefix(d, i)
    {
      var v: real;
      if xbdi[i] == -1.0 {
        v := sl[i];
      } else if xbdi[i] == 1.0 {
        v := su[i];
      } else {
        var d1 := Min(xopt[i] + dtrial[i], su[i]);
        v := Max(d1, sl[i]);
      }
      var step := v - xopt[i];
      assert SumSqPrefix(d + [step], i) == SumSqPrefix(d, i) by {
        PrefixUnchanged(d, [step], i);
      }
      xnew, d := xnew + [v], d + [step];
      dsq := dsq + Square(step);
      i := i + 1;
    }
  }

  /** Appending leaves the sums of squares of a prefix unchanged. */
  lemma {:induction false} PrefixUnchanged(a: seq<real>, b: seq<real>, k: nat)
    requires k <= |a|
    ensures SumSqPrefix(a + b, k) == SumSqPrefix(a, k)
  {
    if k > 0 {
      PrefixUnchanged(a, b, k - 1);
      assert (a + b)[k - 1] == a[k - 1];
    }
  }

  /** altmov's construction of xnew on the line from xopt towards the
      interpolation point xk (bobyqa.c:1873-1879): each coordinate clamped
      into [sl, su], and coordinate |ibd| put on the bound that the line
      search hit (sl for ibd < 0, su for ibd > 0). */
  method LineLoop(xnew: seq<real>, xopt: seq<real>, xk: seq<real>, step: real,
                  sl: seq<real>, su: seq<real>, ibd: int) returns (r: seq<real>)
    requires |xopt| == |xnew| && |xk| == |xnew| && |sl| == |xnew| && |su| == |xnew|
    requires -|xnew| < ibd < |xnew|
    ensures |r| == |xnew|
    ensures forall i :: 0 <= i < |xnew| ==>
      r[i] == (if ibd < 0 && i == -ibd then sl[i]
               else if ibd > 0 && i == ibd then su[i]
               else LineComponent(xopt[i], xk[i], step, sl[i], su[i]))
  {
    r := xnew;
    var i := 0;
    while i < |xnew|
      invariant 0 <= i <= |xnew| && |r| == |xnew|
      invariant forall k :: 0 <= k < i ==> r[k] == LineComponent(xopt[k], xk[k], step, sl[k], su[k])
    {
      var temp := xopt[i] + step * (xk[i] - xopt[i]);
      var d2 := Min(su[i], temp);
      r := r[i := Max(sl[i], d2)];
      i := i + 1;
    }
    if ibd < 0 {
      r := r[-ibd := sl[-ibd]];
    }
    if ibd > 0 {
      r := r[ibd := su[ibd]];
    }
  }

  /** altmov's construction of the constrained Cauchy point xalt
      (bobyqa.c:1950-1961): the free components of ccstep get their step
      and every component of xalt is set. */
  method CauchyLoop(ccstep: seq<real>, xalt: seq<real>, bigstp: real, step: real, glag: seq<real>,
                    xopt: seq<real>, sl: seq<real>, su: seq<real>)
    returns (cc: seq<real>, alt: seq<real>)
    requires |xalt| == |ccstep| && |glag| == |ccstep| && |xopt| == |ccstep|
    requires |sl| == |ccstep| && |su| == |ccstep|
    ensures |cc| == |ccstep| && |alt| == |ccstep|
    ensures forall i :: 0 <= i < |ccstep| ==>
      (cc[i], alt[i]) == CauchyComponent(ccstep[i], bigstp, step, glag[i], xopt[i], sl[i], su[i])
  {
    cc, alt := ccstep, xalt;
    var i := 0;
    while i < |ccstep|
      invariant 0 <= i <= |ccstep| && |cc| == |ccstep| && |alt| == |ccstep|
      invariant forall k :: 0 <= k < i ==>
        (cc[k], alt[k]) == CauchyComponent(ccstep[k], bigstp, step, glag[k], xopt[k], sl[k], su[k])
      invariant forall k :: i <= k < |ccstep| ==> cc[k] == ccstep[k]
    {
      if cc[i] == bigstp {
        cc := cc[i := -step * glag[i]];
        var d2 := Min(su[i], xopt[i] + cc[i]);
        alt := alt[i := Max(sl[i], d2)];
      } else if cc[i] == 0.0 {
        alt := alt[i := xopt[i]];
      } else if glag[i] > 0.0 {
        alt := alt[i := sl[i]];
      } else {
        alt := alt[i := su[i]];
      }
      i := i + 1;
    }
  }

  /** The inner loop of bobyqb_ip_dist (bobyqa.c:1471-1474): the squared
      distance between an interpolation point and xopt. */
  method DistSqLoop(a: seq<real>, b: seq<real>) returns (s: real)
    requires |b| == |a|
    ensures s == DistSq(a, b)
  {
    s := 0.0;
    var j := 0;
    while j < |a|
      invariant 0 <= j <= |a|
      invariant s == DistSqPrefix(a, b, j)
    {
      var d := a[j] - b[j];
      s := s + Square(d);
      j := j + 1;
    }
  }

  /** The copy of the best interpolation point into xopt after
      bobyqa_prelim (bobyqa.c:1528-1531), with the sum of its squares. */
  method CopyWithSumSq(row: seq<real>) returns (v: seq<real>, sq: real)
    ensures v == row && sq == SumSq(row)
  {
    v, sq := [], 0.0;
    var i := 0;
    while i < |row|
      invariant 0 <= i <= |row| && v == row[..i]
      invariant sq == SumSqPrefix(v, i)
    {
      assert SumSqPrefix(v + [row[i]], i) == SumSqPrefix(v, i) by {
        PrefixUnchanged(v, [row[i]], i);
      }
      v := v + [row[i]];
      sq := sq + Square(row[i]);
      i := i + 1;
    }
    assert v == row;
  }
}
