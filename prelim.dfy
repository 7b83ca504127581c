// The displacements from xbase of the initial interpolation points of
// bobyqa_prelim (bobyqa.c:2049-2073). Point 1 is xbase itself; points
// 2..n+1 step by stepa along one coordinate, points n+2..2n+1 by stepb
// along the same coordinates, and the remaining points combine the stepa
// displacements of two coordinates ipt, jpt.
module Prelim {
  import opened Common
  import opened Bounds
  import Indexing
  import Setup
  import Scatter

  /** The step along coordinate j of points 2..n+1: rhobeg, or -rhobeg when
      the start sits on its upper bound (bobyqa.c:2056-2057). */
  function StepA(rhobeg: real, su: real): (s: real)
    ensures s == rhobeg || s == -rhobeg
  {
    if su == 0.0 then -rhobeg else rhobeg
  }

  /** The second step along coordinate j of points n+2..2n+1: -rhobeg,
      changed to min(2 rhobeg, su) when the start sits on the lower bound and
      to max(-2 rhobeg, sl) when it sits on the upper bound
      (bobyqa.c:2061-2065). */
  function StepB(rhobeg: real, sl: real, su: real): (s: real)
    ensures su == 0.0 ==> s == Max(-2.0 * rhobeg, sl)
    ensures su != 0.0 && sl == 0.0 ==> s == Min(2.0 * rhobeg, su)
    ensures su != 0.0 && sl != 0.0 ==> s == -rhobeg
  {
    var b0 := -rhobeg;
    var b1 := if sl == 0.0 then Min(2.0 * rhobeg, su) else b0;
    if su == 0.0 then Max(-2.0 * rhobeg, sl) else b1
  }

  /** What the start-point adjustment of bobyqa_set_optimization leaves for
      one coordinate: the start lies in the box, the box is at least
      2 rhobeg wide, and each bound is met exactly or at least rhobeg away. */
  predicate StartFacts(rhobeg: real, sl: real, su: real)
  {
    0.0 < rhobeg && sl <= 0.0 <= su && 2.0 * rhobeg <= su - sl
    && (sl == 0.0 || sl <= -rhobeg) && (su == 0.0 || su >= rhobeg)
  }

  /** StartFacts for every coordinate. */
  predicate StartBounds(rhobeg: real, sl: seq<real>, su: seq<real>)
  {
    |su| == |sl| && forall j :: 0 <= j < |sl| ==> StartFacts(rhobeg, sl[j], su[j])
  }

  /** Both steps stay within the bounds, are non-zero and differ, so the
      divisions by stepa, stepb and stepb - stepa in bobyqa_prelim are
      defined; they have opposite signs exactly when the start is off both
      bounds, which is when prelim may swap the two points. */
  lemma StepsFeasible(rhobeg: real, sl: real, su: real)
    requires StartFacts(rhobeg, sl, su)
    ensures sl <= StepA(rhobeg, su) <= su
    ensures sl <= StepB(rhobeg, sl, su) <= su
    ensures StepA(rhobeg, su) != 0.0 && StepB(rhobeg, sl, su) != 0.0
    ensures StepB(rhobeg, sl, su) != StepA(rhobeg, su)
    ensures StepA(rhobeg, su) * StepB(rhobeg, sl, su) < 0.0 <==> sl != 0.0 && su != 0.0
  {
    var a, b := StepA(rhobeg, su), StepB(rhobeg, sl, su);
    if sl == 0.0 {
      assert a == rhobeg && b == 2.0 * rhobeg;
      assert a * b == 2.0 * (rhobeg * rhobeg);
    } else if su == 0.0 {
      assert a == -rhobeg && b == -2.0 * rhobeg;
      assert a * b == 2.0 * (rhobeg * rhobeg);
    } else {
      assert a == rhobeg && b == -rhobeg;
      assert a * b == -(rhobeg * rhobeg);
    }
  }

  /** The displacement of point nfm + 1 (0-based row nfm of xpt), written
      into a row of zeros: none for the first point, stepa or stepb along one
      coordinate for the next 2n points, and the copies of the stepa entries
      of rows ipt and jpt for the rest (bobyqa.c:2049-2073). */
  function NewRow(xpt: seq<seq<real>>, nfm: nat, n: nat, rhobeg: real, sl: seq<real>, su: seq<real>): (row: seq<real>)
    requires n >= 1 && IsMatrix(xpt, |xpt|, n) && |sl| == n && |su| == n
    requires nfm < |xpt| <= PackedSize(n + 1)
    ensures |row| == n
    ensures 1 <= nfm <= 2 * n ==> OnAxis(row, Axis(nfm, n))
    ensures StartBounds(rhobeg, sl, su) && (forall k :: 0 <= k < nfm ==> InBox(xpt[k], sl, su))
            ==> InBox(row, sl, su)
  {
    if nfm == 0 then Zeros(n)
    else if nfm <= n then
      ZerosFeasible(rhobeg, sl, su);
      StepAFeasible(rhobeg, sl, su, nfm - 1);
      Zeros(n)[nfm - 1 := StepA(rhobeg, su[nfm - 1])]
    else if nfm <= 2 * n then
      ZerosFeasible(rhobeg, sl, su);
      StepBFeasible(rhobeg, sl, su, nfm - n - 1);
      Zeros(n)[nfm - n - 1 := StepB(rhobeg, sl[nfm - n - 1], su[nfm - n - 1])]
    else
      PackedSizeClosedForm(n + 1);
      Indexing.PrelimPairInRange(n, nfm, |xpt|);
      var (ipt, jpt) := Indexing.PrelimPair(n, nfm);
      ZerosFeasible(rhobeg, sl, su);
      Zeros(n)[ipt - 1 := xpt[ipt][ipt - 1]][jpt - 1 := xpt[jpt][jpt - 1]]
  }

  /** Zero displacement is feasible. */
  lemma ZerosFeasible(rhobeg: real, sl: seq<real>, su: seq<real>)
    ensures StartBounds(rhobeg, sl, su) ==> InBox(Zeros(|sl|), sl, su)
  {
  }

  lemma StepAFeasible(rhobeg: real, sl: seq<real>, su: seq<real>, j: nat)
    requires |sl| == |su| && j < |sl|
    ensures StartBounds(rhobeg, sl, su) ==> sl[j] <= StepA(rhobeg, su[j]) <= su[j]
  {
    if StartBounds(rhobeg, sl, su) {
      StepsFeasible(rhobeg, sl[j], su[j]);
    }
  }

  lemma StepBFeasible(rhobeg: real, sl: seq<real>, su: seq<real>, j: nat)
    requires |sl| == |su| && j < |sl|
    ensures StartBounds(rhobeg, sl, su) ==> sl[j] <= StepB(rhobeg, sl[j], su[j]) <= su[j]
  {
    if StartBounds(rhobeg, sl, su) {
      StepsFeasible(rhobeg, sl[j], su[j]);
    }
  }

  /** The admissible npt in the form the prelim loop uses. */
  lemma PointCount(npt: int, n: nat)
    requires Setup.NptInRange(npt, n)
    ensures n + 2 <= npt <= PackedSize(n + 1)
  {
    PackedSizeClosedForm(n + 1);
    assert (n + 2) * (n + 1) == (n + 1) * (n + 2);
  }

  /** The coordinate along which point k + 1 (row k), 1 <= k <= 2n, is
      displaced. */
  function Axis(k: int, n: int): int
  {
    if k <= n then k - 1 else k - n - 1
  }

  /** row is zero except possibly in coordinate c. */
  predicate OnAxis(row: seq<real>, c: int)
  {
    forall j :: 0 <= j < |row| && j != c ==> row[j] == 0.0
  }

  /** The rows 1..2n among the first nf are displacements along their
      axes. */
  predicate AxisRows(xpt: seq<seq<real>>, nf: int, n: int)
  {
    forall k :: 1 <= k <= 2 * n && k < nf && k < |xpt| ==> OnAxis(xpt[k], Axis(k, n))
  }

  /** The table that bobyqa_prelim builds: the displacements xpt, the
      values fval and the 1-based index kopt of the least value (0 before
      the first value). */
  datatype Table = Table(xpt: seq<seq<real>>, fval: seq<real>, kopt: int)

  /** kopt indexes a least value among the first nf. */
  predicate BestSoFar(t: Table, nf: int)
  {
    (nf == 0 ==> t.kopt == 0)
    && (nf >= 1 ==> 1 <= t.kopt <= nf <= |t.fval| && forall k :: 0 <= k < nf ==> t.fval[t.kopt - 1] <= t.fval[k])
  }

  /** The bookkeeping of bobyqa_prelim after value f of point nf
      (bobyqa.c:2089-2091, 2112-2119): f is stored, kopt follows the least
      value, and for nf in n+2..2n+1 the points nf - n and nf swap their
      entries and values when their steps have opposite signs and f is the
      smaller value. kopt keeps indexing a least value; the rows not yet
      used are not touched. */
  function Record(t: Table, nf: int, n: int, f: real): (u: Table)
    requires n >= 1 && 1 <= nf <= |t.fval| && IsMatrix(t.xpt, |t.fval|, n) && BestSoFar(t, nf - 1)
    ensures IsMatrix(u.xpt, |t.fval|, n) && |u.fval| == |t.fval|
    ensures BestSoFar(u, nf) && u.fval[u.kopt - 1] <= f
    ensures forall k :: nf <= k < |t.fval| ==> u.xpt[k] == t.xpt[k]
  {
    var fv := t.fval[nf - 1 := f];
    var ko := if nf == 1 then 1 else if f < fv[t.kopt - 1] then nf else t.kopt;
    if n + 2 <= nf <= 2 * n + 1 then
      var nfx := nf - 1 - n;
      var stepa := t.xpt[nf - 1 - n][nfx - 1];
      var stepb := t.xpt[nf - 1][nfx - 1];
      if stepa * stepb < 0.0 && f < fv[nf - 1 - n] then
        Table(t.xpt[nf - 1 - n := t.xpt[nf - 1 - n][nfx - 1 := stepb]][nf - 1 := t.xpt[nf - 1][nfx - 1 := stepa]],
              fv[nf - 1 := fv[nf - 1 - n]][nf - 1 - n := f],
              if ko == nf then nf - n else ko)
      else Table(t.xpt, fv, ko)
    else Table(t.xpt, fv, ko)
  }

  /** On axis rows the swap of Record exchanges the points nf - n and nf
      together with their values, so every value stays with its point, and
      the axis rows stay on their axes. */
  lemma RecordExchanges(t: Table, nf: int, n: int, f: real)
    requires n >= 1 && 1 <= nf <= |t.fval| && IsMatrix(t.xpt, |t.fval|, n) && BestSoFar(t, nf - 1)
    requires AxisRows(t.xpt, nf, n)
    ensures var u := Record(t, nf, n, f);
      var fv := t.fval[nf - 1 := f];
      AxisRows(u.xpt, nf, n)
      && ((u.xpt == t.xpt && u.fval == fv)
          || (n + 2 <= nf <= 2 * n + 1
              && u.xpt == t.xpt[nf - 1 - n := t.xpt[nf - 1]][nf - 1 := t.xpt[nf - 1 - n]]
              && u.fval == fv[nf - 1 := fv[nf - 1 - n]][nf - 1 - n := f]))
  {
    var u := Record(t, nf, n, f);
    if n + 2 <= nf <= 2 * n + 1 && u.xpt != t.xpt {
      var nfx := nf - 1 - n;
      var a, b := t.xpt[nf - 1 - n], t.xpt[nf - 1];
      assert Axis(nf - 1 - n, n) == nfx - 1 && Axis(nf - 1, n) == nfx - 1;
      assert OnAxis(a, nfx - 1) && OnAxis(b, nfx - 1);
      assert a[nfx - 1 := b[nfx - 1]] == b;
      assert b[nfx - 1 := a[nfx - 1]] == a;
    }
  }

  /** Record only moves rows of the table, so feasible points stay feasible. */
  lemma RecordFeasible(t: Table, nf: int, n: int, f: real, sl: seq<real>, su: seq<real>)
    requires n >= 1 && 1 <= nf <= |t.fval| && IsMatrix(t.xpt, |t.fval|, n) && BestSoFar(t, nf - 1)
    requires AxisRows(t.xpt, nf, n)
    requires forall k :: 0 <= k < |t.xpt| ==> InBox(t.xpt[k], sl, su)
    ensures forall k :: 0 <= k < |t.xpt| ==> InBox(Record(t, nf, n, f).xpt[k], sl, su)
  {
    RecordExchanges(t, nf, n, f);
    var u := Record(t, nf, n, f);
    forall k | 0 <= k < |t.xpt|
      ensures InBox(u.xpt[k], sl, su)
    {
      if u.xpt != t.xpt && (k == nf - 1 - n || k == nf - 1) {
        assert u.xpt[k] == t.xpt[nf - 1] || u.xpt[k] == t.xpt[nf - 1 - n];
      } else {
        assert u.xpt[k] == t.xpt[k];
      }
    }
  }

  /** What bobyqa_prelim reads and leaves alone: npt points for n fitted
      parameters, the radius rhobeg, the bounds sl and su on moves from
      xbase, the objective, the full list xf0 it starts from with the map
      xplace and scales xscale, and the content fval0 of fval before the
      first value. */
  datatype Input = Input(npt: int, n: int, rhobeg: real, sl: seq<real>, su: seq<real>,
                         obj: seq<real> -> real, xf0: seq<real>, xplace: seq<int>, xscale: seq<real>,
                         xbase: seq<real>, fval0: seq<real>)

  /** The conditions under which bobyqa_prelim is called: npt in range,
      the start bounds of bobyqa_set_optimization, and lengths that fit. */
  predicate Admissible(p: Input)
  {
    p.n >= 1 && p.n + 2 <= p.npt <= PackedSize(p.n + 1)
    && |p.sl| == p.n && |p.su| == p.n && |p.xbase| == p.n && |p.fval0| == p.npt
    && StartBounds(p.rhobeg, p.sl, p.su) && Scatter.Fits(p.xf0, p.xplace, p.xscale, p.xbase)
  }

  /** An Input that meets those conditions. */
  type Problem = p: Input | Admissible(p)
    witness Input(3, 1, 1.0, [-1.0], [1.0], _ => 0.0, [0.0], [0], [1.0], [0.0], [0.0, 0.0, 0.0])

  /** The value of displacement d: the objective at the full list that has
      xbase + d in the places of the fitted parameters and the fixed
      parameters of xf0 elsewhere. */
  function Value(p: Problem, d: seq<real>): real
    requires |d| == p.n
  {
    p.obj(Scatter.Scatter(p.xf0, p.xplace, p.xscale, Plus(p.xbase, d)))
  }

  /** Each of the first m values of t is the value of its point. */
  predicate ValuesMatch(t: Table, m: int, p: Problem)
  {
    0 <= m <= |t.fval| && m <= |t.xpt|
    && (forall k :: 0 <= k < m ==> |t.xpt[k]| == p.n)
    && forall k :: 0 <= k < m ==> t.fval[k] == Value(p, t.xpt[k])
  }

  /** The table of bobyqa_prelim before point nf + 1 is made: every point
      is feasible, the rows not yet used are zero, the axis rows are on their
      axes, kopt indexes a least value so far, and every value so far is the
      value of its point. */
  predicate TableInv(t: Table, nf: int, p: Problem)
  {
    0 <= nf <= p.npt && IsMatrix(t.xpt, p.npt, p.n) && |t.fval| == p.npt
    && (forall k :: 0 <= k < p.npt ==> InBox(t.xpt[k], p.sl, p.su))
    && (forall k :: nf <= k < p.npt ==> t.xpt[k] == Zeros(p.n))
    && AxisRows(t.xpt, nf, p.n) && BestSoFar(t, nf) && ValuesMatch(t, nf, p)
  }

  /** Recording the value f of the point in row nf - 1 keeps every value
      with its point, also when Record swaps two points. */
  lemma MatchesAfterRecord(t: Table, nf: int, p: Problem, f: real)
    requires 1 <= nf <= |t.fval| && IsMatrix(t.xpt, |t.fval|, p.n) && BestSoFar(t, nf - 1)
    requires AxisRows(t.xpt, nf, p.n) && ValuesMatch(t, nf - 1, p)
    requires f == Value(p, t.xpt[nf - 1])
    ensures ValuesMatch(Record(t, nf, p.n, f), nf, p)
  {
    RecordExchanges(t, nf, p.n, f);
  }

  /** One pass of the loop of bobyqa_prelim: point nf + 1 (NewRow) is put
      in row nf and its value recorded. The pass keeps TableInv: the new
      point is feasible and on its axis (PointWritten), and Record keeps
      every value with its point (ValueRecorded). */
  function Step(t: Table, nf: int, p: Problem): (u: Table)
    requires TableInv(t, nf, p) && nf < p.npt
    ensures TableInv(u, nf + 1, p)
  {
    var row := NewRow(t.xpt, nf, p.n, p.rhobeg, p.sl, p.su);
    var t1 := t.(xpt := t.xpt[nf := row]);
    PointWritten(t, nf, p, row);
    ValueRecorded(t1, nf + 1, p, row, Value(p, row));
    Record(t1, nf + 1, p.n, Value(p, row))
  }

  /** The table of bobyqa_prelim between making point nf and recording its
      value: TableInv for nf points except that the value of the last one is
      still to be recorded. */
  predicate Pending(t: Table, nf: int, p: Problem)
  {
    1 <= nf <= p.npt && IsMatrix(t.xpt, p.npt, p.n) && |t.fval| == p.npt
    && (forall k :: 0 <= k < p.npt ==> InBox(t.xpt[k], p.sl, p.su))
    && (forall k :: nf <= k < p.npt ==> t.xpt[k] == Zeros(p.n))
    && AxisRows(t.xpt, nf, p.n) && BestSoFar(t, nf - 1) && ValuesMatch(t, nf - 1, p)
  }

  /** Writing point nf + 1 into row nf leaves a table with that value
      pending. */
  lemma PointWritten(t: Table, nf: int, p: Problem, row: seq<real>)
    requires TableInv(t, nf, p) && nf < p.npt
    requires row == NewRow(t.xpt, nf, p.n, p.rhobeg, p.sl, p.su)
    ensures Pending(t.(xpt := t.xpt[nf := row]), nf + 1, p) && t.xpt[nf := row][nf] == row
  {
    var t1 := t.(xpt := t.xpt[nf := row]);
    assert forall k :: 0 <= k < p.npt && k != nf ==> t1.xpt[k] == t.xpt[k];
    assert ValuesMatch(t1, nf, p);
  }

  /** Recording the pending value f keeps TableInv. */
  lemma ValueRecorded(t: Table, nf: int, p: Problem, row: seq<real>, f: real)
    requires Pending(t, nf, p) && row == t.xpt[nf - 1] && f == Value(p, row)
    ensures TableInv(Record(t, nf, p.n, f), nf, p)
  {
    RecordExchanges(t, nf, p.n, f);
    RecordFeasible(t, nf, p.n, f, p.sl, p.su);
    MatchesAfterRecord(t, nf, p, f);
  }

  /** The table after the first k passes, starting from zero points and
      the old values fval0. */
  function Run(p: Problem, k: int): (t: Table)
    requires 0 <= k <= p.npt
    ensures IsMatrix(t.xpt, p.npt, p.n) && |t.fval| == p.npt && (k > 0 ==> 1 <= t.kopt <= k)
    decreases k, 0
  {
    if k == 0 then Table(ZeroMatrix(p.npt, p.n), p.fval0, 0) else Next(p, k - 1)
  }

  /** Every table that Run builds satisfies TableInv: pass k is Step of
      the table so far. */
  lemma {:induction false} RunInv(p: Problem, k: int)
    requires 0 <= k <= p.npt
    ensures TableInv(Run(p, k), k, p)
    decreases k, 1
  {
    if k == 0 {
      ZerosFeasible(p.rhobeg, p.sl, p.su);
    } else {
      RunInv(p, k - 1);
      assert Run(p, k) == Next(p, k - 1) == Step(Run(p, k - 1), k - 1, p);
    }
  }

  /** The displacement of point k + 1, made by pass k: NewRow of the table
      of the first k passes. It is feasible. */
  function Point(p: Problem, k: int): (d: seq<real>)
    requires 0 <= k < p.npt
    ensures |d| == p.n && InBox(d, p.sl, p.su)
    decreases k, 2
  {
    RunInv(p, k);
    NewRow(Run(p, k).xpt, k, p.n, p.rhobeg, p.sl, p.su)
  }

  /** The table after pass k + 1: Point(p, k) is written into row k of the
      table of the first k passes and its value is recorded. */
  function Next(p: Problem, k: int): (t: Table)
    requires 0 <= k < p.npt
    ensures IsMatrix(t.xpt, p.npt, p.n) && |t.fval| == p.npt && 1 <= t.kopt <= k + 1
    decreases k, 3
  {
    RunInv(p, k);
    var t := Run(p, k);
    var d := Point(p, k);
    Record(t.(xpt := t.xpt[k := d]), k + 1, p.n, Value(p, d))
  }

  /** Pass k writes Point(p, k), which is NewRow of the table so far, into
      row k and records its value there. */
  lemma PassRecords(p: Problem, k: int)
    requires 0 <= k < p.npt
    ensures BestSoFar(Run(p, k), k)
    ensures Point(p, k) == NewRow(Run(p, k).xpt, k, p.n, p.rhobeg, p.sl, p.su)
    ensures Run(p, k + 1)
            == Record(Run(p, k).(xpt := Run(p, k).xpt[k := Point(p, k)]), k + 1, p.n, Value(p, Point(p, k)))
  {
    RunInv(p, k);
    assert Run(p, k + 1) == Next(p, k);
  }
}
