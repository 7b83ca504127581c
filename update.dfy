// The structure of bobyqa_update (bobyqa.c:2847-2937). zmat has npt rows
// and nptm columns, bmat npt+n rows and n columns, both stored in C column
// by column (zmat[i + j*npt], bmat[i + j*ndim]) and here as sequences of
// rows. The rotations that clear row knew-1 of zmat are computed exactly,
// with hypot supplied as a function; the rank-one coefficients of the bmat
// formula are supplied as a function of the two entries they are made of.
module Update {
  import opened Common
  import Vectors

  /** The clamp of a rotated entry into [-1e100, 1e100] (bobyqa.c:2875-2881). */
  function Clamp(v: real): (r: real)
    ensures -1.0e100 <= r <= 1.0e100
    ensures -1.0e100 <= v <= 1.0e100 ==> r == v
    ensures v < -1.0e100 ==> r == -1.0e100
    ensures v > 1.0e100 ==> r == 1.0e100
  {
    if v < -1.0e100 then -1.0e100 else if v > 1.0e100 then 1.0e100 else v
  }

  /** What the model asks of hypot: it is positive when its second argument
      is not zero, so that both quotients of a rotation exist. */
  ghost predicate HypotPositive(hypot: (real, real) -> real)
  {
    forall a, b :: b != 0.0 ==> hypot(a, b) > 0.0
  }

  /** ztest of bobyqa.c:2856-2863: 1e-20 times the largest |zmat| entry. */
  method ZtestLoop(z: seq<seq<real>>, m: nat) returns (ztest: real)
    requires IsMatrix(z, |z|, m)
    ensures ztest >= 0.0
    ensures forall k, j :: 0 <= k < |z| && 0 <= j < m ==> Abs(z[k][j]) * 1.0e-20 <= ztest
    ensures ztest == 0.0 || exists k, j :: 0 <= k < |z| && 0 <= j < m && ztest == Abs(z[k][j]) * 1.0e-20
  {
    var big := 0.0;
    var k := 0;
    while k < |z|
      invariant 0 <= k <= |z| && big >= 0.0
      invariant forall k', j :: 0 <= k' < k && 0 <= j < m ==> Abs(z[k'][j]) <= big
      invariant big == 0.0 || exists k', j :: 0 <= k' < k && 0 <= j < m && big == Abs(z[k'][j])
    {
      var j := 0;
      while j < m
        invariant 0 <= j <= m && big >= 0.0
        invariant forall k', j' :: 0 <= k' < k && 0 <= j' < m ==> Abs(z[k'][j']) <= big
        invariant forall j' :: 0 <= j' < j ==> Abs(z[k][j']) <= big
        invariant big == 0.0 || exists k', j' :: 0 <= k' <= k && 0 <= j' < m && big == Abs(z[k'][j'])
      {
        var d1 := Abs(z[k][j]);
        if d1 > big {
          big := d1;
        }
        j := j + 1;
      }
      k := k + 1;
    }
    ztest := big * 1.0e-20;
  }

  /** Row i after the rotation of columns 0 and j with the factors ca and cb
      (bobyqa.c:2873-2882): the new entry of column j is made from the old
      entry of column 0, and both are clamped. */
  function RotateRow(row: seq<real>, j: nat, ca: real, cb: real): (r: seq<real>)
    requires 0 < j < |row|
    ensures |r| == |row| && forall k :: 0 <= k < |row| && k != 0 && k != j ==> r[k] == row[k]
    ensures r[0] == Clamp(ca * row[0] + cb * row[j]) && r[j] == Clamp(ca * row[j] - cb * row[0])
    ensures -1.0e100 <= r[0] <= 1.0e100 && -1.0e100 <= r[j] <= 1.0e100
  {
    row[0 := Clamp(ca * row[0] + cb * row[j])][j := Clamp(ca * row[j] - cb * row[0])]
  }

  /** The pass for column j (bobyqa.c:2866-2886): when |z[knew-1][j]| exceeds
      ztest, columns 0 and j of every row are rotated with the factors taken
      from row knew-1 before the pass; in every case z[knew-1][j] becomes 0. */
  function ZeroStep(z: seq<seq<real>>, m: nat, knew: nat, j: nat, ztest: real,
                    hypot: (real, real) -> real): seq<seq<real>>
    requires IsMatrix(z, |z|, m) && 1 <= knew <= |z| && 0 < j < m && ztest >= 0.0
    requires HypotPositive(hypot)
  {
    var d1, d2 := z[knew - 1][0], z[knew - 1][j];
    var rot :=
      if Abs(d2) > ztest then
        var h := hypot(d1, d2);
        seq(|z|, i requires 0 <= i < |z| => RotateRow(z[i], j, d1 / h, d2 / h))
      else z;
    rot[knew - 1 := rot[knew - 1][j := 0.0]]
  }

  lemma ZeroStepShape(z: seq<seq<real>>, m: nat, knew: nat, j: nat, ztest: real,
                      hypot: (real, real) -> real)
    requires IsMatrix(z, |z|, m) && 1 <= knew <= |z| && 0 < j < m && ztest >= 0.0
    requires HypotPositive(hypot)
    ensures var r := ZeroStep(z, m, knew, j, ztest, hypot);
      IsMatrix(r, |z|, m)
      && r[knew - 1][j] == 0.0
      && (forall i, c :: 0 <= i < |z| && 0 < c < m && c != j ==> r[i][c] == z[i][c])
      && (Abs(z[knew - 1][j]) <= ztest ==> forall i, c :: 0 <= i < |z| && 0 <= c < m && i != knew - 1 ==> r[i][c] == z[i][c])
      && (Abs(z[knew - 1][j]) > ztest ==> forall i :: 0 <= i < |z| ==> -1.0e100 <= r[i][0] <= 1.0e100 && -1.0e100 <= r[i][j] <= 1.0e100)
  {
  }

  /** zmat after the passes for columns 1 .. j-1. */
  function ZeroedUpTo(z: seq<seq<real>>, m: nat, knew: nat, ztest: real,
                      hypot: (real, real) -> real, j: nat): (r: seq<seq<real>>)
    requires IsMatrix(z, |z|, m) && 1 <= knew <= |z| && 1 <= j <= m && ztest >= 0.0
    requires HypotPositive(hypot)
    ensures IsMatrix(r, |z|, m)
    decreases j
  {
    if j == 1 then z
    else
      var prev := ZeroedUpTo(z, m, knew, ztest, hypot, j - 1);
      ZeroStepShape(prev, m, knew, j - 1, ztest, hypot);
      ZeroStep(prev, m, knew, j - 1, ztest, hypot)
  }

  /** What the passes leave in column c: the entry of row knew-1 is 0; a
      column whose entry in row knew-1 was at most ztest keeps its other
      entries; a rotated column has every entry within the clamp. */
  ghost predicate Cleared(z: seq<seq<real>>, r: seq<seq<real>>, m: nat, knew: nat, ztest: real, c: nat)
    requires IsMatrix(z, |z|, m) && IsMatrix(r, |z|, m) && 1 <= knew <= |z| && c < m
  {
    r[knew - 1][c] == 0.0
    && (Abs(z[knew - 1][c]) <= ztest ==> forall i :: 0 <= i < |z| && i != knew - 1 ==> r[i][c] == z[i][c])
    && (Abs(z[knew - 1][c]) > ztest ==> forall i :: 0 <= i < |z| ==> -1.0e100 <= r[i][c] <= 1.0e100)
  }

  /** After the passes for columns 1 .. j-1 those columns are cleared and
      the later ones are untouched. */
  lemma {:induction false} ZeroedColumns(z: seq<seq<real>>, m: nat, knew: nat, ztest: real,
                                         hypot: (real, real) -> real, j: nat)
    requires IsMatrix(z, |z|, m) && 1 <= knew <= |z| && 1 <= j <= m && ztest >= 0.0
    requires HypotPositive(hypot)
    ensures forall c :: 1 <= c < j ==> Cleared(z, ZeroedUpTo(z, m, knew, ztest, hypot, j), m, knew, ztest, c)
    ensures forall i, c :: 0 <= i < |z| && j <= c < m ==> ZeroedUpTo(z, m, knew, ztest, hypot, j)[i][c] == z[i][c]
    decreases j
  {
    if j > 1 {
      ZeroedColumns(z, m, knew, ztest, hypot, j - 1);
      var prev := ZeroedUpTo(z, m, knew, ztest, hypot, j - 1);
      var r := ZeroedUpTo(z, m, knew, ztest, hypot, j);
      ZeroStepShape(prev, m, knew, j - 1, ztest, hypot);
      assert r == ZeroStep(prev, m, knew, j - 1, ztest, hypot);
      forall c | 1 <= c < j
        ensures Cleared(z, r, m, knew, ztest, c)
      {
        if c < j - 1 {
          assert Cleared(z, prev, m, knew, ztest, c);
          assert forall i :: 0 <= i < |z| ==> r[i][c] == prev[i][c];
        } else {
          assert forall i :: 0 <= i < |z| ==> prev[i][c] == z[i][c];
        }
      }
    }
  }

  /** The inner loop of one rotation (bobyqa.c:2873-2883): every row in
      turn has its entries in columns 0 and j rotated. */
  method RotateLoop(z: seq<seq<real>>, m: nat, j: nat, ca: real, cb: real) returns (r: seq<seq<real>>)
    requires IsMatrix(z, |z|, m) && 0 < j < m
    ensures r == seq(|z|, i requires 0 <= i < |z| => RotateRow(z[i], j, ca, cb))
  {
    r := z;
    var i := 0;
    while i < |z|
      invariant 0 <= i <= |z| && |r| == |z|
      invariant forall k :: 0 <= k < i ==> r[k] == RotateRow(z[k], j, ca, cb)
      invariant forall k :: i <= k < |z| ==> r[k] == z[k]
    {
      r := r[i := RotateRow(r[i], j, ca, cb)];
      i := i + 1;
    }
  }

  /** The rotation loop of bobyqa_update (bobyqa.c:2865-2887): row knew-1 of
      zmat ends 0 from column 1 on, unrotated columns keep their other
      entries, and every rotated entry lies within the clamp. */
  method ZeroRowLoop(z: seq<seq<real>>, m: nat, knew: nat, ztest: real, hypot: (real, real) -> real)
    returns (r: seq<seq<real>>)
    requires IsMatrix(z, |z|, m) && 1 <= knew <= |z| && 1 <= m && ztest >= 0.0
    requires HypotPositive(hypot)
    ensures IsMatrix(r, |z|, m) && r == ZeroedUpTo(z, m, knew, ztest, hypot, m)
    ensures var zrow := r[knew - 1]; forall c :: 1 <= c < m ==> zrow[c] == 0.0
    ensures forall c :: 1 <= c < m ==> Cleared(z, r, m, knew, ztest, c)
  {
    r := z;
    var j := 1;
    while j < m
      invariant 1 <= j <= m && r == ZeroedUpTo(z, m, knew, ztest, hypot, j)
    {
      r := ZeroPass(r, m, knew, j, ztest, hypot);
      j := j + 1;
    }
    ZeroedColumns(z, m, knew, ztest, hypot, m);
    ghost var zrow := r[knew - 1];
    forall c | 1 <= c < m
      ensures zrow[c] == 0.0
    {
      assert Cleared(z, r, m, knew, ztest, c);
    }
  }

  /** The body of the rotation loop for column j (bobyqa.c:2867-2886). */
  method ZeroPass(z: seq<seq<real>>, m: nat, knew: nat, j: nat, ztest: real, hypot: (real, real) -> real)
    returns (r: seq<seq<real>>)
    requires IsMatrix(z, |z|, m) && 1 <= knew <= |z| && 0 < j < m && ztest >= 0.0
    requires HypotPositive(hypot)
    ensures r == ZeroStep(z, m, knew, j, ztest, hypot)
  {
    r := z;
    if Abs(r[knew - 1][j]) > ztest {
      var d1, d2 := r[knew - 1][0], r[knew - 1][j];
      var temp := hypot(d1, d2);
      var tempa, tempb := d1 / temp, d2 / temp;
      r := RotateLoop(r, m, j, tempa, tempb);
    }
    r := r[knew - 1 := r[knew - 1][j := 0.0]];
  }

  /** ta*v + tb*w, one increment of the bmat formula. */
  function Increment(ta: real, tb: real, v: real, w: real): real
  {
    ta * v + tb * w
  }

  /** wndim once the bmat loop has run: its first npt entries as computed
      before (bobyqa.c:2890-2891), then row knew-1 of bmat (bobyqa.c:2913). */
  function WndimAfter(w: seq<real>, b: seq<seq<real>>, knew: nat, p: nat, k: nat): (r: seq<real>)
    requires |w| == p + k && IsMatrix(b, p + k, k) && 1 <= knew <= p
    ensures |r| == p + k
    ensures forall i :: 0 <= i < p ==> r[i] == w[i]
    ensures forall i :: p <= i < p + k ==> r[i] == b[knew - 1][i - p]
  {
    w[..p] + b[knew - 1]
  }

  /** The updated entry in row row of column c, for a row on or above the
      diagonal of the trailing block (row <= p + c): bmat plus
      tempa*vlag + tempb*wndim, with (tempa, tempb) the coefficients of
      column c. */
  function Updated(b: seq<seq<real>>, vlag: seq<real>, w: seq<real>, coef: (real, real) -> (real, real),
                   p: nat, k: nat, row: nat, c: nat): real
    requires IsMatrix(b, p + k, k) && |vlag| == p + k && |w| == p + k && row < p + k && c < k
  {
    var (ta, tb) := coef(vlag[p + c], w[p + c]);
    b[row][c] + Increment(ta, tb, vlag[row], w[row])
  }

  /** The whole of bmat after the loop: rows up to p + c of column c are
      updated; below the diagonal of the trailing block each entry is the
      mirror of an updated one. */
  function BmatAfter(b: seq<seq<real>>, vlag: seq<real>, w: seq<real>, coef: (real, real) -> (real, real),
                     p: nat, k: nat, row: nat, c: nat): real
    requires IsMatrix(b, p + k, k) && |vlag| == p + k && |w| == p + k && row < p + k && c < k
  {
    if row <= p + c then Updated(b, vlag, w, coef, p, k, row, c)
    else Updated(b, vlag, w, coef, p, k, p + c, row - p)
  }

  /** One pass of the bmat loop, for column c (bobyqa.c:2916-2932): rows 0
      .. p+c of column c are updated in turn, and each updated entry of the
      trailing block is copied across the diagonal into row p+c. */
  method BmatColumn(b: seq<seq<real>>, vlag: seq<real>, w: seq<real>, p: nat, k: nat, c: nat,
                    tempa: real, tempb: real) returns (r: seq<seq<real>>)
    requires IsMatrix(b, p + k, k) && |vlag| == p + k && |w| == p + k && c < k
    ensures IsMatrix(r, p + k, k)
    ensures forall row :: 0 <= row <= p + c ==> r[row][c] == b[row][c] + Increment(tempa, tempb, vlag[row], w[row])
    ensures forall row, a :: row == p + c && 0 <= a < c ==>
      r[row][a] == b[p + a][c] + Increment(tempa, tempb, vlag[p + a], w[p + a])
    ensures forall row, col :: 0 <= row < p + k && 0 <= col < k && col != c && !(row == p + c && col < c) ==>
      r[row][col] == b[row][col]
    ensures forall row :: p + c < row < p + k ==> r[row][c] == b[row][c]
  {
    r := b;
    var i := 1;
    while i <= p + c + 1
      invariant 1 <= i <= p + c + 2 && IsMatrix(r, p + k, k)
      invariant forall row :: 0 <= row < i - 1 ==> r[row][c] == b[row][c] + Increment(tempa, tempb, vlag[row], w[row])
      invariant forall row, a :: row == p + c && 0 <= a < c && p + a < i - 1 ==>
        r[row][a] == b[p + a][c] + Increment(tempa, tempb, vlag[p + a], w[p + a])
      invariant forall row, col :: 0 <= row < p + k && 0 <= col < k && col != c && !(row == p + c && col < c && p + col < i - 1) ==>
        r[row][col] == b[row][col]
      invariant forall row :: i - 1 <= row < p + k ==> r[row][c] == b[row][c]
    {
      r := r[i - 1 := r[i - 1][c := r[i - 1][c] + Increment(tempa, tempb, vlag[i - 1], w[i - 1])]];
      if i > p {
        r := r[p + c := r[p + c][i - 1 - p := r[i - 1][c]]];
      }
      i := i + 1;
    }
  }

  /** The bmat loop of bobyqa_update (bobyqa.c:2911-2934), for vlag after
      its knew-th entry has been lowered by one and wndim with its first npt
      entries set (bobyqa.c:2890-2893). coef gives the pair (tempa, tempb)
      of a column from vlag[jp-1] and wndim[jp-1] (bobyqa.c:2914-2915).
      Every entry of bmat ends as BmatAfter says, and the trailing n-by-n
      block is symmetric. */
  method BmatLoop(b: seq<seq<real>>, vlag: seq<real>, w: seq<real>, knew: nat, p: nat, k: nat,
                  coef: (real, real) -> (real, real)) returns (r: seq<seq<real>>, wn: seq<real>)
    requires IsMatrix(b, p + k, k) && |vlag| == p + k && |w| == p + k && 1 <= knew <= p
    ensures wn == WndimAfter(w, b, knew, p, k)
    ensures IsMatrix(r, p + k, k)
    ensures forall row, c :: 0 <= row < p + k && 0 <= c < k ==> r[row][c] == BmatAfter(b, vlag, wn, coef, p, k, row, c)
    ensures Vectors.SymmetricTrailing(r, p, k)
  {
    ghost var fin := WndimAfter(w, b, knew, p, k);
    r, wn := b, w;
    var j := 1;
    while j <= k
      invariant 1 <= j <= k + 1 && IsMatrix(r, p + k, k) && |wn| == p + k
      invariant forall i :: 0 <= i < p + j - 1 ==> wn[i] == fin[i]
      invariant forall i :: p + j - 1 <= i < p + k ==> wn[i] == w[i]
      invariant forall row, c :: 0 <= row < p + k && 0 <= c < j - 1 && (row <= p + c || row < p + j - 1) ==>
        r[row][c] == BmatAfter(b, vlag, fin, coef, p, k, row, c)
      invariant forall row, c :: 0 <= row < p + k && 0 <= c < j - 1 && !(row <= p + c || row < p + j - 1) ==>
        r[row][c] == b[row][c]
      invariant forall row, c :: 0 <= row < p + k && j - 1 <= c < k ==> r[row][c] == b[row][c]
    {
      var jp := p + j;
      wn := wn[jp - 1 := r[knew - 1][j - 1]];
      assert forall i :: 0 <= i < p + j ==> wn[i] == fin[i];
      var (tempa, tempb) := coef(vlag[jp - 1], wn[jp - 1]);
      ghost var prev := r;
      r := BmatColumn(r, vlag, wn, p, k, j - 1, tempa, tempb);
      forall row, c | 0 <= row < p + k && 0 <= c < j && (row <= p + c || row < p + j)
        ensures r[row][c] == BmatAfter(b, vlag, fin, coef, p, k, row, c)
      {
        if c == j - 1 {
          assert r[row][c] == b[row][c] + Increment(tempa, tempb, vlag[row], fin[row]);
        } else if row == p + j - 1 {
          assert r[row][c] == prev[p + c][j - 1] + Increment(tempa, tempb, vlag[p + c], wn[p + c]);
        } else {
          assert r[row][c] == prev[row][c];
        }
      }
      j := j + 1;
    }
    assert wn == fin;
    BmatAfterSymmetric(b, vlag, wn, coef, p, k, r);
  }

  /** Any matrix whose entries are as BmatAfter says has a symmetric
      trailing block. */
  lemma BmatAfterSymmetric(b: seq<seq<real>>, vlag: seq<real>, w: seq<real>, coef: (real, real) -> (real, real),
                           p: nat, k: nat, r: seq<seq<real>>)
    requires IsMatrix(b, p + k, k) && |vlag| == p + k && |w| == p + k && IsMatrix(r, p + k, k)
    requires forall row, c :: 0 <= row < p + k && 0 <= c < k ==> r[row][c] == BmatAfter(b, vlag, w, coef, p, k, row, c)
    ensures Vectors.SymmetricTrailing(r, p, k)
  {
  }
}
