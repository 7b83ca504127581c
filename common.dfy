// Shared helpers: an optional value and the libm functions fmin, fmax and
// fabs on the real numbers that model doubles.
module Common {

  datatype Option<T> = None | Some(value: T)

  /** fmin on reals. */
  function Min(a: real, b: real): real
  {
    if a <= b then a else b
  }

  /** fmax on reals. */
  function Max(a: real, b: real): real
  {
    if a >= b then a else b
  }

  /** fabs on reals. */
  function Abs(a: real): real
  {
    if a < 0.0 then -a else a
  }

  /** a*a, kept behind a name so that sums of squares unfold cleanly. */
  function Square(a: real): (r: real)
    ensures r >= 0.0
  {
    a * a
  }

  /** The squared distance between a[0..k] and b[0..k]. */
  function DistSqPrefix(a: seq<real>, b: seq<real>, k: nat): real
    requires k <= |a| && k <= |b|
  {
    if k == 0 then 0.0 else DistSqPrefix(a, b, k - 1) + Square(a[k - 1] - b[k - 1])
  }

  /** The squared distance between two points. */
  function DistSq(a: seq<real>, b: seq<real>): real
    requires |b| == |a|
  {
    DistSqPrefix(a, b, |a|)
  }

  /** The sum of the squares of v[0..k]. */
  function SumSqPrefix(v: seq<real>, k: nat): real
    requires k <= |v|
  {
    if k == 0 then 0.0 else SumSqPrefix(v, k - 1) + Square(v[k - 1])
  }

  /** The sum of the squares of the entries of v. */
  function SumSq(v: seq<real>): real
  {
    SumSqPrefix(v, |v|)
  }

  /** A vector of k zeros. */
  function Zeros(k: nat): (r: seq<real>)
    ensures |r| == k && forall i :: 0 <= i < k ==> r[i] == 0.0
  {
    seq(k, _ => 0.0)
  }

  /** A rows-by-cols matrix of zeros, as a sequence of rows. */
  function ZeroMatrix(rows: nat, cols: nat): (m: seq<seq<real>>)
    ensures |m| == rows && forall r :: 0 <= r < rows ==> m[r] == Zeros(cols)
  {
    seq(rows, _ => Zeros(cols))
  }

  /** The elementwise sum a + b: the point xbase + d for a displacement d. */
  function Plus(a: seq<real>, b: seq<real>): (r: seq<real>)
    requires |b| == |a|
    ensures |r| == |a| && forall i {:trigger r[i]} :: 0 <= i < |a| ==> r[i] == a[i] + b[i]
  {
    seq(|a|, i requires 0 <= i < |a| => a[i] + b[i])
  }

  /** The number of entries of a packed symmetric k-by-k matrix such as hq,
      counted row by row. */
  function PackedSize(k: nat): nat
  {
    if k == 0 then 0 else PackedSize(k - 1) + k
  }

  /** The count in closed form, k*(k+1)/2, as bobyqa.c writes it. */
  lemma {:induction false} PackedSizeClosedForm(k: nat)
    ensures PackedSize(k) == k * (k + 1) / 2
  {
    if k > 0 {
      PackedSizeClosedForm(k - 1);
      assert k * (k + 1) == (k - 1) * k + 2 * k;
    }
  }

  /** m has rows rows of cols entries each. */
  predicate IsMatrix(m: seq<seq<real>>, rows: int, cols: int)
  {
    |m| == rows && forall r :: 0 <= r < |m| ==> |m[r]| == cols
  }
}
