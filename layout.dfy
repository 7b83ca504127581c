// MATLAB stores a matrix with N rows column by column: entry (i, j) is at
// offset j*N + i. The same offsets, with the roles of rows and columns
// exchanged, describe a block of rows of w entries each: entry j of row i is
// at offset Flat(w, j, i) = i*w + j.
module ColumnMajor {

  /** The column-major offset of entry (i, j) of a matrix with N rows:
      j whole columns of N entries, then i more. */
  function Flat(N: nat, i: nat, j: nat): nat
  {
    if j == 0 then i else N + Flat(N, i, j - 1)
  }

  /** The offset is j*N + i, the index the C code computes. */
  lemma {:induction false} FlatIsOffset(N: nat, i: nat, j: nat)
    ensures Flat(N, i, j) == j * N + i
  {
    if j > 0 {
      FlatIsOffset(N, i, j - 1);
      assert j * N == (j - 1) * N + N;
    }
  }

  /** Entries of an N x n matrix lie inside the N*n block. */
  lemma FlatInRange(N: nat, n: nat, i: nat, j: nat)
    requires i < N && j < n
    ensures Flat(N, i, j) < N * n
  {
    FlatIsOffset(N, i, j);
    assert j * N <= (n - 1) * N;
  }

  /** All entries of an N x n matrix lie inside the N*n block. */
  lemma AllInRange(N: nat, n: nat)
    ensures forall a: nat, b: nat :: a < N && b < n ==> Flat(N, a, b) < N * n
  {
    forall a: nat, b: nat | a < N && b < n
      ensures Flat(N, a, b) < N * n
    {
      FlatInRange(N, n, a, b);
    }
  }

  /** Multiplication by a natural number is monotone. */
  lemma MulMonotone(x: nat, y: nat, N: nat)
    requires x <= y
    ensures x * N <= y * N
  {
    assert y * N == x * N + (y - x) * N;
  }

  /** Distinct entries have distinct offsets. */
  lemma FlatInjective(N: nat, i: nat, j: nat, a: nat, b: nat)
    requires i < N && a < N && Flat(N, i, j) == Flat(N, a, b)
    ensures i == a && j == b
  {
    FlatIsOffset(N, i, j);
    FlatIsOffset(N, a, b);
    if j < b {
      assert false;
    } else if b < j {
      MulMonotone(b + 1, j, N);
      assert false;
    }
  }

  /** Every offset of the N*n block is the offset of one entry. */
  lemma FlatCovers(N: nat, n: nat, x: nat)
    requires x < N * n
    ensures 0 < N && x % N < N && x / N < n && Flat(N, x % N, x / N) == x
  {
    if N == 0 {
      assert false;
    }
    var q, r := x / N, x % N;
    assert x == q * N + r;
    FlatIsOffset(N, r, q);
    if q >= n {
      MulMonotone(n, q, N);
      assert false;
    }
  }

  /** Every other entry has an offset different from that of entry (i, j),
      so writing entry (i, j) leaves the others as they were. */
  lemma OthersApart(N: nat, i: nat, j: nat)
    requires i < N
    ensures forall a: nat, b: nat :: a < N && (a != i || b != j) ==> Flat(N, a, b) != Flat(N, i, j)
  {
    forall a: nat, b: nat | a < N && (a != i || b != j)
      ensures Flat(N, a, b) != Flat(N, i, j)
    {
      if Flat(N, a, b) == Flat(N, i, j) {
        FlatInjective(N, i, j, a, b);
        assert false;
      }
    }
  }

  /** The offset of entry j of a row is the row's start plus j. */
  lemma {:induction false} FlatShift(N: nat, i: nat, j: nat)
    ensures Flat(N, i, j) == Flat(N, 0, j) + i
  {
    if j > 0 {
      FlatShift(N, i, j - 1);
    }
  }

  /** Rows of w entries stored one after another are disjoint slices of one
      block: row i ends no later than row i2 > i starts, and row i2 ends
      within the block of n rows. */
  lemma {:induction false} RowsApart(w: nat, n: nat, i: nat, i2: nat)
    requires i < i2 < n
    ensures Flat(w, 0, i) + w <= Flat(w, 0, i2)
    ensures Flat(w, 0, i2) + w <= Flat(w, 0, n)
  {
    if i2 > i + 1 {
      RowsApart(w, n, i, i2 - 1);
    }
    if n > i2 + 1 {
      RowsApart(w, n - 1, i, i2);
    }
  }

  /** Entry j of a row before row i lies before the start of row i. */
  lemma BeforeRow(w: nat, a: nat, b: nat, i: nat)
    requires a < i && b < w
    ensures Flat(w, b, a) < Flat(w, 0, i)
  {
    FlatShift(w, b, a);
    RowsApart(w, i + 1, a, i);
  }
}
