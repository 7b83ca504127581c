// Global intermediate recombination (arithx.c). The population is an N x n
// matrix stored column by column, entry (i, j) at offset j*N + i. Each
// output entry is the mean of the input entry at the same place and the
// entry of a randomly picked row k in the same column. The random vector
// that Randomize draws from MATLAB's rand is an input R, one value in [0, 1)
// per entry.
module Recombination {
  import opened ColumnMajor


  /** The row picked by a random value r: floor(N*r), which lies in 0 .. N-1
      whenever r is in [0, 1) (arithx.c:73). */
  function Pick(N: nat, r: real): (k: int)
    ensures 0.0 <= r < 1.0 && 0 < N ==> 0 <= k < N
  {
    var x := N as real * r;
    assert 0.0 <= r < 1.0 && 0 < N ==> 0.0 <= x < N as real by {
      assert N as real - x == N as real * (1.0 - r);
    }
    x.Floor
  }

  /** The random vector holds one value in [0, 1) per entry. */
  predicate Draws(R: seq<real>, N: nat, n: nat)
  {
    |R| == N * n && forall x :: 0 <= x < |R| ==> 0.0 <= R[x] < 1.0
  }

  /** Output entry (i, j) (arithx.c:73-74). */
  function Entry(src: seq<real>, N: nat, n: nat, R: seq<real>, i: nat, j: nat): real
    requires |src| == N * n && Draws(R, N, n) && i < N && j < n
  {
    FlatInRange(N, n, i, j);
    var k := Pick(N, R[Flat(N, i, j)]);
    FlatInRange(N, n, k, j);
    (src[Flat(N, i, j)] + src[Flat(N, k, j)]) / 2.0
  }

  /** arithx.c:60-76: a fresh N x n matrix, entry (i, j) the mean of src's
      entry (i, j) and of src's entry in row floor(N*R[j*N+i]) of column j.
      The input is only read. */
  method Recombine(src: array<real>, N: nat, n: nat, R: seq<real>) returns (eta: array<real>)
    requires src.Length == N * n && Draws(R, N, n)
    ensures fresh(eta) && eta.Length == N * n && src[..] == old(src[..])
    ensures forall i, j :: 0 <= i < N && 0 <= j < n ==>
              Flat(N, i, j) < eta.Length && eta[Flat(N, i, j)] == Entry(src[..], N, n, R, i, j)
  {
    AllInRange(N, n);
    ghost var s := src[..];
    eta := new real[N * n];
    var i := 0;
    while i < N
      invariant 0 <= i <= N
      invariant src[..] == s
      invariant forall a, b :: 0 <= a < i && 0 <= b < n ==> eta[Flat(N, a, b)] == Entry(s, N, n, R, a, b)
    {
      var j := 0;
      while j < n
        invariant 0 <= j <= n && src[..] == s
        invariant forall a, b :: (0 <= a < i && 0 <= b < n) || (a == i && 0 <= b < j) ==>
                    eta[Flat(N, a, b)] == Entry(s, N, n, R, a, b)
      {
        OthersApart(N, i, j);
        SetEntry(eta, src, N, n, R, i, j);
        j := j + 1;
      }
      i := i + 1;
    }
  }

  /** The body of the loops (arithx.c:73-74): entry (i, j) of eta is set
      and nothing else changes. */
  method SetEntry(eta: array<real>, src: array<real>, N: nat, n: nat, R: seq<real>, i: nat, j: nat)
    requires eta != src && eta.Length == src.Length == N * n && Draws(R, N, n) && i < N && j < n
    modifies eta
    ensures Flat(N, i, j) < eta.Length && eta[Flat(N, i, j)] == Entry(src[..], N, n, R, i, j)
    ensures forall x :: 0 <= x < eta.Length && x != Flat(N, i, j) ==> eta[x] == old(eta[x])
  {
    FlatInRange(N, n, i, j);
    FlatIsOffset(N, i, j);
    var k := Pick(N, R[j * N + i]);
    FlatInRange(N, n, k, j);
    FlatIsOffset(N, k, j);
    eta[j * N + i] := (src[j * N + i] + src[j * N + k]) / 2.0;
  }

  /** Each output entry is the mean of the input entry at the same place and
      an input entry of the same column (arithx.c:74). */
  lemma EntryIsColumnMean(src: seq<real>, N: nat, n: nat, R: seq<real>, i: nat, j: nat)
    requires |src| == N * n && Draws(R, N, n) && i < N && j < n
    ensures Flat(N, i, j) < |src|
    ensures exists k :: 0 <= k < N && Flat(N, k, j) < |src| &&
              Entry(src, N, n, R, i, j) == (src[Flat(N, i, j)] + src[Flat(N, k, j)]) / 2.0
  {
    FlatInRange(N, n, i, j);
    var k := Pick(N, R[Flat(N, i, j)]);
    FlatInRange(N, n, k, j);
    assert Entry(src, N, n, R, i, j) == (src[Flat(N, i, j)] + src[Flat(N, k, j)]) / 2.0;
  }

  /** Each output entry lies within any bounds of its input column, in
      particular between the column's minimum and maximum (arithx.c:71-76). */
  lemma EntryWithinColumn(src: seq<real>, N: nat, n: nat, R: seq<real>, i: nat, j: nat, lo: real, hi: real)
    requires |src| == N * n && Draws(R, N, n) && i < N && j < n
    requires forall l :: 0 <= l < N && Flat(N, l, j) < |src| ==> lo <= src[Flat(N, l, j)] <= hi
    ensures lo <= Entry(src, N, n, R, i, j) <= hi
  {
    EntryIsColumnMean(src, N, n, R, i, j);
    var k :| 0 <= k < N && Flat(N, k, j) < |src|
      && Entry(src, N, n, R, i, j) == (src[Flat(N, i, j)] + src[Flat(N, k, j)]) / 2.0;
    assert lo <= src[Flat(N, i, j)] <= hi;
    assert lo <= src[Flat(N, k, j)] <= hi;
  }
}
