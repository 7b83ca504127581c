// The working-memory layout of bobyqa_working_memory_size and
// bobyqa_set_memory: one block of doubles cut into 31 slices laid back to
// back. Only sizes and offsets are modelled, not the memory itself.
module Workspace {

  /** Number of slices in the block. */
  const SliceCount: nat := 31

  /** The slice sizes that bobyqa_working_memory_size records, in the order
      bobyqa_set_memory lays the slices out: xfull, x, xl, xu, xbase, xpt,
      fval, xopt, gopt, hq, pq, bmat, zmat, sl, su, xnew, xalt, dtrial, vlag,
      w2npt, wndim, wn, gnew, xbdi, s, hs, hred, glag, hcol, ccstep, xscale.
      n is the full parameter count, fittedN the fitted one. */
  function SliceSizes(n: int, fittedN: int, npt: int): (s: seq<int>)
    ensures |s| == SliceCount
  {
    var f, np, ndim := fittedN, fittedN + 1, npt + fittedN;
    [n, f, f, f, f, f * npt, npt, f, f, f * np / 2, npt, ndim * f, npt * (npt - np),
     f, f, f, f, f, ndim, 2 * npt, ndim, f, f, f, f, f, f, f, npt, 2 * f, f]
  }

  /** Position of slice zmat in the layout. */
  const ZmatSlice: nat := 12

  /** The sum of the first k sizes: where slice k starts. */
  function Prefix(s: seq<int>, k: nat): int
    requires k <= |s|
  {
    if k == 0 then 0 else Prefix(s, k - 1) + s[k - 1]
  }

  /** bobyqa_working_memory_size: the total of the recorded slice sizes.
      When no size is negative, every slice laid out back to back ends
      within a block of that total. */
  function WorkingMemorySize(n: int, fittedN: int, npt: int): (total: int)
    ensures var s := SliceSizes(n, fittedN, npt);
      AllNonNegative(s) ==> total >= 0 && forall k :: 0 <= k < SliceCount ==> Prefix(s, k) + s[k] <= total
  {
    var s := SliceSizes(n, fittedN, npt);
    SlicesInside(s);
    Prefix(s, SliceCount)
  }

  /** Each slice ends no later than the sum of all sizes. */
  lemma SlicesInside(s: seq<int>)
    ensures AllNonNegative(s) ==> Prefix(s, |s|) >= 0 && forall k :: 0 <= k < |s| ==> Prefix(s, k) + s[k] <= Prefix(s, |s|)
  {
    if AllNonNegative(s) {
      PrefixMonotone(s, 0, |s|);
      forall k | 0 <= k < |s|
        ensures Prefix(s, k) + s[k] <= Prefix(s, |s|)
      {
        PrefixMonotone(s, k + 1, |s|);
      }
    }
  }

  /** The total in closed form. */
  lemma WorkingMemorySizeClosedForm(n: int, fittedN: int, npt: int)
    ensures WorkingMemorySize(n, fittedN, npt)
         == n + 23 * fittedN + 6 * npt + fittedN * npt + fittedN * fittedN + npt * npt
            + fittedN * (fittedN + 1) / 2
  {
    var s := SliceSizes(n, fittedN, npt);
    // one unfolding of Prefix per slice
    assert Prefix(s, 1) == Prefix(s, 0) + s[0];
    assert Prefix(s, 2) == Prefix(s, 1) + s[1];
    assert Prefix(s, 3) == Prefix(s, 2) + s[2];
    assert Prefix(s, 4) == Prefix(s, 3) + s[3];
    assert Prefix(s, 5) == Prefix(s, 4) + s[4];
    assert Prefix(s, 6) == Prefix(s, 5) + s[5];
    assert Prefix(s, 7) == Prefix(s, 6) + s[6];
    assert Prefix(s, 8) == Prefix(s, 7) + s[7];
    assert Prefix(s, 9) == Prefix(s, 8) + s[8];
    assert Prefix(s, 10) == Prefix(s, 9) + s[9];
    assert Prefix(s, 11) == Prefix(s, 10) + s[10];
    assert Prefix(s, 12) == Prefix(s, 11) + s[11];
    assert Prefix(s, 13) == Prefix(s, 12) + s[12];
    assert Prefix(s, 14) == Prefix(s, 13) + s[13];
    assert Prefix(s, 15) == Prefix(s, 14) + s[14];
    assert Prefix(s, 16) == Prefix(s, 15) + s[15];
    assert Prefix(s, 17) == Prefix(s, 16) + s[16];
    assert Prefix(s, 18) == Prefix(s, 17) + s[17];
    assert Prefix(s, 19) == Prefix(s, 18) + s[18];
    assert Prefix(s, 20) == Prefix(s, 19) + s[19];
    assert Prefix(s, 21) == Prefix(s, 20) + s[20];
    assert Prefix(s, 22) == Prefix(s, 21) + s[21];
    assert Prefix(s, 23) == Prefix(s, 22) + s[22];
    assert Prefix(s, 24) == Prefix(s, 23) + s[23];
    assert Prefix(s, 25) == Prefix(s, 24) + s[24];
    assert Prefix(s, 26) == Prefix(s, 25) + s[25];
    assert Prefix(s, 27) == Prefix(s, 26) + s[26];
    assert Prefix(s, 28) == Prefix(s, 27) + s[27];
    assert Prefix(s, 29) == Prefix(s, 28) + s[28];
    assert Prefix(s, 30) == Prefix(s, 29) + s[29];
    assert Prefix(s, 31) == Prefix(s, 30) + s[30];
  }

  /** Offsets of the slices when they are laid back to back from 0. */
  function Offsets(s: seq<int>): (o: seq<int>)
    ensures |o| == |s| + 1
    ensures forall k :: 0 <= k <= |s| ==> o[k] == Prefix(s, k)
  {
    seq(|s| + 1, k requires 0 <= k <= |s| => Prefix(s, k))
  }

  predicate AllNonNegative(s: seq<int>)
  {
    forall k :: 0 <= k < |s| ==> s[k] >= 0
  }

  /** Prefix sums of non-negative sizes do not decrease. */
  lemma {:induction false} PrefixMonotone(s: seq<int>, i: nat, j: nat)
    requires AllNonNegative(s) && i <= j <= |s|
    ensures Prefix(s, i) <= Prefix(s, j)
    decreases j - i
  {
    if i < j {
      PrefixMonotone(s, i, j - 1);
    }
  }

  /** The slices laid out by bobyqa_set_memory start at 0, follow each other
      without gaps, are pairwise disjoint and end exactly at the total. */
  lemma LayoutPartitionsBlock(s: seq<int>)
    requires AllNonNegative(s)
    ensures Prefix(s, 0) == 0
    ensures forall k :: 0 <= k < |s| ==> Prefix(s, k + 1) == Prefix(s, k) + s[k]
    ensures forall i, j :: 0 <= i < j < |s| ==> Prefix(s, i) + s[i] <= Prefix(s, j)
  {
    forall i, j | 0 <= i < j < |s|
      ensures Prefix(s, i) + s[i] <= Prefix(s, j)
    {
      PrefixMonotone(s, i + 1, j);
    }
  }

  lemma ProductSign(a: int, b: int)
    requires a >= 1
    ensures a * b >= 0 <==> b >= 0
  {
    if b < 0 {
      assert a * b <= b;
    } else {
      assert a * b >= 0;
    }
  }

  /** Every slice size is non-negative exactly when npt >= fitted_n + 1, the
      condition for zmat's size npt*(npt-fitted_n-1) to be non-negative. */
  lemma SizesNonNegative(n: int, fittedN: int, npt: int)
    requires n >= 1 && fittedN >= 1 && npt >= 1
    ensures AllNonNegative(SliceSizes(n, fittedN, npt)) <==> npt >= fittedN + 1
  {
    var s := SliceSizes(n, fittedN, npt);
    ProductSign(fittedN, npt);
    ProductSign(npt + fittedN, fittedN);
    ProductSign(fittedN, fittedN + 1);
    ProductSign(npt, npt - (fittedN + 1));
    assert s[ZmatSlice] == npt * (npt - (fittedN + 1));
    assert s[5] >= 0 && s[9] >= 0 && s[11] >= 0;
  }
}
