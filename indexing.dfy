// Integer index arithmetic of bobyqa_prelim and bobyqa_rescue: the packed
// lower triangle that holds the explicit second derivatives hq, the order
// in which prelim picks coordinate pairs for its initial points, and the
// real-valued identifiers rescue gives its provisional points.
module Indexing {

  /** C's (int) cast of a double, which truncates toward zero. */
  function Trunc(x: real): (k: int)
    ensures x >= 0.0 ==> k as real <= x < k as real + 1.0
    ensures x < 0.0 ==> k as real - 1.0 < x <= k as real
  {
    if x >= 0.0 then x.Floor else -((-x).Floor)
  }

  // ---------------------------------------------------------------------
  // Packed lower triangle (0-based): entry (i, j) with i <= j sits at
  // j*(j+1)/2 + i, in the order of the loops `for j for i<=j k++` that walk
  // hq (bobyqb_update_gopt, vquad in bobyqb_calc_with_xnew, rescue).

  function PackedIndex(i: nat, j: nat): (k: nat)
    requires i <= j
    ensures j * (j + 1) / 2 <= k < (j + 1) * (j + 2) / 2
  {
    j * (j + 1) / 2 + i
  }

  lemma TriangleStep(j: nat)
    ensures (j + 1) * (j + 2) / 2 == j * (j + 1) / 2 + j + 1
  {
    assert (j + 1) * (j + 2) == j * (j + 1) + 2 * (j + 1);
  }

  /** Distinct entries of the triangle get distinct slots. */
  lemma PackedIndexInjective(i1: nat, j1: nat, i2: nat, j2: nat)
    requires i1 <= j1 && i2 <= j2
    requires PackedIndex(i1, j1) == PackedIndex(i2, j2)
    ensures i1 == i2 && j1 == j2
  {
    if j1 < j2 {
      TriangleMonotone(j1 + 1, j2);
      TriangleStep(j1);
      assert false;
    } else if j2 < j1 {
      TriangleMonotone(j2 + 1, j1);
      TriangleStep(j2);
      assert false;
    }
  }

  lemma {:induction false} TriangleMonotone(a: nat, b: nat)
    requires a <= b
    ensures a * (a + 1) / 2 <= b * (b + 1) / 2
    decreases b - a
  {
    if a < b {
      TriangleMonotone(a + 1, b);
      TriangleStep(a);
    }
  }

  /** The walk `for j < n, for i <= j` visits the slots 0, 1, 2, ... in
      order: the k-th pair it visits is stored at slot k. */
  method PackedOrder(n: nat) returns (pairs: seq<(nat, nat)>)
    ensures |pairs| == n * (n + 1) / 2
    ensures forall k :: 0 <= k < |pairs| ==>
              pairs[k].0 <= pairs[k].1 < n && PackedIndex(pairs[k].0, pairs[k].1) == k
  {
    pairs := [];
    var j := 0;
    while j < n
      invariant 0 <= j <= n
      invariant |pairs| == j * (j + 1) / 2
      invariant forall k :: 0 <= k < |pairs| ==>
                  pairs[k].0 <= pairs[k].1 < j && PackedIndex(pairs[k].0, pairs[k].1) == k
    {
      var i := 0;
      while i <= j
        invariant 0 <= i <= j + 1
        invariant |pairs| == j * (j + 1) / 2 + i
        invariant forall k :: 0 <= k < |pairs| ==>
                    pairs[k].0 <= pairs[k].1 <= j && PackedIndex(pairs[k].0, pairs[k].1) == k
      {
        pairs := pairs + [(i, j)];
        i := i + 1;
      }
      TriangleStep(j);
      j := j + 1;
    }
  }

  /** 1-based diagonal slot (i + i*i)/2, as written at bobyqa.c:1601, 2108
      and 2458-2459: one past the 0-based slot of entry (i-1, i-1). */
  function DiagonalSlot(i: int): (ih: int)
    ensures i >= 0 ==> 2 * ih == i * (i + 1)
  {
    EvenTriangle(i);
    (i + i * i) / 2
  }

  /** i + i*i is even, so the halving in DiagonalSlot is exact. */
  lemma EvenTriangle(i: int)
    ensures (i + i * i) % 2 == 0
  {
    var m := i / 2;
    if i % 2 == 0 {
      assert i == 2 * m;
      assert i + i * i == 2 * (m + 2 * m * m);
    } else {
      assert i == 2 * m + 1;
      assert i + i * i == 2 * ((2 * m + 1) * (m + 1));
    }
  }

  /** bobyqa_prelim's off-diagonal slot ih = ipt*(ipt-1)/2 + jpt (1-based). */
  function PrelimSlot(ipt: int, jpt: int): (ih: int)
    ensures ipt >= 1 ==> (DiagonalSlot(ipt - 1) < ih < DiagonalSlot(ipt) <==> 0 < jpt < ipt)
  {
    EvenTriangle(ipt - 1);
    assert (ipt - 1) + (ipt - 1) * (ipt - 1) == ipt * (ipt - 1);
    ipt * (ipt - 1) / 2 + jpt
  }

  /** bobyqa_rescue's slot max(ihp, ihq) - |ip - iq| for the pair (ip, iq). */
  function RescueSlot(ip: int, iq: int): (ih: int)
    ensures ip >= 1 && iq >= 1 ==>
      var m := if ip >= iq then ip else iq;
      DiagonalSlot(m - 1) < ih <= DiagonalSlot(m) && (ih == DiagonalSlot(m) <==> ip == iq)
  {
    var ihp := DiagonalSlot(ip);
    var ihq := DiagonalSlot(iq);
    var ih := (if ihp >= ihq then ihp else ihq) - (if ip >= iq then ip - iq else iq - ip);
    if ip >= 1 && iq >= 1 && ip >= iq then DiagonalMonotone(iq, ip); DiagonalStep(ip); ih
    else if ip >= 1 && iq >= 1 then DiagonalMonotone(ip, iq); DiagonalStep(iq); ih
    else ih
  }

  /** Row m of the triangle holds m slots. */
  lemma DiagonalStep(m: int)
    requires m >= 1
    ensures DiagonalSlot(m) == DiagonalSlot(m - 1) + m
  {
    assert m + m * m == (m - 1) + (m - 1) * (m - 1) + 2 * m;
  }

  /** prelim's slot is the 1-based packed slot of entry (ipt, jpt). */
  lemma PrelimSlotPacked(ipt: nat, jpt: nat)
    requires 1 <= jpt < ipt
    ensures PrelimSlot(ipt, jpt) == PackedIndex(jpt - 1, ipt - 1) + 1
  {
    assert ipt * (ipt - 1) == (ipt - 1) * (ipt - 1 + 1);
  }

  /** Rescue's 1-based diagonal slot of row i is the packed slot of entry
      (i-1, i-1) plus one. */
  lemma DiagonalSlotPacked(i: nat)
    requires i >= 1
    ensures DiagonalSlot(i) == PackedIndex(i - 1, i - 1) + 1
  {
    assert i + i * i == (i - 1) * i + 2 * i;
  }

  /** rescue's slot addresses the same entry as prelim's, whichever of the
      two indices is the larger. */
  lemma RescueSlotAgrees(ip: nat, iq: nat)
    requires ip >= 1 && iq >= 1
    ensures ip > iq ==> RescueSlot(ip, iq) == PrelimSlot(ip, iq)
    ensures iq > ip ==> RescueSlot(ip, iq) == PrelimSlot(iq, ip)
    ensures ip == iq ==> RescueSlot(ip, iq) == DiagonalSlot(ip)
    ensures RescueSlot(ip, iq) == RescueSlot(iq, ip)
  {
    if ip <= iq { DiagonalMonotone(ip, iq); } else { DiagonalMonotone(iq, ip); }
    assert ip + ip * ip == ip * (ip - 1) + 2 * ip;
    assert iq + iq * iq == iq * (iq - 1) + 2 * iq;
  }

  /** Diagonal slots grow with the index, strictly. */
  lemma DiagonalMonotone(a: nat, b: nat)
    requires a <= b
    ensures DiagonalSlot(a) <= DiagonalSlot(b)
    ensures a < b ==> DiagonalSlot(a) < DiagonalSlot(b)
  {
    assert a * a <= b * b by { MulMonotone(a, b); }
  }

  lemma MulMonotone(a: nat, b: nat)
    requires a <= b
    ensures a * a <= b * b
  {
    assert a * a <= a * b <= b * b;
  }

  // ---------------------------------------------------------------------
  // bobyqa_prelim: the initial point number nfm (0-based) beyond 2n gets
  // its displacement from the coordinate pair (ipt, jpt).

  function PrelimPair(n: nat, nfm: nat): (p: (int, int))
    requires n >= 1 && nfm > 2 * n
    ensures nfm < n * n + n + 1 ==> 1 <= p.1 < p.0 <= n
  {
    var np := n + 1;
    var itemp := (nfm - np) / n;
    var jpt := nfm - itemp * n - n;
    var ipt := jpt + itemp;
    if ipt > n then (jpt, ipt - n) else (ipt, jpt)
  }

  /** Every nfm that can occur (nfm < npt <= (n+1)(n+2)/2) is in the range
      where the pair is proper. */
  lemma PrelimPairInRange(n: nat, nfm: nat, npt: nat)
    requires n >= 1 && 2 * n < nfm < npt <= (n + 1) * (n + 2) / 2
    ensures 1 <= PrelimPair(n, nfm).1 < PrelimPair(n, nfm).0 <= n
  {
    assert (n + 1) * (n + 2) == n * n + 3 * n + 2;
    assert n * n + 3 * n + 2 <= 2 * (n * n + n + 1) by {
      assert n <= n * n;
    }
  }

  // ---------------------------------------------------------------------
  // bobyqa_rescue: provisional points are identified by ip + iq/np + sfrac
  // with sfrac = 0.5/np, np = n + 1, and decoded by ip = (int)id and
  // iq = (int)(np*id - ip*np). The integer product ip*np converted to
  // double equals the product of the converted factors for these small
  // values, and the model writes it that way.

  function EncodeId(ip: int, iq: int, np: int): (id: real)
    requires np >= 1
    ensures ip >= 0 && 0 <= iq < np ==> ip as real < id < (ip + 1) as real
  {
    var r := np as real;
    var a := iq as real + 0.5;
    ScaleQuotient(a, r);
    assert iq as real / r + 0.5 / r == a / r;
    if 0 <= iq < np then
      UpperByProduct(a / r, 1.0, r);
      ip as real + iq as real / np as real + 0.5 / np as real
    else
      ip as real + iq as real / np as real + 0.5 / np as real
  }

  /** For an identifier that is not negative, ip is its integer part; iq
      truncates the value that DecodeRest places in [0, np). */
  function DecodeId(id: real, np: int): (p: (int, int))
    ensures id >= 0.0 ==> 0 <= p.0 && p.0 as real <= id < p.0 as real + 1.0
  {
    var ip := Trunc(id);
    (ip, Trunc(np as real * id - ip as real * np as real))
  }

  /** np*id - ip*np = np*(id - ip) lies in [0, np) when ip is the integer
      part of id, so its truncation iq is a position 0 .. np-1. */
  lemma DecodeRest(id: real, ip: int, np: int)
    ensures np >= 1 && ip as real <= id < ip as real + 1.0 ==>
      0.0 <= np as real * id - ip as real * np as real < np as real
  {
    if np >= 1 && ip as real <= id < ip as real + 1.0 {
      ScaledFraction(id, ip as real, np as real);
    }
  }

  /** r*id - q*r = r*(id - q) lies in [0, r) when q <= id < q + 1. */
  lemma ScaledFraction(id: real, q: real, r: real)
    requires q <= id < q + 1.0 && r >= 1.0
    ensures 0.0 <= r * id - q * r < r
  {
    StrictMul(id, q + 1.0, r);
    LowerMul(q, id, r);
  }

  lemma TruncBetween(x: real, k: nat)
    requires k as real <= x < k as real + 1.0
    ensures Trunc(x) == k
  {
  }

  lemma ScaleQuotient(a: real, r: real)
    requires r > 0.0
    ensures r * (a / r) == a
  {
  }

  lemma Distribute(r: real, a: real, b: real)
    ensures r * (a + b) - a * r == r * b
  {
  }

  /** Decoding inverts encoding for every pair with 0 <= ip and 0 <= iq < np. */
  lemma DecodeEncode(ip: nat, iq: nat, np: nat)
    requires np >= 1 && iq < np
    ensures DecodeId(EncodeId(ip, iq, np), np) == (ip, iq)
  {
    var r := np as real;
    var a := iq as real + 0.5;
    var f := a / r;
    ScaleQuotient(a, r);
    assert f < 1.0 by { UpperByProduct(f, 1.0, r); }
    var id := EncodeId(ip, iq, np);
    assert id == ip as real + f;
    TruncBetween(id, ip);
    Distribute(r, ip as real, f);
    var rest := r * id - ip as real * r;
    assert rest == iq as real + 0.5;
    TruncBetween(rest, iq);
    assert DecodeId(id, np).0 == ip;
    assert DecodeId(id, np).1 == Trunc(rest);
  }

  /** Provisional point k's pair (ip, iq) according to rescue's scheme:
      point 0 is XOPT, points 1..n step along one coordinate to the first
      position, points n+1..2n to the second position, and later points
      step along two coordinates. */
  function ProvisionalPair(n: nat, k: nat): (p: (int, int))
    requires n >= 1 && k <= n * n + n
    ensures 0 <= p.0 <= n && 0 <= p.1 <= n
    ensures k >= 1 ==> p.0 != p.1
  {
    if k == 0 then (0, 0)
    else if k <= n then (k, 0)
    else if k <= 2 * n then (0, k - n)
    else RescuePair(n, k)
  }

  /** The coordinate pair of the k-th point beyond 2n+1 (bobyqa.c:2290-2293). */
  function RescuePair(n: nat, k: nat): (p: (int, int))
    requires n >= 1 && 2 * n + 1 <= k <= n * n + n
    ensures 1 <= p.0 <= n && 1 <= p.1 <= n && p.0 != p.1
  {
    var np := n + 1;
    var iw := Trunc(((k + 1 - np) as real - 0.5) / n as real);
    TruncQuotient(k - np, n);
    PairFromQuotient(n, k - np);
    var ip := k + 1 - np - iw * n;
    var iq := ip + iw;
    (ip, if iq > n then iq - n else iq)
  }

  /** With m = q*n + s, q in [1, n-1], the pair is (s+1, s+1+q wrapped). */
  lemma PairFromQuotient(n: nat, m: nat)
    requires n >= 1 && n <= m < n * n
    ensures 1 <= m / n < n
    ensures m + 1 - (m / n) * n == m % n + 1
  {
    var q := m / n;
    assert m == q * n + m % n;
    if q < 1 {
      assert false;
    }
    if q >= n {
      MulAtLeast(q, n);
      assert false;
    }
  }

  lemma MulAtLeast(q: nat, n: nat)
    requires q >= n
    ensures q * n >= n * n
  {
  }

  /** (int)((m + 0.5)/n) is the integer quotient m/n. */
  lemma TruncQuotient(m: nat, n: nat)
    requires n >= 1
    ensures Trunc(((m + 1) as real - 0.5) / n as real) == m / n
  {
    var q := m / n;
    var x := ((m + 1) as real - 0.5) / n as real;
    assert m == q * n + m % n;
    assert x * n as real == (m + 1) as real - 0.5;
    LowerByProduct(q as real, x, n as real);
    UpperByProduct(x, (q + 1) as real, n as real);
    TruncBetween(x, q);
  }

  lemma LowerByProduct(a: real, b: real, c: real)
    requires c > 0.0 && a * c <= b * c
    ensures a <= b
  {
  }

  lemma UpperByProduct(a: real, b: real, c: real)
    requires c > 0.0 && a * c < b * c
    ensures a < b
  {
  }

  /** The identifier rescue writes at bobyqa.c:2267 for the point that steps
      to the second position along coordinate j+1, as written. */
  function SecondPositionIdAsWritten(j: nat, np: nat): (id: real)
    requires np >= 1
    ensures np >= 2 && j + 1 < np ==> 0.0 < id < 1.0
  {
    var r := np as real;
    var a := (j + 1) as real;
    ScaleQuotient(a, r + 1.0);
    ScaleQuotient(0.5, r);
    if np >= 2 && j + 1 < np then
      IdFraction(a, r, a / (r + 1.0), 0.5 / r);
      (j + 1) as real / (np + 1) as real + 0.5 / np as real
    else
      (j + 1) as real / (np + 1) as real + 0.5 / np as real
  }

  /** The identifier the scheme requires for that point: ip = 0, iq = j+1. */
  function SecondPositionId(j: nat, np: nat): (id: real)
    requires np >= 1 && j + 1 < np
    ensures DecodeId(id, np) == (0, j + 1)
  {
    DecodeEncode(0, j + 1, np);
    EncodeId(0, j + 1, np)
  }

  /** With n = 3 (np = 4) the identifier written for coordinate 3 decodes
      to coordinate 2. */
  lemma SecondPositionIdAsWrittenMisdecodes()
    ensures SecondPositionIdAsWritten(2, 4) == 0.725
    ensures DecodeId(SecondPositionIdAsWritten(2, 4), 4) == (0, 2)
    ensures SecondPositionId(2, 4) == 0.875
  {
    assert Trunc(0.725) == 0;
    assert Trunc(4.0 * 0.725 - 0.0) == 2;
  }

  /** What the identifier written at bobyqa.c:2267 decodes to, for every
      coordinate: the intended (0, j+1) only while 2(j+1) <= np+1, and the
      neighbouring coordinate (0, j) beyond that. */
  lemma SecondPositionIdAsWrittenDecodes(j: nat, np: nat)
    requires np >= 2 && j + 1 < np
    ensures DecodeId(SecondPositionIdAsWritten(j, np), np) ==
      if 2 * (j + 1) <= np + 1 then (0, j + 1) else (0, j)
  {
    var id := SecondPositionIdAsWritten(j, np);
    AsWrittenScaled(j, np);
    DecodeBelowOne(id, np);
    if 2 * (j + 1) <= np + 1 {
      TruncBetween(np as real * id, j + 1);
    } else {
      TruncBetween(np as real * id, j);
    }
  }

  /** np times the as-written identifier lies in [j+1, j+3/2) while
      2(j+1) <= np+1, and in (j+1/2, j+1) beyond. */
  lemma AsWrittenScaled(j: nat, np: nat)
    requires np >= 2 && j + 1 < np
    ensures 0.0 <= SecondPositionIdAsWritten(j, np) < 1.0
    ensures 2 * (j + 1) <= np + 1 ==>
      (j + 1) as real <= np as real * SecondPositionIdAsWritten(j, np) < (j + 1) as real + 1.0
    ensures 2 * (j + 1) > np + 1 ==>
      j as real <= np as real * SecondPositionIdAsWritten(j, np) < j as real + 1.0
  {
    var r := np as real;
    var a := (j + 1) as real;
    var f := a / (r + 1.0);
    var h := 0.5 / r;
    ScaleQuotient(a, r + 1.0);
    ScaleQuotient(0.5, r);
    assert SecondPositionIdAsWritten(j, np) == f + h;
    IdFraction(a, r, f, h);
  }

  lemma DecodeBelowOne(id: real, np: int)
    requires 0.0 <= id < 1.0
    ensures DecodeId(id, np) == (0, Trunc(np as real * id))
  {
    TruncBetween(id, 0);
    assert (0 * np) as real == 0.0;
  }

  /** The arithmetic behind SecondPositionIdAsWrittenDecodes: with
      f = a/(r+1) and h = 0.5/r, f + h lies in (0, 1) and r(f + h) lies in
      [a, a + 1/2) or (a - 1/2, a) as 2a <= r + 1 or not. */
  lemma IdFraction(a: real, r: real, f: real, h: real)
    requires r >= 2.0 && 1.0 <= a <= r - 1.0
    requires f * (r + 1.0) == a && h * r == 0.5
    ensures 0.0 < f + h < 1.0
    ensures 2.0 * a <= r + 1.0 ==> a <= r * (f + h) < a + 0.5
    ensures 2.0 * a > r + 1.0 ==> a - 0.5 < r * (f + h) < a
  {
    MulSucc(f, r);
    Quotient(a, r + 1.0, f);
    CancelLe(0.0, h, r, 0.0, 0.5);
    Distrib(f, h, r);
    CancelLt(f + h, 1.0, r, a - f + 0.5, r);
  }

  /** f = a/c with 1 <= a <= c - 2 lies in (0, 1), on the side of 1/2 that
      2a <= c says. */
  lemma Quotient(a: real, c: real, f: real)
    requires 1.0 <= a <= c - 2.0 && f * c == a
    ensures 0.0 < f < 1.0
    ensures 2.0 * a <= c ==> f <= 0.5
    ensures 2.0 * a > c ==> f > 0.5
  {
    CancelLt(0.0, f, c, 0.0, a);
    CancelLt(f, 1.0, c, a, c);
    if 2.0 * a <= c {
      CancelLe(f, 0.5, c, a, 0.5 * c);
    } else {
      CancelLt(0.5, f, c, 0.5 * c, a);
    }
  }

  /** Cancelling a positive factor c from p = x c <= q = y c. */
  lemma CancelLe(x: real, y: real, c: real, p: real, q: real)
    requires c > 0.0 && p == x * c && q == y * c && p <= q
    ensures x <= y
  {
  }

  /** Cancelling a positive factor c from p = x c < q = y c. */
  lemma CancelLt(x: real, y: real, c: real, p: real, q: real)
    requires c > 0.0 && p == x * c && q == y * c && p < q
    ensures x < y
  {
  }

  lemma MulSucc(x: real, r: real)
    ensures x * (r + 1.0) == x * r + x
  {
  }

  lemma Distrib(x: real, y: real, z: real)
    ensures (x + y) * z == x * z + y * z && z * (x + y) == x * z + y * z
  {
  }

  lemma StrictMul(a: real, b: real, c: real)
    requires a < b && c > 0.0
    ensures a * c < b * c
  {
  }

  lemma LowerMul(a: real, b: real, c: real)
    requires a <= b && c >= 0.0
    ensures a * c <= b * c
  {
  }

  /** The identifier rescue's scheme gives provisional point k. */
  function IntendedId(n: nat, k: nat): (id: real)
    requires n >= 1 && k <= n * n + n
    ensures DecodeId(id, n + 1) == ProvisionalPair(n, k)
  {
    var p := ProvisionalPair(n, k);
    DecodeEncode(p.0, p.1, n + 1);
    EncodeId(p.0, p.1, n + 1)
  }

  /** The identifiers bobyqa_rescue assigns to its npt provisional points,
      with the second-position identifiers as the scheme requires. */
  method ProvisionalIds(n: nat, npt: nat) returns (ptsid: seq<real>)
    requires n >= 1 && n + 2 <= npt <= (n + 1) * (n + 2) / 2
    ensures |ptsid| == npt
    ensures forall k :: 0 <= k < npt ==> k <= n * n + n && ptsid[k] == IntendedId(n, k)
    ensures forall k :: 0 <= k < npt ==> DecodeId(ptsid[k], n + 1) == ProvisionalPair(n, k)
  {
    var np := n + 1;
    var sfrac := 0.5 / np as real;
    assert (n + 1) * (n + 2) <= 2 * (n * n + n + 1) by {
      assert (n + 1) * (n + 2) == n * n + 3 * n + 2;
      assert n <= n * n;
    }
    ptsid := seq(npt, _ => 0.0);
    assert sfrac == IntendedId(n, 0);
    ptsid := ptsid[0 := sfrac];
    var j := 0;
    while j < n
      invariant 0 <= j <= n && |ptsid| == npt
      invariant forall k :: 0 <= k <= j ==> ptsid[k] == IntendedId(n, k)
      invariant forall k :: n + 1 <= k <= n + j && k < npt ==> ptsid[k] == IntendedId(n, k)
    {
      var jp := j + 1;
      var jpn := jp + n;
      assert (j + 1) as real + sfrac == IntendedId(n, jp);
      ptsid := ptsid[jp := (j + 1) as real + sfrac];
      if jpn < npt {
        assert SecondPositionId(j, np) == IntendedId(n, jpn);
        ptsid := ptsid[jpn := SecondPositionId(j, np)];
      }
      j := j + 1;
    }
    if npt >= n + np {
      var k := 2 * np - 1;
      while k < npt
        invariant 2 * np - 1 <= k <= npt && |ptsid| == npt
        invariant forall m :: 0 <= m < k ==> ptsid[m] == IntendedId(n, m)
      {
        var p := RescuePair(n, k);
        assert p.0 as real + p.1 as real / np as real + sfrac == IntendedId(n, k);
        ptsid := ptsid[k := p.0 as real + p.1 as real / np as real + sfrac];
        k := k + 1;
      }
    }
  }
  /** The identifiers bobyqa_rescue assigns, as written: the second-position
      point of coordinate j+1 gets SecondPositionIdAsWritten, which decodes
      to the wrong coordinate once 2(j+1) > n+2; every other point gets the
      identifier of its pair. */
  method ProvisionalIdsAsWritten(n: nat, npt: nat) returns (ptsid: seq<real>)
    requires n >= 1 && n + 2 <= npt <= (n + 1) * (n + 2) / 2
    ensures |ptsid| == npt
    ensures forall k :: 0 <= k < npt && (k <= n || k > 2 * n) ==>
      k <= n * n + n && ptsid[k] == IntendedId(n, k)
    ensures forall k :: n + 1 <= k <= 2 * n && k < npt ==>
      ptsid[k] == SecondPositionIdAsWritten(k - n - 1, n + 1)
    ensures forall k :: n + 1 <= k <= 2 * n && k < npt ==>
      DecodeId(ptsid[k], n + 1) == if 2 * (k - n) <= n + 2 then (0, k - n) else (0, k - n - 1)
  {
    var np := n + 1;
    var sfrac := 0.5 / np as real;
    assert (n + 1) * (n + 2) <= 2 * (n * n + n + 1) by {
      assert (n + 1) * (n + 2) == n * n + 3 * n + 2;
      assert n <= n * n;
    }
    ptsid := seq(npt, _ => 0.0);
    assert sfrac == IntendedId(n, 0);
    ptsid := ptsid[0 := sfrac];
    var j := 0;
    while j < n
      invariant 0 <= j <= n && |ptsid| == npt
      invariant forall k :: 0 <= k <= j ==> ptsid[k] == IntendedId(n, k)
      invariant forall k :: n + 1 <= k <= n + j && k < npt ==>
        ptsid[k] == SecondPositionIdAsWritten(k - n - 1, np)
    {
      var jp := j + 1;
      var jpn := jp + n;
      assert (j + 1) as real + sfrac == IntendedId(n, jp);
      ptsid := ptsid[jp := (j + 1) as real + sfrac];
      if jpn < npt {
        ptsid := ptsid[jpn := SecondPositionIdAsWritten(j, np)];
      }
      j := j + 1;
    }
    if npt >= n + np {
      var k := 2 * np - 1;
      while k < npt
        invariant 2 * np - 1 <= k <= npt && |ptsid| == npt
        invariant forall m :: 0 <= m <= n ==> ptsid[m] == IntendedId(n, m)
        invariant forall m :: n + 1 <= m <= 2 * n && m < npt ==>
          ptsid[m] == SecondPositionIdAsWritten(m - n - 1, np)
        invariant forall m :: 2 * np - 1 <= m < k ==> ptsid[m] == IntendedId(n, m)
      {
        var p := RescuePair(n, k);
        assert p.0 as real + p.1 as real / np as real + sfrac == IntendedId(n, k);
        ptsid := ptsid[k := p.0 as real + p.1 as real / np as real + sfrac];
        k := k + 1;
      }
    }
    SecondPositionIdsDecode(n, ptsid);
  }

  /** Decoding the as-written second-position identifiers among ids. */
  lemma SecondPositionIdsDecode(n: nat, ids: seq<real>)
    requires n >= 1
    requires forall k :: n + 1 <= k <= 2 * n && k < |ids| ==>
      ids[k] == SecondPositionIdAsWritten(k - n - 1, n + 1)
    ensures forall k :: n + 1 <= k <= 2 * n && k < |ids| ==>
      DecodeId(ids[k], n + 1) == if 2 * (k - n) <= n + 2 then (0, k - n) else (0, k - n - 1)
  {
    forall k | n + 1 <= k <= 2 * n && k < |ids|
      ensures DecodeId(ids[k], n + 1) == if 2 * (k - n) <= n + 2 then (0, k - n) else (0, k - n - 1)
    {
      SecondPositionIdAsWrittenDecodes(k - n - 1, n + 1);
    }
  }
}
