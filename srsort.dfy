// The stochastic ranking procedure of srsort.c (a stochastic bubble sort
// of an index list). Individuals are numbered 1..n; f holds their
// objective values and phi their constraint penalties. The random vector
// that Randomize draws before each sweep is an input: G[i] is the vector of
// sweep i.
module StochasticRanking {

  /** Every entry is an individual's number in 1..n. */
  predicate Indices(s: seq<int>, n: int)
  {
    forall j :: 0 <= j < |s| ==> 1 <= s[j] <= n
  }

  /** One draw per adjacent pair for each of the n sweeps. */
  predicate Draws(G: seq<seq<real>>, n: nat)
  {
    |G| == n && forall i :: 0 <= i < |G| ==> |G[i]| == n - 1
  }

  /** The pair a, b (in that order) is compared on their objective values
      when both penalties are zero, or when the draw g is below pf
      (srsort.c:83); otherwise on their penalties. */
  predicate OnObjective(phi: seq<real>, a: int, b: int, g: real, pf: real)
    requires 1 <= a <= |phi| && 1 <= b <= |phi|
  {
    (phi[a - 1] == phi[b - 1] && phi[a - 1] == 0.0) || g < pf
  }

  /** The pair is exchanged when the left one is strictly worse on the
      compared value (srsort.c:84, 91). */
  predicate Swaps(f: seq<real>, phi: seq<real>, a: int, b: int, g: real, pf: real)
    requires |phi| == |f| && 1 <= a <= |f| && 1 <= b <= |f|
  {
    if OnObjective(phi, a, b, g, pf) then f[a - 1] > f[b - 1] else phi[a - 1] > phi[b - 1]
  }

  /** The comparison at position j of a sweep (srsort.c:83-96). */
  function Step(s: seq<int>, f: seq<real>, phi: seq<real>, g: real, pf: real, j: nat): (t: seq<int>)
    requires |phi| == |f| && Indices(s, |f|) && j + 1 < |s|
    ensures |t| == |s| && Indices(t, |f|)
    ensures t == s || t == s[j := s[j + 1]][j + 1 := s[j]]
  {
    if Swaps(f, phi, s[j], s[j + 1], g, pf) then s[j := s[j + 1]][j + 1 := s[j]] else s
  }

  /** The list after the comparisons at positions 0 .. j-1 of one sweep. */
  function SweepUpTo(s: seq<int>, f: seq<real>, phi: seq<real>, g: seq<real>, pf: real, j: nat): (t: seq<int>)
    requires |phi| == |f| && Indices(s, |f|) && (j == 0 || j < |s|) && |s| <= |g| + 1
    ensures |t| == |s| && Indices(t, |f|)
  {
    if j == 0 then s
    else Step(SweepUpTo(s, f, phi, g, pf, j - 1), f, phi, g[j - 1], pf, j - 1)
  }

  /** Some comparison at positions 0 .. j-1 exchanged its pair. */
  predicate SwappedUpTo(s: seq<int>, f: seq<real>, phi: seq<real>, g: seq<real>, pf: real, j: nat)
    requires |phi| == |f| && Indices(s, |f|) && (j == 0 || j < |s|) && |s| <= |g| + 1
  {
    if j == 0 then false
    else
      var t := SweepUpTo(s, f, phi, g, pf, j - 1);
      SwappedUpTo(s, f, phi, g, pf, j - 1) || Swaps(f, phi, t[j - 1], t[j], g[j - 1], pf)
  }

  /** A whole sweep over the n-1 adjacent pairs (srsort.c:82-97). */
  function Sweep(s: seq<int>, f: seq<real>, phi: seq<real>, g: seq<real>, pf: real): (t: seq<int>)
    requires |phi| == |f| && Indices(s, |f|) && 1 <= |s| == |g| + 1
    ensures |t| == |s| && Indices(t, |f|)
  {
    SweepUpTo(s, f, phi, g, pf, |s| - 1)
  }

  /** The whole sweep exchanged some pair. */
  predicate Swapped(s: seq<int>, f: seq<real>, phi: seq<real>, g: seq<real>, pf: real)
    requires |phi| == |f| && Indices(s, |f|) && 1 <= |s| == |g| + 1
  {
    SwappedUpTo(s, f, phi, g, pf, |s| - 1)
  }

  /** The sweeps from sweep i on (srsort.c:79-100): the final list and the
      number of sweeps made, the loop stopping after a sweep without an
      exchange or after n sweeps. */
  function RankFrom(s: seq<int>, f: seq<real>, phi: seq<real>, G: seq<seq<real>>, pf: real, i: nat): (r: (seq<int>, nat))
    requires |phi| == |f| && |s| == |f| && Indices(s, |f|) && Draws(G, |f|) && i <= |f|
    ensures |r.0| == |f| && Indices(r.0, |f|)
    decreases |f| - i
  {
    if i == |f| then (s, i)
    else
      var t := Sweep(s, f, phi, G[i], pf);
      if !Swapped(s, f, phi, G[i], pf) then (t, i + 1)
      else RankFrom(t, f, phi, G, pf, i + 1)
  }

  /** srsort.c:58-102: the index list starts as 1..n and is sorted by the
      stochastic bubble sort; sweeps counts the passes made. */
  method Rank(f: seq<real>, phi: seq<real>, pf: real, G: seq<seq<real>>) returns (I: array<int>, sweeps: nat)
    requires |phi| == |f| && Draws(G, |f|)
    ensures fresh(I) && I.Length == |f|
    ensures (I[..], sweeps) == RankFrom(Identity(|f|), f, phi, G, pf, 0)
  {
    var n := |f|;
    I := new int[n];
    var i := 1;
    while i <= n
      invariant 1 <= i <= n + 1
      invariant forall k :: 0 <= k < i - 1 ==> I[k] == k + 1
    {
      I[i - 1] := i;
      i := i + 1;
    }
    assert I[..] == Identity(n);
    i := 0;
    while i < n
      invariant 0 <= i <= n && Indices(I[..], n)
      invariant RankFrom(Identity(n), f, phi, G, pf, 0) == RankFrom(I[..], f, phi, G, pf, i)
    {
      ghost var s := I[..];
      var moved := SweepArray(I, f, phi, G[i], pf);
      if moved == 0 {
        return I, i + 1;
      }
      assert I[..] == Sweep(s, f, phi, G[i], pf);
      i := i + 1;
    }
    sweeps := n;
  }

  /** The identity list 1..n (srsort.c:71-72). */
  function Identity(n: nat): (s: seq<int>)
    ensures |s| == n && Indices(s, n)
  {
    seq(n, k => k + 1)
  }

  /** One sweep on the array (srsort.c:80-97). moved (the C variable is)
      records the number moved by the last exchange, so it is 0 exactly when
      nothing moved. */
  method SweepArray(I: array<int>, f: seq<real>, phi: seq<real>, g: seq<real>, pf: real) returns (moved: int)
    requires |phi| == |f| && I.Length == |f| && Indices(I[..], |f|) && 1 <= I.Length == |g| + 1
    modifies I
    ensures I[..] == Sweep(old(I[..]), f, phi, g, pf)
    ensures moved == 0 <==> !Swapped(old(I[..]), f, phi, g, pf)
  {
    ghost var s := I[..];
    moved := 0;
    var j := 0;
    while j < I.Length - 1
      invariant 0 <= j <= I.Length - 1
      invariant I[..] == SweepUpTo(s, f, phi, g, pf, j)
      invariant moved == 0 <==> !SwappedUpTo(s, f, phi, g, pf, j)
    {
      ghost var p := I[..];
      moved := Compare(I, f, phi, g[j], pf, j, moved);
      assert SweepUpTo(s, f, phi, g, pf, j + 1) == Step(p, f, phi, g[j], pf, j);
      j := j + 1;
    }
  }

  /** The comparison at position j of a sweep (srsort.c:83-95): the pair is
      exchanged as Step says, and moved becomes the number moved by the
      exchange, or keeps its value when nothing moves. */
  method Compare(I: array<int>, f: seq<real>, phi: seq<real>, gj: real, pf: real, j: nat, moved0: int) returns (moved: int)
    requires |phi| == |f| && I.Length == |f| && Indices(I[..], |f|) && j + 1 < I.Length
    modifies I
    ensures I[..] == Step(old(I[..]), f, phi, gj, pf, j)
    ensures moved == if Swaps(f, phi, old(I[j]), old(I[j + 1]), gj, pf) then old(I[j]) else moved0
  {
    moved := moved0;
    if OnObjective(phi, I[j], I[j + 1], gj, pf) {
      if f[I[j] - 1] > f[I[j + 1] - 1] {
        moved := I[j];
        I[j] := I[j + 1];
        I[j + 1] := moved;
      }
    } else {
      if phi[I[j] - 1] > phi[I[j + 1] - 1] {
        moved := I[j];
        I[j] := I[j + 1];
        I[j + 1] := moved;
      }
    }
  }

  // ---- Permutation -------------------------------------------------------

  lemma {:induction false} SweepPermutes(s: seq<int>, f: seq<real>, phi: seq<real>, g: seq<real>, pf: real, j: nat)
    requires |phi| == |f| && Indices(s, |f|) && (j == 0 || j < |s|) && |s| <= |g| + 1
    ensures multiset(SweepUpTo(s, f, phi, g, pf, j)) == multiset(s)
  {
    if j > 0 {
      SweepPermutes(s, f, phi, g, pf, j - 1);
      var t := SweepUpTo(s, f, phi, g, pf, j - 1);
      StepPermutes(t, SweepUpTo(s, f, phi, g, pf, j), f, phi, g[j - 1], pf, j - 1);
    }
  }

  /** One comparison keeps the multiset. */
  lemma StepPermutes(t: seq<int>, u: seq<int>, f: seq<real>, phi: seq<real>, g: real, pf: real, j: nat)
    requires |phi| == |f| && Indices(t, |f|) && j + 1 < |t| && u == Step(t, f, phi, g, pf, j)
    ensures multiset(u) == multiset(t)
  {
    if u != t {
      SwapPermutes(t, j);
    }
  }

  /** Exchanging two adjacent entries keeps the multiset. */
  lemma SwapPermutes(t: seq<int>, j: nat)
    requires j + 1 < |t|
    ensures multiset(t[j := t[j + 1]][j + 1 := t[j]]) == multiset(t)
  {
    var u := t[j := t[j + 1]];
    assert u[j + 1] == t[j + 1];
    assert multiset(u) == multiset(t) - multiset{t[j]} + multiset{t[j + 1]};
    assert multiset(u[j + 1 := t[j]]) == multiset(u) - multiset{t[j + 1]} + multiset{t[j]};
  }

  lemma {:induction false} RankPermutes(s: seq<int>, f: seq<real>, phi: seq<real>, G: seq<seq<real>>, pf: real, i: nat)
    requires |phi| == |f| && |s| == |f| && Indices(s, |f|) && Draws(G, |f|) && i <= |f|
    ensures multiset(RankFrom(s, f, phi, G, pf, i).0) == multiset(s)
    decreases |f| - i
  {
    if i < |f| {
      var t := Sweep(s, f, phi, G[i], pf);
      SweepPermutes(s, f, phi, G[i], pf, |s| - 1);
      if Swapped(s, f, phi, G[i], pf) {
        RankPermutes(t, f, phi, G, pf, i + 1);
        assert RankFrom(s, f, phi, G, pf, i) == RankFrom(t, f, phi, G, pf, i + 1);
      } else {
        assert RankFrom(s, f, phi, G, pf, i) == (t, i + 1);
      }
    }
  }

  /** The ranked list is a permutation of 1..n (srsort.c:69-72, 83-96). */
  lemma RankIsPermutation(f: seq<real>, phi: seq<real>, G: seq<seq<real>>, pf: real)
    requires |phi| == |f| && Draws(G, |f|)
    ensures var r := RankFrom(Identity(|f|), f, phi, G, pf, 0);
      |r.0| == |f| && multiset(r.0) == multiset(Identity(|f|))
  {
    RankPermutes(Identity(|f|), f, phi, G, pf, 0);
  }

  // ---- Stopping ----------------------------------------------------------

  /** A sweep without an exchange leaves the list as it was. */
  lemma {:induction false} NoSwapUnchanged(s: seq<int>, f: seq<real>, phi: seq<real>, g: seq<real>, pf: real, j: nat)
    requires |phi| == |f| && Indices(s, |f|) && (j == 0 || j < |s|) && |s| <= |g| + 1
    requires !SwappedUpTo(s, f, phi, g, pf, j)
    ensures SweepUpTo(s, f, phi, g, pf, j) == s
    ensures forall k :: 0 <= k < j ==> !Swaps(f, phi, s[k], s[k + 1], g[k], pf)
  {
    if j > 0 {
      NoSwapUnchanged(s, f, phi, g, pf, j - 1);
    }
  }

  /** The sweeps from sweep i on end with r: r.1 sweeps in all, at most n
      and more than i when i < n; when r.1 < n, the last sweep exchanged
      nothing and left r.0 as it was. */
  predicate Stops(f: seq<real>, phi: seq<real>, G: seq<seq<real>>, pf: real, i: nat, r: (seq<int>, nat))
    requires |phi| == |f| && |r.0| == |f| && Indices(r.0, |f|) && Draws(G, |f|) && i <= |f|
  {
    r.1 <= |f| && (i < |f| ==> i < r.1) && (i == |f| ==> r.1 == i)
    && (r.1 < |f| ==> !Swapped(r.0, f, phi, G[r.1 - 1], pf)
                      && Sweep(r.0, f, phi, G[r.1 - 1], pf) == r.0)
  }

  /** There are at most n sweeps, and at least one when n > 0; when the loop
      stops early, the last sweep exchanged nothing, so the list it leaves
      is the one it was given (srsort.c:79-80, 98-99). */
  lemma {:induction false} RankStops(s: seq<int>, f: seq<real>, phi: seq<real>, G: seq<seq<real>>, pf: real, i: nat)
    requires |phi| == |f| && |s| == |f| && Indices(s, |f|) && Draws(G, |f|) && i <= |f|
    ensures Stops(f, phi, G, pf, i, RankFrom(s, f, phi, G, pf, i))
    decreases |f| - i
  {
    if i < |f| {
      var t := Sweep(s, f, phi, G[i], pf);
      if !Swapped(s, f, phi, G[i], pf) {
        NoSwapUnchanged(s, f, phi, G[i], pf, |s| - 1);
        assert RankFrom(s, f, phi, G, pf, i) == (s, i + 1);
      } else {
        RankStops(t, f, phi, G, pf, i + 1);
        assert RankFrom(s, f, phi, G, pf, i) == RankFrom(t, f, phi, G, pf, i + 1);
      }
    }
  }

  /** Two individuals with equal objective and equal penalty are never
      exchanged, so their order is kept (srsort.c:84, 91). */
  lemma TiesKept(f: seq<real>, phi: seq<real>, a: int, b: int, g: real, pf: real)
    requires |phi| == |f| && 1 <= a <= |f| && 1 <= b <= |f|
    requires f[a - 1] == f[b - 1] && phi[a - 1] == phi[b - 1]
    ensures !Swaps(f, phi, a, b, g, pf)
  {
  }

  // ---- Without penalties: bubble sort on f -------------------------------

  /** Every penalty is zero. */
  predicate AllFeasible(phi: seq<real>)
  {
    forall k :: 0 <= k < |phi| ==> phi[k] == 0.0
  }

  /** Without penalties every pair is compared on f. */
  lemma FeasibleSwaps(f: seq<real>, phi: seq<real>, a: int, b: int, g: real, pf: real)
    requires |phi| == |f| && 1 <= a <= |f| && 1 <= b <= |f| && AllFeasible(phi)
    ensures Swaps(f, phi, a, b, g, pf) <==> f[a - 1] > f[b - 1]
  {
    assert phi[a - 1] == 0.0 && phi[b - 1] == 0.0;
  }

  /** The list is in non-decreasing order of f. */
  predicate SortedOn(f: seq<real>, s: seq<int>)
    requires Indices(s, |f|)
  {
    forall j :: 0 <= j < |s| - 1 ==> f[s[j] - 1] <= f[s[j + 1] - 1]
  }

  /** The last k entries are in order and none of the earlier entries
      exceeds the first of them. */
  predicate TailSorted(f: seq<real>, s: seq<int>, k: nat)
    requires Indices(s, |f|)
  {
    k <= |s|
    && (forall j :: |s| - k <= j < |s| - 1 ==> f[s[j] - 1] <= f[s[j + 1] - 1])
    && (0 < k ==> forall i :: 0 <= i < |s| - k ==> f[s[i] - 1] <= f[s[|s| - k] - 1])
  }

  /** Facts about t, a list s part way through a sweep whose last k entries
      are settled: the entry at position j < n-k is the largest of the first
      j+1, later entries are those of s, and none of the first n-k exceeds
      the first settled entry of s. */
  predicate Bubbled(s: seq<int>, t: seq<int>, f: seq<real>, k: nat, j: nat)
    requires Indices(s, |f|) && Indices(t, |f|) && |t| == |s| && j < |s| - k
  {
    (forall i :: 0 <= i <= j ==> f[t[i] - 1] <= f[t[j] - 1])
    && (forall i :: j < i < |s| ==> t[i] == s[i])
    && (0 < k ==> forall i :: 0 <= i < |s| - k ==> f[t[i] - 1] <= f[s[|s| - k] - 1])
  }

  /** Within a sweep over a list whose last k entries are settled, the
      comparisons up to position j < n-k carry the largest of the first j+1
      entries to position j. */
  lemma {:induction false} Bubbles(s: seq<int>, f: seq<real>, phi: seq<real>, g: seq<real>, pf: real, k: nat, j: nat)
    requires |phi| == |f| && Indices(s, |f|) && 1 <= |s| == |g| + 1 && AllFeasible(phi)
    requires k < |s| && TailSorted(f, s, k) && j < |s| - k
    ensures Bubbled(s, SweepUpTo(s, f, phi, g, pf, j), f, k, j)
  {
    if j > 0 {
      Bubbles(s, f, phi, g, pf, k, j - 1);
      var p := SweepUpTo(s, f, phi, g, pf, j - 1);
      BubbleStep(s, p, SweepUpTo(s, f, phi, g, pf, j), f, phi, g[j - 1], pf, k, j);
    }
  }

  /** The comparison at position j-1 moves the facts of Bubbled from j-1 to j. */
  lemma BubbleStep(s: seq<int>, p: seq<int>, t: seq<int>, f: seq<real>, phi: seq<real>, gj: real, pf: real, k: nat, j: nat)
    requires |phi| == |f| && AllFeasible(phi) && Indices(s, |f|) && Indices(p, |f|) && |p| == |s|
    requires 0 < j < |s| - k && Bubbled(s, p, f, k, j - 1)
    requires t == Step(p, f, phi, gj, pf, j - 1)
    ensures Bubbled(s, t, f, k, j)
  {
    FeasibleSwaps(f, phi, p[j - 1], p[j], gj, pf);
    if f[p[j - 1] - 1] > f[p[j] - 1] {
      BubbleExchange(s, p, f, k, j);
    } else {
      assert t == p;
    }
  }

  /** The exchange at position j-1 of a sweep keeps the facts of Bubbled. */
  lemma BubbleExchange(s: seq<int>, p: seq<int>, f: seq<real>, k: nat, j: nat)
    requires Indices(s, |f|) && Indices(p, |f|) && |p| == |s| && 0 < j < |s| - k
    requires Bubbled(s, p, f, k, j - 1)
    requires f[p[j - 1] - 1] > f[p[j] - 1]
    ensures Bubbled(s, p[j - 1 := p[j]][j := p[j - 1]], f, k, j)
  {
    var t := p[j - 1 := p[j]][j := p[j - 1]];
    forall i | 0 <= i <= j
      ensures f[t[i] - 1] <= f[t[j] - 1]
    {
      if i < j - 1 {
        assert t[i] == p[i];
      }
    }
    forall i | 0 < k && 0 <= i < |s| - k
      ensures f[t[i] - 1] <= f[s[|s| - k] - 1]
    {
      if i == j - 1 {
        assert t[i] == p[j];
      } else if i == j {
        assert t[i] == p[j - 1];
      } else {
        assert t[i] == p[i];
      }
    }
  }

  /** The comparisons from position n-k-1 on exchange nothing. */
  lemma {:induction false} Settled(s: seq<int>, f: seq<real>, phi: seq<real>, g: seq<real>, pf: real, k: nat, j: nat)
    requires |phi| == |f| && Indices(s, |f|) && 1 <= |s| == |g| + 1 && AllFeasible(phi)
    requires k < |s| && TailSorted(f, s, k) && |s| - k - 1 <= j < |s|
    ensures SweepUpTo(s, f, phi, g, pf, j) == SweepUpTo(s, f, phi, g, pf, |s| - k - 1)
  {
    if j > |s| - k - 1 {
      Settled(s, f, phi, g, pf, k, j - 1);
      Bubbles(s, f, phi, g, pf, k, |s| - k - 1);
      var p := SweepUpTo(s, f, phi, g, pf, j - 1);
      TailKept(s, p, f, phi, g[j - 1], pf, k, j);
    }
  }

  /** Once the largest of the first n-k entries stands at position n-k-1,
      the comparison at a position j-1 >= n-k-1 exchanges nothing. */
  lemma TailKept(s: seq<int>, p: seq<int>, f: seq<real>, phi: seq<real>, gj: real, pf: real, k: nat, j: nat)
    requires |phi| == |f| && AllFeasible(phi) && Indices(s, |f|) && Indices(p, |f|) && |p| == |s|
    requires k < |s| && TailSorted(f, s, k) && |s| - k - 1 < j < |s| && Bubbled(s, p, f, k, |s| - k - 1)
    ensures Step(p, f, phi, gj, pf, j - 1) == p
  {
    assert p[j] == s[j];
    if j - 1 > |s| - k - 1 {
      assert p[j - 1] == s[j - 1];
    }
    FeasibleSwaps(f, phi, p[j - 1], p[j], gj, pf);
  }

  /** A sweep settles one more entry. */
  lemma SweepSettles(s: seq<int>, f: seq<real>, phi: seq<real>, g: seq<real>, pf: real, k: nat)
    requires |phi| == |f| && Indices(s, |f|) && 1 <= |s| == |g| + 1 && AllFeasible(phi)
    requires k < |s| && TailSorted(f, s, k)
    ensures TailSorted(f, Sweep(s, f, phi, g, pf), k + 1)
  {
    Bubbles(s, f, phi, g, pf, k, |s| - k - 1);
    Settled(s, f, phi, g, pf, k, |s| - 1);
    var u := SweepUpTo(s, f, phi, g, pf, |s| - k - 1);
    assert Sweep(s, f, phi, g, pf) == u;
    SettleTail(s, u, f, k);
  }

  /** If the entry at position n-k-1 is the largest of the first n-k and
      the settled last k entries are untouched, the last k+1 are settled. */
  lemma SettleTail(s: seq<int>, t: seq<int>, f: seq<real>, k: nat)
    requires Indices(s, |f|) && Indices(t, |f|) && |t| == |s| && k < |s| && TailSorted(f, s, k)
    requires Bubbled(s, t, f, k, |s| - k - 1)
    ensures TailSorted(f, t, k + 1)
  {
    var m := |s| - k;
    forall j | m - 1 <= j < |s| - 1
      ensures f[t[j] - 1] <= f[t[j + 1] - 1]
    {
      assert t[j + 1] == s[j + 1];
      if j > m - 1 {
        assert t[j] == s[j];
      }
    }
  }

  /** A sweep without an exchange leaves the list sorted on f. */
  lemma NoSwapSorted(s: seq<int>, f: seq<real>, phi: seq<real>, g: seq<real>, pf: real)
    requires |phi| == |f| && Indices(s, |f|) && 1 <= |s| == |g| + 1 && AllFeasible(phi)
    requires !Swapped(s, f, phi, g, pf)
    ensures SortedOn(f, s)
  {
    NoSwapUnchanged(s, f, phi, g, pf, |s| - 1);
  }

  lemma {:induction false} RankSorts(s: seq<int>, f: seq<real>, phi: seq<real>, G: seq<seq<real>>, pf: real, i: nat)
    requires |phi| == |f| && |s| == |f| && Indices(s, |f|) && Draws(G, |f|) && i <= |f|
    requires AllFeasible(phi) && TailSorted(f, s, i)
    ensures SortedOn(f, RankFrom(s, f, phi, G, pf, i).0)
    decreases |f| - i
  {
    if i < |f| {
      var t := Sweep(s, f, phi, G[i], pf);
      if !Swapped(s, f, phi, G[i], pf) {
        NoSwapUnchanged(s, f, phi, G[i], pf, |s| - 1);
        NoSwapSorted(s, f, phi, G[i], pf);
      } else {
        SweepSettles(s, f, phi, G[i], pf, i);
        RankSorts(t, f, phi, G, pf, i + 1);
      }
    }
  }

  /** When every penalty is zero the procedure is a bubble sort on f: the
      ranked list is in non-decreasing order of objective value. */
  lemma FeasibleRankSorted(f: seq<real>, phi: seq<real>, G: seq<seq<real>>, pf: real)
    requires |phi| == |f| && Draws(G, |f|) && AllFeasible(phi)
    ensures SortedOn(f, RankFrom(Identity(|f|), f, phi, G, pf, 0).0)
  {
    RankSorts(Identity(|f|), f, phi, G, pf, 0);
  }
}
