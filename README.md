# BOBYQA setup, SRES ranking and recombination, FANN helpers

This project models three parts of the COSSAN-X engine's native (MEX) code.
It proves properties of the model.

**BOBYQA.** This is the bound-constrained, derivative-free optimiser of
`bobyqa.c` and `bobyqa.h`. The model covers its setup and bookkeeping, not
its numerical kernels:

- the result codes and their message table;
- the working-memory size;
- the memory layout and its offsets;
- fixed-parameter detection and the entry checks on npt;
- the scaling of the free parameters into the unit space, and back again;
- the choice of rhobeg and the adjustment of the start point inside the box;
- the one-dimensional search used when only one parameter is free;
- the initial interpolation set built by bobyqa_prelim, with its lower and
  upper pass;
- the evaluation bookkeeping of calc_with_xnew;
- the trust-region radius schedule;
- the clamped column rotations and the symmetric bmat update of
  bobyqa_update;
- the active-set counting of the trust-region step.

Doubles are modelled as reals. The objective is an abstract function
`real -> real` or `seq<real> -> real`. Memory is modelled as sizes and
offsets, and fresh memory holds zeros. Objects whose fields the C code
updates in place (`bobyqa_data`) are a Dafny class. Its methods have
`modifies` clauses and state the whole new state. Where a new value comes
from a numerical kernel that is not modelled, it is a parameter of the method.

**SRES.** `srsort.c` is the stochastic-ranking bubble sort of the
evolution strategy. `arithx.c` is its global intermediate recombination on
a column-major population. Both are imperative methods over arrays. Each
is proved against a specification function. The ranking is proved to be a
permutation of the indices. Recombination is proved to average within
columns.

**FANN.** `helperFann.c` holds the MATLAB-side helpers that move
column-major matrices into and out of row-per-pattern buffers and run the
network on each row. These are also arrays with loop invariants. Each is
proved to put the values of sample i, in the layout of `ColumnMajor`,
exactly in row i of the other side.

Modules: `Common`, `ResultCodes`, `Workspace`, `Setup`, `Bounds`,
`Indexing`, `Radius`, `Bracket`, `SingleSearch`, `Scatter`, `Vectors`,
`Prelim`, `PrelimPass`, `BobyqaState`, `Update` and `ActiveSet` cover
BOBYQA. `StochasticRanking` and `Recombination` cover SRES. `ColumnMajor`
and `FannHelper` cover FANN.

## Model

| member | source | states |
|---|---|---|
| `ResultCodes.Code` | lib/mex/src/Bobyqa/include/bobyqa.h:30-40 | failures are negative, success is 0, the six stopping reasons are positive, and every value lies in -4 .. 6 |
| `ResultCodes.FromCode` | lib/mex/src/Bobyqa/include/bobyqa.h:30-40 | an integer stands for an enumerator exactly when it lies in -4 .. 6, and that enumerator has that value |
| `ResultCodes.CodeRoundTrip` | lib/mex/src/Bobyqa/include/bobyqa.h:30-40 | decoding an enumerator's value gives the enumerator back, so no two enumerators share a value |
| `ResultCodes.MessageIndex` | COSSANXengine/mex/src/Bobyqa/bobyqa.c:377-388 | the switch of bobyqa_rc picks a position inside the 11-entry table, and position 0 only for BOBYQA_FAIL |
| `ResultCodes.Message` | COSSANXengine/mex/src/Bobyqa/bobyqa.c:361-391 | the message is a table entry; an integer outside the enumeration falls through to "failure"; "failure" comes back exactly for BOBYQA_FAIL and for such integers |
| `ResultCodes.MessagesDistinguishCodes` | COSSANXengine/mex/src/Bobyqa/bobyqa.c:361-391 | two enumerators with the same message are the same enumerator |
| `ResultCodes.MessagesDistinct` | COSSANXengine/mex/src/Bobyqa/bobyqa.c:364-376 | the eleven strings of the message table are pairwise different |
| `Workspace.SliceSizes` | COSSANXengine/mex/src/Bobyqa/bobyqa.c:412-458 | bobyqa_working_memory_size records 31 slice sizes |
| `Workspace.WorkingMemorySize` | COSSANXengine/mex/src/Bobyqa/bobyqa.c:412-458 | the returned total is non-negative and every slice laid out at its running offset ends within it, whenever no size is negative |
| `Workspace.WorkingMemorySizeClosedForm` | COSSANXengine/mex/src/Bobyqa/bobyqa.c:412-458 | the returned total equals n + 23*fitted_n + 6*npt + fitted_n*npt + fitted_n^2 + npt^2 + fitted_n*(fitted_n+1)/2 |
| `Workspace.Offsets` | COSSANXengine/mex/src/Bobyqa/bobyqa.c:502-534 | the pointer bobyqa_set_memory gives slice k is the sum of the sizes before it |
| `Workspace.PrefixMonotone` | COSSANXengine/mex/src/Bobyqa/bobyqa.c:502-534 | with non-negative sizes, a later slice never starts before an earlier one |
| `Workspace.LayoutPartitionsBlock` | COSSANXengine/mex/src/Bobyqa/bobyqa.c:502-534 | the slices start at offset 0, each begins where the previous ends, and any two are disjoint |
| `Workspace.SizesNonNegative` | COSSANXengine/mex/src/Bobyqa/bobyqa.c:435 | for n, fitted_n, npt >= 1, every slice size is non-negative exactly when npt >= fitted_n + 1, which zmat's size npt*(npt-fitted_n-1) needs |
| `Common.PackedSizeClosedForm` | COSSANXengine/mex/src/Bobyqa/bobyqa.c:432 | a packed symmetric k-by-k matrix counted row by row has k*(k+1)/2 entries, the hq size the code allocates |
| `Setup.FixedParams` | COSSANXengine/mex/src/Bobyqa/bobyqa.c:396-407 | fixed_params returns the number of parameters whose range is empty or inverted, or whose step is zero when steps are given; that number lies in 0 .. n |
| `Setup.FreeIndices` | COSSANXengine/mex/src/Bobyqa/bobyqa.c:742-754 | xplace lists at most k positions, each a parameter with a non-zero step and upper > lower |
| `Setup.FreeIndicesExact` | COSSANXengine/mex/src/Bobyqa/bobyqa.c:742-754 | xplace is strictly increasing, and holds a position exactly when that parameter is fitted |
| `Setup.FreeAndFixedPartition` | COSSANXengine/mex/src/Bobyqa/bobyqa.c:116-117 | with steps given, the fitted count plus the fixed count is n, so the j != n check at line 756 passes |
| `Setup.CheckedNpt` | COSSANXengine/mex/src/Bobyqa/bobyqa.c:128-137 | a non-positive npt becomes 2*fitted_n+1; the result is in [fitted_n+2, (fitted_n+2)(fitted_n+1)/2]; a positive npt is kept exactly when it lies in that range, and the call fails otherwise |
| `Setup.DefaultNptPasses` | COSSANXengine/mex/src/Bobyqa/bobyqa.c:129-131 | for fitted_n >= 1 the default 2*fitted_n+1 always passes the range check |
| `Setup.MinGapIsMinimum` | COSSANXengine/mex/src/Bobyqa/bobyqa.c:761-762 | dm is at most every gap xu[j]-xl[j], and equal to one of them |
| `Setup.MinGap` | COSSANXengine/mex/src/Bobyqa/bobyqa.c:761-762 | dm is at most the first gap and at most the last gap considered |
| `Setup.InitialRhobeg` | COSSANXengine/mex/src/Bobyqa/bobyqa.c:759-774 | the call fails exactly when dm <= 1e-20; otherwise rhobeg is 1 or dm/2, lies in (0, 1] and fits twice into dm |
| `Setup.InitialRhoend` | COSSANXengine/mex/src/Bobyqa/bobyqa.c:778-779 | a positive rhoend is kept; otherwise rhoend is xtol_rel*rhobeg, positive exactly when that product is, and strictly between 0 and rhobeg for xtol_rel in (0, 1) |
| `Setup.AdjustStart` | COSSANXengine/mex/src/Bobyqa/bobyqa.c:789-815 | the adjusted start lies in [xl, xu]; sl = xl - x and su = xu - x; each bound is met exactly or at least rhobeg away; a start more than rhobeg from both bounds is kept |
| `Bounds.ClampLowFirst` | COSSANXengine/mex/src/Bobyqa/bobyqa.c:842-843 | fmin(fmax(lo, v), hi) lies in [lo, hi] when lo <= hi, and leaves a v already inside unchanged |
| `Bounds.ClampHighFirst` | COSSANXengine/mex/src/Bobyqa/bobyqa.c:1875-1876 | fmax(lo, fmin(hi, v)) lies in [lo, hi] when lo <= hi, and leaves a v already inside unchanged |
| `Bounds.ClampsAgree` | COSSANXengine/mex/src/Bobyqa/bobyqa.c:1875-1876 | on a proper interval the two clamp orders give the same value |
| `Bounds.ShiftedClip` | COSSANXengine/mex/src/Bobyqa/bobyqa.c:1003-1007 | the coordinate passed to the objective lies in [xl, xu]; a displacement equal to su gives xu, and one equal to sl (and not su) gives xl |
| `Bounds.ShiftedClipPrelim` | COSSANXengine/mex/src/Bobyqa/bobyqa.c:2078-2085 | the prelim variant lies in [xl, xu]; a displacement equal to sl gives xl, and one equal to su (and not sl) gives xu |
| `Bounds.ClipVariantsAgree` | COSSANXengine/mex/src/Bobyqa/bobyqa.c:2078-2085 | the two clip variants agree unless sl == su == the displacement |
| `Bounds.ShiftedClipExact` | COSSANXengine/mex/src/Bobyqa/bobyqa.c:1003-1007 | when sl and su are the box seen from xbase and the displacement is feasible, both variants evaluate exactly at xbase + displacement |
| `Bounds.ClipPoint` | COSSANXengine/mex/src/Bobyqa/bobyqa.c:1002-1007 | the clipped point lies in the box, and equals xbase + displacement when the displacement is feasible |
| `Bounds.ClipPointPrelim` | COSSANXengine/mex/src/Bobyqa/bobyqa.c:2078-2085 | the same for bobyqa_prelim's clip |
| `Bounds.ClipPrelimExact` | COSSANXengine/mex/src/Bobyqa/bobyqa.c:2078-2085 | a feasible displacement is left exactly at xbase + displacement by the prelim clip |
| `Bounds.ShiftedInBox` | COSSANXengine/mex/src/Bobyqa/bobyqa.c:1003-1007 | xbase plus a displacement within [sl, su] lies in [xl, xu] |
| `Bounds.TrsboxComponent` | COSSANXengine/mex/src/Bobyqa/bobyqa.c:2569-2574 | the trust-region end point lies in [sl, su]; it is sl when xbdi is -1 and su when xbdi is 1 |
| `Bounds.LineComponent` | COSSANXengine/mex/src/Bobyqa/bobyqa.c:1873-1877 | the point altmov picks on a line lies in [sl, su], and is the unclamped line point when that is inside |
| `Bounds.CauchyComponent` | COSSANXengine/mex/src/Bobyqa/bobyqa.c:1949-1962 | xalt lies in [sl, su] when xopt does; ccstep changes only for a free coordinate, to -step*glag; a fixed coordinate with a non-zero step sits on one of its bounds |
| `Indexing.Trunc` | COSSANXengine/mex/src/Bobyqa/bobyqa.c:2443-2444 | the C cast to int truncates toward zero: it lies within one below a non-negative value and within one above a negative one |
| `Indexing.PackedIndex` | COSSANXengine/mex/src/Bobyqa/bobyqa.c:861 | entry (i, j) of the packed hq triangle lies inside the block of column j |
| `Indexing.PackedIndexInjective` | COSSANXengine/mex/src/Bobyqa/bobyqa.c:861 | two entries of the triangle never share a slot |
| `Indexing.PackedOrder` | COSSANXengine/mex/src/Bobyqa/bobyqa.c:861 | the walk `for j, for i <= j, k++` visits n(n+1)/2 pairs with i <= j < n, and the k-th pair it visits is stored at slot k |
| `Indexing.DiagonalSlotPacked` | COSSANXengine/mex/src/Bobyqa/bobyqa.c:2458 | the 1-based slot (i + i*i)/2 is one past the 0-based packed slot of diagonal entry i-1 |
| `Indexing.DiagonalSlot` | COSSANXengine/mex/src/Bobyqa/bobyqa.c:2458-2459 | (i + i*i)/2 is exact: twice it is i(i+1) |
| `Indexing.PrelimSlot` | COSSANXengine/mex/src/Bobyqa/bobyqa.c:2137 | ipt(ipt-1)/2 + jpt lies strictly between the diagonal slots of rows ipt-1 and ipt exactly when 0 < jpt < ipt |
| `Indexing.RescueSlot` | COSSANXengine/mex/src/Bobyqa/bobyqa.c:2458-2467 | max(ihp, ihq) - |ip - iq| lies in the row of max(ip, iq), above the diagonal slot of the row before, and is the diagonal slot exactly when ip = iq |
| `Indexing.PrelimSlotPacked` | COSSANXengine/mex/src/Bobyqa/bobyqa.c:2137 | prelim's slot ipt*(ipt-1)/2 + jpt is one past the packed slot of entry (jpt-1, ipt-1) |
| `Indexing.RescueSlotAgrees` | COSSANXengine/mex/src/Bobyqa/bobyqa.c:2458-2467 | rescue's slot max(ihp, ihq) - abs(ip-iq) is prelim's slot for the larger index first, the diagonal slot when ip == iq, and symmetric in ip and iq |
| `Indexing.PrelimPair` | COSSANXengine/mex/src/Bobyqa/bobyqa.c:2069-2072 | for an initial point beyond 2n, the coordinate pair satisfies 1 <= jpt < ipt <= n whenever nfm < n*n+n+1 |
| `Indexing.PrelimPairInRange` | COSSANXengine/mex/src/Bobyqa/bobyqa.c:2069-2072 | every point number that can occur (nfm < npt <= (n+1)(n+2)/2) gives such a proper pair |
| `Indexing.DecodeEncode` | COSSANXengine/mex/src/Bobyqa/bobyqa.c:2443-2444 | decoding ip + iq/np + sfrac with ip = (int)id and iq = (int)(np*id - ip*np) gives (ip, iq) back for 0 <= iq < np |
| `Indexing.ProvisionalPair` | COSSANXengine/mex/src/Bobyqa/bobyqa.c:2262-2295 | provisional point k names coordinates in 0 .. n, and two different ones for k >= 1 |
| `Indexing.RescuePair` | COSSANXengine/mex/src/Bobyqa/bobyqa.c:2290-2293 | for 2n+1 <= k <= n*n+n the pair (ip, iq) consists of two different coordinates in 1 .. n |
| `Indexing.SecondPositionId` | COSSANXengine/mex/src/Bobyqa/bobyqa.c:2267 | the identifier for the point at the second position along coordinate j+1 decodes to (0, j+1) |
| `Indexing.SecondPositionIdAsWrittenMisdecodes` | COSSANXengine/mex/src/Bobyqa/bobyqa.c:2267 | with n = 3 the identifier written for coordinate 3 is 0.725, which decodes to coordinate 2; the intended one is 0.875 |
| `Indexing.SecondPositionIdAsWritten` | COSSANXengine/mex/src/Bobyqa/bobyqa.c:2267 | the identifier as written lies strictly between 0 and 1, so it always decodes to ip = 0 |
| `Indexing.SecondPositionIdAsWrittenDecodes` | COSSANXengine/mex/src/Bobyqa/bobyqa.c:2267 | for every coordinate, the identifier as written decodes to the intended (0, j+1) exactly while 2(j+1) <= np+1, and to the neighbouring (0, j) beyond |
| `Indexing.EncodeId` | COSSANXengine/mex/src/Bobyqa/bobyqa.c:2294 | ip + iq/np + 0.5/np lies strictly between ip and ip+1 for 0 <= iq < np |
| `Indexing.DecodeId` | COSSANXengine/mex/src/Bobyqa/bobyqa.c:2443 | for a non-negative identifier, ip = (int)id is its integer part (0 <= ip <= id < ip + 1) |
| `Indexing.DecodeRest` | COSSANXengine/mex/src/Bobyqa/bobyqa.c:2444 | when ip is the integer part of id and np >= 1, the value np*id - ip*np that is truncated to iq lies in [0, np), so iq is a position 0 .. np-1 |
| `Indexing.IntendedId` | COSSANXengine/mex/src/Bobyqa/bobyqa.c:2262-2295 | the identifier of provisional point k decodes to its pair |
| `Indexing.ProvisionalIds` | COSSANXengine/mex/src/Bobyqa/bobyqa.c:2262-2295 | the corrected half of the Findings row for line 2267: rescue's loops give npt identifiers, the k-th decoding to the pair of point k |
| `Indexing.ProvisionalIdsAsWritten` | COSSANXengine/mex/src/Bobyqa/bobyqa.c:2262-2295 | the loops as written: every identifier but those of points n+1 .. 2n is the one of its pair; point n+j+1 gets (j+1)/(np+1) + 0.5/np, which decodes to (0, j+1) when 2(j+1) <= n+2 and to (0, j) otherwise |
| `Radius.NextRhoDelta` | COSSANXengine/mex/src/Bobyqa/bobyqa.c:1282-1296 | delta becomes max(rho/2, new rho); rho becomes rhoend when rho/rhoend <= 16; with rhoend == 0 the ratio is infinite and rho is cut by ten |
| `Radius.QuotientAbove` | COSSANXengine/mex/src/Bobyqa/bobyqa.c:1286-1290 | comparing rho/rhoend with a constant is comparing rho with that multiple of rhoend |
| `Radius.RootBounds` | COSSANXengine/mex/src/Bobyqa/bobyqa.c:1289 | the square root of a ratio above 1 lies strictly between 1 and the ratio |
| `Radius.NextRhoDeltaDecreases` | COSSANXengine/mex/src/Bobyqa/bobyqa.c:1282-1296 | from rho > rhoend > 0 one step lowers rho strictly and never below rhoend; the new delta is at least the new rho and at least rho/2 |
| `Radius.NextRhoDeltaReachesEnd` | COSSANXengine/mex/src/Bobyqa/bobyqa.c:1286-1292 | from rho > rhoend > 0 the new rho is rhoend exactly when rho <= 16*rhoend |
| `Radius.RatioTestDelta` | COSSANXengine/mex/src/Bobyqa/bobyqa.c:1075-1083 | after the ratio test delta is rho or above 1.5*rho, never below a positive rho; a poor ratio gives at most dnorm, a fair one at least dnorm, a good one at least 2*dnorm (unless delta falls back to rho) |
| `Bracket.StartBracketAsWritten` | COSSANXengine/mex/src/Bobyqa/bobyqa.c:227-228 | as written, p1 = min(x-1, xl) and p3 = max(x+1, xu): p1 lies at or below both, p3 at or above both |
| `Bracket.StartBracketAsWrittenLeavesBox` | COSSANXengine/mex/src/Bobyqa/bobyqa.c:227-231 | from x = 0.5 in [0, 10] the first probe is -0.5, outside the box |
| `Bracket.StartBracketAsWrittenOutside` | COSSANXengine/mex/src/Bobyqa/bobyqa.c:227-228 | for every start, as written: a start less than 1 above xl makes x-1 the first probe, below xl, and one less than 1 below xu makes x+1 the second, above xu |
| `Bracket.StartBracket` | COSSANXengine/mex/src/Bobyqa/bobyqa.c:226-228 | the intended start p1 = max(x-1, xl), p3 = min(x+1, xu) lies in the box, p1 is xl or x-1 and p3 is xu or x+1, strictly apart from x when x is inside |
| `Bracket.StartMiddle` | COSSANXengine/mex/src/Bobyqa/bobyqa.c:236-240 | the middle point is x unless x meets an end, then the midpoint, which lies strictly between p1 and p3 |
| `Bracket.StartBracketOrdered` | COSSANXengine/mex/src/Bobyqa/bobyqa.c:226-240 | with the intended start in a proper box, xl <= p1 < p2 < p3 <= xu |
| `Bracket.StartBracketAsWrittenOrdered` | COSSANXengine/mex/src/Bobyqa/bobyqa.c:227-240 | as written, x always lies strictly between p1 and p3, so the midpoint is never taken |
| `Bracket.WithValue` | COSSANXengine/mex/src/Bobyqa/bobyqa.c:271-296 | recording a value at one slot changes that slot's value and nothing else |
| `Bracket.BracketMove` | COSSANXengine/mex/src/Bobyqa/bobyqa.c:265-299 | when f1 < f3 the bracket moves left (p3, f3 take p2, f2), otherwise right (p1, f1 take p2, f2); the jump is kept or doubled |
| `Bracket.BracketMoveKeepsOrder` | COSSANXengine/mex/src/Bobyqa/bobyqa.c:222-223 | from an ordered bracket inside [begin, end] with a positive jump, a move gives an ordered bracket inside [begin, end] and a positive jump |
| `Bracket.BracketMoveAsWrittenDisorders` | COSSANXengine/mex/src/Bobyqa/bobyqa.c:276-277 | from the as-written start at x = 0.5 in [0, 10] with values 1, 2, 3, a left move gives p1 = 0 > p2 = -0.5 |
| `Bracket.NarrowChoice` | COSSANXengine/mex/src/Bobyqa/bobyqa.c:255-261 | p1 is reported only when f1 is strictly least, p2 only when f2 is, and p3 otherwise |
| `Bracket.NarrowChoiceIsBest` | COSSANXengine/mex/src/Bobyqa/bobyqa.c:255-261 | the reported value is the least of the three exactly unless f1 == f2 < f3 |
| `Bracket.ParabolaVertex` | COSSANXengine/mex/src/Bobyqa/bobyqa.c:311-318 | the vertex estimate lies in [p1, p3] when p1 <= p2 <= p3 |
| `Bracket.Nudge` | COSSANXengine/mex/src/Bobyqa/bobyqa.c:321-329 | a probe on the left half ends at least tau*(p2-p1) from p1 and p2; one on the right at least tau*(p3-p2) from p2 and p3 |
| `Bracket.BracketRatio` | COSSANXengine/mex/src/Bobyqa/bobyqa.c:333 | with p2 != p3 the ratio is finite and non-negative, and above 1 exactly when the left side is longer |
| `Bracket.QuotientAboveOne` | COSSANXengine/mex/src/Bobyqa/bobyqa.c:337 | num/den > 1 exactly when num > den, for den > 0 |
| `Bracket.Rebalance` | COSSANXengine/mex/src/Bobyqa/bobyqa.c:334-339 | a probe strictly inside the bracket and off p2 stays so; a bracket that is not lopsided leaves the probe unchanged |
| `Bracket.NextProbe` | COSSANXengine/mex/src/Bobyqa/bobyqa.c:311-339 | from an ordered bracket the next probe lies strictly inside (p1, p3) and differs from p2 |
| `Bracket.Contract` | COSSANXengine/mex/src/Bobyqa/bobyqa.c:347-353 | the bracket stays ordered and shrinks strictly inside the old one; f2 never increases; a best middle stays best; the middle is kept or becomes the probe |
| `SingleSearch.MoveRecorded` | COSSANXengine/mex/src/Bobyqa/bobyqa.c:265-299 | after a move and the evaluation of its probe, each bracket value is the objective at its position and each position has been evaluated |
| `SingleSearch.MoveLowest` | COSSANXengine/mex/src/Bobyqa/bobyqa.c:265-299 | a move drops only values above one it keeps, so the bracket's least value stays the least evaluated |
| `SingleSearch.Bracketing` | COSSANXengine/mex/src/Bobyqa/bobyqa.c:244-300 | the phase ends bracketed exactly when f1 > f2 < f3, out of budget only with nevals >= maxeval, too narrow only with nevals < maxeval and p3 - p1 < rhoend; the evaluations extend the earlier ones; an ordered bracket in the box stays so and every probe stays in the box |
| `SingleSearch.Refine` | COSSANXengine/mex/src/Bobyqa/bobyqa.c:307-354 | the loop stops with the budget spent or p3 - p1 <= rhoend; the bracket stays ordered inside the old one, f2 never grows, a least middle value stays least among all evaluations, and every new probe lies strictly inside the starting bracket |
| `SingleSearch.Search` | COSSANXengine/mex/src/Bobyqa/bobyqa.c:191-357 | for either first bracket: INVALID_ARGS with nothing evaluated exactly when n != 1, rhoend <= 0, rhoend >= rhobeg or maxeval < 2; SUCCESS after the one evaluation at x exactly when xl >= xu; otherwise MAXEVAL_REACHED only with the budget spent and XTOL_REACHED only without, at most max(4, maxeval) evaluations, the second and third at the ends of the first bracket; the reported point was evaluated and its value is the objective there; after refinement it is the least value seen; with the intended first bracket, from a start in the box, every probe lies in the box |
| `SingleSearch.Explore` | COSSANXengine/mex/src/Bobyqa/bobyqa.c:224-357 | after the first evaluation in a proper box: MAXEVAL_REACHED or XTOL_REACHED as the budget says, the reported position and value are a slot of the final bracket, the narrow exit reports NarrowChoice, and the probes of the intended bracket stay in the box |
| `SingleSearch.Polish` | COSSANXengine/mex/src/Bobyqa/bobyqa.c:305-357 | from f1 > f2 < f3: MAXEVAL_REACHED exactly when the budget is spent, XTOL_REACHED with p3 - p1 <= rhoend otherwise, and f2 stays the least value of the bracket and of all evaluations |
| `SingleSearch.BracketedLeast` | COSSANXengine/mex/src/Bobyqa/bobyqa.c:305-306 | once f1 > f2 < f3 the middle value is the least of the bracket and of everything evaluated |
| `SingleSearch.JoinWithin` | COSSANXengine/mex/src/Bobyqa/bobyqa.c:307-354 | earlier probes in the box and later probes inside a bracket within the box put all probes in the box |
| `SingleSearch.Begin` | COSSANXengine/mex/src/Bobyqa/bobyqa.c:224-240 | x and the two ends of the chosen first bracket are evaluated, and the midpoint when x is an end; as written exactly three evaluations, x stays the middle, the bracket is ordered with p1 <= min(x-1, xl) and p3 >= max(x+1, xu); with the intended bracket and a start in the box, the bracket and all probes lie in the box |
| `SingleSearch.AsPoints` | COSSANXengine/mex/src/Bobyqa/bobyqa.c:230-238 | each probe becomes the one-coordinate point x[0] |
| `SingleSearch.PointsInBox` | COSSANXengine/mex/src/Bobyqa/bobyqa.c:230-238 | positions in [lo, hi] are one-coordinate points in the box |
| `SingleSearch.Run` | COSSANXengine/mex/src/Bobyqa/bobyqa.c:191-357 | with the objective seen through the full parameter list and either first bracket: the settings are rejected as the entry checks say, a fixed parameter gives SUCCESS after one evaluation, the evaluated points start with x0 and number at most 4 or maxeval, the next two are the ends of the first bracket, minf is the objective at the reported point, xfull holds the last point evaluated, and with the intended bracket all points lie in the box when x0 does |
| `SingleSearch.RunOutcome` | COSSANXengine/mex/src/Bobyqa/bobyqa.c:212-357 | the search's facts, for either first bracket, give the outcome that Run promises |
| `SingleSearch.AsWrittenLeavesBox` | COSSANXengine/mex/src/Bobyqa/bobyqa.c:227-231 | for every run as written in a proper box from a start less than 1 above xl, the second point handed to the objective is x0 - 1, outside the box |
| `Scatter.ScatterUpTo` | COSSANXengine/mex/src/Bobyqa/bobyqa.c:703-704 | the first k writes of the loop keep the length of the full parameter list |
| `Scatter.Scatter` | COSSANXengine/mex/src/Bobyqa/bobyqa.c:699-705 | bobyqa_xfull keeps the length of the full parameter list |
| `Scatter.ScatterUpToWrites` | COSSANXengine/mex/src/Bobyqa/bobyqa.c:703-704 | after the first k writes, each of those fitted parameters is at its position, multiplied by its scale, and every position not written keeps its value |
| `Scatter.ScatterWrites` | COSSANXengine/mex/src/Bobyqa/bobyqa.c:691-704 | every fitted parameter lands at xplace[j] as x[j]*xscale[j]; every position outside xplace (a fixed parameter) keeps its value |
| `Scatter.ScatterOverwrite` | COSSANXengine/mex/src/Bobyqa/bobyqa.c:691-704 | a second scatter overwrites everything the first wrote, so the full list depends only on the fixed parameters and the last fitted point |
| `Vectors.ScatterLoop` | COSSANXengine/mex/src/Bobyqa/bobyqa.c:691-704 | the loop computes exactly the scatter of x into xfull |
| `Vectors.FreeScale` | COSSANXengine/mex/src/Bobyqa/bobyqa.c:746 | one scale per fitted parameter, each positive because its step is nonzero |
| `Vectors.FreeScaled` | COSSANXengine/mex/src/Bobyqa/bobyqa.c:748-751 | one scaled value per fitted parameter |
| `Vectors.SelectFree` | COSSANXengine/mex/src/Bobyqa/bobyqa.c:742-753 | xplace lists, in increasing order, exactly the positions with dx != 0 and xu > xl; xscale is |dx| there; x, xl and xu are the start and bounds divided by their scales |
| `Vectors.ScaledRangeProper` | COSSANXengine/mex/src/Bobyqa/bobyqa.c:742-751 | selected parameters keep xl < xu after scaling |
| `Vectors.MinGapLoop` | COSSANXengine/mex/src/Bobyqa/bobyqa.c:760-762 | the loop finds the smallest gap xu[j] - xl[j], as the specification function MinGap defines it |
| `Vectors.StartLoop` | COSSANXengine/mex/src/Bobyqa/bobyqa.c:789-815 | each fitted start coordinate, with its sl and su, is moved as the three-way start adjustment prescribes |
| `Vectors.ClipLoop` | COSSANXengine/mex/src/Bobyqa/bobyqa.c:841-846 | each coordinate of x becomes xbase+offset clipped into [xl, xu], and exactly xl or xu when the offset equals sl or su (the same holds at lines 1003-1008) |
| `Vectors.ClipPrelimLoop` | COSSANXengine/mex/src/Bobyqa/bobyqa.c:2078-2086 | the same clip with prelim's else-if: su is only tested when the offset differs from sl |
| `Vectors.ShiftLoop` | COSSANXengine/mex/src/Bobyqa/bobyqa.c:946-950 | xbase moves by xopt; xnew, sl and su are taken relative to the new base; xopt becomes zero |
| `Vectors.ShiftPoints` | COSSANXengine/mex/src/Bobyqa/bobyqa.c:933-938 | every coordinate of every interpolation point is reduced by the matching coordinate of xopt |
| `Vectors.MirrorLoop` | COSSANXengine/mex/src/Bobyqa/bobyqa.c:939-944 | the trailing n x n block of bmat ends symmetric, its lower triangle copied into the upper one, and the first npt rows keep their values |
| `Vectors.MirrorEntry` | COSSANXengine/mex/src/Bobyqa/bobyqa.c:939-944 | rows above the trailing block and entries below its diagonal keep their value; an entry on or above the diagonal takes its mirror from the lower triangle; on a symmetric block nothing changes |
| `Vectors.MirrorColumn` | COSSANXengine/mex/src/Bobyqa/bobyqa.c:939-943 | one inner pass changes only column i of the trailing block, down to the diagonal, and copies row p+i there |
| `Vectors.TrsboxLoop` | COSSANXengine/mex/src/Bobyqa/bobyqa.c:2568-2577 | xnew takes sl or su where xbdi marks a bound and otherwise xopt+dtrial clipped into [sl, su]; dtrial becomes xnew - xopt and dsq its sum of squares |
| `Vectors.PrefixUnchanged` | COSSANXengine/mex/src/Bobyqa/bobyqa.c:2576 | appending to a vector leaves the sum of squares of a prefix unchanged |
| `Vectors.LineLoop` | COSSANXengine/mex/src/Bobyqa/bobyqa.c:1873-1879 | each coordinate of xnew is the point on the line from xopt towards the chosen interpolation point, clipped into [sl, su], and the coordinate the line search stopped at is put on its bound |
| `Vectors.CauchyLoop` | COSSANXengine/mex/src/Bobyqa/bobyqa.c:1950-1961 | the free components get the step -step*glag, and each component of xalt is the clipped step, xopt, sl or su as the four branches say |
| `Vectors.DistSqLoop` | COSSANXengine/mex/src/Bobyqa/bobyqa.c:1470-1473 | the inner loop computes the squared distance between a point and xopt |
| `Vectors.CopyWithSumSq` | COSSANXengine/mex/src/Bobyqa/bobyqa.c:1528-1531 | xopt becomes the best interpolation point and xoptsq the sum of its squares |
| `Prelim.StepA` | COSSANXengine/mex/src/Bobyqa/bobyqa.c:2056-2057 | the first step along a coordinate is rhobeg or -rhobeg |
| `Prelim.StepB` | COSSANXengine/mex/src/Bobyqa/bobyqa.c:2061-2066 | stepb is max(-2 rhobeg, sl) when su is 0, otherwise min(2 rhobeg, su) when sl is 0, otherwise -rhobeg |
| `Prelim.StepsFeasible` | COSSANXengine/mex/src/Bobyqa/bobyqa.c:2056-2065 | from the start bounds that set_optimization leaves, stepa and stepb stay within [sl, su], are nonzero and differ, so the divisions by stepa, stepb and stepb - stepa are defined; they have opposite signs exactly when the start is off both bounds (the same holds at lines 2109-2112) |
| `Prelim.NewRow` | COSSANXengine/mex/src/Bobyqa/bobyqa.c:2049-2073 | the new displacement has n coordinates; for points 2 .. 2n+1 it is zero off its axis; when the earlier points are feasible so is the new one |
| `Prelim.ZerosFeasible` | COSSANXengine/mex/src/Bobyqa/bobyqa.c:2037-2039 | the first point, xbase itself, is feasible |
| `Prelim.StepAFeasible` | COSSANXengine/mex/src/Bobyqa/bobyqa.c:2056-2058 | stepa lies in [sl, su] of its coordinate |
| `Prelim.StepBFeasible` | COSSANXengine/mex/src/Bobyqa/bobyqa.c:2061-2066 | stepb lies in [sl, su] of its coordinate |
| `Prelim.PointCount` | COSSANXengine/mex/src/Bobyqa/bobyqa.c:128-137 | an admissible npt lies between n+2 and (n+1)(n+2)/2, the range the prelim loop relies on |
| `Prelim.Record` | COSSANXengine/mex/src/Bobyqa/bobyqa.c:2089-2119 | storing f keeps kopt on a least value so far, no greater than f, and leaves the rows not yet used untouched |
| `Prelim.RecordExchanges` | COSSANXengine/mex/src/Bobyqa/bobyqa.c:2112-2119 | the swap exchanges points nf-n and nf together with their values, or nothing changes but the new value; axis rows stay on their axes |
| `Prelim.RecordFeasible` | COSSANXengine/mex/src/Bobyqa/bobyqa.c:2112-2119 | the swap only moves points, so feasible points stay feasible |
| `Prelim.MatchesAfterRecord` | COSSANXengine/mex/src/Bobyqa/bobyqa.c:2089-2119 | after recording, each stored value is still the objective's value at its own point |
| `Prelim.Step` | COSSANXengine/mex/src/Bobyqa/bobyqa.c:2052-2156 | one pass keeps the table invariant: all points feasible, unused rows zero, axis rows on their axes, kopt on a least value, each value that of its point |
| `Prelim.PointWritten` | COSSANXengine/mex/src/Bobyqa/bobyqa.c:2053-2073 | writing the new point leaves the invariant with only its value pending |
| `Prelim.ValueRecorded` | COSSANXengine/mex/src/Bobyqa/bobyqa.c:2089-2119 | recording the pending value restores the invariant |
| `Prelim.Run` | COSSANXengine/mex/src/Bobyqa/bobyqa.c:2037-2156 | after k passes, the table is npt x n, and kopt is 1-based within the first k points |
| `Prelim.RunInv` | COSSANXengine/mex/src/Bobyqa/bobyqa.c:2037-2156 | every table the loop builds satisfies the table invariant |
| `Prelim.Point` | COSSANXengine/mex/src/Bobyqa/bobyqa.c:2053-2073 | the displacement made by pass k has n coordinates and lies within [sl, su] |
| `Prelim.Next` | COSSANXengine/mex/src/Bobyqa/bobyqa.c:2052-2119 | after pass k+1 the table keeps its shape and kopt indexes one of the first k+1 points |
| `Prelim.PassRecords` | COSSANXengine/mex/src/Bobyqa/bobyqa.c:2052-2119 | pass k writes the new point into row k and records its value there, with kopt on a least value |
| `PrelimPass.Stop` | COSSANXengine/mex/src/Bobyqa/bobyqa.c:2149-2155 | the loop goes on exactly when f >= minf_max and the budget is unset or not spent; MINF_MAX_REACHED exactly when f < minf_max, which is tested first |
| `PrelimPass.Values` | COSSANXengine/mex/src/Bobyqa/bobyqa.c:2088 | one value per pass made |
| `PrelimPass.ValuesArePassValues` | COSSANXengine/mex/src/Bobyqa/bobyqa.c:2088 | entry i of the values is the objective's value at point i+1 |
| `PrelimPass.Evaluated` | COSSANXengine/mex/src/Bobyqa/bobyqa.c:2078-2088 | one evaluated point per pass made |
| `PrelimPass.EvaluatedPoints` | COSSANXengine/mex/src/Bobyqa/bobyqa.c:2078-2088 | entry i of the evaluated points is xbase plus the displacement of point i+1 |
| `PrelimPass.EvaluatedInBox` | COSSANXengine/mex/src/Bobyqa/bobyqa.c:2078-2086 | every point handed to the objective lies in the box [xl, xu] |
| `PrelimPass.Pass` | COSSANXengine/mex/src/Bobyqa/bobyqa.c:2052-2119 | one pass: x becomes xbase plus the new point (the clip leaves it in place), xfull gets x scattered into it, f is the objective there, and the table advances by one pass with kopt no worse than f |
| `PrelimPass.Passes` | COSSANXengine/mex/src/Bobyqa/bobyqa.c:2052-2156 | the loop makes k passes, the table is that of k passes, nevals grows by k, every evaluated point is in the box, no stop test fired before the last pass, the loop runs all npt passes unless a test fired, and MINF_MAX_REACHED leaves kopt below minf_max |
| `PrelimPass.Points` | COSSANXengine/mex/src/Bobyqa/bobyqa.c:2012-2159 | bobyqa_prelim returns SUCCESS, MINF_MAX_REACHED or MAXEVAL_REACHED as the stop tests of the last pass say, with the table, x, xfull and the evaluation count that the passes leave |
| `BobyqaState.Len` | COSSANXengine/mex/src/Bobyqa/bobyqa.c:435 | a slice whose recorded size is negative, such as zmat with npt-n-1 columns when npt is below n+1, has no entries |
| `BobyqaState.EmptyBlock` | COSSANXengine/mex/src/Bobyqa/bobyqa.c:463-544 | before bobyqa_set_memory the record has no slices |
| `BobyqaState.ZeroBlock` | COSSANXengine/mex/src/Bobyqa/bobyqa.c:502-534 | after the slicing every slice has the length bobyqa_working_memory_size records for it |
| `BobyqaState.Start` | COSSANXengine/mex/src/Bobyqa/bobyqa.c:734-815 | the fitted positions, scales and scaled start and bounds are those of the selection loop; INVALID_ARGS when their count is not n or the smallest scaled gap is 1e-20 or less, SUCCESS otherwise; on success xplace is increasing, the box proper, rhobeg positive and chosen from the smallest gap, and the moved start lies in the box with sl and su the bounds seen from it |
| `BobyqaState.StartFacts` | COSSANXengine/mex/src/Bobyqa/bobyqa.c:789-815 | the start adjustment leaves each coordinate in the box, with sl and su the bounds seen from it, each bound either met or at least rhobeg away |
| `BobyqaState.BobyqaData.constructor` | COSSANXengine/mex/src/Bobyqa/bobyqa.c:463-468 | a record with no sizes, no slices and no evaluations |
| `BobyqaState.BobyqaData.ResetMemory` | COSSANXengine/mex/src/Bobyqa/bobyqa.c:561-581 | INVALID_ARGS and nothing changed when npt < 1 or n < 1; otherwise dsq, xoptsq, scaden and biglsq are zero, rc is SUCCESS, knew and nevals are 0, nptm is npt-n-1, and nothing else changes |
| `BobyqaState.BobyqaData.SetMemory` | COSSANXengine/mex/src/Bobyqa/bobyqa.c:463-544 | INVALID_ARGS and nothing changed when a count is below 1; otherwise n, nfull, npt and ndim are recorded, the block size is bobyqa_working_memory_size, the slices start at the running offsets and have their sizes, and the counters are reset |
| `BobyqaState.BobyqaData.SetOptimization` | COSSANXengine/mex/src/Bobyqa/bobyqa.c:709-828 | INVALID_ARGS when the full count differs from nfull, when the fitted count differs from n or when the smallest scaled gap is too small; on success the full list is the start, xplace, xscale, xl and xu are those of the selection loop, rhobeg and rhoend are chosen as the routine says, the stopping settings and objective are stored, and the start is moved away from the bounds |
| `BobyqaState.BobyqaData.XFull` | COSSANXengine/mex/src/Bobyqa/bobyqa.c:699-705 | only xfull changes, and it becomes x scattered into it |
| `BobyqaState.BobyqaData.XFuncVal` | COSSANXengine/mex/src/Bobyqa/bobyqa.c:684-695 | xfull gets v scattered into it, the value returned is the objective at the new full list, and nevals grows by exactly one |
| `BobyqaState.BobyqaData.XUpdate` | COSSANXengine/mex/src/Bobyqa/bobyqa.c:832-853 | minf becomes the smaller of fval[kopt] and fsave; when fval[kopt] <= fsave, x becomes xbase+xopt clipped as the loop says and xfull is updated with it; otherwise the block is unchanged |
| `BobyqaState.XUpdated` | COSSANXengine/mex/src/Bobyqa/bobyqa.c:838-852 | the block after bobyqb_xupdate differs from the one before at most in x and xfull, and x lies in the box when fval[kopt-1] <= fsave |
| `BobyqaState.BobyqaData.PrelimPoints` | COSSANXengine/mex/src/Bobyqa/bobyqa.c:2012-2159 | xbase becomes the start point, pq is zeroed, bmat, hq and zmat take the values prelim fits after zeroing them (given as parameters), and the table, kopt, x, xfull, nevals and the result code are those of the prelim loop; every point is feasible and in the box, and nothing else changes |
| `BobyqaState.BobyqaData.TakeBestPoint` | COSSANXengine/mex/src/Bobyqa/bobyqa.c:1528-1532 | xopt becomes the point kopt, xoptsq its squared length and fsave the first value; feasible points keep xopt within [sl, su] |
| `BobyqaState.BobyqaData.ShiftXbase` | COSSANXengine/mex/src/Bobyqa/bobyqa.c:930-951 | with the floating-point revisions of bmat, hq and vlag supplied: xbase moves by xopt; xpt, xnew, sl and su are taken relative to the new base so that no point moves; xopt and xoptsq become zero; hq and vlag take their revised values; bmat is the revised bmat with its trailing block mirrored, hence symmetric; nothing else changes; feasible points stay feasible |
| `BobyqaState.BobyqaData.NextRhoDelta` | COSSANXengine/mex/src/Bobyqa/bobyqa.c:1282-1296 | rho and delta become the next pair of the radius schedule, ratio is rho/rhoend, ntrits restarts at 0 and nfsav becomes nevals |
| `BobyqaState.BobyqaData.IpDist` | COSSANXengine/mex/src/Bobyqa/bobyqa.c:1463-1477 | knew is the first point whose squared distance from xopt exceeds distsq and is largest, distsq that distance, and no point is farther; knew stays 0 and distsq unchanged when no point exceeds it; the result is 1 exactly when a point was found |
| `BobyqaState.BobyqaData.TrsboxSetXnew` | COSSANXengine/mex/src/Bobyqa/bobyqa.c:2562-2578 | xnew is on the bound where xbdi says so and the clipped step otherwise, hence within [sl, su]; dtrial becomes xnew - xopt and dsq its squared length |
| `BobyqaState.BobyqaData.AltmovXnew` | COSSANXengine/mex/src/Bobyqa/bobyqa.c:1873-1879 | xnew is the clipped point on the line towards the chosen interpolation point, with the coordinate the line search stopped at on its bound, hence within [sl, su] |
| `BobyqaState.BobyqaData.AltmovXalt` | COSSANXengine/mex/src/Bobyqa/bobyqa.c:1950-1961 | ccstep and xalt are set componentwise as the four branches say; xalt lies within [sl, su]; the second half of ccstep is untouched |
| `BobyqaState.BobyqaData.CalcWithXnew` | COSSANXengine/mex/src/Bobyqa/bobyqa.c:1000-1035 | a spent budget gives MAXEVAL_REACHED; a spent budget or a pending stop evaluates nothing, and x becomes the clipped xnew, then bobyqb_xupdate's best point when fval[kopt-1] <= fsave; otherwise one evaluation at xbase+xnew clipped into the box, with xfull the scatter of that point, then XTOL_REACHED and bobyqb_xupdate when ntrits is -1, MINF_MAX_REACHED with minf the new value when it is below minf_max, and the loop goes on in exactly the remaining case; no other slice of the block changes; every evaluated point stays in the box |
| `BobyqaState.BobyqaData.StopAt` | COSSANXengine/mex/src/Bobyqa/bobyqa.c:1011-1019 | the stop code is kept, minf becomes the smaller of fval[kopt-1] and fsave, x is the clipped point replaced by bobyqb_xupdate's best point when fval[kopt-1] <= fsave, nothing is evaluated, and no other slice changes |
| `BobyqaState.BobyqaData.EvaluateAt` | COSSANXengine/mex/src/Bobyqa/bobyqa.c:1021-1035 | exactly one evaluation, logged as the clipped point, with x that point and xfull its scatter; XTOL_REACHED with fsave = newf and bobyqb_xupdate applied when ntrits is -1; otherwise newf is the objective at the new full list, MINF_MAX_REACHED with minf = newf below minf_max, and None in exactly the remaining case with only newf changed |
| `BobyqaState.BobyqaData.AfterEvaluation` | COSSANXengine/mex/src/Bobyqa/bobyqa.c:1039-1083 | fopt is fval[kopt], the prediction errors shift by one, nfsav follows dnorm > rho; after a trust-region step with vquad >= 0 the run stops with XTOL_REACHED and runs xupdate, so x and xfull are those of XUpdated and minf is min(fopt, newf); after one with vquad < 0 ratio is the reduction ratio, positive exactly when newf < fopt, and delta is set by the ratio test |
| `BobyqaState.BobyqaData.MinimizeSingleParameter` | COSSANXengine/mex/src/Bobyqa/bobyqa.c:191-357 | INVALID_ARGS and nothing changed unless n is 1; otherwise only x, xfull, minf and nevals change, with the outcome of the search from the first bracket of lines 227-228 as written |
| `BobyqaState.BobyqaData.Bobyqa` | COSSANXengine/mex/src/Bobyqa/bobyqa.c:116-173 | INVALID_ARGS with nothing changed when no parameter is fitted or npt fails its check, OUT_OF_MEMORY when memory is missing, INVALID_ARGS for a box too narrow; once set up, the record holds the selection, scales, box, rhobeg, rhoend and settings; one fitted parameter runs the as-written search from the adjusted start; more than one takes bobyqb's given outcome; the full list gets the fitted values and x, nevals and minf are copied out |
| `BobyqaState.BobyqaData.Prepare` | COSSANXengine/mex/src/Bobyqa/bobyqa.c:139-148 | bobyqa_set_memory then bobyqa_set_optimization: the sizes are recorded, and the call fails exactly when the smallest scaled gap is 1e-20 or less; on success the start state of SetOptimization |
| `BobyqaState.BobyqaData.Fit` | COSSANXengine/mex/src/Bobyqa/bobyqa.c:155-172 | one fitted parameter: the as-written search from the current x, then bobyqa_xfull; more: bobyqb's given code, point, value and count, scattered into the full list; no other slice changes |
| `BobyqaState.BobyqaData.RecordRejected` | COSSANXengine/mex/src/Bobyqa/bobyqa.c:735-771 | a rejected narrow box leaves the full list, the scaled fitted parameters, bounds, scales and positions written, and rhobeg = 1 |
| `BobyqaState.BobyqaData.RecordStart` | COSSANXengine/mex/src/Bobyqa/bobyqa.c:734-815 | a successful set-up records the full list, the adjusted start with its sl and su, the scaled box, scales, positions, settings and objective, and a fresh log |
| `BobyqaState.BobyqaData.StorePrelim` | COSSANXengine/mex/src/Bobyqa/bobyqa.c:2027-2158 | bobyqa_prelim's writes: xbase takes the start, the table and last point are stored, pq is zeroed, bmat, hq and zmat take the fitted values given, and the count and log advance |
| `Update.Clamp` | COSSANXengine/mex/src/Bobyqa/bobyqa.c:2875-2882 | the result lies in [-1e100, 1e100], it is the value itself when that lies there, and the nearer end otherwise |
| `Update.ZtestLoop` | COSSANXengine/mex/src/Bobyqa/bobyqa.c:2858-2863 | ztest is 1e-20 times an entry of largest modulus of zmat (0 when all are 0), so it bounds 1e-20 times every entry |
| `Update.RotateRow` | COSSANXengine/mex/src/Bobyqa/bobyqa.c:2873-2882 | only entries 0 and j of the row change: entry 0 becomes the clamped ca*z0 + cb*zj and entry j the clamped ca*zj - cb*z0, both from the old values, and both lie in [-1e100, 1e100] |
| `Update.ZeroStepShape` | COSSANXengine/mex/src/Bobyqa/bobyqa.c:2866-2886 | the pass for column j sets zmat[knew-1][j] to 0; other columns from 1 on are untouched; an unrotated column keeps its other entries; a rotated pass leaves columns 0 and j within the clamp |
| `Update.ZeroedUpTo` | COSSANXengine/mex/src/Bobyqa/bobyqa.c:2866-2887 | the passes keep zmat npt x nptm |
| `Update.ZeroedColumns` | COSSANXengine/mex/src/Bobyqa/bobyqa.c:2866-2887 | after the passes for columns 1 .. j-1 those columns have a 0 in row knew-1, keep their entries when not rotated, lie within the clamp when rotated, and the later columns are untouched |
| `Update.RotateLoop` | COSSANXengine/mex/src/Bobyqa/bobyqa.c:2873-2884 | every row has columns 0 and j rotated with the same factors, each new entry made from the old values of both and clamped |
| `Update.ZeroRowLoop` | COSSANXengine/mex/src/Bobyqa/bobyqa.c:2865-2887 | row knew-1 of zmat ends 0 from column 1 on; unrotated columns keep their other entries; rotated columns lie within the clamp |
| `Update.ZeroPass` | COSSANXengine/mex/src/Bobyqa/bobyqa.c:2867-2886 | the body of the loop for column j rotates only when |zmat[knew-1][j]| > ztest, with factors d1/hypot and d2/hypot, and always zeroes zmat[knew-1][j] |
| `Update.WndimAfter` | COSSANXengine/mex/src/Bobyqa/bobyqa.c:2891-2913 | wndim keeps its first npt entries, and entries npt .. npt+n-1 become row knew-1 of bmat |
| `Update.BmatColumn` | COSSANXengine/mex/src/Bobyqa/bobyqa.c:2916-2934 | rows 0 .. npt+c of column c gain tempa*vlag + tempb*wndim; the updated trailing entries are copied into row npt+c; nothing else changes |
| `Update.BmatLoop` | COSSANXengine/mex/src/Bobyqa/bobyqa.c:2911-2935 | wndim ends as WndimAfter says; every bmat entry on or above the diagonal of the trailing block is its old value plus the increment of its column, each below is the mirror of one above, so the trailing n x n block is symmetric |
| `Update.BmatAfterSymmetric` | COSSANXengine/mex/src/Bobyqa/bobyqa.c:2930-2933 | a bmat whose entries are as the loop leaves them has a symmetric trailing block |
| `ActiveSet.CountActive` | COSSANXengine/mex/src/Bobyqa/bobyqa.c:2602-2609 | nact, the number of fixed variables, is at most n |
| `ActiveSet.InitialFlag` | COSSANXengine/mex/src/Bobyqa/bobyqa.c:2604-2608 | -1 exactly when xopt is at or below sl with a nonnegative gradient; 1 exactly when that fails and xopt is at or above su with a nonpositive gradient; 0 otherwise |
| `ActiveSet.CountActiveAppend` | COSSANXengine/mex/src/Bobyqa/bobyqa.c:2609 | one more flag adds one to the count exactly when it is nonzero |
| `ActiveSet.InitialActiveSet` | COSSANXengine/mex/src/Bobyqa/bobyqa.c:2602-2612 | every xbdi[i] is the initial flag of variable i, each -1, 0 or 1, and nact is the number of nonzero flags |
| `ActiveSet.FixVariable` | COSSANXengine/mex/src/Bobyqa/bobyqa.c:2691-2693 | fixing a free variable adds exactly one to the number of fixed variables (the same holds at lines 2756-2757, 2829) |
| `ActiveSet.Fix` | COSSANXengine/mex/src/Bobyqa/bobyqa.c:2691-2693 | only xbdi[i] changes; when it was free and becomes fixed, nact++ keeps nact equal to the number of fixed variables; flags stay -1, 0 or 1 (the same holds at lines 2756-2757, 2829) |
| `StochasticRanking.Step` | COSSANXengine/mex/src/SRES/srsort.c:83-96 | one comparison either leaves the list alone or exchanges exactly the entries at j and j+1, and the list still holds individuals' numbers |
| `StochasticRanking.SweepUpTo` | COSSANXengine/mex/src/SRES/srsort.c:82-97 | the comparisons at positions 0 .. j-1 keep the length and keep every entry an individual's number |
| `StochasticRanking.Sweep` | COSSANXengine/mex/src/SRES/srsort.c:82-97 | a whole sweep keeps the length and keeps every entry an individual's number |
| `StochasticRanking.RankFrom` | COSSANXengine/mex/src/SRES/srsort.c:79-100 | the sweeps from sweep i on leave a list of n individuals' numbers |
| `StochasticRanking.Rank` | COSSANXengine/mex/src/SRES/srsort.c:58-102 | I is a fresh n-entry array that starts as 1..n and ends, with the sweep count, as the sweeps of the stochastic bubble sort leave it |
| `StochasticRanking.Identity` | COSSANXengine/mex/src/SRES/srsort.c:71-72 | the start list has n entries, each in 1..n |
| `StochasticRanking.SweepArray` | COSSANXengine/mex/src/SRES/srsort.c:80-97 | the sweep on the array gives the sweep on its contents, and the moved value Is is 0 exactly when no pair was exchanged |
| `StochasticRanking.Compare` | COSSANXengine/mex/src/SRES/srsort.c:83-96 | the comparison on the array gives Step on its contents, and Is becomes the left entry exactly when the pair is exchanged |
| `StochasticRanking.SweepPermutes` | COSSANXengine/mex/src/SRES/srsort.c:85-94 | the comparisons of a sweep keep the multiset of entries |
| `StochasticRanking.StepPermutes` | COSSANXengine/mex/src/SRES/srsort.c:85-94 | one comparison keeps the multiset of entries |
| `StochasticRanking.SwapPermutes` | COSSANXengine/mex/src/SRES/srsort.c:85-94 | exchanging two adjacent entries keeps the multiset |
| `StochasticRanking.RankPermutes` | COSSANXengine/mex/src/SRES/srsort.c:79-100 | the remaining sweeps keep the multiset of entries |
| `StochasticRanking.RankIsPermutation` | COSSANXengine/mex/src/SRES/srsort.c:69-100 | the ranked list is a permutation of 1..n |
| `StochasticRanking.NoSwapUnchanged` | COSSANXengine/mex/src/SRES/srsort.c:82-97 | a sweep in which no comparison fires leaves the list as it was, and no adjacent pair of it would be exchanged |
| `StochasticRanking.RankStops` | COSSANXengine/mex/src/SRES/srsort.c:79-99 | at most n sweeps, at least one when n > 0; when the loop stops before n sweeps, the last sweep exchanged nothing and left the list as it was |
| `StochasticRanking.TiesKept` | COSSANXengine/mex/src/SRES/srsort.c:84-91 | two individuals with equal objective and equal penalty are never exchanged |
| `StochasticRanking.FeasibleSwaps` | COSSANXengine/mex/src/SRES/srsort.c:83-84 | with all penalties zero a pair is exchanged exactly when the left one has the larger objective |
| `StochasticRanking.Bubbles` | COSSANXengine/mex/src/SRES/srsort.c:82-97 | without penalties, the comparisons up to position j carry the largest of the first j+1 objective values to position j |
| `StochasticRanking.BubbleStep` | COSSANXengine/mex/src/SRES/srsort.c:83-88 | the comparison at j-1 moves the largest value seen so far from position j-1 to j |
| `StochasticRanking.BubbleExchange` | COSSANXengine/mex/src/SRES/srsort.c:85-87 | the exchange at j-1 moves the largest value seen so far to position j |
| `StochasticRanking.Settled` | COSSANXengine/mex/src/SRES/srsort.c:82-97 | once the largest entries are settled at the end, the comparisons over them exchange nothing |
| `StochasticRanking.TailKept` | COSSANXengine/mex/src/SRES/srsort.c:84 | a comparison inside the settled tail exchanges nothing |
| `StochasticRanking.SweepSettles` | COSSANXengine/mex/src/SRES/srsort.c:79-97 | without penalties each sweep settles one more entry at the end of the list in order |
| `StochasticRanking.SettleTail` | COSSANXengine/mex/src/SRES/srsort.c:82-97 | the largest of the unsettled entries at the boundary extends the settled tail by one |
| `StochasticRanking.NoSwapSorted` | COSSANXengine/mex/src/SRES/srsort.c:98-99 | without penalties, a sweep that exchanges nothing finds the list sorted on f |
| `StochasticRanking.RankSorts` | COSSANXengine/mex/src/SRES/srsort.c:79-100 | without penalties, the remaining sweeps sort a list whose tail is settled |
| `StochasticRanking.FeasibleRankSorted` | COSSANXengine/mex/src/SRES/srsort.c:58-102 | when every penalty is zero the ranking is a bubble sort: the ranked list is in non-decreasing order of objective value |
| `Recombination.Pick` | lib/mex/src/SRES/arithx.c:73 | floor(N*r) is a row index 0 .. N-1 whenever r is in [0, 1) and N > 0 |
| `Recombination.Recombine` | lib/mex/src/SRES/arithx.c:60-76 | a fresh N x n output whose entry (i, j) is the mean of the input entry (i, j) and the input entry in row floor(N*R) of column j; the input is not changed |
| `Recombination.SetEntry` | lib/mex/src/SRES/arithx.c:73-74 | one assignment sets output entry (i, j) and no other |
| `Recombination.EntryIsColumnMean` | lib/mex/src/SRES/arithx.c:73-74 | each output entry is the mean of its input entry and some input entry of the same column |
| `Recombination.EntryWithinColumn` | lib/mex/src/SRES/arithx.c:71-76 | each output entry lies within any bounds that hold for its input column |
| `ColumnMajor.FlatIsOffset` | lib/mex/src/SRES/arithx.c:73-74 | the recursive offset of entry (i, j) is j*N + i, the index the C computes |
| `ColumnMajor.FlatInRange` | lib/mex/src/SRES/arithx.c:71-74 | every entry of an N x n matrix has an offset inside the N*n block |
| `ColumnMajor.AllInRange` | lib/mex/src/SRES/arithx.c:71-74 | all entries of an N x n matrix have offsets inside the block |
| `ColumnMajor.MulMonotone` | lib/mex/src/SRES/arithx.c:73-74 | x <= y gives x*N <= y*N, the step behind the offset bounds |
| `ColumnMajor.FlatInjective` | lib/mex/src/SRES/arithx.c:74 | two entries with the same offset are the same entry, so each assignment writes its own place |
| `ColumnMajor.FlatCovers` | lib/mex/src/SRES/arithx.c:71-76 | every offset of the block is the offset of exactly the entry (x mod N, x div N), so the loops fill the whole output |
| `ColumnMajor.OthersApart` | lib/mex/src/SRES/arithx.c:74 | writing entry (i, j) leaves every other entry alone |
| `ColumnMajor.FlatShift` | lib/mex/src/Fann/helperFann.c:67-77 | entry j of a row lies at the row's start plus j |
| `ColumnMajor.RowsApart` | lib/mex/src/Fann/helperFann.c:67-77 | consecutive rows of w entries are disjoint slices of one block, and all fit in it |
| `ColumnMajor.BeforeRow` | lib/mex/src/Fann/helperFann.c:67-77 | every entry of an earlier row lies before the start of row i |
| `FannHelper.Row` | lib/mex/src/Fann/helperFann.c:71 | sample i of a column-major matrix has w values, value j taken from offset j*N + i (the same holds at lines 80, 149) |
| `FannHelper.RowsDetermine` | lib/mex/src/Fann/helperFann.c:71 | two column-major matrices of the same shape with the same samples are equal, so the samples carry the whole matrix (the same holds at lines 80, 149) |
| `FannHelper.CopyRow` | lib/mex/src/Fann/helperFann.c:70-73 | dst[at + j] gets value j of sample i for every j < w, and nothing else of dst changes (the same holds at lines 79-82, 148-151) |
| `FannHelper.TrainData.Input` | lib/mex/src/Fann/helperFann.c:67-71 | the inputs of sample i, num_input values |
| `FannHelper.TrainData.Output` | lib/mex/src/Fann/helperFann.c:76-80 | the outputs of sample i, num_output values |
| `FannHelper.TrainData.constructor` | lib/mex/src/Fann/helperFann.c:33-35 | the data set records its three sizes and its row pointers and blocks |
| `FannHelper.FillRows` | lib/mex/src/Fann/helperFann.c:66-83 | row pointer i is i*w, every row of the block holds the matching sample of the source, and the source is not changed |
| `FannHelper.FillRow` | lib/mex/src/Fann/helperFann.c:67-73 | one pass points row i at the next w entries, fills them with sample i, touches no other row pointer and advances the running pointer by w |
| `FannHelper.ReadFromArray` | lib/mex/src/Fann/helperFann.c:16-85 | a data set comes back exactly when all five allocations succeed; it is fresh, has the given sizes, and the inputs and outputs of sample i are row i of din and of dout |
| `FannHelper.Assemble` | lib/mex/src/Fann/helperFann.c:65-84 | after the copying loop the data set is well formed and the inputs and outputs of every sample are the rows of din and dout |
| `FannHelper.RowsMatch` | lib/mex/src/Fann/helperFann.c:67-77 | the slice that row pointer i addresses is sample i |
| `FannHelper.ScatterRow` | lib/mex/src/Fann/helperFann.c:157-160 | out[j] goes to offset j*N + i, and the entries of every other sample are untouched |
| `FannHelper.EvaluateNetwork` | lib/mex/src/Fann/helperFann.c:133-165 | for every sample i, row i of output is the network's answer to row i of input |
| `FannHelper.Settings` | lib/mex/src/Fann/helperFann.c:96-109 | the output activation is always linear; the hidden one is Gaussian exactly for code 2, piecewise linear exactly for code 3, and sigmoid for every other code |

## Left out

- Floating point: doubles are reals. IEEE rounding, NaN and infinity, the `isfinite` guards (such as the 1e-14 fallback for rhoend at bobyqa.c:780) and the 1e-50 divide-by-zero fallbacks are not modelled.
- Square roots and hypot are not computed. NextRhoDelta takes a root with root*root = rho/rhoend and root >= 0. The zmat rotations take hypot as a function parameter, required only to be positive.
- The numerical kernels are not modelled beyond the bookkeeping above, because they are floating-point optimisation with no contract of their own in the code. This covers trsbox's conjugate-gradient and angular searches, altmov's maximisation of the Lagrange function and its Cauchy step, vlag_beta_for_d, rescue, the model fit after calc_with_xnew's evaluation (from bobyqa.c:1084 on), the gopt, bmat, hq and zmat values that prelim computes after zeroing them (bobyqa.c:2096-2145; BobyqaState.BobyqaData.PrelimPoints and StorePrelim take the bmat, hq and zmat values as parameters, and gopt is not a slice of the modelled block), and bobyqb's own control flow outside the routines listed in the Model table (BobyqaState.BobyqaData.Bobyqa takes bobyqb's code, point, value and count as parameters).
- BobyqaState.BobyqaData.ShiftXbase: the floating-point revisions that bobyqb_shift_xbase makes before the shift are parameters, not computed. These are w2npt (bobyqa.c:895), vlag (bobyqa.c:901 and 916), the first npt rows of bmat (bobyqa.c:923-924), its trailing block (bobyqa.c:902-904 and 926-927), wn (bobyqa.c:900, 922 and 934-936) and hq (bobyqa.c:940-941). w2npt and wn are not part of the modelled block.
- Update.BmatLoop: the column coefficients tempa and tempb (bobyqa.c:2914-2915) come from a function parameter `coef`, because alpha, tau, beta and denom come from the numerical kernels.
- Update: the rank-one update of zmat's first column and the products in wndim's first npt entries (bobyqa.c:2888-2907) are not modelled, and neither are their 1e-50 guards.
- Indexing.DecodeId: its contract states only the integer part ip. The bound 0 <= iq < np is stated by Indexing.DecodeRest on the real value that is truncated, together with Trunc's own contract, and by Indexing.DecodeEncode for every encoded identifier. The model writes the converted integer product (double)(ip*np) as the product of the converted factors, which is equal for the small counts involved.
- Output: printing, the verbose messages, bobyqa_print, the unconditional printf at bobyqa.c:771 and the exit(345) at bobyqa.c:890 are left out.
- Memory: malloc, free_memory, out-of-memory paths and the integer workspace pointer are left out. The double workspace is a record of sizes and offsets, and fresh memory holds zeros.
- BobyqaState.BobyqaData.SetOptimization: when the fitted count is not n, the C has already written part of xplace, xscale, x, xl and xu, and may write past their end. The model writes only xfull before it reports INVALID_ARGS.
- The class methods compute their new values first and then assign each field once. The order of the C's intermediate writes into the shared block, and aliasing between its slices, are not modelled.
- SingleSearch.Search: the first bracket is a parameter. BobyqaState.BobyqaData.MinimizeSingleParameter and Bobyqa run it as written at bobyqa.c:227-228; the in-box promises hold only for the intended bracket of the Findings. The reported value is the least seen only after refinement, because on the narrow-bracket exit with f1 == f2 < f3 the code reports p3 and not the smaller f1 (Bracket.NarrowChoiceIsBest).
- StochasticRanking.Rank: the random vector G is an input. The objective f and penalty phi are read-only sequences. The mxCalloc failure and the usage error for a wrong argument count are left out. The sweep count is returned so that it can be observed.
- Recombination.Recombine: the random vector R that MATLAB's rand supplies is an input, one value in [0, 1) per entry. The mxCalloc failure and the error for missing arguments are left out.
- FannHelper: fann_run is a function parameter. The network itself, its weights, trainNetwork and createMatlabStruct are left out. Of createNetwork only the choice of activations is modelled: the training algorithm, error function and stop function it sets are not observable in the model.
- FannHelper.EvaluateNetwork: when the allocation of `in` fails the code reports it and goes on. This path is not modelled.
- FannHelper.ReadFromArray: the five allocations are a count of those that succeed, and `unsigned int` is `nat`. The row pointers and the copying are filled in two passes: inputs first, then outputs. The C fills them in one interleaved loop. Both orders leave the same data set.
- The MEX gateway functions, the Ishigami test function, the CAE scripts and the Java SFTP code are not part of this model.

## Findings

| source | as written | input that shows it | evidently intended | confidence | as-written member | corrected member |
|---|---|---|---|---|---|---|
| COSSANXengine/mex/src/Bobyqa/bobyqa.c:2267 | the provisional id of a second-order point pairing j with the first coordinate is (j+1)/(np+1) + 0.5/np | n = 3 (np = 4) and j = 2: the id is 0.725, which decodes to the pair (0, 2) instead of (0, 3) | an id that decodes back to its own pair, 0.875 in this case | not executed | `Indexing.SecondPositionIdAsWrittenMisdecodes` and `Indexing.SecondPositionIdAsWrittenDecodes` (with `Indexing.SecondPositionIdAsWritten`), used by `Indexing.ProvisionalIdsAsWritten` | `Indexing.SecondPositionId` and `Indexing.IntendedId`, used by `Indexing.ProvisionalIds` |
| COSSANXengine/mex/src/Bobyqa/bobyqa.c:227-228 | the first bracket of the one-dimensional search is p1 = min(x-1, xl), p3 = max(x+1, xu) | x = 0.5 in [0, 10]: the first probe is -0.5, outside the box, and a move to the left then gives p1 = 0 > p2 = -0.5 | max(x-1, xl) and min(x+1, xu), as the comment at line 226 says, so that p1 < p2 < p3 holds as lines 222-223 claim | not executed | `Bracket.StartBracketAsWritten`, `Bracket.StartBracketAsWrittenLeavesBox`, `Bracket.BracketMoveAsWrittenDisorders`, `SingleSearch.AsWrittenLeavesBox`; `BobyqaState.BobyqaData.MinimizeSingleParameter` runs the search as written | `Bracket.StartBracket` and `Bracket.StartBracketOrdered`, with `SingleSearch.Search` and `SingleSearch.Run` proved to keep every probe in the box when run with the intended bracket |
