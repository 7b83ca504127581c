// bobyqa_minimize_single_parameter (bobyqa.c:191-357) on values: the search
// used when only one parameter is fitted. g is the objective seen from that
// parameter (the full list with the parameter at position p in place); the
// evaluation count and the positions handed to g are tracked, and the
// decisions of each step are the functions of module Bracket.
module SingleSearch {
  import opened Common
  import opened ResultCodes
  import opened Bracket
  import Scatter

  /** Each value of the bracket is the objective at its position. */
  predicate Recorded(b: Bracket, g: real -> real)
  {
    b.f1 == g(b.p1) && b.f2 == g(b.p2) && b.f3 == g(b.p3)
  }

  /** Each position of the bracket is one of the positions evaluated. */
  predicate Among(b: Bracket, probes: seq<real>)
  {
    b.p1 in probes && b.p2 in probes && b.p3 in probes
  }

  /** Every position evaluated lies in [lo, hi]. */
  predicate AllWithin(probes: seq<real>, lo: real, hi: real)
  {
    forall i :: 0 <= i < |probes| ==> lo <= probes[i] <= hi
  }

  /** No position evaluated has a value below v. */
  predicate Least(v: real, g: real -> real, probes: seq<real>)
  {
    forall i :: 0 <= i < |probes| ==> v <= g(probes[i])
  }

  /** The least value of the bracket is the least value evaluated. */
  predicate Lowest(b: Bracket, g: real -> real, probes: seq<real>)
  {
    Least(Min(b.f1, Min(b.f2, b.f3)), g, probes)
  }

  /** How the bracketing phase ends: with f1 > f2 < f3, with the budget
      spent, or with the bracket narrower than rhoend. */
  datatype Phase = Bracketed | OutOfBudget | TooNarrow

  /** A move of the bracketing phase followed by the evaluation of its
      probe keeps the bracket recorded, and every position is an old one or
      the probe. */
  lemma MoveRecorded(b: Bracket, jump: real, begin: real, end: real, g: real -> real, probes: seq<real>)
    requires Recorded(b, g) && Among(b, probes)
    ensures var m := BracketMove(b, jump, begin, end);
            var p := Position(m.b, m.probe);
            Recorded(WithValue(m.b, m.probe, g(p)), g) && Among(WithValue(m.b, m.probe, g(p)), probes + [p])
  {
  }

  /** A move of the bracketing phase drops only a value above one it keeps,
      so the least value of the bracket stays the least value evaluated. */
  lemma MoveLowest(b: Bracket, jump: real, begin: real, end: real, g: real -> real, probes: seq<real>)
    requires Recorded(b, g) && Lowest(b, g, probes)
    ensures var m := BracketMove(b, jump, begin, end);
            var p := Position(m.b, m.probe);
            Lowest(WithValue(m.b, m.probe, g(p)), g, probes + [p])
  {
    var m := BracketMove(b, jump, begin, end);
    var p := Position(m.b, m.probe);
    var c := WithValue(m.b, m.probe, g(p));
    assert Min(c.f1, Min(c.f2, c.f3)) <= Min(b.f1, Min(b.f2, b.f3));
    assert Min(c.f1, Min(c.f2, c.f3)) <= g(p);
  }

  /** The bracketing phase (bobyqa.c:244-299) from the bracket b0, the
      positions seen so far having been evaluated, one evaluation each:
      until f1 > f2 < f3 the bracket moves towards its smaller end value,
      stopping when the budget maxeval is spent or the bracket is narrower
      than rhoend. A bracket that starts ordered inside [begin, end] stays
      so, and so do the positions evaluated. */
  method Bracketing(g: real -> real, b0: Bracket, begin: real, end: real, rhoend: real, maxeval: int,
                    nevals0: int, last0: real, ghost seen: seq<real>)
    returns (b: Bracket, nevals: int, last: real, phase: Phase, ghost probes: seq<real>)
    requires Recorded(b0, g) && Among(b0, seen) && |seen| > 0 && nevals0 == |seen| && last0 == seen[|seen| - 1]
    requires Lowest(b0, g, seen)
    ensures Recorded(b, g) && Among(b, probes) && nevals == |probes| && last == probes[|probes| - 1]
    ensures |seen| <= |probes| && probes[..|seen|] == seen
    ensures (nevals <= |seen| || nevals <= maxeval)
    ensures Lowest(b, g, probes)
    ensures phase == Bracketed <==> b.Brackets()
    ensures phase == OutOfBudget ==> nevals >= maxeval
    ensures phase == TooNarrow ==> nevals < maxeval && b.p3 - b.p1 < rhoend
    ensures b0.Ordered() && b0.Within(begin, end) && AllWithin(seen, begin, end) ==>
              b.Ordered() && b.Within(begin, end) && AllWithin(probes, begin, end)
  {
    ghost var ok := b0.Ordered() && b0.Within(begin, end) && AllWithin(seen, begin, end);
    var jump := 1.0;
    b, nevals, last, probes := b0, nevals0, last0, seen;
    while !b.Brackets()
      invariant Recorded(b, g) && Among(b, probes) && nevals == |probes| && last == probes[|probes| - 1]
      invariant |seen| <= |probes| && probes[..|seen|] == seen
      invariant (nevals <= |seen| || nevals <= maxeval)
      invariant ok ==> b.Ordered() && b.Within(begin, end) && jump > 0.0 && AllWithin(probes, begin, end)
      invariant Lowest(b, g, probes)
      decreases maxeval - nevals
    {
      if nevals >= maxeval {
        return b, nevals, last, OutOfBudget, probes;
      }
      if b.p3 - b.p1 < rhoend {
        return b, nevals, last, TooNarrow, probes;
      }
      var m := BracketMove(b, jump, begin, end);
      if ok {
        BracketMoveKeepsOrder(b, jump, begin, end);
      }
      var p := Position(m.b, m.probe);
      MoveRecorded(b, jump, begin, end, g, probes);
      MoveLowest(b, jump, begin, end, g, probes);
      b := WithValue(m.b, m.probe, g(p));
      jump := m.jump;
      nevals, last, probes := nevals + 1, p, probes + [p];
    }
    phase := Bracketed;
  }

  /** The refinement phase (bobyqa.c:305-354): while the budget lasts and
      the bracket is wider than rhoend, a probe strictly inside (p1, p3) and
      away from p2 is evaluated and the bracket drops one end. An ordered
      bracket stays ordered and only shrinks, its middle value never grows,
      and a middle value that is the least of the three stays so. */
  method Refine(g: real -> real, b0: Bracket, rhoend: real, maxeval: int, nevals0: int, last0: real,
                ghost seen: seq<real>)
    returns (b: Bracket, nevals: int, last: real, ghost probes: seq<real>)
    requires Recorded(b0, g) && Among(b0, seen) && |seen| > 0 && nevals0 == |seen| && last0 == seen[|seen| - 1]
    ensures Recorded(b, g) && Among(b, probes) && nevals == |probes| && last == probes[|probes| - 1]
    ensures |seen| <= |probes| && probes[..|seen|] == seen
    ensures (nevals <= |seen| || nevals <= maxeval)
    ensures nevals >= maxeval || b.p3 - b.p1 <= rhoend
    ensures b.f2 <= b0.f2
    ensures b0.MiddleBest() ==> b.MiddleBest()
    ensures b0.MiddleBest() && Least(b0.f2, g, seen) ==> Least(b.f2, g, probes)
    ensures b0.Ordered() ==> b.Ordered() && b0.p1 <= b.p1 && b.p3 <= b0.p3
    ensures b0.Ordered() ==> forall i :: |seen| <= i < |probes| ==> b0.p1 < probes[i] < b0.p3
  {
    b, nevals, last, probes := b0, nevals0, last0, seen;
    while nevals < maxeval && b.p3 - b.p1 > rhoend
      invariant Recorded(b, g) && Among(b, probes) && nevals == |probes| && last == probes[|probes| - 1]
      invariant |seen| <= |probes| && probes[..|seen|] == seen
      invariant (nevals <= |seen| || nevals <= maxeval)
      invariant b.f2 <= b0.f2
      invariant b0.MiddleBest() ==> b.MiddleBest()
      invariant b0.MiddleBest() && Least(b0.f2, g, seen) ==> Least(b.f2, g, probes)
      invariant b0.Ordered() ==> b.Ordered() && b0.p1 <= b.p1 && b.p3 <= b0.p3
      invariant b0.Ordered() ==> forall i :: |seen| <= i < |probes| ==> b0.p1 < probes[i] < b0.p3
      decreases maxeval - nevals
    {
      var pm := NextProbe(b);
      var fm := g(pm);
      b := Contract(b, pm, fm);
      nevals, last, probes := nevals + 1, pm, probes + [pm];
    }
  }

  /** bobyqa_minimize_single_parameter for n fitted parameters, the start
      x, the box [begin, end] and the settings rhoend, rhobeg and maxeval,
      from the first bracket that rule names: as written, or inside the box
      (see StartBracket and the Findings of the README). r is
      INVALID_ARGS, with nothing evaluated, unless n = 1, 0 < rhoend <
      rhobeg and maxeval >= 2; SUCCESS after the one evaluation at x when
      the box is empty (the parameter is fixed); otherwise the outcome of
      the search. best is the position reported and fbest its value, last
      the last position evaluated and probes all of them in order; b is the
      final bracket, slot the one reported, and refined says whether the
      refinement phase was reached. The second and third positions
      evaluated are the ends of the first bracket; only from the intended
      one does every probe stay in the box. */
  method Search(rule: StartRule, g: real -> real, n: int, x: real, begin: real, end: real, rhoend: real,
                rhobeg: real, maxeval: int)
    returns (r: ResultCode, best: real, fbest: real, nevals: int, last: real, b: Bracket, slot: Slot,
             refined: bool, ghost probes: seq<real>)
    ensures r == InvalidArgs <==> n != 1 || rhoend <= 0.0 || rhoend >= rhobeg || maxeval < 2
    ensures r == InvalidArgs ==> nevals == 0 && probes == []
    ensures r == Success <==> r != InvalidArgs && begin >= end
    ensures r == Success ==> nevals == 1 && probes == [x] && best == x && fbest == g(x)
    ensures r == InvalidArgs || r == Success || r == MaxevalReached || r == XtolReached
    ensures r != InvalidArgs ==>
              nevals == |probes| >= 1 && probes[0] == x && last == probes[nevals - 1]
              && (nevals <= 4 || nevals <= maxeval) && best in probes && fbest == g(best)
    ensures r == MaxevalReached ==> nevals >= maxeval
    ensures r == XtolReached ==> nevals < maxeval
    ensures r == MaxevalReached || r == XtolReached ==>
              Recorded(b, g) && Among(b, probes) && best == Position(b, slot) && fbest == Value(b, slot)
    ensures r == MaxevalReached || r == XtolReached ==>
              if refined then slot == Middle && b.MiddleBest() && (r == XtolReached ==> b.p3 - b.p1 <= rhoend)
              else if r == XtolReached then slot == NarrowChoice(b) && b.p3 - b.p1 < rhoend
              else slot == Middle
    ensures refined ==> Least(fbest, g, probes)
    ensures r != InvalidArgs && begin < end ==>
              |probes| >= 3 && probes[1] == FirstBracket(rule, x, begin, end).0
              && probes[2] == FirstBracket(rule, x, begin, end).1
    ensures rule == Intended && r != InvalidArgs && begin <= x <= end ==> AllWithin(probes, begin, end)
    ensures rule == Intended && (r == MaxevalReached || r == XtolReached) && begin <= x <= end ==>
              b.Ordered() && b.Within(begin, end)
  {
    b, slot, refined := Bracket(x, x, x, 0.0, 0.0, 0.0), Middle, false;
    if n != 1 || rhoend <= 0.0 || rhoend >= rhobeg || maxeval < 2 {
      return InvalidArgs, x, 0.0, 0, x, b, slot, refined, [];
    }
    var f2 := g(x);
    nevals, last, probes := 1, x, [x];
    if begin >= end {
      return Success, x, f2, nevals, last, b, slot, refined, probes;
    }
    r, best, fbest, nevals, last, b, slot, refined, probes := Explore(rule, g, x, f2, begin, end, rhoend, maxeval);
  }

  /** The search proper (bobyqa.c:224-357) once x has been evaluated with
      value fx and the box is proper: the first bracket, the bracketing
      phase and the refinement, ending with MAXEVAL_REACHED or
      XTOL_REACHED as the range of Search says. */
  method Explore(rule: StartRule, g: real -> real, x: real, fx: real, begin: real, end: real, rhoend: real,
                 maxeval: int)
    returns (r: ResultCode, best: real, fbest: real, nevals: int, last: real, b: Bracket, slot: Slot,
             refined: bool, ghost probes: seq<real>)
    requires fx == g(x) && begin < end
    ensures r == MaxevalReached || r == XtolReached
    ensures nevals == |probes| >= 3 && probes[0] == x && last == probes[nevals - 1]
            && (nevals <= 4 || nevals <= maxeval) && best in probes && fbest == g(best)
    ensures r == MaxevalReached ==> nevals >= maxeval
    ensures r == XtolReached ==> nevals < maxeval
    ensures Recorded(b, g) && Among(b, probes) && best == Position(b, slot) && fbest == Value(b, slot)
    ensures if refined then slot == Middle && b.MiddleBest() && (r == XtolReached ==> b.p3 - b.p1 <= rhoend)
            else if r == XtolReached then slot == NarrowChoice(b) && b.p3 - b.p1 < rhoend
            else slot == Middle
    ensures refined ==> Least(fbest, g, probes)
    ensures probes[1] == FirstBracket(rule, x, begin, end).0 && probes[2] == FirstBracket(rule, x, begin, end).1
    ensures rule == Intended && begin <= x <= end ==>
              AllWithin(probes, begin, end) && b.Ordered() && b.Within(begin, end)
  {
    b, nevals, last, probes := Begin(rule, g, x, fx, begin, end);
    var phase;
    ghost var seen := probes;
    ghost var start := seen;
    b, nevals, last, phase, probes := Bracketing(g, b, begin, end, rhoend, maxeval, nevals, last, seen);
    PrefixKeeps(start, start, probes);
    if phase == OutOfBudget {
      return MaxevalReached, b.p2, b.f2, nevals, last, b, Middle, false, probes;
    }
    if phase == TooNarrow {
      slot := NarrowChoice(b);
      return XtolReached, Position(b, slot), Value(b, slot), nevals, last, b, slot, false, probes;
    }
    ghost var mid := probes;
    r, b, nevals, last, probes := Polish(g, b, begin, end, rhoend, maxeval, nevals, last, mid);
    PrefixKeeps(start, mid, probes);
    best, fbest, slot, refined := b.p2, b.f2, Middle, true;
  }

  /** The refinement phase from a bracket with f1 > f2 < f3 (bobyqa.c:305-357):
      the code is MAXEVAL_REACHED exactly when the budget is spent; f2 stays
      the least value of the bracket and of all positions evaluated; a
      bracket ordered inside the box keeps every probe there. */
  method Polish(g: real -> real, b0: Bracket, begin: real, end: real, rhoend: real, maxeval: int,
                nevals0: int, last0: real, ghost seen: seq<real>)
    returns (r: ResultCode, b: Bracket, nevals: int, last: real, ghost probes: seq<real>)
    requires b0.Brackets() && Recorded(b0, g) && Among(b0, seen) && Lowest(b0, g, seen)
    requires |seen| > 0 && nevals0 == |seen| && last0 == seen[|seen| - 1]
    ensures r == MaxevalReached <==> nevals >= maxeval
    ensures r == MaxevalReached || r == XtolReached
    ensures Recorded(b, g) && Among(b, probes) && nevals == |probes| && last == probes[|probes| - 1]
    ensures |seen| <= |probes| && probes[..|seen|] == seen
    ensures nevals <= |seen| || nevals <= maxeval
    ensures b.MiddleBest() && Least(b.f2, g, probes)
    ensures r == XtolReached ==> b.p3 - b.p1 <= rhoend
    ensures b0.Ordered() && b0.Within(begin, end) && AllWithin(seen, begin, end) ==>
              AllWithin(probes, begin, end) && b.Ordered() && b.Within(begin, end)
  {
    BracketedLeast(b0, g, seen);
    b, nevals, last, probes := Refine(g, b0, rhoend, maxeval, nevals0, last0, seen);
    if b0.Ordered() && b0.Within(begin, end) && AllWithin(seen, begin, end) {
      JoinWithin(seen, probes, b0.p1, b0.p3, begin, end);
    }
    r := if nevals >= maxeval then MaxevalReached else XtolReached;
  }

  /** A prefix of a prefix is a prefix; in particular the first three
      positions are kept. */
  lemma PrefixKeeps(a: seq<real>, b: seq<real>, c: seq<real>)
    requires 3 <= |a| <= |b| <= |c| && b[..|a|] == a && c[..|b|] == b
    ensures c[..|a|] == a && c[0] == a[0] && c[1] == a[1] && c[2] == a[2]
  {
    assert c[..|a|] == c[..|b|][..|a|];
  }

  /** Once f1 > f2 < f3, f2 is the least value of the bracket. */
  lemma BracketedLeast(b: Bracket, g: real -> real, probes: seq<real>)
    requires b.Brackets() && Lowest(b, g, probes)
    ensures b.MiddleBest() && Least(b.f2, g, probes)
  {
    assert Min(b.f1, Min(b.f2, b.f3)) == b.f2;
  }

  /** When the positions seen lie in [begin, end] and the later ones in
      [lo, hi] inside it, all of them lie in [begin, end]. */
  lemma JoinWithin(seen: seq<real>, probes: seq<real>, lo: real, hi: real, begin: real, end: real)
    requires |seen| <= |probes| && probes[..|seen|] == seen && AllWithin(seen, begin, end)
    requires forall i :: |seen| <= i < |probes| ==> lo < probes[i] < hi
    requires begin <= lo && hi <= end
    ensures AllWithin(probes, begin, end)
  {
    forall i | 0 <= i < |probes|
      ensures begin <= probes[i] <= end
    {
      if i < |seen| {
        assert probes[i] == seen[i];
      }
    }
  }

  /** The first bracket (bobyqa.c:225-240), x having been evaluated with
      value fx and the box being proper: the ends of the first bracket that
      rule names are evaluated, and the middle too when x coincides with an
      end. As written (lines 227-228) the ends lie at least 1 from x, so x
      is kept as the middle, the bracket is ordered, and its ends are the
      box's ends or lie outside the box; from the intended start in the box
      the bracket is ordered and every position evaluated lies in the box. */
  method Begin(rule: StartRule, g: real -> real, x: real, fx: real, begin: real, end: real)
    returns (b: Bracket, nevals: int, last: real, ghost probes: seq<real>)
    requires fx == g(x) && begin < end
    ensures Recorded(b, g) && Among(b, probes) && nevals == |probes| && last == probes[|probes| - 1]
    ensures probes[0] == x && 3 <= nevals <= 4 && Lowest(b, g, probes)
    ensures probes[1] == FirstBracket(rule, x, begin, end).0 && probes[2] == FirstBracket(rule, x, begin, end).1
    ensures rule == AsWritten ==>
              nevals == 3 && b.Ordered() && b.p2 == x && b.p1 <= Min(x - 1.0, begin) && b.p3 >= Max(x + 1.0, end)
    ensures rule == Intended && begin <= x <= end ==>
              b.Ordered() && b.Within(begin, end) && AllWithin(probes, begin, end)
  {
    var ends := FirstBracket(rule, x, begin, end);
    var p1, p3 := ends.0, ends.1;
    var f1 := g(p1);
    var f3 := g(p3);
    var p2, f2 := x, fx;
    nevals, last, probes := 3, p3, [x, p1, p3];
    if p2 == p1 || p2 == p3 {
      p2 := StartMiddle(p1, x, p3);
      f2 := g(p2);
      nevals, last, probes := 4, p2, probes + [p2];
    }
    if rule == Intended && begin <= x <= end {
      StartBracketOrdered(x, begin, end);
    }
    if rule == AsWritten {
      StartBracketAsWrittenOrdered(x, begin, end);
    }
    b := Bracket(p1, p2, p3, f1, f2, f3);
  }

  /** The positions evaluated as points of the fitted parameters, one
      coordinate each. */
  function AsPoints(probes: seq<real>): (s: seq<seq<real>>)
    ensures |s| == |probes| && forall i :: 0 <= i < |s| ==> s[i] == [probes[i]]
  {
    seq(|probes|, i requires 0 <= i < |probes| => [probes[i]])
  }

  /** Positions in [lo, hi] are points in the box [[lo], [hi]]. */
  lemma PointsInBox(probes: seq<real>, lo: real, hi: real)
    requires AllWithin(probes, lo, hi)
    ensures forall i :: 0 <= i < |probes| ==> InBoxOne(AsPoints(probes)[i], lo, hi)
  {
  }

  /** The one-coordinate point v lies in [lo, hi]. */
  predicate InBoxOne(v: seq<real>, lo: real, hi: real)
  {
    |v| == 1 && lo <= v[0] <= hi
  }

  /** What the search leaves for the one fitted parameter at place pl, with
      scale sc, the full list xf and the objective o before it, the start
      x0, the box [lo, hi] and the start rule: the code, the reported point
      x with its value minf, the full list xfull and the list log of points
      evaluated. The settings are rejected as Search says; otherwise the
      points evaluated start with x0, are at most 4 or maxeval in number, x
      is one of them, minf is the objective there and the full list holds
      the last of them. In a proper box the next two points are the ends of
      the first bracket; from the intended start they all lie in the box
      when x0 does. */
  ghost predicate Outcome(rule: StartRule, o: seq<real> -> real, xf: seq<real>, pl: seq<int>, sc: seq<real>, x0: real, lo: real,
                          hi: real, rhoend: real, rhobeg: real, maxeval: int, r: ResultCode, x: seq<real>,
                          xfull: seq<real>, minf: real, nevals: int, log: seq<seq<real>>)
    requires |pl| == 1 && |sc| == 1 && Scatter.InRange(pl, |xf|)
  {
    (r == InvalidArgs <==> rhoend <= 0.0 || rhoend >= rhobeg || maxeval < 2)
    && (r == InvalidArgs ==> log == [])
    && (r == InvalidArgs || r == Success || r == MaxevalReached || r == XtolReached)
    && (r != InvalidArgs ==>
          1 <= nevals == |log| && (nevals <= 4 || nevals <= maxeval)
          && (forall j :: 0 <= j < |log| ==> |log[j]| == 1) && log[0] == [x0]
          && |x| == 1 && x in log && minf == o(Scatter.Scatter(xf, pl, sc, x))
          && xfull == Scatter.Scatter(xf, pl, sc, log[|log| - 1]))
    && (r == Success <==> r != InvalidArgs && lo >= hi)
    && (r == Success ==> nevals == 1 && x == [x0])
    && (r == MaxevalReached ==> nevals >= maxeval)
    && (r == XtolReached ==> nevals < maxeval)
    && (r != InvalidArgs && lo < hi ==>
          |log| >= 3 && log[1] == [FirstBracket(rule, x0, lo, hi).0] && log[2] == [FirstBracket(rule, x0, lo, hi).1])
    && (rule == Intended && r != InvalidArgs && lo <= x0 <= hi ==>
          forall j :: 0 <= j < |log| ==> InBoxOne(log[j], lo, hi))
  }

  /** As written, a search in a proper box from a start less than 1 above
      the lower bound evaluates the objective below that bound: the second
      point evaluated is x0 - 1 (bobyqa.c:227-231). */
  lemma AsWrittenLeavesBox(o: seq<real> -> real, xf: seq<real>, pl: seq<int>, sc: seq<real>, x0: real, lo: real,
                           hi: real, rhoend: real, rhobeg: real, maxeval: int, r: ResultCode, x: seq<real>,
                           xfull: seq<real>, minf: real, nevals: int, log: seq<seq<real>>)
    requires |pl| == 1 && |sc| == 1 && Scatter.InRange(pl, |xf|)
    requires Outcome(AsWritten, o, xf, pl, sc, x0, lo, hi, rhoend, rhobeg, maxeval, r, x, xfull, minf, nevals, log)
    requires r != InvalidArgs && lo < hi && x0 - 1.0 < lo
    ensures log[1] == [x0 - 1.0] && !InBoxOne(log[1], lo, hi)
  {
    StartBracketAsWrittenOutside(x0, lo, hi);
  }

  /** Search for the one fitted parameter, with the objective o at the full
      list xf with that parameter in place, and its results as the record
      holds them. */
  method Run(rule: StartRule, o: seq<real> -> real, xf: seq<real>, pl: seq<int>, sc: seq<real>, x0: real, lo: real, hi: real,
             rhoend: real, rhobeg: real, maxeval: int)
    returns (r: ResultCode, x: seq<real>, xfull: seq<real>, minf: real, nevals: int, ghost log: seq<seq<real>>)
    requires |pl| == 1 && |sc| == 1 && Scatter.InRange(pl, |xf|)
    ensures Outcome(rule, o, xf, pl, sc, x0, lo, hi, rhoend, rhobeg, maxeval, r, x, xfull, minf, nevals, log)
  {
    var g := (p: real) => o(Scatter.Scatter(xf, pl, sc, [p]));
    var best: real, last: real, b: Bracket, slot: Slot, refined: bool;
    ghost var probes: seq<real>;
    r, best, minf, nevals, last, b, slot, refined, probes := Search(rule, g, 1, x0, lo, hi, rhoend, rhobeg, maxeval);
    x, xfull, log := [best], Scatter.Scatter(xf, pl, sc, [last]), AsPoints(probes);
    RunOutcome(rule, o, xf, pl, sc, x0, lo, hi, rhoend, rhobeg, maxeval, r, best, minf, nevals, last, probes);
  }

  /** The facts about Search that Run turns into its Outcome. */
  lemma RunOutcome(rule: StartRule, o: seq<real> -> real, xf: seq<real>, pl: seq<int>, sc: seq<real>, x0: real, lo: real, hi: real,
                   rhoend: real, rhobeg: real, maxeval: int, r: ResultCode, best: real, minf: real, nevals: int,
                   last: real, probes: seq<real>)
    requires |pl| == 1 && |sc| == 1 && Scatter.InRange(pl, |xf|)
    requires r == InvalidArgs <==> rhoend <= 0.0 || rhoend >= rhobeg || maxeval < 2
    requires r == InvalidArgs ==> nevals == 0 && probes == []
    requires r == Success <==> r != InvalidArgs && lo >= hi
    requires r == Success ==> nevals == 1 && probes == [x0] && best == x0
    requires r == InvalidArgs || r == Success || r == MaxevalReached || r == XtolReached
    requires r != InvalidArgs ==>
               nevals == |probes| >= 1 && probes[0] == x0 && last == probes[nevals - 1]
               && (nevals <= 4 || nevals <= maxeval) && best in probes
               && minf == o(Scatter.Scatter(xf, pl, sc, [best]))
    requires r == MaxevalReached ==> nevals >= maxeval
    requires r == XtolReached ==> nevals < maxeval
    requires r != InvalidArgs && lo < hi ==>
               |probes| >= 3 && probes[1] == FirstBracket(rule, x0, lo, hi).0
               && probes[2] == FirstBracket(rule, x0, lo, hi).1
    requires rule == Intended && r != InvalidArgs && lo <= x0 <= hi ==> AllWithin(probes, lo, hi)
    ensures Outcome(rule, o, xf, pl, sc, x0, lo, hi, rhoend, rhobeg, maxeval, r, [best],
                    Scatter.Scatter(xf, pl, sc, [last]), minf, nevals, AsPoints(probes))
  {
    var log := AsPoints(probes);
    if r != InvalidArgs {
      var i :| 0 <= i < |probes| && probes[i] == best;
      assert log[i] == [best];
      if rule == Intended && lo <= x0 <= hi {
        PointsInBox(probes, lo, hi);
      }
    }
  }
}
