// The decisions of bobyqa_minimize_single_parameter, the bracket-and-
// parabola search used when only one parameter is fitted. The search keeps
// three points p1 < p2 < p3 with values f1, f2, f3; the objective is
// evaluated by the caller at the position each decision names.
module Bracket {
  import opened Common

  datatype Bracket = Bracket(p1: real, p2: real, p3: real, f1: real, f2: real, f3: real)
  {
    predicate Ordered() { p1 < p2 < p3 }
    predicate Within(lo: real, hi: real) { lo <= p1 && p3 <= hi }
    /** f1 > f2 < f3: the middle point is the best of the three. */
    predicate Brackets() { f1 > f2 && f2 < f3 }
    predicate MiddleBest() { f2 <= f1 && f2 <= f3 }
  }

  /** The contraction factor tau of bobyqa.c:200. */
  const Tau: real := 0.1

  // ---------------------------------------------------------------------
  // The first bracket around the start x.

  /** Lines 227-228 as written: p1 = min(x-1, xl) and p3 = max(x+1, xu). */
  function StartBracketAsWritten(x: real, xl: real, xu: real): (r: (real, real))
    ensures r.0 <= x - 1.0 && r.0 <= xl && (r.0 == xl || r.0 == x - 1.0)
    ensures r.1 >= x + 1.0 && r.1 >= xu && (r.1 == xu || r.1 == x + 1.0)
  {
    var p1 := if x - 1.0 > xl then xl else x - 1.0;
    var p3 := if x + 1.0 < xu then xu else x + 1.0;
    (p1, p3)
  }

  /** As written, the first probe leaves the box: from x = 0.5 in [0, 10]
      the search evaluates the objective at -0.5. */
  lemma StartBracketAsWrittenLeavesBox()
    ensures StartBracketAsWritten(0.5, 0.0, 10.0) == (-0.5, 10.0)
    ensures StartBracketAsWritten(0.5, 0.0, 10.0).0 < 0.0
  {
  }

  /** The first bracket inside the bounds, as the code comment at
      bobyqa.c:226 describes: p1 = max(x-1, xl) and p3 = min(x+1, xu). */
  function StartBracket(x: real, xl: real, xu: real): (r: (real, real))
    ensures xl <= x ==> xl <= r.0 <= x && (r.0 == xl || r.0 == x - 1.0)
    ensures x <= xu ==> x <= r.1 <= xu && (r.1 == xu || r.1 == x + 1.0)
    ensures xl < x ==> r.0 < x
    ensures x < xu ==> x < r.1
  {
    var p1 := if x - 1.0 < xl then xl else x - 1.0;
    var p3 := if x + 1.0 > xu then xu else x + 1.0;
    (p1, p3)
  }

  /** An as-written start less than 1 above xl evaluates first at x - 1,
      below xl; one less than 1 below xu next evaluates at x + 1, above
      xu. */
  lemma StartBracketAsWrittenOutside(x: real, xl: real, xu: real)
    ensures x - 1.0 < xl ==> StartBracketAsWritten(x, xl, xu).0 == x - 1.0 < xl
    ensures x + 1.0 > xu ==> StartBracketAsWritten(x, xl, xu).1 == x + 1.0 > xu
  {
  }

  /** Which first bracket the search starts from: the one of lines 227-228
      as written, or the one inside the bounds that line 226 describes. */
  datatype StartRule = AsWritten | Intended

  function FirstBracket(rule: StartRule, x: real, xl: real, xu: real): (real, real)
  {
    match rule
    case AsWritten => StartBracketAsWritten(x, xl, xu)
    case Intended => StartBracket(x, xl, xu)
  }

  /** The middle point after the check at bobyqa.c:235: the start itself,
      or the midpoint when the start coincides with an end. */
  function StartMiddle(p1: real, p2: real, p3: real): (m: real)
    ensures p1 < p3 && p1 <= p2 <= p3 ==> p1 < m < p3
    ensures p2 != p1 && p2 != p3 ==> m == p2
  {
    if p2 == p1 || p2 == p3 then 0.5 * (p1 + p3) else p2
  }

  /** With the corrected start, the three first probes lie in the box and
      in strict order, whenever the box is proper and holds x. */
  lemma StartBracketOrdered(x: real, xl: real, xu: real)
    requires xl < xu && xl <= x <= xu
    ensures var r := StartBracket(x, xl, xu);
            xl <= r.0 < StartMiddle(r.0, x, r.1) < r.1 <= xu
  {
  }

  /** As written, the start never needs the midpoint: x lies strictly
      between p1 and p3. */
  lemma StartBracketAsWrittenOrdered(x: real, xl: real, xu: real)
    ensures var r := StartBracketAsWritten(x, xl, xu);
            r.0 < x < r.1 && StartMiddle(r.0, x, r.1) == x
  {
  }

  // ---------------------------------------------------------------------
  // The bracketing phase (bobyqa.c:244-299): until f1 > f2 < f3, move the
  // bracket towards the smaller end value.

  datatype Slot = Left | Middle | Right

  /** One move of the bracketing phase: the new positions (with the carried
      values), the slot whose value is to be computed next, and the new jump. */
  datatype Move = Move(b: Bracket, probe: Slot, jump: real)

  function Position(b: Bracket, s: Slot): real
  {
    match s
    case Left => b.p1
    case Middle => b.p2
    case Right => b.p3
  }

  /** b with the value f recorded at slot s. */
  function WithValue(b: Bracket, s: Slot, f: real): (r: Bracket)
    ensures r.p1 == b.p1 && r.p2 == b.p2 && r.p3 == b.p3
    ensures s == Left ==> r.f1 == f && r.f2 == b.f2 && r.f3 == b.f3
    ensures s == Middle ==> r.f1 == b.f1 && r.f2 == f && r.f3 == b.f3
    ensures s == Right ==> r.f1 == b.f1 && r.f2 == b.f2 && r.f3 == f
  {
    match s
    case Left => b.(f1 := f)
    case Middle => b.(f2 := f)
    case Right => b.(f3 := f)
  }

  function BracketMove(b: Bracket, jump: real, begin: real, end: real): (m: Move)
    ensures b.f1 < b.f3 ==> m.b.p3 == b.p2 && m.b.f3 == b.f2
    ensures b.f1 >= b.f3 ==> m.b.p1 == b.p2 && m.b.f1 == b.f2
    ensures m.jump == jump || m.jump == 2.0 * jump
  {
    if b.f1 < b.f3 then
      if b.p1 == begin || (b.f1 == b.f2 && end - begin < jump) then
        Move(Bracket(b.p1, 0.5 * (b.p1 + b.p2), b.p2, b.f1, b.f2, b.f2), Middle, jump)
      else
        Move(Bracket(Max(b.p1 - jump, begin), b.p1, b.p2, b.f1, b.f1, b.f2), Left, jump * 2.0)
    else
      if b.p3 == end || (b.f2 == b.f3 && end - begin < jump) then
        Move(Bracket(b.p2, 0.5 * (b.p3 + b.p2), b.p3, b.f2, b.f2, b.f3), Middle, jump)
      else
        Move(Bracket(b.p2, b.p3, Min(b.p3 + jump, end), b.f2, b.f3, b.f3), Right, jump * 2.0)
  }

  /** From an ordered bracket inside [begin, end], a move gives another
      ordered bracket inside [begin, end], and the probe is a new point. */
  lemma BracketMoveKeepsOrder(b: Bracket, jump: real, begin: real, end: real)
    requires b.Ordered() && b.Within(begin, end) && jump > 0.0
    ensures var m := BracketMove(b, jump, begin, end);
            m.b.Ordered() && m.b.Within(begin, end) && m.jump > 0.0
  {
  }

  /** Once the start has left the box, the move to the left breaks the
      ordering p1 < p2 < p3 that the code comment at bobyqa.c:222-223
      promises: from the as-written start at x = 0.5 in [0, 10] with
      values 1, 2, 3 the new p1 is 0 and the new p2 is -0.5. */
  lemma BracketMoveAsWrittenDisorders()
    ensures var m := BracketMove(Bracket(-0.5, 0.5, 10.0, 1.0, 2.0, 3.0), 1.0, 0.0, 10.0);
            m.b.p1 == 0.0 && m.b.p2 == -0.5 && !m.b.Ordered()
  {
  }

  /** The point reported when the bracket has become narrower than rhoend
      before it brackets (bobyqa.c:254-263). */
  function NarrowChoice(b: Bracket): (s: Slot)
    ensures s == Left ==> b.f1 < b.f2 && b.f1 < b.f3
    ensures s == Middle ==> b.f2 < b.f1 && b.f2 < b.f3
    ensures s == Right ==> !(b.f1 < b.f2 && b.f1 < b.f3) && !(b.f2 < b.f1 && b.f2 < b.f3)
  {
    if b.f1 < b.f2 && b.f1 < b.f3 then Left
    else if b.f2 < b.f1 && b.f2 < b.f3 then Middle
    else Right
  }

  /** The reported slot holds the least of the three values, except when
      f1 and f2 tie below f3: then p3 is reported all the same. */
  lemma NarrowChoiceIsBest(b: Bracket)
    ensures var f := Value(b, NarrowChoice(b));
            (f <= b.f1 && f <= b.f2 && f <= b.f3) <==> !(b.f1 == b.f2 && b.f2 < b.f3)
  {
  }

  function Value(b: Bracket, s: Slot): real
  {
    match s
    case Left => b.f1
    case Middle => b.f2
    case Right => b.f3
  }

  // ---------------------------------------------------------------------
  // The refinement phase (bobyqa.c:305-354).

  /** The vertex of the parabola through the three points (bobyqa.c:309-316):
      p2 when the parabola degenerates, otherwise the vertex clamped into
      [p1, p3]. */
  function ParabolaVertex(b: Bracket): (v: real)
    ensures b.p1 <= b.p2 <= b.p3 ==> b.p1 <= v <= b.p3
  {
    var d := b.f1 * (b.p3 * b.p3 - b.p2 * b.p2) + b.f2 * (b.p1 * b.p1 - b.p3 * b.p3)
             + b.f3 * (b.p2 * b.p2 - b.p1 * b.p1);
    var d2 := 2.0 * (b.f1 * (b.p3 - b.p2) + b.f2 * (b.p1 - b.p3) + b.f3 * (b.p2 - b.p1));
    if d2 == 0.0 then b.p2
    else
      var q := d / d2;
      if b.p1 <= q && q <= b.p3 then q
      else
        var c := if b.p1 > q then b.p1 else q;
        if b.p3 < c then b.p3 else c
  }

  /** Keep the probe at least tau times the half-width away from the points
      already known (bobyqa.c:319-328). */
  function Nudge(p1: real, p2: real, p3: real, pm: real): (r: real)
    ensures p1 < p2 < p3 && p1 <= pm < p2 ==>
              p1 + Tau * (p2 - p1) <= r <= p2 - Tau * (p2 - p1)
    ensures p1 < p2 < p3 && p2 <= pm <= p3 ==>
              p2 + Tau * (p3 - p2) <= r <= p3 - Tau * (p3 - p2)
  {
    if pm < p2 then
      var d := (p2 - p1) * Tau;
      if Abs(p1 - pm) < d then p1 + d
      else if Abs(p2 - pm) < d then p2 - d
      else pm
    else
      var d := (p3 - p2) * Tau;
      if Abs(p2 - pm) < d then p2 + d
      else if Abs(p3 - pm) < d then p3 - d
      else pm
  }

  /** |p1 - p2| / |p2 - p3| in IEEE arithmetic: infinite when only the
      divisor is zero, not a number when both are. */
  datatype Ratio = Finite(v: real) | Infinite | NotANumber
  {
    /** !(ratio < 100 && ratio > 0.01) */
    predicate Lopsided()
    {
      match this
      case Finite(v) => !(v < 100.0 && v > 0.01)
      case Infinite => true
      case NotANumber => true
    }
    /** ratio > 1 */
    predicate AboveOne()
    {
      match this
      case Finite(v) => v > 1.0
      case Infinite => true
      case NotANumber => false
    }
  }

  function BracketRatio(p1: real, p2: real, p3: real): (r: Ratio)
    ensures p2 != p3 ==> r.Finite? && r.v >= 0.0
    ensures p2 != p3 ==> (r.v > 1.0 <==> Abs(p1 - p2) > Abs(p2 - p3))
  {
    var num := Abs(p1 - p2);
    var den := Abs(p2 - p3);
    if den != 0.0 then
      assert num / den > 1.0 <==> num > den by { QuotientAboveOne(num, den); }
      Finite(num / den)
    else if num != 0.0 then Infinite
    else NotANumber
  }

  lemma QuotientAboveOne(num: real, den: real)
    requires den > 0.0
    ensures num / den > 1.0 <==> num > den
  {
    var q := num / den;
    assert q * den == num;
    if q > 1.0 {
      assert q * den > 1.0 * den;
    } else {
      assert q * den <= 1.0 * den;
    }
  }

  /** Move the probe to the larger side of a lopsided bracket
      (bobyqa.c:331-337). */
  function Rebalance(p1: real, p2: real, p3: real, pm: real): (r: real)
    ensures p1 < p2 < p3 && p1 < pm < p3 && pm != p2 ==> p1 < r < p3 && r != p2
    ensures !BracketRatio(p1, p2, p3).Lopsided() ==> r == pm
  {
    var ratio := BracketRatio(p1, p2, p3);
    if ratio.Lopsided() then
      if ratio.AboveOne() && pm > p2 then 0.5 * (p1 + p2)
      else if pm < p2 then 0.5 * (p2 + p3)
      else pm
    else pm
  }

  /** The next probe of the refinement phase. From an ordered bracket it is
      strictly inside (p1, p3) and differs from p2. */
  function NextProbe(b: Bracket): (pm: real)
    ensures b.Ordered() ==> b.p1 < pm < b.p3 && pm != b.p2
  {
    var v := ParabolaVertex(b);
    var n := Nudge(b.p1, b.p2, b.p3, v);
    Rebalance(b.p1, b.p2, b.p3, n)
  }

  /** Drop one end of the bracket according to the value fm at the probe pm
      (bobyqa.c:345-353). */
  function Contract(b: Bracket, pm: real, fm: real): (r: Bracket)
    ensures b.Ordered() && b.p1 < pm < b.p3 && pm != b.p2 ==>
              r.Ordered() && b.p1 <= r.p1 && r.p3 <= b.p3 && r.p3 - r.p1 < b.p3 - b.p1
    ensures r.f2 <= b.f2
    ensures b.MiddleBest() ==> r.MiddleBest()
    ensures r.p2 == b.p2 || (r.p2 == pm && r.f2 == fm)
  {
    if pm < b.p2 then
      if b.f1 > fm && fm < b.f2 then Bracket(b.p1, pm, b.p2, b.f1, fm, b.f2)
      else b.(p1 := pm, f1 := fm)
    else
      if b.f2 > fm && fm < b.f3 then Bracket(b.p2, pm, b.p3, b.f2, fm, b.f3)
      else b.(p3 := pm, f3 := fm)
  }
}
