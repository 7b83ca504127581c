// The trust-region radius schedule of bobyqb: the lower bound rho on the
// radius only decreases, towards rhoend, and the radius delta is kept at
// rho or clearly above it.
module Radius {
  import opened Common

  datatype Radii = Radii(rho: real, delta: real)

  /** bobyqb_next_rho_delta: rho is cut to rhoend when rho/rhoend <= 16, to
      sqrt(rho/rhoend)*rhoend when it is <= 250, and by a factor ten
      otherwise; delta becomes max(rho/2, new rho). The square root is
      supplied as root. With rhoend == 0 the IEEE ratio is +infinity and the
      last branch is taken. */
  function NextRhoDelta(rho: real, rhoend: real, root: real): (r: Radii)
    requires rhoend > 0.0 ==> root >= 0.0 && root * root == rho / rhoend
    ensures r.delta == Max(0.5 * rho, r.rho)
    ensures rhoend > 0.0 && rho / rhoend <= 16.0 ==> r.rho == rhoend
    ensures rhoend == 0.0 ==> r.rho == 0.1 * rho
  {
    var newRho :=
      if rhoend == 0.0 then rho * 0.1
      else if rho / rhoend <= 16.0 then rhoend
      else if rho / rhoend <= 250.0 then root * rhoend
      else rho * 0.1;
    Radii(newRho, Max(0.5 * rho, newRho))
  }

  lemma ScaleStrict(a: real, b: real, c: real)
    requires a > b && c > 0.0
    ensures a * c > b * c
  {
  }

  lemma ScaleLe(a: real, b: real, c: real)
    requires a <= b && c >= 0.0
    ensures a * c <= b * c
  {
  }

  /** Comparing rho/rhoend with a constant is comparing rho with a multiple
      of rhoend. */
  lemma QuotientAbove(rho: real, rhoend: real, k: real)
    requires rhoend > 0.0
    ensures rho / rhoend > k <==> rho > k * rhoend
  {
    var q := rho / rhoend;
    assert q * rhoend == rho;
    if q > k {
      ScaleStrict(q, k, rhoend);
    } else {
      ScaleLe(q, k, rhoend);
    }
  }

  /** A square root of x > 1 lies strictly between 1 and x. */
  lemma RootBounds(root: real, x: real)
    requires root >= 0.0 && root * root == x && x > 1.0
    ensures 1.0 < root < x
  {
    if root <= 1.0 {
      ScaleLe(root, 1.0, root);
      assert false;
    }
    if root >= x {
      ScaleLe(x, root, root);
      ScaleLe(1.0, root, x);
      assert false;
    }
  }

  /** Called only while rho > rhoend > 0, one step lowers rho strictly and
      never below rhoend, and the new radius is at least the new rho. */
  lemma NextRhoDeltaDecreases(rho: real, rhoend: real, root: real)
    requires rhoend > 0.0 && rho > rhoend
    requires root >= 0.0 && root * root == rho / rhoend
    ensures rhoend <= NextRhoDelta(rho, rhoend, root).rho < rho
    ensures NextRhoDelta(rho, rhoend, root).delta >= NextRhoDelta(rho, rhoend, root).rho
    ensures NextRhoDelta(rho, rhoend, root).delta >= 0.5 * rho
  {
    var ratio := rho / rhoend;
    QuotientAbove(rho, rhoend, 1.0);
    QuotientAbove(rho, rhoend, 250.0);
    if 16.0 < ratio <= 250.0 {
      RootBounds(root, ratio);
      ScaleLe(1.0, root, rhoend);
      ScaleStrict(ratio, root, rhoend);
      assert ratio * rhoend == rho;
    }
  }

  /** For a step from rho > rhoend, the new rho is rhoend exactly when
      rho <= 16*rhoend, so the schedule reaches rhoend after finitely many
      steps of the other kinds. */
  lemma NextRhoDeltaReachesEnd(rho: real, rhoend: real, root: real)
    requires rhoend > 0.0 && rho > rhoend
    requires root >= 0.0 && root * root == rho / rhoend
    ensures NextRhoDelta(rho, rhoend, root).rho == rhoend <==> rho <= 16.0 * rhoend
  {
    var ratio := rho / rhoend;
    QuotientAbove(rho, rhoend, 16.0);
    QuotientAbove(rho, rhoend, 250.0);
    if 16.0 < ratio <= 250.0 {
      RootBounds(root, ratio);
      ScaleStrict(root, 1.0, rhoend);
    }
  }

  /** The radius after a trust-region step with reduction ratio ratio and
      step length dnorm (bobyqb_calc_with_xnew, bobyqa.c:1074-1083). */
  function RatioTestDelta(ratio: real, delta: real, dnorm: real, rho: real): (r: real)
    ensures r == rho || r > 1.5 * rho
    ensures rho > 0.0 ==> r >= rho
    ensures ratio <= 0.1 ==> r == rho || r <= dnorm
    ensures 0.1 < ratio <= 0.7 ==> r == rho || r >= dnorm
    ensures ratio > 0.7 ==> r == rho || r >= 2.0 * dnorm
  {
    var d :=
      if ratio <= 0.1 then Min(0.5 * delta, dnorm)
      else if ratio <= 0.7 then Max(0.5 * delta, dnorm)
      else Max(0.5 * delta, dnorm + dnorm);
    if d <= 1.5 * rho then rho else d
  }
}
