/** The square root that the solver takes from the C maths library.
    Its implementation is not part of this model: callers pass some
    function on reals and promise that it behaves as an exact square root
    on every non-negative argument. */
module RealSqrt {

  /** `sqrt` returns the non-negative square root of every non-negative real. */
  ghost predicate IsSqrt(sqrt: real -> real)
  {
    forall d :: d >= 0.0 ==> sqrt(d) >= 0.0 && sqrt(d) * sqrt(d) == d
  }

  /** An exact square root is determined by its square: it gives back any
      non-negative `r` from `r * r`. */
  lemma SqrtOfSquare(sqrt: real -> real, r: real)
    requires IsSqrt(sqrt)
    requires r >= 0.0
    ensures sqrt(r * r) == r
  {
    var s := sqrt(r * r);
    SquareInjective(s, r);
  }

  /** Two non-negative reals with equal squares are equal. */
  lemma SquareInjective(s: real, r: real)
    requires s >= 0.0 && r >= 0.0 && s * s == r * r
    ensures s == r
  {
    var gap := (s - r) * (s + r);
    assert gap == s * s - r * r;
    if s > r {
      MulPositive(s - r, s + r);
    } else if s < r {
      MulPositive(r - s, r + s);
    }
  }

  /** A product of positives is positive. */
  lemma MulPositive(u: real, v: real)
    requires u > 0.0 && v > 0.0
    ensures u * v > 0.0
  {
  }

  /** The square root of a positive number is positive. */
  lemma SqrtPositive(sqrt: real -> real, d: real)
    requires IsSqrt(sqrt)
    requires d > 0.0
    ensures sqrt(d) > 0.0
  {
  }
}
