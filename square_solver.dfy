/** The quadratic-equation solver `SolveSquare` of hw1final.c.

    For `a*x^2 + b*x + c == 0` the solver returns a root count
    (0 = no roots, 1 = one root, 2 = two roots, 3 = every real is a root)
    and writes up to two roots through two out-pointers. Here the count and
    the roots are first described by a pure classification `Classify`, whose
    exactness against the solution set of the equation is proved; the method
    `SolveSquare` then mirrors the C branching and out-parameter writes and
    is proved against that classification. Coefficients are exact reals. */
module SquareSolver {
  import opened RealSqrt

  /** The outcome of solving one equation. */
  datatype Roots =
    | NoRoots
    | OneRoot(x: real)
    | TwoRoots(x1: real, x2: real)
    | AllReals

  /** `x` solves `a*x^2 + b*x + c == 0`. */
  ghost predicate IsRoot(a: real, b: real, c: real, x: real)
  {
    a * x * x + b * x + c == 0.0
  }

  /** `r` lists exactly the real solutions of the equation: none, one,
      two distinct ones, or all of them. */
  ghost predicate ListsSolutions(a: real, b: real, c: real, r: Roots)
  {
    match r
    case NoRoots => forall x :: !IsRoot(a, b, c, x)
    case OneRoot(x0) => forall x :: IsRoot(a, b, c, x) <==> x == x0
    case TwoRoots(x1, x2) =>
      x1 != x2 && forall x :: IsRoot(a, b, c, x) <==> x == x1 || x == x2
    case AllReals => forall x :: IsRoot(a, b, c, x)
  }

  function Discriminant(a: real, b: real, c: real): (d: real)
  {
    b * b - 4.0 * a * c
  }

  /** The root count the C function returns for each outcome. */
  function RootCount(r: Roots): (n: int)
    ensures 0 <= n <= 3
    ensures n == 0 <==> r.NoRoots?
    ensures n == 1 <==> r.OneRoot?
    ensures n == 2 <==> r.TwoRoots?
    ensures n == 3 <==> r.AllReals?
  {
    match r
    case NoRoots => 0
    case OneRoot(_) => 1
    case TwoRoots(_, _) => 2
    case AllReals => 3
  }

  /** The case split of SolveSquare, in the same order: leading coefficient
      zero, then linear coefficient zero, then constant zero; otherwise the
      sign of the discriminant. The root taken with the positive square root
      comes first. */
  function Classify(a: real, b: real, c: real, sqrt: real -> real): (r: Roots)
    ensures r.AllReals? <==> a == 0.0 && b == 0.0 && c == 0.0
    ensures r.OneRoot? <==> (a == 0.0 && b != 0.0) || (a != 0.0 && Discriminant(a, b, c) == 0.0)
    ensures r.TwoRoots? <==> a != 0.0 && Discriminant(a, b, c) > 0.0
    ensures r.OneRoot? && a == 0.0 ==> b * r.x + c == 0.0
    ensures r.OneRoot? && a != 0.0 ==> 2.0 * a * r.x + b == 0.0
  {
    if a == 0.0 then
      if b == 0.0 then
        if c == 0.0 then AllReals else NoRoots
      else
        OneRoot(-c / b)
    else
      var d := Discriminant(a, b, c);
      if d < 0.0 then NoRoots
      else if d == 0.0 then OneRoot(-b / (2.0 * a))
      else TwoRoots((-b + sqrt(d)) / (2.0 * a), (-b - sqrt(d)) / (2.0 * a))
  }

  /** The contents of the two out-slots after the call, given what they held
      before: a linear equation writes only the first slot, a repeated root
      writes both with the same value, two roots write both, and the other
      outcomes write neither. */
  function SlotsAfter(a: real, r: Roots, x1in: real, x2in: real): (slots: (real, real))
    ensures r.NoRoots? || r.AllReals? ==> slots == (x1in, x2in)
    ensures r.OneRoot? && a == 0.0 ==> slots == (r.x, x2in)
    ensures r.OneRoot? && a != 0.0 ==> slots.0 == slots.1 == r.x
    ensures r.TwoRoots? ==> slots == (r.x1, r.x2)
  {
    match r
    case NoRoots => (x1in, x2in)
    case AllReals => (x1in, x2in)
    case OneRoot(x) => if a == 0.0 then (x, x2in) else (x, x)
    case TwoRoots(x1, x2) => (x1, x2)
  }

  /** Linear case: `b*x + c == 0` with `b != 0` has exactly the root `-c/b`. */
  lemma LinearRoot(b: real, c: real)
    requires b != 0.0
    ensures ListsSolutions(0.0, b, c, OneRoot(-c / b))
  {
  }

  /** A non-zero factor cancels. */
  lemma Cancel(k: real, x: real, y: real)
    requires k != 0.0 && k * x == k * y
    ensures x == y
  {
  }

  /** A product is zero only when a factor is. */
  lemma ProductZero(u: real, v: real)
    requires u * v == 0.0
    ensures u == 0.0 || v == 0.0
  {
  }

  /** `4a` times the quadratic is the completed square minus the discriminant. */
  lemma CompletedSquare(a: real, b: real, c: real, x: real)
    ensures 4.0 * a * (a * x * x + b * x + c)
            == (2.0 * a * x + b) * (2.0 * a * x + b) - Discriminant(a, b, c)
  {
  }

  /** A negative discriminant leaves no real root. */
  lemma NegativeDiscriminantNoRoot(a: real, b: real, c: real)
    requires a != 0.0
    requires Discriminant(a, b, c) < 0.0
    ensures ListsSolutions(a, b, c, NoRoots)
  {
    forall x
      ensures !IsRoot(a, b, c, x)
    {
      CompletedSquare(a, b, c, x);
      var t := 2.0 * a * x + b;
      assert t * t >= 0.0;
      assert 4.0 * a * (a * x * x + b * x + c) > 0.0;
    }
  }

  /** A zero discriminant leaves exactly the repeated root `-b/(2a)`. */
  lemma ZeroDiscriminantRoot(a: real, b: real, c: real)
    requires a != 0.0
    requires Discriminant(a, b, c) == 0.0
    ensures ListsSolutions(a, b, c, OneRoot(-b / (2.0 * a)))
  {
    var x0 := -b / (2.0 * a);
    forall x
      ensures IsRoot(a, b, c, x) <==> x == x0
    {
      CompletedSquare(a, b, c, x);
      var t := 2.0 * a * x + b;
      var p := a * x * x + b * x + c;
      assert 4.0 * a * p == t * t;
      assert 2.0 * a * x0 == -b;
      if IsRoot(a, b, c, x) {
        assert t * t == 0.0;
        ProductZero(t, t);
        Cancel(2.0 * a, x, x0);
      }
      if x == x0 {
        assert 4.0 * a * p == 4.0 * a * 0.0;
        Cancel(4.0 * a, p, 0.0);
      }
    }
  }

  /** With `s*s` equal to the discriminant, the quadratic factors through
      the two roots `(-b +- s)/(2a)`. */
  lemma Factorisation(a: real, b: real, c: real, s: real, x: real)
    requires a != 0.0
    requires s * s == Discriminant(a, b, c)
    ensures a * x * x + b * x + c
            == a * (x - (-b + s) / (2.0 * a)) * (x - (-b - s) / (2.0 * a))
  {
  }

  /** A positive discriminant leaves exactly two distinct roots, the one
      taken with the positive square root first. */
  lemma PositiveDiscriminantRoots(a: real, b: real, c: real, sqrt: real -> real)
    requires IsSqrt(sqrt)
    requires a != 0.0
    requires Discriminant(a, b, c) > 0.0
    ensures var s := sqrt(Discriminant(a, b, c));
            ListsSolutions(a, b, c, TwoRoots((-b + s) / (2.0 * a), (-b - s) / (2.0 * a)))
  {
    var d := Discriminant(a, b, c);
    var s := sqrt(d);
    SqrtPositive(sqrt, d);
    var r1 := (-b + s) / (2.0 * a);
    var r2 := (-b - s) / (2.0 * a);
    assert r1 != r2 by {
      assert 2.0 * a * r1 - 2.0 * a * r2 == 2.0 * s;
    }
    forall x
      ensures IsRoot(a, b, c, x) <==> x == r1 || x == r2
    {
      Factorisation(a, b, c, s, x);
      var p := (x - r1) * (x - r2);
      assert a * x * x + b * x + c == a * p;
      assert a * p == 0.0 <==> p == 0.0;
      if p == 0.0 {
        ProductZero(x - r1, x - r2);
      }
    }
  }

  /** The classification is exact: it lists precisely the real solutions of
      the equation, so the returned count is the number of roots. */
  lemma ClassifyIsExact(a: real, b: real, c: real, sqrt: real -> real)
    requires IsSqrt(sqrt)
    ensures ListsSolutions(a, b, c, Classify(a, b, c, sqrt))
  {
    if a == 0.0 {
      if b != 0.0 {
        LinearRoot(b, c);
      } else {
        assert forall x :: IsRoot(a, b, c, x) <==> c == 0.0;
      }
    } else {
      var d := Discriminant(a, b, c);
      if d < 0.0 {
        NegativeDiscriminantNoRoot(a, b, c);
      } else if d == 0.0 {
        ZeroDiscriminantRoot(a, b, c);
      } else {
        PositiveDiscriminantRoots(a, b, c, sqrt);
      }
    }
  }

  /** With two roots, the one from the positive square root is the larger
      when `a > 0` and the smaller when `a < 0`. */
  lemma TwoRootsOrder(a: real, b: real, c: real, sqrt: real -> real)
    requires IsSqrt(sqrt)
    requires Classify(a, b, c, sqrt).TwoRoots?
    ensures a > 0.0 ==> Classify(a, b, c, sqrt).x1 > Classify(a, b, c, sqrt).x2
    ensures a < 0.0 ==> Classify(a, b, c, sqrt).x1 < Classify(a, b, c, sqrt).x2
  {
  }

  /** Only the slots the call does not write keep their incoming values;
      whatever is written depends on the coefficients alone. */
  lemma SlotsIndependentOfInput(a: real, r: Roots, p1: real, p2: real, q1: real, q2: real)
    ensures var (u1, u2) := SlotsAfter(a, r, p1, p2);
            var (v1, v2) := SlotsAfter(a, r, q1, q2);
            ((u1 == p1 && v1 == q1) || u1 == v1) && ((u2 == p2 && v2 == q2) || u2 == v2)
  {
  }

  /** hw1final.c's SolveSquare. The incoming slot values are `x1in` and
      `x2in`; the returned `x1` and `x2` are the slots after the call. The
      math-library square root is passed in as `sqrt`. */
  method SolveSquare(a: real, b: real, c: real, x1in: real, x2in: real, sqrt: real -> real)
    returns (n: int, x1: real, x2: real)
    requires IsSqrt(sqrt)
    ensures n == RootCount(Classify(a, b, c, sqrt))
    ensures n != -1
    ensures (x1, x2) == SlotsAfter(a, Classify(a, b, c, sqrt), x1in, x2in)
  {
    x1, x2 := x1in, x2in;
    if a == 0.0 {
      if b == 0.0 {
        return if c == 0.0 then 3 else 0, x1, x2;
      } else {
        x1 := -c / b;
        return 1, x1, x2;
      }
    } else {
      var d := b * b - 4.0 * a * c;
      if d < 0.0 {
        return 0, x1, x2;
      } else if d == 0.0 {
        x2 := -b / (2.0 * a);
        x1 := x2;
        return 1, x1, x2;
      } else if d > 0.0 {
        x1 := (-b + sqrt(d)) / (2.0 * a);
        x2 := (-b - sqrt(d)) / (2.0 * a);
        return 2, x1, x2;
      }
    }
    n := -1;
  }
}
