/** The self-test of hw1final.c: six fixed equations, each solved with both
    out-slots starting at zero, and the count and both slots compared with
    the expected ones. The report printed for each case is not modelled. */
module SquareTests {
  import opened RealSqrt
  import opened SquareSolver

  /** The outcomes the self-test expects. The three equations with two roots
      have perfect-square discriminants (720^2, 45^2 and 624^2), so their
      roots are exact. */
  lemma SquareTestVectors(sqrt: real -> real)
    requires IsSqrt(sqrt)
    ensures Classify(0.0, 0.0, 0.0, sqrt) == AllReals
    ensures Classify(1.0, 1.0, 1.0, sqrt) == NoRoots
    ensures Classify(1.0, 2.0, 1.0, sqrt) == OneRoot(-1.0)
    ensures Classify(288.0, -1296.0, 1008.0, sqrt) == TwoRoots(3.5, 1.0)
    ensures Classify(1.0, -53.0, 196.0, sqrt) == TwoRoots(49.0, 4.0)
    ensures Classify(25.0, 626.0, 25.0, sqrt) == TwoRoots(-0.04, -25.0)
  {
    assert Discriminant(288.0, -1296.0, 1008.0) == 720.0 * 720.0;
    SqrtOfSquare(sqrt, 720.0);
    assert Discriminant(1.0, -53.0, 196.0) == 45.0 * 45.0;
    SqrtOfSquare(sqrt, 45.0);
    assert Discriminant(25.0, 626.0, 25.0) == 624.0 * 624.0;
    SqrtOfSquare(sqrt, 624.0);
  }

  /** One case of the self-test: both slots start at zero, and the case
      passes when the count and both slots are the expected ones. */
  method UnitTestSquare(a: real, b: real, c: real, nroot: int, res1: real, res2: real,
                        sqrt: real -> real)
    returns (ok: bool)
    requires IsSqrt(sqrt)
    ensures ok <==> RootCount(Classify(a, b, c, sqrt)) == nroot
                    && SlotsAfter(a, Classify(a, b, c, sqrt), 0.0, 0.0) == (res1, res2)
  {
    var nres, x1, x2 := SolveSquare(a, b, c, 0.0, 0.0, sqrt);
    ok := nres == nroot && x1 == res1 && x2 == res2;
  }

  /** The whole self-test passes in exact arithmetic. */
  method SquareTest(sqrt: real -> real) returns (passed: bool)
    requires IsSqrt(sqrt)
    ensures passed
  {
    SquareTestVectors(sqrt);
    var ok1 := UnitTestSquare(0.0, 0.0, 0.0, 3, 0.0, 0.0, sqrt);
    var ok2 := UnitTestSquare(1.0, 1.0, 1.0, 0, 0.0, 0.0, sqrt);
    var ok3 := UnitTestSquare(1.0, 2.0, 1.0, 1, -1.0, -1.0, sqrt);
    var ok4 := UnitTestSquare(288.0, -1296.0, 1008.0, 2, 3.5, 1.0, sqrt);
    var ok5 := UnitTestSquare(1.0, -53.0, 196.0, 2, 49.0, 4.0, sqrt);
    var ok6 := UnitTestSquare(25.0, 626.0, 25.0, 2, -0.04, -25.0, sqrt);
    passed := ok1 && ok2 && ok3 && ok4 && ok5 && ok6;
  }
}
