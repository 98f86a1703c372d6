# Quadratic-equation solver, modelled in Dafny

This project models `SolveSquare` from `hw1final.c`. The function takes the
coefficients `a`, `b`, `c` of `a*x^2 + b*x + c = 0`. It returns a root count:
0 for no roots, 1 for one root, 2 for two roots, and 3 when every real number
is a root. It writes up to two roots through two out-pointers, `x1` and `x2`.
The project also models the program's self-test `SquareTest`.

The model has three modules:

- `RealSqrt` (`real_sqrt.dfy`): the contract of the C library `sqrt`. The
  ghost predicate `IsSqrt(sqrt)` says that a function on reals returns the
  non-negative square root of every non-negative argument.
- `SquareSolver` (`square_solver.dfy`):
  - the datatype `Roots` (`NoRoots`, `OneRoot`, `TwoRoots`, `AllReals`);
  - the pure classification `Classify`, which follows the C case split in
    the same order;
  - `RootCount`, which maps an outcome to the integer the C function returns;
  - `SlotsAfter`, which gives what the two out-slots hold after the call;
  - the method `SolveSquare`, which mirrors the C code and its out-parameter
    writes;
  - lemmas proving that `Classify` lists exactly the real solutions of the
    equation (`ListsSolutions`), and how the two roots are ordered.
- `SquareTests` (`square_test.dfy`): the six fixed equations of the
  self-test, the per-case comparison `UnitTestSquare`, and `SquareTest`.

Coefficients and roots are exact Dafny `real`s. The model therefore states
the intended exact-arithmetic behaviour of the branching, not IEEE-754
rounding.

The square root is not defined in the model, because Dafny cannot construct
a real square root. It enters as an explicit hypothesis rather than as an
axiom. Every member that uses it takes the function as a parameter
`sqrt: real -> real`. Every lemma and method that needs its contract requires
`IsSqrt(sqrt)`. This is how the call to `sqrt` from `<math.h>` enters the
model.

The C interface (a count plus two out-slots) and the tagged outcome
`Roots` are both modelled. `SolveSquare` is proved to return
`RootCount(Classify(...))`. The slots it returns are proved to equal
`SlotsAfter(a, Classify(...), x1in, x2in)`. As a result, slots the C code does
not write come back with their incoming values (`x1in`, `x2in`).

## Model

| member | source | states |
|---|---|---|
| `SquareSolver.SolveSquare` | hw1final.c:18-60 | Returns a count that is never -1 and equals `RootCount` of the classification. The out-slots after the call are given by `SlotsAfter`. No roots or all reals: both slots keep their incoming values. Linear case: only `x1` is written. Repeated root: both slots get the same value. Two roots: `x1` gets the positive-square-root branch and `x2` the negative one. |
| `SquareSolver.RootCount` | hw1final.c:29-57 | The returned count is always one of 0, 1, 2 or 3. It is 0 for no roots, 1 for one root, 2 for two roots and 3 when every real is a root, each in both directions. |
| `SquareSolver.Classify` | hw1final.c:29-58 | The C case split, in source order. Every real is a root exactly when `a`, `b` and `c` are all zero. There is one root exactly in the linear case (`a == 0`, `b != 0`) or when `a != 0` and the discriminant is zero. There are two roots exactly when `a != 0` and the discriminant is positive. A linear root solves `b*x + c == 0`, and a repeated root solves `2a*x + b == 0`. `ClassifyIsExact` proves the whole outcome exact. |
| `SquareSolver.SlotsAfter` | hw1final.c:29-57 | The out-pointer write rule. The linear case writes only `x1`. A repeated root writes both slots with the same value. Two roots write `x1` and `x2`. No roots and all reals write neither slot. |
| `SquareSolver.ClassifyIsExact` | hw1final.c:29-58 | For every `a`, `b`, `c`, the outcome lists exactly the real solutions of `a*x^2 + b*x + c = 0`. The returned count is therefore the number of roots, and 3 means every real solves the equation. |
| `SquareSolver.LinearRoot` | hw1final.c:35-39 | With `a == 0` and `b != 0`, `-c/b` is a root and the only one. |
| `SquareSolver.NegativeDiscriminantNoRoot` | hw1final.c:43-45 | With `a != 0` and `b^2 - 4ac < 0`, no real `x` solves the equation. |
| `SquareSolver.ZeroDiscriminantRoot` | hw1final.c:46-50 | With `a != 0` and a zero discriminant, `-b/(2a)` is a root and the only one. |
| `SquareSolver.PositiveDiscriminantRoots` | hw1final.c:52-57 | With `a != 0` and a positive discriminant, `(-b + sqrt d)/(2a)` and `(-b - sqrt d)/(2a)` are distinct. Both solve the equation, and no other real does. |
| `SquareSolver.TwoRootsOrder` | hw1final.c:52-57 | With two roots, the root from the positive square root is the larger when `a > 0` and the smaller when `a < 0`. |
| `SquareSolver.SlotsIndependentOfInput` | hw1final.c:29-57 | The incoming slot values show up only in slots the call does not write. A written slot holds the same value whatever the slot held before. |
| `RealSqrt.SqrtOfSquare` | hw1final.c:54-55 | An exact square root returns `r` for `r*r` when `r >= 0`. This gives exact roots for equations with perfect-square discriminants. |
| `SquareTests.SquareTestVectors` | hw1final.c:141-149 | The six self-test equations classify as expected: (0,0,0) all reals; (1,1,1) none; (1,2,1) the root -1; (288,-1296,1008) the roots 3.5 and 1; (1,-53,196) the roots 49 and 4; (25,626,25) the roots -0.04 and -25. |
| `SquareTests.UnitTestSquare` | hw1final.c:112-117 | Solves with both slots starting at 0. A case passes exactly when the count and both resulting slots equal the expected ones. |
| `SquareTests.SquareTest` | hw1final.c:141-149 | All six self-test cases pass, including the slot values (0, 0 for the cases that write no slot). |

## Left out

- `PrintRoots` (hw1final.c:76-95) and the messages printed by
  `UnitTestSquare` (hw1final.c:118-128): console formatting only. For the same
  reason the `line` argument of `UnitTestSquare` is not modelled.
- `main` (hw1final.c:151-170): reading the coefficients with `scanf` and
  printing the result. Its check that the count is not -1 (hw1final.c:164)
  matches the `n != -1` postcondition of `SolveSquare`, which holds in exact
  arithmetic only (see the next line).
- IEEE-754 `double` arithmetic: rounding, NaN, infinities, and the `isfinite`
  checks on the coefficients (hw1final.c:21-23). Coefficients are exact reals.
  The `n != -1` postcondition, `ClassifyIsExact` and the lemmas behind it
  therefore hold only in exact arithmetic. With doubles, the fallback
  `return -1` (hw1final.c:59) is reachable for finite coefficients whose
  discriminant overflows. For example, with `a = b = c = 1e200`, `b*b` and
  `4*a*c` are both +inf at hw1final.c:43, so `d` is NaN. All three
  comparisons are then false, and `main` aborts at hw1final.c:164. With
  `a = c = 1` and `b = 1e200`, `d` is +inf, and the function returns 2 with
  infinite "roots".
- The pointer checks `x1 != NULL`, `x2 != NULL` and `x1 != x2`
  (hw1final.c:25-27). The two slots are separate out-parameters, so they
  cannot be null or aliased.
- The implementation of `sqrt` from `<math.h>`: this is a foreign library
  call. It is represented only by its contract, `IsSqrt`, on a function passed
  in as a parameter.
