# Root-finding solvers of the Zero of Functions (ZOF) tool, in Dafny

This project models `methods.py`, the numerical core of the ZOF solver:

- the six iterative root finders `bisection`, `regula_falsi`, `secant`,
  `newton_raphson`, `fixed_point` and `modified_secant`;
- the per-step record that `_build_iteration` builds, and the
  `MethodResult` that each solver returns;
- the empty-input check at the start of `parse_function`.

Numbers are `real`. The user's function, its derivative, and the `g` of
fixed-point iteration are total `real -> real` parameters.

Modules:

- `Records` (records.dfy) holds the values every solver produces:
  - `Iteration` is one record. Its constructor plays the part of
    `_build_iteration`.
  - `MethodResult` is the datatype of the returned result.
  - `SolveError` lists the failure kinds: the `ValueError`s the solvers
    raise, plus `DivisionByZero` for the one unguarded division.
  - `Stops` is the stopping test.
  - `Bookkeeping` and `StopsAtFirstConverged` (combined in `WellFormed`)
    state what every returned result satisfies.
- `Steps` (steps.dfy) gives one loop step of each solver as a function. A
  `Solver` value is a solver between two iterations: its method, the
  functions it calls, and its working variables (`a, b, fa, fb`, the
  `prev, curr` window, or `current`).
- `Protocol` (protocol.dfy) holds `Run`, the loop shared by all six solvers,
  written as a function:
  - iterations go from 1 to `max_iter`;
  - each iteration appends one record;
  - the solve returns at the first record that passes the stopping test;
  - otherwise it returns the last estimate with `iterationsUsed == maxIter`.

  `RunWellFormed` proves the bookkeeping once for every solver.
- `Bracketing` (bracketing.dfy) and `OpenMethods` (open_methods.dfy) each
  have, per solver:
  - a reference function `<Solver>Spec`;
  - a `method` whose `for` loop follows the Python loop statement by
    statement, and whose postcondition says it returns exactly
    `<Solver>Spec`;
  - lemmas about `<Solver>Spec`: bracket and sign invariants, error halving,
    how the records trace the update rule, and the failure conditions in
    both directions.
- `Expression` (expression.dfy) models `str.strip()`, using the whitespace
  set of Python's `str.isspace()`, and the empty check of `parse_function`.

Neither bracketing method promises convergence. When `max_iter` is used up,
the code returns the last estimate as it stands (methods.py:86,
methods.py:113), whether or not it passes the stopping test:

- `Bracketing.BisectionBudgetCanRunOut` gives a valid bracket whose run
  ends without converging.
- `Bracketing.BisectionConvergesWithinBudget` gives the budget that is
  enough for bisection.

## Model

| member | source | states |
|---|---|---|
| Steps.Narrow | methods.py:79-84 | no contract: the definition of the bracket update both bracketing loops share (b and fb become c and fc when fa*fc < 0, otherwise a and fa do); proved about in `NarrowKeepsSignChange` and `NarrowKeepsStraddle` |
| Steps.BisectionStep | methods.py:71-84 | no contract: the definition of one bisection iteration (midpoint c, fc = f(c), error \|b - a\| / 2, then `Narrow`); proved about in `BisectionKeepsSignChange` and `BisectionHalvesBracket` |
| Steps.RegulaFalsiStep | methods.py:98-111 | no contract: the definition of one regula falsi iteration (c = (a*fb - b*fa)/(fb - fa), fc = f(c), error \|fc\|, then `Narrow`), with a zero denominator reported as `DivisionByZero`; proved unreachable in `RegulaFalsiKeepsStraddle` |
| Steps.SecantStep | methods.py:122-135 | no contract: the definition of one secant iteration (`ZeroDenominator` when f(curr) == f(prev), else the chord zero, error \|next - curr\|, window moved on); proved about in `SecantFollowsChords` |
| Steps.MoveAt | methods.py:145-193 | no contract: the definition of where Newton's tangent (`ZeroDerivative` when f'(x) == 0), fixed-point iteration (g(x), recording g(x) - x) and the modified secant (`ZeroDenominator` when f(x + delta*x) == f(x)) move from x (methods.py:145-150, 167-169 and 188-193); proved about in the `*Follows*` lemmas |
| Steps.PointStep | methods.py:150-200 | no contract: the definition of one single-point iteration of Newton-Raphson, fixed-point iteration and the modified secant (methods.py:150-157, 168-175 and 193-200): a failing move raises, otherwise the record carries error \|next - x\| and the loop continues from next |
| Protocol.Run | methods.py:70-86 | no contract: the definition of the shared loop: iteration k takes the solver's next step (`Continue` does the rest); proved about in `RunWellFormed` |
| Protocol.Continue | methods.py:74-86 | no contract: the definition of what follows a step: a failure is returned, otherwise the record numbered k is appended, the solve returns if it passes the stopping test, returns the last estimate after iteration maxIter, and runs iteration k + 1 otherwise |
| Bracketing.BisectionSpec | methods.py:63-86 | no contract: the reference definition of `bisection` (`InvalidBracket` when f(a)*f(b) >= 0, else `Solve` from the bracket); the loop `Bisection` is proved equal to it |
| Bracketing.RegulaFalsiSpec | methods.py:89-113 | no contract: the reference definition of `regula_falsi` (`InvalidBracket` when f(a)*f(b) >= 0, else `Solve` from the bracket); the loop `RegulaFalsi` is proved equal to it |
| OpenMethods.SecantSpec | methods.py:116-137 | no contract: the reference definition of `secant` (`Solve` from the window (x0, x1)); the loop `Secant` is proved equal to it |
| OpenMethods.NewtonSpec | methods.py:140-159 | no contract: the reference definition of `newton_raphson` (`Solve` from x0 with the tangent move); the loop `NewtonRaphson` is proved equal to it |
| OpenMethods.FixedPointSpec | methods.py:162-177 | no contract: the reference definition of `fixed_point` (`Solve` from x0 iterating g, with the displacement-only stopping test); the loop `FixedPoint` is proved equal to it |
| OpenMethods.ModifiedSecantSpec | methods.py:180-202 | no contract: the reference definition of `modified_secant` (`InvalidParameter` when delta == 0, else `Solve` from x0 with the perturbed-slope move); the loop `ModifiedSecant` is proved equal to it |
| Protocol.Solve | methods.py:69-86 | every result a solve returns has 1..maxIter records numbered 1, 2, ..., `iterationsUsed` equal to their count and to the last index, root and error copied from the last record, no record before the last passing the stopping test, and a passing last record whenever it stopped before maxIter |
| Protocol.RunWellFormed | methods.py:70-86 | the induction behind `Solve`: a run continued from unstopped, consecutively numbered records returns a well-formed result that extends them |
| Bracketing.Bisection | methods.py:63-86 | the loop returns exactly `BisectionSpec`; it fails, with `InvalidBracket`, exactly when f(a)*f(b) >= 0; every result is well formed; with tol > 0 the loop keeps f(a)*f(b) < 0 |
| Bracketing.BisectionOutcome | methods.py:64-67 | `bisection` fails exactly when f(a)*f(b) >= 0, then with `InvalidBracket` and before any record; otherwise its result is well formed |
| Bracketing.NarrowKeepsSignChange | methods.py:79-84 | replacing b (when fa*fc < 0) or a (otherwise) by a point c with f(c) != 0 keeps fa*fb < 0 |
| Bracketing.BisectionKeepsSignChange | methods.py:76-84 | with tol > 0, a bisection step that does not stop leads to a bracket that still has fa*fb < 0 (f(c) == 0 always stops) |
| Bracketing.BisectionHalvesBracket | methods.py:71-73 | record i carries error \|b - a\| / 2^(i+1); every midpoint and the returned root lie in [min(a, b), max(a, b)]; the returned error is \|b - a\| / 2^iterationsUsed |
| Bracketing.BisectionEnclosesSignChange | methods.py:71-84 | with tol > 0, f changes sign between xn - error and xn + error for every record and for the returned root |
| Bracketing.BisectionConvergesWithinBudget | methods.py:70-77 | if \|b - a\| < tol * 2^k for some k <= maxIter, the solve stops by iteration k and its result passes the stopping test |
| Bracketing.BisectionBudgetCanRunOut | methods.py:70-86 | a concrete valid bracket whose one-iteration solve returns a record that does not pass the stopping test |
| Bracketing.FalsePositionBetween | methods.py:98 | when fb != 0 and fa*fb <= 0, the denominator fb - fa is nonzero and c = (a*fb - b*fa)/(fb - fa) lies between a and b (and is a when fa == 0) |
| Bracketing.RegulaFalsi | methods.py:89-113 | the loop returns exactly `RegulaFalsiSpec`; it fails, with `InvalidBracket`, exactly when f(a)*f(b) >= 0; every result is well formed; the loop keeps fb != 0 and fa*fb <= 0, so its unguarded division is never by zero |
| Bracketing.RegulaFalsiKeepsStraddle | methods.py:98-111 | from a bracket with fb != 0 and fa*fb <= 0, a step never divides by zero, its point lies between a and b, and the updated bracket lies inside the old one and keeps both conditions |
| Bracketing.RegulaFalsiKeepsSignChange | methods.py:103-111 | with tol > 0, a regula falsi step that does not stop keeps fa*fb < 0 |
| Bracketing.RegulaFalsiStaysInBracket | methods.py:95-113 | from a valid bracket the solve never fails; every estimate and the returned root lie in the original bracket; each record holds f(xn) with error \|f(xn)\| |
| OpenMethods.Secant | methods.py:116-137 | the loop returns exactly `SecantSpec`; it can fail only with `ZeroDenominator`, and does so at once when f(x1) == f(x0); every result is well formed |
| OpenMethods.SecantFollowsChords | methods.py:121-135 | each record is the chord step from the two most recent estimates, starting from (x0, x1): nonzero denominator, xn = q - f(q)(q - p)/(f(q) - f(p)), fxn = f(xn), error \|xn - q\|; a failure happens at a window the unstopped run reached where f(q) == f(p) |
| OpenMethods.SecantFailsAtFlatChord | methods.py:122-126 | conversely, a run whose unstopped records reach a window with f(q) == f(p) fails with `ZeroDenominator` |
| OpenMethods.NewtonRaphson | methods.py:140-159 | the loop returns exactly `NewtonSpec`; it can fail only with `ZeroDerivative`, and does so at once when f'(x0) == 0; every result is well formed |
| OpenMethods.NewtonFollowsTangents | methods.py:144-157 | each record is the tangent step from the previous estimate (x0 first), taken where f'(x) != 0: xn = x - f(x)/f'(x), fxn = f(xn), error \|xn - x\|; a failure happens at an estimate the unstopped run reached where f'(x) == 0 |
| OpenMethods.NewtonFailsAtFlatPoint | methods.py:145-148 | conversely, a run whose unstopped records reach an estimate with f'(x) == 0 fails with `ZeroDerivative` |
| OpenMethods.FixedPoint | methods.py:162-177 | the loop returns exactly `FixedPointSpec`, never fails, and its result is well formed under the displacement-only stopping test |
| OpenMethods.FixedPointFollowsG | methods.py:166-175 | each record holds xn = g(x) for the previous estimate x (x0 first), fxn = g(x) - x and error \|fxn\| |
| OpenMethods.ModifiedSecant | methods.py:180-202 | the loop returns exactly `ModifiedSecantSpec`; delta == 0 fails with `InvalidParameter` before any iteration; otherwise it can fail only with `ZeroDenominator`; every result is well formed |
| OpenMethods.ModifiedSecantFollowsSlopes | methods.py:187-200 | each record is the perturbed-slope step from the previous estimate: f(x + delta*x) - f(x) != 0, xn = x - delta*x*f(x)/(f(x + delta*x) - f(x)), fxn = f(xn), error \|xn - x\|; with delta != 0 a failure happens at an estimate the unstopped run reached where that denominator is zero |
| OpenMethods.ModifiedSecantFailsAtFlatSlope | methods.py:188-191 | conversely, with delta != 0, a run whose unstopped records reach an estimate with a zero denominator fails with `ZeroDenominator` |
| OpenMethods.ModifiedSecantFailsFromZero | methods.py:189-191 | started from x0 = 0 with delta != 0 the solve fails at once with `ZeroDenominator` whatever f is, because the perturbation delta*x vanishes |
| Expression.Strip | methods.py:29 | the stripped text is empty exactly when the input is all whitespace, and otherwise starts and ends on a non-whitespace character |
| Expression.StripIsSlice | methods.py:29 | the stripped text is a slice of the input with only whitespace before and after it |
| Expression.StripUnique | methods.py:29 | any such slice with non-whitespace ends is the stripped text |
| Expression.StripIdempotent | methods.py:29 | stripping twice gives the same text as stripping once |
| Expression.ParseFunction | methods.py:29-31 | the expression is refused as empty exactly when it is all whitespace; otherwise the text handed on is its strip, non-empty, with non-whitespace ends |
| Expression.ParseIgnoresSurroundingWhitespace | methods.py:29-31 | adding whitespace before or after an expression never changes the outcome |

## Left out

- `parse_function` after the empty check (methods.py:33-51) hands the text
  to Python's `compile` and `eval` over the `math` namespace. Their meaning
  is outside the model, so the parsed function is a `real -> real`
  parameter.
- Errors raised while evaluating the user's function, and complex results,
  are not modelled: the functions are total.
- IEEE floating point is not modelled: rounding, NaN, infinities, and
  overflow in `f(a)*f(b)`. All properties hold over exact reals.
- `max_iter <= 0` is not modelled. The code would read unbound locals
  there, and both callers pass a positive count, so every solver requires
  `maxIter >= 1`.
- `tol` is not validated by the code and not constrained by the model. The
  sign-change lemmas assume `tol > 0`. With `tol <= 0`, f(c) == 0 can reach
  the bracket update.
- Secant, Newton-Raphson and modified secant evaluate `func(next_x)` twice
  per step, once for the record and once for the stopping test. The model
  uses one value, because the functions are pure.
- Convergence rates, and the specific roots of the example scenarios
  (square root of 2, the Dottie number), depend on analysis of particular
  real functions, not on this code.
- The command-line front end `ZOF_CLI.py` and the web front end `app.py`
  are not part of this model. They do prompting, form parsing and
  rendering.
