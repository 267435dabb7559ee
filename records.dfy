/**
 * The values every root-finding method produces: one record per loop step,
 * the final result that bundles them, and the ways a solve can fail.
 */
module Records {

  /** One loop step. The constructor plays the part of `_build_iteration`:
      the four dictionary keys become the four fields. For fixed-point
      iteration `fxn` holds the displacement `g(x) - x` instead of a residual. */
  datatype Iteration = Iteration(iteration: nat, xn: real, fxn: real, error: real)

  /** The outcome of a solve that did not raise: all records in order, the
      final estimate, its error metric and the number of steps taken. */
  datatype MethodResult = MethodResult(iterations: seq<Iteration>, root: real, error: real, iterationsUsed: nat)

  /** The `ValueError`s the solvers raise, plus the `ZeroDivisionError` an
      unchecked division would raise if it were ever reached. */
  datatype SolveError =
    | InvalidBracket      // f(a) and f(b) do not have opposite signs
    | ZeroDenominator     // a secant slope with a zero denominator
    | ZeroDerivative      // Newton-Raphson met f'(x) == 0
    | InvalidParameter    // modified secant called with delta == 0
    | DivisionByZero      // an unguarded division by zero

  datatype Result<T> = Ok(value: T) | Err(error: SolveError)

  /** Which error metrics the stopping test looks at. */
  datatype StopRule =
    | DisplacementOrResidual  // stop when error < tol or |f(xn)| < tol
    | DisplacementOnly        // fixed point: stop when error < tol

  function Abs(x: real): (r: real)
    ensures r >= 0.0 && (r == x || r == -x)
  {
    if x < 0.0 then -x else x
  }

  /** The stopping test a solver applies to the record it has just appended. */
  predicate Stops(rec: Iteration, tol: real, rule: StopRule)
  {
    rec.error < tol || (rule == DisplacementOrResidual && Abs(rec.fxn) < tol)
  }

  /** Records carry the consecutive 1-based indices 1, 2, ..., |its|. */
  predicate Numbered(its: seq<Iteration>)
  {
    forall i :: 0 <= i < |its| ==> its[i].iteration == i + 1
  }

  /** The bookkeeping every returned result keeps: at least one and at most
      `maxIter` records, numbered consecutively, `iterationsUsed` equal to
      their count and to the last index, and root and error copied from the
      last record. */
  predicate Bookkeeping(r: MethodResult, maxIter: nat)
  {
    1 <= r.iterationsUsed <= maxIter &&
    |r.iterations| == r.iterationsUsed &&
    Numbered(r.iterations) &&
    r.iterations[|r.iterations| - 1].iteration == r.iterationsUsed &&
    r.root == r.iterations[|r.iterations| - 1].xn &&
    r.error == r.iterations[|r.iterations| - 1].error
  }

  /** The solver stops at the first record that passes the stopping test:
      no earlier record passes it, and a result that used fewer than
      `maxIter` steps ends on a record that does. */
  predicate StopsAtFirstConverged(r: MethodResult, tol: real, rule: StopRule, maxIter: nat)
    requires Bookkeeping(r, maxIter)
  {
    (forall i :: 0 <= i < |r.iterations| - 1 ==> !Stops(r.iterations[i], tol, rule)) &&
    (r.iterationsUsed < maxIter ==> Stops(r.iterations[|r.iterations| - 1], tol, rule))
  }

  predicate WellFormed(r: MethodResult, tol: real, rule: StopRule, maxIter: nat)
  {
    Bookkeeping(r, maxIter) && StopsAtFirstConverged(r, tol, rule, maxIter)
  }
}
