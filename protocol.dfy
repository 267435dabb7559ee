/**
 * The iteration protocol all six solvers share: for iteration 1..maxIter,
 * compute one estimate, append its record, return as soon as the stopping
 * test holds, otherwise move to the next working state; when the budget is
 * spent, return the last estimate with iterationsUsed == maxIter.
 *
 * `Run` is the reference definition each solver's loop is proved against;
 * a solver only supplies its step (`Steps.Next`).
 */
module Protocol {
  import opened Records
  import opened Steps

  /** Continue a solve at iteration `k` from solver `m`, with the records
      `acc` of iterations 1..k-1 already appended. */
  function Run(m: Solver, tol: real, rule: StopRule, k: nat, maxIter: nat, acc: seq<Iteration>): Result<MethodResult>
    requires 1 <= k <= maxIter
    decreases maxIter - k, 1
  {
    Continue(Next(m), tol, rule, k, maxIter, acc)
  }

  /** What iteration `k` does with the outcome of its step: raise the step's
      error, or append the record and return it when it passes the stopping
      test or the budget is spent, and otherwise run on from the next solver. */
  function Continue(st: Step, tol: real, rule: StopRule, k: nat, maxIter: nat, acc: seq<Iteration>): Result<MethodResult>
    requires 1 <= k <= maxIter
    decreases maxIter - k, 0
  {
    match st
    case Fail(e) => Err(e)
    case Estimate(xn, fxn, error, next) =>
      var rec := Iteration(k, xn, fxn, error);
      if Stops(rec, tol, rule) then Ok(MethodResult(acc + [rec], xn, error, k))
      else if k == maxIter then Ok(MethodResult(acc + [rec], xn, error, maxIter))
      else Run(next, tol, rule, k + 1, maxIter, acc + [rec])
  }

  lemma {:induction false} RunWellFormed(m: Solver, tol: real, rule: StopRule, k: nat, maxIter: nat, acc: seq<Iteration>)
    requires 1 <= k <= maxIter
    requires |acc| == k - 1 && Numbered(acc)
    requires forall i :: 0 <= i < |acc| ==> !Stops(acc[i], tol, rule)
    ensures var r := Run(m, tol, rule, k, maxIter, acc);
            r.Ok? ==> WellFormed(r.value, tol, rule, maxIter) && acc <= r.value.iterations
    decreases maxIter - k
  {
    match Next(m)
    case Fail(_) =>
    case Estimate(xn, fxn, error, next) =>
      var rec := Iteration(k, xn, fxn, error);
      if !Stops(rec, tol, rule) && k < maxIter {
        var acc' := acc + [rec];
        assert forall i :: 0 <= i < |acc'| ==> !Stops(acc'[i], tol, rule) by {
          forall i | 0 <= i < |acc'| ensures !Stops(acc'[i], tol, rule) {
            if i < |acc| { assert acc'[i] == acc[i]; }
          }
        }
        RunWellFormed(next, tol, rule, k + 1, maxIter, acc');
      }
  }

  /** A solve from the initial solver `m0`. Every result it returns keeps
      the bookkeeping and stops at its first converged record. */
  function Solve(m0: Solver, tol: real, rule: StopRule, maxIter: nat): (r: Result<MethodResult>)
    requires maxIter >= 1
    ensures r.Ok? ==> WellFormed(r.value, tol, rule, maxIter)
  {
    RunWellFormed(m0, tol, rule, 1, maxIter, []);
    Run(m0, tol, rule, 1, maxIter, [])
  }
}
