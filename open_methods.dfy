/**
 * The four open methods: `secant`, `newton_raphson`, `fixed_point` and
 * `modified_secant`. None needs a bracket; each moves from its current
 * estimate to the next one, records it with |next - current| as the error,
 * and fails when a denominator it divides by is zero.
 */
module OpenMethods {
  import opened Records
  import opened Steps
  import opened Protocol

  /** The estimate record i was computed from: x0 for the first record,
      otherwise the previous record's estimate. */
  function Prev(x0: real, its: seq<Iteration>, i: nat): real
    requires i <= |its|
  {
    if i == 0 then x0 else its[i - 1].xn
  }

  // ------------------------------------------ single-point open methods

  /** Every record is the move from the previous estimate (x0 first), with
      the displacement as its error. */
  predicate Follows(p: PointMethod, x0: real, its: seq<Iteration>)
  {
    forall i {:trigger Prev(x0, its, i)} :: 0 <= i < |its| ==>
      MoveAt(p, Prev(x0, its, i)) == Advance(its[i].xn, its[i].fxn) &&
      its[i].error == Abs(its[i].xn - Prev(x0, its, i))
  }

  /** `its` is what a run from x0 has appended while it has not yet stopped:
      numbered 1.., following the move, and no record passing the test. */
  predicate Unstopped(p: PointMethod, x0: real, its: seq<Iteration>, tol: real, rule: StopRule)
  {
    Numbered(its) && Follows(p, x0, its) &&
    forall i :: 0 <= i < |its| ==> !Stops(its[i], tol, rule)
  }

  /** Appending the record of one more move keeps a run prefix `Follows`. */
  lemma FollowsSnoc(p: PointMethod, x0: real, acc: seq<Iteration>, rec: Iteration)
    requires Follows(p, x0, acc)
    requires MoveAt(p, Prev(x0, acc, |acc|)) == Advance(rec.xn, rec.fxn)
    requires rec.error == Abs(rec.xn - Prev(x0, acc, |acc|))
    ensures Follows(p, x0, acc + [rec])
  {
    var acc' := acc + [rec];
    forall i | 0 <= i < |acc'|
      ensures MoveAt(p, Prev(x0, acc', i)) == Advance(acc'[i].xn, acc'[i].fxn) &&
              acc'[i].error == Abs(acc'[i].xn - Prev(x0, acc', i))
    {
      assert Prev(x0, acc', i) == Prev(x0, acc, i);
      if i < |acc| { assert acc'[i] == acc[i]; }
    }
  }

  /** Appending a numbered record that does not pass the test keeps the
      other two parts of `Unstopped`. */
  lemma NumberedUnstoppedSnoc(acc: seq<Iteration>, rec: Iteration, tol: real, rule: StopRule)
    requires Numbered(acc) && rec.iteration == |acc| + 1
    requires forall i :: 0 <= i < |acc| ==> !Stops(acc[i], tol, rule)
    requires !Stops(rec, tol, rule)
    ensures Numbered(acc + [rec])
    ensures forall i :: 0 <= i < |acc + [rec]| ==> !Stops((acc + [rec])[i], tol, rule)
  {
    assert forall i :: 0 <= i < |acc + [rec]| ==> (acc + [rec])[i] == if i < |acc| then acc[i] else rec;
  }

  lemma {:induction false} PointRunTrace(p: PointMethod, tol: real, rule: StopRule, x0: real, k: nat, maxIter: nat,
                                         acc: seq<Iteration>) returns (its: seq<Iteration>)
    requires 1 <= k <= maxIter && |acc| == k - 1
    requires Unstopped(p, x0, acc, tol, rule)
    ensures var r := Run(PointState(p, Prev(x0, acc, |acc|)), tol, rule, k, maxIter, acc);
            (r.Ok? ==> Follows(p, x0, r.value.iterations)) &&
            (r.Err? ==> |its| < maxIter && Unstopped(p, x0, its, tol, rule) &&
                        MoveAt(p, Prev(x0, its, |its|)) == Stuck(r.error))
    decreases maxIter - k
  {
    var x := Prev(x0, acc, |acc|);
    assert Run(PointState(p, x), tol, rule, k, maxIter, acc) == Continue(PointStep(p, x), tol, rule, k, maxIter, acc);
    match MoveAt(p, x)
    case Stuck(e) =>
      its := acc;
    case Advance(next, fxn) =>
      var rec := Iteration(k, next, fxn, Abs(next - x));
      FollowsSnoc(p, x0, acc, rec);
      if !Stops(rec, tol, rule) && k < maxIter {
        NumberedUnstoppedSnoc(acc, rec, tol, rule);
        its := PointRunTrace(p, tol, rule, x0, k + 1, maxIter, acc + [rec]);
      } else {
        its := acc;
      }
  }

  /** The converse: a run whose unstopped records lead to an estimate where
      the move is stuck fails with that error. */
  lemma {:induction false} PointRunFails(p: PointMethod, tol: real, rule: StopRule, x0: real, k: nat, maxIter: nat,
                                         acc: seq<Iteration>, its: seq<Iteration>)
    requires 1 <= k <= maxIter && |acc| == k - 1
    requires |acc| <= |its| < maxIter && acc == its[..|acc|]
    requires Unstopped(p, x0, its, tol, rule) && MoveAt(p, Prev(x0, its, |its|)).Stuck?
    ensures Run(PointState(p, Prev(x0, acc, |acc|)), tol, rule, k, maxIter, acc) == Err(MoveAt(p, Prev(x0, its, |its|)).reason)
    decreases |its| - |acc|
  {
    var x := Prev(x0, acc, |acc|);
    assert Run(PointState(p, x), tol, rule, k, maxIter, acc) == Continue(PointStep(p, x), tol, rule, k, maxIter, acc);
    assert x == Prev(x0, its, |acc|);
    if |acc| < |its| {
      var rec := its[|acc|];
      assert MoveAt(p, x) == Advance(rec.xn, rec.fxn) && rec.error == Abs(rec.xn - x);
      assert rec == Iteration(k, rec.xn, rec.fxn, Abs(rec.xn - x));
      assert !Stops(rec, tol, rule);
      assert acc + [rec] == its[..|acc| + 1];
      PointRunFails(p, tol, rule, x0, k + 1, maxIter, acc + [rec], its);
    }
  }

  // ------------------------------------------------------ Newton-Raphson

  /** The reference definition of `newton_raphson`. */
  function NewtonSpec(f: real -> real, df: real -> real, x0: real, tol: real, maxIter: nat): Result<MethodResult>
    requires maxIter >= 1
  {
    Solve(PointState(Tangent(f, df), x0), tol, DisplacementOrResidual, maxIter)
  }

  method NewtonRaphson(f: real -> real, df: real -> real, x0: real, tol: real, maxIter: nat) returns (r: Result<MethodResult>)
    requires maxIter >= 1
    ensures r == NewtonSpec(f, df, x0, tol, maxIter)
    ensures r.Err? ==> r.error == ZeroDerivative
    ensures df(x0) == 0.0 ==> r == Err(ZeroDerivative)
    ensures r.Ok? ==> WellFormed(r.value, tol, DisplacementOrResidual, maxIter)
  {
    var iterations: seq<Iteration> := [];
    var current := x0;
    var error := 0.0;
    ghost var spec := NewtonSpec(f, df, x0, tol, maxIter);
    for iteration := 1 to maxIter + 1
      invariant |iterations| == iteration - 1
      invariant iteration <= maxIter ==>
        Run(PointState(Tangent(f, df), current), tol, DisplacementOrResidual, iteration, maxIter, iterations) == spec
      invariant iteration > maxIter ==> spec == Ok(MethodResult(iterations, current, error, maxIter))
    {
      var fVal := f(current);
      var derivativeVal := df(current);
      if derivativeVal == 0.0 {
        return Err(ZeroDerivative);
      }
      var next := NewtonPoint(current, fVal, derivativeVal);
      error := Abs(next - current);
      iterations := iterations + [Iteration(iteration, next, f(next), error)];
      if error < tol || Abs(f(next)) < tol {
        return Ok(MethodResult(iterations, next, error, iteration));
      }
      current := next;
    }
    return Ok(MethodResult(iterations, current, error, maxIter));
  }

  /** Newton-Raphson's records follow the tangent steps from x0: each record
      was computed from an estimate with a nonzero derivative, holds
      x - f(x)/f'(x), the residual there and the displacement. A failure
      happens only at an estimate the unstopped run reached (returned as
      `its`, the records appended before it) whose derivative is zero. */
  lemma NewtonFollowsTangents(f: real -> real, df: real -> real, x0: real, tol: real, maxIter: nat)
    returns (its: seq<Iteration>)
    requires maxIter >= 1
    ensures var r := NewtonSpec(f, df, x0, tol, maxIter);
            (r.Ok? ==>
               forall i :: 0 <= i < |r.value.iterations| ==>
                 var x, rec := Prev(x0, r.value.iterations, i), r.value.iterations[i];
                 df(x) != 0.0 && rec.xn == NewtonPoint(x, f(x), df(x)) && rec.fxn == f(rec.xn) && rec.error == Abs(rec.xn - x)) &&
            (r.Err? ==>
               r.error == ZeroDerivative && |its| < maxIter &&
               Unstopped(Tangent(f, df), x0, its, tol, DisplacementOrResidual) &&
               df(Prev(x0, its, |its|)) == 0.0)
  {
    its := PointRunTrace(Tangent(f, df), tol, DisplacementOrResidual, x0, 1, maxIter, []);
    var r := NewtonSpec(f, df, x0, tol, maxIter);
    if r.Ok? {
      var rs := r.value.iterations;
      forall i | 0 <= i < |rs|
        ensures var x := Prev(x0, rs, i);
                df(x) != 0.0 && rs[i].xn == NewtonPoint(x, f(x), df(x)) && rs[i].fxn == f(rs[i].xn) &&
                rs[i].error == Abs(rs[i].xn - x)
      {
        var x := Prev(x0, rs, i);
        assert MoveAt(Tangent(f, df), x) == Advance(rs[i].xn, rs[i].fxn);
      }
    }
  }

  /** Conversely, a run that reaches an estimate with zero derivative before
      stopping fails with `ZeroDerivative`. */
  lemma NewtonFailsAtFlatPoint(f: real -> real, df: real -> real, x0: real, tol: real, maxIter: nat, its: seq<Iteration>)
    requires maxIter >= 1 && |its| < maxIter
    requires Unstopped(Tangent(f, df), x0, its, tol, DisplacementOrResidual)
    requires df(Prev(x0, its, |its|)) == 0.0
    ensures NewtonSpec(f, df, x0, tol, maxIter) == Err(ZeroDerivative)
  {
    assert MoveAt(Tangent(f, df), Prev(x0, its, |its|)) == Stuck(ZeroDerivative);
    PointRunFails(Tangent(f, df), tol, DisplacementOrResidual, x0, 1, maxIter, [], its);
  }

  // ----------------------------------------------------------- fixed point

  /** The reference definition of `fixed_point`. */
  function FixedPointSpec(g: real -> real, x0: real, tol: real, maxIter: nat): Result<MethodResult>
    requires maxIter >= 1
  {
    Solve(PointState(Iterate(g), x0), tol, DisplacementOnly, maxIter)
  }

  method FixedPoint(g: real -> real, x0: real, tol: real, maxIter: nat) returns (r: Result<MethodResult>)
    requires maxIter >= 1
    ensures r == FixedPointSpec(g, x0, tol, maxIter)
    ensures r.Ok? && WellFormed(r.value, tol, DisplacementOnly, maxIter)
  {
    var iterations: seq<Iteration> := [];
    var current := x0;
    var error := 0.0;
    ghost var spec := FixedPointSpec(g, x0, tol, maxIter);
    for iteration := 1 to maxIter + 1
      invariant |iterations| == iteration - 1
      invariant iteration <= maxIter ==>
        Run(PointState(Iterate(g), current), tol, DisplacementOnly, iteration, maxIter, iterations) == spec
      invariant iteration > maxIter ==> spec == Ok(MethodResult(iterations, current, error, maxIter))
    {
      var next := g(current);
      error := Abs(next - current);
      var fVal := next - current;
      iterations := iterations + [Iteration(iteration, next, fVal, error)];
      if error < tol {
        return Ok(MethodResult(iterations, next, error, iteration));
      }
      current := next;
    }
    return Ok(MethodResult(iterations, current, error, maxIter));
  }

  /** Fixed-point records trace the orbit of x0 under g: record i holds
      g(x) for the previous estimate x, its `fxn` is the displacement
      g(x) - x, and its error is |fxn|. */
  lemma FixedPointFollowsG(g: real -> real, x0: real, tol: real, maxIter: nat)
    requires maxIter >= 1
    ensures var r := FixedPointSpec(g, x0, tol, maxIter);
            r.Ok? &&
            forall i :: 0 <= i < |r.value.iterations| ==>
              var x, rec := Prev(x0, r.value.iterations, i), r.value.iterations[i];
              rec.xn == g(x) && rec.fxn == g(x) - x && rec.error == Abs(rec.fxn)
  {
    var its := PointRunTrace(Iterate(g), tol, DisplacementOnly, x0, 1, maxIter, []);
    var r := FixedPointSpec(g, x0, tol, maxIter);
    if r.Ok? {
      var rs := r.value.iterations;
      forall i | 0 <= i < |rs|
        ensures var x := Prev(x0, rs, i);
                rs[i].xn == g(x) && rs[i].fxn == g(x) - x && rs[i].error == Abs(rs[i].fxn)
      {
        var x := Prev(x0, rs, i);
        assert MoveAt(Iterate(g), x) == Advance(rs[i].xn, rs[i].fxn);
      }
    }
  }

  // ------------------------------------------------------- modified secant

  /** Record `rec` is the modified secant step from x. */
  predicate SlopeRecord(f: real -> real, delta: real, x: real, rec: Iteration)
  {
    SlopeDenominator(f, delta, x) != 0.0 &&
    rec.xn == ModifiedSecantPoint(x, delta, f(x), SlopeDenominator(f, delta, x)) &&
    rec.fxn == f(rec.xn) && rec.error == Abs(rec.xn - x)
  }

  /** The reference definition of `modified_secant`. */
  function ModifiedSecantSpec(f: real -> real, x0: real, delta: real, tol: real, maxIter: nat): Result<MethodResult>
    requires maxIter >= 1
  {
    if delta == 0.0 then Err(InvalidParameter)
    else Solve(PointState(PerturbedSlope(f, delta), x0), tol, DisplacementOrResidual, maxIter)
  }

  method ModifiedSecant(f: real -> real, x0: real, delta: real, tol: real, maxIter: nat) returns (r: Result<MethodResult>)
    requires maxIter >= 1
    ensures r == ModifiedSecantSpec(f, x0, delta, tol, maxIter)
    ensures delta == 0.0 ==> r == Err(InvalidParameter)
    ensures delta != 0.0 && r.Err? ==> r.error == ZeroDenominator
    ensures r.Ok? ==> WellFormed(r.value, tol, DisplacementOrResidual, maxIter)
  {
    if delta == 0.0 {
      return Err(InvalidParameter);
    }
    var iterations: seq<Iteration> := [];
    var current := x0;
    var error := 0.0;
    ghost var spec := ModifiedSecantSpec(f, x0, delta, tol, maxIter);
    for iteration := 1 to maxIter + 1
      invariant |iterations| == iteration - 1
      invariant iteration <= maxIter ==>
        Run(PointState(PerturbedSlope(f, delta), current), tol, DisplacementOrResidual, iteration, maxIter, iterations) == spec
      invariant iteration > maxIter ==> spec == Ok(MethodResult(iterations, current, error, maxIter))
    {
      var fCurrent := f(current);
      var denominator := f(current + delta * current) - fCurrent;
      if denominator == 0.0 {
        return Err(ZeroDenominator);
      }
      var next := ModifiedSecantPoint(current, delta, fCurrent, denominator);
      error := Abs(next - current);
      iterations := iterations + [Iteration(iteration, next, f(next), error)];
      if error < tol || Abs(f(next)) < tol {
        return Ok(MethodResult(iterations, next, error, iteration));
      }
      current := next;
    }
    return Ok(MethodResult(iterations, current, error, maxIter));
  }

  /** Modified secant records follow the perturbed-slope steps from x0: each
      record was computed from an estimate x with a nonzero denominator
      f(x + delta*x) - f(x), holds the step, the residual there and the
      displacement. With delta != 0 a failure happens only at an estimate the
      unstopped run reached (returned as `its`) whose denominator is zero. */
  lemma ModifiedSecantFollowsSlopes(f: real -> real, x0: real, delta: real, tol: real, maxIter: nat)
    returns (its: seq<Iteration>)
    requires maxIter >= 1
    ensures var r := ModifiedSecantSpec(f, x0, delta, tol, maxIter);
            (r.Ok? ==>
               forall i :: 0 <= i < |r.value.iterations| ==>
                 SlopeRecord(f, delta, Prev(x0, r.value.iterations, i), r.value.iterations[i])) &&
            (r.Err? && delta != 0.0 ==>
               r.error == ZeroDenominator && |its| < maxIter &&
               Unstopped(PerturbedSlope(f, delta), x0, its, tol, DisplacementOrResidual) &&
               SlopeDenominator(f, delta, Prev(x0, its, |its|)) == 0.0)
  {
    its := PointRunTrace(PerturbedSlope(f, delta), tol, DisplacementOrResidual, x0, 1, maxIter, []);
    var r := ModifiedSecantSpec(f, x0, delta, tol, maxIter);
    if r.Ok? {
      var rs := r.value.iterations;
      forall i | 0 <= i < |rs|
        ensures SlopeRecord(f, delta, Prev(x0, rs, i), rs[i])
      {
        var x := Prev(x0, rs, i);
        assert MoveAt(PerturbedSlope(f, delta), x) == Advance(rs[i].xn, rs[i].fxn);
      }
    }
  }

  /** Conversely, with delta != 0, a run that reaches an estimate whose
      denominator f(x + delta*x) - f(x) is zero before stopping fails with
      `ZeroDenominator`. */
  lemma ModifiedSecantFailsAtFlatSlope(f: real -> real, x0: real, delta: real, tol: real, maxIter: nat, its: seq<Iteration>)
    requires maxIter >= 1 && delta != 0.0 && |its| < maxIter
    requires Unstopped(PerturbedSlope(f, delta), x0, its, tol, DisplacementOrResidual)
    requires SlopeDenominator(f, delta, Prev(x0, its, |its|)) == 0.0
    ensures ModifiedSecantSpec(f, x0, delta, tol, maxIter) == Err(ZeroDenominator)
  {
    assert MoveAt(PerturbedSlope(f, delta), Prev(x0, its, |its|)) == Stuck(ZeroDenominator);
    PointRunFails(PerturbedSlope(f, delta), tol, DisplacementOrResidual, x0, 1, maxIter, [], its);
  }

  /** The perturbation delta*x vanishes at x == 0, so a modified secant
      solve started at 0 fails at once whatever f and delta != 0 are. */
  lemma ModifiedSecantFailsFromZero(f: real -> real, delta: real, tol: real, maxIter: nat)
    requires maxIter >= 1 && delta != 0.0
    ensures ModifiedSecantSpec(f, 0.0, delta, tol, maxIter) == Err(ZeroDenominator)
  {
    assert Prev(0.0, [], 0) + delta * Prev(0.0, [], 0) == 0.0;
    ModifiedSecantFailsAtFlatSlope(f, 0.0, delta, tol, maxIter, []);
  }

  // ----------------------------------------------------------------- secant

  /** The reference definition of `secant`. */
  function SecantSpec(f: real -> real, x0: real, x1: real, tol: real, maxIter: nat): Result<MethodResult>
    requires maxIter >= 1
  {
    Solve(SecantState(f, Window(x0, x1)), tol, DisplacementOrResidual, maxIter)
  }

  method Secant(f: real -> real, x0: real, x1: real, tol: real, maxIter: nat) returns (r: Result<MethodResult>)
    requires maxIter >= 1
    ensures r == SecantSpec(f, x0, x1, tol, maxIter)
    ensures r.Err? ==> r.error == ZeroDenominator
    ensures f(x1) - f(x0) == 0.0 ==> r == Err(ZeroDenominator)
    ensures r.Ok? ==> WellFormed(r.value, tol, DisplacementOrResidual, maxIter)
  {
    var iterations: seq<Iteration> := [];
    var prev, curr := x0, x1;
    var error := 0.0;
    ghost var spec := SecantSpec(f, x0, x1, tol, maxIter);
    for iteration := 1 to maxIter + 1
      invariant |iterations| == iteration - 1
      invariant iteration <= maxIter ==>
        Run(SecantState(f, Window(prev, curr)), tol, DisplacementOrResidual, iteration, maxIter, iterations) == spec
      invariant iteration > maxIter ==> spec == Ok(MethodResult(iterations, curr, error, maxIter))
    {
      var fPrev := f(prev);
      var fCurr := f(curr);
      var denominator := fCurr - fPrev;
      if denominator == 0.0 {
        return Err(ZeroDenominator);
      }
      var next := SecantPoint(prev, curr, fPrev, fCurr);
      error := Abs(next - curr);
      iterations := iterations + [Iteration(iteration, next, f(next), error)];
      if error < tol || Abs(f(next)) < tol {
        return Ok(MethodResult(iterations, next, error, iteration));
      }
      prev, curr := curr, next;
    }
    return Ok(MethodResult(iterations, curr, error, maxIter));
  }

  /** The estimates a secant run sees, in order: x0, x1, then each record's
      estimate. Record i is computed from positions i and i + 1. */
  function SecantPos(x0: real, x1: real, its: seq<Iteration>, i: nat): real
    requires i <= |its| + 1
  {
    if i == 0 then x0 else if i == 1 then x1 else its[i - 2].xn
  }

  /** Record `rec` is the chord step from the window (p, q). */
  predicate ChordRecord(f: real -> real, p: real, q: real, rec: Iteration)
  {
    f(q) - f(p) != 0.0 && rec.xn == SecantPoint(p, q, f(p), f(q)) &&
    rec.fxn == f(rec.xn) && rec.error == Abs(rec.xn - q)
  }

  /** The window record i is computed from; with i == |its|, the window a
      run holds after appending `its`. */
  function SecantWindow(x0: real, x1: real, its: seq<Iteration>, i: nat): Window
    requires i <= |its|
  {
    Window(SecantPos(x0, x1, its, i), SecantPos(x0, x1, its, i + 1))
  }

  predicate SecantTrace(f: real -> real, x0: real, x1: real, its: seq<Iteration>)
  {
    forall i {:trigger SecantWindow(x0, x1, its, i)} :: 0 <= i < |its| ==>
      ChordRecord(f, SecantWindow(x0, x1, its, i).prev, SecantWindow(x0, x1, its, i).curr, its[i])
  }

  predicate SecantUnstopped(f: real -> real, x0: real, x1: real, its: seq<Iteration>, tol: real)
  {
    Numbered(its) && SecantTrace(f, x0, x1, its) &&
    forall i :: 0 <= i < |its| ==> !Stops(its[i], tol, DisplacementOrResidual)
  }


  lemma SecantTraceSnoc(f: real -> real, x0: real, x1: real, acc: seq<Iteration>, rec: Iteration)
    requires SecantTrace(f, x0, x1, acc)
    requires ChordRecord(f, SecantWindow(x0, x1, acc, |acc|).prev, SecantWindow(x0, x1, acc, |acc|).curr, rec)
    ensures SecantTrace(f, x0, x1, acc + [rec])
    ensures SecantWindow(x0, x1, acc + [rec], |acc + [rec]|) == Window(SecantWindow(x0, x1, acc, |acc|).curr, rec.xn)
  {
    var acc' := acc + [rec];
    forall i | 0 <= i < |acc'|
      ensures ChordRecord(f, SecantWindow(x0, x1, acc', i).prev, SecantWindow(x0, x1, acc', i).curr, acc'[i])
    {
      assert SecantWindow(x0, x1, acc', i) == SecantWindow(x0, x1, acc, i);
      if i < |acc| { assert acc'[i] == acc[i]; }
    }
  }

  lemma {:induction false} SecantRunTrace(f: real -> real, tol: real, x0: real, x1: real, k: nat, maxIter: nat,
                                          acc: seq<Iteration>) returns (its: seq<Iteration>)
    requires 1 <= k <= maxIter && |acc| == k - 1
    requires SecantUnstopped(f, x0, x1, acc, tol)
    ensures var r := Run(SecantState(f, SecantWindow(x0, x1, acc, |acc|)), tol, DisplacementOrResidual, k, maxIter, acc);
            (r.Ok? ==> SecantTrace(f, x0, x1, r.value.iterations)) &&
            (r.Err? ==> r.error == ZeroDenominator && |its| < maxIter && SecantUnstopped(f, x0, x1, its, tol) &&
                        f(SecantWindow(x0, x1, its, |its|).curr) - f(SecantWindow(x0, x1, its, |its|).prev) == 0.0)
    decreases maxIter - k
  {
    var w := SecantWindow(x0, x1, acc, |acc|);
    assert Run(SecantState(f, w), tol, DisplacementOrResidual, k, maxIter, acc) ==
           Continue(SecantStep(f, w), tol, DisplacementOrResidual, k, maxIter, acc);
    if f(w.curr) - f(w.prev) == 0.0 {
      its := acc;
    } else {
      var next := SecantPoint(w.prev, w.curr, f(w.prev), f(w.curr));
      var rec := Iteration(k, next, f(next), Abs(next - w.curr));
      SecantTraceSnoc(f, x0, x1, acc, rec);
      if !Stops(rec, tol, DisplacementOrResidual) && k < maxIter {
        NumberedUnstoppedSnoc(acc, rec, tol, DisplacementOrResidual);
        its := SecantRunTrace(f, tol, x0, x1, k + 1, maxIter, acc + [rec]);
      } else {
        its := acc;
      }
    }
  }

  lemma {:induction false} SecantRunFails(f: real -> real, tol: real, x0: real, x1: real, k: nat, maxIter: nat,
                                          acc: seq<Iteration>, its: seq<Iteration>)
    requires 1 <= k <= maxIter && |acc| == k - 1
    requires |acc| <= |its| < maxIter && acc == its[..|acc|]
    requires SecantUnstopped(f, x0, x1, its, tol)
    requires f(SecantWindow(x0, x1, its, |its|).curr) - f(SecantWindow(x0, x1, its, |its|).prev) == 0.0
    ensures Run(SecantState(f, SecantWindow(x0, x1, acc, |acc|)), tol, DisplacementOrResidual, k, maxIter, acc) == Err(ZeroDenominator)
    decreases |its| - |acc|
  {
    var w := SecantWindow(x0, x1, acc, |acc|);
    assert Run(SecantState(f, w), tol, DisplacementOrResidual, k, maxIter, acc) ==
           Continue(SecantStep(f, w), tol, DisplacementOrResidual, k, maxIter, acc);
    assert w == SecantWindow(x0, x1, its, |acc|);
    if |acc| < |its| {
      var rec := its[|acc|];
      assert ChordRecord(f, w.prev, w.curr, rec);
      assert rec == Iteration(k, SecantPoint(w.prev, w.curr, f(w.prev), f(w.curr)), rec.fxn, rec.error);
      assert !Stops(rec, tol, DisplacementOrResidual);
      assert acc + [rec] == its[..|acc| + 1];
      assert SecantWindow(x0, x1, acc + [rec], |acc + [rec]|) == Window(w.curr, rec.xn);
      SecantRunFails(f, tol, x0, x1, k + 1, maxIter, acc + [rec], its);
    }
  }

  /** Secant records follow the chord steps from the window (x0, x1): each
      record was computed from the two most recent estimates p, q with
      f(q) != f(p), holds q - f(q)*(q - p)/(f(q) - f(p)), the residual there
      and |xn - q|. A failure happens only at a window the unstopped run
      reached (after the records `its`) where f takes equal values. */
  lemma SecantFollowsChords(f: real -> real, x0: real, x1: real, tol: real, maxIter: nat)
    returns (its: seq<Iteration>)
    requires maxIter >= 1
    ensures var r := SecantSpec(f, x0, x1, tol, maxIter);
            (r.Ok? ==> SecantTrace(f, x0, x1, r.value.iterations)) &&
            (r.Err? ==> r.error == ZeroDenominator && |its| < maxIter && SecantUnstopped(f, x0, x1, its, tol) &&
                        f(SecantWindow(x0, x1, its, |its|).curr) - f(SecantWindow(x0, x1, its, |its|).prev) == 0.0)
  {
    its := SecantRunTrace(f, tol, x0, x1, 1, maxIter, []);
  }

  /** Conversely, a secant run that reaches a window where f takes equal
      values before stopping fails with `ZeroDenominator`. */
  lemma SecantFailsAtFlatChord(f: real -> real, x0: real, x1: real, tol: real, maxIter: nat, its: seq<Iteration>)
    requires maxIter >= 1 && |its| < maxIter
    requires SecantUnstopped(f, x0, x1, its, tol)
    requires f(SecantWindow(x0, x1, its, |its|).curr) - f(SecantWindow(x0, x1, its, |its|).prev) == 0.0
    ensures SecantSpec(f, x0, x1, tol, maxIter) == Err(ZeroDenominator)
  {
    SecantRunFails(f, tol, x0, x1, 1, maxIter, [], its);
  }
}
