/**
 * One loop step of each of the six solvers. A `Solver` value is a solver
 * between two iterations: which method it runs, the functions it
 * evaluates, and its working variables; `Next` computes the estimate that
 * method produces from there and the solver it leaves behind.
 */
module Steps {
  import opened Records

  /** The working state of a bracketing loop: the endpoints and the cached
      values fa, fb of f at them. */
  datatype Bracket = Bracket(a: real, b: real, fa: real, fb: real)

  /** The secant window: the two most recent estimates. */
  datatype Window = Window(prev: real, curr: real)

  /** The single-point open methods, each with what it evaluates: Newton's
      tangent (f and f'), fixed-point iteration of g, and the modified
      secant's perturbed slope (f and the relative step delta). */
  datatype PointMethod =
    | Tangent(f: real -> real, df: real -> real)
    | Iterate(g: real -> real)
    | PerturbedSlope(f: real -> real, delta: real)

  datatype Solver =
    | BisectionState(f: real -> real, bracket: Bracket)
    | RegulaFalsiState(f: real -> real, bracket: Bracket)
    | SecantState(f: real -> real, window: Window)
    | PointState(point: PointMethod, x: real)

  /** What one step produces: either the error it raises, or the new
      estimate, the value recorded beside it, its error metric and the
      solver for the next step. */
  datatype Step =
    | Fail(reason: SolveError)
    | Estimate(xn: real, fxn: real, error: real, next: Solver)

  /** What a single-point method does at its current estimate x: raise an
      error, or advance to `next`, recording `fxn` beside it. */
  datatype Move = Stuck(reason: SolveError) | Advance(to: real, fxn: real)

  // ------------------------------------------------------------ formulas

  /** The update both bracketing methods share: b moves to c when f(a) and
      f(c) have strictly opposite signs, a moves to c otherwise. */
  function Narrow(s: Bracket, c: real, fc: real): Bracket
  {
    if s.fa * fc < 0.0 then Bracket(s.a, c, s.fa, fc) else Bracket(c, s.b, fc, s.fb)
  }

  /** The point where the chord through (a, fa) and (b, fb) crosses zero. */
  function FalsePosition(a: real, b: real, fa: real, fb: real): real
    requires fb - fa != 0.0
  {
    (a * fb - b * fa) / (fb - fa)
  }

  /** The chord step curr - f(curr)*(curr - prev) / (f(curr) - f(prev)). */
  function SecantPoint(prev: real, curr: real, fPrev: real, fCurr: real): real
    requires fCurr - fPrev != 0.0
  {
    curr - fCurr * (curr - prev) / (fCurr - fPrev)
  }

  /** The tangent step x - f(x) / f'(x). */
  function NewtonPoint(x: real, fx: real, dfx: real): real
    requires dfx != 0.0
  {
    x - fx / dfx
  }

  /** The denominator f(x + delta*x) - f(x) of the modified secant step. */
  function SlopeDenominator(f: real -> real, delta: real, x: real): real
  {
    f(x + delta * x) - f(x)
  }

  /** The modified secant step x - delta*x*f(x) / (f(x + delta*x) - f(x)). */
  function ModifiedSecantPoint(x: real, delta: real, fx: real, denominator: real): real
    requires denominator != 0.0
  {
    x - (delta * x * fx) / denominator
  }

  // --------------------------------------------------------------- steps

  /** One bisection step: the midpoint, its value, half the bracket width. */
  function BisectionStep(f: real -> real, s: Bracket): Step
  {
    var c := (s.a + s.b) / 2.0;
    var fc := f(c);
    Estimate(c, fc, Abs(s.b - s.a) / 2.0, BisectionState(f, Narrow(s, c, fc)))
  }

  /** One regula falsi step: the false-position point, its value, and |f(c)|
      as the error. The division is unguarded in the source; a zero
      denominator would raise `ZeroDivisionError`, which this step reports as
      `DivisionByZero`. */
  function RegulaFalsiStep(f: real -> real, s: Bracket): Step
  {
    if s.fb - s.fa == 0.0 then Fail(DivisionByZero)
    else
      var c := FalsePosition(s.a, s.b, s.fa, s.fb);
      var fc := f(c);
      Estimate(c, fc, Abs(fc), RegulaFalsiState(f, Narrow(s, c, fc)))
  }

  /** One secant step: fail on a flat chord, otherwise move the window on to
      the chord's zero, with the displacement from `curr` as the error. */
  function SecantStep(f: real -> real, w: Window): Step
  {
    var denominator := f(w.curr) - f(w.prev);
    if denominator == 0.0 then Fail(ZeroDenominator)
    else
      var next := SecantPoint(w.prev, w.curr, f(w.prev), f(w.curr));
      Estimate(next, f(next), Abs(next - w.curr), SecantState(f, Window(w.curr, next)))
  }

  function MoveAt(p: PointMethod, x: real): Move
  {
    match p
    case Tangent(f, df) =>
      if df(x) == 0.0 then Stuck(ZeroDerivative)
      else
        var next := NewtonPoint(x, f(x), df(x));
        Advance(next, f(next))
    case Iterate(g) =>
      // fixed-point iteration never raises and records g(x) - x
      Advance(g(x), g(x) - x)
    case PerturbedSlope(f, delta) =>
      var denominator := SlopeDenominator(f, delta, x);
      if denominator == 0.0 then Stuck(ZeroDenominator)
      else
        var next := ModifiedSecantPoint(x, delta, f(x), denominator);
        Advance(next, f(next))
  }

  /** The step of a single-point method: the error metric is the
      displacement |next - x| and the next estimate is `next`. */
  function PointStep(p: PointMethod, x: real): Step
  {
    match MoveAt(p, x)
    case Stuck(e) => Fail(e)
    case Advance(next, fxn) => Estimate(next, fxn, Abs(next - x), PointState(p, next))
  }

  function Next(m: Solver): Step
  {
    match m
    case BisectionState(f, s) => BisectionStep(f, s)
    case RegulaFalsiState(f, s) => RegulaFalsiStep(f, s)
    case SecantState(f, w) => SecantStep(f, w)
    case PointState(p, x) => PointStep(p, x)
  }
}
