/**
 * The two bracketing methods, `bisection` and `regula_falsi`. Both start
 * from endpoints a, b whose function values have opposite signs, pick a
 * point c between them, and replace b by c when f(a)*f(c) < 0 and a by c
 * otherwise.
 */
module Bracketing {
  import opened Records
  import opened Steps
  import opened Protocol

  function Min(x: real, y: real): real { if x <= y then x else y }
  function Max(x: real, y: real): real { if x <= y then y else x }

  /** x lies in the closed interval spanned by p and q, in either order. */
  predicate Between(x: real, p: real, q: real)
  {
    Min(p, q) <= x <= Max(p, q)
  }

  function Pow2(n: nat): (p: real)
    ensures p >= 1.0
  {
    if n == 0 then 1.0 else 2.0 * Pow2(n - 1)
  }

  /** w halved n times. */
  function Halved(w: real, n: nat): real
  {
    if n == 0 then w else Halved(w, n - 1) / 2.0
  }

  lemma {:induction false} HalvedIsQuotient(w: real, n: nat)
    ensures Halved(w, n) == w / Pow2(n)
  {
    if n > 0 {
      HalvedIsQuotient(w, n - 1);
      var p := Pow2(n - 1);
      assert (w / p) / 2.0 == w / (2.0 * p);
    }
  }

  lemma HalvedBelow(w: real, n: nat, tol: real)
    requires w < tol * Pow2(n)
    ensures Halved(w, n) < tol
  {
    HalvedIsQuotient(w, n);
    var p := Pow2(n);
    assert w / p < tol by {
      assert (w / p) * p == w;
    }
  }

  /** The cached values agree with f and have opposite signs. */
  predicate SignChange(f: real -> real, s: Bracket)
  {
    s.fa == f(s.a) && s.fb == f(s.b) && s.fa * s.fb < 0.0
  }

  /** What regula falsi keeps even when `tol <= 0` lets f(c) == 0 reach the
      update: fb is never zero and fa, fb never have the same strict sign. */
  predicate Straddles(f: real -> real, s: Bracket)
  {
    s.fa == f(s.a) && s.fb == f(s.b) && s.fb != 0.0 && s.fa * s.fb <= 0.0
  }

  // ---------------------------------------------------------------- signs

  lemma ProductNegative(x: real, y: real)
    ensures x * y < 0.0 <==> (x < 0.0 && y > 0.0) || (x > 0.0 && y < 0.0)
  {
    if x > 0.0 && y > 0.0 { assert x * y > 0.0; }
    if x < 0.0 && y < 0.0 { assert x * y == (-x) * (-y); assert (-x) * (-y) > 0.0; }
    if x < 0.0 && y > 0.0 { assert (-x) * y > 0.0; }
    if x > 0.0 && y < 0.0 { assert x * (-y) > 0.0; }
  }

  /** Replacing an endpoint by a point with nonzero value keeps the sign
      change: the bracket invariant of both methods. */
  lemma NarrowKeepsSignChange(f: real -> real, s: Bracket, c: real, fc: real)
    requires SignChange(f, s) && fc == f(c) && fc != 0.0
    ensures SignChange(f, Narrow(s, c, fc))
  {
    ProductNegative(s.fa, s.fb);
    ProductNegative(s.fa, fc);
    ProductNegative(fc, s.fb);
  }

  // ------------------------------------------------------------ bisection

  /** The reference definition of `bisection`. */
  function BisectionSpec(f: real -> real, a: real, b: real, tol: real, maxIter: nat): Result<MethodResult>
    requires maxIter >= 1
  {
    if f(a) * f(b) >= 0.0 then Err(InvalidBracket)
    else Solve(BisectionState(f, Bracket(a, b, f(a), f(b))), tol, DisplacementOrResidual, maxIter)
  }

  /** `bisection` fails exactly when f(a) * f(b) >= 0, and then with
      `InvalidBracket` before producing any record; every result it returns
      is well formed. */
  lemma BisectionOutcome(f: real -> real, a: real, b: real, tol: real, maxIter: nat)
    requires maxIter >= 1
    ensures var r := BisectionSpec(f, a, b, tol, maxIter);
            (r.Err? <==> f(a) * f(b) >= 0.0) &&
            (r.Err? ==> r.error == InvalidBracket) &&
            (r.Ok? ==> WellFormed(r.value, tol, DisplacementOrResidual, maxIter))
  {
    if f(a) * f(b) < 0.0 {
      var s := Bracket(a, b, f(a), f(b));
      assert BisectionSpec(f, a, b, tol, maxIter) == Run(BisectionState(f, s), tol, DisplacementOrResidual, 1, maxIter, []);
      ProductNegative(f(a), f(b));
      BisectionRunInvariant(f, tol, s, 1, maxIter, [], Min(a, b), Max(a, b), Abs(b - a));
    }
  }

  method Bisection(f: real -> real, a0: real, b0: real, tol: real, maxIter: nat) returns (r: Result<MethodResult>)
    requires maxIter >= 1
    ensures r == BisectionSpec(f, a0, b0, tol, maxIter)
    ensures r.Err? <==> f(a0) * f(b0) >= 0.0
    ensures r.Err? ==> r.error == InvalidBracket
    ensures r.Ok? ==> WellFormed(r.value, tol, DisplacementOrResidual, maxIter)
  {
    BisectionOutcome(f, a0, b0, tol, maxIter);
    var fa, fb := f(a0), f(b0);
    if fa * fb >= 0.0 {
      return Err(InvalidBracket);
    }
    var a, b := a0, b0;
    var iterations: seq<Iteration> := [];
    var c, error := 0.0, 0.0;
    ghost var spec := BisectionSpec(f, a0, b0, tol, maxIter);
    for iteration := 1 to maxIter + 1
      invariant |iterations| == iteration - 1
      invariant tol > 0.0 ==> SignChange(f, Bracket(a, b, fa, fb))
      invariant iteration <= maxIter ==>
        Run(BisectionState(f, Bracket(a, b, fa, fb)), tol, DisplacementOrResidual, iteration, maxIter, iterations) == spec
      invariant iteration > maxIter ==> spec == Ok(MethodResult(iterations, c, error, maxIter))
    {
      ghost var s := Bracket(a, b, fa, fb);
      c := (a + b) / 2.0;
      var fc := f(c);
      error := Abs(b - a) / 2.0;
      iterations := iterations + [Iteration(iteration, c, fc, error)];
      if error < tol || Abs(fc) < tol {
        return Ok(MethodResult(iterations, c, error, iteration));
      }
      if tol > 0.0 {
        NarrowKeepsSignChange(f, s, c, fc);
      }
      if fa * fc < 0.0 {
        b, fb := c, fc;
      } else {
        a, fa := c, fc;
      }
      assert Bracket(a, b, fa, fb) == Narrow(s, c, fc);
    }
    return Ok(MethodResult(iterations, c, error, maxIter));
  }

  /** One bisection step from a bracket with a sign change leads to a
      bracket with a sign change, unless f(c) == 0; with `tol > 0` that case
      passes the stopping test and never reaches the update. */
  lemma BisectionKeepsSignChange(f: real -> real, s: Bracket, tol: real)
    requires SignChange(f, s) && tol > 0.0
    ensures var st := BisectionStep(f, s);
            !Stops(Iteration(0, st.xn, st.fxn, st.error), tol, DisplacementOrResidual) ==> SignChange(f, st.next.bracket)
  {
    var c := (s.a + s.b) / 2.0;
    if Abs(f(c)) >= tol {
      NarrowKeepsSignChange(f, s, c, f(c));
    }
  }

  /** What each bisection record satisfies: its midpoint lies in [lo, hi],
      it records f at the midpoint, its error is the original width divided by 2^iteration, and (when the
      caller's tolerance is positive) f changes sign between xn - error and
      xn + error, which are the endpoints of that step's bracket. */
  predicate BisectionRecord(f: real -> real, tol: real, lo: real, hi: real, width: real, rec: Iteration)
  {
    lo <= rec.xn <= hi &&
    rec.fxn == f(rec.xn) &&
    rec.error == Halved(width, rec.iteration) &&
    (tol > 0.0 ==> f(rec.xn - rec.error) * f(rec.xn + rec.error) < 0.0)
  }

  predicate BisectionRecords(f: real -> real, tol: real, lo: real, hi: real, width: real, its: seq<Iteration>)
  {
    forall i :: 0 <= i < |its| ==> BisectionRecord(f, tol, lo, hi, width, its[i])
  }

  /** The induction step of `BisectionRunInvariant`: the record a step
      appends satisfies `BisectionRecord`, and the next bracket keeps the
      loop invariant. */
  lemma BisectionStepInvariant(f: real -> real, tol: real, s: Bracket, k: nat, lo: real, hi: real, width: real)
    requires k >= 1
    requires lo <= s.a <= hi && lo <= s.b <= hi
    requires Abs(s.b - s.a) == Halved(width, k - 1)
    requires tol > 0.0 ==> SignChange(f, s)
    ensures var st := BisectionStep(f, s);
            var rec := Iteration(k, st.xn, st.fxn, st.error);
            BisectionRecord(f, tol, lo, hi, width, rec) &&
            (!Stops(rec, tol, DisplacementOrResidual) ==>
               lo <= st.next.bracket.a <= hi && lo <= st.next.bracket.b <= hi &&
               Abs(st.next.bracket.b - st.next.bracket.a) == Halved(width, k) &&
               (tol > 0.0 ==> SignChange(f, st.next.bracket)))
  {
    var c := (s.a + s.b) / 2.0;
    var e := Abs(s.b - s.a) / 2.0;
    if tol > 0.0 {
      if s.a <= s.b {
        assert c - e == s.a && c + e == s.b;
      } else {
        assert c - e == s.b && c + e == s.a;
      }
      assert f(c - e) * f(c + e) < 0.0 by {
        ProductNegative(s.fa, s.fb);
        ProductNegative(f(c - e), f(c + e));
      }
      BisectionKeepsSignChange(f, s, tol);
    }
  }

  lemma {:induction false} BisectionRunInvariant(f: real -> real, tol: real, s: Bracket, k: nat, maxIter: nat,
                                                 acc: seq<Iteration>, lo: real, hi: real, width: real)
    requires 1 <= k <= maxIter
    requires lo <= s.a <= hi && lo <= s.b <= hi
    requires Abs(s.b - s.a) == Halved(width, k - 1)
    requires tol > 0.0 ==> SignChange(f, s)
    requires BisectionRecords(f, tol, lo, hi, width, acc)
    ensures var r := Run(BisectionState(f, s), tol, DisplacementOrResidual, k, maxIter, acc);
            r.Ok? && BisectionRecords(f, tol, lo, hi, width, r.value.iterations)
    decreases maxIter - k
  {
    var st := BisectionStep(f, s);
    var rec := Iteration(k, st.xn, st.fxn, st.error);
    BisectionStepInvariant(f, tol, s, k, lo, hi, width);
    var acc' := acc + [rec];
    BisectionRecordsSnoc(f, tol, lo, hi, width, acc, rec);
    var r := Run(BisectionState(f, s), tol, DisplacementOrResidual, k, maxIter, acc);
    assert r == Continue(st, tol, DisplacementOrResidual, k, maxIter, acc);
    if !Stops(rec, tol, DisplacementOrResidual) && k < maxIter {
      assert r == Run(BisectionState(f, st.next.bracket), tol, DisplacementOrResidual, k + 1, maxIter, acc');
      BisectionRunInvariant(f, tol, st.next.bracket, k + 1, maxIter, acc', lo, hi, width);
    } else {
      assert r.value.iterations == acc';
    }
  }

  lemma BisectionRecordsSnoc(f: real -> real, tol: real, lo: real, hi: real, width: real, acc: seq<Iteration>, rec: Iteration)
    requires BisectionRecords(f, tol, lo, hi, width, acc)
    requires BisectionRecord(f, tol, lo, hi, width, rec)
    ensures BisectionRecords(f, tol, lo, hi, width, acc + [rec])
  {
    forall i | 0 <= i < |acc + [rec]| ensures BisectionRecord(f, tol, lo, hi, width, (acc + [rec])[i]) {
      if i < |acc| { assert (acc + [rec])[i] == acc[i]; }
    }
  }

  /** Bisection's error halves at every step: the record of iteration k
      carries |b - a| / 2^k, and every midpoint, the returned root included,
      lies within the original bracket. */
  lemma BisectionHalvesBracket(f: real -> real, a: real, b: real, tol: real, maxIter: nat)
    requires maxIter >= 1
    ensures var r := BisectionSpec(f, a, b, tol, maxIter);
            r.Ok? ==>
              (forall i :: 0 <= i < |r.value.iterations| ==>
                 r.value.iterations[i].error == Abs(b - a) / Pow2(i + 1) &&
                 Between(r.value.iterations[i].xn, a, b)) &&
              r.value.error == Abs(b - a) / Pow2(r.value.iterationsUsed) &&
              Between(r.value.root, a, b)
  {
    var r := BisectionSpec(f, a, b, tol, maxIter);
    if r.Ok? {
      var s := Bracket(a, b, f(a), f(b));
      assert r == Run(BisectionState(f, s), tol, DisplacementOrResidual, 1, maxIter, []);
      BisectionRunInvariant(f, tol, s, 1, maxIter, [], Min(a, b), Max(a, b), Abs(b - a));
      var its := r.value.iterations;
      forall i | 0 <= i < |its|
        ensures its[i].error == Abs(b - a) / Pow2(i + 1) && Between(its[i].xn, a, b)
      {
        assert BisectionRecord(f, tol, Min(a, b), Max(a, b), Abs(b - a), its[i]);
        HalvedIsQuotient(Abs(b - a), i + 1);
      }
    }
  }

  /** With a positive tolerance, f changes sign between root - error and
      root + error, in every record and in the returned result: a zero of a
      continuous f lies within `error` of each estimate. */
  lemma BisectionEnclosesSignChange(f: real -> real, a: real, b: real, tol: real, maxIter: nat)
    requires maxIter >= 1 && tol > 0.0
    ensures var r := BisectionSpec(f, a, b, tol, maxIter);
            r.Ok? ==>
              (forall i :: 0 <= i < |r.value.iterations| ==>
                 f(r.value.iterations[i].xn - r.value.iterations[i].error) *
                 f(r.value.iterations[i].xn + r.value.iterations[i].error) < 0.0) &&
              f(r.value.root - r.value.error) * f(r.value.root + r.value.error) < 0.0
  {
    var r := BisectionSpec(f, a, b, tol, maxIter);
    if r.Ok? {
      var s := Bracket(a, b, f(a), f(b));
      assert r == Run(BisectionState(f, s), tol, DisplacementOrResidual, 1, maxIter, []);
      BisectionRunInvariant(f, tol, s, 1, maxIter, [], Min(a, b), Max(a, b), Abs(b - a));
      var its := r.value.iterations;
      assert BisectionRecord(f, tol, Min(a, b), Max(a, b), Abs(b - a), its[|its| - 1]);
    }
  }

  /** Bisection converges within its budget: when the original width is
      below tol * 2^k for some k <= maxIter, the solve stops by iteration k
      and the returned result passes the stopping test. */
  lemma BisectionConvergesWithinBudget(f: real -> real, a: real, b: real, tol: real, maxIter: nat, k: nat)
    requires 1 <= k <= maxIter
    requires Abs(b - a) < tol * Pow2(k)
    ensures var r := BisectionSpec(f, a, b, tol, maxIter);
            r.Ok? ==>
              r.value.iterationsUsed <= k &&
              (r.value.error < tol || Abs(f(r.value.root)) < tol)
  {
    var r := BisectionSpec(f, a, b, tol, maxIter);
    if r.Ok? {
      var s := Bracket(a, b, f(a), f(b));
      assert r == Run(BisectionState(f, s), tol, DisplacementOrResidual, 1, maxIter, []);
      BisectionRunInvariant(f, tol, s, 1, maxIter, [], Min(a, b), Max(a, b), Abs(b - a));
      var its := r.value.iterations;
      var used := r.value.iterationsUsed;
      if used > k {
        assert BisectionRecord(f, tol, Min(a, b), Max(a, b), Abs(b - a), its[k - 1]);
        HalvedBelow(Abs(b - a), k, tol);
        assert false;
      }
      var last := its[used - 1];
      assert Stops(last, tol, DisplacementOrResidual) by {
        if used == maxIter {
          assert BisectionRecord(f, tol, Min(a, b), Max(a, b), Abs(b - a), last);
          HalvedBelow(Abs(b - a), k, tol);
        }
      }
      assert last.fxn == f(r.value.root);
    }
  }

  /** The budget can run out before the stopping test holds: bisecting any f
      with f(-1) = -1, f(1) = 1 and f(3) = 3 (f(x) = x, say) on [-1, 3] with
      tol = 0.5 and one iteration returns the midpoint 1 with error 2 and
      f(1) = 1, neither below tol. */
  lemma BisectionBudgetCanRunOut(f: real -> real)
    requires f(-1.0) == -1.0 && f(1.0) == 1.0 && f(3.0) == 3.0
    ensures var r := BisectionSpec(f, -1.0, 3.0, 0.5, 1);
            r == Ok(MethodResult([Iteration(1, 1.0, 1.0, 2.0)], 1.0, 2.0, 1)) &&
            !Stops(r.value.iterations[0], 0.5, DisplacementOrResidual)
  {
    var s := Bracket(-1.0, 3.0, -1.0, 3.0);
    var st := BisectionStep(f, s);
    assert st.xn == 1.0 && st.fxn == 1.0 && st.error == 2.0;
    var rec := Iteration(1, 1.0, 1.0, 2.0);
    assert [] + [rec] == [rec];
    assert Continue(st, 0.5, DisplacementOrResidual, 1, 1, []) == Ok(MethodResult([rec], 1.0, 2.0, 1));
    assert BisectionSpec(f, -1.0, 3.0, 0.5, 1) == Run(BisectionState(f, s), 0.5, DisplacementOrResidual, 1, 1, []);
  }

  // --------------------------------------------------------- regula falsi

  /** A weighted average of a and b with nonnegative weights lies between them. */
  lemma WeightedAverageBetween(a: real, b: real, wa: real, wb: real, c: real)
    requires wa >= 0.0 && wb >= 0.0 && wa + wb > 0.0
    requires c * (wa + wb) == a * wa + b * wb
    ensures Between(c, a, b)
  {
    var w := wa + wb;
    var lo, hi := Min(a, b), Max(a, b);
    assert (a - lo) * wa >= 0.0 && (b - lo) * wb >= 0.0;
    assert (hi - a) * wa >= 0.0 && (hi - b) * wb >= 0.0;
    assert (c - lo) * w == (a - lo) * wa + (b - lo) * wb;
    assert (hi - c) * w == (hi - a) * wa + (hi - b) * wb;
  }

  lemma CancelNonzero(x: real, y: real, z: real)
    requires z != 0.0 && x * z == y * z
    ensures x == y
  {
    assert (x - y) * z == 0.0;
  }

  /** When fb is nonzero and fa, fb do not share a strict sign, the false
      position (a*fb - b*fa) / (fb - fa) is defined and lies between a and b,
      and is a itself when fa == 0. */
  lemma FalsePositionBetween(a: real, b: real, fa: real, fb: real)
    requires fb != 0.0 && fa * fb <= 0.0
    ensures fb - fa != 0.0
    ensures Between(FalsePosition(a, b, fa, fb), a, b)
    ensures fa == 0.0 ==> FalsePosition(a, b, fa, fb) == a
  {
    var d := fb - fa;
    var c := (a * fb - b * fa) / d;
    assert c * d == a * fb - b * fa;
    if fb > 0.0 {
      WeightedAverageBetween(a, b, fb, -fa, c);
    } else {
      assert c * (-fb + fa) == a * (-fb) + b * fa;
      WeightedAverageBetween(a, b, -fb, fa, c);
    }
    if fa == 0.0 {
      assert d == fb && b * fa == 0.0;
      CancelNonzero(c, a, fb);
    }
  }

  /** The reference definition of `regula_falsi`. */
  function RegulaFalsiSpec(f: real -> real, a: real, b: real, tol: real, maxIter: nat): Result<MethodResult>
    requires maxIter >= 1
  {
    if f(a) * f(b) >= 0.0 then Err(InvalidBracket)
    else Solve(RegulaFalsiState(f, Bracket(a, b, f(a), f(b))), tol, DisplacementOrResidual, maxIter)
  }

  /** The shared update keeps a straddling bracket straddling, provided the
      new point is a itself whenever fa == 0. */
  lemma NarrowKeepsStraddle(f: real -> real, s: Bracket, c: real, fc: real)
    requires Straddles(f, s) && fc == f(c) && (s.fa == 0.0 ==> c == s.a)
    ensures Straddles(f, Narrow(s, c, fc))
  {
    if s.fa * fc < 0.0 {
      ProductNegative(s.fa, fc);
    } else if s.fa != 0.0 && fc != 0.0 {
      ProductNegative(s.fa, s.fb);
      ProductNegative(s.fa, fc);
      ProductNegative(fc, s.fb);
    }
  }

  /** From a straddling bracket the step is an estimate at the false
      position, which lies between the endpoints (and is a when fa == 0). */
  lemma RegulaFalsiStepShape(f: real -> real, s: Bracket)
    requires Straddles(f, s)
    ensures var st := RegulaFalsiStep(f, s);
            st.Estimate? && st.fxn == f(st.xn) && st.error == Abs(st.fxn) &&
            st.next == RegulaFalsiState(f, Narrow(s, st.xn, st.fxn)) &&
            Between(st.xn, s.a, s.b) && (s.fa == 0.0 ==> st.xn == s.a)
  {
    FalsePositionBetween(s.a, s.b, s.fa, s.fb);
  }

  /** A regula falsi step from a straddling bracket never divides by zero,
      picks a point between the endpoints, and leads to a straddling bracket
      inside the old one. */
  lemma RegulaFalsiKeepsStraddle(f: real -> real, s: Bracket)
    requires Straddles(f, s)
    ensures var st := RegulaFalsiStep(f, s);
            st.Estimate? && Between(st.xn, s.a, s.b) && Straddles(f, st.next.bracket) &&
            Between(st.next.bracket.a, s.a, s.b) && Between(st.next.bracket.b, s.a, s.b)
  {
    RegulaFalsiStepShape(f, s);
    var st := RegulaFalsiStep(f, s);
    NarrowKeepsStraddle(f, s, st.xn, st.fxn);
    if s.fa * st.fxn < 0.0 {
      assert st.next.bracket.a == s.a && st.next.bracket.b == st.xn;
    } else {
      assert st.next.bracket.a == st.xn && st.next.bracket.b == s.b;
    }
  }

  /** With `tol > 0` regula falsi also keeps the strict sign change fa*fb < 0. */
  lemma RegulaFalsiKeepsSignChange(f: real -> real, s: Bracket, tol: real)
    requires SignChange(f, s) && tol > 0.0
    ensures var st := RegulaFalsiStep(f, s);
            st.Estimate? &&
            (!Stops(Iteration(0, st.xn, st.fxn, st.error), tol, DisplacementOrResidual) ==> SignChange(f, st.next.bracket))
  {
    ProductNegative(s.fa, s.fb);
    RegulaFalsiKeepsStraddle(f, s);
    var st := RegulaFalsiStep(f, s);
    if Abs(st.fxn) >= tol {
      NarrowKeepsSignChange(f, s, st.xn, st.fxn);
    }
  }

  method RegulaFalsi(f: real -> real, a0: real, b0: real, tol: real, maxIter: nat) returns (r: Result<MethodResult>)
    requires maxIter >= 1
    ensures r == RegulaFalsiSpec(f, a0, b0, tol, maxIter)
    ensures r.Err? <==> f(a0) * f(b0) >= 0.0
    ensures r.Err? ==> r.error == InvalidBracket
    ensures r.Ok? ==> WellFormed(r.value, tol, DisplacementOrResidual, maxIter)
  {
    var fa, fb := f(a0), f(b0);
    if fa * fb >= 0.0 {
      return Err(InvalidBracket);
    }
    ProductNegative(fa, fb);
    var a, b := a0, b0;
    var iterations: seq<Iteration> := [];
    var c, error := a, 0.0;
    ghost var spec := RegulaFalsiSpec(f, a0, b0, tol, maxIter);
    for iteration := 1 to maxIter + 1
      invariant |iterations| == iteration - 1
      invariant Straddles(f, Bracket(a, b, fa, fb))
      invariant iteration <= maxIter ==>
        Run(RegulaFalsiState(f, Bracket(a, b, fa, fb)), tol, DisplacementOrResidual, iteration, maxIter, iterations) == spec
      invariant iteration > maxIter ==> spec == Ok(MethodResult(iterations, c, error, maxIter))
    {
      ghost var s := Bracket(a, b, fa, fb);
      RegulaFalsiKeepsStraddle(f, s);
      RegulaFalsiStepShape(f, s);
      c := FalsePosition(a, b, fa, fb);
      var fc := f(c);
      error := Abs(fc);
      iterations := iterations + [Iteration(iteration, c, fc, error)];
      if Abs(fc) < tol || error < tol {
        return Ok(MethodResult(iterations, c, error, iteration));
      }
      if fa * fc < 0.0 {
        b, fb := c, fc;
      } else {
        a, fa := c, fc;
      }
      assert Bracket(a, b, fa, fb) == Narrow(s, c, fc);
    }
    return Ok(MethodResult(iterations, c, error, maxIter));
  }

  /** What each regula falsi record satisfies: its point lies in [lo, hi],
      it records f at that point, and its error is |f(xn)|. */
  predicate RegulaFalsiRecord(f: real -> real, lo: real, hi: real, rec: Iteration)
  {
    lo <= rec.xn <= hi && rec.fxn == f(rec.xn) && rec.error == Abs(rec.fxn)
  }

  lemma {:induction false} RegulaFalsiRunInvariant(f: real -> real, tol: real, s: Bracket, k: nat, maxIter: nat,
                                                   acc: seq<Iteration>, lo: real, hi: real)
    requires 1 <= k <= maxIter
    requires Straddles(f, s) && lo <= s.a <= hi && lo <= s.b <= hi
    requires forall i :: 0 <= i < |acc| ==> RegulaFalsiRecord(f, lo, hi, acc[i])
    ensures var r := Run(RegulaFalsiState(f, s), tol, DisplacementOrResidual, k, maxIter, acc);
            r.Ok? && forall i :: 0 <= i < |r.value.iterations| ==> RegulaFalsiRecord(f, lo, hi, r.value.iterations[i])
    decreases maxIter - k
  {
    var st := RegulaFalsiStep(f, s);
    RegulaFalsiKeepsStraddle(f, s);
    var rec := Iteration(k, st.xn, st.fxn, st.error);
    var acc' := acc + [rec];
    assert forall i :: 0 <= i < |acc'| ==> RegulaFalsiRecord(f, lo, hi, acc'[i]) by {
      forall i | 0 <= i < |acc'| ensures RegulaFalsiRecord(f, lo, hi, acc'[i]) {
        if i < |acc| { assert acc'[i] == acc[i]; }
      }
    }
    if !Stops(rec, tol, DisplacementOrResidual) && k < maxIter {
      RegulaFalsiRunInvariant(f, tol, st.next.bracket, k + 1, maxIter, acc', lo, hi);
    }
  }

  /** Regula falsi started from a valid bracket never fails (its unguarded
      division is never by zero), every estimate lies within the original
      bracket, each record carries f at its point with error |f(xn)|, and so
      does the returned root. */
  lemma RegulaFalsiStaysInBracket(f: real -> real, a: real, b: real, tol: real, maxIter: nat)
    requires maxIter >= 1 && f(a) * f(b) < 0.0
    ensures var r := RegulaFalsiSpec(f, a, b, tol, maxIter);
            r.Ok? &&
            (forall i :: 0 <= i < |r.value.iterations| ==>
               Between(r.value.iterations[i].xn, a, b) &&
               r.value.iterations[i].fxn == f(r.value.iterations[i].xn) &&
               r.value.iterations[i].error == Abs(r.value.iterations[i].fxn)) &&
            Between(r.value.root, a, b) && r.value.error == Abs(f(r.value.root))
  {
    ProductNegative(f(a), f(b));
    RegulaFalsiRunInvariant(f, tol, Bracket(a, b, f(a), f(b)), 1, maxIter, [], Min(a, b), Max(a, b));
    var r := RegulaFalsiSpec(f, a, b, tol, maxIter);
    var its := r.value.iterations;
    assert RegulaFalsiRecord(f, Min(a, b), Max(a, b), its[|its| - 1]);
  }
}
