/** The escape-time kernel `mandelbrot_iterations`, over an idealised exact
    arithmetic: the orbit z(n+1) = z(n)^2 + c is computed in `real`, not in IEEE
    doubles, so only the integer control flow around it is faithful bit for bit. */
module Escape {
  import opened Numerics

  /** A point of the complex plane, re + i*im. */
  datatype Point = Point(re: real, im: real)

  /** One step of the recurrence for c = x + i*y, written as the loop body does it:
      the imaginary part from the old real part, then the real part from the
      old squares. */
  function Step(z: Point, x: real, y: real): Point {
    Point(z.re * z.re - z.im * z.im + x, 2.0 * z.re * z.im + y)
  }

  /** z(n) for c = x + i*y, starting from z(0) = 0. */
  function Orbit(x: real, y: real, n: nat): Point {
    if n == 0 then Point(0.0, 0.0) else Step(Orbit(x, y, n - 1), x, y)
  }

  /** The loop guard fails on magnitude: u^2 + v^2 >= 4. */
  predicate Escaped(z: Point) {
    z.re * z.re + z.im * z.im >= 4.0
  }

  /** The magnitude test the loop makes when its counter is k (k >= 1): it looks at
      z(k - 1), the orbit after k - 1 completed steps. */
  predicate EscapesAt(x: real, y: real, k: int)
    requires k >= 1
  {
    Escaped(Orbit(x, y, k - 1))
  }

  /** What the returned count means: k is at least 1 and at most the budget (or 1
      when the budget is below 1), no earlier check escaped, and if k is below the
      budget then the check at k did escape. */
  predicate IsEscapeCount(x: real, y: real, maxiter: int, k: int) {
    1 <= k <= Max(1, maxiter)
    && (forall s :: 1 <= s < k ==> !EscapesAt(x, y, s))
    && (k < maxiter ==> EscapesAt(x, y, k))
  }

  /** The count reached by a loop whose counter currently holds k. */
  function IterationsFrom(x: real, y: real, maxiter: int, k: int): (r: int)
    requires k >= 1
    ensures k <= r <= Max(k, maxiter)
    ensures forall s :: k <= s < r ==> !EscapesAt(x, y, s)
    ensures r < maxiter ==> EscapesAt(x, y, r)
    decreases maxiter - k
  {
    if k >= maxiter || EscapesAt(x, y, k) then k
    else IterationsFrom(x, y, maxiter, k + 1)
  }

  /** The escape count of c = x + i*y under the budget maxiter. */
  function Iterations(x: real, y: real, maxiter: int): (r: int)
    ensures IsEscapeCount(x, y, maxiter, r)
  {
    IterationsFrom(x, y, maxiter, 1)
  }

  /** The description IsEscapeCount leaves no choice: it pins the count down. */
  lemma IterationsUnique(x: real, y: real, maxiter: int, k: int)
    requires IsEscapeCount(x, y, maxiter, k)
    ensures k == Iterations(x, y, maxiter)
  {
    var r := Iterations(x, y, maxiter);
    if k < r {
      assert false;
    } else if r < k {
      assert false;
    }
  }

  /** `mandelbrot_iterations`: the counter starts at 1 and advances while it is
      below the budget and the orbit has not escaped. */
  method MandelbrotIterations(x: real, y: real, maxiter: int32) returns (k: int32)
    ensures IsEscapeCount(x, y, maxiter as int, k as int)
    ensures k as int == Iterations(x, y, maxiter as int)
  {
    var u, v := 0.0, 0.0;
    var u2 := u * u;
    var v2 := v * v;
    k := 1;
    while k < maxiter && u2 + v2 < 4.0
      invariant 1 <= k as int <= Max(1, maxiter as int)
      invariant Point(u, v) == Orbit(x, y, k as int - 1)
      invariant u2 == u * u && v2 == v * v
      invariant forall s :: 1 <= s < k as int ==> !EscapesAt(x, y, s)
    {
      LoopStep(x, y, k as int, u, v, u2, v2);
      v := 2.0 * u * v + y;
      u := u2 - v2 + x;
      u2 := u * u;
      v2 := v * v;
      k := k + 1;
    }
    LoopExit(x, y, maxiter as int, k as int, u, v, u2, v2);
  }

  /** One pass of the loop body: the check at k found z(k - 1), whose squared
      parts are u2 and v2, inside the disc, and the body's update gives z(k). */
  lemma LoopStep(x: real, y: real, k: int, u: real, v: real, u2: real, v2: real)
    requires k >= 1 && Point(u, v) == Orbit(x, y, k - 1)
    requires u2 == u * u && v2 == v * v && u2 + v2 < 4.0
    ensures !EscapesAt(x, y, k)
    ensures Orbit(x, y, k) == Point(u2 - v2 + x, 2.0 * u * v + y)
  {
    StepBySquares(u, v, x, y, u2, v2);
    assert Orbit(x, y, k) == Step(Point(u, v), x, y);
  }

  /** The step and the escape test written with the squares u2 = re^2 and
      v2 = im^2 the loop keeps. */
  lemma StepBySquares(u: real, v: real, x: real, y: real, u2: real, v2: real)
    requires u2 == u * u && v2 == v * v
    ensures Step(Point(u, v), x, y) == Point(u2 - v2 + x, 2.0 * u * v + y)
    ensures Escaped(Point(u, v)) <==> u2 + v2 >= 4.0
  {
  }

  /** When the loop stops at counter k, k is the escape count: either the budget
      ran out or the check at k found z(k - 1) outside the disc. */
  lemma LoopExit(x: real, y: real, maxiter: int, k: int, u: real, v: real, u2: real, v2: real)
    requires 1 <= k <= Max(1, maxiter)
    requires Point(u, v) == Orbit(x, y, k - 1) && u2 == u * u && v2 == v * v
    requires forall s :: 1 <= s < k ==> !EscapesAt(x, y, s)
    requires k < maxiter ==> u2 + v2 >= 4.0
    ensures IsEscapeCount(x, y, maxiter, k)
    ensures k == Iterations(x, y, maxiter)
  {
    StepBySquares(u, v, x, y, u2, v2);
    IterationsUnique(x, y, maxiter, k);
  }

  /** The orbit never leaves 0 for c = 0. */
  lemma {:induction false} OriginOrbit(n: nat)
    ensures Orbit(0.0, 0.0, n) == Point(0.0, 0.0)
  {
    if n > 0 {
      OriginOrbit(n - 1);
    }
  }

  /** The origin never escapes: its count is the whole budget (1 when the budget
      is below 1, since the counter starts at 1). */
  lemma OriginNeverEscapes(maxiter: int)
    ensures Iterations(0.0, 0.0, maxiter) == Max(1, maxiter)
  {
    forall s | 1 <= s
      ensures !EscapesAt(0.0, 0.0, s)
    {
      OriginOrbit(s - 1);
    }
    IterationsUnique(0.0, 0.0, maxiter, Max(1, maxiter));
  }

  /** c = 2 escapes at the second check: z(1) = 2 has squared magnitude 4. */
  lemma TwoEscapesAtSecondCheck(maxiter: int)
    ensures Iterations(2.0, 0.0, maxiter) == if maxiter >= 2 then 2 else 1
  {
    var z0 := Orbit(2.0, 0.0, 0);
    assert z0 == Point(0.0, 0.0);
    var z1 := Orbit(2.0, 0.0, 1);
    assert z1 == Step(z0, 2.0, 0.0);
    assert z1.re == 2.0 && z1.im == 0.0;
    assert !EscapesAt(2.0, 0.0, 1);
    assert EscapesAt(2.0, 0.0, 2);
    IterationsUnique(2.0, 0.0, maxiter, if maxiter >= 2 then 2 else 1);
  }

  /** The orbit of the conjugate point is the conjugate orbit. */
  lemma {:induction false} ConjugateOrbit(x: real, y: real, n: nat)
    ensures Orbit(x, -y, n) == Point(Orbit(x, y, n).re, -Orbit(x, y, n).im)
  {
    if n > 0 {
      ConjugateOrbit(x, y, n - 1);
      StepConjugate(Orbit(x, y, n - 1), x, y);
    }
  }

  /** One step commutes with conjugation. */
  lemma StepConjugate(z: Point, x: real, y: real)
    ensures Step(Point(z.re, -z.im), x, -y) == Point(Step(z, x, y).re, -Step(z, x, y).im)
  {
    var a, b := z.re, z.im;
    var lhs, rhs := Step(Point(a, -b), x, -y), Step(z, x, y);
    assert (-b) * (-b) == b * b;
    assert lhs.re == rhs.re;
    assert 2.0 * a * (-b) == -(2.0 * a * b);
    assert lhs.im == -rhs.im;
  }

  /** The set is symmetric about the real axis: c and its conjugate get the same
      count. */
  lemma ConjugateSymmetry(x: real, y: real, maxiter: int)
    ensures Iterations(x, -y, maxiter) == Iterations(x, y, maxiter)
  {
    var ny := -y;
    forall s | 1 <= s
      ensures EscapesAt(x, ny, s) == EscapesAt(x, y, s)
    {
      ConjugateEscapes(x, y, s);
    }
    IterationsUnique(x, ny, maxiter, Iterations(x, y, maxiter));
  }

  /** A conjugate pair passes or fails each magnitude check together. */
  lemma ConjugateEscapes(x: real, y: real, s: int)
    requires s >= 1
    ensures EscapesAt(x, -y, s) == EscapesAt(x, y, s)
  {
    ConjugateOrbit(x, y, s - 1);
    EscapedConjugate(Orbit(x, y, s - 1));
  }

  /** Conjugation keeps the squared magnitude, so it keeps the escape test. */
  lemma EscapedConjugate(z: Point)
    ensures Escaped(Point(z.re, -z.im)) == Escaped(z)
  {
    assert (-z.im) * (-z.im) == z.im * z.im;
  }

  /** A smaller budget cuts the count off and changes nothing else: the count under
      budget m is the count under any larger budget, capped at max(1, m). */
  lemma BudgetTruncation(x: real, y: real, m: int, big: int)
    requires m <= big
    ensures Iterations(x, y, m) == Min(Iterations(x, y, big), Max(1, m))
  {
    var full := Iterations(x, y, big);
    var cut := Min(full, Max(1, m));
    if cut < m {
      assert cut == full && full < big;
    }
    IterationsUnique(x, y, m, cut);
  }
}
