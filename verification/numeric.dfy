/** Real-number helpers shared by the physical models: the numpy reductions the
    models apply to pairs of values, Python's int() truncation, np.pi, and the
    laws of the exponential.

    The exponential is never evaluated. Every model that needs it takes the
    function as a parameter `exp` constrained only by `ExpLaws`, so each
    property proved here holds for the true exponential and for anything else
    that obeys those laws. */
module Numeric {

  /** A float result that is either a finite number or one of numpy's inf and
      nan, which a float division by zero produces instead of raising. */
  datatype Float = Finite(value: real) | NonFinite

  /** The double-precision value of np.pi. */
  const Pi: real := 3.141592653589793

  /** np.max over a pair of values. */
  function Max(a: real, b: real): (r: real)
    ensures a <= r && b <= r
    ensures r == a || r == b
  {
    if a >= b then a else b
  }

  /** np.min over a pair of values. */
  function Min(a: real, b: real): (r: real)
    ensures r <= a && r <= b
    ensures r == a || r == b
  {
    if a <= b then a else b
  }

  lemma MinMonotone(a: real, b: real, c: real)
    requires a <= b
    ensures Min(a, c) <= Min(b, c)
  {
  }

  /** np.clip(x, lo, hi), which numpy computes as min(max(x, lo), hi). */
  function Clip(x: real, lo: real, hi: real): (r: real)
    ensures r <= hi
    ensures lo <= hi ==> lo <= r
    ensures lo <= x <= hi ==> r == x
    ensures x <= lo <= hi ==> r == lo
    ensures lo <= hi <= x ==> r == hi
  {
    Min(Max(x, lo), hi)
  }

  lemma ClipMonotone(x: real, y: real, lo: real, hi: real)
    requires x <= y
    ensures Clip(x, lo, hi) <= Clip(y, lo, hi)
  {
  }

  /** Python's int() applied to a float: rounds toward zero. */
  function Trunc(x: real): (n: int)
    ensures 0.0 <= x ==> 0 <= n && n as real <= x < n as real + 1.0
    ensures x < 0.0 ==> n <= 0 && n as real - 1.0 < x <= n as real
  {
    if x >= 0.0 then x.Floor else -((-x).Floor)
  }

  /** x raised to a natural power, as `x**n`. */
  function Pow(x: real, n: nat): real
  {
    if n == 0 then 1.0 else x * Pow(x, n - 1)
  }

  /** Powers of non-negative numbers are non-negative and keep order. */
  lemma {:induction false} PowMonotone(a: real, b: real, n: nat)
    requires 0.0 <= a <= b
    ensures 0.0 <= Pow(a, n) <= Pow(b, n)
  {
    if n > 0 {
      PowMonotone(a, b, n - 1);
      MulNonNegative(a, Pow(a, n - 1));
      MulMonotone(a, b, Pow(a, n - 1));
      MulMonotone(Pow(a, n - 1), Pow(b, n - 1), b);
    }
  }

  /** The laws of the exponential that the models rely on. */
  ghost predicate ExpLaws(exp: real -> real)
  {
    && exp(0.0) == 1.0
    && (forall x :: 0.0 < exp(x))
    && (forall x, y :: x < y ==> exp(x) < exp(y))
  }

  lemma ExpOfNegative(exp: real -> real, x: real)
    requires ExpLaws(exp)
    requires x < 0.0
    ensures 0.0 < exp(x) < 1.0
  {
  }

  lemma ExpOfNonPositive(exp: real -> real, x: real)
    requires ExpLaws(exp)
    requires x <= 0.0
    ensures 0.0 < exp(x) <= 1.0
  {
  }

  lemma ExpMonotone(exp: real -> real, x: real, y: real)
    requires ExpLaws(exp)
    requires x <= y
    ensures exp(x) <= exp(y)
  {
  }

  /** Dividing by a positive number keeps order. */
  lemma DivMonotone(x: real, y: real, c: real)
    requires 0.0 < c
    requires x <= y
    ensures x / c <= y / c
  {
  }

  /** A non-negative numerator over a larger positive divisor gives a smaller quotient. */
  lemma DivAntitone(x: real, c: real, d: real)
    requires 0.0 <= x
    requires 0.0 < c <= d
    ensures x / d <= x / c
  {
    assert x / d * d == x;
    assert x / c * c == x;
    assert x / d * c <= x / d * d;
  }

  lemma DivPositive(x: real, c: real)
    requires 0.0 < x && 0.0 < c
    ensures 0.0 < x / c
  {
    assert x / c * c == x;
  }

  lemma MulPositive(a: real, b: real)
    requires 0.0 < a && 0.0 < b
    ensures 0.0 < a * b
  {
  }

  lemma MulNonNegative(a: real, b: real)
    requires 0.0 <= a && 0.0 <= b
    ensures 0.0 <= a * b
  {
  }

  /** Multiplying by a positive factor keeps strict order. */
  lemma MulStrictMonotone(x: real, y: real, c: real)
    requires 0.0 < c
    requires x < y
    ensures x * c < y * c
  {
  }

  /** If x / d lies in [n, n + 1) for a positive d, then n steps of length d fit
      in x and n + 1 steps do not. */
  lemma QuotientFits(x: real, d: real, n: int)
    requires 0.0 < d
    requires n as real <= x / d < (n + 1) as real
    ensures n as real * d <= x
    ensures x < (n + 1) as real * d
  {
    var q := x / d;
    assert q * d == x;
    MulMonotone(n as real, q, d);
    MulStrictMonotone(q, (n + 1) as real, d);
  }

  /** A non-negative quotient with bounded numerator factor and floored divisor
      stays below the bound over the floor. */
  lemma QuotientBounds(g: real, eta: real, cap: real, e: real, floor: real)
    requires 0.0 <= g && 0.0 <= eta <= cap
    requires 0.0 < floor <= e
    ensures 0.0 <= g * eta / e <= g * cap / floor
  {
    MulNonNegative(g, eta);
    MulMonotone(eta, cap, g);
    assert g * eta <= g * cap;
    DivAntitone(g * eta, floor, e);
    DivMonotone(g * eta, g * cap, floor);
  }

  /** Products of non-negative numbers keep the order of both factors. */
  lemma MulMonotoneBoth(a: real, b: real, c: real, d: real)
    requires 0.0 <= a <= b && 0.0 <= c <= d
    ensures a * c <= b * d
  {
    MulMonotone(a, b, c);
    MulMonotone(c, d, b);
  }

  /** A non-negative number scaled by a factor of at least one does not shrink. */
  lemma ScaleAtLeast(x: real, g: real)
    ensures 0.0 <= x && 1.0 <= g ==> x <= x * g
  {
    if 0.0 <= x && 1.0 <= g {
      MulMonotone(1.0, g, x);
    }
  }

  /** A non-negative number divided by a fraction in (0, 1] does not shrink. */
  lemma DivByFraction(x: real, d: real)
    requires 0.0 < d <= 1.0
    ensures 0.0 <= x ==> x <= x / d
  {
    if 0.0 <= x {
      DivAntitone(x, d, 1.0);
    }
  }

  /** A quotient of a non-negative number by a positive one is non-negative. */
  lemma DivNonNegative(x: real, c: real)
    requires 0.0 < c
    ensures 0.0 <= x ==> 0.0 <= x / c
  {
    if x > 0.0 {
      DivPositive(x, c);
    }
  }

  /** If a times a positive c gives a positive k, then a is positive. */
  lemma FactorPositive(a: real, c: real, k: real)
    requires 0.0 < c && 0.0 < k
    requires a * c == k
    ensures 0.0 < a
  {
    if a <= 0.0 {
      MulMonotone(a, 0.0, c);
      assert false;
    }
  }

  /** Multiplying by a non-negative factor keeps order. */
  lemma MulMonotone(x: real, y: real, c: real)
    requires 0.0 <= c
    requires x <= y
    ensures x * c <= y * c
  {
  }
}
