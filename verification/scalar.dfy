/**
 Scalar helpers of the engine (css3d.math): linear interpolation and the
 two easing curves, plus the transcendental functions the kernel calls.

 `Math.sqrt`, `Math.sin`, `Math.cos` and `Math.acos` have no exact real
 counterpart here, so they are passed in as a `MathLib` value; every lemma
 that relies on one of them states, as a precondition, exactly the property
 of that function it needs.
 */
module Scalar {

  /** The transcendental functions the kernel uses, left uninterpreted. */
  datatype MathLib = MathLib(
    sqrt: real -> real,
    sin: real -> real,
    cos: real -> real,
    acos: real -> real)

  /** `Math.sqrt` is positive on positive arguments. */
  ghost predicate SqrtPositive(lib: MathLib)
  {
    forall x :: 0.0 < x ==> 0.0 < lib.sqrt(x)
  }

  /**
   `Math.sqrt` is the non-negative square root on non-negative arguments
   (and so positive on positive ones).
   */
  ghost predicate ValidSqrt(lib: MathLib)
  {
    SqrtPositive(lib) &&
    forall x :: 0.0 <= x ==> 0.0 <= lib.sqrt(x) && lib.sqrt(x) * lib.sqrt(x) == x
  }

  /** A non-negative number whose square is `u * u` (u >= 0) is `u`. */
  lemma SquareRootUnique(s: real, u: real)
    requires 0.0 <= s && 0.0 <= u && s * s == u * u
    ensures s == u
  {
    if s < u {
      ProductSign(s + u, u - s);
    } else if u < s {
      ProductSign(s + u, s - u);
    }
  }

  /** A valid square root of x = u * u is `|u|`. */
  lemma SqrtOfSquare(lib: MathLib, u: real, x: real)
    requires ValidSqrt(lib)
    requires x == u * u
    ensures lib.sqrt(x) == Abs(u)
  {
    SquareSign(u);
    assert Abs(u) * Abs(u) == u * u;
    SquareRootUnique(lib.sqrt(x), Abs(u));
  }

  /** `Math.sqrt(1) == 1` when the square root is valid. */
  lemma SqrtOfOne(lib: MathLib)
    requires ValidSqrt(lib)
    ensures lib.sqrt(1.0) == 1.0
  {
    SqrtOfSquare(lib, 1.0, 1.0);
  }

  // Sign facts are stated about `Product(a, b)` rather than `a * b`: the
  // solver rewrites comparisons of a bare square with zero, after which it
  // no longer connects them to the terms that equal that square.

  /** The product of two reals, named so that sign facts about it stay linear. */
  function Product(a: real, b: real): real
  {
    a * b
  }

  /** The rule of signs for a product. */
  lemma ProductSign(a: real, b: real)
    ensures 0.0 < a && 0.0 < b ==> 0.0 < Product(a, b)
    ensures a < 0.0 && b < 0.0 ==> 0.0 < Product(a, b)
    ensures 0.0 <= a && 0.0 <= b ==> 0.0 <= Product(a, b)
    ensures a <= 0.0 && b <= 0.0 ==> 0.0 <= Product(a, b)
  {
    if a < 0.0 && b < 0.0 {
      assert Product(a, b) == (-a) * (-b);
    }
  }

  /** A square is never negative, and is positive off zero. */
  lemma SquareSign(a: real)
    ensures 0.0 <= Product(a, a)
    ensures a != 0.0 ==> 0.0 < Product(a, a)
  {
    ProductSign(a, a);
  }

  lemma ZeroProduct(p: real, q: real)
    requires q == 0.0
    ensures p * q == 0.0
  {
  }

  lemma CancelFactor(a: real, d: real)
    requires d != 0.0
    ensures (d * a) / d == a
  {
  }

  lemma DivIsMulInverse(x: real, m: real)
    requires m != 0.0
    ensures x / m == x * (1.0 / m)
  {
  }

  lemma InverseCancels(m: real)
    requires m != 0.0
    ensures m * (1.0 / m) == 1.0
  {
  }

  /**
   Dividing four numbers by the square root of the sum of their squares
   gives four numbers whose squares sum to one.
   */
  lemma UnitAfterDivide(x: real, y: real, z: real, w: real, m: real)
    requires m * m == x * x + y * y + z * z + w * w
    requires 0.0 < m
    ensures (x / m) * (x / m) + (y / m) * (y / m) + (z / m) * (z / m) + (w / m) * (w / m) == 1.0
  {
    DivIsMulInverse(x, m);
    DivIsMulInverse(y, m);
    DivIsMulInverse(z, m);
    DivIsMulInverse(w, m);
    InverseCancels(m);
    UnitCertificate(x, y, z, w, m, 1.0 / m);
    ZeroProduct((1.0 / m) * (1.0 / m), x * x + y * y + z * z + w * w - m * m);
    ZeroProduct(m * (1.0 / m) + 1.0, m * (1.0 / m) - 1.0);
  }

  lemma UnitCertificate(x: real, y: real, z: real, w: real, m: real, k: real)
    ensures (x * k) * (x * k) + (y * k) * (y * k) + (z * k) * (z * k) + (w * k) * (w * k) - 1.0
         == (k * k) * (x * x + y * y + z * z + w * w - m * m) + (m * k + 1.0) * (m * k - 1.0)
  {
  }

  function Abs(x: real): (r: real)
    ensures 0.0 <= r
    ensures r == x || r == -x
  {
    if x < 0.0 then -x else x
  }

  /** `Math.max` of two numbers. */
  function Max(a: real, b: real): (r: real)
    ensures a <= r && b <= r
    ensures r == a || r == b
  {
    if a < b then b else a
  }

  /** `css3d.math.lerp`: moves from `value1` towards `value2` by `amount`. */
  function Lerp(value1: real, value2: real, amount: real): real
  {
    value1 + (value2 - value1) * amount
  }

  /** `lerp` hits its two end points and is constant between equal ends. */
  lemma LerpEndpoints(a: real, b: real, t: real)
    ensures Lerp(a, b, 0.0) == a
    ensures Lerp(a, b, 1.0) == b
    ensures Lerp(a, a, t) == a
  {
  }

  /** A non-negative factor keeps an inequality: `k * a <= k * b`. */
  lemma MulLeft(k: real, a: real, b: real)
    requires 0.0 <= k && a <= b
    ensures k * a <= k * b
  {
    assert k * b - k * a == k * (b - a);
    assert 0.0 <= k * (b - a);
  }

  /** For an amount in [0,1] the result lies between the two values. */
  lemma LerpBetween(a: real, b: real, t: real)
    requires 0.0 <= t <= 1.0
    ensures a <= b ==> a <= Lerp(a, b, t) <= b
    ensures b <= a ==> b <= Lerp(a, b, t) <= a
  {
    var k := b - a;
    assert Lerp(a, b, t) == a + k * t;
    if 0.0 <= k {
      MulBounds(k, t);
    } else {
      MulBounds(-k, t);
      assert k * t == -((-k) * t);
    }
  }

  /** `0 <= k * t <= k` when k >= 0 and t is in [0,1]. */
  lemma MulBounds(k: real, t: real)
    requires 0.0 <= k && 0.0 <= t <= 1.0
    ensures 0.0 <= k * t <= k
  {
    assert k - k * t == k * (1.0 - t);
  }

  /** `interpolation.hermite`: a lerp from 0 to 1 by t*t*(3 - 2t). */
  function Hermite(t: real): real
  {
    Lerp(0.0, 1.0, t * t * (3.0 - 2.0 * t))
  }

  /** `interpolation.smoothStep`, written as the source does with v = t/1. */
  function SmoothStep(t: real): real
  {
    var v := t / 1.0;
    -2.0 * v * v * v + 3.0 * v * v
  }

  /** Both easing curves are the cubic 3t^2 - 2t^3. */
  lemma HermiteIsSmoothStep(t: real)
    ensures Hermite(t) == SmoothStep(t) == 3.0 * t * t - 2.0 * t * t * t
  {
  }

  /** The smooth step fixes 0, 1/2 and 1. */
  lemma SmoothStepFixedPoints()
    ensures SmoothStep(0.0) == 0.0
    ensures SmoothStep(0.5) == 0.5
    ensures SmoothStep(1.0) == 1.0
  {
  }

  /** On [0,1] the smooth step stays in [0,1]. */
  lemma SmoothStepBounded(t: real)
    requires 0.0 <= t <= 1.0
    ensures 0.0 <= SmoothStep(t) <= 1.0
  {
    var u := 1.0 - t;
    var tt := t * t;
    var uu := u * u;
    assert SmoothStep(t) == tt * (3.0 - 2.0 * t);
    assert 1.0 - SmoothStep(t) == uu * (1.0 + 2.0 * t);
    MulLeft(t, 0.0, t);
    MulLeft(u, 0.0, u);
    assert t * 0.0 == 0.0 && u * 0.0 == 0.0;
    MulLeft(tt, 0.0, 3.0 - 2.0 * t);
    MulLeft(uu, 0.0, 1.0 + 2.0 * t);
    assert tt * 0.0 == 0.0 && uu * 0.0 == 0.0;
  }
}
