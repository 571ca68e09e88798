// Scalar helpers of the ray tracer (raytracer/src/basic/mod.rs) and the
// floating-point library functions the rest of the model depends on.
//
// `f64` is modelled as `real`. The library functions `sqrt`, `sin`, `cos`,
// `acos`, `atan2` and `ln` have no definition in the model: they are the
// fields of a `Libm` value that callers pass in, and `LibmLaws` states the
// few facts about them that the proofs rely on.

module Basic {

  /** `std::f64::consts::PI`, as the exact value of the double it denotes. */
  const PI: real := 3.141592653589793115997963468544185161590576171875

  datatype Option<T> = None | Some(value: T)

  /** The floating-point library functions used by the renderer. */
  datatype Libm = Libm(
    sqrt: real -> real,
    sin: real -> real,
    cos: real -> real,
    acos: real -> real,
    atan2: (real, real) -> real,
    ln: real -> real)

  /** `sqrt` is the non-negative square root on non-negative arguments. */
  ghost predicate SqrtLaw(m: Libm) {
    forall x: real {:trigger m.sqrt(x)} :: 0.0 <= x ==> 0.0 <= m.sqrt(x) && m.sqrt(x) * m.sqrt(x) == x
  }

  /** `sin` and `cos` lie in [-1, 1] and satisfy sin^2 + cos^2 = 1. */
  ghost predicate TrigLaw(m: Libm) {
    forall x: real {:trigger m.sin(x)} {:trigger m.cos(x)} ::
      -1.0 <= m.sin(x) <= 1.0 && -1.0 <= m.cos(x) <= 1.0 &&
      m.sin(x) * m.sin(x) + m.cos(x) * m.cos(x) == 1.0
  }

  /** `acos` maps into [0, PI] and `atan2` into [-PI, PI]. */
  ghost predicate AngleLaw(m: Libm) {
    (forall x: real {:trigger m.acos(x)} :: 0.0 <= m.acos(x) <= PI) &&
    (forall y: real, x: real {:trigger m.atan2(y, x)} :: -PI <= m.atan2(y, x) <= PI)
  }

  /** `ln` is non-positive on (0, 1]. */
  ghost predicate LnLaw(m: Libm) {
    forall x: real {:trigger m.ln(x)} :: 0.0 < x <= 1.0 ==> m.ln(x) <= 0.0
  }

  function Abs(x: real): (r: real)
    ensures 0.0 <= r && (r == x || r == -x)
  {
    if x < 0.0 then -x else x
  }

  /** `fmin`: the smaller argument; on a tie the second one (raytracer/src/basic/mod.rs). */
  function Fmin(a: real, b: real): (r: real)
    ensures r == a || r == b
    ensures r <= a && r <= b
  {
    if a < b then a else b
  }

  /** `fmax`: the larger argument; on a tie the first one. */
  function Fmax(a: real, b: real): (r: real)
    ensures r == a || r == b
    ensures a <= r && b <= r
  {
    if a < b then b else a
  }

  /** `clamp(value, min, max)`: `min` below the range, `max` above it, `value` otherwise. */
  function Clamp(value: real, lo: real, hi: real): (r: real)
    ensures lo <= hi ==> lo <= r <= hi
    ensures lo <= value <= hi ==> r == value
    ensures value < lo ==> r == lo
    ensures lo <= value && hi < value ==> r == hi
    ensures lo <= hi ==> r == Fmax(lo, Fmin(value, hi))
  {
    if value < lo then lo else if value > hi then hi else value
  }

  lemma ClampIdempotent(value: real, lo: real, hi: real)
    requires lo <= hi
    ensures Clamp(Clamp(value, lo, hi), lo, hi) == Clamp(value, lo, hi)
  {
  }

  /** `degrees_to_radians`: the angle in radians, so that 180 degrees is PI. */
  function DegreesToRadians(degrees: real): (r: real)
    ensures r * 180.0 == degrees * PI
  {
    degrees * PI / 180.0
  }

  lemma DegreesToRadiansFacts(a: real, b: real, k: real)
    ensures DegreesToRadians(180.0) == PI
    ensures DegreesToRadians(0.0) == 0.0
    ensures DegreesToRadians(a + b) == DegreesToRadians(a) + DegreesToRadians(b)
    ensures DegreesToRadians(k * a) == k * DegreesToRadians(a)
  {
  }

  // ---- Sign facts about products ------------------------------------------
  // The solver does not reliably combine a square's sign with linear facts
  // when the square is written `a * a`; these lemmas state such facts about
  // `Mul(a, b)`, which it treats as an ordinary term.

  function Mul(a: real, b: real): real {
    a * b
  }

  lemma MulPositive(a: real, b: real)
    requires 0.0 < a && 0.0 < b
    ensures 0.0 < Mul(a, b)
  {
  }

  lemma MulNonNegative(a: real, b: real)
    requires 0.0 <= a && 0.0 <= b
    ensures 0.0 <= Mul(a, b)
  {
    if a != 0.0 && b != 0.0 {
      MulPositive(a, b);
    }
  }

  lemma MulNegate(a: real, b: real)
    ensures Mul(-a, -b) == Mul(a, b)
  {
  }

  lemma SquarePositive(a: real)
    requires a != 0.0
    ensures 0.0 < Mul(a, a)
  {
    if 0.0 < a {
      MulPositive(a, a);
    } else {
      MulPositive(-a, -a);
      MulNegate(a, a);
    }
  }

  lemma SquareNonNegative(a: real)
    ensures 0.0 <= Mul(a, a)
  {
    if a != 0.0 {
      SquarePositive(a);
    }
  }

  lemma ZeroProduct(a: real, b: real)
    requires Mul(a, b) == 0.0
    ensures a == 0.0 || b == 0.0
  {
    if a != 0.0 && b != 0.0 {
      if 0.0 < a && 0.0 < b {
        MulPositive(a, b);
      } else if a < 0.0 && b < 0.0 {
        MulPositive(-a, -b);
        MulNegate(a, b);
      } else if a < 0.0 {
        MulPositive(-a, b);
      } else {
        MulPositive(a, -b);
      }
    }
  }

  lemma MulMonotone(a: real, b: real, c: real)
    requires a <= b && 0.0 <= c
    ensures Mul(a, c) <= Mul(b, c)
  {
    MulNonNegative(b - a, c);
    assert Mul(b, c) - Mul(a, c) == Mul(b - a, c);
  }

  lemma MulStrict(a: real, b: real, c: real)
    requires a < b && 0.0 < c
    ensures Mul(a, c) < Mul(b, c)
  {
    MulPositive(b - a, c);
    assert Mul(b, c) - Mul(a, c) == Mul(b - a, c);
  }

  lemma SquareBelow(b: real, s: real)
    requires 0.0 <= b < s
    ensures Mul(b, b) < Mul(s, s)
  {
    MulPositive(s - b, s + b);
    assert Mul(s, s) - Mul(b, b) == Mul(s - b, s + b);
  }

  /** The sign of `d * x` for a non-zero `d`. */
  lemma MulSign(d: real, x: real)
    requires d != 0.0
    ensures 0.0 < d ==> (0.0 < Mul(d, x) <==> 0.0 < x) && (0.0 <= Mul(d, x) <==> 0.0 <= x)
    ensures d < 0.0 ==> (0.0 < Mul(d, x) <==> x < 0.0) && (0.0 <= Mul(d, x) <==> x <= 0.0)
  {
    if 0.0 < x {
      if 0.0 < d {
        MulPositive(d, x);
      } else {
        MulPositive(-d, x);
      }
    } else if x < 0.0 {
      if 0.0 < d {
        MulPositive(d, -x);
      } else {
        MulPositive(-d, -x);
        MulNegate(d, x);
      }
    }
  }

  /** Multiplying by `1/d` undoes multiplying by `d`. */
  lemma MulInverse(d: real, c: real)
    requires d != 0.0
    ensures Mul(d, Mul(c, 1.0 / d)) == c
  {
  }

  lemma MulDistributes(d: real, t: real, q: real)
    ensures Mul(d, t) - Mul(d, q) == Mul(d, t - q)
  {
  }

  /** `1/d` has the sign of `d`. */
  lemma InverseSign(d: real)
    requires d != 0.0
    ensures 0.0 < 1.0 / d <==> 0.0 < d
  {
    MulInverse(d, 1.0);
    MulSign(d, 1.0 / d);
  }
}
