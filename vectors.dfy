// Three-component vectors (Book2/basic/vec3.rs, raytracer/src/vec3.rs).
//
// Both files define the same `Vec3` with the same operators; the Book2 copy
// adds the Hadamard product, `near_zero`, `reflect`, `refract` and the
// rejection samplers. The operators become functions on the `Vec3` value;
// the `*Assign` operators, which overwrite `*self`, are the methods of the
// `MutVec3` class.

module Vectors {
  import opened Basic

  datatype Vec3 = Vec3(x: real, y: real, z: real)
  {
    /** Component `i`, like indexing the source's `e: [f64; 3]`. */
    function E(i: nat): (r: real)
      requires i < 3
      ensures i == 0 ==> r == x
      ensures i == 1 ==> r == y
      ensures i == 2 ==> r == z
    {
      if i == 0 then x else if i == 1 then y else z
    }
  }

  const Zero: Vec3 := Vec3(0.0, 0.0, 0.0)

  /** `Vec3 + Vec3`. */
  function Add(a: Vec3, b: Vec3): Vec3 {
    Vec3(a.x + b.x, a.y + b.y, a.z + b.z)
  }

  /** `Vec3 - Vec3`. */
  function Sub(a: Vec3, b: Vec3): Vec3 {
    Vec3(a.x - b.x, a.y - b.y, a.z - b.z)
  }

  /** `Vec3 * f64`. */
  function Scale(a: Vec3, t: real): Vec3 {
    Vec3(a.x * t, a.y * t, a.z * t)
  }

  /** `Vec3 / f64`, written in the source as multiplication by `1/x`. */
  function Div(a: Vec3, t: real): Vec3
    requires t != 0.0
  {
    Scale(a, 1.0 / t)
  }

  /** `Vec3::mul(&self, a)`: the componentwise (Hadamard) product. */
  function Hadamard(a: Vec3, b: Vec3): Vec3 {
    Vec3(a.x * b.x, a.y * b.y, a.z * b.z)
  }

  /** `dot(a, b)`, which is also what the `Vec3 * Vec3` operator computes. */
  function Dot(a: Vec3, b: Vec3): real {
    a.x * b.x + a.y * b.y + a.z * b.z
  }

  function Cross(u: Vec3, v: Vec3): Vec3 {
    Vec3(u.y * v.z - u.z * v.y, u.z * v.x - u.x * v.z, u.x * v.y - u.y * v.x)
  }

  function LengthSquared(v: Vec3): (r: real)
    ensures 0.0 <= r
  {
    v.x * v.x + v.y * v.y + v.z * v.z
  }

  function Length(m: Libm, v: Vec3): real {
    m.sqrt(LengthSquared(v))
  }

  /** `unit_vector(v) = v / v.length()`; a zero vector would divide by zero. */
  function UnitVector(m: Libm, v: Vec3): Vec3
    requires Length(m, v) != 0.0
  {
    Div(v, Length(m, v))
  }

  /** `near_zero`: every component is below 1e-8 in absolute value. */
  predicate NearZero(v: Vec3) {
    Abs(v.x) < 0.00000001 && Abs(v.y) < 0.00000001 && Abs(v.z) < 0.00000001
  }

  /** `reflect(v, n) = v - n * (2 * dot(v, n))`. */
  function Reflect(v: Vec3, n: Vec3): Vec3 {
    Sub(v, Scale(n, 2.0 * Dot(v, n)))
  }

  /** The two parts `refract` adds up: the part perpendicular to `n` and the part along it. */
  function RefractPerp(uv: Vec3, n: Vec3, eta: real): Vec3 {
    Scale(Add(uv, Scale(n, Fmin(Dot(Sub(Zero, uv), n), 1.0))), eta)
  }

  function Refract(m: Libm, uv: Vec3, n: Vec3, eta: real): Vec3 {
    var perp := RefractPerp(uv, n, eta);
    Add(perp, Scale(n, -m.sqrt(Abs(1.0 - LengthSquared(perp)))))
  }

  // ---- Algebraic laws -------------------------------------------------

  lemma AddSubCancel(a: Vec3, b: Vec3)
    ensures Sub(Add(a, b), b) == a
    ensures Add(Sub(a, b), b) == a
  {
  }

  lemma DotFacts(a: Vec3, b: Vec3, c: Vec3, t: real)
    ensures Dot(a, b) == Dot(b, a)
    ensures LengthSquared(a) == Dot(a, a)
    ensures Dot(Add(a, b), c) == Dot(a, c) + Dot(b, c)
    ensures Dot(Scale(a, t), b) == t * Dot(a, b)
  {
  }

  lemma CrossFacts(u: Vec3, v: Vec3)
    ensures Cross(u, v) == Scale(Cross(v, u), -1.0)
    ensures Dot(Cross(u, v), u) == 0.0
    ensures Dot(Cross(u, v), v) == 0.0
  {
  }

  // ---- Real-arithmetic steps the solver does not take on its own --------

  /** |a + t b|^2 = |a|^2 + 2t (a . b) + t^2 |b|^2. */
  lemma LengthSquaredAddScaled(a: Vec3, b: Vec3, t: real)
    ensures LengthSquared(Add(a, Scale(b, t))) ==
      LengthSquared(a) + 2.0 * t * Dot(a, b) + t * t * LengthSquared(b)
  {
    SquareExpand(a.x, b.x, t);
    SquareExpand(a.y, b.y, t);
    SquareExpand(a.z, b.z, t);
  }

  lemma SquareExpand(a: real, b: real, t: real)
    ensures (a + b * t) * (a + b * t) == a * a + 2.0 * t * (a * b) + t * t * (b * b)
  {
  }

  /** `sqrt(s * s) == s` for `s >= 0`. */
  lemma SqrtOfSquare(m: Libm, s: real)
    requires SqrtLaw(m)
    requires 0.0 <= s
    ensures m.sqrt(s * s) == s
  {
    var q := m.sqrt(s * s);
    assert 0.0 <= q && q * q == s * s;
    assert Mul(q - s, q + s) == 0.0;
    ZeroProduct(q - s, q + s);
  }

  /** The square root is the one non-negative number whose square is the argument. */
  lemma SqrtUnique(m: Libm, x: real, y: real)
    requires SqrtLaw(m) && 0.0 <= y && y * y == x
    ensures m.sqrt(x) == y
  {
    SqrtOfSquare(m, y);
  }

  lemma NonZeroIsLong(v: Vec3)
    requires v != Zero
    ensures LengthSquared(v) > 0.0
  {
    SquareNonNegative(v.x);
    SquareNonNegative(v.y);
    SquareNonNegative(v.z);
    if v.x != 0.0 {
      SquarePositive(v.x);
    } else if v.y != 0.0 {
      SquarePositive(v.y);
    } else {
      SquarePositive(v.z);
    }
  }

  lemma ScaleLengthSquared(v: Vec3, k: real)
    ensures LengthSquared(Scale(v, k)) == k * k * LengthSquared(v)
    ensures Dot(Scale(v, k), v) == k * LengthSquared(v)
  {
  }

  lemma InverseSquare(l: real)
    requires l != 0.0
    ensures (1.0 / l) * (1.0 / l) * (l * l) == 1.0
    ensures (1.0 / l) * (l * l) == l
  {
    var k := 1.0 / l;
    assert k * l == 1.0;
    assert k * k * (l * l) == (k * l) * (k * l);
    assert k * (l * l) == (k * l) * l;
  }

  /** A non-zero vector has non-zero length, and `unit_vector` gives it length one. */
  lemma UnitVectorIsUnit(m: Libm, v: Vec3)
    requires SqrtLaw(m)
    requires v != Zero
    ensures Length(m, v) > 0.0
    ensures LengthSquared(UnitVector(m, v)) == 1.0
    ensures Dot(UnitVector(m, v), v) == Length(m, v)
  {
    var s := LengthSquared(v);
    NonZeroIsLong(v);
    var l := Length(m, v);
    assert 0.0 <= l && l * l == s;
    assert l != 0.0;
    ScaleLengthSquared(v, 1.0 / l);
    InverseSquare(l);
  }

  /** Two unit vectors have a dot product in [-1, 1]. */
  lemma DotOfUnits(a: Vec3, b: Vec3)
    requires LengthSquared(a) == 1.0 && LengthSquared(b) == 1.0
    ensures -1.0 <= Dot(a, b) <= 1.0
  {
    LengthSquaredAddScaled(a, b, -1.0);
    assert 0.0 <= LengthSquared(Add(a, Scale(b, -1.0))) == 2.0 - 2.0 * Dot(a, b);
    LengthSquaredAddScaled(a, b, 1.0);
    assert 0.0 <= LengthSquared(Add(a, Scale(b, 1.0))) == 2.0 + 2.0 * Dot(a, b);
  }

  /** A vector within 1e-8 on every axis has squared length below 3e-16. */
  lemma NearZeroIsShort(v: Vec3)
    requires NearZero(v)
    ensures LengthSquared(v) < 0.0000000000000003
  {
    var s := 0.00000001;
    SquareBelowBound(v.x, s);
    SquareBelowBound(v.y, s);
    SquareBelowBound(v.z, s);
  }

  lemma SquareBelowBound(a: real, s: real)
    requires Abs(a) < s
    ensures a * a < s * s
  {
    SquareBelow(Abs(a), s);
    MulNegate(a, a);
  }

  /** `reflect` about a unit normal, written as `v + n * (-2 dot(v, n))`. */
  lemma ReflectAsAdd(v: Vec3, n: Vec3)
    ensures Reflect(v, n) == Add(v, Scale(n, -2.0 * Dot(v, n)))
  {
  }

  /** Reflecting about a unit normal flips the component along the normal. */
  lemma ReflectFlipsNormalPart(v: Vec3, n: Vec3)
    requires LengthSquared(n) == 1.0
    ensures Dot(Reflect(v, n), n) == -Dot(v, n)
  {
    var d := Dot(v, n);
    ReflectAsAdd(v, n);
    DotFacts(v, Scale(n, -2.0 * d), n, 0.0);
    DotFacts(n, n, n, -2.0 * d);
    assert Dot(Scale(n, -2.0 * d), n) == -2.0 * d * 1.0;
  }

  /** Reflecting about a unit normal keeps the length. */
  lemma ReflectKeepsLength(v: Vec3, n: Vec3)
    requires LengthSquared(n) == 1.0
    ensures LengthSquared(Reflect(v, n)) == LengthSquared(v)
  {
    var d := Dot(v, n);
    var t := -2.0 * d;
    ReflectAsAdd(v, n);
    LengthSquaredAddScaled(v, n, t);
    assert LengthSquared(Reflect(v, n)) == LengthSquared(v) + 2.0 * t * d + t * t * 1.0;
    assert 2.0 * t * d + t * t == 0.0;
  }

  /** Reflecting twice about the same unit normal gives the original vector back. */
  lemma ReflectInvolution(v: Vec3, n: Vec3)
    requires LengthSquared(n) == 1.0
    ensures Reflect(Reflect(v, n), n) == v
  {
    var r := Reflect(v, n);
    ReflectFlipsNormalPart(v, n);
    assert Reflect(r, n) == Sub(r, Scale(n, -2.0 * Dot(v, n)));
  }

  /**
   * Refraction between two media of the same index (`eta == 1`) does not bend
   * a unit ray that meets the unit normal from its front side.
   */
  lemma RefractSameMedium(m: Libm, uv: Vec3, n: Vec3)
    requires SqrtLaw(m)
    requires LengthSquared(uv) == 1.0 && LengthSquared(n) == 1.0
    requires Dot(uv, n) <= 0.0
    ensures Refract(m, uv, n, 1.0) == uv
  {
    var c := -Dot(uv, n);
    assert Dot(Sub(Zero, uv), n) == c;
    assert c <= 1.0 by {
      LengthSquaredAddScaled(uv, n, 1.0);
      assert 0.0 <= LengthSquared(Add(uv, Scale(n, 1.0)));
    }
    var perp := RefractPerp(uv, n, 1.0);
    assert perp == Add(uv, Scale(n, c));
    LengthSquaredAddScaled(uv, n, c);
    assert LengthSquared(perp) == 1.0 + 2.0 * c * (-c) + c * c * 1.0;
    assert Abs(1.0 - LengthSquared(perp)) == c * c;
    SqrtOfSquare(m, c);
    assert Refract(m, uv, n, 1.0) == Add(perp, Scale(n, -c));
  }

  /** `random_unit_vector`: a point drawn inside the unit sphere, normalised. */
  function RandomUnitVector(m: Libm, inSphere: Vec3): (r: Vec3)
    requires SqrtLaw(m)
    requires inSphere != Zero
    ensures LengthSquared(r) == 1.0
  {
    UnitVectorIsUnit(m, inSphere);
    UnitVector(m, inSphere)
  }

  /** Every draw of the stream is a `random_double()` in [0, 1). */
  ghost predicate UnitDraws(draws: nat -> real) {
    forall i :: 0.0 <= draws(i) < 1.0
  }

  /** `random_double_lr(min, max) = min + random_double() * (max - min)`, for the draw `draw`. */
  function RandomDoubleLr(lo: real, hi: real, draw: real): (r: real)
    requires 0.0 <= draw < 1.0 && lo < hi
    ensures lo <= r < hi
  {
    MulStrict(draw, 1.0, hi - lo);
    MulMonotone(0.0, draw, hi - lo);
    lo + draw * (hi - lo)
  }

  /**
   * `random_int_lr(min, max)`: `random_double_lr(min, max + 1) as isize`, where
   * `draw` is the `random_double()` in [0, 1) and the cast truncates toward zero.
   */
  function RandomIntLr(lo: int, hi: int, draw: real): (r: int)
    requires 0.0 <= draw < 1.0
    requires 0 <= lo <= hi
    ensures lo <= r <= hi
  {
    var w := (hi + 1 - lo) as real;
    assert w == (hi + 1) as real - lo as real;
    var d := lo as real + draw * w;
    assert lo as real <= d < (hi + 1) as real by {
      MulStrict(draw, 1.0, w);
      MulMonotone(0.0, draw, w);
    }
    TruncToward0(d)
  }

  /** The `as isize` cast of a double: truncation toward zero. */
  function TruncToward0(d: real): (r: int)
    ensures 0.0 <= d ==> r as real <= d < r as real + 1.0
    ensures d < 0.0 ==> r as real - 1.0 < d <= r as real
  {
    if 0.0 <= d then d.Floor else -((-d).Floor)
  }

  // ---- Rejection samplers ---------------------------------------------

  /**
   * `random_in_unit_sphere`: the attempts are the successive `random_lr(-1, 1)`
   * draws; the first one strictly inside the unit ball is returned. `None`
   * means that every attempt given was rejected (the source would keep drawing).
   */
  method RandomInUnitSphere(attempts: seq<Vec3>) returns (p: Option<Vec3>)
    ensures p.Some? ==> LengthSquared(p.value) < 1.0
    ensures p.Some? ==> exists k :: 0 <= k < |attempts| && attempts[k] == p.value &&
                                  forall j :: 0 <= j < k ==> LengthSquared(attempts[j]) >= 1.0
    ensures p.None? ==> forall j :: 0 <= j < |attempts| ==> LengthSquared(attempts[j]) >= 1.0
  {
    var i := 0;
    while i < |attempts|
      invariant 0 <= i <= |attempts|
      invariant forall j :: 0 <= j < i ==> LengthSquared(attempts[j]) >= 1.0
    {
      if LengthSquared(attempts[i]) < 1.0 {
        return Some(attempts[i]);
      }
      i := i + 1;
    }
    return None;
  }

  /**
   * `random_in_unit_disk`: each attempt is a pair of `random_double_lr(-1, 1)`
   * draws for x and y, with z = 0; the first one inside the unit disk is returned.
   */
  method RandomInUnitDisk(attempts: seq<(real, real)>) returns (p: Option<Vec3>)
    ensures p.Some? ==> LengthSquared(p.value) < 1.0 && p.value.z == 0.0
    ensures p.Some? ==> exists k :: 0 <= k < |attempts| && p.value == Vec3(attempts[k].0, attempts[k].1, 0.0) &&
                                  forall j :: 0 <= j < k ==> attempts[j].0 * attempts[j].0 + attempts[j].1 * attempts[j].1 >= 1.0
    ensures p.None? ==> forall j :: 0 <= j < |attempts| ==> attempts[j].0 * attempts[j].0 + attempts[j].1 * attempts[j].1 >= 1.0
  {
    var i := 0;
    while i < |attempts|
      invariant 0 <= i <= |attempts|
      invariant forall j :: 0 <= j < i ==> attempts[j].0 * attempts[j].0 + attempts[j].1 * attempts[j].1 >= 1.0
    {
      var q := Vec3(attempts[i].0, attempts[i].1, 0.0);
      if LengthSquared(q) < 1.0 {
        return Some(q);
      }
      i := i + 1;
    }
    return None;
  }

  // ---- The assigning operators -----------------------------------------

  /** A `Vec3` variable that the `*Assign` operators overwrite in place. */
  class MutVec3 {
    var value: Vec3

    constructor (v: Vec3)
      ensures value == v
    {
      value := v;
    }

    /** `+=`: the same value as `value + other`. */
    method AddAssign(other: Vec3)
      modifies this
      ensures value == Add(old(value), other)
    {
      value := Vec3(value.x + other.x, value.y + other.y, value.z + other.z);
    }

    /** `-=`: the same value as `value - other`. */
    method SubAssign(other: Vec3)
      modifies this
      ensures value == Sub(old(value), other)
    {
      value := Vec3(value.x - other.x, value.y - other.y, value.z - other.z);
    }

    /** `*= t`: the same value as `value * t`. */
    method MulAssign(t: real)
      modifies this
      ensures value == Scale(old(value), t)
    {
      value := Vec3(value.x * t, value.y * t, value.z * t);
    }

    /** `/= t` divides each component, which equals `value / t`, that is `value * (1/t)`. */
    method DivAssign(t: real)
      requires t != 0.0
      modifies this
      ensures value == Div(old(value), t)
    {
      value := Vec3(value.x / t, value.y / t, value.z / t);
    }
  }
}
