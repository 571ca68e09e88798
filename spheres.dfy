// The geometry shared by the spheres of raytracer/src/hittable/sphere.rs,
// raytracer/src/sphere.rs and raytracer/src/hittable/moving_sphere.rs: the
// quadratic whose roots are where a ray meets a sphere, the choice between
// its two roots, `get_sphere_uv`, the radius box and the moving centre.
//
// `half_b.powi(2)` is `half_b * half_b`. A ray with a zero direction makes
// `a` and `half_b` zero, so the roots are 0/0, a NaN that every comparison
// with the window lets through; the model reports a miss when `a` is zero.

module Spheres {
  import opened Basic
  import opened Vectors
  import opened Rays
  import opened BoundingBox
  import opened HitRecords

  /** `a`, `half_b` and `c` of the quadratic `a t^2 + 2 half_b t + c`. */
  datatype Quadratic = Quadratic(a: real, halfB: real, c: real)

  /** `oc = start - center`, `a = |dir|^2`, `half_b = oc . dir` and `c = |oc|^2 - radius^2`. */
  function SphereQuadratic(center: Vec3, radius: real, r: Ray): (q: Quadratic)
    ensures q.a == LengthSquared(r.dir)
  {
    var oc := Sub(r.GetStart(), center);
    Quadratic(LengthSquared(r.GetDir()), Dot(oc, r.GetDir()), LengthSquared(oc) - radius * radius)
  }

  /** The quadratic at `t` is how far `at(t)` is from lying on the sphere. */
  lemma SphereQuadraticMeaning(center: Vec3, radius: real, r: Ray, q: Quadratic, t: real)
    requires q == SphereQuadratic(center, radius, r)
    ensures q.a * t * t + 2.0 * q.halfB * t + q.c == LengthSquared(Sub(r.At(t), center)) - radius * radius
  {
    QuadraticFields(center, radius, r, q);
    QuadraticAtFields(center, radius, r, q, t);
  }

  lemma QuadraticAtFields(center: Vec3, radius: real, r: Ray, q: Quadratic, t: real)
    requires q.a == LengthSquared(r.dir) && q.halfB == Dot(Sub(r.st, center), r.dir)
    requires q.c == LengthSquared(Sub(r.st, center)) - radius * radius
    ensures q.a * t * t + 2.0 * q.halfB * t + q.c == LengthSquared(Sub(r.At(t), center)) - radius * radius
  {
    AwayExpanded(center, r, t);
    Rearrange(q, t, LengthSquared(Sub(r.st, center)), Dot(Sub(r.st, center), r.dir), LengthSquared(r.dir), radius * radius,
              LengthSquared(Sub(r.At(t), center)));
  }

  lemma AwayExpanded(center: Vec3, r: Ray, t: real)
    ensures LengthSquared(Sub(r.At(t), center)) ==
      LengthSquared(Sub(r.st, center)) + 2.0 * t * Dot(Sub(r.st, center), r.dir) + t * t * LengthSquared(r.dir)
  {
    OffsetAt(center, r, t);
    LengthSquaredAddScaled(Sub(r.st, center), r.dir, t);
  }

  lemma QuadraticFields(center: Vec3, radius: real, r: Ray, q: Quadratic)
    requires q == SphereQuadratic(center, radius, r)
    ensures q.a == LengthSquared(r.dir) && q.halfB == Dot(Sub(r.st, center), r.dir)
    ensures q.c == LengthSquared(Sub(r.st, center)) - radius * radius
  {
  }

  lemma OffsetAt(center: Vec3, r: Ray, t: real)
    ensures Sub(r.At(t), center) == Add(Sub(r.st, center), Scale(r.dir, t))
  {
  }

  lemma Rearrange(q: Quadratic, t: real, ocSquared: real, ocDir: real, dirSquared: real, rr: real, away: real)
    requires q.a == dirSquared && q.halfB == ocDir && q.c == ocSquared - rr
    requires away == ocSquared + 2.0 * t * ocDir + t * t * dirSquared
    ensures q.a * t * t + 2.0 * q.halfB * t + q.c == away - rr
  {
  }

  /** `half_b.powi(2) - a * c`. */
  function Discriminant(q: Quadratic): real {
    q.halfB * q.halfB - q.a * q.c
  }

  /** `(-half_b - sqrtd) / a`, the root tried first. */
  function NearRoot(m: Libm, q: Quadratic): real
    requires q.a != 0.0
  {
    (-q.halfB - m.sqrt(Discriminant(q))) / q.a
  }

  /** `(-half_b + sqrtd) / a`, the root tried second. */
  function FarRoot(m: Libm, q: Quadratic): real
    requires q.a != 0.0
  {
    (-q.halfB + m.sqrt(Discriminant(q))) / q.a
  }

  /** `t` with `t a = s - half_b` and `s^2` the discriminant solves the quadratic. */
  lemma QuadraticRoot(a: real, hb: real, c: real, s: real, t: real)
    requires a != 0.0 && s * s == hb * hb - a * c && t * a == s - hb
    ensures a * t * t + 2.0 * hb * t + c == 0.0
  {
    var e := a * t * t + 2.0 * hb * t + c;
    assert Mul(a, e) == (t * a) * (t * a) + 2.0 * hb * (t * a) + a * c;
    assert (s - hb) * (s - hb) + 2.0 * hb * (s - hb) + a * c == s * s - hb * hb + a * c;
    ZeroProduct(a, e);
  }

  /** Both roots solve the quadratic, and the nearer one comes first. */
  lemma RootsSolve(m: Libm, q: Quadratic)
    requires SqrtLaw(m) && 0.0 < q.a && 0.0 <= Discriminant(q)
    ensures q.a * NearRoot(m, q) * NearRoot(m, q) + 2.0 * q.halfB * NearRoot(m, q) + q.c == 0.0
    ensures q.a * FarRoot(m, q) * FarRoot(m, q) + 2.0 * q.halfB * FarRoot(m, q) + q.c == 0.0
    ensures NearRoot(m, q) <= FarRoot(m, q)
  {
    var s := m.sqrt(Discriminant(q));
    assert 0.0 <= s && s * s == Discriminant(q);
    QuadraticRoot(q.a, q.halfB, q.c, -s, NearRoot(m, q));
    QuadraticRoot(q.a, q.halfB, q.c, s, FarRoot(m, q));
    InverseSign(q.a);
    MulMonotone(-q.halfB - s, -q.halfB + s, 1.0 / q.a);
  }

  /**
   * The root `hit` settles on: the nearer root if it lies in the closed window,
   * otherwise the farther one if that does, otherwise none.
   */
  function ChooseRoot(near: real, far: real, lo: Bound, hi: Bound): (root: Option<real>)
    ensures root.Some? ==> InWindow(root.value, lo, hi)
    ensures root.Some? ==> root.value == near || root.value == far
    ensures InWindow(near, lo, hi) ==> root == Some(near)
    ensures root.None? <==> !InWindow(near, lo, hi) && !InWindow(far, lo, hi)
  {
    if Below(near, lo) || Above(near, hi) then
      if Below(far, lo) || Above(far, hi) then None else Some(far)
    else
      Some(near)
  }

  /**
   * Lowering `t_max` to `hi2` keeps the root chosen in the wider window when
   * it lies at or before `hi2`, and otherwise finds none: a farther root
   * never takes the place of a nearer one that fell out.
   */
  lemma ChooseRootNarrowed(near: real, far: real, lo: Bound, hi: real, hi2: real)
    requires near <= far && hi2 <= hi
    ensures var wide := ChooseRoot(near, far, lo, Fin(hi));
      ChooseRoot(near, far, lo, Fin(hi2)) == if wide.Some? && wide.value <= hi2 then wide else None
  {
  }

  lemma SphereRootNarrowed(m: Libm, center: Vec3, radius: real, r: Ray, lo: Bound, hi: real, hi2: real)
    requires SqrtLaw(m) && hi2 <= hi
    ensures var wide := SphereRoot(m, center, radius, r, lo, Fin(hi));
      SphereRoot(m, center, radius, r, lo, Fin(hi2)) == if wide.Some? && wide.value <= hi2 then wide else None
  {
    var q := SphereQuadratic(center, radius, r);
    if 0.0 < q.a && 0.0 <= Discriminant(q) {
      RootsSolve(m, q);
      ChooseRootNarrowed(NearRoot(m, q), FarRoot(m, q), lo, hi, hi2);
    }
  }

  /**
   * The parameter at which the sphere is hit, if it is: nothing for a negative
   * discriminant. A zero direction (`a == 0`) divides by zero in the source;
   * the model reports no hit there.
   */
  function SphereRoot(m: Libm, center: Vec3, radius: real, r: Ray, lo: Bound, hi: Bound): (root: Option<real>)
    ensures var q := SphereQuadratic(center, radius, r);
      (q.a == 0.0 ==> root.None?) &&
      (Discriminant(q) < 0.0 ==> root.None?) &&
      (0.0 < q.a && 0.0 <= Discriminant(q) ==> root == ChooseRoot(NearRoot(m, q), FarRoot(m, q), lo, hi))
    ensures root.Some? ==> 0.0 < SphereQuadratic(center, radius, r).a && 0.0 <= Discriminant(SphereQuadratic(center, radius, r))
  {
    var q := SphereQuadratic(center, radius, r);
    if q.a == 0.0 || Discriminant(q) < 0.0 then None else ChooseRoot(NearRoot(m, q), FarRoot(m, q), lo, hi)
  }

  /** The reported parameter lies in the window and the point it gives lies on the sphere. */
  lemma SphereRootFacts(m: Libm, center: Vec3, radius: real, r: Ray, lo: Bound, hi: Bound, t: real)
    requires SqrtLaw(m)
    requires SphereRoot(m, center, radius, r, lo, hi) == Some(t)
    ensures InWindow(t, lo, hi)
    ensures LengthSquared(Sub(r.At(t), center)) == radius * radius
  {
    var q := SphereQuadratic(center, radius, r);
    RootOnSphere(m, center, radius, r, q, t);
  }

  lemma RootOnSphere(m: Libm, center: Vec3, radius: real, r: Ray, q: Quadratic, t: real)
    requires SqrtLaw(m) && q == SphereQuadratic(center, radius, r)
    requires 0.0 < q.a && 0.0 <= Discriminant(q)
    requires t == NearRoot(m, q) || t == FarRoot(m, q)
    ensures LengthSquared(Sub(r.At(t), center)) == radius * radius
  {
    SolvesQuadratic(m, q, t);
    ZeroOnSphere(center, radius, r, q, t);
  }

  /** A zero of the sphere's quadratic is a point of the sphere. */
  lemma ZeroOnSphere(center: Vec3, radius: real, r: Ray, q: Quadratic, t: real)
    requires q == SphereQuadratic(center, radius, r)
    requires q.a * t * t + 2.0 * q.halfB * t + q.c == 0.0
    ensures LengthSquared(Sub(r.At(t), center)) == radius * radius
  {
    SphereQuadraticMeaning(center, radius, r, q, t);
  }

  lemma SolvesQuadratic(m: Libm, q: Quadratic, t: real)
    requires SqrtLaw(m) && 0.0 < q.a && 0.0 <= Discriminant(q)
    requires t == NearRoot(m, q) || t == FarRoot(m, q)
    ensures q.a * t * t + 2.0 * q.halfB * t + q.c == 0.0
  {
    RootsSolve(m, q);
  }

  /** The nearer root wins whenever both lie in the window. */
  lemma SphereRootNearest(m: Libm, center: Vec3, radius: real, r: Ray, lo: Bound, hi: Bound)
    requires SqrtLaw(m)
    requires SphereRoot(m, center, radius, r, lo, hi).Some?
    ensures 0.0 < SphereQuadratic(center, radius, r).a
    ensures var q := SphereQuadratic(center, radius, r);
      SphereRoot(m, center, radius, r, lo, hi).value <= FarRoot(m, q)
  {
    RootsSolve(m, SphereQuadratic(center, radius, r));
  }

  // ---- get_sphere_uv ----------------------------------------------------

  /**
   * `get_sphere_uv(p)`, which writes `u` and `v` through references:
   * `theta = acos(-p.y)`, `phi = atan2(-p.z, p.x) + PI`, `u = phi/(2 PI)` and
   * `v = theta/PI`. Both lie in [0, 1].
   */
  function SphereUv(m: Libm, p: Vec3): (uv: (real, real))
    ensures AngleLaw(m) ==> 0.0 <= uv.0 <= 1.0 && 0.0 <= uv.1 <= 1.0
  {
    var theta := m.acos(-p.y);
    var phi := m.atan2(-p.z, p.x) + PI;
    (phi / (2.0 * PI), theta / PI)
  }

  // ---- Boxes --------------------------------------------------------------

  /** `center -/+ (radius, radius, radius)`. */
  function SphereBox(center: Vec3, radius: real): (b: Aabb)
    ensures b.min == Sub(center, Vec3(radius, radius, radius))
    ensures b.max == Add(center, Vec3(radius, radius, radius))
  {
    Aabb(Sub(center, Vec3(radius, radius, radius)), Add(center, Vec3(radius, radius, radius)))
  }

  lemma SquareBounded(d: real, radius: real)
    requires 0.0 <= radius && d * d <= radius * radius
    ensures -radius <= d <= radius
  {
    if radius < d {
      SquareBelow(radius, d);
    } else if d < -radius {
      SquareBelow(radius, -d);
      MulNegate(d, d);
    }
  }

  /** Every point on a sphere of non-negative radius lies in its box. */
  lemma SphereBoxHolds(center: Vec3, radius: real, p: Vec3)
    requires 0.0 <= radius
    requires LengthSquared(Sub(p, center)) == radius * radius
    ensures Inside(SphereBox(center, radius), p)
  {
    var d := Sub(p, center);
    SquareNonNegative(d.x);
    SquareNonNegative(d.y);
    SquareNonNegative(d.z);
    SquareBounded(d.x, radius);
    SquareBounded(d.y, radius);
    SquareBounded(d.z, radius);
    InsideComponents(SphereBox(center, radius), p);
  }

  // ---- The moving centre ------------------------------------------------

  /**
   * `center(time) = center0 + (center1 - center0) * (time - time0) / (time1 - time0)`:
   * `center0` at `time0` and `center1` at `time1` ...
   */
  function MovingCenter(c0: Vec3, c1: Vec3, time0: real, time1: real, time: real): (c: Vec3)
    requires time0 != time1
    ensures time == time0 ==> c == c0
    ensures time == time1 ==> c == c1
  {
    ScaleThenDivide(Sub(c1, c0), time1 - time0);
    Add(c0, Div(Scale(Sub(c1, c0), time - time0), time1 - time0))
  }

  /** Scaling by `d` and dividing by `d` gives the vector back. */
  lemma ScaleThenDivide(e: Vec3, d: real)
    requires d != 0.0
    ensures Div(Scale(e, d), d) == e
  {
    var k := 1.0 / d;
    assert d * k == 1.0;
    assert e.x * d * k == e.x * (d * k);
    assert e.y * d * k == e.y * (d * k);
    assert e.z * d * k == e.z * (d * k);
  }

  /** ... and moves by `(center1 - center0)` times the elapsed fraction of the interval. */
  lemma MovingCenterAffine(c0: Vec3, c1: Vec3, time0: real, time1: real, s: real, t: real)
    requires time0 != time1
    ensures Sub(MovingCenter(c0, c1, time0, time1, t), MovingCenter(c0, c1, time0, time1, s))
         == Scale(Sub(c1, c0), (t - s) / (time1 - time0))
  {
    var k := 1.0 / (time1 - time0);
    var e := Sub(c1, c0);
    assert (t - s) / (time1 - time0) == (t - s) * k;
    MoveDifference(e.x, t - time0, s - time0, k);
    MoveDifference(e.y, t - time0, s - time0, k);
    MoveDifference(e.z, t - time0, s - time0, k);
  }

  lemma MoveDifference(e: real, a: real, b: real, k: real)
    ensures e * a * k - e * b * k == e * ((a - b) * k)
  {
  }

  /** The box `bounding_box(t0, t1)` reports: the union of the radius boxes at the two times. */
  function MovingSphereBox(c0: Vec3, c1: Vec3, time0: real, time1: real, radius: real, t0: real, t1: real): (b: Aabb)
    requires time0 != time1
    ensures Encloses(b, SphereBox(MovingCenter(c0, c1, time0, time1, t0), radius))
    ensures Encloses(b, SphereBox(MovingCenter(c0, c1, time0, time1, t1), radius))
  {
    SurroundingBox(SphereBox(MovingCenter(c0, c1, time0, time1, t0), radius),
                   SphereBox(MovingCenter(c0, c1, time0, time1, t1), radius))
  }
}
