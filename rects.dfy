// The axis-aligned rectangles `XyRect`, `XzRect` and `YzRect`
// (raytracer/src/hittable/aarect.rs, and the `XyRect` of
// raytracer/src/aarect.rs). The three differ only in which axis is fixed,
// so the model has one rectangle with a `Plane` tag:
//
//   XyRect: x in [x0, x1], y in [y0, y1], z = k, outward normal (0, 0, 1)
//   XzRect: x in [x0, x1], z in [z0, z1], y = k, outward normal (0, 1, 0)
//   YzRect: y in [y0, y1], z in [z0, z1], x = k, outward normal (1, 0, 0)
//
// `a0, a1` are the bounds on the first free axis and `b0, b1` on the second;
// `u` comes from the first free axis and `v` from the second.

module Rects {
  import opened Basic
  import opened Vectors
  import opened Rays
  import opened BoundingBox
  import opened HitRecords

  datatype Plane = XY | XZ | YZ

  /** The axis the rectangle's plane fixes. */
  function FixedAxis(pl: Plane): (i: nat)
    ensures i < 3
  {
    match pl
    case XY => 2
    case XZ => 1
    case YZ => 0
  }

  /** The free axis `u` is measured along. */
  function FirstAxis(pl: Plane): (i: nat)
    ensures i < 3 && i != FixedAxis(pl)
  {
    match pl
    case XY => 0
    case XZ => 0
    case YZ => 1
  }

  /** The free axis `v` is measured along. */
  function SecondAxis(pl: Plane): (i: nat)
    ensures i < 3 && i != FixedAxis(pl) && i != FirstAxis(pl)
  {
    match pl
    case XY => 1
    case XZ => 2
    case YZ => 2
  }

  /** The point with coordinate `a` on the first free axis, `b` on the second and `k` on the fixed one. */
  function Place(pl: Plane, a: real, b: real, k: real): (p: Vec3)
    ensures p.E(FirstAxis(pl)) == a && p.E(SecondAxis(pl)) == b && p.E(FixedAxis(pl)) == k
  {
    match pl
    case XY => Vec3(a, b, k)
    case XZ => Vec3(a, k, b)
    case YZ => Vec3(k, a, b)
  }

  datatype Rect = Rect(plane: Plane, a0: real, a1: real, b0: real, b1: real, k: real)

  /** `u` and `v` divide by the rectangle's sides. */
  predicate NonDegenerate(rc: Rect) {
    rc.a0 != rc.a1 && rc.b0 != rc.b1
  }

  /** The outward normal: the unit vector along the fixed axis. */
  function OutwardNormal(pl: Plane): (n: Vec3)
    ensures n.E(FixedAxis(pl)) == 1.0 && n.E(FirstAxis(pl)) == 0.0 && n.E(SecondAxis(pl)) == 0.0
    ensures LengthSquared(n) == 1.0
  {
    Place(pl, 0.0, 0.0, 1.0)
  }

  /**
   * The rectangle test of `hit`: the plane parameter `t = (k - start)/dir` on
   * the fixed axis, rejected outside the closed window; then the point's two
   * free coordinates, rejected outside the rectangle; then `u` and `v`.
   * A zero direction component on the fixed axis would make `t` an IEEE
   * infinity or NaN; the model reports no hit for it.
   */
  function RectCrossing(rc: Rect, r: Ray, lo: Bound, hi: Bound): (res: Option<(real, real, real)>)
    requires NonDegenerate(rc)
  {
    var ka, fa, sa := FixedAxis(rc.plane), FirstAxis(rc.plane), SecondAxis(rc.plane);
    if r.GetDir().E(ka) == 0.0 then None
    else
      var t := (rc.k - r.GetStart().E(ka)) / r.GetDir().E(ka);
      if Below(t, lo) || Above(t, hi) then None
      else
        var x := r.GetStart().E(fa) + t * r.GetDir().E(fa);
        var y := r.GetStart().E(sa) + t * r.GetDir().E(sa);
        if x < rc.a0 || x > rc.a1 || y < rc.b0 || y > rc.b1 then None
        else Some((t, (x - rc.a0) / (rc.a1 - rc.a0), (y - rc.b0) / (rc.b1 - rc.b0)))
  }

  /**
   * A reported crossing lies in the window, the point `at(t)` lies in the
   * rectangle's plane and within its sides, and `u` and `v` are the point's
   * fractions along the two sides.
   */
  lemma RectCrossingFacts(rc: Rect, r: Ray, lo: Bound, hi: Bound)
    requires NonDegenerate(rc) && RectCrossing(rc, r, lo, hi).Some?
    ensures var (t, u, v) := RectCrossing(rc, r, lo, hi).value;
      var p := r.At(t);
      InWindow(t, lo, hi) &&
      p.E(FixedAxis(rc.plane)) == rc.k &&
      rc.a0 <= p.E(FirstAxis(rc.plane)) <= rc.a1 && rc.b0 <= p.E(SecondAxis(rc.plane)) <= rc.b1 &&
      u * (rc.a1 - rc.a0) == p.E(FirstAxis(rc.plane)) - rc.a0 &&
      v * (rc.b1 - rc.b0) == p.E(SecondAxis(rc.plane)) - rc.b0
  {
    var ka, fa, sa := FixedAxis(rc.plane), FirstAxis(rc.plane), SecondAxis(rc.plane);
    var t := RectCrossing(rc, r, lo, hi).value.0;
    var d := r.dir.E(ka);
    assert t == (rc.k - r.st.E(ka)) / d;
    AtComponent(r, t, ka);
    AtComponent(r, t, fa);
    AtComponent(r, t, sa);
    assert Mul(d, t) == rc.k - r.st.E(ka);
  }

  /**
   * Lowering `t_max` to `hi2` keeps exactly the crossings at or before
   * `hi2`: the crossing parameter does not depend on the window.
   */
  lemma RectCrossingNarrowed(rc: Rect, r: Ray, lo: Bound, hi: real, hi2: real)
    requires NonDegenerate(rc) && hi2 <= hi
    ensures var wide := RectCrossing(rc, r, lo, Fin(hi));
      RectCrossing(rc, r, lo, Fin(hi2)) == if wide.Some? && wide.value.0 <= hi2 then wide else None
  {
  }

  /** On a rectangle with `a0 < a1` and `b0 < b1`, `u` and `v` lie in [0, 1]. */
  lemma RectUvInRange(rc: Rect, r: Ray, lo: Bound, hi: Bound)
    requires NonDegenerate(rc) && RectCrossing(rc, r, lo, hi).Some?
    requires rc.a0 < rc.a1 && rc.b0 < rc.b1
    ensures var (_, u, v) := RectCrossing(rc, r, lo, hi).value;
      0.0 <= u <= 1.0 && 0.0 <= v <= 1.0
  {
    RectCrossingFacts(rc, r, lo, hi);
    var (t, u, v) := RectCrossing(rc, r, lo, hi).value;
    var p := r.At(t);
    FractionInRange(u, p.E(FirstAxis(rc.plane)), rc.a0, rc.a1);
    FractionInRange(v, p.E(SecondAxis(rc.plane)), rc.b0, rc.b1);
  }

  lemma FractionInRange(u: real, x: real, lo: real, hi: real)
    requires lo < hi && lo <= x <= hi && u * (hi - lo) == x - lo
    ensures 0.0 <= u <= 1.0
  {
    if u < 0.0 {
      MulStrict(u, 0.0, hi - lo);
    } else if 1.0 < u {
      MulStrict(1.0, u, hi - lo);
    }
  }

  /** `bounding_box`: the rectangle thickened by 0.0001 on each side of its plane. */
  function RectBox(rc: Rect): (b: Aabb)
    ensures b.min == Place(rc.plane, rc.a0, rc.b0, rc.k - 0.0001)
    ensures b.max == Place(rc.plane, rc.a1, rc.b1, rc.k + 0.0001)
  {
    Aabb(Place(rc.plane, rc.a0, rc.b0, rc.k - 0.0001), Place(rc.plane, rc.a1, rc.b1, rc.k + 0.0001))
  }

  /** Every point the rectangle reports lies in its thickened box. */
  lemma RectBoxHolds(rc: Rect, r: Ray, lo: Bound, hi: Bound)
    requires NonDegenerate(rc) && RectCrossing(rc, r, lo, hi).Some?
    ensures Inside(RectBox(rc), r.At(RectCrossing(rc, r, lo, hi).value.0))
  {
    RectCrossingFacts(rc, r, lo, hi);
    var p := r.At(RectCrossing(rc, r, lo, hi).value.0);
    var b := RectBox(rc);
    forall i | 0 <= i < 3
      ensures b.min.E(i) <= p.E(i) <= b.max.E(i)
    {
      assert i == FixedAxis(rc.plane) || i == FirstAxis(rc.plane) || i == SecondAxis(rc.plane) by {
        match rc.plane
        case XY =>
        case XZ =>
        case YZ =>
      }
    }
  }
}
