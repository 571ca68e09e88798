// The `Option`-returning hittables of raytracer/src/hittable/: `Sphere`
// (sphere.rs), `MovingSphere` (moving_sphere.rs), the rectangles
// (aarect.rs), `Translate` (translate.rs), `FlipFace` (flip_face.rs) and
// `ConstantMedium` (constant_medium.rs), and the `Option`-children node
// of Book2/bvh/mod.rs (`Bvh`).
//
// The open set of `Hittable` implementations becomes the closed datatype
// `Shape`; the material a record refers to is the type parameter `M`.
// The medium's `random_double()` is read from the stream `draws` at
// position `pos`; `Hit` returns the position of the next unread draw.

module Shapes {
  import opened Basic
  import opened Vectors
  import opened Rays
  import opened BoundingBox
  import opened HitRecords
  import opened Spheres
  import opened Rects

  datatype Shape<M> =
    | Sphere(center: Vec3, radius: real, mat: M)
    | MovingSphere(center0: Vec3, center1: Vec3, time0: real, time1: real, radius: real, mat: M)
    | AaRect(rect: Rect, mat: M)
    | Translate(ptr: Shape<M>, offset: Vec3)
    | FlipFace(ptr: Shape<M>)
    | ConstantMedium(boundary: Shape<M>, phase: M, negInvDensity: real)
    | Bvh(left: Option<Shape<M>>, right: Option<Shape<M>>, box: Aabb)

  /**
   * The shapes whose own fields never make `hit` divide by zero (a zero ray
   * direction still can): spheres have a non-zero radius (the normal is
   * divided by it), moving spheres distinct times (`center` divides by their
   * difference) and rectangles non-empty sides.
   */
  predicate Valid<M>(s: Shape<M>) {
    match s
    case Sphere(_, radius, _) => radius != 0.0
    case MovingSphere(_, _, time0, time1, radius, _) => radius != 0.0 && time0 != time1
    case AaRect(rc, _) => NonDegenerate(rc)
    case Translate(ptr, _) => Valid(ptr)
    case FlipFace(ptr) => Valid(ptr)
    case ConstantMedium(boundary, _, _) => Valid(boundary)
    case Bvh(left, right, _) => (left.Some? ==> Valid(left.value)) && (right.Some? ==> Valid(right.value))
  }

  // ---- The leaves -------------------------------------------------------

  /** `Sphere::hit`: the record `creat` builds at the chosen root, with `u`, `v` from `get_sphere_uv`. */
  function SphereHit<M>(m: Libm, center: Vec3, radius: real, mat: M, r: Ray, lo: Bound, hi: Bound): (res: Option<HitRecord<M>>)
    requires radius != 0.0
    ensures res.Some? <==> SphereRoot(m, center, radius, r, lo, hi).Some?
    ensures res.Some? ==> var root := SphereRoot(m, center, radius, r, lo, hi).value;
      var n := Div(Sub(r.At(root), center), radius);
      res.value == Created(SphereUv(m, n).0, SphereUv(m, n).1, root, n, r, r.At(root), mat)
  {
    match SphereRoot(m, center, radius, r, lo, hi)
    case None => None
    case Some(root) =>
      var n := Div(Sub(r.At(root), center), radius);
      var uv := SphereUv(m, n);
      Some(Created(uv.0, uv.1, root, n, r, r.At(root), mat))
  }

  /** `MovingSphere::hit`: a sphere around the centre at the ray's time, with `u = v = 0`. */
  function MovingSphereHit<M>(c0: Vec3, c1: Vec3, time0: real, time1: real, radius: real, mat: M,
                              m: Libm, r: Ray, lo: Bound, hi: Bound): (res: Option<HitRecord<M>>)
    requires radius != 0.0 && time0 != time1
    ensures var center := MovingCenter(c0, c1, time0, time1, r.tm);
      res.Some? <==> SphereRoot(m, center, radius, r, lo, hi).Some?
    ensures res.Some? ==> res.value.u == 0.0 && res.value.v == 0.0
  {
    var center := MovingCenter(c0, c1, time0, time1, r.GetTime());
    match SphereRoot(m, center, radius, r, lo, hi)
    case None => None
    case Some(root) =>
      Some(Created(0.0, 0.0, root, Div(Sub(r.At(root), center), radius), r, r.At(root), mat))
  }

  /** The rectangles' `hit`: the record `creat` builds from the crossing, with the axis normal. */
  function RectHit<M>(rc: Rect, mat: M, r: Ray, lo: Bound, hi: Bound): (res: Option<HitRecord<M>>)
    requires NonDegenerate(rc)
    ensures res.Some? <==> RectCrossing(rc, r, lo, hi).Some?
    ensures res.Some? ==> var (t, u, v) := RectCrossing(rc, r, lo, hi).value;
      res.value == Created(u, v, t, OutwardNormal(rc.plane), r, r.At(t), mat)
  {
    match RectCrossing(rc, r, lo, hi)
    case None => None
    case Some((t, u, v)) => Some(Created(u, v, t, OutwardNormal(rc.plane), r, r.At(t), mat))
  }

  // ---- The decorators ---------------------------------------------------

  /** The ray `Translate` hands to the object: moved back by `offset`, same direction and time. */
  function MovedRay(r: Ray, offset: Vec3): (moved: Ray)
    ensures moved.st == Sub(r.st, offset) && moved.dir == r.dir && moved.tm == r.tm
  {
    Ray(Sub(r.GetStart(), offset), r.GetDir(), r.GetTime())
  }

  /**
   * What `Translate` does to the object's record: `p += offset`, then
   * `set_face_normal(moved_r, rec.normal)` with the normal already stored.
   */
  function Translated<M>(rec: HitRecord<M>, moved: Ray, offset: Vec3): (out: HitRecord<M>)
    ensures out.p == Add(rec.p, offset)
    ensures out.t == rec.t && out.u == rec.u && out.v == rec.v && out.mat == rec.mat
    ensures Dot(moved.dir, out.normal) <= 0.0
    ensures Dot(moved.dir, rec.normal) < 0.0 ==> out.normal == rec.normal && out.frontFace
    ensures Dot(moved.dir, rec.normal) >= 0.0 ==> !out.frontFace
  {
    WithFaceNormal(rec.(p := Add(rec.p, offset)), moved, rec.normal)
  }

  /** `FlipFace` negates `front_face` and keeps every other field. */
  function Flipped<M>(rec: HitRecord<M>): (out: HitRecord<M>)
    ensures out.frontFace == !rec.frontFace
    ensures out.(frontFace := rec.frontFace) == rec
  {
    rec.(frontFace := !rec.frontFace)
  }

  // ---- The constant medium ------------------------------------------------

  /**
   * Entry and exit of the medium clamped to the window: the entry is raised
   * to `t_min` and the exit lowered to `t_max`; nothing when the entry is
   * not before the exit (an infinite `t_min` or `-infinity` `t_max` always
   * gives that); then the entry is raised to 0.
   */
  function MediumSpan(lo: Bound, hi: Bound, t1: real, t2: real): (span: Option<(real, real)>)
    ensures span.Some? ==> 0.0 <= span.value.0 && !Below(span.value.0, lo) && !Above(span.value.1, hi)
    ensures span.Some? ==> span.value.1 <= t2 && (span.value.0 == 0.0 || t1 <= span.value.0)
    ensures span.Some? ==> 0.0 < span.value.1 ==> span.value.0 < span.value.1
  {
    if lo.PosInf? || hi.NegInf? then None
    else
      var entry := if Below(t1, lo) then lo.value else t1;
      var exit := if Above(t2, hi) then hi.value else t2;
      if entry >= exit then None
      else Some((if entry < 0.0 then 0.0 else entry, exit))
  }

  /**
   * The scattering event inside the span: `hit_distance = neg_inv_density *
   * ln(draw)`; nothing when it exceeds the distance through the medium;
   * otherwise the record at `t = entry + hit_distance / |dir|` with normal
   * (1, 0, 0), `front_face` true, `u = v = 0` and the phase function. A
   * zero direction divides by zero in the source; the model reports nothing.
   */
  function MediumEvent<M>(m: Libm, r: Ray, entry: real, exit: real, phase: M, negInvDensity: real, draw: real)
    : (res: Option<HitRecord<M>>)
    ensures res.Some? ==> res.value.normal == Vec3(1.0, 0.0, 0.0) && res.value.frontFace
    ensures res.Some? ==> res.value.u == 0.0 && res.value.v == 0.0 && res.value.mat == phase
    ensures res.Some? ==> res.value.p == r.At(res.value.t)
    ensures res.Some? ==> Length(m, r.dir) != 0.0
    ensures Length(m, r.dir) != 0.0 ==>
      (res.Some? <==> negInvDensity * m.ln(draw) <= Mul(exit - entry, Length(m, r.dir)))
    ensures res.Some? ==> res.value.t == entry + negInvDensity * m.ln(draw) / Length(m, r.dir)
  {
    var rayLength := Length(m, r.GetDir());
    var distanceInsideBoundary := Mul(exit - entry, rayLength);
    var hitDistance := negInvDensity * m.ln(draw);
    if rayLength == 0.0 || hitDistance > distanceInsideBoundary then None
    else
      var t := entry + hitDistance / rayLength;
      Some(HitRecord(r.At(t), Vec3(1.0, 0.0, 0.0), t, 0.0, 0.0, true, phase))
  }

  /**
   * For a positive density (`neg_inv_density < 0`) and a draw in (0, 1], the
   * event lies between the entry and the exit.
   */
  lemma MediumEventInside<M>(m: Libm, r: Ray, entry: real, exit: real, phase: M, negInvDensity: real, draw: real)
    requires SqrtLaw(m) && LnLaw(m)
    requires negInvDensity < 0.0 && 0.0 < draw <= 1.0
    requires MediumEvent(m, r, entry, exit, phase, negInvDensity, draw).Some?
    ensures entry <= MediumEvent(m, r, entry, exit, phase, negInvDensity, draw).value.t <= exit
  {
    var l := Length(m, r.dir);
    assert 0.0 < l by {
      assert 0.0 <= LengthSquared(r.dir);
    }
    var hd := negInvDensity * m.ln(draw);
    var t := MediumEvent(m, r, entry, exit, phase, negInvDensity, draw).value.t;
    assert 0.0 <= hd by {
      MulNonNegative(-negInvDensity, -m.ln(draw));
    }
    ScaledBelow(hd, exit - entry, l);
  }

  lemma ScaledBelow(h: real, w: real, l: real)
    requires 0.0 < l && 0.0 <= h <= Mul(w, l)
    ensures 0.0 <= h / l <= w
  {
    InverseSign(l);
    MulNonNegative(h, 1.0 / l);
    MulMonotone(h, Mul(w, l), 1.0 / l);
    assert Mul(Mul(w, l), 1.0 / l) == w;
  }

  // ---- The node's box test ------------------------------------------------

  /**
   * One axis of `box_.hit(r, t_min, t_max)`, taken to be the text of
   * raytracer/src/bvh/aabb.rs (Book2/bvh/aabb.rs is not part of this
   * model), with either end of
   * the window allowed to be an `f64` infinity: `fmax(t0, -infinity)` is
   * `t0` and `fmin(t1, +infinity)` is `t1`, so an infinite end acts like
   * the slab's own end; a window starting at `+infinity` or ending at
   * `-infinity` fails every axis.
   */
  predicate AxisAdmits(b: Aabb, r: Ray, i: nat, lo: Bound, hi: Bound)
    requires i < 3 && NonZeroDir(r)
  {
    !lo.PosInf? && !hi.NegInf? &&
    AxisPasses(b, r, i, if lo.Fin? then lo.value else SlabTimes(b, r, i).0,
                        if hi.Fin? then hi.value else SlabTimes(b, r, i).1)
  }

  /**
   * `box_.hit(r, t_min, t_max)`: every axis passes on its own against the
   * caller's window, which is never narrowed. A zero direction component
   * counts as passing; a window starting at `+infinity` or ending at
   * `-infinity` admits nothing else.
   */
  predicate BoxAdmits(b: Aabb, r: Ray, lo: Bound, hi: Bound)
    ensures NonZeroDir(r) && (lo.PosInf? || hi.NegInf?) ==> !BoxAdmits(b, r, lo, hi)
  {
    !NonZeroDir(r) ||
    (AxisAdmits(b, r, 0, lo, hi) && AxisAdmits(b, r, 1, lo, hi) && AxisAdmits(b, r, 2, lo, hi))
  }

  /**
   * On a finite window the node's test is `Aabb::hit` as written, so it
   * admits every box the narrowed test accepts (and, by
   * `AsWrittenAcceptsMiss`, some it rejects).
   */
  lemma BoxAdmitsFinite(b: Aabb, r: Ray, lo: real, hi: real)
    requires NonZeroDir(r)
    ensures BoxAdmits(b, r, Fin(lo), Fin(hi)) <==> PassesAsWritten(b, r, lo, hi)
    ensures Overlaps(b, r, lo, hi) ==> BoxAdmits(b, r, Fin(lo), Fin(hi))
  {
    if Overlaps(b, r, lo, hi) {
      OverlapsPassesEveryAxis(b, r, lo, hi);
    }
  }

  // ---- hit ------------------------------------------------------------------

  /** `hit(r, t_min, t_max)`, with the next unread draw. */
  function Hit<M>(m: Libm, s: Shape<M>, r: Ray, lo: Bound, hi: Bound, draws: nat -> real, pos: nat)
    : (res: (Option<HitRecord<M>>, nat))
    requires Valid(s)
    ensures pos <= res.1
    decreases s, 1
  {
    match s
    case Sphere(center, radius, mat) => (SphereHit(m, center, radius, mat, r, lo, hi), pos)
    case MovingSphere(c0, c1, time0, time1, radius, mat) =>
      (MovingSphereHit(c0, c1, time0, time1, radius, mat, m, r, lo, hi), pos)
    case AaRect(rc, mat) => (RectHit(rc, mat, r, lo, hi), pos)
    case Translate(ptr, offset) =>
      var moved := MovedRay(r, offset);
      var (child, next) := Hit(m, ptr, moved, lo, hi, draws, pos);
      (if child.None? then None else Some(Translated(child.value, moved, offset)), next)
    case FlipFace(ptr) =>
      var (child, next) := Hit(m, ptr, r, lo, hi, draws, pos);
      (if child.None? then None else Some(Flipped(child.value)), next)
    case Bvh(_, _, _) => NodeHit(m, s, r, lo, hi, draws, pos)
    case ConstantMedium(_, _, _) => MediumHit(m, s, r, lo, hi, draws, pos)
  }

  /**
   * `ConstantMedium::hit`: the boundary is asked over the whole line, then
   * again from just past that first hit; nothing when either misses or the
   * clamped span is empty; otherwise the event drawn inside the span.
   */
  function MediumHit<M>(m: Libm, medium: Shape<M>, r: Ray, lo: Bound, hi: Bound, draws: nat -> real, pos: nat)
    : (res: (Option<HitRecord<M>>, nat))
    requires Valid(medium) && medium.ConstantMedium?
    ensures pos <= res.1
    decreases medium, 0
  {
    var (rec1, p1) := Hit(m, medium.boundary, r, NegInf, PosInf, draws, pos);
    if rec1.None? then (None, p1)
    else
      var (rec2, p2) := Hit(m, medium.boundary, r, Fin(rec1.value.t + 0.0001), PosInf, draws, p1);
      if rec2.None? then (None, p2)
      else
        match MediumSpan(lo, hi, rec1.value.t, rec2.value.t)
        case None => (None, p2)
        case Some((entry, exit)) =>
          (MediumEvent(m, r, entry, exit, medium.phase, medium.negInvDensity, draws(p2)), p2 + 1)
  }

  /**
   * `BvhNode::hit`: nothing when the box test fails; otherwise the left
   * child is asked, then the right one up to the left one's `t`, and the
   * right one's record wins.
   */
  function NodeHit<M>(m: Libm, node: Shape<M>, r: Ray, lo: Bound, hi: Bound, draws: nat -> real, pos: nat)
    : (res: (Option<HitRecord<M>>, nat))
    requires Valid(node) && node.Bvh?
    ensures pos <= res.1
    decreases node, 0
  {
    if !BoxAdmits(node.box, r, lo, hi) then (None, pos)
    else
      var (hitLeft, p1) := if node.left.None? then (None, pos) else Hit(m, node.left.value, r, lo, hi, draws, pos);
      var (hitRight, p2) :=
        if node.right.None? then (None, p1)
        else Hit(m, node.right.value, r, lo, if hitLeft.Some? then Fin(hitLeft.value.t) else hi, draws, p1);
      (if hitRight.Some? then hitRight else hitLeft, p2)
  }

  // ---- bounding_box -------------------------------------------------------

  /**
   * `bounding_box(t0, t1, output_box)`: the flag and the box left in
   * `output_box`, which held `prior` before the call. Every shape here
   * reports a box.
   */
  function BoundingBoxOf<M>(s: Shape<M>, t0: real, t1: real, prior: Aabb): (res: (bool, Aabb))
    requires Valid(s)
    ensures res.0
    decreases s
  {
    match s
    case Sphere(center, radius, _) => (true, SphereBox(center, radius))
    case MovingSphere(c0, c1, time0, time1, radius, _) =>
      (true, MovingSphereBox(c0, c1, time0, time1, radius, t0, t1))
    case AaRect(rc, _) => (true, RectBox(rc))
    case Translate(ptr, offset) =>
      var (ok, b) := BoundingBoxOf(ptr, t0, t1, prior);
      if !ok then (false, b) else (true, Aabb(Add(b.Min(), offset), Add(b.Max(), offset)))
    case FlipFace(ptr) => BoundingBoxOf(ptr, t0, t1, prior)
    case ConstantMedium(boundary, _, _) => BoundingBoxOf(boundary, t0, t1, prior)
    case Bvh(_, _, box) => (true, box)
  }

  // ---- What hit promises --------------------------------------------------

  /** Shapes without a medium: their records come from a sphere or a rectangle. */
  predicate NoMedium<M>(s: Shape<M>) {
    match s
    case Translate(ptr, _) => NoMedium(ptr)
    case FlipFace(ptr) => NoMedium(ptr)
    case ConstantMedium(_, _, _) => false
    case Bvh(left, right, _) => (left.Some? ==> NoMedium(left.value)) && (right.Some? ==> NoMedium(right.value))
    case _ => true
  }

  /**
   * Without a medium, `hit` reads no draw, every reported `t` lies in the
   * closed window, and the reported normal points against the ray.
   */
  lemma {:induction false} HitFacts<M>(m: Libm, s: Shape<M>, r: Ray, lo: Bound, hi: Bound, draws: nat -> real, pos: nat)
    requires Valid(s) && NoMedium(s)
    ensures Hit(m, s, r, lo, hi, draws, pos).1 == pos
    ensures Hit(m, s, r, lo, hi, draws, pos).0.Some? ==>
      InWindow(Hit(m, s, r, lo, hi, draws, pos).0.value.t, lo, hi) &&
      Dot(r.dir, Hit(m, s, r, lo, hi, draws, pos).0.value.normal) <= 0.0
    decreases s
  {
    match s
    case Sphere(center, radius, mat) =>
    case MovingSphere(c0, c1, time0, time1, radius, mat) =>
    case AaRect(rc, mat) =>
      if RectCrossing(rc, r, lo, hi).Some? {
        RectCrossingFacts(rc, r, lo, hi);
      }
    case Translate(ptr, offset) =>
      HitFacts(m, ptr, MovedRay(r, offset), lo, hi, draws, pos);
    case FlipFace(ptr) =>
      HitFacts(m, ptr, r, lo, hi, draws, pos);
    case Bvh(left, right, box) =>
      if BoxAdmits(box, r, lo, hi) {
        if left.Some? {
          HitFacts(m, left.value, r, lo, hi, draws, pos);
        }
        var hitLeft := if left.None? then None else Hit(m, left.value, r, lo, hi, draws, pos).0;
        if right.Some? {
          HitFacts(m, right.value, r, lo, if hitLeft.Some? then Fin(hitLeft.value.t) else hi, draws, pos);
        }
      }
  }

  /** `FlipFace(FlipFace(x))` reports exactly what `x` reports. */
  lemma FlipFaceTwice<M>(m: Libm, s: Shape<M>, r: Ray, lo: Bound, hi: Bound, draws: nat -> real, pos: nat)
    requires Valid(s)
    ensures Hit(m, FlipFace(FlipFace(s)), r, lo, hi, draws, pos) == Hit(m, s, r, lo, hi, draws, pos)
  {
  }

  /**
   * `Translate` misses exactly when the object misses the moved ray; a hit
   * is the object's record with `p` shifted by `offset`, its `t`, `u`, `v`
   * and material kept, and `front_face` set unless the ray runs along the
   * surface.
   */
  lemma TranslateHit<M>(m: Libm, s: Shape<M>, offset: Vec3, r: Ray, lo: Bound, hi: Bound, draws: nat -> real, pos: nat)
    requires Valid(s) && NoMedium(s)
    ensures var inner := Hit(m, s, MovedRay(r, offset), lo, hi, draws, pos).0;
      var outer := Hit(m, Translate(s, offset), r, lo, hi, draws, pos).0;
      (outer.Some? <==> inner.Some?) &&
      (outer.Some? ==>
        outer.value.p == Add(inner.value.p, offset) &&
        outer.value.t == inner.value.t && outer.value.u == inner.value.u &&
        outer.value.v == inner.value.v && outer.value.mat == inner.value.mat &&
        (outer.value.frontFace <==> Dot(r.dir, inner.value.normal) != 0.0))
  {
    HitFacts(m, s, MovedRay(r, offset), lo, hi, draws, pos);
  }

  /**
   * A medium event carries normal (1, 0, 0), `front_face` true, `u = v = 0`
   * and the phase function; for a positive density and a draw in (0, 1] its
   * `t` lies in the closed window and is not negative.
   */
  lemma MediumHitFacts<M>(m: Libm, boundary: Shape<M>, phase: M, negInvDensity: real,
                          r: Ray, lo: Bound, hi: Bound, draws: nat -> real, pos: nat)
    requires SqrtLaw(m) && LnLaw(m) && Valid(boundary)
    requires negInvDensity < 0.0 && forall i :: 0.0 < draws(i) <= 1.0
    requires Hit(m, ConstantMedium(boundary, phase, negInvDensity), r, lo, hi, draws, pos).0.Some?
    ensures var rec := Hit(m, ConstantMedium(boundary, phase, negInvDensity), r, lo, hi, draws, pos).0.value;
      rec.normal == Vec3(1.0, 0.0, 0.0) && rec.frontFace && rec.u == 0.0 && rec.v == 0.0 && rec.mat == phase &&
      rec.p == r.At(rec.t) && InWindow(rec.t, lo, hi) && 0.0 <= rec.t
  {
    var (rec1, p1) := Hit(m, boundary, r, NegInf, PosInf, draws, pos);
    var (rec2, p2) := Hit(m, boundary, r, Fin(rec1.value.t + 0.0001), PosInf, draws, p1);
    MediumHitIsEvent(m, boundary, phase, negInvDensity, r, lo, hi, draws, pos);
    var (entry, exit) := MediumSpan(lo, hi, rec1.value.t, rec2.value.t).value;
    MediumEventInside(m, r, entry, exit, phase, negInvDensity, draws(p2));
    SpanInWindow(lo, hi, rec1.value.t, rec2.value.t,
                 MediumEvent(m, r, entry, exit, phase, negInvDensity, draws(p2)).value.t);
  }

  /** A medium's hit, when there is one, is the event inside the span between its boundary's two hits. */
  lemma MediumHitIsEvent<M>(m: Libm, boundary: Shape<M>, phase: M, negInvDensity: real,
                            r: Ray, lo: Bound, hi: Bound, draws: nat -> real, pos: nat)
    requires Valid(boundary)
    requires Hit(m, ConstantMedium(boundary, phase, negInvDensity), r, lo, hi, draws, pos).0.Some?
    ensures var (rec1, p1) := Hit(m, boundary, r, NegInf, PosInf, draws, pos);
      rec1.Some? &&
      var (rec2, p2) := Hit(m, boundary, r, Fin(rec1.value.t + 0.0001), PosInf, draws, p1);
      rec2.Some? && MediumSpan(lo, hi, rec1.value.t, rec2.value.t).Some? &&
      var (entry, exit) := MediumSpan(lo, hi, rec1.value.t, rec2.value.t).value;
      Hit(m, ConstantMedium(boundary, phase, negInvDensity), r, lo, hi, draws, pos).0 ==
        MediumEvent(m, r, entry, exit, phase, negInvDensity, draws(p2))
  {
  }

  /** A parameter between the ends of a span lies in the window and is not negative. */
  lemma SpanInWindow(lo: Bound, hi: Bound, t1: real, t2: real, t: real)
    requires MediumSpan(lo, hi, t1, t2).Some?
    requires MediumSpan(lo, hi, t1, t2).value.0 <= t <= MediumSpan(lo, hi, t1, t2).value.1
    ensures InWindow(t, lo, hi) && 0.0 <= t
  {
  }

  /** Spheres, moving spheres and rectangles, moved or flipped: the shapes `hit` answers without a draw or a box test. */
  predicate Surface<M>(s: Shape<M>) {
    match s
    case Sphere(_, _, _) => true
    case MovingSphere(_, _, _, _, _, _) => true
    case AaRect(_, _) => true
    case Translate(ptr, _) => Surface(ptr)
    case FlipFace(ptr) => Surface(ptr)
    case _ => false
  }

  lemma {:induction false} SurfaceNoMedium<M>(s: Shape<M>)
    requires Surface(s)
    ensures NoMedium(s)
  {
    match s
    case Sphere(_, _, _) =>
    case MovingSphere(_, _, _, _, _, _) =>
    case AaRect(_, _) =>
    case Translate(ptr, _) => SurfaceNoMedium(ptr);
    case FlipFace(ptr) => SurfaceNoMedium(ptr);
  }

  /**
   * Lowering `t_max` keeps a surface's hit when it lies at or before the
   * new bound and loses it otherwise: a farther hit never takes the place
   * of a nearer one that fell out of the window.
   */
  lemma {:induction false} HitNarrowed<M>(m: Libm, s: Shape<M>, r: Ray, lo: Bound, hi: real, hi2: real,
                                          draws: nat -> real, pos: nat)
    requires SqrtLaw(m) && Valid(s) && Surface(s) && hi2 <= hi
    ensures var wide := Hit(m, s, r, lo, Fin(hi), draws, pos).0;
      Hit(m, s, r, lo, Fin(hi2), draws, pos).0 == if wide.Some? && wide.value.t <= hi2 then wide else None
    decreases s
  {
    match s
    case Sphere(center, radius, mat) =>
      SphereRootNarrowed(m, center, radius, r, lo, hi, hi2);
    case MovingSphere(c0, c1, time0, time1, radius, mat) =>
      SphereRootNarrowed(m, MovingCenter(c0, c1, time0, time1, r.tm), radius, r, lo, hi, hi2);
    case AaRect(rc, mat) =>
      RectCrossingNarrowed(rc, r, lo, hi, hi2);
    case Translate(ptr, offset) =>
      HitNarrowed(m, ptr, MovedRay(r, offset), lo, hi, hi2, draws, pos);
    case FlipFace(ptr) =>
      HitNarrowed(m, ptr, r, lo, hi, hi2, draws, pos);
  }

  /**
   * `BvhNode::hit` over two surfaces: nothing when the box test fails;
   * otherwise a hit exactly when either child is hit, and then the nearer
   * child's record, the right child's on a tie. A node holding only a left
   * child reports that child's hit.
   */
  lemma NodeNearest<M>(m: Libm, a: Shape<M>, b: Shape<M>, box: Aabb, r: Ray, lo: Bound, hi: real,
                       draws: nat -> real, pos: nat)
    requires SqrtLaw(m) && Valid(a) && Valid(b) && Surface(a) && Surface(b)
    ensures !BoxAdmits(box, r, lo, Fin(hi)) ==> Hit(m, Bvh(Some(a), Some(b), box), r, lo, Fin(hi), draws, pos).0.None?
    ensures BoxAdmits(box, r, lo, Fin(hi)) ==>
      var res := Hit(m, Bvh(Some(a), Some(b), box), r, lo, Fin(hi), draws, pos).0;
      var ha, hb := Hit(m, a, r, lo, Fin(hi), draws, pos).0, Hit(m, b, r, lo, Fin(hi), draws, pos).0;
      (res.Some? <==> ha.Some? || hb.Some?) &&
      (ha.Some? && (hb.None? || ha.value.t < hb.value.t) ==> res == ha) &&
      (hb.Some? && (ha.None? || hb.value.t <= ha.value.t) ==> res == hb)
    ensures Hit(m, Bvh(Some(a), None, box), r, lo, Fin(hi), draws, pos).0 ==
      if BoxAdmits(box, r, lo, Fin(hi)) then Hit(m, a, r, lo, Fin(hi), draws, pos).0 else None
  {
    SurfaceNoMedium(a);
    SurfaceNoMedium(b);
    HitFacts(m, a, r, lo, Fin(hi), draws, pos);
    var ha := Hit(m, a, r, lo, Fin(hi), draws, pos).0;
    if ha.Some? {
      HitNarrowed(m, b, r, lo, hi, ha.value.t, draws, pos);
    }
  }

  // ---- What bounding_box promises ---------------------------------------------

  /** Shapes whose box is known to hold their hits: fixed spheres of positive radius and rectangles, moved or flipped. */
  predicate Boxed<M>(s: Shape<M>) {
    match s
    case Sphere(_, radius, _) => 0.0 < radius
    case AaRect(rc, _) => NonDegenerate(rc)
    case Translate(ptr, _) => Boxed(ptr)
    case FlipFace(ptr) => Boxed(ptr)
    case _ => false
  }

  /** Every point such a shape reports lies in the box it reports. */
  lemma {:induction false} HitInsideBox<M>(m: Libm, s: Shape<M>, r: Ray, lo: Bound, hi: Bound, draws: nat -> real, pos: nat,
                                           t0: real, t1: real, prior: Aabb)
    requires SqrtLaw(m) && Valid(s) && Boxed(s)
    requires Hit(m, s, r, lo, hi, draws, pos).0.Some?
    ensures Inside(BoundingBoxOf(s, t0, t1, prior).1, Hit(m, s, r, lo, hi, draws, pos).0.value.p)
    decreases s
  {
    match s
    case Sphere(center, radius, mat) =>
      var root := SphereRoot(m, center, radius, r, lo, hi).value;
      SphereRootFacts(m, center, radius, r, lo, hi, root);
      SphereBoxHolds(center, radius, r.At(root));
    case AaRect(rc, mat) =>
      RectBoxHolds(rc, r, lo, hi);
    case Translate(ptr, offset) =>
      var moved := MovedRay(r, offset);
      HitInsideBox(m, ptr, moved, lo, hi, draws, pos, t0, t1, prior);
      var b := BoundingBoxOf(ptr, t0, t1, prior).1;
      var q := Hit(m, ptr, moved, lo, hi, draws, pos).0.value.p;
      InsideComponents(b, q);
      InsideComponents(Aabb(Add(b.min, offset), Add(b.max, offset)), Add(q, offset));
    case FlipFace(ptr) =>
      HitInsideBox(m, ptr, r, lo, hi, draws, pos, t0, t1, prior);
  }
}
