// The out-parameter hittables: `hit(r, t_min, t_max, rec: &mut HitRecord)
// -> bool` and `bounding_box(t0, t1, output_box: &mut Aabb) -> bool`, as in
// raytracer/src/hittable/mod.rs and raytracer/src/hittable.rs. The objects
// are the sphere of raytracer/src/sphere.rs, the rectangles of
// raytracer/src/aarect.rs, the list of raytracer/src/hittable/hittable_list.rs,
// the box of raytracer/src/hittable/mybox.rs, `Translate` and `RotateY` of
// raytracer/src/hittable.rs and raytracer/src/hittable/rotate_y.rs, and the
// node of raytracer/src/bvh.rs.
//
// `HitOut` is what `hit` does, as a function from the record before the call
// to the flag and the record after it; the methods `HitObject` and
// `ScanList` write a `Record` in place and are proved to agree with it.
// Windows are finite here: `t_max = INFINITY` is not modelled.

module Objects {
  import opened Basic
  import opened Vectors
  import opened Rays
  import opened BoundingBox
  import opened HitRecords
  import opened Spheres
  import opened Rects

  /** The records of this family hold `Option<Arc<dyn Material>>`. */
  type Rec<M> = HitRecord<Option<M>>

  /** `HitRecord::default()`: zero vectors and numbers, `false`, no material. */
  function DefaultRecord<M>(): (rec: Rec<M>)
    ensures rec.t == 0.0 && rec.p == Zero && rec.normal == Zero && rec.mat.None? && !rec.frontFace
  {
    HitRecord(Zero, Zero, 0.0, 0.0, 0.0, false, None)
  }

  datatype Object<M> =
    | Sphere(center: Vec3, radius: real, mat: Option<M>)
    | AaRect(rect: Rect, mp: M)
    | List(objects: seq<Object<M>>)
    | Box(boxMin: Vec3, boxMax: Vec3, sides: Object<M>)
    | Translate(ptr: Object<M>, offset: Vec3)
    | RotateY(ptr: Object<M>, sinTheta: real, cosTheta: real, hasbox: bool, bbox: Aabb)
    | BvhNode(left: Option<Object<M>>, right: Option<Object<M>>, box: Aabb)

  /** The objects whose own fields never make `hit` divide by zero (a zero ray direction still can). */
  predicate Valid<M>(o: Object<M>)
    decreases o
  {
    match o
    case Sphere(_, radius, _) => radius != 0.0
    case AaRect(rc, _) => NonDegenerate(rc)
    case List(objects) => forall i :: 0 <= i < |objects| ==> Valid(objects[i])
    case Box(_, _, sides) => sides.List? && Valid(sides)
    case Translate(ptr, _) => Valid(ptr)
    case RotateY(ptr, _, _, _, _) => Valid(ptr)
    case BvhNode(left, right, _) =>
      (left.Some? ==> Valid(left.value)) && (right.Some? ==> Valid(right.value))
  }

  // ---- The sphere of raytracer/src/sphere.rs ------------------------------

  /**
   * What the sphere writes once it has picked `root`: `t`, then `p`, then
   * the face normal from `(p - center) / radius`, then the material. `u` and
   * `v` are never written and keep whatever the record held.
   */
  function SphereWrite<M>(center: Vec3, radius: real, mat: Option<M>, r: Ray, root: real, rec: Rec<M>): (out: Rec<M>)
    requires radius != 0.0
    ensures out.t == root && out.p == r.At(root) && out.mat == mat
    ensures out.u == rec.u && out.v == rec.v
    ensures out.frontFace <==> Dot(r.dir, Div(Sub(r.At(root), center), radius)) < 0.0
    ensures Dot(r.dir, out.normal) <= 0.0
  {
    var written := rec.(t := root, p := r.At(root));
    var outward := Div(Sub(written.p, center), radius);
    WithFaceNormal(written, r, outward).(mat := mat)
  }

  /**
   * `Sphere::hit` as written: on a negative discriminant nothing is written;
   * otherwise the nearer root is tried, then the farther, and the record is
   * written with the last root tried even when that one is outside the
   * window too, while the result is `false`. A zero direction is reported
   * as a miss that writes nothing.
   */
  function SphereOutAsWritten<M>(m: Libm, center: Vec3, radius: real, mat: Option<M>,
                                 r: Ray, tMin: real, tMax: real, rec: Rec<M>): (res: (bool, Rec<M>))
    requires radius != 0.0
    ensures var q := SphereQuadratic(center, radius, r);
      (q.a == 0.0 || Discriminant(q) < 0.0) ==> res == (false, rec)
    ensures res.0 ==> tMin <= res.1.t <= tMax
  {
    var q := SphereQuadratic(center, radius, r);
    if q.a == 0.0 || Discriminant(q) < 0.0 then (false, rec)
    else
      var near := NearRoot(m, q);
      var root := if near < tMin || tMax < near then FarRoot(m, q) else near;
      (!(root < tMin || tMax < root), SphereWrite(center, radius, mat, r, root, rec))
  }

  /**
   * The sphere as it is evidently meant to behave: the same root choice,
   * and on a miss the record is left alone.
   */
  function SphereOut<M>(m: Libm, center: Vec3, radius: real, mat: Option<M>,
                        r: Ray, tMin: real, tMax: real, rec: Rec<M>): (res: (bool, Rec<M>))
    requires radius != 0.0
    ensures res.0 <==> SphereRoot(m, center, radius, r, Fin(tMin), Fin(tMax)).Some?
    ensures !res.0 ==> res.1 == rec
    ensures res.0 ==> res.1 == SphereWrite(center, radius, mat, r, SphereRoot(m, center, radius, r, Fin(tMin), Fin(tMax)).value, rec)
  {
    match SphereRoot(m, center, radius, r, Fin(tMin), Fin(tMax))
    case None => (false, rec)
    case Some(root) => (true, SphereWrite(center, radius, mat, r, root, rec))
  }

  /**
   * The two agree on the flag, and on a hit on the record; they differ only
   * in what a miss leaves behind.
   */
  lemma SphereOutMatchesAsWritten<M>(m: Libm, center: Vec3, radius: real, mat: Option<M>,
                                     r: Ray, tMin: real, tMax: real, rec: Rec<M>)
    requires radius != 0.0
    ensures SphereOutAsWritten(m, center, radius, mat, r, tMin, tMax, rec).0 == SphereOut(m, center, radius, mat, r, tMin, tMax, rec).0
    ensures SphereOut(m, center, radius, mat, r, tMin, tMax, rec).0 ==>
      SphereOutAsWritten(m, center, radius, mat, r, tMin, tMax, rec) == SphereOut(m, center, radius, mat, r, tMin, tMax, rec)
  {
  }

  // ---- The rectangle of raytracer/src/aarect.rs -----------------------------

  /**
   * `XyRect::hit` (and its XZ and YZ counterparts): on a crossing it writes
   * `u`, `v`, `t`, the face normal from the axis normal, the material and
   * `p = r.at(t)`; on a miss it writes nothing.
   */
  function RectOut<M>(rc: Rect, mp: M, r: Ray, tMin: real, tMax: real, rec: Rec<M>): (res: (bool, Rec<M>))
    requires NonDegenerate(rc)
    ensures res.0 <==> RectCrossing(rc, r, Fin(tMin), Fin(tMax)).Some?
    ensures !res.0 ==> res.1 == rec
    ensures res.0 ==> var (t, u, v) := RectCrossing(rc, r, Fin(tMin), Fin(tMax)).value;
      res.1.t == t && res.1.u == u && res.1.v == v && res.1.p == r.At(t) && res.1.mat == Some(mp) &&
      (res.1.frontFace <==> Dot(r.dir, OutwardNormal(rc.plane)) < 0.0) &&
      Dot(r.dir, res.1.normal) <= 0.0
  {
    match RectCrossing(rc, r, Fin(tMin), Fin(tMax))
    case None => (false, rec)
    case Some((t, u, v)) =>
      var written := WithFaceNormal(rec.(u := u, v := v, t := t), r, OutwardNormal(rc.plane));
      (true, written.(mat := Some(mp), p := r.At(t)))
  }

  // ---- RotateY's two rotations ------------------------------------------------

  /** The rotation `hit` applies to the ray: `(cos x - sin z, y, sin x + cos z)`. */
  function RotateForward(sinTheta: real, cosTheta: real, a: Vec3): (b: Vec3)
    ensures b.y == a.y
  {
    Vec3(cosTheta * a.x - sinTheta * a.z, a.y, sinTheta * a.x + cosTheta * a.z)
  }

  /** The rotation applied to the reported point and normal: `(cos x + sin z, y, cos z - sin x)`. */
  function RotateBack(sinTheta: real, cosTheta: real, a: Vec3): (b: Vec3)
    ensures b.y == a.y
  {
    Vec3(cosTheta * a.x + sinTheta * a.z, a.y, cosTheta * a.z - sinTheta * a.x)
  }

  /** With `sin^2 + cos^2 = 1` the back rotation undoes the forward one, and the other way round. */
  lemma RotationInverse(s: real, c: real, a: Vec3)
    requires s * s + c * c == 1.0
    ensures RotateBack(s, c, RotateForward(s, c, a)) == a
    ensures RotateForward(s, c, RotateBack(s, c, a)) == a
  {
    UndoRotation(s, c, a.x, a.z);
    UndoRotation(s, c, a.z, -a.x);
  }

  lemma UndoRotation(s: real, c: real, x: real, z: real)
    requires s * s + c * c == 1.0
    ensures c * (c * x - s * z) + s * (s * x + c * z) == x
    ensures c * (s * x + c * z) - s * (c * x - s * z) == z
  {
    assert c * (c * x - s * z) + s * (s * x + c * z) == (s * s + c * c) * x;
    assert c * (s * x + c * z) - s * (c * x - s * z) == (s * s + c * c) * z;
  }

  /** The ray `RotateY::hit` hands to the object: origin and direction rotated, time kept. */
  function RotatedRay(sinTheta: real, cosTheta: real, r: Ray): (rotated: Ray)
    ensures rotated.st.y == r.st.y && rotated.dir.y == r.dir.y && rotated.tm == r.tm
  {
    Ray(RotateForward(sinTheta, cosTheta, r.GetStart()), RotateForward(sinTheta, cosTheta, r.GetDir()), r.GetTime())
  }

  /**
   * What `RotateY` does to the object's record: `p` and `normal` rotated
   * back, then `set_face_normal(rotate_r, normal)` with the rotated ray.
   */
  function RotatedRecord<M>(sinTheta: real, cosTheta: real, rotated: Ray, rec: Rec<M>): (out: Rec<M>)
    ensures out.p == RotateBack(sinTheta, cosTheta, rec.p)
    ensures out.t == rec.t && out.u == rec.u && out.v == rec.v && out.mat == rec.mat
    ensures Dot(rotated.dir, out.normal) <= 0.0
  {
    WithFaceNormal(rec.(p := RotateBack(sinTheta, cosTheta, rec.p)), rotated, RotateBack(sinTheta, cosTheta, rec.normal))
  }

  // ---- hit --------------------------------------------------------------------

  /**
   * The box test of a BVH node: `Aabb::hit` as written in
   * raytracer/src/bvh/aabb.rs (the node's own import, raytracer/src/aabb.rs,
   * is not part of this model and is taken to match), each axis against
   * the caller's window; a zero direction component counts as passing (see
   * README). It never prunes a box the ray reaches within the window.
   */
  predicate BoxPasses(b: Aabb, r: Ray, tMin: real, tMax: real)
    ensures NonZeroDir(r) && Overlaps(b, r, tMin, tMax) ==> BoxPasses(b, r, tMin, tMax)
  {
    !NonZeroDir(r) || PassesAsWritten(b, r, tMin, tMax)
  }

  /**
   * The objects whose `hit` leaves the record alone when it returns `false`:
   * everything but the sphere, whose miss may still write (`SphereOutAsWritten`).
   */
  predicate CleanMiss<M>(o: Object<M>)
    decreases o
  {
    match o
    case Sphere(_, _, _) => false
    case AaRect(_, _) => true
    case List(_) => true
    case Box(_, _, sides) => CleanMiss(sides)
    case Translate(ptr, _) => CleanMiss(ptr)
    case RotateY(ptr, _, _, _, _) => CleanMiss(ptr)
    case BvhNode(left, right, _) =>
      (left.Some? ==> CleanMiss(left.value)) && (right.Some? ==> CleanMiss(right.value))
  }

  /**
   * The objects whose reported hit lies in the window: every object, except
   * a node whose right child may write on a miss after its left child hit
   * (and anything that holds such a node).
   */
  predicate Sound<M>(o: Object<M>)
    decreases o
  {
    match o
    case Sphere(_, _, _) => true
    case AaRect(_, _) => true
    case List(objects) => forall i :: 0 <= i < |objects| ==> Sound(objects[i])
    case Box(_, _, sides) => Sound(sides)
    case Translate(ptr, _) => Sound(ptr)
    case RotateY(ptr, _, _, _, _) => Sound(ptr)
    case BvhNode(left, right, _) =>
      (left.Some? ==> Sound(left.value)) && (right.Some? ==> Sound(right.value)) &&
      (left.Some? && right.Some? ==> CleanMiss(right.value))
  }

  /** `hit(r, t_min, t_max, rec)`: the flag returned and the record left behind. */
  function HitOut<M>(m: Libm, o: Object<M>, r: Ray, tMin: real, tMax: real, rec: Rec<M>): (res: (bool, Rec<M>))
    requires Valid(o)
    ensures CleanMiss(o) && !res.0 ==> res.1 == rec
    ensures Sound(o) && res.0 ==> tMin <= res.1.t <= tMax
    decreases o, 1
  {
    match o
    case Sphere(center, radius, mat) => SphereOutAsWritten(m, center, radius, mat, r, tMin, tMax, rec)
    case AaRect(rc, mp) =>
      if RectCrossing(rc, r, Fin(tMin), Fin(tMax)).Some? then
        RectCrossingFacts(rc, r, Fin(tMin), Fin(tMax));
        RectOut(rc, mp, r, tMin, tMax, rec)
      else RectOut(rc, mp, r, tMin, tMax, rec)
    case List(_) =>
      var s := Scan(m, o, |o.objects|, r, tMin, tMax, rec);
      (s.hitAnything, s.rec)
    case Box(_, _, sides) => HitOut(m, sides, r, tMin, tMax, rec)
    case Translate(ptr, offset) =>
      var moved := Ray(Sub(r.GetStart(), offset), r.GetDir(), r.GetTime());
      var (hit, child) := HitOut(m, ptr, moved, tMin, tMax, rec);
      if !hit then (false, child)
      else (true, WithFaceNormal(child.(p := Add(child.p, offset)), moved, child.normal))
    case RotateY(ptr, sinTheta, cosTheta, _, _) =>
      var rotated := RotatedRay(sinTheta, cosTheta, r);
      var (hit, child) := HitOut(m, ptr, rotated, tMin, tMax, rec);
      if !hit then (false, child)
      else (true, RotatedRecord(sinTheta, cosTheta, rotated, child))
    case BvhNode(left, right, box) =>
      if !BoxPasses(box, r, tMin, tMax) then (false, rec)
      else
        var (hitLeft, recLeft) := if left.None? then (false, rec) else HitOut(m, left.value, r, tMin, tMax, rec);
        var (hitRight, recRight) :=
          if right.None? then (false, recLeft)
          else HitOut(m, right.value, r, tMin, if hitLeft then recLeft.t else tMax, recLeft);
        (hitLeft || hitRight, recRight)
  }

  /** The variables of `HittableList::hit` after some members. */
  datatype ScanState<M> = ScanState(hitAnything: bool, closest: real, temp: Rec<M>, rec: Rec<M>)

  /**
   * The state of `HittableList::hit` after its first `n` members: each is
   * queried into the shared `temp_rec` with `t_max = closest_so_far`, and a
   * hit copies `temp_rec` into `rec` and lowers `closest_so_far` to its `t`.
   */
  function Scan<M>(m: Libm, list: Object<M>, n: nat, r: Ray, tMin: real, tMax: real, rec: Rec<M>): (s: ScanState<M>)
    requires list.List? && Valid(list) && n <= |list.objects|
    ensures !s.hitAnything ==> s.rec == rec && s.closest == tMax
    ensures s.hitAnything ==> s.closest == s.rec.t
    ensures Sound(list) && s.hitAnything ==> tMin <= s.rec.t <= tMax
    decreases list, 0, n
  {
    if n == 0 then ScanState(false, tMax, DefaultRecord(), rec)
    else
      var s := Scan(m, list, n - 1, r, tMin, tMax, rec);
      var (hit, temp) := HitOut(m, list.objects[n - 1], r, tMin, s.closest, s.temp);
      if hit then ScanState(true, temp.t, temp, temp)
      else ScanState(s.hitAnything, s.closest, temp, s.rec)
  }

  // ---- hit, writing the record in place ----------------------------------------

  /** `hit` on a record passed by `&mut`: agrees with `HitOut`. */
  method HitObject<M>(m: Libm, o: Object<M>, r: Ray, tMin: real, tMax: real, rec: Record<Option<M>>) returns (hit: bool)
    requires Valid(o)
    modifies rec
    ensures (hit, rec.Value()) == HitOut(m, o, r, tMin, tMax, old(rec.Value()))
    decreases o, 1
  {
    match o
    case Sphere(center, radius, mat) =>
      var q := SphereQuadratic(center, radius, r);
      if q.a == 0.0 || Discriminant(q) < 0.0 {
        hit := false;
      } else {
        hit := true;
        var root := NearRoot(m, q);
        if root < tMin || tMax < root {
          root := FarRoot(m, q);
          if root < tMin || tMax < root {
            hit := false;
          }
        }
        rec.t := root;
        rec.p := r.At(rec.t);
        rec.SetFaceNormal(r, Div(Sub(rec.p, center), radius));
        rec.mat := mat;
      }
    case AaRect(rc, mp) =>
      var crossing := RectCrossing(rc, r, Fin(tMin), Fin(tMax));
      if crossing.None? {
        hit := false;
      } else {
        var (t, u, v) := crossing.value;
        rec.u, rec.v, rec.t := u, v, t;
        rec.SetFaceNormal(r, OutwardNormal(rc.plane));
        rec.mat := Some(mp);
        rec.p := r.At(t);
        hit := true;
      }
    case List(_) =>
      hit := ScanList(m, o, r, tMin, tMax, rec);
    case Box(_, _, sides) =>
      hit := HitObject(m, sides, r, tMin, tMax, rec);
    case Translate(ptr, offset) =>
      var moved := Ray(Sub(r.GetStart(), offset), r.GetDir(), r.GetTime());
      hit := HitObject(m, ptr, moved, tMin, tMax, rec);
      if hit {
        rec.p := Add(rec.p, offset);
        rec.SetFaceNormal(moved, rec.normal);
      }
    case RotateY(ptr, sinTheta, cosTheta, _, _) =>
      var rotated := RotatedRay(sinTheta, cosTheta, r);
      hit := HitObject(m, ptr, rotated, tMin, tMax, rec);
      if hit {
        var p := RotateBack(sinTheta, cosTheta, rec.p);
        var normal := RotateBack(sinTheta, cosTheta, rec.normal);
        rec.p := p;
        rec.SetFaceNormal(rotated, normal);
      }
    case BvhNode(left, right, box) =>
      var pass := true;
      if NonZeroDir(r) {
        pass := HitAsWritten(box, r, tMin, tMax);
      }
      if !pass {
        hit := false;
      } else {
        var hitLeft := false;
        if left.Some? {
          hitLeft := HitObject(m, left.value, r, tMin, tMax, rec);
        }
        var hitRight := false;
        if right.Some? {
          hitRight := HitObject(m, right.value, r, tMin, if hitLeft then rec.t else tMax, rec);
        }
        hit := hitLeft || hitRight;
      }
  }

  /** The loop of `HittableList::hit`, with its own `temp_rec`. */
  method ScanList<M>(m: Libm, list: Object<M>, r: Ray, tMin: real, tMax: real, rec: Record<Option<M>>) returns (hitAnything: bool)
    requires list.List? && Valid(list)
    modifies rec
    ensures var s := Scan(m, list, |list.objects|, r, tMin, tMax, old(rec.Value()));
      hitAnything == s.hitAnything && rec.Value() == s.rec
    decreases list, 0
  {
    hitAnything := false;
    var closest := tMax;
    var temp := new Record<Option<M>>(DefaultRecord());
    var i := 0;
    while i < |list.objects|
      invariant 0 <= i <= |list.objects|
      invariant var s := Scan(m, list, i, r, tMin, tMax, old(rec.Value()));
        hitAnything == s.hitAnything && closest == s.closest && temp.Value() == s.temp && rec.Value() == s.rec
    {
      var hit := HitObject(m, list.objects[i], r, tMin, closest, temp);
      if hit {
        hitAnything := true;
        closest := temp.t;
        rec.Assign(temp.Value());
      }
      i := i + 1;
    }
  }

  // ---- bounding_box ---------------------------------------------------------------

  /** `Aabb::default()`. */
  function DefaultBox(): (b: Aabb)
    ensures b.min == Zero && b.max == Zero
  {
    Aabb(Zero, Zero)
  }

  /**
   * `bounding_box(t0, t1, output_box)`: the flag and the box left in
   * `output_box`, which held `prior` before the call. The sphere of
   * raytracer/src/sphere.rs has no `bounding_box`; it is given the box of
   * raytracer/src/hittable/sphere.rs. A list answers with its fold as
   * written, flag inverted and all (`ListBoxFlagInverted`); the corrected
   * fold is `ListBox`.
   */
  function BoxOut<M>(o: Object<M>, t0: real, t1: real, prior: Aabb): (res: (bool, Aabb))
    requires Valid(o)
    ensures !res.0 ==> o.List? || o.Translate?
    ensures o.List? && |o.objects| == 0 ==> res == (false, prior)
    decreases o, 1
  {
    match o
    case Sphere(center, radius, _) => (true, SphereBox(center, radius))
    case AaRect(rc, _) => (true, RectBox(rc))
    case List(objects) =>
      if |objects| == 0 then (false, prior)
      else
        var s := BoxScanAsWritten(o, |objects|, t0, t1, prior);
        (s.ok, s.output)
    case Box(boxMin, boxMax, _) => (true, Aabb(boxMin, boxMax))
    case Translate(ptr, offset) =>
      var (ok, b) := BoxOut(ptr, t0, t1, prior);
      if !ok then (false, b) else (true, Aabb(Add(b.Min(), offset), Add(b.Max(), offset)))
    case RotateY(_, _, _, _, bbox) => (true, bbox)
    case BvhNode(_, _, box) => (true, box)
  }

  /** The variables of the list's box fold: the flag, `output_box` and `temp_box`. */
  datatype BoxState = BoxState(ok: bool, output: Aabb, temp: Aabb)

  /**
   * The box fold over the first `n` members as
   * raytracer/src/hittable/hittable_list.rs:41-55 writes it: every member is
   * visited, `ret` becomes `false` whenever a member DOES report a box, and
   * the box of a member that reports none is whatever `temp_box` still holds.
   */
  function BoxScanAsWritten<M>(list: Object<M>, n: nat, t0: real, t1: real, prior: Aabb): (s: BoxState)
    requires list.List? && Valid(list) && n <= |list.objects|
    ensures 0 < n && BoxOut(list.objects[0], t0, t1, DefaultBox()).0 ==> !s.ok
    decreases list, 0, n
  {
    if n == 0 then BoxState(true, prior, DefaultBox())
    else
      var s := BoxScanAsWritten(list, n - 1, t0, t1, prior);
      var (ok, temp) := BoxOut(list.objects[n - 1], t0, t1, s.temp);
      BoxState(if ok then false else s.ok, if n == 1 then temp else SurroundingBox(s.output, temp), temp)
  }

  /**
   * The box fold over the first `n` members, as the list is evidently meant
   * to do it: stop with `false` at the first member without a box, otherwise
   * take the first member's box and widen it by each further member's.
   */
  function BoxScan<M>(list: Object<M>, n: nat, t0: real, t1: real, prior: Aabb): (s: BoxState)
    requires list.List? && Valid(list) && n <= |list.objects|
    decreases list, 0, n
  {
    if n == 0 then BoxState(true, prior, DefaultBox())
    else
      var s := BoxScan(list, n - 1, t0, t1, prior);
      if !s.ok then s
      else
        var (ok, temp) := BoxOut(list.objects[n - 1], t0, t1, s.temp);
        if !ok then BoxState(false, s.output, temp)
        else BoxState(true, if n == 1 then temp else SurroundingBox(s.output, temp), temp)
  }

  /** `HittableList::bounding_box` as evidently intended; its members answer through `BoxOut`. */
  function ListBox<M>(list: Object<M>, t0: real, t1: real, prior: Aabb): (res: (bool, Aabb))
    requires list.List? && Valid(list)
    ensures |list.objects| == 0 ==> res == (false, prior)
  {
    if |list.objects| == 0 then (false, prior)
    else
      var s := BoxScan(list, |list.objects|, t0, t1, prior);
      (s.ok, s.output)
  }

  // ---- What bounding_box promises -------------------------------------------------

  /**
   * Once the fold has seen a member, whether it succeeds and, when it does,
   * its whole state do not depend on what `output_box` held before.
   */
  lemma {:induction false} BoxScanIndependent<M>(list: Object<M>, n: nat, t0: real, t1: real, p: Aabb, p2: Aabb)
    requires list.List? && Valid(list) && 1 <= n <= |list.objects|
    ensures BoxScan(list, n, t0, t1, p).ok == BoxScan(list, n, t0, t1, p2).ok
    ensures BoxScan(list, n, t0, t1, p).ok ==> BoxScan(list, n, t0, t1, p) == BoxScan(list, n, t0, t1, p2)
  {
    if 1 < n {
      BoxScanIndependent(list, n - 1, t0, t1, p, p2);
    }
  }

  /**
   * The fold as written forgets what `output_box` held once it has seen a
   * member: the first member's box (or the `temp_box` it leaves) replaces it.
   */
  lemma {:induction false} BoxScanAsWrittenIndependent<M>(list: Object<M>, n: nat, t0: real, t1: real, p: Aabb, p2: Aabb)
    requires list.List? && Valid(list) && 1 <= n <= |list.objects|
    ensures BoxScanAsWritten(list, n, t0, t1, p) == BoxScanAsWritten(list, n, t0, t1, p2)
  {
    if 1 < n {
      BoxScanAsWrittenIndependent(list, n - 1, t0, t1, p, p2);
    }
  }

  /**
   * Whether an object reports a box does not depend on what `output_box`
   * held before the call, and neither does the box it reports.
   */
  lemma {:induction false} BoxIndependent<M>(o: Object<M>, t0: real, t1: real, p: Aabb, p2: Aabb)
    requires Valid(o)
    ensures BoxOut(o, t0, t1, p).0 == BoxOut(o, t0, t1, p2).0
    ensures BoxOut(o, t0, t1, p).0 ==> BoxOut(o, t0, t1, p) == BoxOut(o, t0, t1, p2)
    decreases o
  {
    match o
    case List(objects) =>
      if |objects| > 0 {
        BoxScanAsWrittenIndependent(o, |objects|, t0, t1, p, p2);
      }
    case Translate(ptr, _) =>
      BoxIndependent(ptr, t0, t1, p, p2);
    case _ =>
  }

  /** The box an object reports, when it reports one. */
  function BoxOf<M>(o: Object<M>, t0: real, t1: real): (b: Aabb)
    requires Valid(o)
  {
    BoxOut(o, t0, t1, DefaultBox()).1
  }

  /** Whether an object reports a box. */
  predicate HasBox<M>(o: Object<M>, t0: real, t1: real)
    requires Valid(o)
  {
    BoxOut(o, t0, t1, DefaultBox()).0
  }

  /**
   * The fold over `n >= 1` members succeeds exactly when each of them
   * reports a box, and its box then encloses every member's box.
   */
  lemma {:induction false} BoxScanMeaning<M>(list: Object<M>, n: nat, t0: real, t1: real, prior: Aabb)
    requires list.List? && Valid(list) && 1 <= n <= |list.objects|
    ensures BoxScan(list, n, t0, t1, prior).ok <==> forall k :: 0 <= k < n ==> HasBox(list.objects[k], t0, t1)
    ensures BoxScan(list, n, t0, t1, prior).ok ==>
      forall k :: 0 <= k < n ==> Encloses(BoxScan(list, n, t0, t1, prior).output, BoxOf(list.objects[k], t0, t1))
    ensures BoxScan(list, n, t0, t1, prior).ok ==> BoxScan(list, n, t0, t1, prior).temp == BoxOf(list.objects[n - 1], t0, t1)
  {
    var s := BoxScan(list, n - 1, t0, t1, prior);
    var o := list.objects[n - 1];
    BoxIndependent(o, t0, t1, s.temp, DefaultBox());
    if n == 1 {
      EnclosesReflexive(BoxOf(o, t0, t1));
    } else {
      BoxScanMeaning(list, n - 1, t0, t1, prior);
      if s.ok && HasBox(o, t0, t1) {
        var out := SurroundingBox(s.output, BoxOf(o, t0, t1));
        forall k | 0 <= k < n - 1
          ensures Encloses(out, BoxOf(list.objects[k], t0, t1))
        {
          EnclosesTransitive(out, s.output, BoxOf(list.objects[k], t0, t1));
        }
      }
    }
  }

  lemma EnclosesReflexive(b: Aabb)
    ensures Encloses(b, b)
  {
    forall i | 0 <= i < 3
      ensures b.min.E(i) <= b.min.E(i) && b.max.E(i) <= b.max.E(i)
    {
    }
  }

  /**
   * `HittableList::bounding_box` as evidently intended: `false` for an
   * empty list; otherwise `true` exactly when every member reports a box,
   * and then the box encloses every member's box.
   */
  lemma ListBoxMeaning<M>(objects: seq<Object<M>>, t0: real, t1: real, prior: Aabb)
    requires Valid(List(objects))
    ensures |objects| == 0 ==> ListBox(List(objects), t0, t1, prior) == (false, prior)
    ensures ListBox(List(objects), t0, t1, prior).0 <==>
      0 < |objects| && forall k :: 0 <= k < |objects| ==> HasBox(objects[k], t0, t1)
    ensures ListBox(List(objects), t0, t1, prior).0 ==>
      forall k :: 0 <= k < |objects| ==> Encloses(ListBox(List(objects), t0, t1, prior).1, BoxOf(objects[k], t0, t1))
  {
    if 0 < |objects| {
      BoxScanMeaning(List(objects), |objects|, t0, t1, prior);
    }
  }

  /** The fold as written over the first `n` members keeps `ret` true exactly when none of them reports a box. */
  lemma {:induction false} BoxScanAsWrittenMeaning<M>(list: Object<M>, n: nat, t0: real, t1: real, prior: Aabb)
    requires list.List? && Valid(list) && n <= |list.objects|
    ensures BoxScanAsWritten(list, n, t0, t1, prior).ok <==> forall k :: 0 <= k < n ==> !HasBox(list.objects[k], t0, t1)
  {
    if 0 < n {
      BoxScanAsWrittenMeaning(list, n - 1, t0, t1, prior);
      BoxIndependent(list.objects[n - 1], t0, t1, BoxScanAsWritten(list, n - 1, t0, t1, prior).temp, DefaultBox());
    }
  }

  /**
   * What the list's `bounding_box` as written answers: `true` exactly when
   * the list is non-empty and NO member reports a box. So a list of
   * spheres, rectangles or boxes never has a box, and a tree node cannot
   * be built over it.
   */
  lemma ListBoxAsWrittenMeaning<M>(objects: seq<Object<M>>, t0: real, t1: real)
    requires Valid(List(objects))
    ensures HasBox(List(objects), t0, t1) <==> 0 < |objects| && forall k :: 0 <= k < |objects| ==> !HasBox(objects[k], t0, t1)
  {
    BoxScanAsWrittenMeaning(List(objects), |objects|, t0, t1, DefaultBox());
  }

  /**
   * The flag as written is inverted: for a one-sphere list the intended
   * fold returns `true` with the sphere's box; as written it returns
   * `false` with the same box, and so does a translated copy of the list.
   */
  lemma ListBoxFlagInverted<M>(center: Vec3, radius: real, mat: Option<M>, offset: Vec3, t0: real, t1: real, prior: Aabb)
    requires radius != 0.0
    ensures BoxOut(List([Sphere(center, radius, mat)]), t0, t1, prior) == (false, SphereBox(center, radius))
    ensures ListBox(List([Sphere(center, radius, mat)]), t0, t1, prior) == (true, SphereBox(center, radius))
    ensures BoxOut(Translate(List([Sphere(center, radius, mat)]), offset), t0, t1, prior) == (false, SphereBox(center, radius))
  {
    var list := List([Sphere(center, radius, mat)]);
    assert BoxScanAsWritten(list, 1, t0, t1, prior) == BoxState(false, SphereBox(center, radius), SphereBox(center, radius));
    assert BoxScan(list, 1, t0, t1, prior) == BoxState(true, SphereBox(center, radius), SphereBox(center, radius));
  }

  // ---- What hit promises ------------------------------------------------------------

  /** Spheres and rectangles: the objects that answer `hit` themselves. */
  predicate Leaf<M>(o: Object<M>) {
    o.Sphere? || o.AaRect?
  }

  /** The parameter at which a leaf reports a hit in the window, if it does. */
  function LeafT<M>(m: Libm, o: Object<M>, r: Ray, tMin: real, tMax: real): (t: Option<real>)
    requires Valid(o) && Leaf(o)
    ensures t.Some? ==> tMin <= t.value <= tMax
  {
    match o
    case Sphere(center, radius, _) => SphereRoot(m, center, radius, r, Fin(tMin), Fin(tMax))
    case AaRect(rc, _) =>
      var c := RectCrossing(rc, r, Fin(tMin), Fin(tMax));
      if c.None? then None
      else
        RectCrossingFacts(rc, r, Fin(tMin), Fin(tMax));
        Some(c.value.0)
  }

  /** A leaf reports a hit exactly at `LeafT`, whatever the record held. */
  lemma LeafHit<M>(m: Libm, o: Object<M>, r: Ray, tMin: real, tMax: real, rec: Rec<M>)
    requires Valid(o) && Leaf(o)
    ensures HitOut(m, o, r, tMin, tMax, rec).0 <==> LeafT(m, o, r, tMin, tMax).Some?
    ensures HitOut(m, o, r, tMin, tMax, rec).0 ==> HitOut(m, o, r, tMin, tMax, rec).1.t == LeafT(m, o, r, tMin, tMax).value
    ensures HitOut(m, o, r, tMin, tMax, rec).0 ==> HitOut(m, o, r, tMin, tMax, rec).1.p == r.At(HitOut(m, o, r, tMin, tMax, rec).1.t)
  {
    if o.Sphere? {
      SphereOutMatchesAsWritten(m, o.center, o.radius, o.mat, r, tMin, tMax, rec);
    }
  }

  /** Lowering `t_max` keeps a leaf's hit when it lies at or before the new bound and loses it otherwise. */
  lemma LeafNarrowed<M>(m: Libm, o: Object<M>, r: Ray, tMin: real, tMax: real, hi2: real)
    requires SqrtLaw(m) && Valid(o) && Leaf(o) && hi2 <= tMax
    ensures var wide := LeafT(m, o, r, tMin, tMax);
      LeafT(m, o, r, tMin, hi2) == if wide.Some? && wide.value <= hi2 then wide else None
  {
    match o
    case Sphere(center, radius, _) =>
      SphereRootNarrowed(m, center, radius, r, Fin(tMin), tMax, hi2);
    case AaRect(rc, _) =>
      RectCrossingNarrowed(rc, r, Fin(tMin), tMax, hi2);
  }

  /** Members `0 .. n-1` are valid leaves. */
  predicate Leaves<M>(objects: seq<Object<M>>, n: nat) {
    n <= |objects| && forall k :: 0 <= k < n ==> Valid(objects[k]) && Leaf(objects[k])
  }

  /** Some member before `n` hits in the window. */
  predicate AnyHit<M>(m: Libm, objects: seq<Object<M>>, n: nat, r: Ray, tMin: real, tMax: real)
    requires Leaves(objects, n)
  {
    exists k :: 0 <= k < n && LeafT(m, objects[k], r, tMin, tMax).Some?
  }

  /** `t` is at most the hit of every member before `n` that hits. */
  predicate AtMostEvery<M>(m: Libm, objects: seq<Object<M>>, n: nat, r: Ray, tMin: real, tMax: real, t: real)
    requires Leaves(objects, n)
  {
    forall k :: 0 <= k < n && LeafT(m, objects[k], r, tMin, tMax).Some? ==> t <= LeafT(m, objects[k], r, tMin, tMax).value
  }

  /** `t` is the hit of a member before `n` that no later member before `n` ties. */
  predicate LastAt<M>(m: Libm, objects: seq<Object<M>>, n: nat, r: Ray, tMin: real, tMax: real, t: real)
    requires Leaves(objects, n)
  {
    exists k :: 0 <= k < n && LeafT(m, objects[k], r, tMin, tMax) == Some(t) &&
      (forall j :: k < j < n && LeafT(m, objects[j], r, tMin, tMax).Some? ==> t < LeafT(m, objects[j], r, tMin, tMax).value)
  }

  /** One step of the scan keeps "nearest so far, ties to the later member". */
  lemma NearestStep<M>(m: Libm, objects: seq<Object<M>>, n: nat, r: Ray, tMin: real, tMax: real,
                       hitBefore: bool, tBefore: real, closest: real, hit: bool, tNew: real)
    requires 1 <= n && Leaves(objects, n)
    requires hitBefore == AnyHit(m, objects, n - 1, r, tMin, tMax)
    requires hitBefore ==> AtMostEvery(m, objects, n - 1, r, tMin, tMax, tBefore) &&
                           LastAt(m, objects, n - 1, r, tMin, tMax, tBefore) && closest == tBefore
    requires !hitBefore ==> closest == tMax
    requires var wide := LeafT(m, objects[n - 1], r, tMin, tMax);
      (hit <==> wide.Some? && wide.value <= closest) && (hit ==> tNew == wide.value)
    ensures hitBefore || hit <==> AnyHit(m, objects, n, r, tMin, tMax)
    ensures hitBefore || hit ==>
      var t := if hit then tNew else tBefore;
      AtMostEvery(m, objects, n, r, tMin, tMax, t) && LastAt(m, objects, n, r, tMin, tMax, t)
  {
    var wide := LeafT(m, objects[n - 1], r, tMin, tMax);
    if hit {
      NearestHitStep(m, objects, n, r, tMin, tMax, hitBefore, tBefore, tNew);
    } else if hitBefore {
      NearestKeepStep(m, objects, n, r, tMin, tMax, tBefore);
    } else {
      assert wide.None?;
      NearestNoneStep(m, objects, n, r, tMin, tMax);
    }
  }

  /** A member that hits at or before every earlier hit becomes the nearest, and the last at its `t`. */
  lemma NearestHitStep<M>(m: Libm, objects: seq<Object<M>>, n: nat, r: Ray, tMin: real, tMax: real,
                          hitBefore: bool, tBefore: real, tNew: real)
    requires 1 <= n && Leaves(objects, n)
    requires hitBefore == AnyHit(m, objects, n - 1, r, tMin, tMax)
    requires hitBefore ==> AtMostEvery(m, objects, n - 1, r, tMin, tMax, tBefore) && tNew <= tBefore
    requires LeafT(m, objects[n - 1], r, tMin, tMax) == Some(tNew)
    ensures AnyHit(m, objects, n, r, tMin, tMax)
    ensures AtMostEvery(m, objects, n, r, tMin, tMax, tNew) && LastAt(m, objects, n, r, tMin, tMax, tNew)
  {
    assert 0 <= n - 1 < n && LeafT(m, objects[n - 1], r, tMin, tMax).Some?;
    forall k | 0 <= k < n && LeafT(m, objects[k], r, tMin, tMax).Some?
      ensures tNew <= LeafT(m, objects[k], r, tMin, tMax).value
    {
      if k < n - 1 {
        assert hitBefore;
      }
    }
  }

  /** A member that misses, or hits strictly after the nearest so far, changes nothing. */
  lemma NearestKeepStep<M>(m: Libm, objects: seq<Object<M>>, n: nat, r: Ray, tMin: real, tMax: real, tBefore: real)
    requires 1 <= n && Leaves(objects, n)
    requires AtMostEvery(m, objects, n - 1, r, tMin, tMax, tBefore) && LastAt(m, objects, n - 1, r, tMin, tMax, tBefore)
    requires var wide := LeafT(m, objects[n - 1], r, tMin, tMax); wide.Some? ==> tBefore < wide.value
    ensures AnyHit(m, objects, n, r, tMin, tMax)
    ensures AtMostEvery(m, objects, n, r, tMin, tMax, tBefore) && LastAt(m, objects, n, r, tMin, tMax, tBefore)
  {
    var k :| 0 <= k < n - 1 && LeafT(m, objects[k], r, tMin, tMax) == Some(tBefore) &&
      (forall j :: k < j < n - 1 && LeafT(m, objects[j], r, tMin, tMax).Some? ==> tBefore < LeafT(m, objects[j], r, tMin, tMax).value);
    assert 0 <= k < n && LeafT(m, objects[k], r, tMin, tMax) == Some(tBefore);
  }

  /** With no hit so far and a member that misses, there is still no hit. */
  lemma NearestNoneStep<M>(m: Libm, objects: seq<Object<M>>, n: nat, r: Ray, tMin: real, tMax: real)
    requires 1 <= n && Leaves(objects, n)
    requires !AnyHit(m, objects, n - 1, r, tMin, tMax) && LeafT(m, objects[n - 1], r, tMin, tMax).None?
    ensures !AnyHit(m, objects, n, r, tMin, tMax)
  {
    forall k | 0 <= k < n
      ensures LeafT(m, objects[k], r, tMin, tMax).None?
    {
      if k < n - 1 {
        assert !AnyHit(m, objects, n - 1, r, tMin, tMax);
      }
    }
  }

  /**
   * The list scan over leaves finds the nearest hit: after `n` members it
   * has hit iff one of them hits in the whole window, its `t` is at most
   * each such member's, and it is the `t` of a member that no later member
   * ties (ties go to the later member).
   */
  lemma {:induction false} ScanNearest<M>(m: Libm, list: Object<M>, n: nat, r: Ray, tMin: real, tMax: real, rec: Rec<M>)
    requires SqrtLaw(m) && list.List? && Valid(list) && n <= |list.objects| && Leaves(list.objects, |list.objects|)
    ensures Scan(m, list, n, r, tMin, tMax, rec).hitAnything <==> AnyHit(m, list.objects, n, r, tMin, tMax)
    ensures var s := Scan(m, list, n, r, tMin, tMax, rec);
      s.hitAnything ==> AtMostEvery(m, list.objects, n, r, tMin, tMax, s.rec.t) && LastAt(m, list.objects, n, r, tMin, tMax, s.rec.t)
    ensures var s := Scan(m, list, n, r, tMin, tMax, rec);
      s.hitAnything ==> s.rec.p == r.At(s.rec.t)
  {
    if n > 0 {
      ScanNearest(m, list, n - 1, r, tMin, tMax, rec);
      var s := Scan(m, list, n - 1, r, tMin, tMax, rec);
      var o := list.objects[n - 1];
      var (hit, temp) := HitOut(m, o, r, tMin, s.closest, s.temp);
      LeafHit(m, o, r, tMin, s.closest, s.temp);
      LeafNarrowed(m, o, r, tMin, tMax, s.closest);
      NearestStep(m, list.objects, n, r, tMin, tMax, s.hitAnything, s.rec.t, s.closest, hit, temp.t);
    }
  }

  /** `HittableList::hit` over leaves reports the nearest of the members' hits. */
  lemma ListNearest<M>(m: Libm, objects: seq<Object<M>>, r: Ray, tMin: real, tMax: real, rec: Rec<M>)
    requires SqrtLaw(m) && Valid(List(objects)) && Leaves(objects, |objects|)
    ensures var (hit, out) := HitOut(m, List(objects), r, tMin, tMax, rec);
      (hit <==> AnyHit(m, objects, |objects|, r, tMin, tMax)) &&
      (!hit ==> out == rec) &&
      (hit ==> AtMostEvery(m, objects, |objects|, r, tMin, tMax, out.t) && LastAt(m, objects, |objects|, r, tMin, tMax, out.t)) &&
      (hit ==> out.p == r.At(out.t))
  {
    ScanNearest(m, List(objects), |objects|, r, tMin, tMax, rec);
  }

  /**
   * A BVH node over two leaves. When its box test fails it reports nothing
   * and leaves the record alone. When the test passes it hits iff either
   * leaf hits in the window, and a right hit at or before the left one is
   * the one reported. A strictly nearer left hit survives only when the
   * right leaf is a rectangle: a right sphere that misses the narrowed
   * window still writes the root it tried (`BvhOverwriteExample`).
   */
  lemma BvhNearest<M>(m: Libm, a: Object<M>, b: Object<M>, box: Aabb, r: Ray, tMin: real, tMax: real, rec: Rec<M>)
    requires SqrtLaw(m) && Valid(a) && Valid(b) && Leaf(a) && Leaf(b)
    ensures !BoxPasses(box, r, tMin, tMax) ==> HitOut(m, BvhNode(Some(a), Some(b), box), r, tMin, tMax, rec) == (false, rec)
    ensures BoxPasses(box, r, tMin, tMax) ==>
      var (hit, out) := HitOut(m, BvhNode(Some(a), Some(b), box), r, tMin, tMax, rec);
      var ta, tb := LeafT(m, a, r, tMin, tMax), LeafT(m, b, r, tMin, tMax);
      (hit <==> ta.Some? || tb.Some?) &&
      (tb.Some? && (ta.None? || tb.value <= ta.value) ==> out.t == tb.value) &&
      (ta.Some? && (tb.None? || ta.value < tb.value) ==>
        var left := HitOut(m, a, r, tMin, tMax, rec).1;
        left.t == ta.value &&
        out == if b.AaRect? then left else SphereOutAsWritten(m, b.center, b.radius, b.mat, r, tMin, ta.value, left).1)
  {
    var (hitLeft, recLeft) := HitOut(m, a, r, tMin, tMax, rec);
    LeafHit(m, a, r, tMin, tMax, rec);
    var hi := if hitLeft then recLeft.t else tMax;
    LeafHit(m, b, r, tMin, hi, recLeft);
    LeafNarrowed(m, b, r, tMin, tMax, hi);
  }

  /**
   * `Translate` reports a hit exactly when the object hits the moved ray;
   * the point is shifted by `offset`, `t`, `u`, `v` and the material are
   * the object's, and `front_face` is set unless the ray runs along the
   * object's normal.
   */
  lemma TranslateOut<M>(m: Libm, o: Object<M>, offset: Vec3, r: Ray, tMin: real, tMax: real, rec: Rec<M>)
    requires Valid(o)
    ensures var moved := Ray(Sub(r.st, offset), r.dir, r.tm);
      var (hit, inner) := HitOut(m, o, moved, tMin, tMax, rec);
      var (outerHit, outer) := HitOut(m, Translate(o, offset), r, tMin, tMax, rec);
      (outerHit <==> hit) && (!outerHit ==> outer == inner) && (CleanMiss(o) && !outerHit ==> outer == rec) &&
      (outerHit ==>
        outer.p == Add(inner.p, offset) && outer.t == inner.t && outer.u == inner.u &&
        outer.v == inner.v && outer.mat == inner.mat &&
        (outer.frontFace <==> Dot(r.dir, inner.normal) < 0.0))
  {
  }

  /**
   * `RotateY` reports a hit exactly when the object hits the rotated ray;
   * `t`, `u`, `v` and the material are the object's, and, when the stored
   * sine and cosine satisfy `sin^2 + cos^2 = 1`, rotating the reported
   * point forward again gives the object's point.
   */
  lemma RotateYOut<M>(m: Libm, o: Object<M>, sinTheta: real, cosTheta: real, hasbox: bool, bbox: Aabb,
                      r: Ray, tMin: real, tMax: real, rec: Rec<M>)
    requires Valid(o)
    ensures var rotated := RotatedRay(sinTheta, cosTheta, r);
      var (hit, inner) := HitOut(m, o, rotated, tMin, tMax, rec);
      var (outerHit, outer) := HitOut(m, RotateY(o, sinTheta, cosTheta, hasbox, bbox), r, tMin, tMax, rec);
      (outerHit <==> hit) && (!outerHit ==> outer == inner) && (CleanMiss(o) && !outerHit ==> outer == rec) &&
      (outerHit ==>
        outer.t == inner.t && outer.u == inner.u && outer.v == inner.v && outer.mat == inner.mat &&
        outer.p.y == inner.p.y &&
        (sinTheta * sinTheta + cosTheta * cosTheta == 1.0 ==> RotateForward(sinTheta, cosTheta, outer.p) == inner.p))
  {
    var rotated := RotatedRay(sinTheta, cosTheta, r);
    var inner := HitOut(m, o, rotated, tMin, tMax, rec).1;
    if sinTheta * sinTheta + cosTheta * cosTheta == 1.0 {
      RotationInverse(sinTheta, cosTheta, inner.p);
    }
  }

  // ---- The sphere that writes on a miss ------------------------------------------------

  /**
   * When both roots lie outside the window, the sphere as written reports
   * `false` but leaves the record holding the farther root, its point,
   * normal and material; the intended sphere leaves the record alone.
   */
  lemma SphereMissWrites<M>(m: Libm, center: Vec3, radius: real, mat: Option<M>,
                            r: Ray, tMin: real, tMax: real, rec: Rec<M>)
    requires SqrtLaw(m) && radius != 0.0
    requires var q := SphereQuadratic(center, radius, r);
      0.0 < q.a && 0.0 <= Discriminant(q) &&
      (NearRoot(m, q) < tMin || tMax < NearRoot(m, q)) && (FarRoot(m, q) < tMin || tMax < FarRoot(m, q))
    ensures var q := SphereQuadratic(center, radius, r);
      SphereOutAsWritten(m, center, radius, mat, r, tMin, tMax, rec) ==
        (false, SphereWrite(center, radius, mat, r, FarRoot(m, q), rec))
    ensures SphereOut(m, center, radius, mat, r, tMin, tMax, rec) == (false, rec)
  {
  }

  lemma SqrtOne(m: Libm)
    requires SqrtLaw(m)
    ensures m.sqrt(1.0) == 1.0
  {
    var s := m.sqrt(1.0);
    assert Mul(s - 1.0, s + 1.0) == s * s - 1.0;
    ZeroProduct(s - 1.0, s + 1.0);
  }

  /** The unit sphere at the origin, the ray from (0, 0, -3) along +z and the window [5, 10]. */
  predicate IsMissExample(center: Vec3, radius: real, r: Ray, tMin: real, tMax: real) {
    center == Zero && radius == 1.0 && tMin == 5.0 && tMax == 10.0 &&
    r.st.x == 0.0 && r.st.y == 0.0 && r.st.z == -3.0 &&
    r.dir.x == 0.0 && r.dir.y == 0.0 && r.dir.z == 1.0
  }

  /** The example's quadratic is `t^2 - 6 t + 8`, with roots 2 and 4. */
  lemma MissExampleQuadratic(center: Vec3, radius: real, r: Ray, tMin: real, tMax: real)
    requires IsMissExample(center, radius, r, tMin, tMax)
    ensures SphereQuadratic(center, radius, r) == Quadratic(1.0, -3.0, 8.0)
  {
    var oc := Sub(r.st, center);
    assert oc.x == 0.0 && oc.y == 0.0 && oc.z == -3.0;
    assert LengthSquared(r.dir) == 1.0;
    assert Dot(oc, r.dir) == -3.0;
    assert LengthSquared(oc) == 9.0;
  }

  lemma MissExampleRoots(m: Libm, q: Quadratic)
    requires SqrtLaw(m) && q == Quadratic(1.0, -3.0, 8.0)
    ensures Discriminant(q) == 1.0 && NearRoot(m, q) == 2.0 && FarRoot(m, q) == 4.0
  {
    assert Discriminant(q) == 1.0;
    SqrtOne(m);
  }

  /**
   * A concrete case: a sphere whose quadratic is that of `IsMissExample`
   * (roots t = 2 and t = 4) with the window [5, 10]. The sphere as written
   * returns `false` and overwrites `t` with 4; the intended one leaves the
   * record alone.
   */
  lemma SphereMissExample<M>(m: Libm, center: Vec3, radius: real, mat: Option<M>, r: Ray, tMin: real, tMax: real, rec: Rec<M>)
    requires SqrtLaw(m) && radius != 0.0
    requires SphereQuadratic(center, radius, r) == Quadratic(1.0, -3.0, 8.0)
    requires tMin == 5.0 && tMax == 10.0
    ensures var (hit, out) := SphereOutAsWritten(m, center, radius, mat, r, tMin, tMax, rec);
      !hit && out.t == 4.0
    ensures SphereOut(m, center, radius, mat, r, tMin, tMax, rec) == (false, rec)
  {
    MissExampleRoots(m, SphereQuadratic(center, radius, r));
    SphereMissWrites(m, center, radius, mat, r, tMin, tMax, rec);
  }

  /** Two unit spheres on the -z axis, at z = -2 and z = -10, and the ray from the origin along -z. */
  predicate IsNodeExample(ca: Vec3, cb: Vec3, radius: real, r: Ray) {
    ca.x == 0.0 && ca.y == 0.0 && ca.z == -2.0 &&
    cb.x == 0.0 && cb.y == 0.0 && cb.z == -10.0 && radius == 1.0 &&
    r.st.x == 0.0 && r.st.y == 0.0 && r.st.z == 0.0 &&
    r.dir.x == 0.0 && r.dir.y == 0.0 && r.dir.z == -1.0
  }

  /** A unit sphere at distance `d` down the -z axis, seen from the origin along -z: `t^2 - 2 d t + c` with `c = d^2 - 1`. */
  lemma AxisSphereQuadratic(center: Vec3, radius: real, r: Ray, d: real, c: real)
    requires center.x == 0.0 && center.y == 0.0 && center.z == -d && radius == 1.0 && c == d * d - 1.0
    requires r.st.x == 0.0 && r.st.y == 0.0 && r.st.z == 0.0
    requires r.dir.x == 0.0 && r.dir.y == 0.0 && r.dir.z == -1.0
    ensures SphereQuadratic(center, radius, r) == Quadratic(1.0, -d, c)
  {
    var oc := Sub(r.st, center);
    assert oc.x == 0.0 && oc.y == 0.0 && oc.z == d;
    assert LengthSquared(r.dir) == 1.0;
    assert Dot(oc, r.dir) == -d;
    assert LengthSquared(oc) == d * d;
  }

  /**
   * The example's quadratics are `t^2 - 4 t + 3` (roots 1 and 3) and
   * `t^2 - 20 t + 99` (roots 9 and 11), and its ray has zero x and y
   * components, so every box test passes.
   */
  lemma NodeExampleQuadratics(ca: Vec3, cb: Vec3, radius: real, r: Ray)
    requires IsNodeExample(ca, cb, radius, r)
    ensures SphereQuadratic(ca, radius, r) == Quadratic(1.0, -2.0, 3.0)
    ensures SphereQuadratic(cb, radius, r) == Quadratic(1.0, -10.0, 99.0)
    ensures !NonZeroDir(r)
  {
    AxisSphereQuadratic(ca, radius, r, 2.0, 3.0);
    NodeExampleFar(cb, radius, r);
  }

  lemma NodeExampleFar(cb: Vec3, radius: real, r: Ray)
    requires cb.x == 0.0 && cb.y == 0.0 && cb.z == -10.0 && radius == 1.0
    requires r.st.x == 0.0 && r.st.y == 0.0 && r.st.z == 0.0
    requires r.dir.x == 0.0 && r.dir.y == 0.0 && r.dir.z == -1.0
    ensures SphereQuadratic(cb, radius, r) == Quadratic(1.0, -10.0, 99.0)
  {
    AxisSphereQuadratic(cb, radius, r, 10.0, 99.0);
  }

  lemma NodeExampleRoots(m: Libm, q: Quadratic, d: real)
    requires SqrtLaw(m) && q == Quadratic(1.0, -d, d * d - 1.0)
    ensures Discriminant(q) == 1.0 && NearRoot(m, q) == d - 1.0 && FarRoot(m, q) == d + 1.0
  {
    assert Discriminant(q) == 1.0;
    SqrtOne(m);
  }

  /** The left sphere of the example hits at t = 1 in the window [0.001, 100]. */
  lemma NodeExampleLeft<M>(m: Libm, center: Vec3, radius: real, mat: Option<M>, r: Ray, rec: Rec<M>)
    requires SqrtLaw(m) && radius != 0.0 && SphereQuadratic(center, radius, r) == Quadratic(1.0, -2.0, 3.0)
    ensures SphereRoot(m, center, radius, r, Fin(0.001), Fin(100.0)) == Some(1.0)
    ensures var (hit, out) := SphereOutAsWritten(m, center, radius, mat, r, 0.001, 100.0, rec);
      hit && out.t == 1.0
  {
    NodeExampleRoots(m, SphereQuadratic(center, radius, r), 2.0);
  }

  /**
   * The right sphere of the example hits at t = 9 in the window [0.001, 100];
   * in the window [0.001, 1] it returns `false` with t = 11 written.
   */
  lemma NodeExampleRight<M>(m: Libm, center: Vec3, radius: real, mat: Option<M>, r: Ray, rec: Rec<M>)
    requires SqrtLaw(m) && radius != 0.0 && SphereQuadratic(center, radius, r) == Quadratic(1.0, -10.0, 99.0)
    ensures SphereRoot(m, center, radius, r, Fin(0.001), Fin(100.0)) == Some(9.0)
    ensures var (hit, out) := SphereOutAsWritten(m, center, radius, mat, r, 0.001, 1.0, rec);
      !hit && out.t == 11.0
  {
    NodeExampleRoots(m, SphereQuadratic(center, radius, r), 10.0);
  }

  /**
   * The node over two spheres with the quadratics of `IsNodeExample`, in the
   * window [0.001, 100] and with a box the ray passes (any box does for the
   * example's ray): the left sphere hits at t = 1 and the right one, asked
   * alone, at t = 9, yet the node reports a hit at t = 11. Asked with
   * `t_max = 1`, the right sphere rejects 9, then 11, and returns `false`
   * after writing 11 over the left sphere's record.
   */
  lemma BvhOverwriteExample<M>(m: Libm, ca: Vec3, cb: Vec3, radius: real, ma: Option<M>, mb: Option<M>,
                               box: Aabb, r: Ray, rec: Rec<M>)
    requires SqrtLaw(m) && radius != 0.0 && BoxPasses(box, r, 0.001, 100.0)
    requires SphereQuadratic(ca, radius, r) == Quadratic(1.0, -2.0, 3.0)
    requires SphereQuadratic(cb, radius, r) == Quadratic(1.0, -10.0, 99.0)
    ensures LeafT(m, Sphere(ca, radius, ma), r, 0.001, 100.0) == Some(1.0)
    ensures LeafT(m, Sphere(cb, radius, mb), r, 0.001, 100.0) == Some(9.0)
    ensures var (hit, out) := HitOut(m, BvhNode(Some(Sphere(ca, radius, ma)), Some(Sphere(cb, radius, mb)), box), r, 0.001, 100.0, rec);
      hit && out.t == 11.0
  {
    NodeExampleLeft(m, ca, radius, ma, r, rec);
    var left := SphereOutAsWritten(m, ca, radius, ma, r, 0.001, 100.0, rec).1;
    NodeExampleRight(m, cb, radius, mb, r, left);
  }

  lemma NodeExampleExists()
    ensures IsNodeExample(Vec3(0.0, 0.0, -2.0), Vec3(0.0, 0.0, -10.0), 1.0, Ray(Zero, Vec3(0.0, 0.0, -1.0), 0.0))
  {
  }

  // ---- HittableList --------------------------------------------------------------

  /** Once the fold has stopped with `false`, later members change nothing. */
  lemma {:induction false} BoxScanStops<M>(list: Object<M>, k: nat, n: nat, t0: real, t1: real, prior: Aabb)
    requires list.List? && Valid(list) && k <= n <= |list.objects|
    requires !BoxScan(list, k, t0, t1, prior).ok
    ensures BoxScan(list, n, t0, t1, prior) == BoxScan(list, k, t0, t1, prior)
    decreases n
  {
    if k < n {
      BoxScanStops(list, k, n - 1, t0, t1, prior);
    }
  }

  /** `HittableList`: a growable list of objects. */
  class HittableList<M> {
    var objects: seq<Object<M>>

    /** `Default::default()`: the empty list. */
    constructor ()
      ensures objects == []
    {
      objects := [];
    }

    /** `add`: appends `obj` and keeps the members before it in place. */
    method Add(obj: Object<M>)
      modifies this
      ensures objects == old(objects) + [obj]
    {
      objects := objects + [obj];
    }

    /** `hit`: the nearest-hit scan of `ScanList`. */
    method Hit(m: Libm, r: Ray, tMin: real, tMax: real, rec: Record<Option<M>>) returns (hit: bool)
      requires Valid(List(objects))
      modifies rec
      ensures (hit, rec.Value()) == HitOut(m, List(objects), r, tMin, tMax, old(rec.Value()))
    {
      hit := ScanList(m, List(objects), r, tMin, tMax, rec);
    }

    /**
     * `bounding_box(t0, t1, output_box)` as evidently intended: `false` for
     * an empty list or at the first member without a box; otherwise the
     * first member's box widened by every further member's.
     */
    method BoundingBox(t0: real, t1: real, outputBox: Aabb) returns (ok: bool, box: Aabb)
      requires Valid(List(objects))
      ensures (ok, box) == ListBox(List(objects), t0, t1, outputBox)
    {
      if |objects| == 0 {
        return false, outputBox;
      }
      var tempBox := DefaultBox();
      var first := true;
      box := outputBox;
      var i := 0;
      while i < |objects|
        invariant 0 <= i <= |objects|
        invariant first <==> i == 0
        invariant BoxScan(List(objects), i, t0, t1, outputBox) == BoxState(true, box, tempBox)
      {
        var (has, b) := BoxOut(objects[i], t0, t1, tempBox);
        tempBox := b;
        if !has {
          BoxScanStops(List(objects), i + 1, |objects|, t0, t1, outputBox);
          return false, box;
        }
        box := if first then tempBox else SurroundingBox(box, tempBox);
        first := false;
        i := i + 1;
      }
      ok := true;
    }
  }

  // ---- RotateY::creat -----------------------------------------------------------

  /** `i as f64 * hi + (1.0 - i as f64) * lo` for an index `i` of 0 or 1: `lo` for 0 and `hi` for 1. */
  function Pick(i: nat, lo: real, hi: real): (v: real)
    requires i < 2
    ensures v == if i == 0 then lo else hi
  {
    PickSelects(i, lo, hi);
    i as real * hi + (1.0 - i as real) * lo
  }

  lemma PickSelects(i: nat, lo: real, hi: real)
    requires i < 2
    ensures i as real * hi + (1.0 - i as real) * lo == if i == 0 then lo else hi
  {
    if i == 0 {
      assert i as real == 0.0;
    } else {
      assert i as real == 1.0;
    }
  }

  /** Corner `(i, j, k)` of `b`: index 0 picks the minimum on its axis, 1 the maximum. */
  function Corner(b: Aabb, i: nat, j: nat, k: nat): Vec3
    requires i < 2 && j < 2 && k < 2
  {
    Vec3(Pick(i, b.min.x, b.max.x), Pick(j, b.min.y, b.max.y), Pick(k, b.min.z, b.max.z))
  }

  /** The `n`-th corner in the order of `creat`'s loops over `i`, then `j`, then `k`, rotated back. */
  function Tester(sinTheta: real, cosTheta: real, b: Aabb, n: nat): (p: Vec3)
    requires n < 8
  {
    RotateBack(sinTheta, cosTheta, Corner(b, n / 4, n / 2 % 2, n % 2))
  }

  lemma CornerIndex(i: nat, j: nat, k: nat)
    requires i < 2 && j < 2 && k < 2
    ensures (4 * i + 2 * j + k) / 4 == i && (4 * i + 2 * j + k) / 2 % 2 == j && (4 * i + 2 * j + k) % 2 == k
  {
    if i == 0 && j == 0 && k == 0 {
    } else if i == 0 && j == 0 {
    } else if i == 0 && k == 0 {
    } else if i == 0 {
    } else if j == 0 && k == 0 {
    } else if j == 0 {
    } else if k == 0 {
    } else {
    }
  }

  /**
   * Component `a` of `min_` after the first `n` corners: the least of
   * their components. The loop starts from the first corner where the
   * source starts from `INFINITY`; `fmin(INFINITY, x)` is `x`, so the
   * results agree.
   */
  function FoldMin(sinTheta: real, cosTheta: real, b: Aabb, n: nat, a: nat): real
    requires n <= 8 && a < 3
  {
    if n == 0 then Tester(sinTheta, cosTheta, b, 0).E(a)
    else Fmin(FoldMin(sinTheta, cosTheta, b, n - 1, a), Tester(sinTheta, cosTheta, b, n - 1).E(a))
  }

  /** Component `a` of `max_` after the first `n` corners: the greatest of them. */
  function FoldMax(sinTheta: real, cosTheta: real, b: Aabb, n: nat, a: nat): real
    requires n <= 8 && a < 3
  {
    if n == 0 then Tester(sinTheta, cosTheta, b, 0).E(a)
    else Fmax(FoldMax(sinTheta, cosTheta, b, n - 1, a), Tester(sinTheta, cosTheta, b, n - 1).E(a))
  }

  /** Corner `(i, j, k)` is the corner `4 i + 2 j + k` of the loops' order. */
  lemma TesterAt(sinTheta: real, cosTheta: real, b: Aabb, i: nat, j: nat, k: nat)
    requires i < 2 && j < 2 && k < 2
    ensures Tester(sinTheta, cosTheta, b, 4 * i + 2 * j + k) == RotateBack(sinTheta, cosTheta, Corner(b, i, j, k))
  {
    CornerIndex(i, j, k);
  }

  /** One more corner folds its components into the running minimum and maximum. */
  lemma FoldStep(sinTheta: real, cosTheta: real, b: Aabb, n: nat, a: nat)
    requires n < 8 && a < 3
    ensures FoldMin(sinTheta, cosTheta, b, n + 1, a) == Fmin(FoldMin(sinTheta, cosTheta, b, n, a), Tester(sinTheta, cosTheta, b, n).E(a))
    ensures FoldMax(sinTheta, cosTheta, b, n + 1, a) == Fmax(FoldMax(sinTheta, cosTheta, b, n, a), Tester(sinTheta, cosTheta, b, n).E(a))
  {
  }

  /** The box `creat` stores: the extent of the eight rotated corners of the child's box, never inverted. */
  function RotatedBox(sinTheta: real, cosTheta: real, b: Aabb): (rb: Aabb)
    ensures rb.min.x <= rb.max.x && rb.min.y <= rb.max.y && rb.min.z <= rb.max.z
  {
    FoldMinBounds(sinTheta, cosTheta, b, 8, 0);
    FoldMaxBounds(sinTheta, cosTheta, b, 8, 0);
    FoldMinBounds(sinTheta, cosTheta, b, 8, 1);
    FoldMaxBounds(sinTheta, cosTheta, b, 8, 1);
    FoldMinBounds(sinTheta, cosTheta, b, 8, 2);
    FoldMaxBounds(sinTheta, cosTheta, b, 8, 2);
    Aabb(Vec3(FoldMin(sinTheta, cosTheta, b, 8, 0), FoldMin(sinTheta, cosTheta, b, 8, 1), FoldMin(sinTheta, cosTheta, b, 8, 2)),
         Vec3(FoldMax(sinTheta, cosTheta, b, 8, 0), FoldMax(sinTheta, cosTheta, b, 8, 1), FoldMax(sinTheta, cosTheta, b, 8, 2)))
  }

  /** `min_` and `max_` hold the extent of the first `n` rotated corners. */
  ghost predicate Folded(lo: array<real>, hi: array<real>, sinTheta: real, cosTheta: real, b: Aabb, n: nat)
    requires lo.Length == 3 && hi.Length == 3 && n <= 8
    reads lo, hi
  {
    lo[0] == FoldMin(sinTheta, cosTheta, b, n, 0) && lo[1] == FoldMin(sinTheta, cosTheta, b, n, 1) &&
    lo[2] == FoldMin(sinTheta, cosTheta, b, n, 2) &&
    hi[0] == FoldMax(sinTheta, cosTheta, b, n, 0) && hi[1] == FoldMax(sinTheta, cosTheta, b, n, 1) &&
    hi[2] == FoldMax(sinTheta, cosTheta, b, n, 2)
  }

  /** The loop over the axis `c`: each component of `min_` and `max_` takes in the tester's. */
  method Widen(lo: array<real>, hi: array<real>, tester: Vec3)
    requires lo.Length == 3 && hi.Length == 3 && lo != hi
    modifies lo, hi
    ensures lo[0] == Fmin(old(lo[0]), tester.x) && lo[1] == Fmin(old(lo[1]), tester.y) && lo[2] == Fmin(old(lo[2]), tester.z)
    ensures hi[0] == Fmax(old(hi[0]), tester.x) && hi[1] == Fmax(old(hi[1]), tester.y) && hi[2] == Fmax(old(hi[2]), tester.z)
  {
    for c := 0 to 3
      invariant forall a :: 0 <= a < c ==> lo[a] == Fmin(old(lo[a]), tester.E(a)) && hi[a] == Fmax(old(hi[a]), tester.E(a))
      invariant forall a :: c <= a < 3 ==> lo[a] == old(lo[a]) && hi[a] == old(hi[a])
    {
      lo[c] := Fmin(lo[c], tester.E(c));
      hi[c] := Fmax(hi[c], tester.E(c));
    }
  }

  /** The body of the loop over `k`: the corner `(i, j, k)`, rotated, widens `min_` and `max_`. */
  method TakeCorner(lo: array<real>, hi: array<real>, sinTheta: real, cosTheta: real, bbox: Aabb, i: nat, j: nat, k: nat,
                    ghost n: nat)
    requires lo.Length == 3 && hi.Length == 3 && lo != hi && i < 2 && j < 2 && k < 2 && n == 4 * i + 2 * j + k
    requires Folded(lo, hi, sinTheta, cosTheta, bbox, n)
    modifies lo, hi
    ensures Folded(lo, hi, sinTheta, cosTheta, bbox, n + 1)
  {
    var x := Pick(i, bbox.min.x, bbox.max.x);
    var y := Pick(j, bbox.min.y, bbox.max.y);
    var z := Pick(k, bbox.min.z, bbox.max.z);
    var tester := RotateBack(sinTheta, cosTheta, Vec3(x, y, z));
    TesterAt(sinTheta, cosTheta, bbox, i, j, k);
    FoldStep(sinTheta, cosTheta, bbox, n, 0);
    FoldStep(sinTheta, cosTheta, bbox, n, 1);
    FoldStep(sinTheta, cosTheta, bbox, n, 2);
    Widen(lo, hi, tester);
  }

  /**
   * The loops of `creat` over `i`, `j` and `k`: the extent of the eight
   * corners of `bbox` rotated back by the angle.
   */
  method CornerBox(sinTheta: real, cosTheta: real, bbox: Aabb) returns (box: Aabb)
    ensures box == RotatedBox(sinTheta, cosTheta, bbox)
  {
    var lo := new real[3];
    var hi := new real[3];
    var first := Tester(sinTheta, cosTheta, bbox, 0);
    lo[0], lo[1], lo[2] := first.x, first.y, first.z;
    hi[0], hi[1], hi[2] := first.x, first.y, first.z;
    ghost var n := 0;
    for i := 0 to 2
      invariant n == 4 * i && Folded(lo, hi, sinTheta, cosTheta, bbox, n)
    {
      for j := 0 to 2
        invariant n == 4 * i + 2 * j && Folded(lo, hi, sinTheta, cosTheta, bbox, n)
      {
        for k := 0 to 2
          invariant n == 4 * i + 2 * j + k && Folded(lo, hi, sinTheta, cosTheta, bbox, n)
        {
          TakeCorner(lo, hi, sinTheta, cosTheta, bbox, i, j, k, n);
          n := n + 1;
        }
      }
    }
    box := Aabb(Vec3(lo[0], lo[1], lo[2]), Vec3(hi[0], hi[1], hi[2]));
  }

  /**
   * `RotateY::creat(p, angle)`: the sine and cosine of the angle in
   * radians, the child's box over [0, 1] and whether it has one, and the
   * box of the child's rotated corners.
   */
  method RotateYCreat<M>(m: Libm, p: Object<M>, angle: real) returns (o: Object<M>)
    requires Valid(p)
    ensures var radians := DegreesToRadians(angle);
      var (hasbox, b) := BoxOut(p, 0.0, 1.0, DefaultBox());
      o == RotateY(p, m.sin(radians), m.cos(radians), hasbox, RotatedBox(m.sin(radians), m.cos(radians), b))
  {
    var radians := DegreesToRadians(angle);
    var sinTheta := m.sin(radians);
    var cosTheta := m.cos(radians);
    var (hasbox, bbox) := BoxOut(p, 0.0, 1.0, DefaultBox());
    bbox := CornerBox(sinTheta, cosTheta, bbox);
    o := RotateY(p, sinTheta, cosTheta, hasbox, bbox);
  }

  /** The running minimum lies at or below every corner folded in so far, and is one of them. */
  lemma {:induction false} FoldMinBounds(sinTheta: real, cosTheta: real, b: Aabb, n: nat, a: nat)
    requires 0 < n <= 8 && a < 3
    ensures forall q :: 0 <= q < n ==> FoldMin(sinTheta, cosTheta, b, n, a) <= Tester(sinTheta, cosTheta, b, q).E(a)
    ensures exists q :: 0 <= q < n && FoldMin(sinTheta, cosTheta, b, n, a) == Tester(sinTheta, cosTheta, b, q).E(a)
  {
    var t := Tester(sinTheta, cosTheta, b, n - 1).E(a);
    if n == 1 {
      assert FoldMin(sinTheta, cosTheta, b, n, a) == t;
    } else {
      FoldMinBounds(sinTheta, cosTheta, b, n - 1, a);
      var prev := FoldMin(sinTheta, cosTheta, b, n - 1, a);
      if prev < t {
        var q :| 0 <= q < n - 1 && prev == Tester(sinTheta, cosTheta, b, q).E(a);
        assert 0 <= q < n && FoldMin(sinTheta, cosTheta, b, n, a) == Tester(sinTheta, cosTheta, b, q).E(a);
      } else {
        assert FoldMin(sinTheta, cosTheta, b, n, a) == t;
      }
    }
  }

  /** The running maximum lies at or above every corner folded in so far, and is one of them. */
  lemma {:induction false} FoldMaxBounds(sinTheta: real, cosTheta: real, b: Aabb, n: nat, a: nat)
    requires 0 < n <= 8 && a < 3
    ensures forall q :: 0 <= q < n ==> Tester(sinTheta, cosTheta, b, q).E(a) <= FoldMax(sinTheta, cosTheta, b, n, a)
    ensures exists q :: 0 <= q < n && FoldMax(sinTheta, cosTheta, b, n, a) == Tester(sinTheta, cosTheta, b, q).E(a)
  {
    var t := Tester(sinTheta, cosTheta, b, n - 1).E(a);
    if n == 1 {
      assert FoldMax(sinTheta, cosTheta, b, n, a) == t;
    } else {
      FoldMaxBounds(sinTheta, cosTheta, b, n - 1, a);
      var prev := FoldMax(sinTheta, cosTheta, b, n - 1, a);
      if prev > t {
        var q :| 0 <= q < n - 1 && prev == Tester(sinTheta, cosTheta, b, q).E(a);
        assert 0 <= q < n && FoldMax(sinTheta, cosTheta, b, n, a) == Tester(sinTheta, cosTheta, b, q).E(a);
      } else {
        assert FoldMax(sinTheta, cosTheta, b, n, a) == t;
      }
    }
  }

  /**
   * The stored box holds every rotated corner, and it is the least box
   * that does.
   */
  lemma RotatedBoxTight(sinTheta: real, cosTheta: real, b: Aabb)
    ensures forall q :: 0 <= q < 8 ==> Inside(RotatedBox(sinTheta, cosTheta, b), Tester(sinTheta, cosTheta, b, q))
    ensures forall c: Aabb :: (forall q :: 0 <= q < 8 ==> Inside(c, Tester(sinTheta, cosTheta, b, q))) ==>
      Encloses(c, RotatedBox(sinTheta, cosTheta, b))
  {
    var rb := RotatedBox(sinTheta, cosTheta, b);
    forall a | 0 <= a < 3
      ensures forall q :: 0 <= q < 8 ==> rb.min.E(a) <= Tester(sinTheta, cosTheta, b, q).E(a) <= rb.max.E(a)
      ensures exists q :: 0 <= q < 8 && rb.min.E(a) == Tester(sinTheta, cosTheta, b, q).E(a)
      ensures exists q :: 0 <= q < 8 && rb.max.E(a) == Tester(sinTheta, cosTheta, b, q).E(a)
    {
      FoldMinBounds(sinTheta, cosTheta, b, 8, a);
      FoldMaxBounds(sinTheta, cosTheta, b, 8, a);
    }
    forall c: Aabb | forall q :: 0 <= q < 8 ==> Inside(c, Tester(sinTheta, cosTheta, b, q))
      ensures Encloses(c, rb)
    {
      forall a | 0 <= a < 3
        ensures c.min.E(a) <= rb.min.E(a) && rb.max.E(a) <= c.max.E(a)
      {
        var qMin :| 0 <= qMin < 8 && rb.min.E(a) == Tester(sinTheta, cosTheta, b, qMin).E(a);
        var qMax :| 0 <= qMax < 8 && rb.max.E(a) == Tester(sinTheta, cosTheta, b, qMax).E(a);
        assert Inside(c, Tester(sinTheta, cosTheta, b, qMin));
        assert Inside(c, Tester(sinTheta, cosTheta, b, qMax));
      }
      assert c.min.E(0) <= rb.min.E(0) && c.min.E(1) <= rb.min.E(1) && c.min.E(2) <= rb.min.E(2);
      assert rb.max.E(0) <= c.max.E(0) && rb.max.E(1) <= c.max.E(1) && rb.max.E(2) <= c.max.E(2);
    }
  }

  /** Rotating about the y axis keeps the y extent of a well-formed box. */
  lemma RotatedBoxKeepsY(sinTheta: real, cosTheta: real, b: Aabb)
    requires b.min.y <= b.max.y
    ensures RotatedBox(sinTheta, cosTheta, b).min.y == b.min.y
    ensures RotatedBox(sinTheta, cosTheta, b).max.y == b.max.y
  {
    FoldMinBounds(sinTheta, cosTheta, b, 8, 1);
    FoldMaxBounds(sinTheta, cosTheta, b, 8, 1);
    TesterAt(sinTheta, cosTheta, b, 0, 0, 0);
    TesterAt(sinTheta, cosTheta, b, 0, 1, 0);
    assert Tester(sinTheta, cosTheta, b, 0).y == b.min.y;
    assert Tester(sinTheta, cosTheta, b, 2).y == b.max.y;
    var qMin :| 0 <= qMin < 8 && FoldMin(sinTheta, cosTheta, b, 8, 1) == Tester(sinTheta, cosTheta, b, qMin).E(1);
    var qMax :| 0 <= qMax < 8 && FoldMax(sinTheta, cosTheta, b, 8, 1) == Tester(sinTheta, cosTheta, b, qMax).E(1);
    assert Tester(sinTheta, cosTheta, b, qMin).y == Corner(b, qMin / 4, qMin / 2 % 2, qMin % 2).y;
    assert Tester(sinTheta, cosTheta, b, qMax).y == Corner(b, qMax / 4, qMax / 2 % 2, qMax % 2).y;
  }

  /**
   * `alpha * x + beta * z` over a box in the `(x, z)` plane: at a corner
   * chosen by the signs of `alpha` and `beta` it is no greater than at any
   * point of the box.
   */
  lemma LinearAtCorner(alpha: real, beta: real, x: real, z: real, cx: real, cz: real)
    requires (0.0 < alpha ==> cx <= x) && (alpha < 0.0 ==> x <= cx)
    requires (0.0 < beta ==> cz <= z) && (beta < 0.0 ==> z <= cz)
    ensures alpha * cx + beta * cz <= alpha * x + beta * z
  {
    if 0.0 < alpha {
      MulMonotone(cx, x, alpha);
    } else if alpha < 0.0 {
      MulMonotone(x, cx, -alpha);
    }
    if 0.0 < beta {
      MulMonotone(cz, z, beta);
    } else if beta < 0.0 {
      MulMonotone(z, cz, -beta);
    }
  }

  /** The stored box holds corner `(i, j, k)` rotated back. */
  lemma CornerInRotatedBox(sinTheta: real, cosTheta: real, b: Aabb, i: nat, j: nat, k: nat, a: nat)
    requires i < 2 && j < 2 && k < 2 && a < 3
    ensures FoldMin(sinTheta, cosTheta, b, 8, a) <= RotateBack(sinTheta, cosTheta, Corner(b, i, j, k)).E(a)
    ensures RotateBack(sinTheta, cosTheta, Corner(b, i, j, k)).E(a) <= FoldMax(sinTheta, cosTheta, b, 8, a)
  {
    FoldMinBounds(sinTheta, cosTheta, b, 8, a);
    FoldMaxBounds(sinTheta, cosTheta, b, 8, a);
    TesterAt(sinTheta, cosTheta, b, i, j, k);
    assert 4 * i + 2 * j + k < 8;
  }

  /**
   * The rotated `x` of a point of the box is at least that of the corner
   * with `x` and `z` chosen against the signs of cos and sin.
   */
  lemma RotatedXAbove(sinTheta: real, cosTheta: real, b: Aabb, p: Vec3, i: nat, k: nat)
    requires b.min.x <= p.x <= b.max.x && b.min.z <= p.z <= b.max.z
    requires i == (if 0.0 <= cosTheta then 0 else 1) && k == (if 0.0 <= sinTheta then 0 else 1)
    ensures RotateBack(sinTheta, cosTheta, Corner(b, i, 0, k)).x <= RotateBack(sinTheta, cosTheta, p).x
  {
    var c := Corner(b, i, 0, k);
    LinearAtCorner(cosTheta, sinTheta, p.x, p.z, c.x, c.z);
  }

  /** The rotated `x` of a point of the box is at most that of the opposite corner. */
  lemma RotatedXBelow(sinTheta: real, cosTheta: real, b: Aabb, p: Vec3, i: nat, k: nat)
    requires b.min.x <= p.x <= b.max.x && b.min.z <= p.z <= b.max.z
    requires i == (if 0.0 <= cosTheta then 1 else 0) && k == (if 0.0 <= sinTheta then 1 else 0)
    ensures RotateBack(sinTheta, cosTheta, p).x <= RotateBack(sinTheta, cosTheta, Corner(b, i, 0, k)).x
  {
    var c := Corner(b, i, 0, k);
    LinearAtCorner(-cosTheta, -sinTheta, p.x, p.z, c.x, c.z);
  }

  /** The rotated `z` of a point of the box is at least that of the corner chosen by the signs. */
  lemma RotatedZAbove(sinTheta: real, cosTheta: real, b: Aabb, p: Vec3, i: nat, k: nat)
    requires b.min.x <= p.x <= b.max.x && b.min.z <= p.z <= b.max.z
    requires i == (if 0.0 <= sinTheta then 1 else 0) && k == (if 0.0 <= cosTheta then 0 else 1)
    ensures RotateBack(sinTheta, cosTheta, Corner(b, i, 0, k)).z <= RotateBack(sinTheta, cosTheta, p).z
  {
    var c := Corner(b, i, 0, k);
    LinearAtCorner(cosTheta, -sinTheta, p.z, p.x, c.z, c.x);
  }

  /** The rotated `z` of a point of the box is at most that of the opposite corner. */
  lemma RotatedZBelow(sinTheta: real, cosTheta: real, b: Aabb, p: Vec3, i: nat, k: nat)
    requires b.min.x <= p.x <= b.max.x && b.min.z <= p.z <= b.max.z
    requires i == (if 0.0 <= sinTheta then 0 else 1) && k == (if 0.0 <= cosTheta then 1 else 0)
    ensures RotateBack(sinTheta, cosTheta, p).z <= RotateBack(sinTheta, cosTheta, Corner(b, i, 0, k)).z
  {
    var c := Corner(b, i, 0, k);
    LinearAtCorner(-cosTheta, sinTheta, p.z, p.x, c.z, c.x);
  }

  /** The `y` of a point of the box lies within the stored box's `y` extent. */
  lemma RotatedY(sinTheta: real, cosTheta: real, b: Aabb, p: Vec3)
    requires b.min.y <= p.y <= b.max.y
    ensures FoldMin(sinTheta, cosTheta, b, 8, 1) <= RotateBack(sinTheta, cosTheta, p).y <= FoldMax(sinTheta, cosTheta, b, 8, 1)
  {
    CornerInRotatedBox(sinTheta, cosTheta, b, 0, 0, 0, 1);
    CornerInRotatedBox(sinTheta, cosTheta, b, 0, 1, 0, 1);
  }

  /**
   * What the stored box is for: every point of the child's box, rotated
   * back as `hit` rotates the points it reports, lies in it.
   */
  lemma RotatedBoxBounds(sinTheta: real, cosTheta: real, b: Aabb, p: Vec3)
    requires Inside(b, p)
    ensures Inside(RotatedBox(sinTheta, cosTheta, b), RotateBack(sinTheta, cosTheta, p))
  {
    InsideComponents(b, p);
    var c0, c1 := if 0.0 <= cosTheta then 0 else 1, if 0.0 <= cosTheta then 1 else 0;
    var s0, s1 := if 0.0 <= sinTheta then 0 else 1, if 0.0 <= sinTheta then 1 else 0;
    RotatedXAbove(sinTheta, cosTheta, b, p, c0, s0);
    CornerInRotatedBox(sinTheta, cosTheta, b, c0, 0, s0, 0);
    RotatedXBelow(sinTheta, cosTheta, b, p, c1, s1);
    CornerInRotatedBox(sinTheta, cosTheta, b, c1, 0, s1, 0);
    RotatedY(sinTheta, cosTheta, b, p);
    RotatedZAbove(sinTheta, cosTheta, b, p, s1, c0);
    CornerInRotatedBox(sinTheta, cosTheta, b, s1, 0, c0, 2);
    RotatedZBelow(sinTheta, cosTheta, b, p, s0, c1);
    CornerInRotatedBox(sinTheta, cosTheta, b, s0, 0, c1, 2);
    InsideComponents(RotatedBox(sinTheta, cosTheta, b), RotateBack(sinTheta, cosTheta, p));
  }

  /** A `RotateY` built over a box `b` reports points inside its stored box whenever the object reports points inside `b`. */
  lemma RotatedHitInBox<M>(m: Libm, o: Object<M>, sinTheta: real, cosTheta: real, hasbox: bool, b: Aabb,
                           r: Ray, tMin: real, tMax: real, rec: Rec<M>)
    requires Valid(o)
    requires var (hit, inner) := HitOut(m, o, RotatedRay(sinTheta, cosTheta, r), tMin, tMax, rec);
      hit ==> Inside(b, inner.p)
    ensures var (hit, outer) := HitOut(m, RotateY(o, sinTheta, cosTheta, hasbox, RotatedBox(sinTheta, cosTheta, b)), r, tMin, tMax, rec);
      hit ==> Inside(RotatedBox(sinTheta, cosTheta, b), outer.p)
  {
    var (hit, inner) := HitOut(m, o, RotatedRay(sinTheta, cosTheta, r), tMin, tMax, rec);
    if hit {
      RotatedBoxBounds(sinTheta, cosTheta, b, inner.p);
    }
  }

  // ---- Box::creat -------------------------------------------------------------------

  /**
   * The six sides `creat` adds, in order: the `xy` rectangles at `p1.z`
   * and `p0.z`, the `xz` rectangles at `p1.y` and `p0.y`, and the `yz`
   * rectangles at `p1.x` and `p0.x`, all spanning `p0` to `p1` and sharing
   * the material.
   */
  function BoxSides<M>(p0: Vec3, p1: Vec3, ptr: M): (sides: seq<Object<M>>)
    ensures |sides| == 6
  {
    [AaRect(Rect(XY, p0.x, p1.x, p0.y, p1.y, p1.z), ptr), AaRect(Rect(XY, p0.x, p1.x, p0.y, p1.y, p0.z), ptr),
     AaRect(Rect(XZ, p0.x, p1.x, p0.z, p1.z, p1.y), ptr), AaRect(Rect(XZ, p0.x, p1.x, p0.z, p1.z, p0.y), ptr),
     AaRect(Rect(YZ, p0.y, p1.y, p0.z, p1.z, p1.x), ptr), AaRect(Rect(YZ, p0.y, p1.y, p0.z, p1.z, p0.x), ptr)]
  }

  /** `Box::creat(p0, p1, ptr)`: the corners and the list the six sides were added to. */
  method BoxCreat<M>(p0: Vec3, p1: Vec3, ptr: M) returns (o: Object<M>)
    ensures o == Box(p0, p1, List(BoxSides(p0, p1, ptr)))
  {
    ghost var sides := BoxSides(p0, p1, ptr);
    var ret := new HittableList<M>();
    ret.Add(AaRect(Rect(XY, p0.x, p1.x, p0.y, p1.y, p1.z), ptr));
    assert ret.objects == sides[..1];
    ret.Add(AaRect(Rect(XY, p0.x, p1.x, p0.y, p1.y, p0.z), ptr));
    assert ret.objects == sides[..2];
    ret.Add(AaRect(Rect(XZ, p0.x, p1.x, p0.z, p1.z, p1.y), ptr));
    assert ret.objects == sides[..3];
    ret.Add(AaRect(Rect(XZ, p0.x, p1.x, p0.z, p1.z, p0.y), ptr));
    assert ret.objects == sides[..4];
    ret.Add(AaRect(Rect(YZ, p0.y, p1.y, p0.z, p1.z, p1.x), ptr));
    assert ret.objects == sides[..5];
    ret.Add(AaRect(Rect(YZ, p0.y, p1.y, p0.z, p1.z, p0.x), ptr));
    assert ret.objects == sides;
    o := Box(p0, p1, List(ret.objects));
  }

  /**
   * Each side is a rectangle with the box's material whose sides run from
   * `p0` to `p1` on its two free axes and which sits at `p1` (even
   * positions) or `p0` (odd positions) on its fixed axis; the sides come
   * in pairs on the planes `xy`, `xz` and `yz`.
   */
  lemma BoxSidesFaces<M>(p0: Vec3, p1: Vec3, ptr: M)
    ensures forall n :: 0 <= n < 6 ==>
      var side := BoxSides(p0, p1, ptr)[n];
      side.AaRect? && side.mp == ptr &&
      side.rect.plane == (if n < 2 then XY else if n < 4 then XZ else YZ) &&
      side.rect.a0 == p0.E(FirstAxis(side.rect.plane)) && side.rect.a1 == p1.E(FirstAxis(side.rect.plane)) &&
      side.rect.b0 == p0.E(SecondAxis(side.rect.plane)) && side.rect.b1 == p1.E(SecondAxis(side.rect.plane)) &&
      side.rect.k == (if n % 2 == 0 then p1 else p0).E(FixedAxis(side.rect.plane))
  {
  }

  /** A box whose corners differ on every axis has sides `hit` can divide by. */
  lemma BoxValid<M>(p0: Vec3, p1: Vec3, ptr: M)
    requires p0.x != p1.x && p0.y != p1.y && p0.z != p1.z
    ensures Valid(Box(p0, p1, List(BoxSides(p0, p1, ptr))))
    ensures Leaves(BoxSides(p0, p1, ptr), 6)
  {
    var sides := BoxSides(p0, p1, ptr);
    forall n | 0 <= n < 6
      ensures Valid(sides[n]) && Leaf(sides[n])
    {
      BoxSidesFaces(p0, p1, ptr);
    }
  }

  /**
   * A point on a face of the box from `p0` to `p1` (fixed coordinate at
   * `p0` or `p1`, free coordinates within the face) lies in `Aabb(p0, p1)`.
   */
  lemma FacePointInside(pl: Plane, p0: Vec3, p1: Vec3, atMax: bool, q: Vec3)
    requires p0.x < p1.x && p0.y < p1.y && p0.z < p1.z
    requires q.E(FixedAxis(pl)) == (if atMax then p1 else p0).E(FixedAxis(pl))
    requires p0.E(FirstAxis(pl)) <= q.E(FirstAxis(pl)) <= p1.E(FirstAxis(pl))
    requires p0.E(SecondAxis(pl)) <= q.E(SecondAxis(pl)) <= p1.E(SecondAxis(pl))
    ensures Inside(Aabb(p0, p1), q)
  {
    InsideComponents(Aabb(p0, p1), q);
    match pl
    case XY =>
    case XZ =>
    case YZ =>
  }

  /**
   * Every point a box from `p0` to `p1` (with `p0 < p1` on each axis)
   * reports lies in `Aabb(p0, p1)`, the box its `bounding_box` returns.
   */
  lemma BoxHitInside<M>(m: Libm, p0: Vec3, p1: Vec3, ptr: M, r: Ray, tMin: real, tMax: real, rec: Rec<M>)
    requires SqrtLaw(m) && p0.x < p1.x && p0.y < p1.y && p0.z < p1.z
    ensures var o := Box(p0, p1, List(BoxSides(p0, p1, ptr)));
      Valid(o) && (HitOut(m, o, r, tMin, tMax, rec).0 ==> Inside(Aabb(p0, p1), HitOut(m, o, r, tMin, tMax, rec).1.p))
  {
    var sides := BoxSides(p0, p1, ptr);
    var o := Box(p0, p1, List(sides));
    BoxValid(p0, p1, ptr);
    ListNearest(m, sides, r, tMin, tMax, rec);
    var (hit, out) := HitOut(m, o, r, tMin, tMax, rec);
    if hit {
      assert HitOut(m, o, r, tMin, tMax, rec) == HitOut(m, List(sides), r, tMin, tMax, rec);
      assert LastAt(m, sides, 6, r, tMin, tMax, out.t);
      var k :| 0 <= k < 6 && LeafT(m, sides[k], r, tMin, tMax) == Some(out.t);
      BoxSidesFaces(p0, p1, ptr);
      var rc := sides[k].rect;
      RectCrossingFacts(rc, r, Fin(tMin), Fin(tMax));
      FacePointInside(rc.plane, p0, p1, k % 2 == 0, r.At(out.t));
    }
  }
}
