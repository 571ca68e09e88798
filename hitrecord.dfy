// Hit records (raytracer/src/hittable/mod.rs, raytracer/src/hittable.rs and
// Book2/hittable/mod.rs, whose `HitRecord`s and `set_face_normal`s agree).
//
// The material reference is the type parameter `M`: the out-parameter
// records hold an `Option<Arc<dyn Material>>`, which is `M = Option<...>`,
// the Book2 records a `&dyn Material`.

module HitRecords {
  import opened Basic
  import opened Vectors
  import opened Rays

  datatype HitRecord<M> = HitRecord(p: Vec3, normal: Vec3, t: real, u: real, v: real, frontFace: bool, mat: M)

  /** An end of a `[t_min, t_max]` window: a number or one of the `f64` infinities. */
  datatype Bound = NegInf | Fin(value: real) | PosInf

  /** `t < t_min`. */
  predicate Below(t: real, lo: Bound) {
    match lo
    case NegInf => false
    case Fin(v) => t < v
    case PosInf => true
  }

  /** `t_max < t`. */
  predicate Above(t: real, hi: Bound) {
    match hi
    case NegInf => true
    case Fin(v) => v < t
    case PosInf => false
  }

  /** `t` lies in the closed window `[t_min, t_max]`. */
  predicate InWindow(t: real, lo: Bound, hi: Bound) {
    !Below(t, lo) && !Above(t, hi)
  }

  /** A finite window is the closed interval between its ends. */
  lemma FiniteWindow(t: real, lo: real, hi: real)
    ensures InWindow(t, Fin(lo), Fin(hi)) <==> lo <= t <= hi
    ensures InWindow(t, NegInf, PosInf)
  {
  }

  /** `-(a . b) = a . (0 - b)`. */
  lemma DotNegate(a: Vec3, b: Vec3)
    ensures Dot(a, Sub(Zero, b)) == -Dot(a, b)
  {
  }

  /**
   * `set_face_normal(r, outward_normal)` on a record value: `front_face` says
   * whether the ray meets the outward side, and the stored normal always
   * points against the ray. Nothing else changes.
   */
  function WithFaceNormal<M>(rec: HitRecord<M>, r: Ray, outward: Vec3): (out: HitRecord<M>)
    ensures out.frontFace <==> Dot(r.dir, outward) < 0.0
    ensures out.frontFace ==> out.normal == outward
    ensures !out.frontFace ==> out.normal == Sub(Zero, outward)
    ensures Dot(r.dir, out.normal) <= 0.0
    ensures out.p == rec.p && out.t == rec.t && out.u == rec.u && out.v == rec.v && out.mat == rec.mat
  {
    var front := Dot(r.GetDir(), outward) < 0.0;
    DotNegate(r.dir, outward);
    rec.(frontFace := front, normal := if front then outward else Sub(Zero, outward))
  }

  /**
   * Feeding the stored normal back into `set_face_normal` keeps it and sets
   * `front_face`, unless the ray runs along the surface.
   */
  lemma FaceNormalReapplied<M>(rec: HitRecord<M>, r: Ray, outward: Vec3)
    requires Dot(r.dir, outward) != 0.0
    ensures WithFaceNormal(WithFaceNormal(rec, r, outward), r, WithFaceNormal(rec, r, outward).normal)
         == WithFaceNormal(rec, r, outward).(frontFace := true)
  {
    DotNegate(r.dir, outward);
  }

  /** With the ray along the surface, the reapplied normal is flipped and `front_face` is false. */
  lemma FaceNormalReappliedTangent<M>(rec: HitRecord<M>, r: Ray, outward: Vec3)
    requires Dot(r.dir, outward) == 0.0
    ensures WithFaceNormal(WithFaceNormal(rec, r, outward), r, WithFaceNormal(rec, r, outward).normal).frontFace == false
  {
    DotNegate(r.dir, outward);
  }

  /**
   * `HitRecord::creat(u, v, t, outward_normal, r, p, mat_ptr)` (Book2): the
   * given fields are stored as they are, and the normal and `front_face` are
   * those `set_face_normal` gives; the zero normal and `false` it starts with
   * do not survive.
   */
  function Created<M>(u: real, v: real, t: real, outward: Vec3, r: Ray, p: Vec3, mat: M): (rec: HitRecord<M>)
    ensures rec.p == p && rec.t == t && rec.u == u && rec.v == v && rec.mat == mat
    ensures rec.frontFace <==> Dot(r.dir, outward) < 0.0
    ensures rec.normal == outward || rec.normal == Sub(Zero, outward)
    ensures Dot(r.dir, rec.normal) <= 0.0
  {
    WithFaceNormal(HitRecord(p, Zero, t, u, v, false, mat), r, outward)
  }

  /** A hit record whose fields are overwritten in place, as through `&mut HitRecord`. */
  class Record<M> {
    var p: Vec3
    var normal: Vec3
    var t: real
    var u: real
    var v: real
    var frontFace: bool
    var mat: M

    function Value(): HitRecord<M>
      reads this
    {
      HitRecord(p, normal, t, u, v, frontFace, mat)
    }

    constructor (rec: HitRecord<M>)
      ensures Value() == rec
    {
      p, normal, t, u, v, frontFace, mat := rec.p, rec.normal, rec.t, rec.u, rec.v, rec.frontFace, rec.mat;
    }

    /**
     * Book2's `creat`: a record with a zero normal and `front_face == false`,
     * then `set_face_normal`.
     */
    constructor Creat(u: real, v: real, t: real, outward: Vec3, r: Ray, p: Vec3, mat: M)
      ensures Value() == Created(u, v, t, outward, r, p, mat)
    {
      this.p, this.t, this.u, this.v := p, t, u, v;
      this.normal, this.frontFace, this.mat := Zero, false, mat;
      new;
      SetFaceNormal(r, outward);
    }

    /** `set_face_normal`: writes `front_face` and then `normal`. */
    method SetFaceNormal(r: Ray, outward: Vec3)
      modifies this
      ensures Value() == WithFaceNormal(old(Value()), r, outward)
    {
      frontFace := Dot(r.GetDir(), outward) < 0.0;
      normal := if frontFace then outward else Sub(Zero, outward);
    }

    /** `*rec = other.clone()`. */
    method Assign(rec: HitRecord<M>)
      modifies this
      ensures Value() == rec
    {
      p, normal, t, u, v, frontFace, mat := rec.p, rec.normal, rec.t, rec.u, rec.v, rec.frontFace, rec.mat;
    }
  }
}
