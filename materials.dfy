// The materials of raytracer/src/material/mod.rs.
//
// `scatter` writes three `&mut` out-parameters: the albedo, the scattered
// ray and the density. The model takes their contents before the call as
// `Slots` and returns their contents after it; a slot `scatter` does not
// write comes back unchanged. The random inputs are parameters: `r1` and
// `r2` are the two draws of `random_cosine_direction`, `inSphere` the point
// `random_in_unit_sphere` returned and `draw` the `random_double()` a
// dielectric compares against.

module Materials {
  import opened Basic
  import opened Vectors
  import opened Rays
  import opened OrthoBasis
  import opened HitRecords
  import Textures
  import Pdfs

  /** Every material of the file; the textured ones hold a `Texture`. */
  datatype Material =
    | Lambertian(albedo: Textures.Texture)
    | Metal(metalAlbedo: Vec3, fuzz: real)
    | Dielectric(ir: real)
    | DiffuseLight(emit: Textures.Texture)
    | Isotropic(isoAlbedo: Textures.Texture)

  ghost predicate Valid(mat: Material) {
    match mat
    case Lambertian(albedo) => Textures.Valid(albedo)
    case DiffuseLight(emit) => Textures.Valid(emit)
    case Isotropic(albedo) => Textures.Valid(albedo)
    case _ => true
  }

  /** The contents of the `&mut` out-parameters of `scatter`: the albedo, the scattered ray, the density. */
  datatype Slots = Slots(albedo: Vec3, scattered: Ray, pdf: real)

  // ---- Constructors ------------------------------------------------------

  /** `Lambertian::creat(c)`: a solid-colour albedo. */
  function LambertianCreat(c: Vec3): (mat: Material)
    ensures Valid(mat)
  {
    Lambertian(Textures.SolidColor(c))
  }

  /** The fuzz `Metal::creat` stores: `f` capped at 1; a negative `f` is kept as it is. */
  function CappedFuzz(f: real): (ff: real)
    ensures ff == Fmin(f, 1.0) && ff <= 1.0
    ensures f < 1.0 ==> ff == f
  {
    if f < 1.0 then f else 1.0
  }

  /** `Metal::creat(a, f)`. */
  function MetalCreat(a: Vec3, f: real): (mat: Material)
    ensures mat.Metal? && mat.metalAlbedo == a && mat.fuzz == CappedFuzz(f)
  {
    Metal(a, CappedFuzz(f))
  }

  /** `DiffuseLight::creat_color(c)` and `creat_ptr(t)`. */
  function DiffuseLightCreatColor(c: Vec3): (mat: Material)
    ensures Valid(mat)
  {
    DiffuseLight(Textures.SolidColor(c))
  }

  function DiffuseLightCreatPtr(t: Textures.Texture): (mat: Material)
    requires Textures.Valid(t)
    ensures Valid(mat)
  {
    DiffuseLight(t)
  }

  /** `Isotropic::creat(c)`: a solid-colour albedo. */
  function IsotropicCreat(c: Vec3): (mat: Material)
    ensures Valid(mat)
  {
    Isotropic(Textures.SolidColor(c))
  }

  // ---- emitted and scattering_pdf ------------------------------------------

  /**
   * `emitted`: a diffuse light shows its texture on its front face; every
   * other case is black, the back face of a light and, through the trait's
   * default, every other material.
   */
  function Emitted<M>(m: Libm, mat: Material, rIn: Ray, rec: HitRecord<M>, u: real, v: real, p: Vec3): (c: Vec3)
    requires Valid(mat)
    ensures c != Zero ==> mat.DiffuseLight? && rec.frontFace
    ensures mat.DiffuseLight? && rec.frontFace ==> c == Textures.Value(m, mat.emit, u, v, p)
  {
    match mat
    case DiffuseLight(emit) => if rec.frontFace then Textures.Value(m, emit, u, v, p) else Zero
    case _ => Zero
  }

  /**
   * `scattering_pdf`: the Lambertian cosine density `max(0, cos / PI)` of the
   * scattered direction against the normal; 0 for the others, by the trait's
   * default. The density is never negative, and a Lambertian surface gives 0
   * exactly to directions not above it.
   */
  function ScatteringPdf<M>(m: Libm, mat: Material, rIn: Ray, rec: HitRecord<M>, scattered: Ray): (pdf: real)
    requires mat.Lambertian? ==> Length(m, scattered.dir) != 0.0
    ensures 0.0 <= pdf
    ensures !mat.Lambertian? ==> pdf == 0.0
    ensures mat.Lambertian? ==> (pdf == 0.0 <==> Dot(rec.normal, UnitVector(m, scattered.dir)) <= 0.0)
  {
    match mat
    case Lambertian(_) =>
      var cosine := Dot(rec.normal, UnitVector(m, scattered.dir));
      assert 0.0 < cosine ==> 0.0 < cosine / PI;
      assert cosine <= 0.0 ==> cosine / PI <= 0.0;
      Fmax(0.0, cosine / PI)
    case _ => 0.0
  }

  // ---- scatter -------------------------------------------------------------

  /**
   * `Lambertian::scatter`: an orthonormal basis is built around the normal,
   * a cosine-distributed direction is taken in it and normalised, the albedo
   * is the texture at the hit, and the density is the cosine of the new
   * direction against the basis' `w` axis over PI. The scatter always
   * succeeds; the density is positive, and for a unit normal it is the one
   * `scattering_pdf` gives the scattered ray.
   */
  method LambertianScatter<M>(m: Libm, albedo: Textures.Texture, rIn: Ray, rec: HitRecord<M>, slots: Slots,
                              r1: real, r2: real)
    returns (ok: bool, res: Slots)
    requires SqrtLaw(m) && TrigLaw(m) && Textures.Valid(albedo)
    requires rec.normal != Zero && 0.0 <= r1 < 1.0 && 0.0 <= r2 < 1.0
    ensures ok
    ensures res.scattered.st == rec.p && res.scattered.tm == rIn.tm
    ensures LengthSquared(res.scattered.dir) == 1.0
    ensures var g := Pdfs.Generate(m, Pdfs.CosinePdf(FromW(m, rec.normal)), r1, r2);
      Length(m, g) != 0.0 && res.scattered.dir == UnitVector(m, g)
    ensures res.albedo == Textures.Value(m, albedo, rec.u, rec.v, rec.p)
    ensures res.pdf * PI == Dot(FromW(m, rec.normal).w, res.scattered.dir)
    ensures 0.0 < res.pdf
    ensures LengthSquared(rec.normal) == 1.0 ==>
      res.pdf == ScatteringPdf(m, Lambertian(albedo), rIn, rec, res.scattered)
  {
    var uvw := new Onb();
    uvw.BuildFromW(m, rec.normal);
    var dir := uvw.LocalVec(Pdfs.RandomCosineDirection(m, r1, r2));
    Pdfs.GeneratedIsLikely(m, rec.normal, r1, r2);
    var scattered := Ray(rec.p, UnitVector(m, dir), rIn.GetTime());
    var alb := Textures.Value(m, albedo, rec.u, rec.v, rec.p);
    var pdf := Dot(uvw.W(), scattered.GetDir()) / PI;
    LambertianDensity(m, Lambertian(albedo), rIn, rec, dir, scattered, pdf);
    ok, res := true, Slots(alb, scattered, pdf);
  }

  /** The facts about the Lambertian density, for the direction `dir` the basis around the normal gave. */
  lemma LambertianDensity<M>(m: Libm, mat: Material, rIn: Ray, rec: HitRecord<M>, dir: Vec3, scattered: Ray, pdf: real)
    requires SqrtLaw(m) && mat.Lambertian? && rec.normal != Zero && dir != Zero
    requires Length(m, dir) != 0.0 && 0.0 < Dot(UnitVector(m, dir), FromW(m, rec.normal).w)
    requires scattered.dir == UnitVector(m, dir)
    requires pdf == Dot(FromW(m, rec.normal).w, scattered.dir) / PI
    ensures LengthSquared(scattered.dir) == 1.0
    ensures pdf * PI == Dot(FromW(m, rec.normal).w, scattered.dir)
    ensures 0.0 < pdf
    ensures Length(m, scattered.dir) != 0.0
    ensures LengthSquared(rec.normal) == 1.0 ==>
      pdf == ScatteringPdf(m, mat, rIn, rec, scattered)
  {
    var w := FromW(m, rec.normal).w;
    UnitVectorIsUnit(m, dir);
    DotFacts(w, scattered.dir, w, 0.0);
    assert 0.0 < pdf;
    SqrtUnique(m, 1.0, 1.0);
    UnitOfUnit(m, scattered.dir);
    if LengthSquared(rec.normal) == 1.0 {
      UnitOfUnit(m, rec.normal);
      DotFacts(rec.normal, scattered.dir, rec.normal, 0.0);
    }
  }

  /** A unit vector is its own `unit_vector`. */
  lemma UnitOfUnit(m: Libm, v: Vec3)
    requires SqrtLaw(m) && LengthSquared(v) == 1.0
    ensures Length(m, v) == 1.0 && UnitVector(m, v) == v
  {
    SqrtUnique(m, 1.0, 1.0);
  }

  /**
   * The ray `Metal::scatter` writes: the unit incoming direction reflected
   * about the normal, pushed by the fuzz times the point drawn in the unit sphere.
   */
  function MetalScattered<M>(m: Libm, fuzz: real, rIn: Ray, rec: HitRecord<M>, inSphere: Vec3): Ray
    requires Length(m, rIn.dir) != 0.0
  {
    Ray(rec.p, Add(Reflect(UnitVector(m, rIn.dir), rec.normal), Scale(inSphere, fuzz)), rIn.tm)
  }

  /**
   * `Metal::scatter`: writes the albedo and the fuzzed reflection, leaves the
   * density alone, and succeeds exactly when the new direction leaves on the
   * normal's side.
   */
  method MetalScatter<M>(m: Libm, albedo: Vec3, fuzz: real, rIn: Ray, rec: HitRecord<M>, slots: Slots, inSphere: Vec3)
    returns (ok: bool, res: Slots)
    requires SqrtLaw(m) && rIn.dir != Zero
    ensures Length(m, rIn.dir) != 0.0
    ensures res == Slots(albedo, MetalScattered(m, fuzz, rIn, rec, inSphere), slots.pdf)
    ensures ok <==> Dot(res.scattered.dir, rec.normal) > 0.0
  {
    UnitVectorIsUnit(m, rIn.dir);
    var reflected := Reflect(UnitVector(m, rIn.GetDir()), rec.normal);
    var scattered := Ray(rec.p, Add(reflected, Scale(inSphere, fuzz)), rIn.GetTime());
    res := Slots(albedo, scattered, slots.pdf);
    ok := Dot(scattered.GetDir(), rec.normal) > 0.0;
  }

  /**
   * A mirror (fuzz 0) with a unit normal accepts exactly the rays that
   * arrive against the normal: the reflection flips the normal component.
   */
  lemma MirrorAccepts<M>(m: Libm, rIn: Ray, rec: HitRecord<M>, inSphere: Vec3)
    requires SqrtLaw(m) && rIn.dir != Zero && LengthSquared(rec.normal) == 1.0
    ensures Length(m, rIn.dir) != 0.0
    ensures Dot(MetalScattered(m, 0.0, rIn, rec, inSphere).dir, rec.normal) > 0.0 <==> Dot(rIn.dir, rec.normal) < 0.0
  {
    UnitVectorIsUnit(m, rIn.dir);
    var l := Length(m, rIn.dir);
    var u := UnitVector(m, rIn.dir);
    assert Add(Reflect(u, rec.normal), Scale(inSphere, 0.0)) == Reflect(u, rec.normal);
    ReflectFlipsNormalPart(u, rec.normal);
    DotFacts(rIn.dir, rec.normal, rec.normal, 1.0 / l);
    assert Dot(u, rec.normal) == Mul(1.0 / l, Dot(rIn.dir, rec.normal));
    MulSign(1.0 / l, Dot(rIn.dir, rec.normal));
  }

  /** `x.powi(n)`: `x` multiplied by itself `n` times. */
  function Powi(x: real, n: nat): real {
    if n == 0 then 1.0 else x * Powi(x, n - 1)
  }

  /** Powers of a number in [0, 1] stay in [0, 1]. */
  lemma {:induction false} PowiUnit(x: real, n: nat)
    requires 0.0 <= x <= 1.0
    ensures 0.0 <= Powi(x, n) <= 1.0
  {
    if n > 0 {
      PowiUnit(x, n - 1);
      MulNonNegative(x, Powi(x, n - 1));
      MulMonotone(x, 1.0, Powi(x, n - 1));
    }
  }

  /** Schlick's `r0`: the reflectance at normal incidence, 0 between equal indices. */
  function R0(refIdx: real): (r0: real)
    requires refIdx != -1.0
    ensures refIdx == 1.0 ==> r0 == 0.0
  {
    Powi((1.0 - refIdx) / (1.0 + refIdx), 2)
  }

  /**
   * `Dielectric::reflectance(cosine, ref_idx)`: Schlick's approximation,
   * `r0` at `cosine = 1` and 1 at `cosine = 0`.
   */
  function Reflectance(cosine: real, refIdx: real): (r: real)
    requires refIdx != -1.0
    ensures cosine == 1.0 ==> r == R0(refIdx)
    ensures cosine == 0.0 ==> r == 1.0
  {
    var r0 := Powi((1.0 - refIdx) / (1.0 + refIdx), 2);
    r0 + (1.0 - r0) * Powi(1.0 - cosine, 5)
  }

  lemma PowiTwo(x: real)
    ensures Powi(x, 2) == Mul(x, x)
  {
    assert Powi(x, 1) == x * Powi(x, 0) == x;
  }

  /** For a non-negative index, `r0` lies in [0, 1]. */
  lemma R0Unit(refIdx: real)
    requires 0.0 <= refIdx
    ensures 0.0 <= R0(refIdx) <= 1.0
  {
    var d := 1.0 + refIdx;
    var q := (1.0 - refIdx) / d;
    assert Mul(d, q) == 1.0 - refIdx;
    assert Mul(d, 1.0 - q) == 2.0 * refIdx by {
      assert Mul(d, 1.0 - q) == d - Mul(d, q);
    }
    assert Mul(d, 1.0 + q) == 2.0 by {
      assert Mul(d, 1.0 + q) == d + Mul(d, q);
    }
    MulSign(d, 1.0 - q);
    MulSign(d, 1.0 + q);
    PowiTwo(q);
    SquareNonNegative(q);
    MulNonNegative(1.0 - q, 1.0 + q);
    assert Mul(1.0 - q, 1.0 + q) == 1.0 - Mul(q, q);
  }

  /**
   * For a non-negative index and a cosine in [0, 1] the reflectance lies
   * between `r0` and 1, and `r0` itself lies in [0, 1].
   */
  lemma ReflectanceBetween(cosine: real, refIdx: real)
    requires 0.0 <= cosine <= 1.0 && 0.0 <= refIdx
    ensures 0.0 <= R0(refIdx) <= 1.0
    ensures R0(refIdx) <= Reflectance(cosine, refIdx) <= 1.0
  {
    R0Unit(refIdx);
    var r0 := R0(refIdx);
    var p := Powi(1.0 - cosine, 5);
    PowiUnit(1.0 - cosine, 5);
    MulNonNegative(1.0 - r0, p);
    MulMonotone(p, 1.0, 1.0 - r0);
    assert Reflectance(cosine, refIdx) == r0 + Mul(1.0 - r0, p);
  }

  /** The ratio of indices a dielectric refracts with: `1/ir` entering through the front face, `ir` leaving. */
  function RefractionRatio(ir: real, frontFace: bool): real
    requires frontFace ==> ir != 0.0
  {
    if frontFace then 1.0 / ir else ir
  }

  /** The cosine of the angle between the reversed unit direction and the normal, capped at 1. */
  function CosTheta<M>(m: Libm, rIn: Ray, rec: HitRecord<M>): real
    requires Length(m, rIn.dir) != 0.0
  {
    Fmin(Dot(Sub(Zero, UnitVector(m, rIn.dir)), rec.normal), 1.0)
  }

  /** `(1 - cos_theta^2).sqrt()`. */
  function SinTheta(m: Libm, cosTheta: real): real {
    m.sqrt(1.0 - Powi(cosTheta, 2))
  }

  /** `cannot_refract`: Snell's law has no solution, `ratio * sin_theta > 1`. */
  predicate CannotRefract(ratio: real, sinTheta: real) {
    ratio * sinTheta > 1.0
  }

  /** A dielectric that can be called: the ratio is defined and `reflectance` does not divide by zero. */
  predicate DielectricDefined(ir: real, frontFace: bool) {
    (frontFace ==> ir != 0.0) && RefractionRatio(ir, frontFace) != -1.0
  }

  /**
   * The direction `Dielectric::scatter` takes: the reflection when the ray
   * cannot refract (`ratio * sin_theta > 1`) or when the reflectance beats
   * the draw, the refraction otherwise: always one of the two.
   */
  function DielectricDirection<M>(m: Libm, ir: real, rIn: Ray, rec: HitRecord<M>, draw: real): (d: Vec3)
    requires Length(m, rIn.dir) != 0.0 && DielectricDefined(ir, rec.frontFace)
    ensures d == Reflect(UnitVector(m, rIn.dir), rec.normal) ||
            d == Refract(m, UnitVector(m, rIn.dir), rec.normal, RefractionRatio(ir, rec.frontFace))
  {
    var ratio := RefractionRatio(ir, rec.frontFace);
    var unitDirection := UnitVector(m, rIn.dir);
    var cosTheta := CosTheta(m, rIn, rec);
    var sinTheta := SinTheta(m, cosTheta);
    if CannotRefract(ratio, sinTheta) || Reflectance(cosTheta, ratio) > draw then Reflect(unitDirection, rec.normal)
    else Refract(m, unitDirection, rec.normal, ratio)
  }

  /**
   * `Dielectric::scatter`: the attenuation is white, the scattered ray leaves
   * the hit point at the incoming ray's time along `DielectricDirection`, the
   * density is left alone, and the scatter always succeeds.
   */
  method DielectricScatter<M>(m: Libm, ir: real, rIn: Ray, rec: HitRecord<M>, slots: Slots, draw: real)
    returns (ok: bool, res: Slots)
    requires SqrtLaw(m) && rIn.dir != Zero && DielectricDefined(ir, rec.frontFace)
    ensures Length(m, rIn.dir) != 0.0
    ensures ok && res.albedo == Vec3(1.0, 1.0, 1.0) && res.pdf == slots.pdf
    ensures res.scattered == Ray(rec.p, DielectricDirection(m, ir, rIn, rec, draw), rIn.tm)
  {
    UnitVectorIsUnit(m, rIn.dir);
    var attenuation := Vec3(1.0, 1.0, 1.0);
    var refractionRatio := if rec.frontFace then 1.0 / ir else ir;
    var unitDirection := UnitVector(m, rIn.GetDir());
    var cosTheta := CosTheta(m, rIn, rec);
    var sinTheta := SinTheta(m, cosTheta);
    var cannotRefract := CannotRefract(refractionRatio, sinTheta);
    var direction := if cannotRefract || Reflectance(cosTheta, refractionRatio) > draw
      then Reflect(unitDirection, rec.normal)
      else Refract(m, unitDirection, rec.normal, refractionRatio);
    var scattered := Ray(rec.p, direction, rIn.GetTime());
    ok, res := true, Slots(attenuation, scattered, slots.pdf);
  }

  /** When the ray cannot refract, the dielectric reflects it whatever the draw. */
  lemma TotalInternalReflection<M>(m: Libm, ir: real, rIn: Ray, rec: HitRecord<M>, draw: real)
    requires Length(m, rIn.dir) != 0.0 && DielectricDefined(ir, rec.frontFace)
    requires CannotRefract(RefractionRatio(ir, rec.frontFace), SinTheta(m, CosTheta(m, rIn, rec)))
    ensures DielectricDirection(m, ir, rIn, rec, draw) == Reflect(UnitVector(m, rIn.dir), rec.normal)
  {
    var ratio := RefractionRatio(ir, rec.frontFace);
    var cosTheta := CosTheta(m, rIn, rec);
  }

  /**
   * Entering a denser medium (front face, `ir >= 1`) with a unit normal, the
   * ray can always refract: the sine is at most 1 and the ratio is at most 1.
   * It is then reflected exactly when the reflectance beats the draw.
   */
  lemma DenserMediumRefracts<M>(m: Libm, ir: real, rIn: Ray, rec: HitRecord<M>, draw: real)
    requires SqrtLaw(m) && rIn.dir != Zero && LengthSquared(rec.normal) == 1.0
    requires rec.frontFace && 1.0 <= ir
    ensures Length(m, rIn.dir) != 0.0 && DielectricDefined(ir, rec.frontFace)
    ensures !CannotRefract(RefractionRatio(ir, rec.frontFace), SinTheta(m, CosTheta(m, rIn, rec)))
    ensures DielectricDirection(m, ir, rIn, rec, draw) ==
      if Reflectance(CosTheta(m, rIn, rec), 1.0 / ir) > draw then Reflect(UnitVector(m, rIn.dir), rec.normal)
      else Refract(m, UnitVector(m, rIn.dir), rec.normal, 1.0 / ir)
  {
    UnitVectorIsUnit(m, rIn.dir);
    CosThetaRange(m, rIn, rec);
    var s := SinTheta(m, CosTheta(m, rIn, rec));
    SineAtMostOne(m, CosTheta(m, rIn, rec));
    var ratio := 1.0 / ir;
    assert 0.0 < ratio <= 1.0;
    MulMonotone(ratio, 1.0, s);
    MulMonotone(s, 1.0, 1.0);
    assert !CannotRefract(ratio, s);
  }

  /** With a unit normal the cosine `CosTheta` lies in [-1, 1]. */
  lemma CosThetaRange<M>(m: Libm, rIn: Ray, rec: HitRecord<M>)
    requires SqrtLaw(m) && rIn.dir != Zero && LengthSquared(rec.normal) == 1.0
    ensures Length(m, rIn.dir) != 0.0
    ensures -1.0 <= CosTheta(m, rIn, rec) <= 1.0
  {
    UnitVectorIsUnit(m, rIn.dir);
    var u := UnitVector(m, rIn.dir);
    DotOfUnits(u, rec.normal);
    DotNegate(rec.normal, u);
    DotFacts(Sub(Zero, u), rec.normal, rec.normal, 1.0);
    DotFacts(u, rec.normal, rec.normal, 1.0);
  }

  /** For a cosine in [-1, 1] the sine `sqrt(1 - cos^2)` lies in [0, 1]. */
  lemma SineAtMostOne(m: Libm, c: real)
    requires SqrtLaw(m) && -1.0 <= c <= 1.0
    ensures 0.0 <= SinTheta(m, c) <= 1.0
  {
    var x := 1.0 - Powi(c, 2);
    assert Powi(c, 2) == Mul(c, c) by {
      assert Powi(c, 1) == c * Powi(c, 0) == c;
    }
    SquareNonNegative(c);
    if c < 0.0 {
      MulMonotone(-c, 1.0, -c);
      MulNegate(c, c);
      MulMonotone(1.0, 1.0, -c);
    } else {
      MulMonotone(c, 1.0, c);
    }
    assert 0.0 <= x <= 1.0;
    var s := m.sqrt(x);
    assert 0.0 <= s && s * s == x;
    if 1.0 < s {
      MulStrict(1.0, s, s);
      MulStrict(1.0, s, 1.0);
    }
  }

  /** `DiffuseLight::scatter` never scatters and writes nothing. */
  method DiffuseLightScatter<M>(rIn: Ray, rec: HitRecord<M>, slots: Slots) returns (ok: bool, res: Slots)
    ensures !ok && res == slots
  {
    ok, res := false, slots;
  }

  /**
   * `Isotropic::scatter`: the ray leaves the hit point toward the point drawn
   * in the unit sphere, at the incoming ray's time; the albedo is the texture
   * at the hit and the density is left alone. It always succeeds.
   */
  method IsotropicScatter<M>(m: Libm, albedo: Textures.Texture, rIn: Ray, rec: HitRecord<M>, slots: Slots, inSphere: Vec3)
    returns (ok: bool, res: Slots)
    requires Textures.Valid(albedo)
    ensures ok
    ensures res == Slots(Textures.Value(m, albedo, rec.u, rec.v, rec.p), Ray(rec.p, inSphere, rIn.tm), slots.pdf)
  {
    var scattered := Ray(rec.p, inSphere, rIn.GetTime());
    var attenuation := Textures.Value(m, albedo, rec.u, rec.v, rec.p);
    ok, res := true, Slots(attenuation, scattered, slots.pdf);
  }

  /** The random inputs one `scatter` call may read. */
  datatype Draws = Draws(r1: real, r2: real, inSphere: Vec3, draw: real)

  /** What each material's `scatter` needs of its inputs. */
  ghost predicate CanScatter<M>(m: Libm, mat: Material, rIn: Ray, rec: HitRecord<M>, draws: Draws) {
    SqrtLaw(m) && TrigLaw(m) && Valid(mat) &&
    match mat
    case Lambertian(_) => rec.normal != Zero && 0.0 <= draws.r1 < 1.0 && 0.0 <= draws.r2 < 1.0
    case Metal(_, _) => rIn.dir != Zero
    case Dielectric(ir) => rIn.dir != Zero && DielectricDefined(ir, rec.frontFace)
    case _ => true
  }

  /**
   * `scatter` through the `Material` trait. Whenever a ray is written it
   * starts at the hit point and keeps the incoming ray's time; only a
   * Lambertian surface writes the density; a light writes nothing and fails;
   * a metal succeeds exactly when the ray leaves on the normal's side; the
   * others always succeed. Each material's result is the one its own
   * `scatter` gives.
   */
  method Scatter<M>(m: Libm, mat: Material, rIn: Ray, rec: HitRecord<M>, slots: Slots, draws: Draws)
    returns (ok: bool, res: Slots)
    requires CanScatter(m, mat, rIn, rec, draws)
    ensures !mat.DiffuseLight? ==> res.scattered.st == rec.p && res.scattered.tm == rIn.tm
    ensures mat.DiffuseLight? ==> !ok && res == slots
    ensures mat.Metal? ==> (ok <==> Dot(res.scattered.dir, rec.normal) > 0.0)
    ensures mat.Lambertian? || mat.Dielectric? || mat.Isotropic? ==> ok
    ensures !mat.Lambertian? ==> res.pdf == slots.pdf
    ensures mat.Lambertian? ==>
      var g := Pdfs.Generate(m, Pdfs.CosinePdf(FromW(m, rec.normal)), draws.r1, draws.r2);
      res.albedo == Textures.Value(m, mat.albedo, rec.u, rec.v, rec.p) &&
      Length(m, g) != 0.0 && res.scattered.dir == UnitVector(m, g) &&
      res.pdf * PI == Dot(FromW(m, rec.normal).w, res.scattered.dir) && 0.0 < res.pdf
    ensures mat.Metal? ==> Length(m, rIn.dir) != 0.0 && res == Slots(mat.metalAlbedo, MetalScattered(m, mat.fuzz, rIn, rec, draws.inSphere), slots.pdf)
    ensures mat.Dielectric? ==>
      Length(m, rIn.dir) != 0.0 &&
      res == Slots(Vec3(1.0, 1.0, 1.0), Ray(rec.p, DielectricDirection(m, mat.ir, rIn, rec, draws.draw), rIn.tm), slots.pdf)
    ensures mat.Isotropic? ==>
      res == Slots(Textures.Value(m, mat.isoAlbedo, rec.u, rec.v, rec.p), Ray(rec.p, draws.inSphere, rIn.tm), slots.pdf)
  {
    match mat {
      case Lambertian(albedo) =>
        ok, res := LambertianScatter(m, albedo, rIn, rec, slots, draws.r1, draws.r2);
      case Metal(albedo, fuzz) =>
        ok, res := MetalScatter(m, albedo, fuzz, rIn, rec, slots, draws.inSphere);
      case Dielectric(ir) =>
        ok, res := DielectricScatter(m, ir, rIn, rec, slots, draws.draw);
      case DiffuseLight(_) =>
        ok, res := DiffuseLightScatter(rIn, rec, slots);
      case Isotropic(albedo) =>
        ok, res := IsotropicScatter(m, albedo, rIn, rec, slots, draws.inSphere);
    }
  }
}
