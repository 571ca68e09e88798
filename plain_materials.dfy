// The materials of raytracer/src/material.rs: the earlier material module,
// whose albedo is a plain colour and whose `scatter` writes only the
// attenuation and the scattered ray (no density, no lights).
//
// The Metal and Dielectric bodies are the same as in the texture-based
// module, so their rays are the functions `Materials` defines; `reflectance`
// is `Materials.Reflectance`. The random unit vector of the Lambertian is
// the unit vector of a point drawn in the unit sphere, passed in.

module PlainMaterials {
  import opened Basic
  import opened Vectors
  import opened Rays
  import opened HitRecords
  import Materials

  datatype Material =
    | Lambertian(albedo: Vec3)
    | Metal(metalAlbedo: Vec3, fuzz: real)
    | Dielectric(ir: real)

  /** `Metal::creat(a, f)`: the fuzz is `f` capped at 1; a negative `f` is kept. */
  function MetalCreat(a: Vec3, f: real): (mat: Material)
    ensures mat.Metal? && mat.metalAlbedo == a
    ensures mat.fuzz == Fmin(f, 1.0) && mat.fuzz <= 1.0
    ensures f < 1.0 ==> mat.fuzz == f
  {
    Metal(a, Materials.CappedFuzz(f))
  }

  /**
   * The direction `Lambertian::scatter` takes: the normal plus a random unit
   * vector, or the normal itself when that sum is near zero.
   */
  function LambertianDirection(m: Libm, normal: Vec3, inSphere: Vec3): Vec3
    requires SqrtLaw(m) && inSphere != Zero
  {
    var d := Add(normal, RandomUnitVector(m, inSphere));
    if NearZero(d) then normal else d
  }

  /**
   * `Lambertian::scatter`: always succeeds; the attenuation is the albedo and
   * the ray leaves the hit point along `LambertianDirection` at the incoming
   * ray's time.
   */
  method LambertianScatter<M>(m: Libm, albedo: Vec3, rIn: Ray, rec: HitRecord<M>, inSphere: Vec3)
    returns (ok: bool, attenuation: Vec3, scattered: Ray)
    requires SqrtLaw(m) && inSphere != Zero
    ensures ok && attenuation == albedo
    ensures scattered == Ray(rec.p, LambertianDirection(m, rec.normal, inSphere), rIn.tm)
  {
    var scatterDirection := Add(rec.normal, RandomUnitVector(m, inSphere));
    if NearZero(scatterDirection) {
      scatterDirection := rec.normal;
    }
    scattered := Ray(rec.p, scatterDirection, rIn.GetTime());
    attenuation := albedo;
    ok := true;
  }

  /**
   * With a unit normal the fallback does its job: the direction is never
   * near zero, and it never points into the surface.
   */
  lemma LambertianLeavesSurface(m: Libm, normal: Vec3, inSphere: Vec3)
    requires SqrtLaw(m) && inSphere != Zero && LengthSquared(normal) == 1.0
    ensures !NearZero(LambertianDirection(m, normal, inSphere))
    ensures 0.0 <= Dot(LambertianDirection(m, normal, inSphere), normal)
  {
    var u := RandomUnitVector(m, inSphere);
    var d := Add(normal, u);
    if NearZero(normal) {
      NearZeroIsShort(normal);
    }
    DotFacts(normal, u, normal, 1.0);
    DotFacts(u, normal, normal, 1.0);
    DotOfUnits(u, normal);
    assert Dot(d, normal) == 1.0 + Dot(u, normal);
  }

  /**
   * `Metal::scatter`: the attenuation is the albedo, the ray is the fuzzed
   * reflection, and the scatter succeeds exactly when the ray leaves on the
   * normal's side.
   */
  method MetalScatter<M>(m: Libm, albedo: Vec3, fuzz: real, rIn: Ray, rec: HitRecord<M>, inSphere: Vec3)
    returns (ok: bool, attenuation: Vec3, scattered: Ray)
    requires SqrtLaw(m) && rIn.dir != Zero
    ensures Length(m, rIn.dir) != 0.0
    ensures attenuation == albedo && scattered == Materials.MetalScattered(m, fuzz, rIn, rec, inSphere)
    ensures ok <==> Dot(scattered.dir, rec.normal) > 0.0
  {
    UnitVectorIsUnit(m, rIn.dir);
    var reflected := Reflect(UnitVector(m, rIn.GetDir()), rec.normal);
    scattered := Ray(rec.p, Add(reflected, Scale(inSphere, fuzz)), rIn.GetTime());
    attenuation := albedo;
    ok := Dot(scattered.GetDir(), rec.normal) > 0.0;
  }

  /**
   * `Dielectric::scatter`: always succeeds with a white attenuation; the ray
   * leaves the hit point along `Materials.DielectricDirection`.
   */
  method DielectricScatter<M>(m: Libm, ir: real, rIn: Ray, rec: HitRecord<M>, draw: real)
    returns (ok: bool, attenuation: Vec3, scattered: Ray)
    requires SqrtLaw(m) && rIn.dir != Zero && Materials.DielectricDefined(ir, rec.frontFace)
    ensures Length(m, rIn.dir) != 0.0
    ensures ok && attenuation == Vec3(1.0, 1.0, 1.0)
    ensures scattered == Ray(rec.p, Materials.DielectricDirection(m, ir, rIn, rec, draw), rIn.tm)
  {
    UnitVectorIsUnit(m, rIn.dir);
    attenuation := Vec3(1.0, 1.0, 1.0);
    var refractionRatio := if rec.frontFace then 1.0 / ir else ir;
    var unitDirection := UnitVector(m, rIn.GetDir());
    var cosTheta := Materials.CosTheta(m, rIn, rec);
    var sinTheta := Materials.SinTheta(m, cosTheta);
    var cannotRefract := Materials.CannotRefract(refractionRatio, sinTheta);
    var direction := if cannotRefract || Materials.Reflectance(cosTheta, refractionRatio) > draw
      then Reflect(unitDirection, rec.normal)
      else Refract(m, unitDirection, rec.normal, refractionRatio);
    scattered := Ray(rec.p, direction, rIn.GetTime());
    ok := true;
  }

  /** What each material's `scatter` needs of its inputs. */
  predicate CanScatter<M>(mat: Material, rIn: Ray, rec: HitRecord<M>, draws: Materials.Draws) {
    match mat
    case Lambertian(_) => draws.inSphere != Zero
    case Metal(_, _) => rIn.dir != Zero
    case Dielectric(ir) => rIn.dir != Zero && Materials.DielectricDefined(ir, rec.frontFace)
  }

  /**
   * `scatter` through the `Material` trait: every scattered ray starts at the
   * hit point and keeps the incoming ray's time; Lambertian and Dielectric
   * always succeed, Metal exactly when the ray leaves on the normal's side.
   * Each material's ray is the one its own `scatter` gives.
   */
  method Scatter<M>(m: Libm, mat: Material, rIn: Ray, rec: HitRecord<M>, draws: Materials.Draws)
    returns (ok: bool, attenuation: Vec3, scattered: Ray)
    requires SqrtLaw(m) && CanScatter(mat, rIn, rec, draws)
    ensures scattered.st == rec.p && scattered.tm == rIn.tm
    ensures mat.Lambertian? ==> ok && attenuation == mat.albedo
    ensures mat.Metal? ==> attenuation == mat.metalAlbedo && (ok <==> Dot(scattered.dir, rec.normal) > 0.0)
    ensures mat.Dielectric? ==> ok && attenuation == Vec3(1.0, 1.0, 1.0)
    ensures mat.Lambertian? ==> scattered.dir == LambertianDirection(m, rec.normal, draws.inSphere)
    ensures mat.Metal? ==> Length(m, rIn.dir) != 0.0 && scattered == Materials.MetalScattered(m, mat.fuzz, rIn, rec, draws.inSphere)
    ensures mat.Dielectric? ==> Length(m, rIn.dir) != 0.0 && scattered.dir == Materials.DielectricDirection(m, mat.ir, rIn, rec, draws.draw)
  {
    match mat {
      case Lambertian(albedo) =>
        ok, attenuation, scattered := LambertianScatter(m, albedo, rIn, rec, draws.inSphere);
      case Metal(albedo, fuzz) =>
        ok, attenuation, scattered := MetalScatter(m, albedo, fuzz, rIn, rec, draws.inSphere);
      case Dielectric(ir) =>
        ok, attenuation, scattered := DielectricScatter(m, ir, rIn, rec, draws.draw);
    }
  }
}
