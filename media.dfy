// The constructors of raytracer/src/hittable/constant_medium.rs: a fog of
// density `d` inside a boundary, scattering with an `Isotropic` phase
// function. Its `hit` is `Shapes.Hit`.

module Media {
  import opened Basic
  import opened Vectors
  import Shapes
  import Textures
  import Materials

  /**
   * `ConstantMedium::creat(b, d, a)`: the boundary as given, an isotropic
   * phase function with albedo `a`, and `neg_inv_density = -1/d`, which is
   * negative for a positive density.
   */
  function Creat(b: Shapes.Shape<Materials.Material>, d: real, a: Textures.Texture): (s: Shapes.Shape<Materials.Material>)
    requires d != 0.0
    ensures s.ConstantMedium? && s.boundary == b && s.phase == Materials.Isotropic(a)
    ensures s.negInvDensity * d == -1.0
    ensures 0.0 < d ==> s.negInvDensity < 0.0
  {
    Shapes.ConstantMedium(b, Materials.Isotropic(a), -1.0 / d)
  }

  /**
   * `ConstantMedium::creat2(b, d, c)`: `creat` with a solid colour `c` as
   * the albedo, which every scatter inside the fog then carries.
   */
  function Creat2(b: Shapes.Shape<Materials.Material>, d: real, c: Vec3): (s: Shapes.Shape<Materials.Material>)
    requires d != 0.0
    ensures s == Creat(b, d, Textures.SolidColor(c))
    ensures s.phase == Materials.IsotropicCreat(c)
    ensures forall m, u, v, p :: Textures.Value(m, s.phase.isoAlbedo, u, v, p) == c
  {
    Shapes.ConstantMedium(b, Materials.Isotropic(Textures.SolidColor(c)), -1.0 / d)
  }
}
