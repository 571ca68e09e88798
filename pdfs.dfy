// The cosine-weighted direction density of raytracer/src/pdf/mod.rs.
//
// `random_double()` is read as a parameter: `r1` and `r2` are the two draws
// `random_cosine_direction` takes, in [0, 1). The density keeps its
// orthonormal basis as the value `Basis` of the axes its `Onb` holds.

module Pdfs {
  import opened Basic
  import opened Vectors
  import opened OrthoBasis

  /**
   * `random_cosine_direction()`: the azimuth is `2 PI r1`, the height
   * `sqrt(1 - r2)`, and the horizontal radius `sqrt(r2)`. For a second draw
   * in [0, 1) it is a unit vector strictly above the horizontal plane.
   */
  function RandomCosineDirection(m: Libm, r1: real, r2: real): (d: Vec3)
    ensures SqrtLaw(m) && TrigLaw(m) && 0.0 <= r2 < 1.0 ==> 0.0 < d.z && LengthSquared(d) == 1.0
  {
    var z := m.sqrt(1.0 - r2);
    var phi := 2.0 * PI * r1;
    var x := m.cos(phi) * m.sqrt(r2);
    var y := m.sin(phi) * m.sqrt(r2);
    CosineParts(m, phi, r2);
    Vec3(x, y, z)
  }

  /** The components of a cosine direction have squares summing to 1, and a positive height. */
  lemma CosineParts(m: Libm, phi: real, r2: real)
    ensures SqrtLaw(m) && TrigLaw(m) && 0.0 <= r2 < 1.0 ==>
      var c, s, q, z := m.cos(phi), m.sin(phi), m.sqrt(r2), m.sqrt(1.0 - r2);
      0.0 < z && (c * q) * (c * q) + (s * q) * (s * q) + z * z == 1.0
  {
    if SqrtLaw(m) && TrigLaw(m) && 0.0 <= r2 < 1.0 {
      var c, s, q, z := m.cos(phi), m.sin(phi), m.sqrt(r2), m.sqrt(1.0 - r2);
      assert q * q == r2 && z * z == 1.0 - r2 && 0.0 <= z;
      assert c * c + s * s == 1.0;
      assert (c * q) * (c * q) + (s * q) * (s * q) == (c * c + s * s) * (q * q);
      assert z != 0.0;
    }
  }

  /** A `CosinePdf`: the orthonormal basis whose `w` axis the density favours. */
  datatype CosinePdf = CosinePdf(uvw: Basis)

  /** `CosinePdf::creat(w)`: a default `Onb` built from `w` with `build_from_w`. */
  method Creat(m: Libm, w: Vec3) returns (pdf: CosinePdf)
    requires SqrtLaw(m) && w != Zero
    ensures pdf.uvw == FromW(m, w)
  {
    var ret := new Onb();
    ret.BuildFromW(m, w);
    pdf := CosinePdf(ret.Axes());
  }

  /**
   * `value(dir)`: the cosine between `dir` and the `w` axis over PI. It is
   * never negative, and 0 exactly where the direction is not above the horizon.
   */
  function Value(m: Libm, pdf: CosinePdf, dir: Vec3): (density: real)
    requires Length(m, dir) != 0.0
    ensures 0.0 <= density
    ensures density == 0.0 <==> Dot(UnitVector(m, dir), pdf.uvw.w) <= 0.0
  {
    var cosine := Dot(UnitVector(m, dir), pdf.uvw.w);
    if cosine <= 0.0 then 0.0 else cosine / PI
  }

  /**
   * With a unit `w` axis the density is at most 1/PI, and `cosine / PI`
   * above the horizon.
   */
  lemma ValueRange(m: Libm, pdf: CosinePdf, dir: Vec3)
    requires SqrtLaw(m) && dir != Zero && LengthSquared(pdf.uvw.w) == 1.0
    ensures Length(m, dir) != 0.0
    ensures Value(m, pdf, dir) <= 1.0 / PI
    ensures Dot(UnitVector(m, dir), pdf.uvw.w) > 0.0 ==> Value(m, pdf, dir) * PI == Dot(UnitVector(m, dir), pdf.uvw.w)
  {
    UnitVectorIsUnit(m, dir);
    var cosine := Dot(UnitVector(m, dir), pdf.uvw.w);
    DotOfUnits(UnitVector(m, dir), pdf.uvw.w);
    if 0.0 < cosine {
      assert cosine / PI <= 1.0 / PI;
    }
  }

  /** `value` normalises its argument first, so stretching the direction changes nothing. */
  lemma ValueScaleInvariant(m: Libm, pdf: CosinePdf, dir: Vec3, k: real)
    requires SqrtLaw(m) && dir != Zero && 0.0 < k
    ensures Length(m, dir) != 0.0 && Length(m, Scale(dir, k)) != 0.0
    ensures Value(m, pdf, Scale(dir, k)) == Value(m, pdf, dir)
  {
    UnitVectorScaled(m, dir, k);
  }

  /** `unit_vector(v * k) == unit_vector(v)` for `k > 0`. */
  lemma UnitVectorScaled(m: Libm, v: Vec3, k: real)
    requires SqrtLaw(m) && v != Zero && 0.0 < k
    ensures Length(m, v) != 0.0 && Length(m, Scale(v, k)) != 0.0
    ensures UnitVector(m, Scale(v, k)) == UnitVector(m, v)
  {
    UnitVectorIsUnit(m, v);
    var s := Length(m, v);
    assert 0.0 < s && s * s == LengthSquared(v);
    ScaleLengthSquared(v, k);
    MulPositive(k, s);
    SqrtUnique(m, LengthSquared(Scale(v, k)), k * s);
    DivScaled(v, k, s);
  }

  lemma DivScaled(v: Vec3, k: real, s: real)
    requires 0.0 < k && 0.0 < s
    ensures k * s != 0.0 && Div(Scale(v, k), k * s) == Div(v, s)
  {
    MulPositive(k, s);
    assert k * (1.0 / (k * s)) == 1.0 / s;
    ScaleTwiceBy(v, k, 1.0 / (k * s), 1.0 / s);
  }

  lemma ScaleTwiceBy(v: Vec3, k: real, a: real, b: real)
    requires k * a == b
    ensures Scale(Scale(v, k), a) == Scale(v, b)
  {
    assert v.x * k * a == v.x * (k * a);
    assert v.y * k * a == v.y * (k * a);
    assert v.z * k * a == v.z * (k * a);
  }

  /** `generate()`: a cosine-distributed direction expressed in the density's basis. */
  function Generate(m: Libm, pdf: CosinePdf, r1: real, r2: real): Vec3 {
    LocalOf(pdf.uvw, RandomCosineDirection(m, r1, r2))
  }

  /**
   * A direction the density built from `w` generates lies strictly on the
   * `w` side, where the same density is positive.
   */
  lemma GeneratedIsLikely(m: Libm, w: Vec3, r1: real, r2: real)
    requires SqrtLaw(m) && TrigLaw(m) && w != Zero
    requires 0.0 <= r1 < 1.0 && 0.0 <= r2 < 1.0
    ensures var pdf := CosinePdf(FromW(m, w)); var g := Generate(m, pdf, r1, r2);
      g != Zero && Length(m, g) != 0.0 && 0.0 < Dot(g, pdf.uvw.w) && 0.0 < Value(m, pdf, g)
  {
    var pdf := CosinePdf(FromW(m, w));
    var d := RandomCosineDirection(m, r1, r2);
    var g := Generate(m, pdf, r1, r2);
    LocalOfCoordinates(m, w, d);
    assert Dot(g, pdf.uvw.w) == d.z;
    assert g != Zero;
    UnitVectorIsUnit(m, g);
    var l := Length(m, g);
    DotFacts(g, pdf.uvw.w, pdf.uvw.w, 1.0 / l);
    MulPositive(1.0 / l, d.z);
    assert Dot(UnitVector(m, g), pdf.uvw.w) == (1.0 / l) * d.z;
  }
}
