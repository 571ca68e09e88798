// The orthonormal basis of raytracer/src/basic/onb.rs.
//
// `Onb` holds `axis: [Vec3; 3]`, which `build_from_w` overwrites entry by
// entry; the model keeps the three axes in an array owned by an `Onb`
// object. `FromW` is the basis `build_from_w` computes, as a value.

module OrthoBasis {
  import opened Basic
  import opened Vectors

  /** The helper axis `build_from_w` crosses with `w`: y when `|w.x| > 0.9`, x otherwise. */
  function HelperAxis(w: Vec3): (a: Vec3)
    ensures Abs(w.x) > 0.9 ==> a == Vec3(0.0, 1.0, 0.0)
    ensures Abs(w.x) <= 0.9 ==> a == Vec3(1.0, 0.0, 0.0)
  {
    if Abs(w.x) > 0.9 then Vec3(0.0, 1.0, 0.0) else Vec3(1.0, 0.0, 0.0)
  }

  /** A unit `w` is never parallel to the helper axis chosen for it. */
  lemma {:induction false} HelperAxisNotParallel(w: Vec3)
    requires LengthSquared(w) == 1.0
    ensures Cross(w, HelperAxis(w)) != Zero
  {
    if Abs(w.x) <= 0.9 {
      SquareBelowBound(w.x, 1.0);
      SquareNonNegative(w.y);
      SquareNonNegative(w.z);
      assert Mul(w.y, w.y) + Mul(w.z, w.z) > 0.0;
      assert w.y != 0.0 || w.z != 0.0;
    }
  }

  /** |a x b|^2 = |a|^2 |b|^2 - (a . b)^2 (Lagrange's identity). */
  lemma CrossLength(a: Vec3, b: Vec3)
    ensures LengthSquared(Cross(a, b)) == LengthSquared(a) * LengthSquared(b) - Dot(a, b) * Dot(a, b)
  {
  }

  datatype Basis = Basis(u: Vec3, v: Vec3, w: Vec3)

  /**
   * The basis `build_from_w(n)` produces: `w` is `n` normalised, `v` the
   * normalised cross product of `w` with the helper axis, and `u = w x v`.
   * The three axes are unit vectors and pairwise orthogonal.
   */
  function FromW(m: Libm, n: Vec3): (b: Basis)
    requires SqrtLaw(m)
    requires n != Zero
    ensures Length(m, n) != 0.0 && b.w == UnitVector(m, n)
    ensures Length(m, Cross(b.w, HelperAxis(b.w))) != 0.0
    ensures b.v == UnitVector(m, Cross(b.w, HelperAxis(b.w)))
    ensures b.u == Cross(b.w, b.v)
    ensures LengthSquared(b.u) == 1.0 && LengthSquared(b.v) == 1.0 && LengthSquared(b.w) == 1.0
    ensures Dot(b.u, b.v) == 0.0 && Dot(b.v, b.w) == 0.0 && Dot(b.u, b.w) == 0.0
  {
    UnitVectorIsUnit(m, n);
    var w := UnitVector(m, n);
    var c := Cross(w, HelperAxis(w));
    HelperAxisNotParallel(w);
    UnitVectorIsUnit(m, c);
    var v := UnitVector(m, c);
    var u := Cross(w, v);
    assert Dot(v, w) == 0.0 by {
      CrossFacts(w, HelperAxis(w));
      DotFacts(c, w, w, 1.0 / Length(m, c));
    }
    CrossFacts(w, v);
    CrossLength(w, v);
    DotFacts(u, v, w, 0.0);
    DotFacts(v, w, w, 0.0);
    Basis(u, v, w)
  }

  /** `local_vec`: the combination `u * a.x + v * a.y + w * a.z` of the basis. */
  function LocalOf(b: Basis, a: Vec3): Vec3 {
    Add(Add(Scale(b.u, a.x), Scale(b.v, a.y)), Scale(b.w, a.z))
  }

  lemma ScaleByUnit(a: Vec3)
    ensures Scale(a, 0.0) == Zero && Scale(a, 1.0) == a
    ensures Add(Zero, a) == a && Add(a, Zero) == a
  {
  }

  /** `local_vec` maps the unit vectors to the axes. */
  lemma LocalOfAxes(b: Basis)
    ensures LocalOf(b, Vec3(1.0, 0.0, 0.0)) == b.u
    ensures LocalOf(b, Vec3(0.0, 1.0, 0.0)) == b.v
    ensures LocalOf(b, Vec3(0.0, 0.0, 1.0)) == b.w
  {
    ScaleByUnit(b.u);
    ScaleByUnit(b.v);
    ScaleByUnit(b.w);
  }

  /** `local_vec` is linear in its argument: it preserves sums ... */
  lemma LocalOfAdditive(b: Basis, p: Vec3, q: Vec3)
    ensures LocalOf(b, Add(p, q)) == Add(LocalOf(b, p), LocalOf(b, q))
  {
    CombineLinear(b.u.x, b.v.x, b.w.x, p.x, p.y, p.z, q.x, q.y, q.z);
    CombineLinear(b.u.y, b.v.y, b.w.y, p.x, p.y, p.z, q.x, q.y, q.z);
    CombineLinear(b.u.z, b.v.z, b.w.z, p.x, p.y, p.z, q.x, q.y, q.z);
  }

  /** ... and scalar multiples. */
  lemma LocalOfHomogeneous(b: Basis, p: Vec3, k: real)
    ensures LocalOf(b, Scale(p, k)) == Scale(LocalOf(b, p), k)
  {
    var su, sv, sw := Scale(b.u, p.x), Scale(b.v, p.y), Scale(b.w, p.z);
    calc {
      LocalOf(b, Scale(p, k));
      { LocalOfComponents(b, Scale(p, k), p.x * k, p.y * k, p.z * k); }
      Add(Add(Scale(b.u, p.x * k), Scale(b.v, p.y * k)), Scale(b.w, p.z * k));
      { ScaleTwice(b.u, p.x, k); ScaleTwice(b.v, p.y, k); ScaleTwice(b.w, p.z, k); }
      Add(Add(Scale(su, k), Scale(sv, k)), Scale(sw, k));
      { ScaleOfSum(su, sv, k); }
      Add(Scale(Add(su, sv), k), Scale(sw, k));
      { ScaleOfSum(Add(su, sv), sw, k); }
      Scale(Add(Add(su, sv), sw), k);
      { LocalOfComponents(b, p, p.x, p.y, p.z); }
      Scale(LocalOf(b, p), k);
    }
  }

  lemma LocalOfComponents(b: Basis, a: Vec3, x: real, y: real, z: real)
    requires a.x == x && a.y == y && a.z == z
    ensures LocalOf(b, a) == Add(Add(Scale(b.u, x), Scale(b.v, y)), Scale(b.w, z))
  {
  }

  lemma ScaleTwice(v: Vec3, a: real, k: real)
    ensures Scale(v, a * k) == Scale(Scale(v, a), k)
  {
    MulAssoc(v.x, a, k);
    MulAssoc(v.y, a, k);
    MulAssoc(v.z, a, k);
  }

  lemma MulAssoc(x: real, a: real, k: real)
    ensures x * (a * k) == (x * a) * k
  {
  }

  lemma ScaleOfSum(v: Vec3, w: Vec3, k: real)
    ensures Scale(Add(v, w), k) == Add(Scale(v, k), Scale(w, k))
  {
    SumTimes(v.x, w.x, k);
    SumTimes(v.y, w.y, k);
    SumTimes(v.z, w.z, k);
  }

  lemma SumTimes(x: real, y: real, k: real)
    ensures (x + y) * k == x * k + y * k
  {
  }

  lemma CombineLinear(a: real, c: real, e: real, p1: real, p2: real, p3: real, q1: real, q2: real, q3: real)
    ensures a * (p1 + q1) + c * (p2 + q2) + e * (p3 + q3) == (a * p1 + c * p2 + e * p3) + (a * q1 + c * q2 + e * q3)
  {
  }

  /** In an orthonormal basis, coordinates are recovered by dot products with the axes. */
  lemma LocalOfCoordinates(m: Libm, n: Vec3, a: Vec3)
    requires SqrtLaw(m)
    requires n != Zero
    ensures Dot(LocalOf(FromW(m, n), a), FromW(m, n).w) == a.z
  {
    var b := FromW(m, n);
    var su, sv, sw := Scale(b.u, a.x), Scale(b.v, a.y), Scale(b.w, a.z);
    DotFacts(Add(su, sv), sw, b.w, 0.0);
    DotFacts(su, sv, b.w, 0.0);
    DotFacts(b.u, b.w, b.w, a.x);
    DotFacts(b.v, b.w, b.w, a.y);
    DotFacts(b.w, b.w, b.w, a.z);
  }

  class Onb {
    const axis: array<Vec3>

    ghost predicate Valid()
      reads this
    {
      axis.Length == 3
    }

    constructor ()
      ensures Valid() && fresh(axis)
      ensures axis[..] == [Zero, Zero, Zero]
    {
      axis := new Vec3[3](_ => Zero);
    }

    /** The axes as a value. */
    function Axes(): (b: Basis)
      requires Valid()
      reads this, axis
      ensures b == Basis(axis[0], axis[1], axis[2])
    {
      Basis(axis[0], axis[1], axis[2])
    }

    /** `u()`, `v()` and `w()` return `axis[0]`, `axis[1]` and `axis[2]`. */
    function U(): (r: Vec3)
      requires Valid()
      reads this, axis
      ensures r == Axes().u
    {
      axis[0]
    }

    function V(): (r: Vec3)
      requires Valid()
      reads this, axis
      ensures r == Axes().v
    {
      axis[1]
    }

    function W(): (r: Vec3)
      requires Valid()
      reads this, axis
      ensures r == Axes().w
    {
      axis[2]
    }

    /** `local(a, b, c)` is `local_vec` of the vector (a, b, c). */
    function Local(a: real, b: real, c: real): (r: Vec3)
      requires Valid()
      reads this, axis
      ensures r == LocalOf(Axes(), Vec3(a, b, c))
    {
      Add(Add(Scale(axis[0], a), Scale(axis[1], b)), Scale(axis[2], c))
    }

    function LocalVec(a: Vec3): (r: Vec3)
      requires Valid()
      reads this, axis
      ensures r == LocalOf(Axes(), a)
      ensures r == Local(a.x, a.y, a.z)
    {
      Add(Add(Scale(axis[0], a.E(0)), Scale(axis[1], a.E(1))), Scale(axis[2], a.E(2)))
    }

    /**
     * `build_from_w(n)` writes `axis[2]`, then `axis[1]`, then `axis[0]`; the
     * result is the orthonormal basis `FromW(n)`.
     */
    method BuildFromW(m: Libm, n: Vec3)
      requires Valid()
      requires SqrtLaw(m)
      requires n != Zero
      modifies axis
      ensures Valid()
      ensures Axes() == FromW(m, n)
    {
      var b := FromW(m, n);
      axis[2] := UnitVector(m, n);
      var a := HelperAxis(W());
      axis[1] := UnitVector(m, Cross(W(), a));
      axis[0] := Cross(W(), V());
    }
  }
}
