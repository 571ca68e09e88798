// Axis-aligned bounding boxes (raytracer/src/bvh/aabb.rs): the slab test
// `Aabb::hit` and `surrounding_box`.
//
// The slab test divides by each direction component; a zero component gives
// an IEEE infinity in the source. Both tests here require every component of
// the direction to be non-zero; the callers in the hittables decide what a
// zero component means.

module BoundingBox {
  import opened Basic
  import opened Vectors
  import opened Rays

  datatype Aabb = Aabb(min: Vec3, max: Vec3)
  {
    /** `min()` and `max()` return the stored corners. */
    function Min(): (p: Vec3)
      ensures p == min
    {
      min
    }

    function Max(): (p: Vec3)
      ensures p == max
    {
      max
    }
  }

  /** `p` lies in the closed box. */
  predicate Inside(b: Aabb, p: Vec3) {
    forall i :: 0 <= i < 3 ==> b.min.E(i) <= p.E(i) <= b.max.E(i)
  }

  /** `Inside`, axis by axis. */
  lemma InsideComponents(b: Aabb, p: Vec3)
    ensures Inside(b, p) <==>
      b.min.x <= p.x <= b.max.x && b.min.y <= p.y <= b.max.y && b.min.z <= p.z <= b.max.z
  {
    if b.min.x <= p.x <= b.max.x && b.min.y <= p.y <= b.max.y && b.min.z <= p.z <= b.max.z {
      forall i | 0 <= i < 3
        ensures b.min.E(i) <= p.E(i) <= b.max.E(i)
      {
      }
    }
    if Inside(b, p) {
      assert b.min.E(0) <= p.E(0) <= b.max.E(0);
      assert b.min.E(1) <= p.E(1) <= b.max.E(1);
      assert b.min.E(2) <= p.E(2) <= b.max.E(2);
    }
  }

  /** `p` lies in the interior of the box. */
  predicate StrictlyInside(b: Aabb, p: Vec3) {
    forall i :: 0 <= i < 3 ==> b.min.E(i) < p.E(i) < b.max.E(i)
  }

  /** `inner` lies within `outer` on every axis. */
  predicate Encloses(outer: Aabb, inner: Aabb) {
    outer.min.x <= inner.min.x && outer.min.y <= inner.min.y && outer.min.z <= inner.min.z &&
    inner.max.x <= outer.max.x && inner.max.y <= outer.max.y && inner.max.z <= outer.max.z
  }

  // ---- surrounding_box --------------------------------------------------

  /** `surrounding_box(box0, box1)`: the componentwise `fmin` of the minima and `fmax` of the maxima. */
  function SurroundingBox(box0: Aabb, box1: Aabb): (r: Aabb)
    ensures Encloses(r, box0) && Encloses(r, box1)
    ensures forall c :: Encloses(c, box0) && Encloses(c, box1) ==> Encloses(c, r)
  {
    Aabb(Vec3(Fmin(box0.min.x, box1.min.x), Fmin(box0.min.y, box1.min.y), Fmin(box0.min.z, box1.min.z)),
         Vec3(Fmax(box0.max.x, box1.max.x), Fmax(box0.max.y, box1.max.y), Fmax(box0.max.z, box1.max.z)))
  }

  /** A box that encloses another encloses every point the other holds. */
  lemma EnclosesInside(outer: Aabb, inner: Aabb, p: Vec3)
    requires Encloses(outer, inner) && Inside(inner, p)
    ensures Inside(outer, p)
  {
    forall i | 0 <= i < 3
      ensures outer.min.E(i) <= p.E(i) <= outer.max.E(i)
    {
      assert inner.min.E(i) <= p.E(i) <= inner.max.E(i);
    }
  }

  lemma EnclosesTransitive(a: Aabb, b: Aabb, c: Aabb)
    requires Encloses(a, b) && Encloses(b, c)
    ensures Encloses(a, c)
  {
  }

  /** The union is commutative, associative and idempotent. */
  lemma SurroundingBoxLaws(a: Aabb, b: Aabb, c: Aabb)
    ensures SurroundingBox(a, b) == SurroundingBox(b, a)
    ensures SurroundingBox(SurroundingBox(a, b), c) == SurroundingBox(a, SurroundingBox(b, c))
    ensures SurroundingBox(a, a) == a
  {
  }

  // ---- The slab test ----------------------------------------------------

  predicate NonZeroDir(r: Ray) {
    r.dir.x != 0.0 && r.dir.y != 0.0 && r.dir.z != 0.0
  }

  /**
   * The parameters `(t0, t1)` at which the ray crosses the two planes of the
   * slab on axis `i`, swapped when `1/dir` is negative.
   */
  function SlabTimes(b: Aabb, r: Ray, i: nat): (real, real)
    requires i < 3 && NonZeroDir(r)
  {
    var invd := 1.0 / r.dir.E(i);
    var t0 := Mul(b.min.E(i) - r.st.E(i), invd);
    var t1 := Mul(b.max.E(i) - r.st.E(i), invd);
    if invd < 0.0 then (t1, t0) else (t0, t1)
  }

  /** The window after narrowing it by the slabs of the first `k` axes. */
  function WindowLo(b: Aabb, r: Ray, tMin: real, k: nat): (lo: real)
    requires k <= 3 && NonZeroDir(r)
    ensures tMin <= lo
    ensures forall i :: 0 <= i < k ==> SlabTimes(b, r, i).0 <= lo
    ensures lo == tMin || exists i :: 0 <= i < k && lo == SlabTimes(b, r, i).0
  {
    if k == 0 then tMin else Fmax(SlabTimes(b, r, k - 1).0, WindowLo(b, r, tMin, k - 1))
  }

  function WindowHi(b: Aabb, r: Ray, tMax: real, k: nat): (hi: real)
    requires k <= 3 && NonZeroDir(r)
    ensures hi <= tMax
    ensures forall i :: 0 <= i < k ==> hi <= SlabTimes(b, r, i).1
    ensures hi == tMax || exists i :: 0 <= i < k && hi == SlabTimes(b, r, i).1
  {
    if k == 0 then tMax else Fmin(SlabTimes(b, r, k - 1).1, WindowHi(b, r, tMax, k - 1))
  }

  /** The ray's parameter range inside all three slabs meets the open window. */
  predicate Overlaps(b: Aabb, r: Ray, tMin: real, tMax: real)
    requires NonZeroDir(r)
  {
    WindowLo(b, r, tMin, 3) < WindowHi(b, r, tMax, 3)
  }

  /**
   * The slab test with the window narrowed axis by axis
   * (`t_min = fmax(t0, t_min)`, `t_max = fmin(t1, t_max)`), returning false as
   * soon as the window is empty: the test the code evidently intends. The
   * tree nodes are given `HitAsWritten` below: the `Aabb` they import
   * (raytracer/src/aabb.rs, Book2/bvh/aabb.rs) is not part of this model
   * and is taken to have this file's text.
   */
  method Hit(b: Aabb, r: Ray, tMin: real, tMax: real) returns (hit: bool)
    requires NonZeroDir(r)
    ensures hit <==> Overlaps(b, r, tMin, tMax)
  {
    var lo, hi := tMin, tMax;
    for i := 0 to 3
      invariant lo == WindowLo(b, r, tMin, i) && hi == WindowHi(b, r, tMax, i)
      invariant 0 < i ==> lo < hi
    {
      var invd := 1.0 / r.dir.E(i);
      var t0 := Mul(b.min.E(i) - r.st.E(i), invd);
      var t1 := Mul(b.max.E(i) - r.st.E(i), invd);
      if invd < 0.0 {
        t0, t1 := t1, t0;
      }
      assert (t0, t1) == SlabTimes(b, r, i);
      lo := Fmax(t0, lo);
      hi := Fmin(t1, hi);
      assert lo == WindowLo(b, r, tMin, i + 1) && hi == WindowHi(b, r, tMax, i + 1);
      if hi <= lo {
        WindowMonotone(b, r, tMin, tMax, i + 1);
        return false;
      }
    }
    return true;
  }

  /** Narrowing by more axes never widens the window. */
  lemma {:induction false} WindowMonotone(b: Aabb, r: Ray, tMin: real, tMax: real, k: nat)
    requires k <= 3 && NonZeroDir(r)
    ensures WindowLo(b, r, tMin, k) <= WindowLo(b, r, tMin, 3)
    ensures WindowHi(b, r, tMax, 3) <= WindowHi(b, r, tMax, k)
    decreases 3 - k
  {
    if k < 3 {
      WindowMonotone(b, r, tMin, tMax, k + 1);
    }
  }

  /** An empty window (`t_max <= t_min`) is never hit. */
  lemma EmptyWindowMisses(b: Aabb, r: Ray, tMin: real, tMax: real)
    requires NonZeroDir(r) && tMax <= tMin
    ensures !Overlaps(b, r, tMin, tMax)
    ensures !AxisPasses(b, r, 0, tMin, tMax)
  {
  }

  // ---- What the slab times mean -------------------------------------------

  /** Component `i` of `r.at(t)`. */
  lemma AtComponent(r: Ray, t: real, i: nat)
    requires i < 3
    ensures r.At(t).E(i) == r.st.E(i) + Mul(r.dir.E(i), t)
  {
  }

  /** `s + d t - c` is `d` times the distance from `t` to the crossing parameter `(c - s)/d`. */
  lemma Crossing(s: real, d: real, c: real, t: real)
    requires d != 0.0
    ensures s + Mul(d, t) - c == Mul(d, t - Mul(c - s, 1.0 / d))
  {
    MulInverse(d, c - s);
    MulDistributes(d, t, Mul(c - s, 1.0 / d));
  }

  /**
   * On axis `i`, the ray is within the slab exactly while its parameter is
   * between the two slab times (in the closed and in the open sense).
   */
  lemma SlabMeaning(b: Aabb, r: Ray, i: nat, t: real)
    requires i < 3 && NonZeroDir(r)
    ensures SlabTimes(b, r, i).0 <= t <= SlabTimes(b, r, i).1 <==> b.min.E(i) <= r.At(t).E(i) <= b.max.E(i)
    ensures SlabTimes(b, r, i).0 < t < SlabTimes(b, r, i).1 <==> b.min.E(i) < r.At(t).E(i) < b.max.E(i)
  {
    var s, d := r.st.E(i), r.dir.E(i);
    AtComponent(r, t, i);
    var p := r.At(t).E(i);
    InverseSign(d);
    if 0.0 < d {
      CrossingsForward(s, d, b.min.E(i), b.max.E(i), t, p);
    } else {
      CrossingsBackward(s, d, b.min.E(i), b.max.E(i), t, p);
    }
  }

  /** For a positive direction the ray enters through `lo` and leaves through `hi`. */
  lemma CrossingsForward(s: real, d: real, lo: real, hi: real, t: real, p: real)
    requires 0.0 < d && p == s + Mul(d, t)
    ensures Mul(lo - s, 1.0 / d) <= t <= Mul(hi - s, 1.0 / d) <==> lo <= p <= hi
    ensures Mul(lo - s, 1.0 / d) < t < Mul(hi - s, 1.0 / d) <==> lo < p < hi
  {
    var q0, q1 := Mul(lo - s, 1.0 / d), Mul(hi - s, 1.0 / d);
    Crossing(s, d, lo, t);
    Crossing(s, d, hi, t);
    MulSign(d, t - q0);
    MulSign(d, t - q1);
  }

  /** For a negative direction the ray enters through `hi` and leaves through `lo`. */
  lemma CrossingsBackward(s: real, d: real, lo: real, hi: real, t: real, p: real)
    requires d < 0.0 && p == s + Mul(d, t)
    ensures Mul(hi - s, 1.0 / d) <= t <= Mul(lo - s, 1.0 / d) <==> lo <= p <= hi
    ensures Mul(hi - s, 1.0 / d) < t < Mul(lo - s, 1.0 / d) <==> lo < p < hi
  {
    var q0, q1 := Mul(lo - s, 1.0 / d), Mul(hi - s, 1.0 / d);
    Crossing(s, d, lo, t);
    Crossing(s, d, hi, t);
    MulSign(d, t - q0);
    MulSign(d, t - q1);
  }

  /**
   * When the narrowed window is non-empty, the ray is inside the box at some
   * parameter strictly within the window ...
   */
  lemma OverlapsReachesBox(b: Aabb, r: Ray, tMin: real, tMax: real)
    requires NonZeroDir(r) && Overlaps(b, r, tMin, tMax)
    ensures exists t :: tMin < t < tMax && Inside(b, r.At(t))
  {
    var lo, hi := WindowLo(b, r, tMin, 3), WindowHi(b, r, tMax, 3);
    var t := (lo + hi) / 2.0;
    forall i | 0 <= i < 3
      ensures b.min.E(i) <= r.At(t).E(i) <= b.max.E(i)
    {
      SlabMeaning(b, r, i, t);
    }
    assert tMin < t < tMax && Inside(b, r.At(t));
  }

  /** ... and whenever the ray passes through the interior within the window, the test succeeds. */
  lemma InteriorHitOverlaps(b: Aabb, r: Ray, tMin: real, tMax: real, t: real)
    requires NonZeroDir(r)
    requires tMin < t < tMax && StrictlyInside(b, r.At(t))
    ensures Overlaps(b, r, tMin, tMax)
  {
    forall i | 0 <= i < 3
      ensures SlabTimes(b, r, i).0 < t < SlabTimes(b, r, i).1
    {
      SlabMeaning(b, r, i, t);
    }
  }

  /** On an axis where the box is not inverted, the swap leaves `t0 <= t1`. */
  lemma SlabOrdered(b: Aabb, r: Ray, i: nat)
    requires i < 3 && NonZeroDir(r)
    requires b.min.E(i) <= b.max.E(i)
    ensures SlabTimes(b, r, i).0 <= SlabTimes(b, r, i).1
  {
    var s, d := r.st.E(i), r.dir.E(i);
    var q0, q1 := Mul(b.min.E(i) - s, 1.0 / d), Mul(b.max.E(i) - s, 1.0 / d);
    Crossing(s, d, b.min.E(i), q1);
    MulSign(d, q1 - q0);
    InverseSign(d);
    MulInverse(d, b.max.E(i) - s);
  }

  // ---- The test as the source writes it ------------------------------------

  /**
   * One axis of `Aabb::hit` as written: the slab interval is compared with the
   * caller's window `(t_min, t_max)`, which is never narrowed.
   */
  predicate AxisPasses(b: Aabb, r: Ray, i: nat, tMin: real, tMax: real)
    requires i < 3 && NonZeroDir(r)
  {
    Fmin(SlabTimes(b, r, i).1, tMax) > Fmax(SlabTimes(b, r, i).0, tMin)
  }

  /** Every axis passes on its own against the same window. */
  predicate PassesAsWritten(b: Aabb, r: Ray, tMin: real, tMax: real)
    requires NonZeroDir(r)
  {
    AxisPasses(b, r, 0, tMin, tMax) && AxisPasses(b, r, 1, tMin, tMax) && AxisPasses(b, r, 2, tMin, tMax)
  }

  /** `Aabb::hit` as written: false at the first axis that fails, true after all three. */
  method HitAsWritten(b: Aabb, r: Ray, tMin: real, tMax: real) returns (hit: bool)
    requires NonZeroDir(r)
    ensures hit <==> forall i :: 0 <= i < 3 ==> AxisPasses(b, r, i, tMin, tMax)
    ensures hit <==> PassesAsWritten(b, r, tMin, tMax)
  {
    for i := 0 to 3
      invariant forall j :: 0 <= j < i ==> AxisPasses(b, r, j, tMin, tMax)
    {
      var invd := 1.0 / r.dir.E(i);
      var t0 := Mul(b.min.E(i) - r.st.E(i), invd);
      var t1 := Mul(b.max.E(i) - r.st.E(i), invd);
      if invd < 0.0 {
        t0, t1 := t1, t0;
      }
      assert (t0, t1) == SlabTimes(b, r, i);
      if Fmin(t1, tMax) <= Fmax(t0, tMin) {
        assert !AxisPasses(b, r, i, tMin, tMax);
        return false;
      }
    }
    return true;
  }

  /** The test as written never rejects a box that the narrowed test accepts. */
  lemma OverlapsPassesEveryAxis(b: Aabb, r: Ray, tMin: real, tMax: real)
    requires NonZeroDir(r) && Overlaps(b, r, tMin, tMax)
    ensures forall i :: 0 <= i < 3 ==> AxisPasses(b, r, i, tMin, tMax)
    ensures PassesAsWritten(b, r, tMin, tMax)
  {
  }

  /** The unit cube and the ray from (-3, 0, 0) along (1, 1, 1), component by component. */
  predicate IsCounterexample(b: Aabb, r: Ray) {
    b.min.x == 0.0 && b.min.y == 0.0 && b.min.z == 0.0 &&
    b.max.x == 1.0 && b.max.y == 1.0 && b.max.z == 1.0 &&
    r.st.x == -3.0 && r.st.y == 0.0 && r.st.z == 0.0 &&
    r.dir.x == 1.0 && r.dir.y == 1.0 && r.dir.z == 1.0
  }

  /**
   * The test as written accepts a ray that misses the box: the ray of
   * `IsCounterexample` crosses the x slab of the unit cube for t in [3, 4]
   * but the y and z slabs for t in [0, 1]. In the window (0, 10) every axis
   * passes on its own, while the narrowed window is empty ...
   */
  lemma AsWrittenAcceptsMiss(b: Aabb, r: Ray)
    requires IsCounterexample(b, r)
    ensures NonZeroDir(r)
    ensures forall i :: 0 <= i < 3 ==> AxisPasses(b, r, i, 0.0, 10.0)
    ensures PassesAsWritten(b, r, 0.0, 10.0)
    ensures !Overlaps(b, r, 0.0, 10.0)
  {
    UnitDirSlab(b, r, 0);
    UnitDirSlab(b, r, 1);
    UnitDirSlab(b, r, 2);
  }

  /** ... and indeed no point of that ray within the window lies in the cube. */
  lemma CounterexampleMisses(b: Aabb, r: Ray)
    requires IsCounterexample(b, r)
    ensures forall t :: 0.0 < t < 10.0 ==> !Inside(b, r.At(t))
  {
    forall t | 0.0 < t < 10.0
      ensures !Inside(b, r.At(t))
    {
      AtComponent(r, t, 0);
      AtComponent(r, t, 1);
    }
  }

  lemma CounterexampleExists()
    ensures IsCounterexample(Aabb(Vec3(0.0, 0.0, 0.0), Vec3(1.0, 1.0, 1.0)),
                             Ray(Vec3(-3.0, 0.0, 0.0), Vec3(1.0, 1.0, 1.0), 0.0))
  {
  }

  lemma UnitDirSlab(b: Aabb, r: Ray, i: nat)
    requires i < 3 && NonZeroDir(r) && r.dir.E(i) == 1.0
    ensures SlabTimes(b, r, i) == (b.min.E(i) - r.st.E(i), b.max.E(i) - r.st.E(i))
  {
  }
}
