// The value noise of raytracer/src/perlin.rs: 256 random values in [0, 1),
// hashed through three permutation tables and blended by trilinear
// interpolation of the smoothed fractions. `permute`,
// `perlin_generate_perm`, the `& 255` / `^` lattice hash, the smoothstep and
// the corner weights are the same as in raytracer/src/texture/perlin.rs and
// are taken from module `Perlin`.

module ValuePerlin {
  import opened Basic
  import opened Vectors
  import Perlin
  import Bits

  /** The generator: `ranfloat` and the three permutation tables. */
  datatype ValuePerlin = ValuePerlin(ranfloat: seq<real>, permX: seq<nat>, permY: seq<nat>, permZ: seq<nat>)

  predicate Valid(vp: ValuePerlin) {
    |vp.ranfloat| == Perlin.PointCount &&
    Perlin.PermTable(vp.permX) && Perlin.PermTable(vp.permY) && Perlin.PermTable(vp.permZ)
  }

  // ---- trilinear_interp -----------------------------------------------------

  /** Corner `(i, j, k)`'s share of `trilinear_interp`: its weight times its value. */
  function TriTerm(c: seq<real>, u: real, v: real, w: real, i: nat, j: nat, k: nat): real
    requires |c| == 8 && i <= 1 && j <= 1 && k <= 1
  {
    Mul(Perlin.CornerWeight(i, j, k, u, v, w), c[Perlin.CornerIndex(i, j, k)])
  }

  /** The term of corner number `q` in loop order. */
  function NthTerm(c: seq<real>, u: real, v: real, w: real, q: nat): real
    requires |c| == 8 && q < 8
  {
    var (i, j, k) := Perlin.CornerBits(q);
    TriTerm(c, u, v, w, i, j, k)
  }

  /** The accumulator of `trilinear_interp` after the first `n` corners. */
  function TriSum(c: seq<real>, u: real, v: real, w: real, n: nat): real
    requires |c| == 8 && n <= 8
  {
    if n == 0 then 0.0 else TriSum(c, u, v, w, n - 1) + NthTerm(c, u, v, w, n - 1)
  }

  /** The value `trilinear_interp(c, u, v, w)` computes: the sum over all eight corners. */
  function Trilinear(c: seq<real>, u: real, v: real, w: real): real
    requires |c| == 8
  {
    TriSum(c, u, v, w, |c|)
  }

  /** `trilinear_interp(c, u, v, w)`: the triple loop over the corners in the order i, j, k. */
  method TrilinearInterp(c: seq<real>, u: real, v: real, w: real) returns (accum: real)
    requires |c| == 8
    ensures accum == Trilinear(c, u, v, w)
  {
    accum := 0.0;
    ghost var n := 0;
    for i := 0 to 2
      invariant n == 4 * i && accum == TriSum(c, u, v, w, n)
    {
      for j := 0 to 2
        invariant n == 4 * i + 2 * j && accum == TriSum(c, u, v, w, n)
      {
        accum := TriDepth(c, u, v, w, i, j, accum, n);
        n := n + 2;
      }
    }
  }

  /** The innermost loop of `trilinear_interp`: the corners `(i, j, 0)` and `(i, j, 1)` added to `accum`. */
  method TriDepth(c: seq<real>, u: real, v: real, w: real, i: nat, j: nat, accum0: real, ghost n: nat)
    returns (accum: real)
    requires |c| == 8 && i <= 1 && j <= 1 && n == 4 * i + 2 * j
    requires accum0 == TriSum(c, u, v, w, n)
    ensures accum == TriSum(c, u, v, w, n + 2)
  {
    accum := accum0;
    ghost var q := n;
    for k := 0 to 2
      invariant q == n + k && accum == TriSum(c, u, v, w, q)
    {
      TriStep(c, u, v, w, q, i, j, k);
      accum := accum + TriTerm(c, u, v, w, i, j, k);
      q := q + 1;
    }
  }

  /** The loop step for corner `(i, j, k)` adds the term of corner number 4i + 2j + k. */
  lemma TriStep(c: seq<real>, u: real, v: real, w: real, n: nat, i: nat, j: nat, k: nat)
    requires |c| == 8 && i <= 1 && j <= 1 && k <= 1 && n == 4 * i + 2 * j + k
    ensures TriSum(c, u, v, w, n + 1) == TriSum(c, u, v, w, n) + TriTerm(c, u, v, w, i, j, k)
  {
    Perlin.CornerBitsOf(i, j, k);
  }

  // ---- The weights ------------------------------------------------------------

  /** The sum of the weights of the first `n` corners. */
  function WeightSum(u: real, v: real, w: real, n: nat): real
    requires n <= 8
  {
    if n == 0 then 0.0
    else
      var (i, j, k) := Perlin.CornerBits(n - 1);
      WeightSum(u, v, w, n - 1) + Perlin.CornerWeight(i, j, k, u, v, w)
  }

  /** The eight corner weights add up to 1, whatever the fractions. */
  lemma WeightsSumToOne(u: real, v: real, w: real)
    ensures WeightSum(u, v, w, 8) == 1.0
  {
    var a0, a1 := Perlin.Weight(0, u), Perlin.Weight(1, u);
    var b0, b1 := Perlin.Weight(0, v), Perlin.Weight(1, v);
    var c0, c1 := Perlin.Weight(0, w), Perlin.Weight(1, w);
    EightProducts(a0, a1, b0, b1, c0, c1);
    PartialWeights(u, v, w);
  }

  /** The weight sum written out corner by corner. */
  lemma PartialWeights(u: real, v: real, w: real)
    ensures WeightSum(u, v, w, 8) ==
      Perlin.CornerWeight(0, 0, 0, u, v, w) + Perlin.CornerWeight(0, 0, 1, u, v, w) +
      Perlin.CornerWeight(0, 1, 0, u, v, w) + Perlin.CornerWeight(0, 1, 1, u, v, w) +
      Perlin.CornerWeight(1, 0, 0, u, v, w) + Perlin.CornerWeight(1, 0, 1, u, v, w) +
      Perlin.CornerWeight(1, 1, 0, u, v, w) + Perlin.CornerWeight(1, 1, 1, u, v, w)
  {
    WeightStep(u, v, w, 0, 0, 0, 0);
    WeightStep(u, v, w, 1, 0, 0, 1);
    WeightStep(u, v, w, 2, 0, 1, 0);
    WeightStep(u, v, w, 3, 0, 1, 1);
    WeightStep(u, v, w, 4, 1, 0, 0);
    WeightStep(u, v, w, 5, 1, 0, 1);
    WeightStep(u, v, w, 6, 1, 1, 0);
    WeightStep(u, v, w, 7, 1, 1, 1);
  }

  lemma WeightStep(u: real, v: real, w: real, n: nat, i: nat, j: nat, k: nat)
    requires i <= 1 && j <= 1 && k <= 1 && n == 4 * i + 2 * j + k
    ensures WeightSum(u, v, w, n + 1) == WeightSum(u, v, w, n) + Perlin.CornerWeight(i, j, k, u, v, w)
  {
    Perlin.CornerBitsOf(i, j, k);
  }

  /** (a0 + a1)(b0 + b1)(c0 + c1) expanded, for factors that sum to 1. */
  lemma EightProducts(a0: real, a1: real, b0: real, b1: real, c0: real, c1: real)
    requires a0 + a1 == 1.0 && b0 + b1 == 1.0 && c0 + c1 == 1.0
    ensures a0 * b0 * c0 + a0 * b0 * c1 + a0 * b1 * c0 + a0 * b1 * c1 +
            a1 * b0 * c0 + a1 * b0 * c1 + a1 * b1 * c0 + a1 * b1 * c1 == 1.0
  {
    assert a0 * b0 * c0 + a0 * b0 * c1 == a0 * b0;
    assert a0 * b1 * c0 + a0 * b1 * c1 == a0 * b1;
    assert a1 * b0 * c0 + a1 * b0 * c1 == a1 * b0;
    assert a1 * b1 * c0 + a1 * b1 * c1 == a1 * b1;
    assert a0 * b0 + a0 * b1 == a0;
    assert a1 * b0 + a1 * b1 == a1;
  }

  /** For fractions in [0, 1] no weight is negative. */
  lemma CornerWeightNonNegative(i: nat, j: nat, k: nat, u: real, v: real, w: real)
    requires i <= 1 && j <= 1 && k <= 1
    requires 0.0 <= u <= 1.0 && 0.0 <= v <= 1.0 && 0.0 <= w <= 1.0
    ensures 0.0 <= Perlin.CornerWeight(i, j, k, u, v, w)
  {
    var a, b, c := Perlin.Weight(i, u), Perlin.Weight(j, v), Perlin.Weight(k, w);
    MulNonNegative(a, b);
    MulNonNegative(a * b, c);
  }

  /**
   * For fractions in [0, 1] the interpolation is a weighted average: it lies
   * between any bounds of the eight corner values.
   */
  lemma TrilinearBetween(c: seq<real>, lo: real, hi: real, u: real, v: real, w: real)
    requires |c| == 8 && forall m :: 0 <= m < 8 ==> lo <= c[m] <= hi
    requires 0.0 <= u <= 1.0 && 0.0 <= v <= 1.0 && 0.0 <= w <= 1.0
    ensures lo <= Trilinear(c, u, v, w) <= hi
  {
    PartialBounds(c, lo, hi, u, v, w, 8);
    WeightsSumToOne(u, v, w);
  }

  lemma {:induction false} PartialBounds(c: seq<real>, lo: real, hi: real, u: real, v: real, w: real, n: nat)
    requires |c| == 8 && n <= 8 && forall m :: 0 <= m < 8 ==> lo <= c[m] <= hi
    requires 0.0 <= u <= 1.0 && 0.0 <= v <= 1.0 && 0.0 <= w <= 1.0
    ensures Mul(lo, WeightSum(u, v, w, n)) <= TriSum(c, u, v, w, n) <= Mul(hi, WeightSum(u, v, w, n))
  {
    if n != 0 {
      PartialBounds(c, lo, hi, u, v, w, n - 1);
      Perlin.CornerBitsSplit(n - 1);
      var (i, j, k) := Perlin.CornerBits(n - 1);
      SumsStep(c, u, v, w, n, i, j, k);
      var cw, x := Perlin.CornerWeight(i, j, k, u, v, w), c[Perlin.CornerIndex(i, j, k)];
      CornerWeightNonNegative(i, j, k, u, v, w);
      BoundStep(lo, hi, TriSum(c, u, v, w, n - 1), WeightSum(u, v, w, n - 1), cw, x,
                TriSum(c, u, v, w, n), WeightSum(u, v, w, n));
    }
  }

  /** Corner `n - 1` adds its term to the sum and its weight to the weight sum. */
  lemma SumsStep(c: seq<real>, u: real, v: real, w: real, n: nat, i: nat, j: nat, k: nat)
    requires |c| == 8 && 0 < n <= 8 && Perlin.CornerBits(n - 1) == (i, j, k)
    requires i <= 1 && j <= 1 && k <= 1
    ensures TriSum(c, u, v, w, n) == TriSum(c, u, v, w, n - 1) + TriTerm(c, u, v, w, i, j, k)
    ensures WeightSum(u, v, w, n) == WeightSum(u, v, w, n - 1) + Perlin.CornerWeight(i, j, k, u, v, w)
  {
  }

  /** Adding a non-negative weight times a value in [lo, hi] keeps the running bounds. */
  lemma BoundStep(lo: real, hi: real, s: real, ws: real, cw: real, x: real, s': real, ws': real)
    requires Mul(lo, ws) <= s <= Mul(hi, ws) && 0.0 <= cw && lo <= x <= hi
    requires s' == s + Mul(cw, x) && ws' == ws + cw
    ensures Mul(lo, ws') <= s' <= Mul(hi, ws')
  {
    MulNonNegative(cw, x - lo);
    MulNonNegative(cw, hi - x);
    assert Mul(lo, ws') == Mul(lo, ws) + Mul(cw, lo);
    assert Mul(hi, ws') == Mul(hi, ws) + Mul(cw, hi);
    assert Mul(cw, x) - Mul(cw, lo) == Mul(cw, x - lo);
    assert Mul(cw, hi) - Mul(cw, x) == Mul(cw, hi - x);
  }

  /**
   * At each of the eight corners of the cell the interpolation returns that
   * corner's value; in particular `c[0]` at (0, 0, 0) and `c[7]` at (1, 1, 1).
   */
  lemma TrilinearAtCorner(c: seq<real>, i: nat, j: nat, k: nat)
    requires |c| == 8 && i <= 1 && j <= 1 && k <= 1
    ensures Trilinear(c, i as real, j as real, k as real) == c[Perlin.CornerIndex(i, j, k)]
  {
    var m := Perlin.CornerIndex(i, j, k);
    var u, v, w := i as real, j as real, k as real;
    Bits.CornerIndexValue(i, j, k);
    forall q | 0 <= q < 8
      ensures NthTerm(c, u, v, w, q) == if q == m then c[m] else 0.0
    {
      Perlin.CornerBitsSplit(q);
      var (a, b, d) := Perlin.CornerBits(q);
      Bits.CornerIndexValue(a, b, d);
      TermAt(c, a, b, d, u, v, w);
    }
    OneCornerSum(c, u, v, w, m, 8);
  }

  lemma TrilinearAtCorners(c: seq<real>)
    requires |c| == 8
    ensures Trilinear(c, 0.0, 0.0, 0.0) == c[0]
    ensures Trilinear(c, 1.0, 1.0, 1.0) == c[7]
  {
    TrilinearAtCorner(c, 0, 0, 0);
    TrilinearAtCorner(c, 1, 1, 1);
    Bits.CornerIndexValue(0, 0, 0);
    Bits.CornerIndexValue(1, 1, 1);
  }

  /** When only corner `m` contributes, the running sum is `c[m]` once the loop has passed it. */
  lemma {:induction false} OneCornerSum(c: seq<real>, u: real, v: real, w: real, m: nat, n: nat)
    requires |c| == 8 && m < 8 && n <= 8
    requires forall q :: 0 <= q < 8 ==> NthTerm(c, u, v, w, q) == if q == m then c[m] else 0.0
    ensures TriSum(c, u, v, w, n) == if m < n then c[m] else 0.0
  {
    if n != 0 {
      OneCornerSum(c, u, v, w, m, n - 1);
    }
  }

  /** A corner's term at a lattice point: its value at its own corner, 0 elsewhere. */
  lemma TermAt(c: seq<real>, i: nat, j: nat, k: nat, u: real, v: real, w: real)
    requires |c| == 8 && i <= 1 && j <= 1 && k <= 1
    requires (u == 0.0 || u == 1.0) && (v == 0.0 || v == 1.0) && (w == 0.0 || w == 1.0)
    ensures TriTerm(c, u, v, w, i, j, k) ==
      if (i as real) == u && (j as real) == v && (k as real) == w then c[Perlin.CornerIndex(i, j, k)] else 0.0
  {
    if (i as real) == u && (j as real) == v && (k as real) == w {
      WeightFull(i, j, k);
    } else {
      WeightVanishes(i, j, k, u, v, w);
    }
  }

  /** A corner carries the whole weight at its own position ... */
  lemma WeightFull(i: nat, j: nat, k: nat)
    requires i <= 1 && j <= 1 && k <= 1
    ensures Perlin.CornerWeight(i, j, k, i as real, j as real, k as real) == 1.0
  {
  }

  /** ... and none at the other corners of the cell. */
  lemma WeightVanishes(i: nat, j: nat, k: nat, u: real, v: real, w: real)
    requires i <= 1 && j <= 1 && k <= 1
    requires (u == 0.0 || u == 1.0) && (v == 0.0 || v == 1.0) && (w == 0.0 || w == 1.0)
    requires (i as real) != u || (j as real) != v || (k as real) != w
    ensures Perlin.CornerWeight(i, j, k, u, v, w) == 0.0
  {
    var a, b, d := Perlin.Weight(i, u), Perlin.Weight(j, v), Perlin.Weight(k, w);
    if (i as real) != u {
      assert a == 0.0;
    } else if (j as real) != v {
      assert b == 0.0;
    } else {
      assert d == 0.0;
    }
  }

  // ---- noise ----------------------------------------------------------------

  /** The value `noise` pushes for corner number `m` of the cell at `(i, j, k)`. */
  function Corner(vp: ValuePerlin, i: int, j: int, k: int, m: nat): real
    requires Valid(vp) && m < 8
  {
    var (di, dj, dk) := Perlin.CornerBits(m);
    vp.ranfloat[Perlin.Hash(vp.permX, vp.permY, vp.permZ, i, j, k, di, dj, dk)]
  }

  /** The eight values of the cell, in push order. */
  function Corners(vp: ValuePerlin, i: int, j: int, k: int): (c: seq<real>)
    requires Valid(vp)
    ensures |c| == 8 && forall m :: 0 <= m < 8 ==> c[m] == Corner(vp, i, j, k, m)
  {
    seq(8, (m: int) requires 0 <= m < 8 && Valid(vp) => Corner(vp, i, j, k, m))
  }

  /** The value `noise(p)` computes. */
  function NoiseOf(vp: ValuePerlin, p: Vec3): real
    requires Valid(vp)
  {
    var c := Corners(vp, Perlin.FloorToIsize(p.x), Perlin.FloorToIsize(p.y), Perlin.FloorToIsize(p.z));
    Trilinear(c, Perlin.Smooth(p.x - p.x.Floor as real), Perlin.Smooth(p.y - p.y.Floor as real),
              Perlin.Smooth(p.z - p.z.Floor as real))
  }

  /** `noise(p)`: the smoothed fractions, the cell's values pushed in loop order, then interpolated. */
  method Noise(vp: ValuePerlin, p: Vec3) returns (r: real)
    requires Valid(vp)
    ensures r == NoiseOf(vp, p)
  {
    var uFl := p.x - p.x.Floor as real;
    var vFl := p.y - p.y.Floor as real;
    var wFl := p.z - p.z.Floor as real;
    uFl := Perlin.Smooth(uFl);
    vFl := Perlin.Smooth(vFl);
    wFl := Perlin.Smooth(wFl);
    var i := Perlin.FloorToIsize(p.x);
    var j := Perlin.FloorToIsize(p.y);
    var k := Perlin.FloorToIsize(p.z);
    ghost var corners := Corners(vp, i, j, k);
    var ret: seq<real> := [];
    for di := 0 to 2
      invariant ret == corners[..4 * di]
    {
      for dj := 0 to 2
        invariant ret == corners[..4 * di + 2 * dj]
      {
        for dk := 0 to 2
          invariant ret == corners[..4 * di + 2 * dj + dk]
        {
          Perlin.CornerBitsOf(di, dj, dk);
          ret := ret + [vp.ranfloat[Perlin.Hash(vp.permX, vp.permY, vp.permZ, i, j, k, di, dj, dk)]];
        }
      }
    }
    assert ret == corners;
    r := TrilinearInterp(ret, uFl, vFl, wFl);
  }

  /** Every value of the table lies in [0, 1). */
  predicate UnitValues(vp: ValuePerlin) {
    forall n :: 0 <= n < |vp.ranfloat| ==> 0.0 <= vp.ranfloat[n] < 1.0
  }

  /** The largest of a non-empty list of values. */
  function MaxOf(c: seq<real>): (r: real)
    requires 0 < |c|
    ensures r in c && forall m :: 0 <= m < |c| ==> c[m] <= r
  {
    if |c| == 1 then c[0]
    else
      var r := MaxOf(c[1..]);
      assert forall m :: 1 <= m < |c| ==> c[m] == c[1..][m - 1];
      if c[0] < r then r else c[0]
  }

  /** Corner values in [0, 1) and fractions in [0, 1] give an interpolation in [0, 1). */
  lemma TrilinearUnitRange(c: seq<real>, u: real, v: real, w: real)
    requires |c| == 8 && forall m :: 0 <= m < 8 ==> 0.0 <= c[m] < 1.0
    requires 0.0 <= u <= 1.0 && 0.0 <= v <= 1.0 && 0.0 <= w <= 1.0
    ensures 0.0 <= Trilinear(c, u, v, w) < 1.0
  {
    var hi := MaxOf(c);
    TrilinearBetween(c, 0.0, hi, u, v, w);
  }

  /** With all values in [0, 1), the noise lies in [0, 1). */
  lemma NoiseRange(vp: ValuePerlin, p: Vec3)
    requires Valid(vp) && UnitValues(vp)
    ensures 0.0 <= NoiseOf(vp, p) < 1.0
  {
    var i, j, k := Perlin.FloorToIsize(p.x), Perlin.FloorToIsize(p.y), Perlin.FloorToIsize(p.z);
    var c := Corners(vp, i, j, k);
    CornersUnit(vp, i, j, k);
    FractionUnit(p.x);
    FractionUnit(p.y);
    FractionUnit(p.z);
    var u, v, w := Perlin.Smooth(p.x - p.x.Floor as real), Perlin.Smooth(p.y - p.y.Floor as real),
                   Perlin.Smooth(p.z - p.z.Floor as real);
    TrilinearUnitRange(c, u, v, w);
  }

  /** The values of a cell come from the table, so they lie in [0, 1) when the table's do. */
  lemma CornersUnit(vp: ValuePerlin, i: int, j: int, k: int)
    requires Valid(vp) && UnitValues(vp)
    ensures forall m :: 0 <= m < 8 ==> 0.0 <= Corners(vp, i, j, k)[m] < 1.0
  {
  }

  /** The fractional part `x - floor(x)` lies in [0, 1). */
  lemma FractionUnit(x: real)
    ensures 0.0 <= x - x.Floor as real < 1.0
  {
  }

  // ---- Default ----------------------------------------------------------------

  /**
   * `Perlin::default()`: 256 values `random_double()`, then the three tables,
   * each from the 256 draws after the previous one's. The values lie in [0, 1).
   */
  method Default(draws: nat -> real, pos: nat) returns (vp: ValuePerlin, next: nat)
    requires UnitDraws(draws)
    ensures Valid(vp) && UnitValues(vp)
    ensures forall n :: 0 <= n < Perlin.PointCount ==> vp.ranfloat[n] == draws(pos + n)
    ensures vp.permX == Perlin.Shuffled(Perlin.Iota(Perlin.PointCount),
                                        Perlin.DrawnSlots(Perlin.PointCount, draws, pos + Perlin.PointCount), Perlin.PointCount)
    ensures vp.permY == Perlin.Shuffled(Perlin.Iota(Perlin.PointCount),
                                        Perlin.DrawnSlots(Perlin.PointCount, draws, pos + 2 * Perlin.PointCount), Perlin.PointCount)
    ensures vp.permZ == Perlin.Shuffled(Perlin.Iota(Perlin.PointCount),
                                        Perlin.DrawnSlots(Perlin.PointCount, draws, pos + 3 * Perlin.PointCount), Perlin.PointCount)
    ensures Perlin.IsPermutation(vp.permX, Perlin.PointCount) && Perlin.IsPermutation(vp.permY, Perlin.PointCount)
    ensures Perlin.IsPermutation(vp.permZ, Perlin.PointCount)
    ensures next == pos + 4 * Perlin.PointCount
  {
    var ret := Values(draws, pos);
    var permX := Perlin.GeneratePerm(draws, pos + Perlin.PointCount);
    var permY := Perlin.GeneratePerm(draws, pos + 2 * Perlin.PointCount);
    var permZ := Perlin.GeneratePerm(draws, pos + 3 * Perlin.PointCount);
    vp := ValuePerlin(ret, permX, permY, permZ);
    next := pos + 4 * Perlin.PointCount;
  }

  /** The first loop of `default()`: 256 values `random_double()`, each in [0, 1). */
  method Values(draws: nat -> real, pos: nat) returns (ret: seq<real>)
    requires UnitDraws(draws)
    ensures |ret| == Perlin.PointCount
    ensures forall n :: 0 <= n < Perlin.PointCount ==> ret[n] == draws(pos + n)
    ensures forall n :: 0 <= n < |ret| ==> 0.0 <= ret[n] < 1.0
  {
    ret := [];
    for n := 0 to Perlin.PointCount
      invariant |ret| == n
      invariant forall q :: 0 <= q < n ==> ret[q] == draws(pos + q)
    {
      ret := ret + [draws(pos + n)];
    }
  }
}
