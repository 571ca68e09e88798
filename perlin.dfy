// Perlin noise of raytracer/src/texture/perlin.rs: gradient noise over 256
// random unit vectors, hashed through three permutation tables. The
// permutation tables, the `& 255` / `^` lattice hash and the smoothstep are
// the same in raytracer/src/perlin.rs, whose value noise (`ValuePerlin`)
// imports them from here.
//
// Every `random_double()` is read from the stream `draws` at a position the
// caller passes in. The `Vec` the source pushes into becomes a sequence, or
// an array where `permute` swaps its entries in place.

module Perlin {
  import opened Basic
  import opened Vectors
  import opened Bits

  /** `POINT_COUNT`. */
  const PointCount: nat := 256

  // ---- permute and perlin_generate_perm -------------------------------

  /** The table with the entries at `i` and `j` exchanged. */
  function Swap(s: seq<nat>, i: nat, j: nat): (r: seq<nat>)
    requires i < |s| && j < |s|
    ensures |r| == |s|
  {
    seq(|s|, (k: int) requires 0 <= k < |s| => if k == i then s[j] else if k == j then s[i] else s[k])
  }

  /** A swap moves the two entries and only rearranges the table. */
  lemma SwapFacts(s: seq<nat>, i: nat, j: nat)
    requires i < |s| && j < |s|
    ensures Swap(s, i, j)[i] == s[j] && Swap(s, i, j)[j] == s[i]
    ensures forall k :: 0 <= k < |s| && k != i && k != j ==> Swap(s, i, j)[k] == s[k]
    ensures multiset(Swap(s, i, j)) == multiset(s)
  {
    assert Swap(s, i, j) == s[i := s[j]][j := s[i]];
  }

  /** Slot `n` is the `id` drawn at step `n` of the scan, when `i = |ids| - 1 - n`: it lies in [0, i]. */
  predicate ValidSlots(ids: seq<int>) {
    forall n :: 0 <= n < |ids| ==> 0 <= ids[n] <= |ids| - 1 - n
  }

  /**
   * The slots `permute` draws for a table of `len` entries, in draw order:
   * `random_int_lr(0, i)` for `i` from `len - 1` down to 0.
   */
  function DrawnSlots(len: nat, draws: nat -> real, pos: nat): (ids: seq<int>)
    requires UnitDraws(draws)
    ensures |ids| == len && ValidSlots(ids)
    decreases len
  {
    if len == 0 then []
    else [RandomIntLr(0, len - 1, draws(pos))] + DrawnSlots(len - 1, draws, pos + 1)
  }

  /**
   * The table after the first `n` steps of `permute`'s loop, which runs `i`
   * from `|s| - 1` down to 0 and exchanges entry `i` with the drawn entry.
   */
  function Shuffled(s: seq<nat>, ids: seq<int>, n: nat): (r: seq<nat>)
    requires n <= |s| == |ids| && ValidSlots(ids)
    ensures |r| == |s|
    decreases n
  {
    if n == 0 then s
    else Swap(Shuffled(s, ids, n - 1), |s| - n, ids[n - 1])
  }

  /** Whatever the draws, the shuffle only rearranges the table. */
  lemma {:induction false} ShuffledPermutes(s: seq<nat>, ids: seq<int>, n: nat)
    requires n <= |s| == |ids| && ValidSlots(ids)
    ensures multiset(Shuffled(s, ids, n)) == multiset(s)
  {
    if n != 0 {
      ShuffledPermutes(s, ids, n - 1);
      SwapFacts(Shuffled(s, ids, n - 1), |s| - n, ids[n - 1]);
    }
  }

  /**
   * Once the scan has passed an entry it is final: the last `n` entries
   * after `n` steps are those of the finished table.
   */
  lemma {:induction false} ShuffledSettles(s: seq<nat>, ids: seq<int>, n: nat, n2: nat)
    requires n <= n2 <= |s| == |ids| && ValidSlots(ids)
    ensures Shuffled(s, ids, n2)[|s| - n..] == Shuffled(s, ids, n)[|s| - n..]
    decreases n2 - n
  {
    if n < n2 {
      ShuffledSettles(s, ids, n, n2 - 1);
      var before := Shuffled(s, ids, n2 - 1);
      var after := Swap(before, |s| - n2, ids[n2 - 1]);
      SwapFacts(before, |s| - n2, ids[n2 - 1]);
      assert forall k :: |s| - n <= k < |s| ==> after[k] == before[k];
      assert after[|s| - n..] == before[|s| - n..];
    }
  }

  /** `permute(p)`: the in-place Fisher–Yates scan, with the drawn slots `ids`. */
  method Permute(p: array<nat>, ids: seq<int>)
    requires |ids| == p.Length && ValidSlots(ids)
    modifies p
    ensures p[..] == Shuffled(old(p[..]), ids, p.Length)
    ensures multiset(p[..]) == multiset(old(p[..]))
  {
    ghost var s := p[..];
    var i := p.Length;
    while i > 0
      invariant 0 <= i <= p.Length
      invariant p[..] == Shuffled(s, ids, p.Length - i)
    {
      i := i - 1;
      var id := ids[p.Length - 1 - i];
      SwapEntries(p, i, id);
    }
    ShuffledPermutes(s, ids, p.Length);
  }

  /** The loop body of `permute`: copies of the two entries exchanged by `std::mem::swap`, then written back. */
  method SwapEntries(p: array<nat>, i: nat, id: nat)
    requires i < p.Length && id < p.Length
    modifies p
    ensures p[..] == Swap(old(p[..]), i, id)
  {
    var a := p[i];
    var b := p[id];
    a, b := b, a;
    p[i] := a;
    p[id] := b;
  }

  /** The identity table 0, 1, ..., n - 1. */
  function Iota(n: nat): (r: seq<nat>)
    ensures |r| == n && forall k :: 0 <= k < n ==> r[k] == k
  {
    if n == 0 then [] else Iota(n - 1) + [n - 1]
  }

  /** `t` holds each of 0, 1, ..., n - 1 exactly once. */
  predicate IsPermutation(t: seq<nat>, n: nat) {
    |t| == n && multiset(t) == multiset(Iota(n))
  }

  /** A table the hash can index with: 256 entries, each below 256. */
  predicate PermTable(t: seq<nat>) {
    |t| == PointCount && forall k :: 0 <= k < |t| ==> t[k] < PointCount
  }

  /** A permutation of 0 .. n - 1 has every entry below n and holds every value below n. */
  lemma PermutationEntries(t: seq<nat>, n: nat)
    requires IsPermutation(t, n)
    ensures forall k :: 0 <= k < |t| ==> t[k] < n
    ensures forall v :: 0 <= v < n ==> v in t
  {
    forall k | 0 <= k < |t|
      ensures t[k] < n
    {
      assert t[k] in multiset(Iota(n));
      var j :| 0 <= j < n && Iota(n)[j] == t[k];
    }
    forall v | 0 <= v < n
      ensures v in t
    {
      assert Iota(n)[v] == v;
      assert v in multiset(Iota(n));
    }
  }

  /** `perlin_generate_perm()`: 0 .. 255 pushed in order, then permuted. */
  method GeneratePerm(draws: nat -> real, pos: nat) returns (perm: seq<nat>)
    requires UnitDraws(draws)
    ensures perm == Shuffled(Iota(PointCount), DrawnSlots(PointCount, draws, pos), PointCount)
    ensures IsPermutation(perm, PointCount) && PermTable(perm)
  {
    var ret := new nat[PointCount];
    for i := 0 to PointCount
      invariant forall k :: 0 <= k < i ==> ret[k] == k
    {
      ret[i] := i;
    }
    assert ret[..] == Iota(PointCount);
    Permute(ret, DrawnSlots(PointCount, draws, pos));
    perm := ret[..];
    PermutationEntries(perm, PointCount);
  }

  // ---- The lattice hash -------------------------------------------------

  /** `(x & 255) as usize` for the `isize` value `x`, through its two's-complement word. */
  function Mask(x: int): (r: nat)
    ensures r < PointCount && r == x % 256
  {
    MaskLowByte(x);
    BitAnd(x % Two64, 255)
  }

  /** `x.floor() as isize`: the cast saturates at the ends of the `isize` range. */
  function FloorToIsize(x: real): (r: int)
    ensures -0x8000_0000_0000_0000 <= r < 0x8000_0000_0000_0000
    ensures -0x8000_0000_0000_0000 <= x.Floor < 0x8000_0000_0000_0000 ==> r == x.Floor
  {
    if x.Floor < -0x8000_0000_0000_0000 then -0x8000_0000_0000_0000
    else if x.Floor >= 0x8000_0000_0000_0000 then 0x7fff_ffff_ffff_ffff
    else x.Floor
  }

  /**
   * The table index of the lattice corner `(i + di, j + dj, k + dk)`:
   * `perm_x[(i + di) & 255] ^ perm_y[(j + dj) & 255] ^ perm_z[(k + dk) & 255]`.
   * It is always a valid index into a 256-entry table.
   */
  function Hash(permX: seq<nat>, permY: seq<nat>, permZ: seq<nat>, i: int, j: int, k: int, di: nat, dj: nat, dk: nat)
    : (r: nat)
    requires PermTable(permX) && PermTable(permY) && PermTable(permZ)
    ensures r < PointCount
  {
    var a, b, c := permX[Mask(i + di)], permY[Mask(j + dj)], permZ[Mask(k + dk)];
    assert Pow2(8) == PointCount;
    XorBelow(a, b, 8);
    XorBelow(BitXor(a, b), c, 8);
    BitXor(BitXor(a, b), c)
  }

  /** The loop bits `(di, dj, dk)` of corner number `m`. */
  function CornerBits(m: nat): (nat, nat, nat)
    requires m < 8
  {
    match m
    case 0 => (0, 0, 0)
    case 1 => (0, 0, 1)
    case 2 => (0, 1, 0)
    case 3 => (0, 1, 1)
    case 4 => (1, 0, 0)
    case 5 => (1, 0, 1)
    case 6 => (1, 1, 0)
    case 7 => (1, 1, 1)
  }

  /** `(i << 2) | (j << 1) | k`, the corner number the interpolation reads. */
  function CornerIndex(i: nat, j: nat, k: nat): (r: nat)
    requires i <= 1 && j <= 1 && k <= 1
    ensures r < 8 && CornerBits(r) == (i, j, k)
  {
    var r := BitOr(BitOr(Shl(i, 2), Shl(j, 1)), k);
    CornerIndexValue(i, j, k);
    CornerBitsOf(i, j, k);
    r
  }

  /** The loop bits of a corner number below 8 are bits, and they spell it out. */
  lemma CornerBitsSplit(m: nat)
    requires m < 8
    ensures var (i, j, k) := CornerBits(m); i <= 1 && j <= 1 && k <= 1 && m == 4 * i + 2 * j + k
  {
  }

  lemma CornerBitsOf(i: nat, j: nat, k: nat)
    requires i <= 1 && j <= 1 && k <= 1
    ensures CornerBits(4 * i + 2 * j + k) == (i, j, k)
  {
  }

  // ---- Interpolation ------------------------------------------------------

  /**
   * The smoothstep `x.powi(2) * (3.0 - 2.0 * x)`: it fixes 0 and 1 and maps
   * a fractional part in [0, 1) into [0, 1).
   */
  function Smooth(x: real): (r: real)
    ensures x == 0.0 ==> r == 0.0
    ensures x == 1.0 ==> r == 1.0
    ensures 0.0 <= x < 1.0 ==> 0.0 <= r < 1.0
  {
    SmoothUnit(x);
    x * x * (3.0 - 2.0 * x)
  }

  lemma SmoothUnit(x: real)
    ensures 0.0 <= x < 1.0 ==> 0.0 <= x * x * (3.0 - 2.0 * x) < 1.0
  {
    if 0.0 <= x < 1.0 {
      MulNonNegative(x, x);
      MulNonNegative(Mul(x, x), 3.0 - 2.0 * x);
      MulPositive(1.0 - x, 1.0 - x);
      MulPositive(Mul(1.0 - x, 1.0 - x), 1.0 + 2.0 * x);
      assert 1.0 - x * x * (3.0 - 2.0 * x) == Mul(Mul(1.0 - x, 1.0 - x), 1.0 + 2.0 * x);
    }
  }

  /** `(b as f64) * s + ((1 - b) as f64) * (1.0 - s)` for the loop bit `b`: `1 - s` at 0 and `s` at 1. */
  function Weight(b: nat, s: real): (r: real)
    requires b <= 1
    ensures r == if b == 0 then 1.0 - s else s
  {
    WeightCases(b, s);
    (b as real) * s + ((1 - b) as real) * (1.0 - s)
  }

  lemma WeightCases(b: nat, s: real)
    requires b <= 1
    ensures (b as real) * s + ((1 - b) as real) * (1.0 - s) == if b == 0 then 1.0 - s else s
  {
    if b == 0 {
      assert (b as real) == 0.0 && ((1 - b) as real) == 1.0;
    } else {
      assert (b as real) == 1.0 && ((1 - b) as real) == 0.0;
    }
  }

  /** Corner `(i, j, k)`'s share of `perlin_interp`: its weight times its gradient's dot product with the offset to it. */
  function InterpTerm(c: seq<Vec3>, u: real, v: real, w: real, i: nat, j: nat, k: nat): real
    requires |c| == 8 && i <= 1 && j <= 1 && k <= 1
  {
    Mul(CornerWeight(i, j, k, Smooth(u), Smooth(v), Smooth(w)), Dot(c[CornerIndex(i, j, k)], Offset(u, v, w, i, j, k)))
  }

  /** The trilinear weight of corner `(i, j, k)` for the smoothed fractions `(uu, vv, ww)`. */
  function CornerWeight(i: nat, j: nat, k: nat, uu: real, vv: real, ww: real): real
    requires i <= 1 && j <= 1 && k <= 1
  {
    Weight(i, uu) * Weight(j, vv) * Weight(k, ww)
  }

  /** The offset from corner `(i, j, k)` to the point at fractions `(u, v, w)`. */
  function Offset(u: real, v: real, w: real, i: nat, j: nat, k: nat): Vec3 {
    Vec3(u - i as real, v - j as real, w - k as real)
  }

  /** The accumulator of `perlin_interp` after the first `n` corners. */
  function InterpSum(c: seq<Vec3>, u: real, v: real, w: real, n: nat): real
    requires |c| == 8 && n <= 8
  {
    if n == 0 then 0.0
    else
      var (i, j, k) := CornerBits(n - 1);
      InterpSum(c, u, v, w, n - 1) + InterpTerm(c, u, v, w, i, j, k)
  }

  /** The value `perlin_interp(c, u, v, w)` computes: the sum over all eight corners. */
  function Interp(c: seq<Vec3>, u: real, v: real, w: real): real
    requires |c| == 8
  {
    InterpSum(c, u, v, w, |c|)
  }

  /** `perlin_interp(c, u, v, w)`: the triple loop over the corners in the order i, j, k. */
  method PerlinInterp(c: seq<Vec3>, u: real, v: real, w: real) returns (accum: real)
    requires |c| == 8
    ensures accum == Interp(c, u, v, w)
  {
    var uu := Smooth(u);
    var vv := Smooth(v);
    var ww := Smooth(w);
    accum := 0.0;
    ghost var n := 0;
    for i := 0 to 2
      invariant n == 4 * i && accum == InterpSum(c, u, v, w, n)
    {
      for j := 0 to 2
        invariant n == 4 * i + 2 * j && accum == InterpSum(c, u, v, w, n)
      {
        accum := InterpDepth(c, u, v, w, uu, vv, ww, i, j, accum, n);
        n := n + 2;
      }
    }
  }

  /** The innermost loop of `perlin_interp`: the corners `(i, j, 0)` and `(i, j, 1)` added to `accum`. */
  method InterpDepth(c: seq<Vec3>, u: real, v: real, w: real, uu: real, vv: real, ww: real,
                     i: nat, j: nat, accum0: real, ghost n: nat) returns (accum: real)
    requires |c| == 8 && i <= 1 && j <= 1 && n == 4 * i + 2 * j
    requires uu == Smooth(u) && vv == Smooth(v) && ww == Smooth(w)
    requires accum0 == InterpSum(c, u, v, w, n)
    ensures accum == InterpSum(c, u, v, w, n + 2)
  {
    accum := accum0;
    ghost var q := n;
    for k := 0 to 2
      invariant q == n + k && accum == InterpSum(c, u, v, w, q)
    {
      var term := Mul(CornerWeight(i, j, k, uu, vv, ww), Dot(c[CornerIndex(i, j, k)], Offset(u, v, w, i, j, k)));
      InterpStep(c, u, v, w, q, i, j, k);
      accum := accum + term;
      q := q + 1;
    }
  }

  /** The loop step for corner `(i, j, k)` adds the term of corner number 4i + 2j + k. */
  lemma InterpStep(c: seq<Vec3>, u: real, v: real, w: real, n: nat, i: nat, j: nat, k: nat)
    requires |c| == 8 && i <= 1 && j <= 1 && k <= 1 && n == 4 * i + 2 * j + k
    ensures InterpSum(c, u, v, w, n + 1) == InterpSum(c, u, v, w, n) + InterpTerm(c, u, v, w, i, j, k)
  {
    CornerBitsOf(i, j, k);
  }

  /** At a lattice point all weight sits on corner 0, whose offset is zero: the interpolation is 0. */
  lemma InterpAtLattice(c: seq<Vec3>)
    requires |c| == 8
    ensures Interp(c, 0.0, 0.0, 0.0) == 0.0
  {
    forall i: nat, j: nat, k: nat | i <= 1 && j <= 1 && k <= 1
      ensures InterpTerm(c, 0.0, 0.0, 0.0, i, j, k) == 0.0
    {
      TermAtLattice(c, i, j, k);
    }
    ZeroTerms(c, 0.0, 0.0, 0.0, |c|);
  }

  lemma TermAtLattice(c: seq<Vec3>, i: nat, j: nat, k: nat)
    requires |c| == 8 && i <= 1 && j <= 1 && k <= 1
    ensures InterpTerm(c, 0.0, 0.0, 0.0, i, j, k) == 0.0
  {
    var weight := CornerWeight(i, j, k, Smooth(0.0), Smooth(0.0), Smooth(0.0));
    var offset := Offset(0.0, 0.0, 0.0, i, j, k);
    if i == 0 && j == 0 && k == 0 {
      assert offset == Zero;
      assert Dot(c[CornerIndex(i, j, k)], offset) == 0.0;
    } else {
      assert weight == 0.0;
    }
  }

  lemma {:induction false} ZeroTerms(c: seq<Vec3>, u: real, v: real, w: real, n: nat)
    requires |c| == 8 && n <= 8
    requires forall i: nat, j: nat, k: nat | i <= 1 && j <= 1 && k <= 1 :: InterpTerm(c, u, v, w, i, j, k) == 0.0
    ensures InterpSum(c, u, v, w, n) == 0.0
  {
    if n != 0 {
      ZeroTerms(c, u, v, w, n - 1);
    }
  }

  // ---- noise --------------------------------------------------------------

  /** The texture's noise generator: 256 gradients and three permutation tables. */
  datatype Perlin = Perlin(ranvec: seq<Vec3>, permX: seq<nat>, permY: seq<nat>, permZ: seq<nat>)

  predicate Valid(perlin: Perlin) {
    |perlin.ranvec| == PointCount && PermTable(perlin.permX) && PermTable(perlin.permY) && PermTable(perlin.permZ)
  }

  /** The gradient `noise` pushes for corner number `m` of the cell at `(i, j, k)`. */
  function Corner(perlin: Perlin, i: int, j: int, k: int, m: nat): Vec3
    requires Valid(perlin) && m < 8
  {
    var (di, dj, dk) := CornerBits(m);
    perlin.ranvec[Hash(perlin.permX, perlin.permY, perlin.permZ, i, j, k, di, dj, dk)]
  }

  /** The eight gradients of the cell, in push order. */
  function Corners(perlin: Perlin, i: int, j: int, k: int): (c: seq<Vec3>)
    requires Valid(perlin)
    ensures |c| == 8 && forall m :: 0 <= m < 8 ==> c[m] == Corner(perlin, i, j, k, m)
  {
    seq(8, (m: int) requires 0 <= m < 8 && Valid(perlin) => Corner(perlin, i, j, k, m))
  }

  /**
   * The corners are pushed in the order `(di << 2) | (dj << 1) | dk`, so the
   * interpolation finds the gradient of corner `(di, dj, dk)` at the index it
   * computes for it.
   */
  lemma CornerOrder(perlin: Perlin, i: int, j: int, k: int, di: nat, dj: nat, dk: nat)
    requires Valid(perlin) && di <= 1 && dj <= 1 && dk <= 1
    ensures Corners(perlin, i, j, k)[CornerIndex(di, dj, dk)]
         == perlin.ranvec[Hash(perlin.permX, perlin.permY, perlin.permZ, i, j, k, di, dj, dk)]
  {
  }

  /** The value `noise(p)` computes. */
  function NoiseOf(perlin: Perlin, p: Vec3): real
    requires Valid(perlin)
  {
    var c := Corners(perlin, FloorToIsize(p.x), FloorToIsize(p.y), FloorToIsize(p.z));
    Interp(c, p.x - p.x.Floor as real, p.y - p.y.Floor as real, p.z - p.z.Floor as real)
  }

  /** `noise(p)`: the cell's corners pushed in loop order, then interpolated. */
  method Noise(perlin: Perlin, p: Vec3) returns (r: real)
    requires Valid(perlin)
    ensures r == NoiseOf(perlin, p)
  {
    var uFl := p.x - p.x.Floor as real;
    var vFl := p.y - p.y.Floor as real;
    var wFl := p.z - p.z.Floor as real;
    var i := FloorToIsize(p.x);
    var j := FloorToIsize(p.y);
    var k := FloorToIsize(p.z);
    ghost var corners := Corners(perlin, i, j, k);
    var ret: seq<Vec3> := [];
    for di := 0 to 2
      invariant ret == corners[..4 * di]
    {
      for dj := 0 to 2
        invariant ret == corners[..4 * di + 2 * dj]
      {
        for dk := 0 to 2
          invariant ret == corners[..4 * di + 2 * dj + dk]
        {
          assert CornerBits(4 * di + 2 * dj + dk) == (di, dj, dk);
          ret := ret + [perlin.ranvec[Hash(perlin.permX, perlin.permY, perlin.permZ, i, j, k, di, dj, dk)]];
        }
      }
    }
    assert ret == corners;
    r := PerlinInterp(ret, uFl, vFl, wFl);
  }

  /** At a lattice point the noise is 0. */
  lemma NoiseAtLattice(perlin: Perlin, p: Vec3)
    requires Valid(perlin)
    requires p.x == p.x.Floor as real && p.y == p.y.Floor as real && p.z == p.z.Floor as real
    ensures NoiseOf(perlin, p) == 0.0
  {
    InterpAtLattice(Corners(perlin, FloorToIsize(p.x), FloorToIsize(p.y), FloorToIsize(p.z)));
  }

  // ---- turb -----------------------------------------------------------------

  /** b^n. */
  function Power(b: real, n: nat): real {
    if n == 0 then 1.0 else Power(b, n - 1) * b
  }

  /** The octave sum `sum of 0.5^n * noise(2^n * p)` over `n < depth`. */
  function TurbSum(perlin: Perlin, p: Vec3, depth: nat): real
    requires Valid(perlin)
  {
    if depth == 0 then 0.0
    else TurbSum(perlin, p, depth - 1) + Mul(Power(0.5, depth - 1), NoiseOf(perlin, Scale(p, Power(2.0, depth - 1))))
  }

  /**
   * `turb(p, depth)`: each octave halves the weight and doubles the point;
   * the result is the absolute value of the octave sum, never negative and
   * 0 for depth 0.
   */
  method Turb(perlin: Perlin, p: Vec3, depth: nat) returns (r: real)
    requires Valid(perlin)
    ensures r == Abs(TurbSum(perlin, p, depth))
    ensures 0.0 <= r && (depth == 0 ==> r == 0.0)
  {
    var accum := 0.0;
    var tempP := p;
    var weight := 1.0;
    for n := 0 to depth
      invariant accum == TurbSum(perlin, p, n)
      invariant weight == Power(0.5, n) && tempP == Scale(p, Power(2.0, n))
    {
      var noise := Noise(perlin, tempP);
      TurbStep(perlin, p, n);
      accum := accum + Mul(weight, noise);
      weight := weight * 0.5;
      ScaleTwice(p, Power(2.0, n));
      tempP := Scale(tempP, 2.0);
      assert Power(2.0, n + 1) == Power(2.0, n) * 2.0;
    }
    r := Abs(accum);
  }

  lemma TurbStep(perlin: Perlin, p: Vec3, n: nat)
    requires Valid(perlin)
    ensures TurbSum(perlin, p, n + 1) == TurbSum(perlin, p, n) + Mul(Power(0.5, n), NoiseOf(perlin, Scale(p, Power(2.0, n))))
  {
  }

  lemma ScaleTwice(p: Vec3, a: real)
    ensures Scale(Scale(p, a), 2.0) == Scale(p, a * 2.0)
  {
  }

  // ---- Default --------------------------------------------------------------

  /** `Vec3::random_lr(-1.0, 1.0)` for gradient `n`: the three draws from `pos + 3n`. */
  function DrawnVec(draws: nat -> real, pos: nat, n: nat): Vec3
    requires UnitDraws(draws)
  {
    var q := pos + 3 * n;
    Vec3(RandomDoubleLr(-1.0, 1.0, draws(q)), RandomDoubleLr(-1.0, 1.0, draws(q + 1)), RandomDoubleLr(-1.0, 1.0, draws(q + 2)))
  }

  /** Gradient `n`: `unit_vector(Vec3::random_lr(-1.0, 1.0))`, of length one. */
  function Gradient(m: Libm, draws: nat -> real, pos: nat, n: nat): (g: Vec3)
    requires SqrtLaw(m) && NonZeroDraws(draws, pos) && n < PointCount
    ensures LengthSquared(g) == 1.0
  {
    UnitVectorIsUnit(m, DrawnVec(draws, pos, n));
    UnitVector(m, DrawnVec(draws, pos, n))
  }

  /** No drawn vector is zero, so `unit_vector` never divides by zero. */
  ghost predicate NonZeroDraws(draws: nat -> real, pos: nat) {
    UnitDraws(draws) && forall n :: 0 <= n < PointCount ==> DrawnVec(draws, pos, n) != Zero
  }

  /**
   * `Perlin::default()`: 256 unit gradients, then the three tables, each
   * from the 256 draws after the previous one's.
   */
  method Default(m: Libm, draws: nat -> real, pos: nat) returns (perlin: Perlin, next: nat)
    requires SqrtLaw(m) && NonZeroDraws(draws, pos)
    ensures Valid(perlin)
    ensures forall n :: 0 <= n < PointCount ==> perlin.ranvec[n] == Gradient(m, draws, pos, n)
    ensures perlin.permX == Shuffled(Iota(PointCount), DrawnSlots(PointCount, draws, pos + 3 * PointCount), PointCount)
    ensures perlin.permY == Shuffled(Iota(PointCount), DrawnSlots(PointCount, draws, pos + 4 * PointCount), PointCount)
    ensures perlin.permZ == Shuffled(Iota(PointCount), DrawnSlots(PointCount, draws, pos + 5 * PointCount), PointCount)
    ensures IsPermutation(perlin.permX, PointCount) && IsPermutation(perlin.permY, PointCount)
    ensures IsPermutation(perlin.permZ, PointCount)
    ensures next == pos + 6 * PointCount
  {
    var ret: seq<Vec3> := [];
    for n := 0 to PointCount
      invariant |ret| == n
      invariant forall q :: 0 <= q < n ==> ret[q] == Gradient(m, draws, pos, q)
    {
      ret := ret + [Gradient(m, draws, pos, n)];
    }
    var permX := GeneratePerm(draws, pos + 3 * PointCount);
    var permY := GeneratePerm(draws, pos + 4 * PointCount);
    var permZ := GeneratePerm(draws, pos + 5 * PointCount);
    perlin := Perlin(ret, permX, permY, permZ);
    next := pos + 6 * PointCount;
  }
}
