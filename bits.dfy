// The integer bit operations of the Perlin lattice hash: `&`, `|`, `^` and
// `<<` on `usize`/`isize` words. They are defined bit by bit on naturals,
// from the lowest bit up, so that the facts the hash relies on are proved
// rather than assumed. An `isize` takes part through its 64-bit
// two's-complement word, `x % 2^64`.

module Bits {
  /** 2^k. */
  function Pow2(k: nat): (r: nat)
    ensures 0 < r
  {
    if k == 0 then 1 else 2 * Pow2(k - 1)
  }

  /** The number of values of a 64-bit word. */
  const Two64: int := 0x1_0000_0000_0000_0000

  /** `a & b`. */
  function BitAnd(a: nat, b: nat): nat
    decreases a
  {
    if a == 0 || b == 0 then 0
    else 2 * BitAnd(a / 2, b / 2) + (if a % 2 == 1 && b % 2 == 1 then 1 else 0)
  }

  /** `a | b`. */
  function BitOr(a: nat, b: nat): nat
    decreases a + b
  {
    if a == 0 then b
    else if b == 0 then a
    else 2 * BitOr(a / 2, b / 2) + (if a % 2 == 1 || b % 2 == 1 then 1 else 0)
  }

  /** `a ^ b`. */
  function BitXor(a: nat, b: nat): nat
    decreases a + b
  {
    if a == 0 then b
    else if b == 0 then a
    else 2 * BitXor(a / 2, b / 2) + (if a % 2 != b % 2 then 1 else 0)
  }

  /** `a << k`, for shifts that stay inside the word. */
  function Shl(a: nat, k: nat): nat {
    a * Pow2(k)
  }

  /** Masking with `2^k - 1` keeps the remainder modulo 2^k. */
  lemma {:induction false} AndLowMask(n: nat, k: nat)
    ensures BitAnd(n, Pow2(k) - 1) == n % Pow2(k)
  {
    var m := Pow2(k) - 1;
    if k == 0 {
      assert m == 0;
      DivModUnique(n, 1, n, 0);
    } else if n == 0 {
      DivModUnique(0, Pow2(k), 0, 0);
    } else {
      assert m / 2 == Pow2(k - 1) - 1 && m % 2 == 1 && m != 0;
      assert BitAnd(n, m) == 2 * BitAnd(n / 2, m / 2) + n % 2;
      AndLowMask(n / 2, k - 1);
      ModDouble(n, Pow2(k - 1));
      assert 2 * Pow2(k - 1) == Pow2(k);
    }
  }

  /**
   * `x & 255` on an `isize` is the low byte of its two's-complement word,
   * which is the Euclidean remainder `x mod 256`, also when `x` is negative.
   */
  lemma MaskLowByte(x: int)
    ensures BitAnd(x % Two64, 255) == x % 256
  {
    var y := x % Two64;
    assert Pow2(8) == 256;
    AndLowMask(y, 8);
    var q, z := x / Two64, y % 256;
    assert x == q * Two64 + y;
    assert x == (q * 0x100_0000_0000_0000 + y / 256) * 256 + z;
    DivModUnique(x, 256, q * 0x100_0000_0000_0000 + y / 256, z);
  }

  /** The exclusive or of two values below 2^k is below 2^k. */
  lemma {:induction false} XorBelow(a: nat, b: nat, k: nat)
    requires a < Pow2(k) && b < Pow2(k)
    ensures BitXor(a, b) < Pow2(k)
    decreases k
  {
    if a != 0 && b != 0 {
      XorBelow(a / 2, b / 2, k - 1);
    }
  }

  /** `(i << 2) | (j << 1) | k` for bits i, j, k is the index 4i + 2j + k. */
  lemma CornerIndexValue(i: nat, j: nat, k: nat)
    requires i <= 1 && j <= 1 && k <= 1
    ensures BitOr(BitOr(Shl(i, 2), Shl(j, 1)), k) == 4 * i + 2 * j + k
  {
    assert Pow2(2) == 4 && Pow2(1) == 2;
  }

  // ---- Division with remainder ----------------------------------------

  lemma DivModUnique(n: int, d: int, q: int, r: int)
    requires 0 < d && 0 <= r < d && n == q * d + r
    ensures n / d == q && n % d == r
  {
    var q0, r0 := n / d, n % d;
    assert (q0 - q) * d == r - r0;
    if q0 > q {
      MulAtLeast(q0 - q, d);
    } else if q0 < q {
      MulAtLeast(q - q0, d);
    }
  }

  lemma MulAtLeast(k: int, d: int)
    requires 1 <= k && 0 < d
    ensures d <= k * d
  {
    assert k * d == (k - 1) * d + d;
    assert 0 <= (k - 1) * d;
  }

  lemma ModDouble(n: nat, d: nat)
    requires 0 < d
    ensures n % (2 * d) == 2 * ((n / 2) % d) + n % 2
  {
    var q, r := n / 2, n % 2;
    var a, b := q / d, q % d;
    assert q == a * d + b;
    assert n == a * (2 * d) + (2 * b + r);
    DivModUnique(n, 2 * d, a, 2 * b + r);
  }
}
