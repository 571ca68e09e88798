// The textures of raytracer/src/texture/mod.rs and raytracer/src/texture.rs.
// Both files define the same `SolidColor` and `CheckerTexture`; their
// `NoiseTexture`s differ: the first colours marble stripes with the
// gradient noise of `Perlin.Turb`, the second greys by the value noise of
// `ValuePerlin`. The decoded picture of an `ImageTexture` is its width,
// its height and its pixels in row-major order.

module Textures {
  import opened Basic
  import opened Vectors
  import Perlin
  import ValuePerlin

  /** An 8-bit colour channel. */
  newtype Byte = x: int | 0 <= x < 256

  /** One pixel of a decoded picture: its red, green and blue channels. */
  datatype Rgb = Rgb(r: Byte, g: Byte, b: Byte)

  /** Every texture the two files define; a checker holds two textures of its own. */
  datatype Texture =
    | SolidColor(colorValue: Vec3)
    | Checker(odd: Texture, even: Texture)
    | Marble(noise: Perlin.Perlin, scale: real)
    | ValueNoise(valueNoise: ValuePerlin.ValuePerlin, valueScale: real)
    | Image(pixels: seq<Rgb>, width: nat, height: nat)

  /**
   * The tables of a noise texture are well formed, and a picture has at
   * least one row and one column, with `width * height` pixels. A picture
   * with no column or row underflows `width - 1` in `value`.
   */
  ghost predicate Valid(t: Texture)
    decreases t
  {
    match t
    case SolidColor(_) => true
    case Checker(odd, even) => Valid(odd) && Valid(even)
    case Marble(noise, _) => Perlin.Valid(noise)
    case ValueNoise(noise, _) => ValuePerlin.Valid(noise)
    case Image(pixels, width, height) => 1 <= width && 1 <= height && |pixels| == width * height
  }

  /** `(10x).sin() * (10y).sin() * (10z).sin()`: the sign of this product lays out the checker's cells. */
  function Sines(m: Libm, p: Vec3): real {
    m.sin(10.0 * p.x) * m.sin(10.0 * p.y) * m.sin(10.0 * p.z)
  }

  /** `CheckerTexture::creat(a, b)`: the odd cells are `b` and the even cells `a`. */
  function CheckerCreat(a: Vec3, b: Vec3): (t: Texture)
    ensures Valid(t)
  {
    Checker(SolidColor(b), SolidColor(a))
  }

  /** `value(u, v, p)` of each texture. */
  function Value(m: Libm, t: Texture, u: real, v: real, p: Vec3): Vec3
    requires Valid(t)
    decreases t
  {
    match t
    case SolidColor(c) => c
    case Checker(odd, even) =>
      if Sines(m, p) < 0.0 then Value(m, odd, u, v, p) else Value(m, even, u, v, p)
    case Marble(noise, scale) => MarbleColor(m, scale, p.z, Abs(Perlin.TurbSum(noise, p, 7)))
    case ValueNoise(noise, scale) =>
      Scale(Vec3(1.0, 1.0, 1.0), ValuePerlin.NoiseOf(noise, Scale(p, scale)))
    case Image(_, _, _) => ImageColor(t, u, v)
  }

  /** A solid colour is the same at every `u`, `v` and `p`. */
  lemma SolidConstant(m: Libm, c: Vec3, u: real, v: real, p: Vec3, u': real, v': real, p': Vec3)
    ensures Value(m, SolidColor(c), u, v, p) == c
    ensures Value(m, SolidColor(c), u, v, p) == Value(m, SolidColor(c), u', v', p')
  {
  }

  /**
   * The checker shows its odd texture exactly where the sine product is
   * negative, and its even texture everywhere else, a product of exactly
   * zero included.
   */
  lemma CheckerPicks(m: Libm, odd: Texture, even: Texture, u: real, v: real, p: Vec3)
    requires Valid(odd) && Valid(even)
    ensures Sines(m, p) < 0.0 ==> Value(m, Checker(odd, even), u, v, p) == Value(m, odd, u, v, p)
    ensures Sines(m, p) >= 0.0 ==> Value(m, Checker(odd, even), u, v, p) == Value(m, even, u, v, p)
    ensures Sines(m, p) == 0.0 ==> Value(m, Checker(odd, even), u, v, p) == Value(m, even, u, v, p)
  {
  }

  /** The checker built by `creat(a, b)` shows `b` on the negative cells and `a` on the others. */
  lemma CheckerCreatValue(m: Libm, a: Vec3, b: Vec3, u: real, v: real, p: Vec3)
    ensures Value(m, CheckerCreat(a, b), u, v, p) == if Sines(m, p) < 0.0 then b else a
  {
    CheckerPicks(m, SolidColor(b), SolidColor(a), u, v, p);
  }

  /** `(1, 1, 1) * 0.5 * (1 + sin(scale * z + 10 * turb))`: the marble's colour from its turbulence. */
  function MarbleColor(m: Libm, scale: real, z: real, turb: real): Vec3 {
    Scale(Scale(Vec3(1.0, 1.0, 1.0), 0.5), 1.0 + m.sin(scale * z + 10.0 * turb))
  }

  /**
   * The marble texture is grey, and with `sin` in [-1, 1] its shade lies in
   * [0, 1] whatever the turbulence.
   */
  lemma MarbleRange(m: Libm, noise: Perlin.Perlin, scale: real, u: real, v: real, p: Vec3)
    requires Perlin.Valid(noise) && TrigLaw(m)
    ensures var c := Value(m, Marble(noise, scale), u, v, p);
      c.x == c.y == c.z && 0.0 <= c.x <= 1.0
  {
    MarbleShade(m, scale, p.z, Abs(Perlin.TurbSum(noise, p, 7)));
  }

  lemma MarbleShade(m: Libm, scale: real, z: real, turb: real)
    requires TrigLaw(m)
    ensures var c := MarbleColor(m, scale, z, turb); c.x == c.y == c.z && 0.0 <= c.x <= 1.0
  {
    var s := m.sin(scale * z + 10.0 * turb);
    assert -1.0 <= s <= 1.0;
  }

  /**
   * The value-noise texture is grey, its shade the noise at `p * scale`;
   * with values drawn from [0, 1) the shade lies in [0, 1).
   */
  lemma ValueNoiseShade(m: Libm, noise: ValuePerlin.ValuePerlin, scale: real, u: real, v: real, p: Vec3)
    requires ValuePerlin.Valid(noise)
    ensures var c := Value(m, ValueNoise(noise, scale), u, v, p);
      c.x == c.y == c.z == ValuePerlin.NoiseOf(noise, Scale(p, scale))
    ensures ValuePerlin.UnitValues(noise) ==>
      var c := Value(m, ValueNoise(noise, scale), u, v, p);
      0.0 <= c.x < 1.0
  {
    if ValuePerlin.UnitValues(noise) {
      ValuePerlin.NoiseRange(noise, Scale(p, scale));
    }
  }

  /** `NoiseTexture::creat(sc)` of texture/mod.rs: fresh gradient noise read from `draws` at `pos`. */
  method MarbleCreat(m: Libm, draws: nat -> real, pos: nat, sc: real) returns (t: Texture, next: nat)
    requires SqrtLaw(m) && Perlin.NonZeroDraws(draws, pos)
    ensures Valid(t) && t.Marble? && t.scale == sc
    ensures next == pos + 6 * Perlin.PointCount
  {
    var noise;
    noise, next := Perlin.Default(m, draws, pos);
    t := Marble(noise, sc);
  }

  /** `NoiseTexture::creat(sc)` of texture.rs: fresh value noise read from `draws` at `pos`. */
  method ValueNoiseCreat(draws: nat -> real, pos: nat, sc: real) returns (t: Texture, next: nat)
    requires UnitDraws(draws)
    ensures Valid(t) && t.ValueNoise? && t.valueScale == sc && ValuePerlin.UnitValues(t.valueNoise)
    ensures next == pos + 4 * Perlin.PointCount
  {
    var noise;
    noise, next := ValuePerlin.Default(draws, pos);
    t := ValueNoise(noise, sc);
  }

  /**
   * `x as usize` for `x` below the word's range: the cast truncates toward
   * zero and saturates at 0, so a non-negative `x` is cast to its floor.
   */
  function CastToUsize(x: real): (n: nat)
    ensures x <= 0.0 ==> n == 0
    ensures 0.0 <= x ==> n == x.Floor && n as real <= x < n as real + 1.0
  {
    if x <= 0.0 then 0 else x.Floor
  }

  /** `get_pixel(i, j)`: the pixel at column `i` of row `j`. */
  function GetPixel(t: Texture, i: nat, j: nat): (px: Rgb)
    requires Valid(t) && t.Image? && i < t.width && j < t.height
    ensures px in t.pixels
  {
    RowMajor(i, j, t.width, t.height);
    t.pixels[j * t.width + i]
  }

  lemma RowMajor(i: nat, j: nat, width: nat, height: nat)
    requires i < width && j < height
    ensures j * width + i < width * height
  {
    calc {
      j * width + i;
    <
      j * width + width;
    ==
      (j + 1) * width;
    <=  { MulMonotoneNat(j + 1, height, width); }
      height * width;
    }
  }

  lemma MulMonotoneNat(a: nat, b: nat, c: nat)
    requires a <= b
    ensures a * c <= b * c
  {
  }

  /** The colour of a picture's pixel: each channel scaled by `1/255`. */
  function PixelColor(pixel: Rgb): (c: Vec3)
    ensures 0.0 <= c.x <= 1.0 && 0.0 <= c.y <= 1.0 && 0.0 <= c.z <= 1.0
    ensures c.x * 255.0 == pixel.r as real && c.y * 255.0 == pixel.g as real && c.z * 255.0 == pixel.b as real
  {
    var colorScale := 1.0 / 255.0;
    Vec3(pixel.r as int as real * colorScale, pixel.g as int as real * colorScale, pixel.b as int as real * colorScale)
  }

  /**
   * The index `value` computes from a coordinate already clamped to [0, 1]
   * for an axis of `n` pixels: `x * n` truncated, pulled back onto the last
   * pixel when it reaches `n`.
   */
  function EdgeIndex(x: real, n: nat): (i: nat)
    requires 1 <= n
    ensures i < n
  {
    var k := CastToUsize(x * n as real);
    if k >= n then n - 1 else k
  }

  /**
   * The index step of `value` on one axis of `n` pixels: `x * n` cast to
   * `usize`, then pulled back onto the last pixel when it reaches `n`.
   */
  method PixelIndex(x: real, n: nat) returns (k: nat)
    requires 1 <= n
    ensures k == EdgeIndex(x, n) && k < n
  {
    k := CastToUsize(x * n as real);
    k := if k >= n then n - 1 else k;
  }

  /** The column and row `ImageTexture::value` reads at `(u, v)`: `v` is clamped and flipped. */
  function ImagePixel(t: Texture, u: real, v: real): (ij: (nat, nat))
    requires Valid(t) && t.Image?
    ensures ij.0 < t.width && ij.1 < t.height
  {
    (EdgeIndex(Clamp(u, 0.0, 1.0), t.width), EdgeIndex(1.0 - Clamp(v, 0.0, 1.0), t.height))
  }

  /** The colour `ImageTexture::value` returns at `(u, v)`: every channel lies in [0, 1]. */
  function ImageColor(t: Texture, u: real, v: real): (c: Vec3)
    requires Valid(t) && t.Image?
    ensures 0.0 <= c.x <= 1.0 && 0.0 <= c.y <= 1.0 && 0.0 <= c.z <= 1.0
  {
    PixelColor(GetPixel(t, ImagePixel(t, u, v).0, ImagePixel(t, u, v).1))
  }

  /**
   * `ImageTexture::value(u, v, p)`: clamp `u` and `v` to [0, 1], flip `v`,
   * scale both to pixel indices, pull an index that reaches the edge back
   * onto the last column or row, and scale the pixel's channels to [0, 1].
   */
  method ImageValue(t: Texture, u: real, v: real) returns (color: Vec3)
    requires Valid(t) && t.Image?
    ensures color == ImageColor(t, u, v)
    ensures 0.0 <= color.x <= 1.0 && 0.0 <= color.y <= 1.0 && 0.0 <= color.z <= 1.0
  {
    var uc := Clamp(u, 0.0, 1.0);
    var vc := 1.0 - Clamp(v, 0.0, 1.0);
    var i := PixelIndex(uc, t.width);
    var j := PixelIndex(vc, t.height);
    var pixel := GetPixel(t, i, j);
    color := PixelColor(pixel);
  }

  /**
   * The pixel read at `(u, v)`: the column is `floor(u * width)` and the row
   * `floor((1 - v) * height)` for coordinates inside the picture; only the
   * edges `u == 1` and `v == 0` are pulled back onto the last column and row,
   * and coordinates outside [0, 1] read the pixel of the nearest edge.
   */
  lemma ImagePixelPlace(t: Texture, u: real, v: real)
    requires Valid(t) && t.Image?
    ensures 0.0 <= u < 1.0 ==> ImagePixel(t, u, v).0 == (u * t.width as real).Floor
    ensures 0.0 < v <= 1.0 ==> ImagePixel(t, u, v).1 == ((1.0 - v) * t.height as real).Floor
    ensures 1.0 <= u ==> ImagePixel(t, u, v).0 == t.width - 1
    ensures u <= 0.0 ==> ImagePixel(t, u, v).0 == 0
    ensures v <= 0.0 ==> ImagePixel(t, u, v).1 == t.height - 1
    ensures 1.0 <= v ==> ImagePixel(t, u, v).1 == 0
  {
    ColumnPlace(u, t.width);
    RowPlace(v, t.height);
  }

  /** The column read at `u`: `floor(u * n)` inside [0, 1), the last column from 1 on, 0 at or below 0. */
  lemma ColumnPlace(u: real, n: nat)
    requires 1 <= n
    ensures 0.0 <= u < 1.0 ==> EdgeIndex(Clamp(u, 0.0, 1.0), n) == (u * n as real).Floor
    ensures 1.0 <= u ==> EdgeIndex(Clamp(u, 0.0, 1.0), n) == n - 1
    ensures u <= 0.0 ==> EdgeIndex(Clamp(u, 0.0, 1.0), n) == 0
  {
    if 0.0 <= u < 1.0 {
      BelowEdge(u, n);
    } else if 1.0 <= u {
      assert Clamp(u, 0.0, 1.0) * n as real == n as real;
    }
  }

  /** The row read at `v`: `floor((1 - v) * n)` inside (0, 1], the last row at or below 0, 0 from 1 on. */
  lemma RowPlace(v: real, n: nat)
    requires 1 <= n
    ensures 0.0 < v <= 1.0 ==> EdgeIndex(1.0 - Clamp(v, 0.0, 1.0), n) == ((1.0 - v) * n as real).Floor
    ensures v <= 0.0 ==> EdgeIndex(1.0 - Clamp(v, 0.0, 1.0), n) == n - 1
    ensures 1.0 <= v ==> EdgeIndex(1.0 - Clamp(v, 0.0, 1.0), n) == 0
  {
    if 0.0 < v <= 1.0 {
      BelowEdge(1.0 - v, n);
    } else if v <= 0.0 {
      assert (1.0 - Clamp(v, 0.0, 1.0)) * n as real == n as real;
    }
  }

  /** A coordinate in [0, 1) scales to an index below `n`, so the pull-back leaves it alone. */
  lemma BelowEdge(x: real, n: nat)
    requires 0.0 <= x < 1.0 && 1 <= n
    ensures 0.0 <= x * n as real < n as real
    ensures CastToUsize(x * n as real) == (x * n as real).Floor < n
  {
    MulNonNegative(x, n as real);
    MulStrict(x, 1.0, n as real);
  }

  /** Clamping the coordinates first changes nothing: `value` clamps them itself. */
  lemma ImageClamped(t: Texture, u: real, v: real)
    requires Valid(t) && t.Image?
    ensures ImageColor(t, Clamp(u, 0.0, 1.0), Clamp(v, 0.0, 1.0)) == ImageColor(t, u, v)
  {
    ClampIdempotent(u, 0.0, 1.0);
    ClampIdempotent(v, 0.0, 1.0);
  }
}
