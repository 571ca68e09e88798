// The tutorial snapshot code/book1/8_2/main.rs: its `clamp` (the same
// expression as `Basic.Clamp`), the depth-bounded diffuse `ray_color`, and
// the byte `write_color` stores for each channel.
//
// The scene is the record `world.hit(r, 0.0, INFINITY, &mut rec)` fills in,
// given as a function from the ray to that record (None on a miss). The
// point `random_in_unit_sphere()` returns at the bounce with `d` levels left
// is `draws[d - 1]`. The snapshot's rays have no time; they are rays at time 0.

module Tutorial {
  import opened Basic
  import opened Vectors
  import opened Rays
  import opened HitRecords
  import Textures

  /** `MAXDEPTH`, `SAMPLES_PER_PIXEL`, `WIDTH` and `HEIGHT = (400 / (16/9)) as usize`. */
  const MaxDepth: int := 50
  const SamplesPerPixel: nat := 100
  const Width: nat := 400
  const Height: nat := 225

  /** The scene, as the record of the nearest hit in `[0, INFINITY)`. */
  type World<M> = Ray -> Option<HitRecord<M>>

  /** A scene whose records all carry unit normals, as spheres' records do. */
  ghost predicate UnitNormals<M>(world: World<M>) {
    forall r :: world(r).Some? ==> LengthSquared(world(r).value.normal) == 1.0
  }

  /** Draws of `random_in_unit_sphere`: points strictly inside the unit sphere. */
  predicate InUnitSphere(draws: seq<Vec3>) {
    forall i :: 0 <= i < |draws| ==> LengthSquared(draws[i]) < 1.0
  }

  /** The background on a miss: white blended toward sky blue as the unit direction rises. */
  function Sky(m: Libm, dir: Vec3): Vec3
    requires Length(m, dir) != 0.0
  {
    var unitDir := UnitVector(m, dir);
    var t := 0.5 * (unitDir.y + 1.0);
    Add(Scale(Vec3(1.0, 1.0, 1.0), 1.0 - t), Scale(Vec3(0.5, 0.7, 1.0), t))
  }

  /** The ray a hit sends on: from the hit point toward `p + normal + draw`. */
  function Bounce<M>(rec: HitRecord<M>, draw: Vec3): Ray {
    var target := Add(Add(rec.p, rec.normal), draw);
    Ray(rec.p, Sub(target, rec.p), 0.0)
  }

  /** A unit normal plus a point strictly inside the unit sphere is never zero. */
  lemma BounceNonZero<M>(rec: HitRecord<M>, draw: Vec3)
    requires LengthSquared(rec.normal) == 1.0 && LengthSquared(draw) < 1.0
    ensures Bounce(rec, draw).dir == Add(rec.normal, draw) != Zero
  {
    var n := rec.normal;
    if Add(n, draw) == Zero {
      assert draw == Vec3(-n.x, -n.y, -n.z);
      MulNegate(n.x, n.x);
      MulNegate(n.y, n.y);
      MulNegate(n.z, n.z);
      assert false;
    }
  }

  /**
   * `ray_color(r, world, depth)`: black once the depth is used up; the sky
   * on a miss; half the colour of the bounced ray, one level deeper, on a
   * hit. Every channel lies in [0, 1]: never negative, never above white.
   */
  function RayColor<M>(m: Libm, world: World<M>, draws: seq<Vec3>, r: Ray, depth: int): (c: Vec3)
    requires SqrtLaw(m) && UnitNormals(world) && InUnitSphere(draws) && depth <= |draws|
    requires r.dir != Zero
    ensures 0.0 <= c.x <= 1.0 && 0.0 <= c.y <= 1.0 && 0.0 <= c.z <= 1.0
    decreases depth
  {
    if depth <= 0 then Zero
    else match world(r)
      case Some(rec) =>
        BounceNonZero(rec, draws[depth - 1]);
        Scale(RayColor(m, world, draws, Bounce(rec, draws[depth - 1]), depth - 1), 0.5)
      case None =>
        SkyRange(m, r.dir);
        Sky(m, r.dir)
  }

  /** The sky lies between white and (0.5, 0.7, 1): its blue channel is always 1. */
  lemma SkyRange(m: Libm, dir: Vec3)
    requires SqrtLaw(m) && dir != Zero
    ensures Length(m, dir) != 0.0
    ensures var c := Sky(m, dir); 0.5 <= c.x <= 1.0 && 0.7 <= c.y <= 1.0 && c.z == 1.0
  {
    UnitVectorIsUnit(m, dir);
    var u := UnitVector(m, dir);
    UnitComponent(u);
    var t := 0.5 * (u.y + 1.0);
    assert 0.0 <= t <= 1.0;
  }

  /** A component of a unit vector lies in [-1, 1]. */
  lemma UnitComponent(u: Vec3)
    requires LengthSquared(u) == 1.0
    ensures -1.0 <= u.y <= 1.0
  {
    SquareNonNegative(u.x);
    SquareNonNegative(u.z);
    if 1.0 < u.y {
      MulStrict(1.0, u.y, u.y);
      MulStrict(1.0, u.y, 1.0);
    } else if u.y < -1.0 {
      MulStrict(1.0, -u.y, -u.y);
      MulStrict(1.0, -u.y, 1.0);
      MulNegate(u.y, u.y);
    }
  }

  /** On a hit the colour is half that of the bounced ray, one level deeper. */
  lemma HitHalves<M>(m: Libm, world: World<M>, draws: seq<Vec3>, r: Ray, depth: int)
    requires SqrtLaw(m) && UnitNormals(world) && InUnitSphere(draws) && 0 < depth <= |draws|
    requires r.dir != Zero && world(r).Some?
    ensures Bounce(world(r).value, draws[depth - 1]).dir != Zero
    ensures RayColor(m, world, draws, r, depth) ==
      Scale(RayColor(m, world, draws, Bounce(world(r).value, draws[depth - 1]), depth - 1), 0.5)
  {
    BounceNonZero(world(r).value, draws[depth - 1]);
  }

  /** Once the depth is used up the colour is black, whatever the ray and the scene. */
  lemma ExhaustedIsBlack<M>(m: Libm, world: World<M>, draws: seq<Vec3>, r: Ray, depth: int)
    requires SqrtLaw(m) && UnitNormals(world) && InUnitSphere(draws) && depth <= 0
    requires r.dir != Zero
    ensures RayColor(m, world, draws, r, depth) == Zero
  {
  }

  /** A ray that misses at once shows the sky, and no deeper bounce is taken. */
  lemma MissShowsSky<M>(m: Libm, world: World<M>, draws: seq<Vec3>, r: Ray, depth: int)
    requires SqrtLaw(m) && UnitNormals(world) && InUnitSphere(draws) && 0 < depth <= |draws|
    requires r.dir != Zero && world(r).None?
    ensures Length(m, r.dir) != 0.0
    ensures RayColor(m, world, draws, r, depth) == Sky(m, r.dir)
    ensures RayColor(m, world, draws, r, depth).z == 1.0
  {
    SkyRange(m, r.dir);
  }

  /**
   * The byte `write_color` stores for one channel, `(256 * clamp(c / samples, 0, 0.999)) as u8`:
   * the floor of the scaled, clamped value, which the cast never saturates.
   */
  function ChannelByte(c: real, samplesPerPixel: nat): (b: int)
    requires 0 < samplesPerPixel
    ensures 0 <= b <= 255
    ensures b as real <= 256.0 * Clamp(c / samplesPerPixel as real, 0.0, 0.999) < b as real + 1.0
  {
    var scale := 1.0 / samplesPerPixel as real;
    (256.0 * Clamp(c * scale, 0.0, 0.999)).Floor
  }

  /** A brighter channel never stores a smaller byte. */
  lemma ChannelByteMonotone(c1: real, c2: real, samplesPerPixel: nat)
    requires 0 < samplesPerPixel && c1 <= c2
    ensures ChannelByte(c1, samplesPerPixel) <= ChannelByte(c2, samplesPerPixel)
  {
    var s := samplesPerPixel as real;
    assert c1 / s <= c2 / s;
  }

  /** Black (or negative) stores 0; an average of 0.999 or more stores 255. */
  lemma ChannelByteEnds(c: real, samplesPerPixel: nat)
    requires 0 < samplesPerPixel
    ensures c <= 0.0 ==> ChannelByte(c, samplesPerPixel) == 0
    ensures 0.999 * samplesPerPixel as real <= c ==> ChannelByte(c, samplesPerPixel) == 255
  {
    var s := samplesPerPixel as real;
    assert c <= 0.0 ==> c / s <= 0.0;
    assert 0.999 * s <= c ==> 0.999 <= c / s;
  }

  /** The three bytes `write_color` stores for a summed pixel colour. */
  function WriteColor(pixelColor: Vec3, samplesPerPixel: nat): (rgb: Textures.Rgb)
    requires 0 < samplesPerPixel
    ensures rgb.r as int == ChannelByte(pixelColor.x, samplesPerPixel)
    ensures rgb.g as int == ChannelByte(pixelColor.y, samplesPerPixel)
    ensures rgb.b as int == ChannelByte(pixelColor.z, samplesPerPixel)
  {
    Textures.Rgb(ChannelByte(pixelColor.x, samplesPerPixel) as Textures.Byte,
                 ChannelByte(pixelColor.y, samplesPerPixel) as Textures.Byte,
                 ChannelByte(pixelColor.z, samplesPerPixel) as Textures.Byte)
  }

  /** `write_color` writes row `y` of the picture at image row `HEIGHT - y - 1`: the rows are flipped. */
  function PixelRow(y: nat): (row: nat)
    requires y < Height
    ensures row < Height && row + y == Height - 1
  {
    Height - y - 1
  }
}
