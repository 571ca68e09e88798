// The default camera of raytracer/src/camera.rs: a 16:9 viewport of height 2
// at focal length 1, looking down -z from the origin.

module Cameras {
  import opened Basic
  import opened Vectors
  import opened Rays

  datatype Camera = Camera(origin: Vec3, lowerLeftCorner: Vec3, horizontal: Vec3, vertical: Vec3)

  /**
   * The body of `Camera::default()`, with its three constants as parameters:
   * the viewport is `aspectRatio * viewportHeight` wide and centred on the
   * -z axis at distance `focalLength` from the origin.
   */
  function ViewportCamera(aspectRatio: real, viewportHeight: real, focalLength: real): (c: Camera)
    ensures c.origin == Zero
    ensures c.horizontal == Vec3(aspectRatio * viewportHeight, 0.0, 0.0)
    ensures c.vertical == Vec3(0.0, viewportHeight, 0.0)
    ensures c.lowerLeftCorner == Vec3(-(aspectRatio * viewportHeight) / 2.0, -viewportHeight / 2.0, -focalLength)
  {
    var viewportWidth := aspectRatio * viewportHeight;
    var origin := Zero;
    var horizontal := Vec3(viewportWidth, 0.0, 0.0);
    var vertical := Vec3(0.0, viewportHeight, 0.0);
    var lowerLeftCorner := Sub(Sub(Sub(origin, Div(horizontal, 2.0)), Div(vertical, 2.0)), Vec3(0.0, 0.0, focalLength));
    Camera(origin, lowerLeftCorner, horizontal, vertical)
  }

  const AspectRatio: real := 16.0 / 9.0
  const ViewportHeight: real := 2.0
  const FocalLength: real := 1.0

  /** `Camera::default()`: aspect ratio 16/9, viewport height 2, focal length 1. */
  function DefaultCamera(): Camera {
    ViewportCamera(AspectRatio, ViewportHeight, FocalLength)
  }

  /** The default camera sits at the origin with a 32/9 by 2 viewport ... */
  lemma DefaultCameraAxes()
    ensures DefaultCamera().origin == Zero
    ensures DefaultCamera().horizontal == Vec3(32.0 / 9.0, 0.0, 0.0)
    ensures DefaultCamera().vertical == Vec3(0.0, 2.0, 0.0)
  {
    assert AspectRatio * ViewportHeight == 32.0 / 9.0;
  }

  /** ... whose lower-left corner is (-16/9, -1, -1). */
  lemma DefaultCameraCorner()
    ensures DefaultCamera().lowerLeftCorner == Vec3(-16.0 / 9.0, -1.0, -1.0)
  {
    assert AspectRatio * ViewportHeight == 32.0 / 9.0;
  }

  /** `get_ray(u, v)`: from the origin towards the viewport point at (u, v). */
  function GetRay(c: Camera, u: real, v: real): (r: Ray)
    ensures r.st == c.origin
    ensures Add(r.dir, c.origin) == Add(Add(c.lowerLeftCorner, Scale(c.horizontal, u)), Scale(c.vertical, v))
  {
    Timeless(c.origin, Sub(Add(Add(c.lowerLeftCorner, Scale(c.horizontal, u)), Scale(c.vertical, v)), c.origin))
  }

  /**
   * The direction of a ray of a camera placed like the default one (see
   * `DefaultCameraAxes` and `DefaultCameraCorner`), as a function of the
   * viewport coordinates: x runs from -16/9 to 16/9 and y from -1 to 1 at z = -1.
   */
  lemma GetRayOfDefaultShape(c: Camera, u: real, v: real)
    requires c.origin == Zero && c.lowerLeftCorner == Vec3(-16.0 / 9.0, -1.0, -1.0)
    requires c.horizontal == Vec3(32.0 / 9.0, 0.0, 0.0) && c.vertical == Vec3(0.0, 2.0, 0.0)
    ensures GetRay(c, u, v).dir == Vec3(-16.0 / 9.0 + Mul(32.0 / 9.0, u), -1.0 + Mul(2.0, v), -1.0)
  {
  }

  /** The centre of the viewport lies straight ahead. */
  lemma DefaultCentreRay()
    ensures GetRay(DefaultCamera(), 0.5, 0.5).dir == Vec3(0.0, 0.0, -1.0)
  {
    DefaultCameraAxes();
    DefaultCameraCorner();
    GetRayOfDefaultShape(DefaultCamera(), 0.5, 0.5);
  }

  /** The direction is affine in (u, v): moving by (du, dv) adds `horizontal*du + vertical*dv`. */
  lemma GetRayAffine(c: Camera, u: real, v: real, du: real, dv: real)
    ensures GetRay(c, u + du, v + dv).dir ==
      Add(GetRay(c, u, v).dir, Add(Scale(c.horizontal, du), Scale(c.vertical, dv)))
  {
  }
}
