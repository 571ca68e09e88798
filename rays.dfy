// Rays (raytracer/src/basic/ray.rs, and the time-less `Ray` of
// raytracer/src/vec3.rs).

module Rays {
  import opened Vectors

  /** A ray from `st` along `dir`, sent at time `tm`. */
  datatype Ray = Ray(st: Vec3, dir: Vec3, tm: real)
  {
    /** `get_start`, `get_dir` and `get_time` return the stored fields. */
    function GetStart(): (p: Vec3)
      ensures p == st
    {
      st
    }

    function GetDir(): (d: Vec3)
      ensures d == dir
    {
      dir
    }

    function GetTime(): (t: real)
      ensures t == tm
    {
      tm
    }

    /** `at(t) = st + dir * t`: the point reached after parameter `t`. */
    function At(t: real): (p: Vec3)
      ensures Sub(p, st) == Scale(dir, t)
    {
      Add(st, Scale(dir, t))
    }
  }

  /**
   * The `Ray { st, dir }` of raytracer/src/vec3.rs has no time field; the
   * model gives it time 0, which nothing that uses it reads.
   */
  function Timeless(st: Vec3, dir: Vec3): (r: Ray)
    ensures r.st == st && r.dir == dir
  {
    Ray(st, dir, 0.0)
  }

  /** `at` starts at the origin, reaches `st + dir` at 1, and is affine. */
  lemma AtFacts(r: Ray, s: real, t: real)
    ensures r.At(0.0) == r.GetStart()
    ensures r.At(1.0) == Add(r.st, r.dir)
    ensures Sub(r.At(t), r.At(s)) == Scale(r.dir, t - s)
  {
  }
}
