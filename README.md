# A verified model of the Raytracer path tracer's core

This project models, in Dafny, the discrete core of a Rust path tracer that
follows the "Ray Tracing in One Weekend" series: `raytracer/src` and its
second-book variants under `Book2/`. It covers the following parts:

- the vector and ray algebra, the orthonormal basis and the default camera;
- the axis-aligned bounding box and its slab test;
- the hittable objects, in both of the repository's interfaces:
  - the older out-parameter interface (`&mut HitRecord`, returning a flag),
    modelled by the datatype `Objects.Object`, the function `Objects.HitOut`
    and methods that write a `HitRecords.Record`;
  - the newer `Option`-returning interface, modelled by `Shapes.Shape` and
    `Shapes.Hit`;
- both bounding volume hierarchy builders;
- the two Perlin noise generators;
- the textures, the materials and the cosine density;
- the depth-bounded `ray_color` of the first book's tutorial snapshot.

Modelling choices:

- `f64` is modelled as exact `real` arithmetic.
- `sqrt`, `sin`, `cos`, `acos`, `atan2` and `ln` are the fields of a `Basic.Libm` value passed in.
  - Their laws are hypotheses: `SqrtLaw`, `TrigLaw`, `AngleLaw` and `LnLaw`.
  - The laws say that the square root is the non-negative root, that sine and cosine lie in [-1, 1] with sin² + cos² = 1, the ranges of `acos` and `atan2`, and that `ln` is non-positive on (0, 1].
- Every random draw is a parameter, or a position in a stream of draws, with its range as a precondition.
- The open set of trait objects (`Hittable`, `Material`, `Texture`) becomes closed datatypes.
- Where the code mutates, the model mutates too:
  - classes with `modifies` clauses for the hit record, the orthonormal basis and the hittable list;
  - arrays for the Perlin permutation, the corners of the rotated box and the axes of the basis, and loops wherever the code loops;
  - each method is proved against a function that states what it computes.

## Model

| member | source | states |
|---|---|---|
| Basic.Fmin | raytracer/src/basic/mod.rs:7-13 | `fmin` returns one of its arguments and is at most both |
| Basic.Fmax | raytracer/src/basic/mod.rs:15-21 | `fmax` returns one of its arguments and is at least both |
| Basic.Clamp | raytracer/src/basic/mod.rs:23-31 | the result lies in `[min, max]` when `min <= max`, is the value itself inside that range, `min` below it and `max` above it, and equals `fmax(min, fmin(value, max))`; at code/book1/8_2/main.rs:32-40 the tutorial's `clamp` is the same expression: it stays within `[min, max]` and is the identity inside it |
| Basic.ClampIdempotent | raytracer/src/basic/mod.rs:23-31 | clamping twice is clamping once |
| Basic.DegreesToRadians | raytracer/src/basic/mod.rs:33-35 | the result times 180 is the angle times PI |
| Basic.DegreesToRadiansFacts | raytracer/src/basic/mod.rs:33-35 | 180 degrees is PI, 0 is 0, and the conversion is additive and homogeneous (linear); at raytracer/src/hittable.rs:9-11 the copy in hittable.rs is the same linear conversion |
| Basic.Abs | Book2/basic/vec3.rs:128-131 | `abs` is non-negative and is `x` or `-x` (used by `near_zero`) |
| Vectors.Vec3.E | Book2/basic/vec3.rs:142-153 | component 0, 1 and 2 are `x()`, `y()` and `z()` |
| Vectors.LengthSquared | Book2/basic/vec3.rs:138-140 | the squared length is never negative |
| Vectors.AddSubCancel | Book2/basic/vec3.rs:18-30 | `(a + b) - b == a` and `(a - b) + b == a` componentwise |
| Vectors.DotFacts | Book2/basic/vec3.rs:44-49 | `dot` (which `Vec3 * Vec3` computes) is symmetric, `length_squared(v) == dot(v, v)`, and `dot` is additive and homogeneous in its first argument; at raytracer/src/vec3.rs:29-34 the older `Vec3 * Vec3` and `dot` are the same symmetric product, with `length_squared(v) == dot(v, v)` |
| Vectors.CrossFacts | Book2/basic/vec3.rs:175-183 | `cross(u, v)` is orthogonal to `u` and to `v`, and `cross(u, v) == -cross(v, u)`; at raytracer/src/vec3.rs:118-122 the older `cross` is anticommutative and orthogonal to both inputs |
| Vectors.LengthSquaredAddScaled | Book2/basic/vec3.rs:138-140 | the squared length of `a + b*t` expands to `|a|² + 2t(a·b) + t²|b|²` |
| Vectors.SqrtOfSquare | Book2/basic/vec3.rs:133-136 | under the square-root law, `sqrt(s*s) == s` for `s >= 0` |
| Vectors.SqrtUnique | Book2/basic/vec3.rs:133-136 | under the square-root law, `sqrt(x)` is the one non-negative `y` with `y*y == x` |
| Vectors.NonZeroIsLong | Book2/basic/vec3.rs:138-140 | a non-zero vector has positive squared length |
| Vectors.ScaleLengthSquared | Book2/basic/vec3.rs:51-58 | scaling by `k` multiplies the squared length by `k²`, and `dot(v*k, v) == k|v|²` |
| Vectors.UnitVectorIsUnit | Book2/basic/vec3.rs:185-187 | a non-zero vector has positive length; `unit_vector` of it has length 1 and its dot product with the vector is the vector's length |
| Vectors.DotOfUnits | Book2/basic/vec3.rs:171-173 | the dot product of two unit vectors lies in [-1, 1] |
| Vectors.NearZeroIsShort | Book2/basic/vec3.rs:128-131 | a vector that `near_zero` accepts (every component below 1e-8 in absolute value) has squared length below 3e-16 |
| Vectors.ReflectAsAdd | Book2/basic/vec3.rs:221-223 | `reflect(v, n)` is `v + n * (-2 dot(v, n))` |
| Vectors.ReflectFlipsNormalPart | Book2/basic/vec3.rs:221-223 | for a unit `n`, `dot(reflect(v, n), n) == -dot(v, n)` |
| Vectors.ReflectKeepsLength | Book2/basic/vec3.rs:221-223 | reflecting about a unit normal keeps the squared length |
| Vectors.ReflectInvolution | Book2/basic/vec3.rs:221-223 | reflecting twice about the same unit normal gives the vector back |
| Vectors.RefractSameMedium | Book2/basic/vec3.rs:225-230 | with `etai_over_etat == 1`, a unit ray meeting a unit normal from its front side passes through unbent |
| Vectors.RandomUnitVector | Book2/basic/vec3.rs:198-200 | `random_unit_vector` (the normalised draw inside the unit sphere) has length 1 |
| Vectors.RandomDoubleLr | Book2/basic/vec3.rs:9-12 | for a draw in [0, 1), `random_double_lr(min, max)` lies in `[min, max)` |
| Vectors.RandomIntLr | Book2/basic/vec3.rs:217-219 | for a draw in [0, 1) and `0 <= min <= max`, `random_int_lr(min, max)` lies in `[min, max]` |
| Vectors.TruncToward0 | Book2/basic/vec3.rs:217-219 | the `as isize` cast truncates toward zero: the floor for non-negative values, the ceiling for negative ones |
| Vectors.RandomInUnitSphere | Book2/basic/vec3.rs:189-196 | the loop returns the first attempt strictly inside the unit sphere (length squared < 1), after rejecting every earlier one |
| Vectors.RandomInUnitDisk | Book2/basic/vec3.rs:202-215 | the loop returns the first attempt inside the unit disk, with z = 0, after rejecting every earlier one |
| Vectors.MutVec3.AddAssign | Book2/basic/vec3.rs:32-42 | `+=` leaves `*self` equal to `self + other`; at raytracer/src/vec3.rs:19-27 the older `+=` gives the same value as `+` |
| Vectors.MutVec3.SubAssign | Book2/basic/vec3.rs:86-96 | `-=` leaves `*self` equal to `self - other`; at raytracer/src/vec3.rs:65-73 the older `-=` gives the same value as `-` |
| Vectors.MutVec3.MulAssign | Book2/basic/vec3.rs:60-70 | `*= t` leaves `*self` equal to `self * t`; at raytracer/src/vec3.rs:45-53 the older `*=` gives the same value as `*` |
| Vectors.MutVec3.DivAssign | Book2/basic/vec3.rs:105-115 | `/= x` for `x != 0` leaves `*self` equal to `self / x`; at raytracer/src/vec3.rs:82-90 the older `/=` gives the same value as `/` |
| Rays.Ray.GetStart | raytracer/src/basic/ray.rs:11-13 | `get_start` returns the stored start |
| Rays.Ray.GetDir | raytracer/src/basic/ray.rs:14-16 | `get_dir` returns the stored direction |
| Rays.Ray.GetTime | raytracer/src/basic/ray.rs:20-22 | `get_time` returns the stored time |
| Rays.Ray.At | raytracer/src/basic/ray.rs:17-19 | `at(t) - st == dir * t` |
| Rays.AtFacts | raytracer/src/basic/ray.rs:17-19 | `at(0) == get_start()`, `at(1) == st + dir`, and `at(t) - at(s) == dir * (t - s)` (affine); at raytracer/src/vec3.rs:145-147 the time-less `at` starts at `st` and is `st + dir*t` |
| Rays.Timeless | raytracer/src/vec3.rs:133-147 | the time-less `Ray { st, dir }` keeps its start and direction |
| OrthoBasis.HelperAxis | raytracer/src/basic/onb.rs:26-30 | the helper axis is (0,1,0) when `|w.x| > 0.9` and (1,0,0) otherwise |
| OrthoBasis.HelperAxisNotParallel | raytracer/src/basic/onb.rs:26-31 | a unit `w` is never parallel to its helper axis, so the cross product is non-zero and can be normalised |
| OrthoBasis.CrossLength | raytracer/src/basic/onb.rs:31-32 | Lagrange's identity `|a × b|² = |a|²|b|² - (a·b)²`, which makes `v` and `u` unit vectors |
| OrthoBasis.FromW | raytracer/src/basic/onb.rs:24-33 | `w = unit_vector(n)`, `v = unit_vector(cross(w, a))`, `u = cross(w, v)`; the three axes are unit vectors and pairwise orthogonal |
| OrthoBasis.LocalOfAxes | raytracer/src/basic/onb.rs:21-23 | `local_vec` maps (1,0,0), (0,1,0) and (0,0,1) to `u`, `v` and `w` |
| OrthoBasis.LocalOfAdditive | raytracer/src/basic/onb.rs:21-23 | `local_vec` preserves sums |
| OrthoBasis.LocalOfHomogeneous | raytracer/src/basic/onb.rs:21-23 | `local_vec` preserves scalar multiples |
| OrthoBasis.LocalOfCoordinates | raytracer/src/basic/onb.rs:21-33 | in the basis built from `n`, the dot product of `local_vec(a)` with `w` is `a.z` |
| OrthoBasis.Onb.Axes | raytracer/src/basic/onb.rs:4-7 | the basis value is the three stored axes |
| OrthoBasis.Onb.U | raytracer/src/basic/onb.rs:9-11 | `u()` returns `axis[0]` |
| OrthoBasis.Onb.V | raytracer/src/basic/onb.rs:12-14 | `v()` returns `axis[1]` |
| OrthoBasis.Onb.W | raytracer/src/basic/onb.rs:15-17 | `w()` returns `axis[2]` |
| OrthoBasis.Onb.Local | raytracer/src/basic/onb.rs:18-20 | `local(a, b, c)` is `local_vec` of (a, b, c) |
| OrthoBasis.Onb.LocalVec | raytracer/src/basic/onb.rs:21-23 | `local_vec(v)` is `u*v.x + v*v.y + w*v.z`, and equals `local(v.x, v.y, v.z)` |
| OrthoBasis.Onb.BuildFromW | raytracer/src/basic/onb.rs:24-33 | writing `axis[2]`, then `axis[1]`, then `axis[0]` in place leaves the orthonormal basis `FromW(n)` |
| Cameras.ViewportCamera | raytracer/src/camera.rs:13-39 | the camera sits at the origin, the horizontal edge is `(aspect*height, 0, 0)`, the vertical edge `(0, height, 0)`, and the lower-left corner `(-aspect*height/2, -height/2, -focal)` |
| Cameras.DefaultCameraAxes | raytracer/src/camera.rs:14-25 | the default camera has origin (0,0,0), horizontal (32/9, 0, 0) and vertical (0, 2, 0) |
| Cameras.DefaultCameraCorner | raytracer/src/camera.rs:26-31 | the default lower-left corner is (-16/9, -1, -1) |
| Cameras.GetRay | raytracer/src/camera.rs:43-49 | the ray starts at the camera's origin, and its direction plus the origin is `lower_left_corner + horizontal*u + vertical*v` |
| Cameras.GetRayOfDefaultShape | raytracer/src/camera.rs:43-49 | for the default camera the direction is `(-16/9 + 32/9 u, -1 + 2v, -1)` |
| Cameras.DefaultCentreRay | raytracer/src/camera.rs:43-49 | `get_ray(0.5, 0.5)` of the default camera has direction exactly (0, 0, -1) |
| Cameras.GetRayAffine | raytracer/src/camera.rs:43-49 | the direction is affine in (u, v): moving by (du, dv) adds `horizontal*du + vertical*dv` |
| HitRecords.WithFaceNormal | raytracer/src/hittable/mod.rs:30-37 | `front_face` holds exactly when the ray meets the outward side (`dot(dir, outward) < 0`); the stored normal is the outward normal then and its negation otherwise, so it never points along the ray; no other field changes; at Book2/hittable/mod.rs:29-36 Book2's `set_face_normal` is the same update |
| HitRecords.FaceNormalReapplied | raytracer/src/hittable/translate.rs:23-24 | calling `set_face_normal` again with the normal already stored keeps that normal and sets `front_face` true, unless the ray runs along the surface |
| HitRecords.FaceNormalReappliedTangent | raytracer/src/hittable/translate.rs:23-24 | when the ray runs along the surface (`dot == 0`), the reapplied normal leaves `front_face` false |
| HitRecords.Created | Book2/hittable/mod.rs:39-59 | `creat` stores `p`, `t`, `u`, `v` and the material as given; `front_face` and the normal are those `set_face_normal` gives, so the zero normal and `false` it starts from never survive |
| HitRecords.Record.SetFaceNormal | raytracer/src/hittable.rs:25-32 | writing `front_face` and then `normal` in place leaves the record equal to `WithFaceNormal` of the record before the call |
| HitRecords.Record.Creat | Book2/hittable/mod.rs:39-59 | building the record in place and then calling `set_face_normal` gives `Created` |
| HitRecords.Record.Assign | raytracer/src/hittable/hittable_list.rs:31 | `*rec = temp_rec.clone()` leaves the record equal to the copied one |
| BoundingBox.Aabb.Min | raytracer/src/bvh/aabb.rs:18-21 | `min()` returns the stored minimum corner |
| BoundingBox.Aabb.Max | raytracer/src/bvh/aabb.rs:14-17 | `max()` returns the stored maximum corner |
| BoundingBox.InsideComponents | raytracer/src/bvh/aabb.rs:7-11 | a point lies in the box exactly when every coordinate lies between the two corners |
| BoundingBox.SurroundingBox | raytracer/src/bvh/aabb.rs:39-60 | `surrounding_box` encloses both boxes and is enclosed by every box that encloses both: it is their least upper bound |
| BoundingBox.SurroundingBoxLaws | raytracer/src/bvh/aabb.rs:39-60 | `surrounding_box` is commutative, associative and idempotent |
| BoundingBox.EnclosesInside | raytracer/src/bvh/aabb.rs:39-60 | a box that encloses another holds every point the other holds |
| BoundingBox.EnclosesTransitive | raytracer/src/bvh/aabb.rs:39-60 | enclosing is transitive, so nested surrounding boxes hold everything below them |
| BoundingBox.WindowLo | raytracer/src/bvh/aabb.rs:23-31 | narrowing `t_min` by the first `k` slabs gives the largest of `t_min` and those slabs' entry times |
| BoundingBox.WindowHi | raytracer/src/bvh/aabb.rs:23-31 | narrowing `t_max` by the first `k` slabs gives the smallest of `t_max` and those slabs' exit times |
| BoundingBox.Hit | raytracer/src/bvh/aabb.rs:22-36 | the corrected slab test, which narrows the window axis by axis, succeeds exactly when the narrowed window is non-empty (`Overlaps`) |
| BoundingBox.WindowMonotone | raytracer/src/bvh/aabb.rs:22-36 | narrowing by more axes never widens the window |
| BoundingBox.EmptyWindowMisses | raytracer/src/bvh/aabb.rs:31-33 | an empty window (`t_max <= t_min`) is never hit, by the corrected test or by the test as written |
| BoundingBox.SlabMeaning | raytracer/src/bvh/aabb.rs:24-29 | on axis `i` the ray is within the slab (closed or open) exactly while `t` lies between the two slab times, after the swap for a negative `1/dir` |
| BoundingBox.SlabOrdered | raytracer/src/bvh/aabb.rs:24-29 | on an axis where the box is not inverted, the swap leaves `t0 <= t1` |
| BoundingBox.OverlapsReachesBox | raytracer/src/bvh/aabb.rs:22-36 | when the corrected test succeeds, the ray is inside the box at some `t` strictly inside the window (soundness) |
| BoundingBox.InteriorHitOverlaps | raytracer/src/bvh/aabb.rs:22-36 | when the ray passes through the box's interior at some `t` strictly inside the window, the corrected test succeeds (completeness) |
| BoundingBox.HitAsWritten | raytracer/src/bvh/aabb.rs:22-36 | `Aabb::hit` as written succeeds exactly when every axis on its own passes against the caller's unnarrowed window (`PassesAsWritten`); the tree nodes are given this test, their own `Aabb` files not being part of this model |
| BoundingBox.OverlapsPassesEveryAxis | raytracer/src/bvh/aabb.rs:22-36 | the test as written never rejects a box that the corrected test accepts: every axis passes |
| BoundingBox.AsWrittenAcceptsMiss | raytracer/src/bvh/aabb.rs:22-36 | for the unit cube and the ray from (-3, 0, 0) along (1, 1, 1), the test as written passes in the window (0, 10) while the narrowed window is empty |
| BoundingBox.CounterexampleMisses | raytracer/src/bvh/aabb.rs:22-36 | no point of that ray with `0 < t < 10` lies in the cube |
| BoundingBox.CounterexampleExists | raytracer/src/bvh/aabb.rs:22-36 | the unit cube and that ray form the counterexample |
| Spheres.SphereQuadratic | raytracer/src/hittable/sphere.rs:26-29 | `a` is the direction's squared length |
| Spheres.SphereQuadraticMeaning | raytracer/src/hittable/sphere.rs:26-30 | the quadratic `a t² + 2 half_b t + c` at `t` is `|at(t) - center|² - radius²`, so its roots are the parameters on the sphere |
| Spheres.RootsSolve | raytracer/src/hittable/sphere.rs:34-37 | for `a > 0` and a non-negative discriminant, both `(-half_b ∓ sqrtd)/a` solve the quadratic, and the first is not after the second |
| Spheres.QuadraticRoot | raytracer/src/hittable/sphere.rs:34-37 | a `t` with `t a = s - half_b` and `s² = half_b² - a c` solves the quadratic |
| Spheres.ChooseRoot | raytracer/src/hittable/sphere.rs:35-41 | the chosen root lies in the closed window and is one of the two roots; the nearer root wins when it lies in the window; there is none exactly when neither root does |
| Spheres.ChooseRootNarrowed | raytracer/src/hittable/sphere.rs:35-41 | lowering `t_max` keeps the root chosen in the wider window when it lies at or before the new bound, and otherwise finds none |
| Spheres.SphereRoot | raytracer/src/hittable/sphere.rs:26-41 | no root for a negative discriminant; otherwise the root `ChooseRoot` picks (a zero direction, which divides by zero in the source, gives none) |
| Spheres.SphereRootNarrowed | raytracer/src/hittable/sphere.rs:26-41 | the sphere's root keeps the same narrowing property as `ChooseRoot` |
| Spheres.SphereRootFacts | raytracer/src/hittable/sphere.rs:26-41 | a reported parameter lies in the window and its point `at(t)` lies on the sphere |
| Spheres.RootOnSphere | raytracer/src/hittable/sphere.rs:34-37 | either root gives a point at distance `radius` from the centre |
| Spheres.SolvesQuadratic | raytracer/src/hittable/sphere.rs:34-37 | either root solves the sphere's quadratic |
| Spheres.SphereRootNearest | raytracer/src/hittable/sphere.rs:35-41 | the reported root is never after the far root |
| Spheres.SphereUv | raytracer/src/hittable/sphere.rs:17-22 | `u = (atan2(-p.z, p.x) + PI)/(2 PI)` and `v = acos(-p.y)/PI` both lie in [0, 1] |
| Spheres.SphereBox | raytracer/src/hittable/sphere.rs:51-63 | the box runs from `center - (r, r, r)` to `center + (r, r, r)` |
| Spheres.SphereBoxHolds | raytracer/src/hittable/sphere.rs:51-63 | every point on a sphere of non-negative radius lies in its box |
| Spheres.MovingCenter | raytracer/src/hittable/moving_sphere.rs:20-24 | `center(time)` is `center0` at `time0` and `center1` at `time1` |
| Spheres.ScaleThenDivide | raytracer/src/hittable/moving_sphere.rs:22-23 | scaling a vector by `d` and dividing by `d` gives it back, for `d != 0` |
| Spheres.MovingCenterAffine | raytracer/src/hittable/moving_sphere.rs:20-24 | between two times the centre moves by `center1 - center0` times the elapsed fraction of `time1 - time0` |
| Spheres.MovingSphereBox | raytracer/src/hittable/moving_sphere.rs:57-82 | the box encloses the radius boxes around the centres at `t0` and at `t1` |
| Rects.FixedAxis | raytracer/src/hittable/aarect.rs:22 | the plane of an xy, xz or yz rectangle fixes one of the three axes |
| Rects.FirstAxis | raytracer/src/hittable/aarect.rs:26-31 | the axis `u` runs along differs from the fixed axis |
| Rects.SecondAxis | raytracer/src/hittable/aarect.rs:26-32 | the axis `v` runs along differs from both others |
| Rects.Place | raytracer/src/hittable/aarect.rs:41-46 | the point with the given coordinates on the two free axes and on the fixed axis |
| Rects.OutwardNormal | raytracer/src/hittable/aarect.rs:33 | the outward normal is the unit vector along the fixed axis |
| Rects.RectCrossingFacts | raytracer/src/hittable/aarect.rs:21-38 | a reported crossing lies in the window; `at(t)` lies in the plane and within both sides; `u` and `v` are the point's fractions along the sides; at raytracer/src/hittable/aarect.rs:75-91 the xz rectangle's test has the same meaning with the y axis fixed; at raytracer/src/hittable/aarect.rs:115-133 the yz rectangle's test has the same meaning with the x axis fixed |
| Rects.RectCrossingNarrowed | raytracer/src/hittable/aarect.rs:22-24 | lowering `t_max` keeps exactly the crossings at or before the new bound, since `t` does not depend on the window |
| Rects.RectUvInRange | raytracer/src/hittable/aarect.rs:31-32 | on a rectangle with `x0 < x1` and `y0 < y1` (or the other planes' sides) both `u` and `v` lie in [0, 1] |
| Rects.RectBox | raytracer/src/hittable/aarect.rs:39-49 | the box is the rectangle thickened by 0.0001 on each side of its plane |
| Rects.RectBoxHolds | raytracer/src/hittable/aarect.rs:39-49 | every point the rectangle reports lies in its box |
| Shapes.SphereHit | raytracer/src/hittable/sphere.rs:25-50 | a hit exactly when `SphereRoot` finds a root; the record is the one `creat` builds at that root, with normal `(at(root) - center)/radius` and `u`, `v` from `get_sphere_uv` |
| Shapes.MovingSphereHit | raytracer/src/hittable/moving_sphere.rs:28-56 | a hit exactly when the sphere around the centre at the ray's time has a root in the window; `u = v = 0` |
| Shapes.RectHit | raytracer/src/hittable/aarect.rs:21-38 | a hit exactly when the rectangle test finds a crossing; the record is `creat`'s, with the axis normal |
| Shapes.MovedRay | raytracer/src/hittable/translate.rs:13-17 | the ray moved back by `offset`, with the same direction and time |
| Shapes.Translated | raytracer/src/hittable/translate.rs:22-25 | `p` moves by `offset`; `t`, `u`, `v` and the material are kept; the normal points against the moved ray, and is kept with `front_face` set when the ray meets it from the front |
| Shapes.Flipped | raytracer/src/hittable/flip_face.rs:13-25 | `front_face` is negated and every other field kept |
| Shapes.MediumSpan | raytracer/src/hittable/constant_medium.rs:50-61 | the entry is raised to `t_min` and the exit lowered to `t_max`; nothing when the entry is not before the exit; then the entry is raised to 0. The span is not negative, lies within the window and the boundary's exit, and is non-empty when it ends after 0 |
| Shapes.MediumEvent | raytracer/src/hittable/constant_medium.rs:63-80 | a scattering event has normal (1, 0, 0), `front_face` true, `u = v = 0`, the phase function, and `p = at(t)` |
| Shapes.MediumEventInside | raytracer/src/hittable/constant_medium.rs:63-70 | for a positive density and a draw in (0, 1], the event lies between the entry and the exit |
| Shapes.Hit | raytracer/src/hittable/constant_medium.rs:41-81 | `hit` reads draws only forward in the stream |
| Shapes.HitFacts | raytracer/src/hittable/sphere.rs:25-50 | without a medium, `hit` reads no draw, every reported `t` lies in the closed window, and the reported normal points against the ray |
| Shapes.FlipFaceTwice | raytracer/src/hittable/flip_face.rs:13-25 | flipping twice reports exactly what the inner object reports |
| Shapes.TranslateHit | raytracer/src/hittable/translate.rs:12-27 | `Translate` misses exactly when the object misses the moved ray; a hit is the object's record shifted by `offset`, with its `t`, `u`, `v` and material, and `front_face` set unless the ray runs along the surface |
| Shapes.MediumHitFacts | raytracer/src/hittable/constant_medium.rs:41-81 | a medium hit carries normal (1, 0, 0), `front_face` true, `u = v = 0`, the phase function and `p = at(t)`; for a positive density and draws in (0, 1] its `t` lies in the window and is not negative |
| Shapes.HitNarrowed | Book2/bvh/mod.rs:28-37 | lowering `t_max` keeps a surface's hit when it lies at or before the new bound and loses it otherwise, which is what the node relies on when it asks the right child up to the left child's `t` |
| Shapes.NodeHit | Book2/bvh/mod.rs:17-50 | `BvhNode::hit`, with `Aabb::hit` as written for the box test, reads draws only forward in the stream |
| Shapes.NodeNearest | Book2/bvh/mod.rs:17-50 | nothing when the box test as written fails; otherwise a hit exactly when either child is hit, and then the nearer child's record, the right child's on a tie; a node with only a left child reports that child's hit |
| Shapes.BoxAdmits | Book2/bvh/mod.rs:18 | the node's box test on a window with a possibly infinite end, taken to be `Aabb::hit` of raytracer/src/bvh/aabb.rs as written, which an empty window (`t_min = +inf` or `t_max = -inf`) never passes |
| Shapes.BoxAdmitsFinite | raytracer/src/bvh/aabb.rs:22-36 | on a finite window the test is exactly `Aabb::hit` as written, and it passes every box the corrected slab test accepts |
| Shapes.MediumHit | raytracer/src/hittable/constant_medium.rs:41-81 | the medium's `hit` reads its draws only forward in the stream |
| Shapes.BoundingBoxOf | raytracer/src/hittable/translate.rs:28-38 | `bounding_box` of every shape of this family returns `true`: spheres, moving spheres, rectangles, boxes, translated and flipped shapes, media and nodes all report a box, so the flag is never `false` |
| Shapes.HitInsideBox | raytracer/src/hittable/sphere.rs:51-63 | every point that a fixed sphere of positive radius or a rectangle reports, moved or flipped, lies in the box it reports |
| Objects.DefaultRecord | raytracer/src/hittable/mod.rs:18-27 | `HitRecord::default()` has zero vectors and numbers, `front_face == false` and no material |
| Objects.SphereWrite | raytracer/src/sphere.rs:33-37 | once a root is picked the sphere writes `t = root`, `p = at(root)`, the material, and the face normal from `(p - center)/radius`, so the normal points against the ray; `u` and `v` keep what the record held |
| Objects.SphereOutAsWritten | raytracer/src/sphere.rs:15-40 | `Sphere::hit` as written: a negative discriminant returns `false` and writes nothing; otherwise the record is written with the last root tried, even when both roots are outside the window |
| Objects.SphereMissWrites | raytracer/src/sphere.rs:26-39 | when both roots lie outside the window, the sphere as written returns `false` but leaves the record holding the far root, its point, normal and material; the corrected sphere leaves the record alone |
| Objects.SphereMissExample | raytracer/src/sphere.rs:26-39 | a sphere with quadratic `t² - 6t + 8` (roots 2 and 4) and the window [5, 10]: as written `hit` returns `false` and overwrites `t` with 4 |
| Objects.SphereOut | raytracer/src/sphere.rs:15-40 | the corrected sphere: a hit exactly when `SphereRoot` finds a root in the window; on a hit the record is `SphereWrite` at that root, and on a miss it is left as it was |
| Objects.SphereOutMatchesAsWritten | raytracer/src/sphere.rs:15-40 | the corrected and the as-written sphere return the same flag, and on a hit they leave the same record |
| Objects.RectOut | raytracer/src/aarect.rs:19-39 | a hit exactly when the rectangle test finds a crossing; then `u`, `v`, `t`, `p = at(t)`, the material and the face normal are written, and on a miss nothing is |
| Objects.RotateForward | raytracer/src/hittable/rotate_y.rs:70-76 | the rotation applied to the ray keeps `y` |
| Objects.RotateBack | raytracer/src/hittable/rotate_y.rs:89-93 | the rotation applied to the reported point and normal keeps `y` |
| Objects.RotationInverse | raytracer/src/hittable/rotate_y.rs:70-93 | when `sin² + cos² = 1` the back rotation undoes the forward one, and the other way round |
| Objects.RotatedRay | raytracer/src/hittable/rotate_y.rs:67-82 | the rotated ray keeps the `y` of its origin and direction, and its time |
| Objects.RotatedRecord | raytracer/src/hittable/rotate_y.rs:87-96 | `p` is rotated back; `t`, `u`, `v` and the material are kept; the normal points against the rotated ray |
| Objects.HitOut | raytracer/src/hittable.rs:35-37 | `hit` leaves the record untouched when it returns `false`, for every object that holds no sphere below a node or transform (`CleanMiss`), and every reported `t` lies in `[t_min, t_max]` for every object whose nodes have a right child that misses cleanly (`Sound`); a sphere below a node can break both, as `BvhOverwriteExample` shows |
| Objects.Scan | raytracer/src/hittable/hittable_list.rs:23-35 | after any prefix of the list, with no hit yet the record is untouched and `closest_so_far` is `t_max`; after a hit `closest_so_far` is the record's `t`, which lies in the window when every member is `Sound` |
| Objects.HitObject | raytracer/src/hittable.rs:35-37 | `hit` on a record passed by `&mut` leaves the flag and the record that `HitOut` gives, the sphere writing its far root on a miss and the node using `Aabb::hit` as written |
| Objects.ScanList | raytracer/src/hittable/hittable_list.rs:23-35 | the loop over the members, with its own `temp_rec`, returns the flag and leaves the record that `Scan` gives after the whole list |
| Objects.HittableList.Add | raytracer/src/hittable/hittable_list.rs:17-19 | `add` appends the object after the members already there |
| Objects.HittableList.Hit | raytracer/src/hittable/hittable_list.rs:23-35 | the list's `hit` returns the flag and leaves the record that `HitOut` gives for the list |
| Objects.HittableList.BoundingBox | raytracer/src/hittable/hittable_list.rs:37-57 | the corrected `bounding_box` (`ListBox`): `false` for an empty list or at the first member without a box; otherwise the first member's box widened by each further member's |
| Objects.DefaultBox | raytracer/src/bvh/aabb.rs:7-11 | `Aabb::default()` has both corners at the origin |
| Objects.BoxScanAsWritten | raytracer/src/hittable/hittable_list.rs:41-55 | the fold as written returns `false` whenever the first member reports a box |
| Objects.BoxScanAsWrittenIndependent | raytracer/src/hittable/hittable_list.rs:41-55 | once the fold as written has seen a member, its whole state no longer depends on what `output_box` held before |
| Objects.BoxScanAsWrittenMeaning | raytracer/src/hittable/hittable_list.rs:41-55 | the fold as written keeps `ret` true exactly when none of the members seen reports a box |
| Objects.ListBoxAsWrittenMeaning | raytracer/src/hittable/hittable_list.rs:37-57 | the list's `bounding_box` as written reports a box exactly when the list is non-empty and no member reports one, so a tree cannot be built over a list of spheres |
| Objects.ListBox | raytracer/src/hittable/hittable_list.rs:37-57 | the corrected `bounding_box` of a list: `false` with `output_box` untouched for an empty list |
| Objects.ListBoxFlagInverted | raytracer/src/hittable/hittable_list.rs:44-55 | for a one-sphere list the code as written returns `false` with the sphere's box, and so does a translated copy of it, while the corrected fold returns `true` with the same box |
| Objects.BoxScanIndependent | raytracer/src/hittable/hittable_list.rs:41-55 | once the fold has seen a member, whether it succeeds, and its whole state when it does, do not depend on what `output_box` held before |
| Objects.BoxIndependent | raytracer/src/hittable/hittable_list.rs:37-57 | whether an object reports a box, and the box it reports, do not depend on what `output_box` held before |
| Objects.BoxScanMeaning | raytracer/src/hittable/hittable_list.rs:41-55 | the corrected fold over `n >= 1` members succeeds exactly when each of them reports a box, and then its box encloses every member's box |
| Objects.BoxScanStops | raytracer/src/hittable/hittable_list.rs:41-55 | once the corrected fold has stopped with `false`, later members change nothing |
| Objects.ListBoxMeaning | raytracer/src/hittable/hittable_list.rs:37-57 | the corrected `bounding_box` is `false` for an empty list and otherwise `true` exactly when every member reports a box; the box then encloses every member's box |
| Objects.LeafT | raytracer/src/sphere.rs:15-40 | the parameter of a sphere's or rectangle's hit lies in `[t_min, t_max]` |
| Objects.LeafHit | raytracer/src/aarect.rs:19-39 | a sphere or rectangle reports a hit exactly at `LeafT`, with `p = at(t)`, whatever the record held; at raytracer/src/sphere.rs:15-40 the sphere as written agrees on the flag and on a hit |
| Objects.BoxPasses | raytracer/src/bvh.rs:17 | the node's box test, taken to be `Aabb::hit` of raytracer/src/bvh/aabb.rs as written; it passes every box the corrected slab test accepts |
| Objects.BoxOut | raytracer/src/hittable.rs:37 | `bounding_box` through the trait, a list answering with its fold as written: only a list or a translated object can return `false`, and an empty list returns `false` with `output_box` untouched |
| Objects.LeafNarrowed | raytracer/src/hittable/hittable_list.rs:28-30 | lowering `t_max` keeps a leaf's hit when it lies at or before the new bound and loses it otherwise |
| Objects.NearestStep | raytracer/src/hittable/hittable_list.rs:27-33 | one step of the list's loop keeps the invariant "nearest hit so far, ties going to the later member" |
| Objects.NearestHitStep | raytracer/src/hittable/hittable_list.rs:28-31 | a member that hits at or before the nearest hit so far becomes the nearest, and the last member at its `t` |
| Objects.NearestKeepStep | raytracer/src/hittable/hittable_list.rs:27-33 | a member that misses, or hits strictly after the nearest so far, leaves the nearest hit as it was |
| Objects.NearestNoneStep | raytracer/src/hittable/hittable_list.rs:27-33 | with no hit so far, a member that misses leaves the scan without a hit |
| Objects.ScanNearest | raytracer/src/hittable/hittable_list.rs:23-35 | after `n` members the scan has hit exactly when one of them hits in the whole window; its `t` is at most each such member's, and it is the `t` of a member that no later member ties |
| Objects.ListNearest | raytracer/src/hittable/hittable_list.rs:23-35 | the list's `hit` over spheres and rectangles reports the nearest of the members' hits at `p = at(t)`, and leaves the record alone on a miss |
| Objects.BvhNearest | raytracer/src/bvh.rs:16-30 | a node whose box test (as written) fails returns `false` and leaves the record alone; otherwise it hits exactly when either child does; it reports the right child's `t` when that is not after the left's; when the left child is strictly nearer, the result is the left child's record, overwritten by a sphere on the right with its far root when that root is outside `[t_min, t_left]` |
| Objects.NodeExampleQuadratics | raytracer/src/bvh.rs:16-30 | unit spheres at z = -2 and z = -10, seen from the origin along -z, have the quadratics `t² - 4t + 3` and `t² - 20t + 99`, and the ray has zero x and y components |
| Objects.AxisSphereQuadratic | raytracer/src/sphere.rs:16-19 | a unit sphere at distance `d` down the -z axis, seen from the origin along -z, has the quadratic `t² - 2dt + (d² - 1)` |
| Objects.NodeExampleFar | raytracer/src/sphere.rs:16-19 | the sphere at z = -10 has the quadratic `t² - 20t + 99` |
| Objects.NodeExampleRoots | raytracer/src/sphere.rs:21-28 | that quadratic has discriminant 1 and roots `d - 1` and `d + 1` |
| Objects.NodeExampleLeft | raytracer/src/sphere.rs:15-40 | the near sphere hits at `t = 1` in [0.001, 100] |
| Objects.NodeExampleRight | raytracer/src/sphere.rs:26-39 | the far sphere alone hits at `t = 9`; asked up to `t_max = 1` it returns `false` after writing `t = 11` |
| Objects.BvhOverwriteExample | raytracer/src/bvh.rs:16-30 | a node over the two spheres, in the window [0.001, 100]: its children hit at 1 and 9, yet the node reports a hit with `t = 11`, outside what either child reports |
| Objects.NodeExampleExists | raytracer/src/bvh.rs:16-30 | the example's two centres, radius and ray exist |
| Objects.TranslateOut | raytracer/src/hittable.rs:47-60 | `Translate` hits exactly when the object hits the moved ray; the point is shifted by `offset`, `t`, `u`, `v` and the material are the object's, and `front_face` is set unless the ray runs along the surface; a miss leaves the record the object left, which is the caller's when the object misses cleanly |
| Objects.RotateYOut | raytracer/src/hittable/rotate_y.rs:66-100 | `RotateY` hits exactly when the object hits the rotated ray, with the object's `t`, `u`, `v`, material and `y`; rotating the reported point forward gives the object's point when `sin² + cos² = 1`; a miss leaves the record the object left, which is the caller's when the object misses cleanly |
| Objects.Pick | raytracer/src/hittable/rotate_y.rs:34-36 | `i as f64 * max + (1 - i as f64) * min` is `min` for `i = 0` and `max` for `i = 1` |
| Objects.TesterAt | raytracer/src/hittable/rotate_y.rs:31-41 | corner `(i, j, k)` is the `4i + 2j + k`-th tester, in the loops' order |
| Objects.FoldStep | raytracer/src/hittable/rotate_y.rs:43-46 | each tester folds its components into the running `min_` with `fmin` and into `max_` with `fmax` |
| Objects.FoldMinBounds | raytracer/src/hittable/rotate_y.rs:43-46 | the running minimum lies at or below every tester folded in so far, and is one of them |
| Objects.FoldMaxBounds | raytracer/src/hittable/rotate_y.rs:43-46 | the running maximum lies at or above every tester folded in so far, and is one of them |
| Objects.Widen | raytracer/src/hittable/rotate_y.rs:43-46 | the loop over `c` leaves each component of `min_` and `max_` at the `fmin` or `fmax` of its old value and the tester's |
| Objects.TakeCorner | raytracer/src/hittable/rotate_y.rs:34-46 | one pass of the innermost loop extends "`min_` and `max_` hold the extent of the first `n` testers" from `n` to `n + 1` |
| Objects.CornerBox | raytracer/src/hittable/rotate_y.rs:28-53 | the three nested loops leave the box `RotatedBox`, the extent of the eight rotated corners |
| Objects.RotateYCreat | raytracer/src/hittable/rotate_y.rs:21-62 | `creat` stores the sine and cosine of the angle in radians, the child's box flag over [0, 1], and the box of the child's rotated corners |
| Objects.RotatedBoxTight | raytracer/src/hittable/rotate_y.rs:28-53 | the stored box holds every rotated corner, and it is the least box that does |
| Objects.RotatedBox | raytracer/src/hittable/rotate_y.rs:28-53 | the box of the eight rotated corners is well formed: its minimum is at or below its maximum on each axis |
| Objects.RotatedBoxKeepsY | raytracer/src/hittable/rotate_y.rs:28-53 | rotating about the y axis keeps the y extent of a well-formed box |
| Objects.CornerInRotatedBox | raytracer/src/hittable/rotate_y.rs:28-53 | every corner, rotated, lies within the stored box on each axis |
| Objects.RotatedBoxBounds | raytracer/src/hittable/rotate_y.rs:50-53 | every point of the child's box, rotated back as `hit` rotates the points it reports, lies in the stored box |
| Objects.RotatedHitInBox | raytracer/src/hittable/rotate_y.rs:84-104 | when the child reports points inside its box, `RotateY` reports points inside the box it returns from `bounding_box` |
| Objects.BoxSides | raytracer/src/hittable/mybox.rs:21-70 | `creat` adds six sides |
| Objects.BoxCreat | raytracer/src/hittable/mybox.rs:16-77 | `Box::creat` keeps the two corners and the list the six sides were added to |
| Objects.BoxSidesFaces | raytracer/src/hittable/mybox.rs:21-70 | the sides are pairs of xy, xz and yz rectangles sharing the material; each spans `p0` to `p1` on its free axes and sits at `p1` (first of the pair) or `p0` (second) on its fixed axis |
| Objects.BoxValid | raytracer/src/hittable/mybox.rs:16-77 | a box whose corners differ on every axis has sides whose `hit` never divides by zero |
| Objects.FacePointInside | raytracer/src/hittable/mybox.rs:84-90 | a point on a face of the box lies in `Aabb(p0, p1)` |
| Objects.BoxHitInside | raytracer/src/hittable/mybox.rs:80-90 | every point that a box with `p0 < p1` on each axis reports lies in `Aabb(p0, p1)`, the box its `bounding_box` returns |
| Sorting.Insert | Book2/bvh/mod.rs:110-118 | inserting keeps every element, adds one, and keeps a sorted sequence sorted |
| Sorting.InsertHead | Book2/bvh/mod.rs:110-118 | the head of a sorted sequence, placed in front of the insertion into its tail, keeps it sorted |
| Sorting.Sort | Book2/bvh/mod.rs:110-118 | `sort_by` with the `box_compare` ordering returns a permutation of its input |
| Sorting.SortSorted | Book2/bvh/mod.rs:110-118 | the sorted vector is ordered by the key `box_compare` compares |
| Sorting.KeyRun | Book2/bvh/mod.rs:110-118 | the elements with one key, in order: each of them has that key |
| Sorting.InsertKeyRun | Book2/bvh/mod.rs:110-118 | an inserted element goes ahead of every element with its own key |
| Sorting.SortStable | Book2/bvh/mod.rs:110-118 | `sort_by` is stable: the elements of each key keep their relative order |
| Sorting.PermutationMembers | raytracer/src/bvh.rs:93-102 | a sorted range holds the same objects: each original object sits at some index of the result |
| Bits.AndLowMask | raytracer/src/texture/perlin.rs:83-85 | `n & (2^k - 1)` is `n mod 2^k` |
| Bits.MaskLowByte | raytracer/src/texture/perlin.rs:83-85 | `(i + di) & 255` on an `isize` is the Euclidean remainder `(i + di) mod 256`, also for negative values, so the index is always in `0..256`; at raytracer/src/perlin.rs:64-66 the older noise masks its lattice coordinates the same way |
| Bits.XorBelow | raytracer/src/texture/perlin.rs:83-85 | the exclusive or of two values below 256 is below 256, so the hashed index stays inside `ranvec` |
| Bits.CornerIndexValue | raytracer/src/texture/perlin.rs:59 | `(i << 2) \| (j << 1) \| k` for bits `i`, `j`, `k` is `4i + 2j + k`; at raytracer/src/perlin.rs:41 the older interpolation indexes its corners the same way |
| Bits.DivModUnique | raytracer/src/texture/perlin.rs:83-85 | quotient and remainder are unique, which ties the mask to the Euclidean remainder |
| Bits.ModDouble | raytracer/src/texture/perlin.rs:83-85 | the remainder modulo `2d` in terms of the low bit and the remainder of `n / 2` modulo `d` |
| Bvh.BoxCompare | raytracer/src/bvh.rs:37-45 | `box_compare(a, b, axis)` is true exactly when `a`'s `AxisKey` on the axis is below `b`'s; its `exit(0)` on a missing box becomes the precondition |
| Bvh.AxisKey | raytracer/src/bvh.rs:47-57 | the key `box_x_compare`, `box_y_compare` and `box_z_compare` compare: the low corner of the box at times (0, 0) on axis 0, 1 or 2; it has no contract of its own |
| Bvh.SortRange | raytracer/src/bvh.rs:93-102 | sorting `objects[st..ed]` leaves the rest of the clone untouched, permutes the range and orders it by the drawn axis's key |
| Bvh.NodeOver | raytracer/src/bvh.rs:108-123 | a node over two children holds them as its left and right child and is valid |
| Bvh.Creat | raytracer/src/bvh.rs:62-124 | `BvhNode::creat(src, st, ed, t0, t1)` builds a node with both children present; it consumes at least one draw; for two objects the left has the smaller key on the drawn axis; every object of the range is held by the tree and its box is enclosed by the root's box |
| Bvh.HalvesCover | raytracer/src/bvh.rs:104-122 | when each half of the sorted range is covered by its child, the node covers the range as it was before sorting |
| Bvh.CoveredVia | raytracer/src/bvh.rs:122 | what a child holds and encloses, its parent holds and encloses |
| Bvh.SortedPlaceable | raytracer/src/bvh.rs:93-102 | sorting the range keeps every object in it placeable |
| Bvh.SliceIndex | raytracer/src/bvh.rs:93-102 | an index into the sorted slice is an index into the whole vector shifted by `st` |
| Bvh.NodeBox | raytracer/src/bvh.rs:31-34 | a node reports a box, and it is the stored `box_` |
| Book2Bvh.BoxCompare | Book2/bvh/mod.rs:57-65 | `box_compare(a, b)` is true exactly when `a`'s key on the axis is below `b`'s; every shape reports a box, so `exit(0)` is never reached |
| Book2Bvh.AxisKey | Book2/bvh/mod.rs:67-77 | the key `box_x_compare`, `box_y_compare` and `box_z_compare` compare; it has no contract of its own |
| Book2Bvh.ShapeBox | Book2/bvh/mod.rs:58-60 | the box a shape writes into a default `Aabb`; it has no contract of its own, and `BoundingBoxOf` states that the flag is always `true` |
| Book2Bvh.NodeOf | Book2/bvh/mod.rs:126-146 | the node keeps the children as picked, and its box encloses each present child's box (the surrounding box of both, or of the one child with itself) |
| Book2Bvh.Creat | Book2/bvh/mod.rs:82-148 | `BvhNode::creat` builds a node with a left child, and a right child exactly when there is more than one object; it consumes at least one draw; two objects are ordered by their key on the drawn axis; every object is held by the tree and its box is enclosed by the root's box |
| Book2Bvh.NodeBox | Book2/bvh/mod.rs:51-54 | a node reports its stored `box_` |
| Book2Bvh.SortedValid | Book2/bvh/mod.rs:110-118 | sorting keeps every shape valid |
| Book2Bvh.HalvesCover | Book2/bvh/mod.rs:119-124 | when each half of the sorted vector is covered by its child, the node covers the vector as it was before sorting |
| Book2Bvh.CoveredVia | Book2/bvh/mod.rs:140-146 | what a child holds and encloses, its parent holds and encloses |
| Perlin.Swap | raytracer/src/texture/perlin.rs:29-33 | an exchange keeps the table's length |
| Perlin.SwapFacts | raytracer/src/texture/perlin.rs:29-33 | the two entries trade places, every other entry stays, and the table's multiset is unchanged |
| Perlin.DrawnSlots | raytracer/src/texture/perlin.rs:27-28 | step `n` of the scan draws `random_int_lr(0, i)` with `i = len - 1 - n`, a slot in `[0, i]` |
| Perlin.Shuffled | raytracer/src/texture/perlin.rs:27-34 | the table keeps its length through the scan |
| Perlin.ShuffledPermutes | raytracer/src/texture/perlin.rs:26-35 | whatever the draws, `permute` only rearranges the table |
| Perlin.ShuffledSettles | raytracer/src/texture/perlin.rs:27-34 | an entry the scan has passed is final: the last `n` entries after `n` steps are those of the finished table |
| Perlin.SwapEntries | raytracer/src/texture/perlin.rs:29-33 | the copies exchanged by `std::mem::swap` and written back leave the array with the two entries exchanged |
| Perlin.Permute | raytracer/src/texture/perlin.rs:26-35 | the in-place loop from the last index down leaves the array equal to `Shuffled` of its old contents, a permutation of them; at raytracer/src/perlin.rs:13-22 the older `permute` is the same scan |
| Perlin.Iota | raytracer/src/texture/perlin.rs:38-41 | pushing `0 .. n` in order gives the table whose entry `k` is `k` |
| Perlin.PermutationEntries | raytracer/src/texture/perlin.rs:37-44 | a permutation of `0 .. n-1` has every entry below `n` and holds every value below `n` |
| Perlin.GeneratePerm | raytracer/src/texture/perlin.rs:37-44 | `perlin_generate_perm` returns the identity table of 256 entries shuffled by the drawn slots: a permutation of `0 .. 255`; at raytracer/src/perlin.rs:24-31 the older `perlin_generate_perm` is the same |
| Perlin.Mask | raytracer/src/texture/perlin.rs:83-85 | `(x & 255) as usize` is `x mod 256`, an index below 256 |
| Perlin.FloorToIsize | raytracer/src/texture/perlin.rs:75-77 | `floor() as isize` is the floor whenever that fits in an `isize`, and saturates at the ends of the range otherwise |
| Perlin.Hash | raytracer/src/texture/perlin.rs:83-85 | the hashed index of a lattice corner is always below 256, a valid index into `ranvec` |
| Perlin.CornerIndex | raytracer/src/texture/perlin.rs:59 | `(i << 2) \| (j << 1) \| k` is a corner number below 8 whose loop bits are `(i, j, k)` |
| Perlin.CornerBitsSplit | raytracer/src/texture/perlin.rs:52-59 | the loop bits of a corner number below 8 are bits and spell it out as `4i + 2j + k` |
| Perlin.CornerBitsOf | raytracer/src/texture/perlin.rs:52-59 | the corner number `4i + 2j + k` has loop bits `(i, j, k)` |
| Perlin.Smooth | raytracer/src/texture/perlin.rs:47-49 | the smoothstep fixes 0 and 1 and maps [0, 1) into [0, 1); at raytracer/src/perlin.rs:52-54 the older noise smooths its fractions with the same polynomial |
| Perlin.SmoothUnit | raytracer/src/texture/perlin.rs:47-49 | `x² (3 - 2x)` lies in [0, 1) for `x` in [0, 1) |
| Perlin.Weight | raytracer/src/texture/perlin.rs:55-57 | the loop-bit weight `b s + (1 - b)(1 - s)` is `1 - s` at 0 and `s` at 1 |
| Perlin.WeightCases | raytracer/src/texture/perlin.rs:55-57 | the weight as the source writes it equals the case split |
| Perlin.PerlinInterp | raytracer/src/texture/perlin.rs:46-68 | the triple loop returns the sum over the eight corners of weight times `dot(gradient, offset)` |
| Perlin.Interp | raytracer/src/texture/perlin.rs:46-68 | the value `PerlinInterp` returns; it has no contract of its own, and `InterpAtLattice` states its value at lattice points |
| Perlin.InterpStep | raytracer/src/texture/perlin.rs:52-63 | the loop step for corner `(i, j, k)` adds the term of corner number `4i + 2j + k` |
| Perlin.InterpAtLattice | raytracer/src/texture/perlin.rs:46-68 | at a lattice point (fractions 0) the interpolation is 0 |
| Perlin.TermAtLattice | raytracer/src/texture/perlin.rs:55-63 | at fractions 0 every corner's term is 0: corner 0's offset is zero and the others have weight 0 |
| Perlin.ZeroTerms | raytracer/src/texture/perlin.rs:51-67 | when every corner term is 0 the accumulator stays 0 |
| Perlin.Corners | raytracer/src/texture/perlin.rs:78-89 | the eight gradients of the cell, in push order |
| Perlin.CornerOrder | raytracer/src/texture/perlin.rs:79-89 | the corners are pushed in the order `(di << 2) \| (dj << 1) \| dk`, so the interpolation reads corner `(di, dj, dk)`'s gradient `ranvec[hash]` at the index it computes |
| Perlin.Noise | raytracer/src/texture/perlin.rs:70-91 | `noise(p)` returns `NoiseOf(p)`: the cell's gradients interpolated at the fractional parts |
| Perlin.NoiseOf | raytracer/src/texture/perlin.rs:70-91 | the value `Noise` returns; it has no contract of its own, and `NoiseAtLattice` states its value at lattice points |
| Perlin.NoiseAtLattice | raytracer/src/texture/perlin.rs:70-91 | at a lattice point the gradient noise is 0 |
| Perlin.Turb | raytracer/src/texture/perlin.rs:14-24 | `turb(p, depth)` is the absolute value of the octave sum of `0.5^n noise(2^n p)` over `n < depth`; it is never negative, and it is 0 for depth 0 |
| Perlin.TurbSum | raytracer/src/texture/perlin.rs:14-24 | the octave sum whose absolute value `Turb` returns; it has no contract of its own |
| Perlin.TurbStep | raytracer/src/texture/perlin.rs:18-22 | each octave adds `0.5^n noise(2^n p)` to the sum |
| Perlin.Gradient | raytracer/src/texture/perlin.rs:98-100 | each gradient `unit_vector(Vec3::random_lr(-1, 1))` has length one |
| Perlin.Default | raytracer/src/texture/perlin.rs:94-109 | `default()` has 256 unit gradients from the first `3 × 256` draws, then three tables, each shuffled by the 256 draws after the previous one's |
| ValuePerlin.TrilinearInterp | raytracer/src/perlin.rs:33-46 | the triple loop returns the sum over the eight corners of weight times value |
| ValuePerlin.Trilinear | raytracer/src/perlin.rs:33-46 | the value `TrilinearInterp` returns; it has no contract of its own, and `TrilinearBetween`, `TrilinearAtCorner` and `TrilinearUnitRange` state its properties |
| ValuePerlin.TriStep | raytracer/src/perlin.rs:35-43 | the loop step for corner `(i, j, k)` adds the term of corner number `4i + 2j + k` |
| ValuePerlin.WeightsSumToOne | raytracer/src/perlin.rs:38-40 | the eight corner weights add up to 1, whatever the fractions |
| ValuePerlin.PartialWeights | raytracer/src/perlin.rs:38-40 | the weight sum written out corner by corner |
| ValuePerlin.WeightStep | raytracer/src/perlin.rs:35-43 | each loop step adds its corner's weight to the weight sum |
| ValuePerlin.EightProducts | raytracer/src/perlin.rs:38-40 | three pairs of factors summing to 1 give eight products summing to 1 |
| ValuePerlin.CornerWeightNonNegative | raytracer/src/perlin.rs:38-40 | for fractions in [0, 1] no corner weight is negative |
| ValuePerlin.TrilinearBetween | raytracer/src/perlin.rs:33-46 | for fractions in [0, 1] the interpolation is a weighted average: it lies between any bounds of the eight corner values |
| ValuePerlin.PartialBounds | raytracer/src/perlin.rs:34-45 | the running sum stays between `lo` and `hi` times the running weight sum |
| ValuePerlin.BoundStep | raytracer/src/perlin.rs:38-41 | adding a non-negative weight times a value in `[lo, hi]` keeps those running bounds |
| ValuePerlin.TrilinearAtCorner | raytracer/src/perlin.rs:33-46 | at each corner of the cell the interpolation returns that corner's value |
| ValuePerlin.TrilinearAtCorners | raytracer/src/perlin.rs:33-46 | it returns `c[0]` at (0, 0, 0) and `c[7]` at (1, 1, 1) |
| ValuePerlin.OneCornerSum | raytracer/src/perlin.rs:34-45 | when only corner `m` contributes, the running sum is `c[m]` once the loop has passed it, and 0 before |
| ValuePerlin.TermAt | raytracer/src/perlin.rs:38-41 | at a lattice point a corner's term is its value at its own corner and 0 elsewhere |
| ValuePerlin.WeightFull | raytracer/src/perlin.rs:38-40 | a corner carries the whole weight at its own position |
| ValuePerlin.WeightVanishes | raytracer/src/perlin.rs:38-40 | a corner carries no weight at the other corners of the cell |
| ValuePerlin.Corners | raytracer/src/perlin.rs:59-70 | the eight values of the cell, in push order |
| ValuePerlin.Noise | raytracer/src/perlin.rs:48-72 | `noise(p)` returns `NoiseOf(p)`: the cell's values interpolated at the smoothed fractions |
| ValuePerlin.NoiseOf | raytracer/src/perlin.rs:48-72 | the value `Noise` returns; it has no contract of its own, and `NoiseRange` states its range |
| ValuePerlin.MaxOf | raytracer/src/perlin.rs:33-46 | the largest of a non-empty list of values is one of them and at least each of them |
| ValuePerlin.TrilinearUnitRange | raytracer/src/perlin.rs:33-46 | corner values in [0, 1) and fractions in [0, 1] give an interpolation in [0, 1) |
| ValuePerlin.NoiseRange | raytracer/src/perlin.rs:48-72 | with all values in [0, 1) the noise lies in [0, 1) |
| ValuePerlin.Default | raytracer/src/perlin.rs:75-90 | `default()` has the first 256 draws as its values, all in [0, 1), then three tables, each shuffled by the 256 draws after the previous one's |
| Textures.CheckerCreat | raytracer/src/texture/mod.rs:31-36 | `CheckerTexture::creat(a, b)` builds a well-formed checker of two solid colours; at raytracer/src/texture.rs:26-31 the older `creat` builds the same checker through `Arc`s |
| Textures.SolidConstant | raytracer/src/texture/mod.rs:18-22 | a solid colour's `value` is its colour, the same at every `u`, `v` and `p`; at raytracer/src/texture.rs:13-17 the older `SolidColor` behaves the same |
| Textures.CheckerPicks | raytracer/src/texture/mod.rs:39-48 | the checker shows its odd texture exactly where the sine product is negative and its even texture everywhere else, zero included; at raytracer/src/texture.rs:34-43 the older checker chooses the same way |
| Textures.CheckerCreatValue | raytracer/src/texture/mod.rs:31-48 | the checker made by `creat(a, b)` shows `b` on the negative cells and `a` on the others |
| Textures.MarbleRange | raytracer/src/texture/mod.rs:56-62 | the marble texture is grey and its shade lies in [0, 1], whatever the turbulence |
| Textures.MarbleShade | raytracer/src/texture/mod.rs:57-61 | `0.5 (1 + sin(scale z + 10 turb))` is a grey in [0, 1] |
| Textures.ValueNoiseShade | raytracer/src/texture.rs:50-54 | the value-noise texture is grey, its shade the noise at `p * scale`, and with values from [0, 1) the shade lies in [0, 1) |
| Textures.MarbleCreat | raytracer/src/texture/mod.rs:64-71 | `NoiseTexture::creat(sc)` keeps the scale and builds a well-formed gradient noise from the next `6 × 256` draws |
| Textures.ValueNoiseCreat | raytracer/src/texture.rs:56-62 | the older `creat(sc)` keeps the scale and builds a value noise with every value in [0, 1) from the next `4 × 256` draws |
| Textures.CastToUsize | raytracer/src/texture/mod.rs:97-98 | `x as usize` is 0 for `x <= 0`, and for non-negative `x` it is the floor: `n <= x < n + 1` |
| Textures.PixelColor | raytracer/src/texture/mod.rs:111-120 | each channel of a pixel scaled by `1/255` lies in [0, 1], and times 255 gives the byte back |
| Textures.EdgeIndex | raytracer/src/texture/mod.rs:97-109 | the index computed for an axis of `n` pixels is always below `n` |
| Textures.PixelIndex | raytracer/src/texture/mod.rs:97-109 | the cast-then-pull-back step returns `EdgeIndex`, an index below `n` |
| Textures.ImagePixel | raytracer/src/texture/mod.rs:95-109 | the column and row read at `(u, v)` lie inside the picture, whatever `u` and `v` |
| Textures.ImageValue | raytracer/src/texture/mod.rs:94-121 | `ImageTexture::value` returns `ImageColor(u, v)`, the colour of a pixel inside the picture, with every channel in [0, 1] |
| Textures.ImageColor | raytracer/src/texture/mod.rs:111-120 | every channel of the colour read at `(u, v)` lies in [0, 1] |
| Textures.GetPixel | raytracer/src/texture/mod.rs:113 | `get_pixel(i, j)` returns one of the picture's pixels |
| Textures.Value | raytracer/src/texture/mod.rs:10 | `value` of each texture; it has no contract of its own, and `SolidConstant`, `CheckerPicks`, `MarbleRange`, `ValueNoiseShade` and `ImageValue` state what each variant returns |
| Textures.ImagePixelPlace | raytracer/src/texture/mod.rs:95-109 | inside the picture the column is `floor(u · width)` and the row `floor((1 - v) · height)`; only the edges `u == 1` and `v == 0` are pulled back |
| Textures.ColumnPlace | raytracer/src/texture/mod.rs:95-103 | the column read at `u` is `floor(u · width)` inside [0, 1), the last column from 1 on, and 0 at or below 0 |
| Textures.RowPlace | raytracer/src/texture/mod.rs:96-108 | the row read at `v` is `floor((1 - v) · height)` inside (0, 1], the last row at or below 0, and 0 from 1 on |
| Textures.BelowEdge | raytracer/src/texture/mod.rs:97-109 | a coordinate in [0, 1) scales to an index below `n`, which the pull-back leaves alone |
| Textures.ImageClamped | raytracer/src/texture/mod.rs:95-96 | clamping the coordinates first changes nothing |
| Pdfs.RandomCosineDirection | raytracer/src/pdf/mod.rs:12-21 | for a second draw in [0, 1) `random_cosine_direction` returns a unit vector strictly above the horizontal plane |
| Pdfs.Creat | raytracer/src/pdf/mod.rs:27-34 | `CosinePdf::creat(w)` holds the basis `build_from_w(w)` makes |
| Pdfs.ValueRange | raytracer/src/pdf/mod.rs:37-45 | with a unit `w` axis the density is at most 1/PI, and equals `cosine / PI` wherever the direction is above the horizon |
| Pdfs.Value | raytracer/src/pdf/mod.rs:37-45 | the density is never negative, and 0 exactly where the unit direction is not above the `w` horizon |
| Pdfs.ValueScaleInvariant | raytracer/src/pdf/mod.rs:37-45 | `value` normalises its argument first, so stretching the direction by a positive factor changes nothing |
| Pdfs.UnitVectorScaled | raytracer/src/pdf/mod.rs:38 | `unit_vector(v * k) == unit_vector(v)` for `k > 0` |
| Pdfs.GeneratedIsLikely | raytracer/src/pdf/mod.rs:47-49 | a direction `generate` returns lies strictly on the `w` side, where `value` is positive |
| Pdfs.Generate | raytracer/src/pdf/mod.rs:47-49 | the direction `generate` returns; it has no contract of its own, and `GeneratedIsLikely` states that it lies where the density is positive |
| Materials.CappedFuzz | raytracer/src/material/mod.rs:146-153 | the fuzz `Metal::creat` stores is `f` capped at 1, and `f` itself below 1, a negative `f` included |
| Materials.MetalCreat | raytracer/src/material/mod.rs:146-153 | `Metal::creat(a, f)` keeps the albedo and stores the capped fuzz |
| Materials.LambertianCreat | raytracer/src/material/mod.rs:48-54 | `Lambertian::creat(c)` is a well-formed material with a solid-colour albedo |
| Materials.DiffuseLightCreatColor | raytracer/src/material/mod.rs:168-174 | `creat_color(c)` is a well-formed light |
| Materials.DiffuseLightCreatPtr | raytracer/src/material/mod.rs:176-181 | `creat_ptr(t)` of a well-formed texture is a well-formed light |
| Materials.IsotropicCreat | raytracer/src/material/mod.rs:208-214 | `Isotropic::creat(c)` is a well-formed material with a solid-colour albedo |
| Materials.LambertianScatter | raytracer/src/material/mod.rs:57-76 | the scatter always succeeds; the ray starts at the hit point at the incoming time along the unit vector of the generated cosine direction; the albedo is the texture at the hit; `pdf · PI` is the cosine against the basis' `w` axis, and it is positive |
| Materials.LambertianDensity | raytracer/src/material/mod.rs:65-79 | the density written by `scatter` is positive and, with a unit normal, equals `scattering_pdf` of the ray it wrote |
| Materials.ScatteringPdf | raytracer/src/material/mod.rs:77-80 | the density is never negative; for a Lambertian it is 0 exactly for directions not above the surface; every other material takes the trait's default of 0 (raytracer/src/material/mod.rs:32-34) |
| Materials.UnitOfUnit | raytracer/src/material/mod.rs:70 | a unit vector is its own `unit_vector` |
| Materials.MetalScatter | raytracer/src/material/mod.rs:83-101 | `Metal::scatter` writes the albedo and the fuzzed reflection at the incoming time, leaves the density alone, and succeeds exactly when the ray leaves on the normal's side |
| Materials.MirrorAccepts | raytracer/src/material/mod.rs:92-99 | a mirror (fuzz 0) with a unit normal accepts exactly the rays arriving against the normal |
| Materials.PowiUnit | raytracer/src/material/mod.rs:158-159 | powers of a number in [0, 1] stay in [0, 1] |
| Materials.PowiTwo | raytracer/src/material/mod.rs:126 | `x.powi(2)` is the square |
| Materials.R0Unit | raytracer/src/material/mod.rs:158 | for a non-negative index `r0` lies in [0, 1] |
| Materials.R0 | raytracer/src/material/mod.rs:158 | `r0` is 0 for an index of 1 |
| Materials.Reflectance | raytracer/src/material/mod.rs:157-160 | the reflectance is `r0` at `cosine = 1` and 1 at `cosine = 0` |
| Materials.ReflectanceBetween | raytracer/src/material/mod.rs:157-160 | for a non-negative index and a cosine in [0, 1] the reflectance lies between `r0` and 1; at raytracer/src/material.rs:121-126 the older `reflectance` is the same formula |
| Materials.DielectricScatter | raytracer/src/material/mod.rs:108-144 | `Dielectric::scatter` always succeeds with a white attenuation, sends the ray from the hit point at the incoming time along the reflection or refraction it chooses, and leaves the density alone |
| Materials.TotalInternalReflection | raytracer/src/material/mod.rs:128-135 | when `ratio · sin_theta > 1` the ray is reflected whatever the draw |
| Materials.DenserMediumRefracts | raytracer/src/material/mod.rs:118-135 | entering a denser medium with a unit normal the ray can always refract, and is reflected exactly when the reflectance beats the draw |
| Materials.DielectricDirection | raytracer/src/material/mod.rs:118-135 | the direction chosen is always the reflection or the refraction of the unit incoming direction with the stored ratio |
| Materials.CosThetaRange | raytracer/src/material/mod.rs:125 | with a unit normal `cos_theta` lies in [-1, 1] |
| Materials.SineAtMostOne | raytracer/src/material/mod.rs:126 | for a cosine in [-1, 1] `sin_theta` lies in [0, 1] |
| Materials.DiffuseLightScatter | raytracer/src/material/mod.rs:184-193 | a light never scatters and writes nothing |
| Materials.IsotropicScatter | raytracer/src/material/mod.rs:216-232 | the ray leaves the hit point toward the drawn point at the incoming time, the albedo is the texture at the hit, the density is untouched, and the scatter succeeds |
| Materials.Scatter | raytracer/src/material/mod.rs:16-26 | through the trait: a written ray starts at the hit point at the incoming time; only a Lambertian writes the density; a light fails and writes nothing; a metal succeeds exactly when the ray leaves on the normal's side; the others always succeed; each material's ray, albedo and density are those its own `scatter` gives |
| Materials.Emitted | raytracer/src/material/mod.rs:195-201 | only a light seen from its front face emits; there it shows its texture, and every other material or face gives black, the trait's default (raytracer/src/material/mod.rs:28-30) |
| PlainMaterials.MetalCreat | raytracer/src/material.rs:111-119 | `Metal::creat(a, f)` keeps the albedo and caps the fuzz at 1 |
| PlainMaterials.LambertianScatter | raytracer/src/material.rs:29-49 | always succeeds with the albedo; the ray leaves the hit point at the incoming time along the normal plus the random unit vector, or along the normal when that sum is near zero |
| PlainMaterials.LambertianLeavesSurface | raytracer/src/material.rs:36-41 | with a unit normal the chosen direction is never near zero and never points into the surface |
| PlainMaterials.MetalScatter | raytracer/src/material.rs:51-72 | writes the albedo and the fuzzed reflection at the incoming time, and succeeds exactly when the ray leaves on the normal's side |
| PlainMaterials.DielectricScatter | raytracer/src/material.rs:74-109 | always succeeds with a white attenuation and the direction the texture-based dielectric chooses |
| PlainMaterials.Scatter | raytracer/src/material.rs:8-15 | through the trait every ray starts at the hit point at the incoming time; Lambertian and Dielectric always succeed, Metal exactly when the ray leaves on the normal's side; each material's ray is the one its own `scatter` gives |
| Media.Creat | raytracer/src/hittable/constant_medium.rs:19-28 | `creat(b, d, a)` keeps the boundary, scatters isotropically with albedo `a`, and stores `-1/d`, negative for a positive density |
| Media.Creat2 | raytracer/src/hittable/constant_medium.rs:30-38 | `creat2(b, d, c)` is `creat` with a solid albedo `c` that every scatter in the fog carries |
| Tutorial.BounceNonZero | code/book1/8_2/main.rs:69-74 | a unit normal plus a point strictly inside the unit sphere never gives a zero direction |
| Tutorial.SkyRange | code/book1/8_2/main.rs:78-82 | the sky lies between white and (0.5, 0.7, 1); its blue channel is 1 |
| Tutorial.UnitComponent | code/book1/8_2/main.rs:79-80 | a component of a unit vector lies in [-1, 1] |
| Tutorial.RayColor | code/book1/8_2/main.rs:63-84 | every channel `ray_color` returns lies in [0, 1], at every depth, for scenes whose records carry unit normals |
| Tutorial.HitHalves | code/book1/8_2/main.rs:68-77 | on a hit the colour is half that of the bounced ray, one level deeper |
| Tutorial.ExhaustedIsBlack | code/book1/8_2/main.rs:64-65 | once the depth is used up the colour is black |
| Tutorial.MissShowsSky | code/book1/8_2/main.rs:78-82 | a ray that misses shows the sky, whose blue channel is 1 |
| Tutorial.ChannelByte | code/book1/8_2/main.rs:50-58 | the byte stored for a channel lies in [0, 255] and is the floor of `256 · clamp(c / samples, 0, 0.999)` |
| Tutorial.ChannelByteMonotone | code/book1/8_2/main.rs:50-58 | a brighter channel never stores a smaller byte |
| Tutorial.ChannelByteEnds | code/book1/8_2/main.rs:50-58 | black or negative stores 0; an average of 0.999 or more stores 255 |
| Tutorial.WriteColor | code/book1/8_2/main.rs:42-60 | the three bytes stored for a pixel are the channel bytes of its red, green and blue |
| Tutorial.PixelRow | code/book1/8_2/main.rs:49 | row `y` is written at image row `HEIGHT - y - 1`, inside the picture |

## Left out

- The demo and output drivers: raytracer/src/main.rs, the `main` of each tutorial snapshot, the scene setup, PPM/JPEG output and progress printing. They are I/O over hard-coded scenes.
- Files whose bodies repeat a modelled file: code/book1/8_2/vec3.rs, code/book1/7_2/camera.rs, code/book1/7_2/hittable.rs, Book2/hittable/mybox.rs and raytracer/src/hittable_list.rs. They are covered by the models of raytracer/src/vec3.rs, camera.rs, hittable/mod.rs, hittable/mybox.rs and hittable/hittable_list.rs.
- `ImageTexture::creat` (`image::open`) and the image decoding: foreign I/O. A picture is a width, a height and a row-major `seq` of RGB bytes; `get_pixel` indexes it.
- `write_color`'s write into the image buffer: I/O. The bytes it stores are `Tutorial.WriteColor` and the row is `Tutorial.PixelRow`.
- Floating point: `f64` is exact `real`. Rounding, infinities and NaN are not modelled. `sqrt`, the trigonometric functions and `ln` are known only through the laws in `Basic`.
- Divisions by a value that can be zero, where IEEE arithmetic gives an infinity or NaN, are handled in one of two ways. Some are reported as an outcome of their own:
  - a zero ray direction makes the sphere's `a` zero, and `Spheres.SphereRoot` reports no root, where the code's `0/0` root is NaN and passes the window test;
  - a zero direction component on a rectangle's fixed axis gives no crossing (`Rects.RectCrossing`), where the code compares an infinity or NaN with the window;
  - a zero ray direction inside a constant medium gives no scattering event (`Shapes.MediumEvent`), where the code divides the distance by a zero length;
  - a zero direction component makes the box test pass (`Objects.BoxPasses`, `Shapes.BoxAdmits`), where the code's slab times are infinities or NaN.
- The other divisions by a value that can be zero are preconditions. This covers:
  - a zero ray direction where a unit vector of it is taken;
  - a zero point drawn inside the unit sphere by `random_unit_vector` (`Vectors.RandomUnitVector` requires `inSphere != Zero`);
  - a zero normal in `build_from_w`;
  - `ir == 0` on the front face of a dielectric;
  - a zero density;
  - zero samples per pixel;
  - a zero radius;
  - equal `time0` and `time1`.
- The square root of a negative number is NaN in the code. The model's `sqrt` is constrained by `SqrtLaw` only on non-negative arguments, so such a root is an unconstrained real. Every call site has a precondition or guard that keeps its argument non-negative, except one: `Materials.DielectricDirection` on a record whose normal is longer than 1, where `1 - cos_theta²` can be negative. The properties proved about the dielectric (`DenserMediumRefracts`, `CosThetaRange`) assume a unit normal.
- The random number generator: every draw is a parameter or an entry of a stream of draws, with its range as a precondition. The distribution of the draws is not modelled.
- The rejection loops `random_in_unit_sphere` and `random_in_unit_disk`: they are given the sequence of candidate points, and their termination (which depends on the generator) is not modelled. The lemmas state what they return when some candidate is accepted.
- `permute` draws its slots with `random_int_lr(0, i)`; the slots are a parameter whose entries lie in `[0, i]`.
- `Vec::push`, `pop`, `split_off` and `sort_by` on values are operations on `seq`; three things are updated in place on an `array`: the Perlin permutation, the `min_` and `max_` corners `Objects.CornerBox` widens, and the three axes of `OrthoBasis.Onb`. The sharing of `Arc`/`Box` trait objects is not modelled, and neither are the `Send + Sync` bounds: no threaded code is shown.
- The open trait families `Hittable`, `Material` and `Texture` are closed datatypes of the variants the repository defines.
- `exit(0)` on a missing bounding box in `box_compare` and in both BVH `creat`s: it is a precondition that every object has a box.
- `BvhNode::creat` of raytracer/src/bvh.rs on an empty range recurses forever, and so does `Book2` `creat` on an empty Vec: both builders require a non-empty input.
- The `isize` and `usize` casts saturate only beyond the range of a machine word. `Perlin.FloorToIsize` models the saturation; `Textures.CastToUsize` is the floor of a non-negative value below the word's range.
- `ray_color`'s world is the function from a ray to the record `hit(r, 0, INFINITY)` writes, because that snapshot's scene is built in `main`. The snapshot's rays carry no time and are rays at time 0.
- Objects.HitOut: the out-parameter family is called with a finite window; `t_max = INFINITY` is modelled only in the `Option` family (`Shapes.Bound`).
- Objects.BoxPasses: a ray with a zero direction component passes the box test, where the code's slab times are infinities or NaN.
- Shapes.BoxAdmits: the same for the `Option`-returning family.
- Objects.HitOut: the record is promised to be untouched on a miss only for `CleanMiss` objects, and `t` to lie in the window only for `Sound` ones. raytracer/src/sphere.rs writes its far root on a miss, so a sphere below a node or transform breaks both (see Findings).
- Objects.BoxOut: raytracer/src/sphere.rs defines no `bounding_box`; its sphere is given the box of raytracer/src/hittable/sphere.rs.
- The tree nodes' `Aabb`: raytracer/src/bvh.rs imports raytracer/src/aabb.rs and Book2/bvh/mod.rs declares Book2/bvh/aabb.rs; neither file is part of this model. Both nodes are given the `Aabb::hit` of raytracer/src/bvh/aabb.rs:22-36 as written (`Objects.BoxPasses`, `Shapes.BoxAdmits`).
- Shapes.Hit: its own contract states only that the draw position never moves back. What a hit means is stated per variant by the lemmas about it (`HitFacts`, `FlipFaceTwice`, `TranslateHit`, `MediumHitFacts`, `HitNarrowed`, `NodeNearest`, `HitInsideBox`).
- Tutorial.RayColor: its range holds for scenes whose records carry unit normals, as spheres' records do; other scenes are not constrained.

## Findings

| source | as written | input that shows it | evidently intended | confidence | as-written member | corrected member |
|---|---|---|---|---|---|---|
| raytracer/src/bvh/aabb.rs:22-36 | each axis is tested against the caller's `t_min`/`t_max`, which the loop never narrows, so the box is accepted when every slab on its own overlaps the window; the tree nodes (raytracer/src/bvh.rs:17, Book2/bvh/mod.rs:18) call an `Aabb::hit` from raytracer/src/aabb.rs and Book2/bvh/aabb.rs, which are not part of this model; the model's nodes are given this text as written | the unit cube, the ray from (-3, 0, 0) along (1, 1, 1) and the window (0, 10): the x slab is crossed for t in [3, 4], the y and z slabs for t in [0, 1], no point of the ray lies in the cube, and the test accepts it | narrow the window to each slab's interval in turn, so the test accepts only rays that reach the box | high (not executed) | BoundingBox.HitAsWritten, BoundingBox.AsWrittenAcceptsMiss | BoundingBox.Hit, BoundingBox.OverlapsReachesBox, BoundingBox.CounterexampleMisses, BoundingBox.OverlapsPassesEveryAxis |
| raytracer/src/hittable/hittable_list.rs:44-55 | `ret` is set to `false` whenever a member reports a box, so the flag is true only when no member has one | a list holding one sphere: the function returns `false` with the sphere's box | return `true` exactly when the list is non-empty and every member reports a box | high (not executed) | Objects.BoxOut, Objects.ListBoxAsWrittenMeaning, Objects.ListBoxFlagInverted | Objects.ListBox, Objects.ListBoxMeaning, Objects.HittableList.BoundingBox |
| raytracer/src/sphere.rs:26-39 | when both roots lie outside the window, `rec.t`, `p`, the normal and the material are still overwritten with the farther root before `false` is returned; in raytracer/src/bvh.rs:16-30 the right child then overwrites the left child's record while the node still reports a hit | a sphere whose quadratic has roots 2 and 4, with the window [5, 10]: `hit` returns `false` and leaves `rec.t == 4`; a node over unit spheres at z = -2 and z = -10, hit from the origin along -z in [0.001, 100], reports a hit at `t = 11` | leave the record untouched on a miss, as raytracer/src/aarect.rs and the `Option`-returning sphere do | medium (not executed) | Objects.SphereOutAsWritten, Objects.SphereMissWrites, Objects.SphereMissExample, Objects.BvhOverwriteExample | Objects.SphereOut, Objects.SphereOutMatchesAsWritten |
