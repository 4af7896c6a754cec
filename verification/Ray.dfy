/** The ray `origin + t * direction` of ray.h, stamped with the time it was emitted. */
module Rays {
  import opened Vectors

  datatype Ray = Ray(origin: Vec3, direction: Vec3, time: real)

  /** The two-argument constructor, which delegates with time 0. */
  function MakeRay(origin: Vec3, direction: Vec3): (r: Ray)
    ensures r.origin == origin && r.direction == direction && r.time == 0.0
  {
    Ray(origin, direction, 0.0)
  }

  /** `at(t)`: the point reached after travelling `t` times the direction. */
  function At(r: Ray, t: real): Vec3 {
    Add(r.origin, Scale(t, r.direction))
  }

  /** The ray starts at its origin, and two points on it differ by a multiple of the direction. */
  lemma AtProperties(r: Ray, s: real, t: real)
    ensures At(r, 0.0) == r.origin
    ensures Sub(At(r, s), At(r, t)) == Scale(s - t, r.direction)
  {
  }
}
