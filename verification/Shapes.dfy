/**
 * The scene objects of Sphere.h, Quad.h and ConstantMedium.h and the two instancing wrappers
 * of Object.h, as one datatype answered by one `intersect`.
 */
module Shapes {
  import opened Opt
  import opened Intervals
  import opened Vectors
  import opened Rays
  import opened Boxes
  import opened Materials
  import opened Objects

  /**
   * The library calls behind `intersect` that the model does not compute: `std::sqrt` of the
   * sphere's discriminant, the two angles of `Sphere::get_tex_uv` (`theta = acos(-y)` and
   * `phi = atan2(-z, x) + pi`), and `std::log(sample_double())` of the constant medium, taken
   * as one draw per ray.
   */
  datatype Env = Env(sqrt: real -> real, sphereAngles: Vec3 -> (real, real), logSample: Ray -> real)

  /**
   * The square root of a number that is not negative is not negative and squares back to the
   * number; the log of a sample of `[0, 1)` is not positive.
   */
  ghost predicate EnvOk(env: Env) {
    (forall x :: x >= 0.0 ==> env.sqrt(x) >= 0.0 && env.sqrt(x) * env.sqrt(x) == x) &&
    (forall r :: env.logSample(r) <= 0.0)
  }

  /** `pi` of global.h. */
  const Pi: real := 3.1415926535897932385

  /** `acos` lies in `[0, pi]` and `atan2` in `[-pi, pi]`, so `phi` lies in `[0, 2 pi]`. */
  ghost predicate AnglesOk(env: Env) {
    forall p :: 0.0 <= env.sphereAngles(p).0 <= Pi && 0.0 <= env.sphereAngles(p).1 <= 2.0 * Pi
  }

  /** `u = phi / 2*pi` as written, which C++ groups as `(phi / 2) * pi`. */
  function TexUAsWritten(phi: real): real {
    phi / 2.0 * Pi
  }

  /** `u` as the comment of `get_tex_uv` describes it: the angle around y as a fraction of a turn. */
  function TexU(phi: real): (u: real)
    ensures 0.0 <= phi <= 2.0 * Pi ==> 0.0 <= u <= 1.0
  {
    phi / (2.0 * Pi)
  }

  /** `v = theta / pi`: the angle from the south pole as a fraction of a half turn. */
  function TexV(theta: real): (v: real)
    ensures 0.0 <= theta <= Pi ==> 0.0 <= v <= 1.0
  {
    theta / Pi
  }

  /**
   * The point `(1, 0, 0)` has `phi = atan2(0, 1) + pi = pi`, for which `get_tex_uv`'s own
   * comment promises `u = 0.5`; as written `u` is `pi^2 / 2`, outside `[0, 1]`.
   */
  lemma TexUAsWrittenOutOfRange()
    ensures TexUAsWritten(Pi) > 1.0
    ensures TexU(Pi) == 0.5
  {
  }

  /**
   * The objects. `Sphere` keeps its centre as a ray from `center1` (time 0) towards `center2`
   * (time 1); `Quad` keeps `normal` as `None` when `u` and `v` are parallel, since normalizing
   * their zero cross product gives NaN; `Medium` keeps `-1 / density`.
   */
  datatype Shape =
    | Sphere(center: Ray, radius: real, mat: Material, box: AABB)
    | Quad(q: Vec3, u: Vec3, v: Vec3, w: Vec3, normal: Option<Vec3>, d: real, mat: Material, box: AABB)
    | Medium(boundary: Shape, negInvDensity: real, phase: Material)
    | Translate(obj: Shape, offset: Vec3, box: AABB)
    | RotateY(obj: Shape, cosTheta: real, sinTheta: real, box: AABB)

  /** `get_AABB()`: the stored box; a medium answers with its boundary's box. */
  function BoxOf(s: Shape): AABB {
    match s
    case Medium(boundary, _, _) => BoxOf(boundary)
    case _ => s.box
  }

  /**
   * What the proofs need of a shape: every medium inside has a positive density (so the
   * scatter distance is not negative) and every rotation has `cos^2 + sin^2 = 1`.
   */
  predicate WellFormed(s: Shape) {
    match s
    case Sphere(_, _, _, _) => true
    case Quad(_, _, _, _, _, _, _, _) => true
    case Medium(boundary, negInvDensity, _) => negInvDensity <= 0.0 && WellFormed(boundary)
    case Translate(obj, _, _) => WellFormed(obj)
    case RotateY(obj, c, s, _) => c * c + s * s == 1.0 && WellFormed(obj)
  }

  // ---------------------------------------------------------------------------------------
  // Sphere
  // ---------------------------------------------------------------------------------------

  /** `p` lies in the cube around `center` of half-side `|r|`. */
  predicate InCube(p: Vec3, center: Vec3, r: real) {
    Abs(p.x - center.x) <= Abs(r) && Abs(p.y - center.y) <= Abs(r) && Abs(p.z - center.z) <= Abs(r)
  }

  /** The cube `center +- (r, r, r)` that the sphere constructors box, padded. */
  function CubeBox(center: Vec3, r: real): (b: AABB)
    ensures forall p: Vec3 :: InCube(p, center, r) ==> ContainsPoint(b, p) && StrictlyInside(b, p)
  {
    var rVec := Vec3(r, r, r);
    var lo, hi := Sub(center, rVec), Add(center, rVec);
    forall p | InCube(p, center, r)
      ensures ContainsPoint(FromPoints(lo, hi), p) && StrictlyInside(FromPoints(lo, hi), p)
    {
      if r >= 0.0 {
        FromPointsBetween(lo, hi, p);
      } else {
        FromPointsBetween(hi, lo, p);
        FromPointsSymmetric(lo, hi);
      }
    }
    FromPoints(lo, hi)
  }

  /**
   * The static sphere: the radius is stored as `fmax(0, radius)`, the centre does not move,
   * and the box is built from the radius as given.
   */
  function MakeSphere(center: Vec3, radius: real, mat: Material): (s: Shape)
    ensures s.Sphere? && s.mat == mat && s.radius >= 0.0
    ensures radius >= 0.0 ==> s.radius == radius
    ensures radius < 0.0 ==> s.radius == 0.0
    ensures forall t :: At(s.center, t) == center
    ensures s.center.time == 0.0
    ensures s.box == CubeBox(center, radius)
  {
    Sphere(MakeRay(center, Zero), if radius > 0.0 then radius else 0.0, mat, CubeBox(center, radius))
  }

  /**
   * The moving sphere: the centre runs from `center1` at time 0 to `center2` at time 1, and
   * the box holds the boxes around both end centres.
   */
  function MovingSphere(center1: Vec3, center2: Vec3, radius: real, mat: Material): (s: Shape)
    ensures s.Sphere? && s.mat == mat && s.radius >= 0.0
    ensures radius >= 0.0 ==> s.radius == radius
    ensures radius < 0.0 ==> s.radius == 0.0
    ensures At(s.center, 0.0) == center1 && At(s.center, 1.0) == center2
    ensures BoxWithin(CubeBox(center1, radius), s.box) && BoxWithin(CubeBox(center2, radius), s.box)
  {
    MovingEnds(center1, center2);
    var b1, b2 := CubeBox(center1, radius), CubeBox(center2, radius);
    Sphere(MakeRay(center1, Sub(center2, center1)), if radius > 0.0 then radius else 0.0, mat, Boxes.Union(b1, b2))
  }

  /** The moving centre is at `center1` at time 0 and at `center2` at time 1. */
  lemma MovingEnds(center1: Vec3, center2: Vec3)
    ensures At(MakeRay(center1, Sub(center2, center1)), 0.0) == center1
    ensures At(MakeRay(center1, Sub(center2, center1)), 1.0) == center2
  {
  }

  /**
   * The quadratic of `Sphere::intersect` for the centre at the ray's time: `a = |d|^2`,
   * `h = d . oc` and `c = |oc|^2 - radius^2` with `oc = center - origin`.
   */
  datatype Quadratic = Quadratic(a: real, h: real, c: real) {
    function Disc(): real {
      h * h - a * c
    }
  }

  function SphereQuadratic(center: Ray, radius: real, ri: Ray): (q: Quadratic)
    ensures q.a >= 0.0
  {
    var oc := Sub(At(center, ri.time), ri.origin);
    Quadratic(NormSquared(ri.direction), Dot(ri.direction, oc), NormSquared(oc) - radius * radius)
  }

  /**
   * The two roots `(h -+ sqrtd) / a` of `intersect`, or `None` when it returns before using
   * them: a negative discriminant, or a zero direction (`a == 0`), for which both roots are NaN
   * and fail the window test.
   */
  function SphereRoots(env: Env, center: Ray, radius: real, ri: Ray): (r: Option<(real, real)>)
    ensures var q := SphereQuadratic(center, radius, ri);
            (r.None? <==> q.Disc() < 0.0 || q.a == 0.0) &&
            (r.Some? ==> r.value == ((q.h - env.sqrt(q.Disc())) / q.a, (q.h + env.sqrt(q.Disc())) / q.a))
  {
    var q := SphereQuadratic(center, radius, ri);
    if q.Disc() < 0.0 || q.a == 0.0 then None
    else
      var sqrtd := env.sqrt(q.Disc());
      Some(((q.h - sqrtd) / q.a, (q.h + sqrtd) / q.a))
  }

  /** With a square root that is not negative the first root is the nearer one. */
  lemma RootOrder(env: Env, center: Ray, radius: real, ri: Ray)
    requires EnvOk(env)
    ensures var r := SphereRoots(env, center, radius, ri);
            r.Some? ==> r.value.0 <= r.value.1
  {
    var r := SphereRoots(env, center, radius, ri);
    if r.Some? {
      var q := SphereQuadratic(center, radius, ri);
      var sqrtd := env.sqrt(q.Disc());
      QuotientOrder(q.h - sqrtd, q.h + sqrtd, q.a);
    }
  }

  /**
   * Both roots are distances at which the ray meets the sphere: the point reached lies at
   * distance `radius` from the centre at the ray's time.
   */
  lemma SphereRootsOnSphere(env: Env, center: Ray, radius: real, ri: Ray)
    requires EnvOk(env)
    ensures var r, cc := SphereRoots(env, center, radius, ri), At(center, ri.time);
            r.Some? ==> NormSquared(Sub(At(ri, r.value.0), cc)) == radius * radius &&
                        NormSquared(Sub(At(ri, r.value.1), cc)) == radius * radius
  {
    var r := SphereRoots(env, center, radius, ri);
    if r.Some? {
      var q := SphereQuadratic(center, radius, ri);
      var sqrtd := env.sqrt(q.Disc());
      assert sqrtd * sqrtd == q.Disc();
      RootOnSphere(ri, At(center, ri.time), radius, q, sqrtd, r.value.0);
      RootOnSphere(ri, At(center, ri.time), radius, q, sqrtd, r.value.1);
    }
  }

  /** A root `(h -+ sqrtd) / a` of the sphere's quadratic reaches a point of the sphere. */
  lemma RootOnSphere(ri: Ray, cc: Vec3, radius: real, q: Quadratic, sqrtd: real, t: real)
    requires q.a == NormSquared(ri.direction) && q.h == Dot(ri.direction, Sub(cc, ri.origin))
    requires q.c == NormSquared(Sub(cc, ri.origin)) - radius * radius
    requires q.a != 0.0 && sqrtd * sqrtd == q.Disc()
    requires t == (q.h - sqrtd) / q.a || t == (q.h + sqrtd) / q.a
    ensures NormSquared(Sub(At(ri, t), cc)) == radius * radius
  {
    var d, oc := ri.direction, Sub(cc, ri.origin);
    NormAlong(ri.origin, d, cc, t);
    RootDistance(NormSquared(Sub(At(ri, t), cc)), NormSquared(d), Dot(d, oc), q.c, NormSquared(oc), radius * radius, sqrtd, t);
  }

  /** The scalar step of `RootOnSphere`: a root of the quadratic is at squared distance `r2`. */
  lemma RootDistance(n: real, a: real, h: real, c: real, o: real, r2: real, s: real, t: real)
    requires n == a * (t * t) - 2.0 * h * t + o && c == o - r2
    requires a != 0.0 && s * s == h * h - a * c
    requires t == (h - s) / a || t == (h + s) / a
    ensures n == r2
  {
    RootSolves(a, h, c, s, t);
  }

  /** The squared distance from `cc` along the ray is the quadratic `a t^2 - 2 h t + |oc|^2`. */
  lemma NormAlong(o: Vec3, d: Vec3, cc: Vec3, t: real)
    ensures NormSquared(Sub(Add(o, Scale(t, d)), cc)) ==
            NormSquared(d) * (t * t) - 2.0 * Dot(d, Sub(cc, o)) * t + NormSquared(Sub(cc, o))
  {
  }

  /** `(h -+ s) / a` solves `a t^2 - 2 h t + c = 0` when `s^2 = h^2 - a c`. */
  lemma RootSolves(a: real, h: real, c: real, s: real, t: real)
    requires a != 0.0 && s * s == h * h - a * c
    requires t == (h - s) / a || t == (h + s) / a
    ensures a * (t * t) - 2.0 * h * t + c == 0.0
  {
    var u := t * a;
    assert u == h - s || u == h + s;
    assert u * u - 2.0 * h * u + a * c == 0.0;
    assert a * (a * (t * t) - 2.0 * h * t + c) == u * u - 2.0 * h * u + a * c;
  }

  /** Dividing by a positive number keeps the order. */
  lemma QuotientOrder(x: real, y: real, a: real)
    requires a > 0.0 && x <= y
    ensures x / a <= y / a
  {
  }

  /**
   * The root `intersect` settles on: the first when the window surrounds it, otherwise the
   * second when the window surrounds that one, otherwise none. Of the roots the window
   * surrounds, the chosen one is the nearest.
   */
  function ChooseRoot(t1: real, t2: real, w: Interval): (r: Option<real>)
    ensures r.Some? ==> w.Surrounds(r.value) && (r.value == t1 || r.value == t2)
    ensures r.None? <==> !w.Surrounds(t1) && !w.Surrounds(t2)
    ensures t1 <= t2 && r.Some? ==> (w.Surrounds(t1) ==> r.value <= t1) && (w.Surrounds(t2) ==> r.value <= t2)
  {
    if w.Surrounds(t1) then Some(t1) else if w.Surrounds(t2) then Some(t2) else None
  }

  /**
   * Lowering the far end of the window keeps the chosen root when it is still surrounded, and
   * a root chosen in the smaller window is the one chosen in the larger.
   */
  lemma ChooseRootShrinks(t1: real, t2: real, w1: Interval, w2: Interval)
    requires t1 <= t2 && w2.min == w1.min && Le(w2.max, w1.max)
    ensures ChooseRoot(t1, t2, w2).Some? ==> ChooseRoot(t1, t2, w1) == ChooseRoot(t1, t2, w2)
    ensures ChooseRoot(t1, t2, w1).Some? && Lt(Fin(ChooseRoot(t1, t2, w1).value), w2.max) ==>
              ChooseRoot(t1, t2, w2) == ChooseRoot(t1, t2, w1)
  {
  }

  /** The distance `Sphere::intersect` settles on, if any. */
  function SphereDistance(env: Env, center: Ray, radius: real, ri: Ray, w: Interval): (r: Option<real>)
    ensures r.Some? ==> w.Surrounds(r.value)
  {
    match SphereRoots(env, center, radius, ri)
    case None => None
    case Some((t1, t2)) => ChooseRoot(t1, t2, w)
  }

  /**
   * `Sphere::intersect`: a hit is at the chosen root, strictly inside the window, with the
   * record filled from it; a miss leaves the record alone. The outward normal divides by the
   * radius, which gives NaN for a zero radius; that normal is taken as the zero vector.
   */
  function SphereHit(env: Env, center: Ray, radius: real, mat: Material, ri: Ray, w: Interval, rec: Isect): (r: HitResult)
    ensures !r.hit ==> r.rec == rec
    ensures r.hit <==> SphereDistance(env, center, radius, ri, w).Some?
    ensures r.hit ==> r.rec.distance == SphereDistance(env, center, radius, ri, w).value
    ensures r.hit ==> w.Surrounds(r.rec.distance) && r.rec.p == At(ri, r.rec.distance) && r.rec.m == mat
    ensures r.hit ==> Dot(ri.direction, r.rec.normal) <= 0.0
    ensures r.hit && AnglesOk(env) ==> 0.0 <= r.rec.texU <= 1.0 && 0.0 <= r.rec.texV <= 1.0
  {
    match SphereDistance(env, center, radius, ri, w)
    case None => HitResult(false, rec)
    case Some(t) => HitResult(true, SphereRecord(env, At(center, ri.time), radius, mat, ri, t, rec))
  }

  /**
   * With a square root that is not negative, a sphere hit is the nearer of the two roots
   * whenever the window surrounds both.
   */
  lemma SphereNearest(env: Env, center: Ray, radius: real, mat: Material, ri: Ray, w: Interval, rec: Isect)
    requires EnvOk(env)
    ensures var r := SphereHit(env, center, radius, mat, ri, w, rec);
            var roots := SphereRoots(env, center, radius, ri);
            r.hit ==> roots.Some? && r.rec.distance <= roots.value.1 &&
                      (w.Surrounds(roots.value.0) ==> r.rec.distance == roots.value.0)
  {
    RootOrder(env, center, radius, ri);
  }

  /** A sphere hit reports a point at distance `radius` from the centre at the ray's time. */
  lemma SphereOnSurface(env: Env, center: Ray, radius: real, mat: Material, ri: Ray, w: Interval, rec: Isect)
    requires EnvOk(env)
    ensures var r := SphereHit(env, center, radius, mat, ri, w, rec);
            r.hit ==> NormSquared(Sub(r.rec.p, At(center, ri.time))) == radius * radius
  {
    SphereRootsOnSphere(env, center, radius, ri);
  }

  /** With angles in their ranges both texture coordinates lie in `[0, 1]`. */
  lemma SphereTexRange(env: Env, outward: Vec3)
    ensures AnglesOk(env) ==> 0.0 <= TexU(env.sphereAngles(outward).1) <= 1.0
    ensures AnglesOk(env) ==> 0.0 <= TexV(env.sphereAngles(outward).0) <= 1.0
  {
  }

  /** `(p - center) / radius`, the zero vector for a zero radius (where the division gives NaN). */
  function OutwardNormal(p: Vec3, cc: Vec3, radius: real): Vec3 {
    if radius == 0.0 then Zero else Div(Sub(p, cc), radius)
  }

  /** The record of a sphere hit at distance `t`, for the centre `cc` at the ray's time. */
  function SphereRecord(env: Env, cc: Vec3, radius: real, mat: Material, ri: Ray, t: real, rec: Isect): (r: Isect)
    ensures r.distance == t && r.p == At(ri, t) && r.m == mat
    ensures Dot(ri.direction, r.normal) <= 0.0
    ensures AnglesOk(env) ==> 0.0 <= r.texU <= 1.0 && 0.0 <= r.texV <= 1.0
  {
    var p := At(ri, t);
    var outward := OutwardNormal(p, cc, radius);
    var angles := env.sphereAngles(outward);
    SphereTexRange(env, outward);
    SetNormal(rec.(p := p, distance := t), ri, outward).(texU := TexU(angles.1), texV := TexV(angles.0), m := mat)
  }

  /** The sphere keeps the object contract on every call. */
  lemma SphereCalls(env: Env, center: Ray, radius: real, mat: Material, ri: Ray, w1: Interval, w2: Interval, rec: Isect)
    requires EnvOk(env)
    ensures CallsOk(SphereHit(env, center, radius, mat, ri, w1, rec), SphereHit(env, center, radius, mat, ri, w1, Blank),
                    SphereHit(env, center, radius, mat, ri, w2, rec), w1, w2, rec)
  {
    var roots := SphereRoots(env, center, radius, ri);
    if roots.Some? && w2.min == w1.min && Le(w2.max, w1.max) {
      RootOrder(env, center, radius, ri);
      ChooseRootShrinks(roots.value.0, roots.value.1, w1, w2);
    }
    var a := SphereHit(env, center, radius, mat, ri, w1, rec);
    if a.hit {
      SurroundsContains(w1, a.rec.distance);
    }
  }

  // ---------------------------------------------------------------------------------------
  // Quad
  // ---------------------------------------------------------------------------------------

  /** `w = n / (n . n)`, the zero vector when `n` is (where the division gives NaN). */
  function PlaneW(n: Vec3): (w: Vec3)
    ensures n != Zero ==> Scale(Dot(n, n), w) == n
  {
    if n == Zero then Zero
    else
      NormSquaredPos(n);
      Div(n, Dot(n, n))
  }

  /**
   * The quad constructor: `normal = normalize(u x v)`, `D = Q . normal`, `w = n / (n . n)`,
   * and the box of the two diagonals, which holds all four corners.
   */
  function MakeQuad(q: Vec3, u: Vec3, v: Vec3, mat: Material, norm: Vec3 -> real): (s: Shape)
    requires IsNorm(norm)
    ensures s.Quad? && s.q == q && s.u == u && s.v == v && s.mat == mat
    ensures s.normal.None? <==> Cross(u, v) == Zero
    ensures s.normal.Some? ==> s.d == Dot(q, s.normal.value)
    ensures s.normal.Some? ==> forall n :: Dot(s.normal.value, n) > 0.0 <==> Dot(Cross(u, v), n) > 0.0
    ensures Cross(u, v) != Zero ==> Scale(Dot(Cross(u, v), Cross(u, v)), s.w) == Cross(u, v)
    ensures ContainsPoint(s.box, q) && ContainsPoint(s.box, Add(q, u)) && ContainsPoint(s.box, Add(q, v)) &&
            ContainsPoint(s.box, Add(Add(q, u), v))
  {
    var n := Cross(u, v);
    var normal := Normalized(n, norm);
    var d := if normal.Some? then Dot(q, normal.value) else 0.0;
    Quad(q, u, v, PlaneW(n), normal, d, mat, SetQuadBox(q, u, v))
  }

  /** `set_AABB()`: the union of the boxes of the two diagonals. */
  function SetQuadBox(q: Vec3, u: Vec3, v: Vec3): (b: AABB)
    ensures ContainsPoint(b, q) && ContainsPoint(b, Add(q, u)) && ContainsPoint(b, Add(q, v)) &&
            ContainsPoint(b, Add(Add(q, u), v))
  {
    Boxes.Union(FromPoints(q, Add(Add(q, u), v)), FromPoints(Add(q, u), Add(q, v)))
  }

  /** `inside_quad(alpha, beta)`: both coordinates in the closed unit interval. */
  function InsideQuad(alpha: real, beta: real): (r: bool)
    ensures r <==> 0.0 <= alpha <= 1.0 && 0.0 <= beta <= 1.0
  {
    var unit := Interval(Fin(0.0), Fin(1.0));
    unit.Contains(alpha) && unit.Contains(beta)
  }

  /** `(alpha, beta)` of the point at distance `t`: `w . (p x v)` and `w . (u x p)`, `p = P - Q`. */
  function QuadCoords(q: Vec3, u: Vec3, v: Vec3, w: Vec3, ri: Ray, t: real): (real, real) {
    var p := Sub(At(ri, t), q);
    (Dot(w, Cross(p, v)), Dot(w, Cross(u, p)))
  }

  /** The plane parameter `t = (D - origin . normal) / denom`, `None` for a ray along the plane. */
  function QuadT(normal: Vec3, d: real, ri: Ray): (r: Option<real>)
    ensures r.None? <==> Abs(Dot(ri.direction, normal)) < 0.00000001
    ensures r.Some? ==> r.value * Dot(ri.direction, normal) == d - Dot(ri.origin, normal)
  {
    var denom := Dot(ri.direction, normal);
    if Abs(denom) < 0.00000001 then None else Some((d - Dot(ri.origin, normal)) / denom)
  }

  /**
   * The distance `Quad::intersect` settles on, if any: the plane parameter, when the quad is
   * not degenerate, the ray not along the plane, the window (inclusive) holds it and both
   * planar coordinates of the point lie in `[0, 1]`.
   */
  function QuadDistance(q: Vec3, u: Vec3, v: Vec3, w: Vec3, normal: Option<Vec3>, d: real, ri: Ray, tw: Interval): (r: Option<real>)
    ensures normal.None? ==> r.None?
    ensures r.Some? ==> tw.Contains(r.value) && r.value * Dot(ri.direction, normal.value) == d - Dot(ri.origin, normal.value)
    ensures r.Some? ==> var (alpha, beta) := QuadCoords(q, u, v, w, ri, r.value);
                        0.0 <= alpha <= 1.0 && 0.0 <= beta <= 1.0
  {
    match normal
    case None => None
    case Some(n) =>
      match QuadT(n, d, ri)
      case None => None
      case Some(t) =>
        var (alpha, beta) := QuadCoords(q, u, v, w, ri, t);
        if !tw.Contains(t) || !InsideQuad(alpha, beta) then None else Some(t)
  }

  /**
   * `Quad::intersect`: a hit is at the quad's distance, with the planar coordinates as the
   * texture coordinates; a miss leaves the record alone.
   */
  function QuadHit(q: Vec3, u: Vec3, v: Vec3, w: Vec3, normal: Option<Vec3>, d: real, mat: Material,
                   ri: Ray, tw: Interval, rec: Isect): (r: HitResult)
    ensures !r.hit ==> r.rec == rec
    ensures r.hit <==> QuadDistance(q, u, v, w, normal, d, ri, tw).Some?
    ensures r.hit ==> r.rec.distance == QuadDistance(q, u, v, w, normal, d, ri, tw).value
    ensures r.hit ==> r.rec.p == At(ri, r.rec.distance) && r.rec.m == mat
    ensures r.hit ==> (r.rec.texU, r.rec.texV) == QuadCoords(q, u, v, w, ri, r.rec.distance)
    ensures r.hit ==> Dot(ri.direction, r.rec.normal) <= 0.0
  {
    match QuadDistance(q, u, v, w, normal, d, ri, tw)
    case None => HitResult(false, rec)
    case Some(t) =>
      var (alpha, beta) := QuadCoords(q, u, v, w, ri, t);
      HitResult(true, SetNormal(rec.(p := At(ri, t), distance := t), ri, normal.value).(texU := alpha, texV := beta, m := mat))
  }

  /** Walking along a ray changes the dot product with `n` linearly. */
  lemma DotAt(ri: Ray, t: real, n: Vec3)
    ensures Dot(At(ri, t), n) == Dot(ri.origin, n) + t * Dot(ri.direction, n)
  {
  }

  /** A hit point of a quad lies on its plane `P . normal = D`. */
  lemma QuadOnPlane(q: Vec3, u: Vec3, v: Vec3, w: Vec3, normal: Option<Vec3>, d: real, mat: Material,
                    ri: Ray, tw: Interval, rec: Isect)
    ensures var r := QuadHit(q, u, v, w, normal, d, mat, ri, tw, rec);
            r.hit ==> Dot(r.rec.p, normal.value) == d
  {
    HitOnPlane(QuadHit(q, u, v, w, normal, d, mat, ri, tw, rec), QuadDistance(q, u, v, w, normal, d, ri, tw), ri, normal, d);
  }

  /** A hit at a parameter that solves the plane equation lies on the plane. */
  lemma HitOnPlane(r: HitResult, dist: Option<real>, ri: Ray, normal: Option<Vec3>, d: real)
    requires r.hit ==> dist.Some? && r.rec.distance == dist.value && r.rec.p == At(ri, r.rec.distance)
    requires dist.Some? ==> normal.Some? && dist.value * Dot(ri.direction, normal.value) == d - Dot(ri.origin, normal.value)
    ensures r.hit ==> Dot(r.rec.p, normal.value) == d
  {
    if r.hit {
      PlanePoint(ri, dist.value, normal.value, d);
    }
  }

  /** A parameter that solves the plane equation along the ray gives a point of the plane. */
  lemma PlanePoint(ri: Ray, t: real, n: Vec3, d: real)
    requires t * Dot(ri.direction, n) == d - Dot(ri.origin, n)
    ensures Dot(At(ri, t), n) == d
  {
    DotAt(ri, t, n);
  }

  /**
   * The planar coordinates recover the point: with `w = n / (n . n)`, the point `Q + a u + b v`
   * of the plane has `alpha = a` and `beta = b`.
   */
  lemma QuadCoordinates(q: Vec3, u: Vec3, v: Vec3, a: real, b: real)
    requires Cross(u, v) != Zero
    ensures var w := PlaneW(Cross(u, v));
            var p := Sub(Add(q, Add(Scale(a, u), Scale(b, v))), q);
            Dot(w, Cross(p, v)) == a && Dot(w, Cross(u, p)) == b
  {
    var n := Cross(u, v);
    var w := PlaneW(n);
    var p := Add(Scale(a, u), Scale(b, v));
    assert Sub(Add(q, p), q) == p;
    CrossLeft(a, b, u, v);
    CrossRight(a, b, u, v);
    DotScaledNormal(w, n, a);
    DotScaledNormal(w, n, b);
  }

  /** The quad keeps the object contract on every call. */
  lemma QuadCalls(q: Vec3, u: Vec3, v: Vec3, w: Vec3, normal: Option<Vec3>, d: real, mat: Material,
                  ri: Ray, w1: Interval, w2: Interval, rec: Isect)
    ensures CallsOk(QuadHit(q, u, v, w, normal, d, mat, ri, w1, rec), QuadHit(q, u, v, w, normal, d, mat, ri, w1, Blank),
                    QuadHit(q, u, v, w, normal, d, mat, ri, w2, rec), w1, w2, rec)
  {
  }

  // ---------------------------------------------------------------------------------------
  // ConstantMedium
  // ---------------------------------------------------------------------------------------

  /** The constructors (from a colour or a texture) store `-1 / density` and the phase function. */
  function MakeMedium(boundary: Shape, density: real, phase: Material): (s: Shape)
    requires density != 0.0
    ensures s.Medium? && s.boundary == boundary && s.phase == phase
    ensures s.negInvDensity * density == -1.0
    ensures density > 0.0 ==> s.negInvDensity < 0.0
    ensures BoxOf(s) == BoxOf(boundary)
  {
    Medium(boundary, -1.0 / density, phase)
  }

  /**
   * The part of `ConstantMedium::intersect` after both boundary queries, entering at `d1` and
   * leaving at `d2`: entry raised to the window's min, exit lowered to its max, no hit unless
   * entry < exit, entry raised to 0, and no hit when the scatter distance passes the exit.
   */
  function MediumHit(d1: real, d2: real, scatter: real, phase: Material, ri: Ray, w: Interval, rec: Isect): (r: HitResult)
    ensures !r.hit ==> r.rec == rec
    ensures !Lt(Max(Fin(d1), w.min), Min(Fin(d2), w.max)) ==> !r.hit
    ensures r.hit ==> r.rec == rec.(distance := r.rec.distance, p := At(ri, r.rec.distance),
                                    normal := Vec3(1.0, 0.0, 0.0), outside := true, m := phase)
    ensures r.hit ==> Le(Max(Fin(d1), w.min), Fin(r.rec.distance - scatter)) && r.rec.distance - scatter >= 0.0
    ensures r.hit ==> Le(Fin(r.rec.distance), Min(Fin(d2), w.max))
  {
    var entry := if Lt(Fin(d1), w.min) then w.min else Fin(d1);
    var exit := if Lt(w.max, Fin(d2)) then w.max else Fin(d2);
    if !Lt(entry, exit) then HitResult(false, rec)
    else
      var e := if entry.v < 0.0 then 0.0 else entry.v;
      var inside := exit.v - e;
      if scatter > inside then HitResult(false, rec)
      else
        var dist := e + scatter;
        HitResult(true, rec.(distance := dist, p := At(ri, dist), normal := Vec3(1.0, 0.0, 0.0), outside := true, m := phase))
  }

  /**
   * `ConstantMedium::intersect` given the boundary's two answers: the first hit over the whole
   * line and the next hit from just past it, both asked with fresh records. A miss of either
   * is a miss of the medium.
   */
  function MediumFrom(h1: HitResult, h2: HitResult, scatter: real, phase: Material, ri: Ray, w: Interval, rec: Isect): (r: HitResult)
    ensures !h1.hit || !h2.hit ==> r == HitResult(false, rec)
    ensures h1.hit && h2.hit ==> r == MediumHit(h1.rec.distance, h2.rec.distance, scatter, phase, ri, w, rec)
  {
    if !h1.hit then HitResult(false, rec)
    else if !h2.hit then HitResult(false, rec)
    else MediumHit(h1.rec.distance, h2.rec.distance, scatter, phase, ri, w, rec)
  }

  /**
   * With a scatter distance that is not negative the medium keeps the object contract: `a`,
   * `blank` and `b` are its answers for the first window and record, the first window and a
   * fresh record, and the second window and the record.
   */
  lemma MediumCalls(h1: HitResult, h2: HitResult, scatter: real, phase: Material, ri: Ray, w1: Interval, w2: Interval, rec: Isect,
                    a: HitResult, blank: HitResult, b: HitResult)
    requires scatter >= 0.0
    requires a == MediumFrom(h1, h2, scatter, phase, ri, w1, rec)
    requires blank == MediumFrom(h1, h2, scatter, phase, ri, w1, Blank)
    requires b == MediumFrom(h1, h2, scatter, phase, ri, w2, rec)
    ensures CallsOk(a, blank, b, w1, w2, rec)
  {
  }

  /** The scatter distance `neg_inv_density * log(random_double())` of a medium. */
  function ScatterDistance(negInvDensity: real, logSample: real): (r: real)
    ensures negInvDensity <= 0.0 && logSample <= 0.0 ==> r >= 0.0
  {
    if negInvDensity <= 0.0 && logSample <= 0.0 then
      NonPosProduct(negInvDensity, logSample);
      negInvDensity * logSample
    else negInvDensity * logSample
  }

  /** The product of two numbers that are not positive is not negative. */
  lemma NonPosProduct(a: real, b: real)
    requires a <= 0.0 && b <= 0.0
    ensures a * b >= 0.0
  {
    assert a * b == (-a) * (-b);
  }

  /**
   * A BVH leaf over a single medium, where the constructor sets `left = right`: the node asks
   * the medium twice, the second time in the window lowered to the first hit and with its
   * record, and each call of `ConstantMedium::intersect` draws its own scatter distance (`s1`,
   * then `s2`). The medium enters at `d1` and leaves at `d2`.
   */
  function MediumLeafAsWritten(d1: real, d2: real, s1: real, s2: real, phase: Material, ri: Ray, w: Interval, rec: Isect): (r: HitResult)
    ensures !r.hit ==> r.rec == rec
  {
    var hl := MediumHit(d1, d2, s1, phase, ri, w, rec);
    var hr := MediumHit(d1, d2, s2, phase, ri, Interval(w.min, if hl.hit then Fin(hl.rec.distance) else w.max), hl.rec);
    HitResult(hl.hit || hr.hit, hr.rec)
  }

  /**
   * With two draws the leaf reports the nearer of two scatter distances, where the object list
   * asks the medium once: entering at 0 and leaving at 10 in the trace window `[0.001, inf)`,
   * draws of 5 and then 1 give a hit at 1.001, while one call gives 5.001.
   */
  lemma MediumLeafTwoDraws()
    ensures var ri, w := Ray(Zero, Vec3(1.0, 0.0, 0.0), 0.0), Interval(Fin(0.001), PosInf);
            MediumHit(0.0, 10.0, 5.0, Base, ri, w, Blank).rec.distance == 5.001 &&
            MediumLeafAsWritten(0.0, 10.0, 5.0, 1.0, Base, ri, w, Blank).rec.distance == 1.001
  {
  }

  /**
   * With one draw per ray, as the model's `Env` supplies it, asking the medium twice in a leaf
   * gives exactly the answer of asking it once.
   */
  lemma MediumLeafOneDraw(d1: real, d2: real, s: real, phase: Material, ri: Ray, w: Interval, rec: Isect)
    requires s >= 0.0
    ensures MediumLeafAsWritten(d1, d2, s, s, phase, ri, w, rec) == MediumHit(d1, d2, s, phase, ri, w, rec)
  {
  }

  // ---------------------------------------------------------------------------------------
  // The wrappers
  // ---------------------------------------------------------------------------------------

  /** The `Translate` constructor: the inner box shifted by the offset. */
  function MakeTranslate(obj: Shape, offset: Vec3): (s: Shape)
    ensures s.Translate? && s.obj == obj && s.offset == offset
    ensures forall p :: ContainsPoint(BoxOf(obj), p) <==> ContainsPoint(BoxOf(s), Add(p, offset))
  {
    forall p ensures ContainsPoint(BoxOf(obj), p) <==> ContainsPoint(Offset(BoxOf(obj), offset), Add(p, offset)) {
      OffsetContains(BoxOf(obj), offset, p);
    }
    Translate(obj, offset, Offset(BoxOf(obj), offset))
  }

  /**
   * The `RotateY` constructor with `cos_theta` and `sin_theta` given, running the corrected
   * bbox loop over all eight corners: the box holds every point of the inner box, rotated.
   */
  method MakeRotateY(obj: Shape, c: real, s: real) returns (r: Shape)
    requires Finite(BoxOf(obj))
    ensures r == RotateY(obj, c, s, CornersBox(AllCorners(BoxOf(obj), c, s)))
    ensures forall p :: ContainsPoint(BoxOf(obj), p) ==> ContainsPoint(BoxOf(r), ToWorld(c, s, p))
  {
    var b := RotatedBox(BoxOf(obj), c, s);
    r := RotateY(obj, c, s, b);
    forall p | ContainsPoint(BoxOf(obj), p)
      ensures ContainsPoint(BoxOf(r), ToWorld(c, s, p))
    {
      RotatedBoxContains(BoxOf(obj), c, s, p);
    }
  }

  // ---------------------------------------------------------------------------------------
  // One `intersect` for all shapes
  // ---------------------------------------------------------------------------------------

  /**
   * `intersect(ri, t_interval, isect)` of any shape. A miss leaves the record alone, through any
   * nesting; a medium hits only when its boundary is hit twice, first over the whole line and
   * then from just past that first hit, both asked with fresh records.
   */
  function ShapeHit(env: Env, s: Shape, ri: Ray, w: Interval, rec: Isect): (r: HitResult)
    ensures !r.hit ==> r.rec == rec
    ensures s.Medium? && r.hit ==>
              var h1 := ShapeHit(env, s.boundary, ri, Universe, Blank);
              h1.hit && ShapeHit(env, s.boundary, ri, Interval(Fin(h1.rec.distance + 0.0001), PosInf), Blank).hit
    decreases s
  {
    match s
    case Sphere(center, radius, mat, _) => SphereHit(env, center, radius, mat, ri, w, rec)
    case Quad(q, u, v, qw, normal, d, mat, _) => QuadHit(q, u, v, qw, normal, d, mat, ri, w, rec)
    case Medium(boundary, negInvDensity, phase) =>
      var h1 := ShapeHit(env, boundary, ri, Universe, Blank);
      var h2 := ShapeHit(env, boundary, ri, Interval(Fin(h1.rec.distance + 0.0001), PosInf), Blank);
      MediumFrom(h1, h2, ScatterDistance(negInvDensity, env.logSample(ri)), phase, ri, w, rec)
    case Translate(obj, offset, _) => TranslateHit(ShapeHit(env, obj, TranslateRay(ri, offset), w, rec), offset)
    case RotateY(obj, c, sn, _) => RotateHit(ShapeHit(env, obj, RotateRay(ri, c, sn), w, rec), c, sn)
  }

  /** `ShapeHit` as the hit function of the object contract. */
  function HitOf(env: Env): HitFn<Shape> {
    (s: Shape, ri: Ray, w: Interval, rec: Isect) => ShapeHit(env, s, ri, w, rec)
  }

  /** Every call of a well-formed shape keeps the object contract. */
  lemma {:induction false} ShapeCalls(env: Env, s: Shape, ri: Ray, w1: Interval, w2: Interval, rec: Isect)
    requires EnvOk(env) && WellFormed(s)
    ensures CallsOk(ShapeHit(env, s, ri, w1, rec), ShapeHit(env, s, ri, w1, Blank), ShapeHit(env, s, ri, w2, rec), w1, w2, rec)
    decreases s
  {
    match s
    case Sphere(center, radius, mat, _) => SphereCalls(env, center, radius, mat, ri, w1, w2, rec);
    case Quad(q, u, v, qw, normal, d, mat, _) => QuadCalls(q, u, v, qw, normal, d, mat, ri, w1, w2, rec);
    case Medium(boundary, negInvDensity, phase) => MediumShapeCalls(env, s, ri, w1, w2, rec);
    case Translate(obj, offset, _) =>
      ShapeCalls(env, obj, TranslateRay(ri, offset), w1, w2, rec);
      TranslateCalls(env, s, ri, w1, w2, rec);
    case RotateY(obj, c, sn, _) =>
      ShapeCalls(env, obj, RotateRay(ri, c, sn), w1, w2, rec);
      RotateCalls(env, s, ri, w1, w2, rec);
  }

  /** The medium case of `ShapeHit`, unfolded once. */
  lemma MediumUnfold(env: Env, s: Shape, ri: Ray, w: Interval, rec: Isect, h1: HitResult, h2: HitResult, sc: real)
    requires s.Medium? && h1 == ShapeHit(env, s.boundary, ri, Universe, Blank)
    requires h2 == ShapeHit(env, s.boundary, ri, Interval(Fin(h1.rec.distance + 0.0001), PosInf), Blank)
    requires sc == ScatterDistance(s.negInvDensity, env.logSample(ri))
    ensures ShapeHit(env, s, ri, w, rec) == MediumFrom(h1, h2, sc, s.phase, ri, w, rec)
  {
  }

  /** The medium case of `ShapeCalls`: both boundary queries ignore the window and the record. */
  lemma MediumShapeCalls(env: Env, s: Shape, ri: Ray, w1: Interval, w2: Interval, rec: Isect)
    requires EnvOk(env) && s.Medium? && s.negInvDensity <= 0.0
    ensures CallsOk(ShapeHit(env, s, ri, w1, rec), ShapeHit(env, s, ri, w1, Blank), ShapeHit(env, s, ri, w2, rec), w1, w2, rec)
  {
    var h1 := ShapeHit(env, s.boundary, ri, Universe, Blank);
    var h2 := ShapeHit(env, s.boundary, ri, Interval(Fin(h1.rec.distance + 0.0001), PosInf), Blank);
    var sc := ScatterDistance(s.negInvDensity, env.logSample(ri));
    assert sc >= 0.0 by {
      assert env.logSample(ri) <= 0.0;
    }
    MediumUnfold(env, s, ri, w1, rec, h1, h2, sc);
    MediumUnfold(env, s, ri, w1, Blank, h1, h2, sc);
    MediumUnfold(env, s, ri, w2, rec, h1, h2, sc);
    MediumCalls(h1, h2, sc, s.phase, ri, w1, w2, rec,
                ShapeHit(env, s, ri, w1, rec), ShapeHit(env, s, ri, w1, Blank), ShapeHit(env, s, ri, w2, rec));
  }

  /** The translation case of `ShapeCalls`, given the inner object's calls. */
  lemma TranslateCalls(env: Env, s: Shape, ri: Ray, w1: Interval, w2: Interval, rec: Isect)
    requires s.Translate?
    requires var r := TranslateRay(ri, s.offset);
             CallsOk(ShapeHit(env, s.obj, r, w1, rec), ShapeHit(env, s.obj, r, w1, Blank), ShapeHit(env, s.obj, r, w2, rec), w1, w2, rec)
    ensures CallsOk(ShapeHit(env, s, ri, w1, rec), ShapeHit(env, s, ri, w1, Blank), ShapeHit(env, s, ri, w2, rec), w1, w2, rec)
  {
    var r := TranslateRay(ri, s.offset);
    WrapperCalls(ShapeHit(env, s.obj, r, w1, rec), ShapeHit(env, s.obj, r, w1, Blank), ShapeHit(env, s.obj, r, w2, rec), w1, w2, rec,
                 ShapeHit(env, s, ri, w1, rec), ShapeHit(env, s, ri, w1, Blank), ShapeHit(env, s, ri, w2, rec));
  }

  /** The rotation case of `ShapeCalls`, given the inner object's calls. */
  lemma RotateCalls(env: Env, s: Shape, ri: Ray, w1: Interval, w2: Interval, rec: Isect)
    requires s.RotateY?
    requires var r := RotateRay(ri, s.cosTheta, s.sinTheta);
             CallsOk(ShapeHit(env, s.obj, r, w1, rec), ShapeHit(env, s.obj, r, w1, Blank), ShapeHit(env, s.obj, r, w2, rec), w1, w2, rec)
    ensures CallsOk(ShapeHit(env, s, ri, w1, rec), ShapeHit(env, s, ri, w1, Blank), ShapeHit(env, s, ri, w2, rec), w1, w2, rec)
  {
    var r := RotateRay(ri, s.cosTheta, s.sinTheta);
    WrapperCalls(ShapeHit(env, s.obj, r, w1, rec), ShapeHit(env, s.obj, r, w1, Blank), ShapeHit(env, s.obj, r, w2, rec), w1, w2, rec,
                 ShapeHit(env, s, ri, w1, rec), ShapeHit(env, s, ri, w1, Blank), ShapeHit(env, s, ri, w2, rec));
  }

  /** A wrapper that passes misses on and keeps hits and distances keeps the contract. */
  lemma WrapperCalls(a: HitResult, blank: HitResult, b: HitResult, w1: Interval, w2: Interval, rec: Isect,
                     a': HitResult, blank': HitResult, b': HitResult)
    requires CallsOk(a, blank, b, w1, w2, rec)
    requires !a.hit ==> a' == a
    requires a'.hit == a.hit && blank'.hit == blank.hit && b'.hit == b.hit
    requires a'.rec.distance == a.rec.distance && blank'.rec.distance == blank.rec.distance &&
             b'.rec.distance == b.rec.distance
    ensures CallsOk(a', blank', b', w1, w2, rec)
  {
  }

  /** Every well-formed shape keeps the object contract: the basis of the BVH and list theorems. */
  lemma ShapesBehaved(env: Env, s: Shape)
    requires EnvOk(env) && WellFormed(s)
    ensures Behaved(HitOf(env), s)
  {
    var h := HitOf(env);
    forall ri, w1, w2, rec
      ensures CallsOk(h(s, ri, w1, rec), h(s, ri, w1, Blank), h(s, ri, w2, rec), w1, w2, rec)
    {
      ShapeCalls(env, s, ri, w1, w2, rec);
    }
    BehavedFromCalls(h, s);
  }

  /** A number whose square is at most another's is at most that one in absolute value. */
  lemma SquareBound(a: real, b: real)
    requires a * a <= b * b
    ensures Abs(a) <= Abs(b)
  {
    if Abs(b) < Abs(a) {
      SquareBelow(b, Abs(a));
    }
  }

  /**
   * A point at distance `rs` from `c`, with `rs^2` at most `radius^2`, lies in the cube of
   * half-side `|radius|` around `c`.
   */
  lemma OnSphereInCube(p: Vec3, c: Vec3, rs: real, radius: real)
    requires NormSquared(Sub(p, c)) == rs * rs && rs * rs <= radius * radius
    ensures InCube(p, c, radius)
  {
    var d := Sub(p, c);
    SquaresBound(d.x, d.y, d.z, rs * rs, radius * radius);
    SquareBound(d.x, radius);
    SquareBound(d.y, radius);
    SquareBound(d.z, radius);
  }

  /** Each of three squares is at most their sum. */
  lemma SquaresBound(x: real, y: real, z: real, n: real, m: real)
    requires x * x + y * y + z * z == n && n <= m
    ensures x * x <= m && y * y <= m && z * z <= m
  {
    SquareNonNeg(x);
    SquareNonNeg(y);
    SquareNonNeg(z);
  }

  /** The stored radius `fmax(0, radius)` squares to at most `radius^2`. */
  lemma StoredRadius(radius: real, rs: real)
    requires (radius >= 0.0 ==> rs == radius) && (radius < 0.0 ==> rs == 0.0)
    ensures rs * rs <= radius * radius
  {
    if radius < 0.0 {
      SquareNonNeg(radius);
    }
  }

  /**
   * A sphere hit whose centre at the ray's time is `center`, with a stored radius squaring to
   * at most `radius^2`, reports a point strictly inside the box built around `center`.
   */
  lemma SphereHitInCube(env: Env, cr: Ray, rs: real, mat: Material, ri: Ray, w: Interval, rec: Isect,
                        center: Vec3, radius: real)
    requires EnvOk(env) && At(cr, ri.time) == center && rs * rs <= radius * radius
    ensures var r := SphereHit(env, cr, rs, mat, ri, w, rec);
            r.hit ==> StrictlyInside(CubeBox(center, radius), r.rec.p)
  {
    SphereOnSurface(env, cr, rs, mat, ri, w, rec);
    var r := SphereHit(env, cr, rs, mat, ri, w, rec);
    if r.hit {
      PointInCube(r.rec.p, At(cr, ri.time), center, rs, radius);
    }
  }

  /** The transfer step of `SphereHitInCube`, with the centre at the ray's time as `cc`. */
  lemma PointInCube(p: Vec3, cc: Vec3, center: Vec3, rs: real, radius: real)
    requires cc == center && NormSquared(Sub(p, cc)) == rs * rs && rs * rs <= radius * radius
    ensures StrictlyInside(CubeBox(center, radius), p)
  {
    OnSphereInCube(p, center, rs, radius);
  }

  /** The slab test of that box passes for every sphere hit in an open window. */
  lemma SphereSlab(env: Env, cr: Ray, rs: real, mat: Material, ri: Ray, w: Interval, rec: Isect,
                   center: Vec3, radius: real)
    requires EnvOk(env) && At(cr, ri.time) == center && rs * rs <= radius * radius
    requires DirOk(ri) && Open(w) && SphereHit(env, cr, rs, mat, ri, w, rec).hit
    ensures Slab(CubeBox(center, radius), ri, w)
  {
    var r := SphereHit(env, cr, rs, mat, ri, w, rec);
    SphereHitInCube(env, cr, rs, mat, ri, w, rec, center, radius);
    SurroundsContains(w, r.rec.distance);
    SlabSound(CubeBox(center, radius), ri, w, r.rec.distance);
  }

  /** The same for every ray, window and record, for a centre that stays at `center`. */
  lemma SphereSlabs(env: Env, cr: Ray, rs: real, mat: Material, center: Vec3, radius: real)
    requires EnvOk(env) && (forall t :: At(cr, t) == center) && rs * rs <= radius * radius
    ensures forall ri, w, rec :: DirOk(ri) && Open(w) && SphereHit(env, cr, rs, mat, ri, w, rec).hit ==>
                                 Slab(CubeBox(center, radius), ri, w)
  {
    forall ri, w, rec | DirOk(ri) && Open(w) && SphereHit(env, cr, rs, mat, ri, w, rec).hit
      ensures Slab(CubeBox(center, radius), ri, w)
    {
      SphereSlab(env, cr, rs, mat, ri, w, rec, center, radius);
    }
  }

  /**
   * The box of a static sphere bounds its hits: whenever the sphere reports a hit in an open
   * window, the slab test of its box passes, so a BVH node holding it never prunes it.
   */
  lemma StaticSphereBounded(env: Env, center: Vec3, radius: real, mat: Material)
    requires EnvOk(env)
    ensures Bounded(HitOf(env), BoxOf, MakeSphere(center, radius, mat))
  {
    var s := MakeSphere(center, radius, mat);
    StoredRadius(radius, s.radius);
    SphereSlabs(env, s.center, s.radius, mat, center, radius);
    assert BoxOf(s) == CubeBox(center, radius);
    assert forall ri, w, rec :: HitOf(env)(s, ri, w, rec) == SphereHit(env, s.center, s.radius, mat, ri, w, rec);
  }

  /**
   * A hit of any well-formed shape lies on the world ray at the reported distance, through
   * any nesting of translations and rotations.
   */
  lemma {:induction false} HitOnRay(env: Env, s: Shape, ri: Ray, w: Interval, rec: Isect)
    requires WellFormed(s)
    ensures var r := ShapeHit(env, s, ri, w, rec);
            r.hit ==> r.rec.p == At(ri, r.rec.distance)
    decreases s
  {
    match s
    case Sphere(center, radius, mat, _) =>
      assert ShapeHit(env, s, ri, w, rec) == SphereHit(env, center, radius, mat, ri, w, rec);
    case Quad(q, u, v, qw, normal, d, mat, _) =>
      assert ShapeHit(env, s, ri, w, rec) == QuadHit(q, u, v, qw, normal, d, mat, ri, w, rec);
    case Medium(_, _, _) =>
    case Translate(obj, offset, _) =>
      var inner := ShapeHit(env, obj, TranslateRay(ri, offset), w, rec);
      HitOnRay(env, obj, TranslateRay(ri, offset), w, rec);
      TranslateOnRay(inner, ShapeHit(env, s, ri, w, rec), ri, offset);
    case RotateY(obj, c, sn, _) =>
      var inner := ShapeHit(env, obj, RotateRay(ri, c, sn), w, rec);
      HitOnRay(env, obj, RotateRay(ri, c, sn), w, rec);
      RotateOnRay(inner, ShapeHit(env, s, ri, w, rec), ri, c, sn);
  }

  /** A translation passes a hit on the moved ray back as a hit on the world ray. */
  lemma TranslateOnRay(inner: HitResult, r: HitResult, ri: Ray, offset: Vec3)
    requires r == TranslateHit(inner, offset)
    requires inner.hit ==> inner.rec.p == At(TranslateRay(ri, offset), inner.rec.distance)
    ensures r.hit ==> r.rec.p == At(ri, r.rec.distance)
  {
    if inner.hit {
      TranslateAt(ri, offset, inner.rec.distance);
    }
  }

  /** A rotation passes a hit on the rotated ray back as a hit on the world ray. */
  lemma RotateOnRay(inner: HitResult, r: HitResult, ri: Ray, c: real, sn: real)
    requires c * c + sn * sn == 1.0 && r == RotateHit(inner, c, sn)
    requires inner.hit ==> inner.rec.p == At(RotateRay(ri, c, sn), inner.rec.distance)
    ensures r.hit ==> r.rec.p == At(ri, r.rec.distance)
  {
    if inner.hit {
      RotateAt(ri, c, sn, inner.rec.distance);
    }
  }
}
