/** The materials of Material.h: how a ray that hit a surface is scattered or absorbed. */
module Materials {
  import opened Opt
  import opened Vectors
  import opened Rays
  import opened Textures

  /**
   * The material classes. `Isotropic` is the phase function of a constant medium; its class
   * is not part of this model, so its scatter rule is supplied to `Scatter`.
   */
  datatype Material =
    | Base
    | Diffuse(albedo: Vec3)
    | Metal(albedo: Vec3, fuzz: real)
    | Isotropic(tex: Texture)

  /** What `scatter` writes to its out-parameters, with its return value. */
  datatype ScatterResult = ScatterResult(scattered: bool, attenuation: Vec3, ro: Ray)

  /** The `Metal` constructor: the fuzz is capped at 1 from above only. */
  function MakeMetal(albedo: Vec3, fuzz: real): (m: Material)
    ensures m.Metal? && m.albedo == albedo
    ensures m.fuzz <= 1.0
    ensures fuzz < 1.0 ==> m.fuzz == fuzz
    ensures fuzz >= 1.0 ==> m.fuzz == 1.0
  {
    Metal(albedo, if fuzz < 1.0 then fuzz else 1.0)
  }

  /** The mirror image `v - 2 (v . n) n` of `v`. */
  function Mirror(v: Vec3, n: Vec3): Vec3 {
    Sub(v, Scale(2.0 * Dot(v, n), n))
  }

  /** A dot product with the mirror image. */
  lemma MirrorDot(v: Vec3, n: Vec3, t: Vec3)
    ensures Dot(Mirror(v, n), t) == Dot(v, t) - 2.0 * Dot(v, n) * Dot(n, t)
  {
    DotScale(2.0 * Dot(v, n), n, t);
  }

  /** Mirroring in the plane orthogonal to `n` keeps every component orthogonal to `n`. */
  lemma MirrorKeepsPlane(v: Vec3, n: Vec3)
    ensures forall t :: Dot(n, t) == 0.0 ==> Dot(Mirror(v, n), t) == Dot(v, t)
  {
    forall t | Dot(n, t) == 0.0
      ensures Dot(Mirror(v, n), t) == Dot(v, t)
    {
      MirrorDot(v, n, t);
    }
  }

  /**
   * For a unit `n`, mirroring flips the component along `n` and keeps the length, so only the
   * zero vector mirrors to zero.
   */
  lemma MirrorUnit(v: Vec3, n: Vec3)
    ensures Dot(n, n) == 1.0 ==> Dot(Mirror(v, n), n) == -Dot(v, n)
    ensures Dot(n, n) == 1.0 ==> Dot(Mirror(v, n), Mirror(v, n)) == Dot(v, v)
    ensures Dot(n, n) == 1.0 ==> (Mirror(v, n) == Zero <==> v == Zero)
  {
    if Dot(n, n) == 1.0 {
      MirrorUnitDots(v, n);
      if v != Zero {
        NormSquaredPos(v);
      }
    }
  }

  /** The first two facts of `MirrorUnit`, for a unit `n`. */
  lemma MirrorUnitDots(v: Vec3, n: Vec3)
    requires Dot(n, n) == 1.0
    ensures Dot(Mirror(v, n), n) == -Dot(v, n) && Dot(Mirror(v, n), Mirror(v, n)) == Dot(v, v)
  {
    var m := Mirror(v, n);
    MirrorDot(v, n, n);
    MirrorDot(v, n, v);
    MirrorDot(v, n, m);
    DotProperties(v, m);
    DotProperties(n, m);
    DotProperties(n, v);
    MirrorScalars(Dot(v, n), Dot(n, n), Dot(m, n), Dot(v, v), Dot(m, v), Dot(m, m), Dot(n, v), Dot(v, m), Dot(n, m));
  }

  /**
   * The arithmetic of `MirrorUnit`: `a = v . n`, `nn = n . n`, `mn = m . n` and so on, with
   * `nv`, `vm` and `nm` the same products taken the other way round.
   */
  lemma MirrorScalars(a: real, nn: real, mn: real, vv: real, mv: real, mm: real, nv: real, vm: real, nm: real)
    requires nn == 1.0 && nv == a && vm == mv && nm == mn
    requires mn == a - 2.0 * a * nn && mv == vv - 2.0 * a * nv && mm == vm - 2.0 * a * nm
    ensures mn == -a && mm == vv
  {
  }

  /**
   * `Metal::reflect(v, n)`: the mirror direction `v - 2 (v . n) n`, normalized. It points to the
   * same side as `v` of every plane containing `n`; for a unit normal it is NaN (`None`) only for
   * a zero `v`, and it points to the side of `n` exactly when `v` points against it.
   */
  function Reflect(v: Vec3, n: Vec3, norm: Vec3 -> real): (r: Option<Vec3>)
    requires IsNorm(norm)
    ensures r.Some? ==> forall t :: Dot(n, t) == 0.0 ==> (Dot(r.value, t) > 0.0 <==> Dot(v, t) > 0.0)
    ensures Dot(n, n) == 1.0 ==> (r.None? <==> v == Zero)
    ensures Dot(n, n) == 1.0 && r.Some? ==> (Dot(r.value, n) > 0.0 <==> Dot(v, n) < 0.0)
  {
    MirrorKeepsPlane(v, n);
    MirrorUnit(v, n);
    Normalized(Mirror(v, n), norm)
  }

  /**
   * The fuzzed direction `reflect(v, n) + fuzz * unit` of `Metal::scatter`; `None` when the
   * reflection is NaN, which NaN-poisons the sum.
   */
  function FuzzedDirection(v: Vec3, n: Vec3, fuzz: real, unit: Vec3, norm: Vec3 -> real): Option<Vec3>
    requires IsNorm(norm)
  {
    match Reflect(v, n, norm)
    case None => None
    case Some(refl) => Some(Add(refl, Scale(fuzz, unit)))
  }

  /** The unnormalized Lambertian direction `normal + unit` of `Diffuse::scatter`. */
  function DiffuseDirection(normal: Vec3, unit: Vec3): Vec3 {
    Add(normal, unit)
  }

  /**
   * `scatter(ri, isect, attenuation, ro)` for a hit at `p` with normal `normal`; `unit` is the
   * draw of `sample_unit_vector()`, `norm` the supplied norm and `isotropic` the rule of the
   * `Isotropic` material. A scattered ray whose direction is NaN is given the zero direction,
   * and it is never reported as scattered.
   */
  function Scatter(m: Material, ri: Ray, p: Vec3, normal: Vec3, unit: Vec3, norm: Vec3 -> real,
                   isotropic: (Texture, Ray, Vec3) -> ScatterResult): (r: ScatterResult)
    requires IsNorm(norm)
    ensures m.Base? ==> !r.scattered
    ensures m.Diffuse? ==> r.scattered && r.attenuation == m.albedo && r.ro.origin == p && r.ro.time == 0.0
    ensures m.Diffuse? && NearZero(DiffuseDirection(normal, unit)) ==> r.ro.direction == normal
    ensures m.Diffuse? && !NearZero(DiffuseDirection(normal, unit)) ==>
              forall n :: Dot(r.ro.direction, n) > 0.0 <==> Dot(DiffuseDirection(normal, unit), n) > 0.0
    ensures m.Metal? ==> r.attenuation == m.albedo && r.ro.origin == p && r.ro.time == 0.0
    ensures m.Metal? ==> (r.scattered <==> Dot(r.ro.direction, normal) > 0.0)
    ensures m.Metal? ==>
              (r.scattered <==> var wo := FuzzedDirection(ri.direction, normal, m.fuzz, unit, norm);
                                wo.Some? && Dot(wo.value, normal) > 0.0)
    ensures m.Metal? && r.scattered ==>
              var wo := FuzzedDirection(ri.direction, normal, m.fuzz, unit, norm);
              wo.Some? && Normalized(wo.value, norm).Some? && r.ro.direction == Normalized(wo.value, norm).value
    ensures m.Isotropic? ==> r == isotropic(m.tex, ri, p)
  {
    match m
    case Base => ScatterResult(false, Zero, ri)
    case Diffuse(albedo) =>
      var wo := DiffuseDirection(normal, unit);
      var dir := if NearZero(wo) then normal else Normalize(wo, norm(wo));
      ScatterResult(true, albedo, MakeRay(p, dir))
    case Metal(albedo, fuzz) =>
      var dir := match FuzzedDirection(ri.direction, normal, fuzz, unit, norm)
                 case None => Zero
                 case Some(wo) => match Normalized(wo, norm) case None => Zero case Some(d) => d;
      ScatterResult(Dot(dir, normal) > 0.0, albedo, MakeRay(p, dir))
    case Isotropic(tex) => isotropic(tex, ri, p)
  }
}
