/** The three-component vector of Vector3d.h (also used as a point and as a color). */
module Vectors {
  import opened Opt

  datatype Vec3 = Vec3(x: real, y: real, z: real)

  const Zero: Vec3 := Vec3(0.0, 0.0, 0.0)

  /** `operator[](i)` for the three valid indices. */
  function Get(v: Vec3, i: int): real
    requires 0 <= i < 3
  {
    if i == 0 then v.x else if i == 1 then v.y else v.z
  }

  /** Unary `operator-`. */
  function Neg(v: Vec3): (r: Vec3)
    ensures Add(v, r) == Zero
  {
    Vec3(-v.x, -v.y, -v.z)
  }

  function Add(u: Vec3, v: Vec3): Vec3 {
    Vec3(u.x + v.x, u.y + v.y, u.z + v.z)
  }

  function Sub(u: Vec3, v: Vec3): (r: Vec3)
    ensures Add(r, v) == u
  {
    Vec3(u.x - v.x, u.y - v.y, u.z - v.z)
  }

  /** Component-wise product `u * v` (used for colors). */
  function Mul(u: Vec3, v: Vec3): Vec3 {
    Vec3(u.x * v.x, u.y * v.y, u.z * v.z)
  }

  /** `t * v` and `v * t`. */
  function Scale(t: real, v: Vec3): Vec3 {
    Vec3(t * v.x, t * v.y, t * v.z)
  }

  /** `v / t`. */
  function Div(v: Vec3, t: real): (r: Vec3)
    requires t != 0.0
    ensures Scale(t, r) == v
  {
    Vec3(v.x / t, v.y / t, v.z / t)
  }

  function Dot(u: Vec3, v: Vec3): real {
    u.x * v.x + u.y * v.y + u.z * v.z
  }

  function Cross(u: Vec3, v: Vec3): Vec3 {
    Vec3(u.y * v.z - v.y * u.z,
         u.z * v.x - v.z * u.x,
         u.x * v.y - v.x * u.y)
  }

  /** `norm_squared()`: never negative. */
  function NormSquared(v: Vec3): (r: real)
    ensures r >= 0.0
  {
    SquareNonNeg(v.x);
    SquareNonNeg(v.y);
    SquareNonNeg(v.z);
    v.x * v.x + v.y * v.y + v.z * v.z
  }

  lemma SquarePos(a: real)
    requires a != 0.0
    ensures a * a > 0.0
  {
    if a < 0.0 {
      var b := -a;
      assert b * b > 0.0;
      assert (-a) * (-a) == a * a;
    } else {
      assert a * a > 0.0;
    }
  }

  lemma SquareNonNeg(a: real)
    ensures a * a >= 0.0
  {
    if a != 0.0 {
      SquarePos(a);
    }
  }

  lemma SquareBelow(a: real, s: real)
    requires Abs(a) < s
    ensures a * a < s * s
  {
    var b := Abs(a);
    var m1, m2, m3 := b * b, b * s, s * s;
    assert m1 == a * a;
    assert m1 <= m2;
    assert m2 < m3;
  }

  function Abs(a: real): real {
    if a < 0.0 then -a else a
  }

  /** `near_zero()`: every component is below 1e-8 in absolute value. */
  predicate NearZero(v: Vec3) {
    Abs(v.x) < 0.00000001 && Abs(v.y) < 0.00000001 && Abs(v.z) < 0.00000001
  }

  /** `normalize(v)` with the norm supplied: a positive scaling of `v`. */
  function Normalize(v: Vec3, norm: real): (r: Vec3)
    requires norm > 0.0
    ensures forall n :: Dot(r, n) > 0.0 <==> Dot(v, n) > 0.0
  {
    var r := Scale(1.0 / norm, v);
    assert forall n :: Dot(r, n) == Dot(v, n) / norm;
    r
  }

  /**
   * `norm()` is `sqrt(norm_squared())`; the square root is supplied, and all the model needs
   * of it is that a non-zero vector has a positive norm.
   */
  ghost predicate IsNorm(norm: Vec3 -> real) {
    forall v :: v != Zero ==> norm(v) > 0.0
  }

  /**
   * `normalize(v)`, `v / v.norm()`: `None` stands for the NaN vector that dividing the zero
   * vector by its zero norm produces.
   */
  function Normalized(v: Vec3, norm: Vec3 -> real): (r: Option<Vec3>)
    requires IsNorm(norm)
    ensures r.None? <==> v == Zero
    ensures r.Some? ==> forall n :: Dot(r.value, n) > 0.0 <==> Dot(v, n) > 0.0
  {
    if v == Zero then None else Some(Normalize(v, norm(v)))
  }

  /** A near-zero vector has a norm below that of (1e-8, 1e-8, 1e-8). */
  lemma NearZeroSmall(v: Vec3)
    requires NearZero(v)
    ensures NormSquared(v) < 3.0 * 0.00000001 * 0.00000001
  {
    var s := 0.00000001;
    SquareBelow(v.x, s);
    SquareBelow(v.y, s);
    SquareBelow(v.z, s);
  }

  /** The dot product is symmetric and `dot(v, v)` is the squared norm. */
  lemma DotProperties(u: Vec3, v: Vec3)
    ensures Dot(u, v) == Dot(v, u)
    ensures Dot(v, v) == NormSquared(v) >= 0.0
  {
  }

  /** The cross product is orthogonal to both factors and anti-symmetric. */
  lemma CrossProperties(u: Vec3, v: Vec3)
    ensures Dot(Cross(u, v), u) == 0.0 && Dot(Cross(u, v), v) == 0.0
    ensures Cross(u, v) == Neg(Cross(v, u))
  {
  }

  /** Negating one factor negates the dot product. */
  lemma DotNeg(u: Vec3, v: Vec3)
    ensures Dot(u, Neg(v)) == -Dot(u, v)
  {
  }

  /** Negation is an involution; adding then subtracting restores a vector. */
  lemma NegAddSub(u: Vec3, v: Vec3)
    ensures Neg(Neg(v)) == v
    ensures Sub(Add(u, v), v) == u
  {
  }

  /** A non-zero vector has a positive squared norm. */
  lemma NormSquaredPos(v: Vec3)
    requires v != Zero
    ensures NormSquared(v) > 0.0 && Dot(v, v) > 0.0
  {
    calc {
      NormSquared(v);
      == v.x * v.x + v.y * v.y + v.z * v.z;
      > { SquaresPos(v.x, v.y, v.z); }
      0.0;
    }
  }

  /** A sum of three squares, not all of zero, is positive. */
  lemma SquaresPos(x: real, y: real, z: real)
    requires x != 0.0 || y != 0.0 || z != 0.0
    ensures x * x + y * y + z * z > 0.0
  {
    SquareNonNeg(x);
    SquareNonNeg(y);
    SquareNonNeg(z);
    if x != 0.0 {
      SquarePos(x);
    } else if y != 0.0 {
      SquarePos(y);
    } else {
      SquarePos(z);
    }
  }

  /** One component of the two linearity facts below, for `p = a u + b v`. */
  lemma CrossComponent(a: real, b: real, u1: real, u2: real, v1: real, v2: real)
    ensures (a * u1 + b * v1) * v2 - v1 * (a * u2 + b * v2) == a * (u1 * v2 - v1 * u2)
    ensures u1 * (a * u2 + b * v2) - (a * u1 + b * v1) * u2 == b * (u1 * v2 - v1 * u2)
  {
  }

  /** `CrossComponent` on the three cyclic pairs of coordinates. */
  lemma CrossComponents(a: real, b: real, ux: real, uy: real, uz: real, vx: real, vy: real, vz: real)
    ensures Cross(Vec3(a * ux + b * vx, a * uy + b * vy, a * uz + b * vz), Vec3(vx, vy, vz)) ==
            Vec3(a * (uy * vz - vy * uz), a * (uz * vx - vz * ux), a * (ux * vy - vx * uy))
    ensures Cross(Vec3(ux, uy, uz), Vec3(a * ux + b * vx, a * uy + b * vy, a * uz + b * vz)) ==
            Vec3(b * (uy * vz - vy * uz), b * (uz * vx - vz * ux), b * (ux * vy - vx * uy))
  {
    CrossComponent(a, b, uy, uz, vy, vz);
    CrossComponent(a, b, uz, ux, vz, vx);
    CrossComponent(a, b, ux, uy, vx, vy);
  }

  /** `a u + b v`, component by component. */
  lemma Combination(a: real, b: real, u: Vec3, v: Vec3)
    ensures Add(Scale(a, u), Scale(b, v)) == Vec3(a * u.x + b * v.x, a * u.y + b * v.y, a * u.z + b * v.z)
  {
  }

  /** `a (u x v)`, component by component. */
  lemma ScaledCross(a: real, u: Vec3, v: Vec3)
    ensures Scale(a, Cross(u, v)) == Vec3(a * (u.y * v.z - v.y * u.z), a * (u.z * v.x - v.z * u.x), a * (u.x * v.y - v.x * u.y))
  {
  }

  /** The cross product is linear in its first argument and vanishes on `v x v`: `(a u + b v) x v = a (u x v)`. */
  lemma CrossLeft(a: real, b: real, u: Vec3, v: Vec3)
    ensures Cross(Add(Scale(a, u), Scale(b, v)), v) == Scale(a, Cross(u, v))
  {
    Combination(a, b, u, v);
    assert u == Vec3(u.x, u.y, u.z) && v == Vec3(v.x, v.y, v.z);
    CrossComponents(a, b, u.x, u.y, u.z, v.x, v.y, v.z);
    ScaledCross(a, u, v);
  }

  /** The cross product is linear in its second argument and vanishes on `u x u`: `u x (a u + b v) = b (u x v)`. */
  lemma CrossRight(a: real, b: real, u: Vec3, v: Vec3)
    ensures Cross(u, Add(Scale(a, u), Scale(b, v))) == Scale(b, Cross(u, v))
  {
    Combination(a, b, u, v);
    assert u == Vec3(u.x, u.y, u.z) && v == Vec3(v.x, v.y, v.z);
    CrossComponents(a, b, u.x, u.y, u.z, v.x, v.y, v.z);
    ScaledCross(b, u, v);
  }

  /** Scaling either side of a dot product scales the product. */
  lemma DotScale(c: real, u: Vec3, v: Vec3)
    ensures Dot(u, Scale(c, v)) == c * Dot(u, v)
    ensures Dot(Scale(c, u), v) == c * Dot(u, v)
  {
  }

  /** `k (w . n) = n . n` when `n = k w`. */
  lemma ScaledSelfDot(k: real, w: Vec3, n: Vec3)
    requires Scale(k, w) == n
    ensures k * Dot(w, n) == Dot(n, n)
  {
    DotScale(k, w, n);
  }

  /** `w . n = 1` when `(n . n) w = n` and `n . n` is positive. */
  lemma UnitDot(w: Vec3, n: Vec3)
    requires Dot(n, n) > 0.0 && Scale(Dot(n, n), w) == n
    ensures Dot(w, n) == 1.0
  {
    ScaledSelfDot(Dot(n, n), w, n);
    CancelFactor(Dot(n, n), Dot(w, n));
  }

  /** `w . (c n) = c` when `(n . n) w = n` and `n` is not zero. */
  lemma DotScaledNormal(w: Vec3, n: Vec3, c: real)
    requires n != Zero && Scale(Dot(n, n), w) == n
    ensures Dot(w, Scale(c, n)) == c
  {
    NormSquaredPos(n);
    UnitDot(w, n);
    DotScale(c, w, n);
  }

  /** The receiver of the compound operators `+=`, `-=`, `*=` and `/=`. */
  class Vector3d {
    var e: array<real>

    ghost predicate Valid()
      reads this
    {
      e.Length == 3
    }

    function Value(): Vec3
      reads this, e
      requires Valid()
    {
      Vec3(e[0], e[1], e[2])
    }

    constructor (v: Vec3)
      ensures Valid() && fresh(e) && Value() == v
    {
      e := new real[3] [v.x, v.y, v.z];
    }

    /** `operator+=`: every component grows by the matching one of `v`. */
    method AddAssign(v: Vec3)
      requires Valid()
      modifies e
      ensures Valid() && Value() == Add(old(Value()), v)
    {
      e[0] := e[0] + v.x;
      e[1] := e[1] + v.y;
      e[2] := e[2] + v.z;
    }

    /** `operator-=`. */
    method SubAssign(v: Vec3)
      requires Valid()
      modifies e
      ensures Valid() && Value() == Sub(old(Value()), v)
    {
      e[0] := e[0] - v.x;
      e[1] := e[1] - v.y;
      e[2] := e[2] - v.z;
    }

    /** `operator*=`. */
    method MulAssign(t: real)
      requires Valid()
      modifies e
      ensures Valid() && Value() == Scale(t, old(Value()))
    {
      e[0] := e[0] * t;
      e[1] := e[1] * t;
      e[2] := e[2] * t;
    }

    /** `operator/=`, which is `*= 1/t`. */
    method DivAssign(t: real)
      requires Valid() && t != 0.0
      modifies e
      ensures Valid() && Value() == Div(old(Value()), t)
    {
      MulAssign(1.0 / t);
    }
  }

  /** `v += w` followed by `v -= w` gives back the vector that `v` held. */
  method AddThenSubRestores(v: Vector3d, w: Vec3)
    requires v.Valid()
    modifies v.e
    ensures v.Valid() && v.Value() == old(v.Value())
  {
    v.AddAssign(w);
    v.SubAssign(w);
    NegAddSub(old(v.Value()), w);
  }

  /**
   * `sample_in_unit_disk` with its random draws supplied: the first pair whose point
   * (a, b, 0) has squared norm below 1. The source draws until one is found; here the
   * draws may run out, which yields `None`.
   */
  method SampleInUnitDisk(draws: seq<(real, real)>) returns (p: Option<Vec3>)
    ensures p.Some? ==> p.value.z == 0.0 && NormSquared(p.value) < 1.0
    ensures p.Some? <==> exists k :: 0 <= k < |draws| && InDisk(draws[k])
    ensures p.Some? ==> exists k :: 0 <= k < |draws| && p.value == DiskPoint(draws[k])
                          && forall j :: 0 <= j < k ==> !InDisk(draws[j])
  {
    var i := 0;
    while i < |draws|
      invariant 0 <= i <= |draws|
      invariant forall j :: 0 <= j < i ==> !InDisk(draws[j])
    {
      var q := DiskPoint(draws[i]);
      if NormSquared(q) < 1.0 {
        return Some(q);
      }
      i := i + 1;
    }
    return None;
  }

  function DiskPoint(d: (real, real)): Vec3 {
    Vec3(d.0, d.1, 0.0)
  }

  predicate InDisk(d: (real, real)) {
    NormSquared(DiskPoint(d)) < 1.0
  }

  /** A non-zero factor cancels: `k m = k` forces `m = 1`. */
  lemma CancelFactor(k: real, m: real)
    requires k > 0.0 && k * m == k
    ensures m == 1.0
  {
    assert m == (k * m) / k;
  }

  /** `norm()` as the square root of `norm_squared()`: non-negative, and squaring gives it back. */
  ghost predicate IsEuclidean(norm: Vec3 -> real) {
    forall v :: norm(v) >= 0.0 && norm(v) * norm(v) == NormSquared(v)
  }

  /** Dividing a vector by its (positive) norm gives a unit vector. */
  lemma DivByNorm(p: Vec3, n: real)
    requires n > 0.0 && n * n == NormSquared(p)
    ensures NormSquared(Div(p, n)) == 1.0
  {
    var q := Div(p, n);
    var k := n * n;
    assert p.x * p.x == k * (q.x * q.x) by { assert p.x == n * q.x; }
    assert p.y * p.y == k * (q.y * q.y) by { assert p.y == n * q.y; }
    assert p.z * p.z == k * (q.z * q.z) by { assert p.z == n * q.z; }
    var m := NormSquared(q);
    assert k * m == k * (q.x * q.x) + k * (q.y * q.y) + k * (q.z * q.z);
    var sum := p.x * p.x + p.y * p.y + p.z * p.z;
    assert NormSquared(p) == sum;
    assert sum == k;
    assert k * m == sum;
    assert k * m == k;
    calc { k; == n * n; > 0.0; }
    CancelFactor(k, m);
  }

  /** The draw `sample_random_dir` accepts: a norm in `(1e-160, 1]`. */
  predicate Accepted(p: Vec3, norm: Vec3 -> real) {
    1.0e-160 < norm(p) <= 1.0
  }

  /**
   * `sample_random_dir` with its draws of `Vector3d::sample(-1, 1)` supplied: the first draw
   * whose norm lies in `(1e-160, 1]`, divided by that norm; `None` when the draws run out.
   */
  method SampleRandomDir(draws: seq<Vec3>, norm: Vec3 -> real) returns (d: Option<Vec3>)
    requires IsEuclidean(norm)
    ensures d.Some? <==> exists k :: 0 <= k < |draws| && Accepted(draws[k], norm)
    ensures d.Some? ==> NormSquared(d.value) == 1.0
    ensures d.Some? ==> exists k :: 0 <= k < |draws| && Accepted(draws[k], norm) &&
                          d.value == Div(draws[k], norm(draws[k])) &&
                          forall j :: 0 <= j < k ==> !Accepted(draws[j], norm)
  {
    var i := 0;
    while i < |draws|
      invariant 0 <= i <= |draws|
      invariant forall j :: 0 <= j < i ==> !Accepted(draws[j], norm)
    {
      var p := draws[i];
      var pNorm := norm(p);
      if 1.0e-160 < pNorm && pNorm <= 1.0 {
        DivByNorm(p, pNorm);
        return Some(Div(p, pNorm));
      }
      i := i + 1;
    }
    return None;
  }

  /** `sample_outward_dir(N)` given the random direction: flipped into N's hemisphere. */
  function SampleOutwardDir(randomDir: Vec3, n: Vec3): (r: Vec3)
    ensures r == randomDir || r == Neg(randomDir)
    ensures Dot(r, n) >= 0.0
    ensures Dot(randomDir, n) > 0.0 ==> r == randomDir
    ensures Dot(randomDir, n) <= 0.0 ==> r == Neg(randomDir)
  {
    if Dot(randomDir, n) > 0.0 then randomDir else Neg(randomDir)
  }
}
