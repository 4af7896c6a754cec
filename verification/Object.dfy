/**
 * Object.h: the intersection record, the contract every `Object::intersect` keeps, and the
 * two instancing wrappers `Translate` and `RotateY`.
 */
module Objects {
  import opened Intervals
  import opened Vectors
  import opened Rays
  import opened Boxes
  import opened Materials

  /** `Intersection`; `m` of a record no object has written yet is the base material. */
  datatype Isect = Isect(p: Vec3, normal: Vec3, m: Material, texU: real, texV: real,
                         distance: real, outside: bool)

  /** A default-constructed `Intersection`. */
  const Blank: Isect := Isect(Zero, Zero, Base, 0.0, 0.0, 0.0, false)

  /** What `intersect(ri, t_interval, isect)` returns, with the record it leaves in `isect`. */
  datatype HitResult = HitResult(hit: bool, rec: Isect)

  /**
   * `set_normal(ri, outward_normal)`: the record faces the normal against the ray and notes
   * which side was hit; nothing else in the record changes.
   */
  function SetNormal(rec: Isect, ri: Ray, outward: Vec3): (r: Isect)
    ensures r.outside <==> Dot(ri.direction, outward) < 0.0
    ensures r.outside ==> r.normal == outward
    ensures !r.outside ==> r.normal == Neg(outward)
    ensures Dot(ri.direction, r.normal) <= 0.0
    ensures r == rec.(normal := r.normal, outside := r.outside)
  {
    DotNeg(ri.direction, outward);
    var outside := Dot(ri.direction, outward) < 0.0;
    rec.(outside := outside, normal := if outside then outward else Neg(outward))
  }

  // ---------------------------------------------------------------------------------------
  // The contract of `Object::intersect`, for an object `o` answered by the hit function `h`.
  // ---------------------------------------------------------------------------------------

  /** `intersect` of the object `o` with ray, window and incoming record. */
  type HitFn<!O> = (O, Ray, Interval, Isect) -> HitResult

  /** A miss leaves the record as it was. */
  ghost predicate MissKeeps<O>(h: HitFn<O>, o: O) {
    forall r, w, rec :: !h(o, r, w, rec).hit ==> h(o, r, w, rec).rec == rec
  }

  /** Whether the object is hit, and where, does not depend on the incoming record. */
  ghost predicate RecordFree<O>(h: HitFn<O>, o: O) {
    forall r, w, rec ::
      h(o, r, w, rec).hit == h(o, r, w, Blank).hit &&
      (h(o, r, w, rec).hit ==> h(o, r, w, rec).rec.distance == h(o, r, w, Blank).rec.distance)
  }

  /** A reported hit lies in the window. */
  ghost predicate InWindow<O>(h: HitFn<O>, o: O) {
    forall r, w, rec :: h(o, r, w, rec).hit ==> w.Contains(h(o, r, w, rec).rec.distance)
  }

  /**
   * Lowering the far end of the window to `w2.max` keeps exactly the hits closer than the new
   * end (a hit exactly at the new end may go either way): a hit in the smaller window is the
   * hit of the larger one, and a hit of the larger one strictly before `w2.max` survives.
   */
  ghost predicate Shrinks<O>(h: HitFn<O>, o: O) {
    forall r: Ray, w1: Interval, w2: Interval, rec: Isect {:trigger h(o, r, w1, rec), h(o, r, w2, rec)} ::
      w2.min == w1.min && Le(w2.max, w1.max) ==>
        (h(o, r, w2, rec).hit ==>
           h(o, r, w1, rec).hit && h(o, r, w1, rec).rec.distance == h(o, r, w2, rec).rec.distance) &&
        (h(o, r, w1, rec).hit && Lt(Fin(h(o, r, w1, rec).rec.distance), w2.max) ==>
           h(o, r, w2, rec).hit && h(o, r, w2, rec).rec.distance == h(o, r, w1, rec).rec.distance)
  }

  /** The four together: the contract every object of the scene keeps. */
  ghost predicate Behaved<O>(h: HitFn<O>, o: O) {
    MissKeeps(h, o) && RecordFree(h, o) && InWindow(h, o) && Shrinks(h, o)
  }

  /**
   * The four clauses of `Behaved` for one ray and one record, stated on three calls: `a` with
   * window `w1` and record `rec`, `blank` with `w1` and `Blank`, and `b` with `w2` and `rec`.
   */
  ghost predicate CallsOk(a: HitResult, blank: HitResult, b: HitResult, w1: Interval, w2: Interval, rec: Isect) {
    (!a.hit ==> a.rec == rec) &&
    a.hit == blank.hit && (a.hit ==> a.rec.distance == blank.rec.distance) &&
    (a.hit ==> w1.Contains(a.rec.distance)) &&
    (w2.min == w1.min && Le(w2.max, w1.max) ==>
       (b.hit ==> a.hit && a.rec.distance == b.rec.distance) &&
       (a.hit && Lt(Fin(a.rec.distance), w2.max) ==> b.hit && b.rec.distance == a.rec.distance))
  }

  /** An object whose calls all keep `CallsOk` is `Behaved`. */
  lemma BehavedFromCalls<O>(h: HitFn<O>, o: O)
    requires forall r, w1, w2, rec :: CallsOk(h(o, r, w1, rec), h(o, r, w1, Blank), h(o, r, w2, rec), w1, w2, rec)
    ensures Behaved(h, o)
  {
    forall r, w, rec
      ensures !h(o, r, w, rec).hit ==> h(o, r, w, rec).rec == rec
      ensures h(o, r, w, rec).hit == h(o, r, w, Blank).hit
      ensures h(o, r, w, rec).hit ==> h(o, r, w, rec).rec.distance == h(o, r, w, Blank).rec.distance
      ensures h(o, r, w, rec).hit ==> w.Contains(h(o, r, w, rec).rec.distance)
    {
      assert CallsOk(h(o, r, w, rec), h(o, r, w, Blank), h(o, r, w, rec), w, w, rec);
    }
  }

  /**
   * The object's box is a true bound: a hit in an open window lets the ray pass the slab test
   * of the object's box in that window.
   */
  ghost predicate Bounded<O>(h: HitFn<O>, box: O -> AABB, o: O) {
    forall r, w, rec :: DirOk(r) && Open(w) && h(o, r, w, rec).hit ==> Slab(box(o), r, w)
  }

  /**
   * `r` answers the closest-hit query over the objects `objs` in the window `w`: a hit is at
   * the distance of some object's own hit, no object hits nearer, and when the window is open
   * and some object hits, so does `r`.
   */
  ghost predicate IsClosest<O>(h: HitFn<O>, objs: seq<O>, ri: Ray, w: Interval, r: HitResult) {
    (r.hit ==> exists o :: o in objs && h(o, ri, w, Blank).hit && h(o, ri, w, Blank).rec.distance == r.rec.distance) &&
    (r.hit ==> forall o :: o in objs && h(o, ri, w, Blank).hit ==> r.rec.distance <= h(o, ri, w, Blank).rec.distance) &&
    (Open(w) && (exists o :: o in objs && h(o, ri, w, Blank).hit) ==> r.hit)
  }

  /**
   * Two answers to the closest-hit query over the same objects in an open window agree on
   * whether there is a hit and on its distance.
   */
  lemma ClosestUnique<O>(h: HitFn<O>, objs1: seq<O>, objs2: seq<O>, ri: Ray, w: Interval, r1: HitResult, r2: HitResult)
    requires forall o :: o in objs1 <==> o in objs2
    requires Open(w) && IsClosest(h, objs1, ri, w, r1) && IsClosest(h, objs2, ri, w, r2)
    ensures r1.hit == r2.hit
    ensures r1.hit ==> r1.rec.distance == r2.rec.distance
  {
    if r1.hit {
      var o1 :| o1 in objs1 && h(o1, ri, w, Blank).hit && h(o1, ri, w, Blank).rec.distance == r1.rec.distance;
      assert r2.hit;
      var o2 :| o2 in objs2 && h(o2, ri, w, Blank).hit && h(o2, ri, w, Blank).rec.distance == r2.rec.distance;
      assert r1.rec.distance <= h(o2, ri, w, Blank).rec.distance;
    }
  }

  // ---------------------------------------------------------------------------------------
  // Translate
  // ---------------------------------------------------------------------------------------

  /** The ray `Translate::intersect` hands to the inner object: origin moved by `-offset`. */
  function TranslateRay(ri: Ray, offset: Vec3): (r: Ray)
    ensures r.direction == ri.direction && r.time == ri.time
    ensures Add(r.origin, offset) == ri.origin
  {
    Ray(Sub(ri.origin, offset), ri.direction, ri.time)
  }

  /** After an inner hit only the hit point moves back by `+offset`; a miss is passed on. */
  function TranslateHit(inner: HitResult, offset: Vec3): (r: HitResult)
    ensures r.hit == inner.hit
    ensures !inner.hit ==> r == inner
    ensures inner.hit ==> r.rec == inner.rec.(p := Add(inner.rec.p, offset))
  {
    if !inner.hit then inner else HitResult(true, inner.rec.(p := Add(inner.rec.p, offset)))
  }

  /** The point at distance `t` on the moved ray, moved back, is the point at `t` on the ray. */
  lemma TranslateAt(ri: Ray, offset: Vec3, t: real)
    ensures Add(At(TranslateRay(ri, offset), t), offset) == At(ri, t)
  {
  }

  // ---------------------------------------------------------------------------------------
  // RotateY (with `cos_theta` and `sin_theta` given)
  // ---------------------------------------------------------------------------------------

  /** The world-to-object map of `RotateY::intersect`, a rotation about y by `-theta`. */
  function ToObject(c: real, s: real, v: Vec3): (r: Vec3)
    ensures r.y == v.y
  {
    Vec3(c * v.x - s * v.z, v.y, s * v.x + c * v.z)
  }

  /** The object-to-world map, a rotation about y by `theta`; the bbox loop uses it too. */
  function ToWorld(c: real, s: real, v: Vec3): (r: Vec3)
    ensures r.y == v.y
  {
    Vec3(c * v.x + s * v.z, v.y, -s * v.x + c * v.z)
  }

  /** The two planar components of a rotation undone by the opposite rotation. */
  lemma RotationComponents(c: real, s: real, x: real, z: real)
    requires c * c + s * s == 1.0
    ensures c * (c * x - s * z) + s * (s * x + c * z) == x
    ensures -s * (c * x - s * z) + c * (s * x + c * z) == z
    ensures c * (c * x + s * z) - s * (-s * x + c * z) == x
    ensures s * (c * x + s * z) + c * (-s * x + c * z) == z
  {
    calc {
      c * (c * x - s * z) + s * (s * x + c * z);
      == c * c * x - c * s * z + s * s * x + s * c * z;
      == (c * c + s * s) * x;
    }
    calc {
      -s * (c * x - s * z) + c * (s * x + c * z);
      == -s * c * x + s * s * z + c * s * x + c * c * z;
      == (c * c + s * s) * z;
    }
    calc {
      c * (c * x + s * z) - s * (-s * x + c * z);
      == c * c * x + c * s * z + s * s * x - s * c * z;
      == (c * c + s * s) * x;
    }
    calc {
      s * (c * x + s * z) + c * (-s * x + c * z);
      == s * c * x + s * s * z - c * s * x + c * c * z;
      == (c * c + s * s) * z;
    }
  }

  /** With `cos^2 + sin^2 = 1` the two maps of `RotateY::intersect` undo each other. */
  lemma RotateInverse(c: real, s: real, v: Vec3)
    requires c * c + s * s == 1.0
    ensures ToWorld(c, s, ToObject(c, s, v)) == v
    ensures ToObject(c, s, ToWorld(c, s, v)) == v
  {
    RotationComponents(c, s, v.x, v.z);
    var o, w := ToObject(c, s, v), ToWorld(c, s, v);
    assert ToWorld(c, s, o) == Vec3(c * (c * v.x - s * v.z) + s * (s * v.x + c * v.z), v.y,
                                    -s * (c * v.x - s * v.z) + c * (s * v.x + c * v.z));
    assert ToObject(c, s, w) == Vec3(c * (c * v.x + s * v.z) - s * (-s * v.x + c * v.z), v.y,
                                     s * (c * v.x + s * v.z) + c * (-s * v.x + c * v.z));
  }

  /** The ray handed to the inner object: origin and direction rotated, time kept. */
  function RotateRay(ri: Ray, c: real, s: real): (r: Ray)
    ensures r.origin.y == ri.origin.y && r.direction.y == ri.direction.y && r.time == ri.time
  {
    Ray(ToObject(c, s, ri.origin), ToObject(c, s, ri.direction), ri.time)
  }

  /** After an inner hit the hit point and the normal are rotated back; a miss is passed on. */
  function RotateHit(inner: HitResult, c: real, s: real): (r: HitResult)
    ensures r.hit == inner.hit
    ensures !inner.hit ==> r == inner
    ensures inner.hit ==> r.rec == inner.rec.(p := ToWorld(c, s, inner.rec.p),
                                              normal := ToWorld(c, s, inner.rec.normal))
  {
    if !inner.hit then inner
    else HitResult(true, inner.rec.(p := ToWorld(c, s, inner.rec.p),
                                    normal := ToWorld(c, s, inner.rec.normal)))
  }

  /** The rotation is linear: it commutes with sums and with scaling. */
  lemma ToObjectLinear(c: real, s: real, u: Vec3, v: Vec3, t: real)
    ensures ToObject(c, s, Add(u, v)) == Add(ToObject(c, s, u), ToObject(c, s, v))
    ensures ToObject(c, s, Scale(t, v)) == Scale(t, ToObject(c, s, v))
  {
    ToObjectAdd(c, s, u, v);
    ToObjectScale(c, s, v, t);
  }

  lemma ToObjectAdd(c: real, s: real, u: Vec3, v: Vec3)
    ensures ToObject(c, s, Add(u, v)) == Add(ToObject(c, s, u), ToObject(c, s, v))
  {
  }

  lemma ToObjectScale(c: real, s: real, v: Vec3, t: real)
    ensures ToObject(c, s, Scale(t, v)) == Scale(t, ToObject(c, s, v))
  {
    RotateScaled(c, s, t, v.x, v.z);
    assert Scale(t, v) == Vec3(t * v.x, t * v.y, t * v.z);
  }

  /** The planar rotation formulas commute with a common factor. */
  lemma RotateScaled(c: real, s: real, t: real, x: real, z: real)
    ensures c * (t * x) - s * (t * z) == t * (c * x - s * z)
    ensures s * (t * x) + c * (t * z) == t * (s * x + c * z)
  {
  }

  /**
   * Rotating commutes with walking along the ray, so the inner object's hit at distance `t`
   * rotated back is the point at distance `t` on the world ray.
   */
  lemma RotateAt(ri: Ray, c: real, s: real, t: real)
    requires c * c + s * s == 1.0
    ensures ToObject(c, s, At(ri, t)) == At(RotateRay(ri, c, s), t)
    ensures ToWorld(c, s, At(RotateRay(ri, c, s), t)) == At(ri, t)
  {
    ToObjectLinear(c, s, ri.origin, Scale(t, ri.direction), t);
    ToObjectLinear(c, s, ri.direction, ri.direction, t);
    RotateInverse(c, s, At(ri, t));
  }

  // ---------------------------------------------------------------------------------------
  // The RotateY bounding box
  // ---------------------------------------------------------------------------------------

  /** The end the loop picks with `i * hi + (1 - i) * lo`: the low end for 0, the high end for 1. */
  function Pick(i: int, lo: real, hi: real): real
    requires i == 0 || i == 1
  {
    if i == 0 then lo else hi
  }

  /** `Pick` is the factor form the loop writes. */
  lemma PickFactorForm(i: int, lo: real, hi: real)
    requires i == 0 || i == 1
    ensures Pick(i, lo, hi) == i as real * hi + (1 - i) as real * lo
  {
  }

  /** The box corner with index `(i, j, k)`. */
  function CornerPoint(b: AABB, i: int, j: int, k: int): Vec3
    requires Finite(b)
    requires (i == 0 || i == 1) && (j == 0 || j == 1) && (k == 0 || k == 1)
  {
    Vec3(Pick(i, b.x.min.v, b.x.max.v), Pick(j, b.y.min.v, b.y.max.v), Pick(k, b.z.min.v, b.z.max.v))
  }

  /** The box corner with index `(i, j, k)`, rotated into world space. */
  function Corner(b: AABB, c: real, s: real, i: int, j: int, k: int): Vec3
    requires Finite(b)
    requires (i == 0 || i == 1) && (j == 0 || j == 1) && (k == 0 || k == 1)
  {
    ToWorld(c, s, CornerPoint(b, i, j, k))
  }

  /** The points the loop of the `RotateY` constructor visits as written: x, y and z all use `i`. */
  function AsWrittenCorners(b: AABB, c: real, s: real): seq<Vec3>
    requires Finite(b)
  {
    [Corner(b, c, s, 0, 0, 0), Corner(b, c, s, 0, 0, 0), Corner(b, c, s, 0, 0, 0), Corner(b, c, s, 0, 0, 0),
     Corner(b, c, s, 1, 1, 1), Corner(b, c, s, 1, 1, 1), Corner(b, c, s, 1, 1, 1), Corner(b, c, s, 1, 1, 1)]
  }

  /** The eight corners in loop order, as the loop is evidently meant to visit them. */
  function AllCorners(b: AABB, c: real, s: real): seq<Vec3>
    requires Finite(b)
  {
    [Corner(b, c, s, 0, 0, 0), Corner(b, c, s, 0, 0, 1), Corner(b, c, s, 0, 1, 0), Corner(b, c, s, 0, 1, 1),
     Corner(b, c, s, 1, 0, 0), Corner(b, c, s, 1, 0, 1), Corner(b, c, s, 1, 1, 0), Corner(b, c, s, 1, 1, 1)]
  }

  /** Loop position `(i, j, k)` is entry `4i + 2j + k` of the list. */
  lemma CornerAt(b: AABB, c: real, s: real, i: int, j: int, k: int)
    requires Finite(b)
    requires (i == 0 || i == 1) && (j == 0 || j == 1) && (k == 0 || k == 1)
    ensures 0 <= 4 * i + 2 * j + k < 8
    ensures AllCorners(b, c, s)[4 * i + 2 * j + k] == Corner(b, c, s, i, j, k)
  {
  }

  /** As written, position `(i, j, k)` holds the corner `(i, i, i)`. */
  lemma AsWrittenCornerAt(b: AABB, c: real, s: real, i: int, j: int, k: int)
    requires Finite(b)
    requires (i == 0 || i == 1) && (j == 0 || j == 1) && (k == 0 || k == 1)
    ensures 0 <= 4 * i + 2 * j + k < 8
    ensures AsWrittenCorners(b, c, s)[4 * i + 2 * j + k] == Corner(b, c, s, i, i, i)
  {
  }

  /** `std::fmin` folded over component `d` of the points, starting from `+infinity`. */
  function MinOver(ps: seq<Vec3>, d: int): (r: Ext)
    requires 0 <= d < 3
    ensures |ps| > 0 ==> r.Fin?
  {
    if |ps| == 0 then PosInf else Min(MinOver(ps[..|ps| - 1], d), Fin(Get(ps[|ps| - 1], d)))
  }

  /** `std::fmax` folded over component `d`, starting from `-infinity`. */
  function MaxOver(ps: seq<Vec3>, d: int): (r: Ext)
    requires 0 <= d < 3
    ensures |ps| > 0 ==> r.Fin?
  {
    if |ps| == 0 then NegInf else Max(MaxOver(ps[..|ps| - 1], d), Fin(Get(ps[|ps| - 1], d)))
  }

  /** The folds are finite once a point is folded, and bound every folded point. */
  lemma {:induction false} FoldBounds(ps: seq<Vec3>, d: int)
    requires 0 <= d < 3
    ensures forall k :: 0 <= k < |ps| ==> Le(MinOver(ps, d), Fin(Get(ps[k], d))) && Le(Fin(Get(ps[k], d)), MaxOver(ps, d))
  {
    if |ps| > 0 {
      var front := ps[..|ps| - 1];
      FoldBounds(front, d);
      forall k | 0 <= k < |ps| - 1
        ensures Le(MinOver(ps, d), Fin(Get(ps[k], d))) && Le(Fin(Get(ps[k], d)), MaxOver(ps, d))
      {
        assert ps[k] == front[k];
        LeTrans(MinOver(ps, d), MinOver(front, d), Fin(Get(ps[k], d)));
        LeTrans(Fin(Get(ps[k], d)), MaxOver(front, d), MaxOver(ps, d));
      }
    }
  }

  /** `AABB(min, max)` over the folded extremes of a non-empty list of points. */
  function CornersBox(ps: seq<Vec3>): AABB
    requires |ps| > 0
  {
    FromPoints(Vec3(MinOver(ps, 0).v, MinOver(ps, 1).v, MinOver(ps, 2).v),
               Vec3(MaxOver(ps, 0).v, MaxOver(ps, 1).v, MaxOver(ps, 2).v))
  }

  /** `lo` and `hi` hold the component-wise fmin and fmax of the first `n` points. */
  predicate Folded(ps: seq<Vec3>, n: nat, lo: seq<Ext>, hi: seq<Ext>)
    requires n <= |ps|
  {
    |lo| == 3 && |hi| == 3 &&
    forall d :: 0 <= d < 3 ==> lo[d] == MinOver(ps[..n], d) && hi[d] == MaxOver(ps[..n], d)
  }

  /**
   * The innermost `dim` loop: every component of `lo`/`hi` takes the fmin/fmax with the
   * point `v`, which folds the next point of the list.
   */
  method Accumulate(ps: seq<Vec3>, n: nat, lo: seq<Ext>, hi: seq<Ext>, v: Vec3) returns (lo': seq<Ext>, hi': seq<Ext>)
    requires n < |ps| && v == ps[n] && Folded(ps, n, lo, hi)
    ensures Folded(ps, n + 1, lo', hi')
  {
    assert ps[..n + 1][..n] == ps[..n];
    lo', hi' := lo, hi;
    for dim := 0 to 3
      invariant |lo'| == 3 && |hi'| == 3
      invariant forall d :: 0 <= d < dim ==> lo'[d] == MinOver(ps[..n + 1], d) && hi'[d] == MaxOver(ps[..n + 1], d)
      invariant forall d :: dim <= d < 3 ==> lo'[d] == lo[d] && hi'[d] == hi[d]
    {
      lo' := lo'[dim := Min(lo'[dim], Fin(Get(v, dim)))];
      hi' := hi'[dim := Max(hi'[dim], Fin(Get(v, dim)))];
    }
  }

  /** The box of the loop's result: `AABB(min, max)` once all eight points are folded. */
  lemma FoldedBox(ps: seq<Vec3>, lo: seq<Ext>, hi: seq<Ext>)
    requires |ps| == 8 && Folded(ps, 8, lo, hi)
    ensures lo[0].Fin? && lo[1].Fin? && lo[2].Fin? && hi[0].Fin? && hi[1].Fin? && hi[2].Fin?
    ensures CornersBox(ps) == FromPoints(Vec3(lo[0].v, lo[1].v, lo[2].v), Vec3(hi[0].v, hi[1].v, hi[2].v))
  {
    assert ps[..8] == ps;
    FoldBounds(ps, 0);
    FoldBounds(ps, 1);
    FoldBounds(ps, 2);
  }

  /**
   * The bbox loop of the `RotateY` constructor as written: the nested `i`, `j`, `k` loops
   * derive x, y and z all from `i`, so only two opposite corners are rotated.
   */
  method RotatedBoxAsWritten(b: AABB, c: real, s: real) returns (r: AABB)
    requires Finite(b)
    ensures r == CornersBox(AsWrittenCorners(b, c, s))
  {
    var ps := AsWrittenCorners(b, c, s);
    var lo, hi := [PosInf, PosInf, PosInf], [NegInf, NegInf, NegInf];
    for i := 0 to 2
      invariant Folded(ps, 4 * i, lo, hi)
    {
      for j := 0 to 2
        invariant Folded(ps, 4 * i + 2 * j, lo, hi)
      {
        for k := 0 to 2
          invariant Folded(ps, 4 * i + 2 * j + k, lo, hi)
        {
          var x := Pick(i, b.x.min.v, b.x.max.v);
          var y := Pick(i, b.y.min.v, b.y.max.v);
          var z := Pick(i, b.z.min.v, b.z.max.v);
          var v := ToWorld(c, s, Vec3(x, y, z));
          AsWrittenCornerAt(b, c, s, i, j, k);
          assert v == Corner(b, c, s, i, i, i);
          lo, hi := Accumulate(ps, 4 * i + 2 * j + k, lo, hi, v);
        }
      }
    }
    FoldedBox(ps, lo, hi);
    r := FromPoints(Vec3(lo[0].v, lo[1].v, lo[2].v), Vec3(hi[0].v, hi[1].v, hi[2].v));
  }

  /** The same loop with x, y and z taken from `i`, `j` and `k`: all eight corners. */
  method RotatedBox(b: AABB, c: real, s: real) returns (r: AABB)
    requires Finite(b)
    ensures r == CornersBox(AllCorners(b, c, s))
  {
    var ps := AllCorners(b, c, s);
    var lo, hi := [PosInf, PosInf, PosInf], [NegInf, NegInf, NegInf];
    for i := 0 to 2
      invariant Folded(ps, 4 * i, lo, hi)
    {
      for j := 0 to 2
        invariant Folded(ps, 4 * i + 2 * j, lo, hi)
      {
        for k := 0 to 2
          invariant Folded(ps, 4 * i + 2 * j + k, lo, hi)
        {
          var x := Pick(i, b.x.min.v, b.x.max.v);
          var y := Pick(j, b.y.min.v, b.y.max.v);
          var z := Pick(k, b.z.min.v, b.z.max.v);
          var v := ToWorld(c, s, Vec3(x, y, z));
          CornerAt(b, c, s, i, j, k);
          lo, hi := Accumulate(ps, 4 * i + 2 * j + k, lo, hi, v);
        }
      }
    }
    FoldedBox(ps, lo, hi);
    r := FromPoints(Vec3(lo[0].v, lo[1].v, lo[2].v), Vec3(hi[0].v, hi[1].v, hi[2].v));
  }

  // ---------------------------------------------------------------------------------------
  // What the two versions of the loop bound
  // ---------------------------------------------------------------------------------------

  /** Multiplying by a number that is not negative keeps the order. */
  lemma MulUp(c: real, u: real, v: real)
    requires c >= 0.0 && u <= v
    ensures c * u <= c * v
  {
    assert c * v - c * u == c * (v - u);
  }

  /** Multiplying by a negative number turns the order round. */
  lemma MulDown(c: real, u: real, v: real)
    requires c < 0.0 && u <= v
    ensures c * v <= c * u
  {
    assert c * u - c * v == (-c) * (v - u);
  }

  /** Sums keep the order of their terms. */
  lemma AddLe(p: real, q: real, p0: real, q0: real)
    requires p0 <= p && q0 <= q
    ensures p0 + q0 <= p + q
  {
  }

  /** A value between two of the points, on component `d`, lies between the two folds. */
  lemma FoldBetween(ps: seq<Vec3>, d: int, v: real, k1: int, k2: int)
    requires 0 <= d < 3 && 0 <= k1 < |ps| && 0 <= k2 < |ps|
    requires Get(ps[k1], d) <= v <= Get(ps[k2], d)
    ensures MinOver(ps, d).v <= v <= MaxOver(ps, d).v
  {
    FoldBounds(ps, d);
  }

  /** The planar linear form `a x + b z` that each rotated component is made of. */
  function Lin(a: real, b: real, x: real, z: real): real {
    a * x + b * z
  }

  /** The x and z of `ToWorld` as planar linear forms. */
  lemma ToWorldLin(c: real, s: real, v: Vec3)
    ensures ToWorld(c, s, v).x == Lin(c, s, v.x, v.z)
    ensures ToWorld(c, s, v).z == Lin(-s, c, v.x, v.z)
  {
  }

  /** `a x + b z` grows when `x` moves in the direction of `a`'s sign and `z` in `b`'s. */
  lemma LinMono(a: real, b: real, x: real, z: real, x2: real, z2: real)
    requires (a >= 0.0 ==> x <= x2) && (a < 0.0 ==> x2 <= x)
    requires (b >= 0.0 ==> z <= z2) && (b < 0.0 ==> z2 <= z)
    ensures Lin(a, b, x, z) <= Lin(a, b, x2, z2)
  {
    if a >= 0.0 { MulUp(a, x, x2); } else { MulDown(a, x2, x); }
    if b >= 0.0 { MulUp(b, z, z2); } else { MulDown(b, z2, z); }
    AddLe(a * x2, b * z2, a * x, b * z);
  }

  /** `a x + b z` over a rectangle of `(x, z)` is bounded below and above by corner values. */
  lemma PlanarBetween(a: real, b: real, x: real, z: real, x0: real, x1: real, z0: real, z1: real)
    requires x0 <= x <= x1 && z0 <= z <= z1
    ensures Lin(a, b, x, z) >= Lin(a, b, x0, z0) || Lin(a, b, x, z) >= Lin(a, b, x1, z0) ||
            Lin(a, b, x, z) >= Lin(a, b, x0, z1) || Lin(a, b, x, z) >= Lin(a, b, x1, z1)
    ensures Lin(a, b, x, z) <= Lin(a, b, x0, z0) || Lin(a, b, x, z) <= Lin(a, b, x1, z0) ||
            Lin(a, b, x, z) <= Lin(a, b, x0, z1) || Lin(a, b, x, z) <= Lin(a, b, x1, z1)
  {
    if a >= 0.0 && b >= 0.0 {
      LinMono(a, b, x0, z0, x, z);
      LinMono(a, b, x, z, x1, z1);
    } else if a >= 0.0 {
      LinMono(a, b, x0, z1, x, z);
      LinMono(a, b, x, z, x1, z0);
    } else if b >= 0.0 {
      LinMono(a, b, x1, z0, x, z);
      LinMono(a, b, x, z, x0, z1);
    } else {
      LinMono(a, b, x1, z1, x, z);
      LinMono(a, b, x, z, x0, z0);
    }
  }

  /**
   * Over a rectangle of the xz-plane with corners `u00`, `u10`, `u01`, `u11` (first index x,
   * second z), the world x of a rotated point is bounded below and above by corner values.
   */
  lemma PlanarCornersX(c: real, s: real, p: Vec3, u00: Vec3, u10: Vec3, u01: Vec3, u11: Vec3)
    requires u00.x == u01.x <= p.x <= u10.x == u11.x
    requires u00.z == u10.z <= p.z <= u01.z == u11.z
    ensures var q := ToWorld(c, s, p).x;
            (q >= ToWorld(c, s, u00).x || q >= ToWorld(c, s, u10).x || q >= ToWorld(c, s, u01).x || q >= ToWorld(c, s, u11).x) &&
            (q <= ToWorld(c, s, u00).x || q <= ToWorld(c, s, u10).x || q <= ToWorld(c, s, u01).x || q <= ToWorld(c, s, u11).x)
  {
    ToWorldLin(c, s, p);
    ToWorldLin(c, s, u00);
    ToWorldLin(c, s, u10);
    ToWorldLin(c, s, u01);
    ToWorldLin(c, s, u11);
    PlanarBetween(c, s, p.x, p.z, u00.x, u10.x, u00.z, u01.z);
  }

  /** The same for the world z. */
  lemma PlanarCornersZ(c: real, s: real, p: Vec3, u00: Vec3, u10: Vec3, u01: Vec3, u11: Vec3)
    requires u00.x == u01.x <= p.x <= u10.x == u11.x
    requires u00.z == u10.z <= p.z <= u01.z == u11.z
    ensures var q := ToWorld(c, s, p).z;
            (q >= ToWorld(c, s, u00).z || q >= ToWorld(c, s, u10).z || q >= ToWorld(c, s, u01).z || q >= ToWorld(c, s, u11).z) &&
            (q <= ToWorld(c, s, u00).z || q <= ToWorld(c, s, u10).z || q <= ToWorld(c, s, u01).z || q <= ToWorld(c, s, u11).z)
  {
    ToWorldLin(c, s, p);
    ToWorldLin(c, s, u00);
    ToWorldLin(c, s, u10);
    ToWorldLin(c, s, u01);
    ToWorldLin(c, s, u11);
    PlanarBetween(-s, c, p.x, p.z, u00.x, u10.x, u00.z, u01.z);
  }

  /** A rotated point of the box lies within the folds of the eight rotated corners. */
  lemma RotatedInFolds(b: AABB, c: real, s: real, p: Vec3)
    requires Finite(b) && ContainsPoint(b, p)
    ensures MinOver(AllCorners(b, c, s), 0).v <= ToWorld(c, s, p).x <= MaxOver(AllCorners(b, c, s), 0).v
    ensures MinOver(AllCorners(b, c, s), 1).v <= ToWorld(c, s, p).y <= MaxOver(AllCorners(b, c, s), 1).v
    ensures MinOver(AllCorners(b, c, s), 2).v <= ToWorld(c, s, p).z <= MaxOver(AllCorners(b, c, s), 2).v
  {
    var ps := AllCorners(b, c, s);
    var u00, u10, u01, u11 := CornerPoint(b, 0, 0, 0), CornerPoint(b, 1, 0, 0), CornerPoint(b, 0, 0, 1), CornerPoint(b, 1, 0, 1);
    PlanarCornersX(c, s, p, u00, u10, u01, u11);
    PlanarCornersZ(c, s, p, u00, u10, u01, u11);
    CornerAt(b, c, s, 0, 0, 0);
    CornerAt(b, c, s, 1, 0, 0);
    CornerAt(b, c, s, 0, 0, 1);
    CornerAt(b, c, s, 1, 0, 1);
    CornerAt(b, c, s, 0, 1, 0);
    var q := ToWorld(c, s, p);
    for d := 0 to 3
      invariant forall e :: 0 <= e < d ==> MinOver(ps, e).v <= Get(q, e) <= MaxOver(ps, e).v
    {
      var lo := if Get(q, d) >= Get(ps[0], d) then 0 else if Get(q, d) >= Get(ps[4], d) then 4
                else if Get(q, d) >= Get(ps[1], d) then 1 else 5;
      var hi := if Get(q, d) <= Get(ps[0], d) then 0 else if Get(q, d) <= Get(ps[4], d) then 4
                else if Get(q, d) <= Get(ps[1], d) then 1 else 5;
      if d == 1 {
        lo, hi := 0, 2;
      }
      FoldBetween(ps, d, Get(q, d), lo, hi);
    }
  }

  /** The corrected loop's box holds every point of the inner box once rotated, for any angle. */
  lemma RotatedBoxContains(b: AABB, c: real, s: real, p: Vec3)
    requires Finite(b) && ContainsPoint(b, p)
    ensures ContainsPoint(CornersBox(AllCorners(b, c, s)), ToWorld(c, s, p))
  {
    var ps := AllCorners(b, c, s);
    RotatedInFolds(b, c, s, p);
    FromPointsBetween(Vec3(MinOver(ps, 0).v, MinOver(ps, 1).v, MinOver(ps, 2).v),
                      Vec3(MaxOver(ps, 0).v, MaxOver(ps, 1).v, MaxOver(ps, 2).v), ToWorld(c, s, p));
  }

  /** A lower bound on every point is a lower bound on the fold. */
  lemma {:induction false} MinOverAtLeast(ps: seq<Vec3>, d: int, m: real)
    requires 0 <= d < 3 && |ps| > 0
    requires forall k :: 0 <= k < |ps| ==> Get(ps[k], d) >= m
    ensures MinOver(ps, d).v >= m
  {
    if |ps| > 1 {
      MinOverAtLeast(ps[..|ps| - 1], d, m);
    }
  }

  /** A lower bound on the z fold bounds the z axis of the box from below, up to the padding. */
  lemma ZAxisAbove(ps: seq<Vec3>, m: real)
    requires |ps| > 0 && MinOver(ps, 2).v >= m
    ensures Le(Fin(m - Delta / 2.0), CornersBox(ps).z.min)
  {
    FoldBounds(ps, 2);
  }

  /** A point further below every folded z than the padding is outside the folded box. */
  lemma FoldAboveMisses(ps: seq<Vec3>, m: real, q: Vec3)
    requires |ps| > 0 && forall k :: 0 <= k < |ps| ==> ps[k].z >= m
    requires q.z < m - Delta / 2.0
    ensures !ContainsPoint(CornersBox(ps), q)
  {
    MinOverAtLeast(ps, 2, m);
    ZAxisAbove(ps, m);
  }

  /**
   * The loop as written leaves out every rotated point that lies further below both visited
   * corners (in z) than the padding reaches.
   */
  lemma AsWrittenMisses(b: AABB, c: real, s: real, u0: Vec3, u1: Vec3, q: Vec3, m: real)
    requires Finite(b) && CornerPoint(b, 0, 0, 0) == u0 && CornerPoint(b, 1, 1, 1) == u1
    requires ToWorld(c, s, u0).z >= m && ToWorld(c, s, u1).z >= m
    requires q.z < m - Delta / 2.0
    ensures !ContainsPoint(CornersBox(AsWrittenCorners(b, c, s)), q)
  {
    FoldAboveMisses(AsWrittenCorners(b, c, s), m, q);
  }

  /**
   * The box of the loop as written misses part of the rotated object: with `cos = 0.6` and
   * `sin = 0.8` (a rotation of about 53 degrees) the unit cube's corner `(1, 0, 0)` rotates to
   * `(0.6, 0, -0.8)`, while the visited corners rotate to the origin and `(1.4, 1, -0.2)`, so the
   * box only spans z in about `[-0.2, 0]`.
   */
  lemma AsWrittenBoxMissesPoint(b: AABB, p: Vec3)
    requires b.x == b.y == b.z == Interval(Fin(0.0), Fin(1.0))
    requires p == Vec3(1.0, 0.0, 0.0)
    ensures 0.6 * 0.6 + 0.8 * 0.8 == 1.0
    ensures Finite(b) && ContainsPoint(b, p)
    ensures !ContainsPoint(CornersBox(AsWrittenCorners(b, 0.6, 0.8)), ToWorld(0.6, 0.8, p))
  {
    AsWrittenMisses(b, 0.6, 0.8, Vec3(0.0, 0.0, 0.0), Vec3(1.0, 1.0, 1.0), ToWorld(0.6, 0.8, Vec3(1.0, 0.0, 0.0)), -0.2);
  }
}
