/** The axis-aligned bounding box of AABB.h: one interval per axis. */
module Boxes {
  import opened Intervals
  import opened Vectors
  import opened Rays

  datatype AABB = AABB(x: Interval, y: Interval, z: Interval)

  /** The total padding `pad_to_minimum` adds to every axis. */
  const Delta: real := 0.0001

  /** `pad_to_minimum()`: every axis is expanded by `Delta`. */
  function Pad(b: AABB): (r: AABB)
    ensures b.x.HasSize() ==> r.x.HasSize() && r.x.Size() == Plus(b.x.Size(), Delta)
    ensures b.y.HasSize() ==> r.y.HasSize() && r.y.Size() == Plus(b.y.Size(), Delta)
    ensures b.z.HasSize() ==> r.z.HasSize() && r.z.Size() == Plus(b.z.Size(), Delta)
    ensures BoxWithin(b, r)
  {
    AABB(b.x.Expand(Delta), b.y.Expand(Delta), b.z.Expand(Delta))
  }

  /** The three-interval constructor, which pads. */
  function FromIntervals(x: Interval, y: Interval, z: Interval): (r: AABB)
    ensures x.HasSize() ==> r.x.HasSize() && r.x.Size() == Plus(x.Size(), Delta)
    ensures y.HasSize() ==> r.y.HasSize() && r.y.Size() == Plus(y.Size(), Delta)
    ensures z.HasSize() ==> r.z.HasSize() && r.z.Size() == Plus(z.Size(), Delta)
    ensures x.Within(r.x) && y.Within(r.y) && z.Within(r.z)
  {
    Pad(AABB(x, y, z))
  }

  /** One axis of the two-point constructor: the two extremes put in order. */
  function Ordered(a: real, b: real): (r: Interval)
    ensures r.Proper() && r.Contains(a) && r.Contains(b)
    ensures r.min == Fin(a) || r.min == Fin(b)
    ensures r.max == Fin(a) || r.max == Fin(b)
  {
    if a < b then Interval(Fin(a), Fin(b)) else Interval(Fin(b), Fin(a))
  }

  /** The two-point constructor: ordered extremes on every axis, then padded. */
  function FromPoints(p1: Vec3, p2: Vec3): (r: AABB)
    ensures Proper(r) && Finite(r)
    ensures ContainsPoint(r, p1) && ContainsPoint(r, p2)
  {
    Pad(AABB(Ordered(p1.x, p2.x), Ordered(p1.y, p2.y), Ordered(p1.z, p2.z)))
  }

  /** A point lying between the two corners, axis by axis, is inside the box they span. */
  lemma FromPointsBetween(p1: Vec3, p2: Vec3, q: Vec3)
    requires p1.x <= q.x <= p2.x && p1.y <= q.y <= p2.y && p1.z <= q.z <= p2.z
    ensures ContainsPoint(FromPoints(p1, p2), q)
    ensures StrictlyInside(FromPoints(p1, p2), q)
  {
    var raw := AABB(Ordered(p1.x, p2.x), Ordered(p1.y, p2.y), Ordered(p1.z, p2.z));
    assert ContainsPoint(raw, q);
    PadStrict(raw, q);
  }

  /** The padding puts every point of a box strictly inside the padded box. */
  lemma PadStrict(b: AABB, p: Vec3)
    requires ContainsPoint(b, p)
    ensures StrictlyInside(Pad(b), p)
  {
    ExpandStrict(b.x, p.x);
    ExpandStrict(b.y, p.y);
    ExpandStrict(b.z, p.z);
  }

  /** Expanding by `Delta` puts every point of an interval strictly inside. */
  lemma ExpandStrict(i: Interval, t: real)
    requires i.Contains(t)
    ensures i.Expand(Delta).Surrounds(t)
  {
  }

  /** The order of the two points does not matter. */
  lemma FromPointsSymmetric(p1: Vec3, p2: Vec3)
    ensures FromPoints(p1, p2) == FromPoints(p2, p1)
  {
  }

  /** The union constructor: the smallest box holding both, not padded again. */
  function Union(a: AABB, b: AABB): (r: AABB)
    ensures BoxWithin(a, r) && BoxWithin(b, r)
    ensures forall p :: ContainsPoint(a, p) || ContainsPoint(b, p) ==> ContainsPoint(r, p)
  {
    AABB(Intervals.Union(a.x, b.x), Intervals.Union(a.y, b.y), Intervals.Union(a.z, b.z))
  }

  /** `AABB::empty`: the three-interval constructor on empty intervals (padding keeps them empty). */
  const EmptyBox: AABB := FromIntervals(Intervals.Empty, Intervals.Empty, Intervals.Empty)

  /** `AABB::universe`. */
  const UniverseBox: AABB := FromIntervals(Universe, Universe, Universe)

  /** The empty box holds no point and is the identity of the union. */
  lemma EmptyBoxProperties(b: AABB, p: Vec3)
    ensures EmptyBox == AABB(Intervals.Empty, Intervals.Empty, Intervals.Empty)
    ensures UniverseBox == AABB(Universe, Universe, Universe)
    ensures !ContainsPoint(EmptyBox, p) && ContainsPoint(UniverseBox, p)
    ensures Union(EmptyBox, b) == b && Union(b, EmptyBox) == b
  {
    UnionEmptyIdentity(b.x);
    UnionEmptyIdentity(b.y);
    UnionEmptyIdentity(b.z);
  }

  /** `axis_interval(i)`: x for 0, y for 1, z for anything else. */
  function AxisInterval(b: AABB, i: int): Interval {
    if i == 0 then b.x else if i == 1 then b.y else b.z
  }

  /** The same on the three valid indices, for quantifying over axes. */
  function Axis(b: AABB, i: int): Interval
    requires 0 <= i < 3
  {
    AxisInterval(b, i)
  }

  predicate ContainsPoint(b: AABB, p: Vec3) {
    b.x.Contains(p.x) && b.y.Contains(p.y) && b.z.Contains(p.z)
  }

  /** Every axis of `a` lies within the matching axis of `b`. */
  predicate BoxWithin(a: AABB, b: AABB) {
    a.x.Within(b.x) && a.y.Within(b.y) && a.z.Within(b.z)
  }

  /** No axis is reversed. */
  predicate Proper(b: AABB) {
    b.x.Proper() && b.y.Proper() && b.z.Proper()
  }

  /** Every end of every axis is a finite number. */
  predicate Finite(b: AABB) {
    b.x.min.Fin? && b.x.max.Fin? && b.y.min.Fin? && b.y.max.Fin? && b.z.min.Fin? && b.z.max.Fin?
  }

  lemma BoxWithinTrans(a: AABB, b: AABB, c: AABB)
    requires BoxWithin(a, b) && BoxWithin(b, c)
    ensures BoxWithin(a, c)
  {
    WithinTrans(a.x, b.x, c.x);
    WithinTrans(a.y, b.y, c.y);
    WithinTrans(a.z, b.z, c.z);
  }

  /** `Centriod()`: the midpoint of every axis, inside any box that is not reversed. */
  function Centroid(b: AABB): (r: Vec3)
    requires Finite(b)
    ensures Proper(b) ==> ContainsPoint(b, r)
  {
    Vec3((b.x.max.v + b.x.min.v) / 2.0, (b.y.max.v + b.y.min.v) / 2.0, (b.z.max.v + b.z.min.v) / 2.0)
  }

  /** `a.size() > b.size()` as IEEE compares it: false when either size is NaN. */
  predicate SizeGt(a: Interval, b: Interval) {
    a.HasSize() && b.HasSize() && Lt(b.Size(), a.Size())
  }

  /** `longest_axis()`, with its exact tie-break. */
  function LongestAxis(b: AABB): (r: int)
    ensures 0 <= r < 3
    ensures r == 0 <==> SizeGt(b.x, b.y) && SizeGt(b.x, b.z)
    ensures r == 1 <==> !SizeGt(b.x, b.y) && SizeGt(b.y, b.z)
  {
    if SizeGt(b.x, b.y) then (if SizeGt(b.x, b.z) then 0 else 2)
    else (if SizeGt(b.y, b.z) then 1 else 2)
  }

  /** Every size is a number (no axis spans a single infinity). */
  predicate HasSizes(b: AABB) {
    b.x.HasSize() && b.y.HasSize() && b.z.HasSize()
  }

  /** The chosen axis is at least as long as every other; ties go to the later axis, z first. */
  lemma LongestAxisIsLongest(b: AABB, i: int)
    requires HasSizes(b) && 0 <= i < 3
    ensures Le(Axis(b, i).Size(), Axis(b, LongestAxis(b)).Size())
    ensures i > LongestAxis(b) ==> Lt(Axis(b, i).Size(), Axis(b, LongestAxis(b)).Size())
  {
    var sx, sy, sz := b.x.Size(), b.y.Size(), b.z.Size();
    if Lt(sy, sx) && !Lt(sz, sx) {
      LtLeTrans(sy, sx, sz);
    } else if !Lt(sy, sx) && !Lt(sz, sy) {
      LeTrans(sx, sy, sz);
    }
  }

  /** The ray's direction has no zero component, so every reciprocal is finite. */
  predicate DirOk(r: Ray) {
    r.direction.x != 0.0 && r.direction.y != 0.0 && r.direction.z != 0.0
  }

  /** Where the ray crosses the two planes of axis `i`: `(axis.min - o) * invDir` and the max. */
  function Crossings(b: AABB, r: Ray, i: int): (Ext, Ext)
    requires DirOk(r) && 0 <= i < 3
  {
    var axis := AxisInterval(b, i);
    var inv := 1.0 / Get(r.direction, i);
    (Times(Plus(axis.min, -Get(r.origin, i)), inv), Times(Plus(axis.max, -Get(r.origin, i)), inv))
  }

  /** One pass of the `intersectP` loop body: the window is narrowed to the slab of axis `i`. */
  function SlabStep(b: AABB, r: Ray, w: Interval, i: int): (n: Interval)
    requires DirOk(r) && 0 <= i < 3
    ensures n.Within(w)
    ensures var (t0, t1) := Crossings(b, r, i);
            n == Interval(Max(w.min, Min(t0, t1)), Min(w.max, Max(t0, t1)))
  {
    var (t0, t1) := Crossings(b, r, i);
    if Lt(t0, t1) then
      Interval(if Lt(w.min, t0) then t0 else w.min, if Lt(t1, w.max) then t1 else w.max)
    else
      Interval(if Lt(w.min, t1) then t1 else w.min, if Lt(t0, w.max) then t0 else w.max)
  }

  /** A window is empty once `min >= max`. */
  predicate Open(w: Interval) {
    Lt(w.min, w.max)
  }

  /** The slab test from axis `i` on, returning false at the first axis that empties the window. */
  function SlabFrom(b: AABB, r: Ray, w: Interval, i: int): bool
    requires DirOk(r) && 0 <= i <= 3
    decreases 3 - i
  {
    if i == 3 then true
    else
      var n := SlabStep(b, r, w, i);
      if !Open(n) then false else SlabFrom(b, r, n, i + 1)
  }

  /** `intersectP(ri, t_interval)`. */
  predicate Slab(b: AABB, r: Ray, w: Interval)
    requires DirOk(r)
  {
    SlabFrom(b, r, w, 0)
  }

  /** The window after narrowing by axes `i`, `i + 1`, ... without stopping early. */
  function Narrowed(b: AABB, r: Ray, w: Interval, i: int): (n: Interval)
    requires DirOk(r) && 0 <= i <= 3
    ensures n.Within(w)
    decreases 3 - i
  {
    if i == 3 then w
    else
      var n := Narrowed(b, r, SlabStep(b, r, w, i), i + 1);
      WithinTrans(n, SlabStep(b, r, w, i), w);
      n
  }

  /** The loop of `intersectP`, narrowing a local copy of the window axis by axis. */
  method IntersectP(b: AABB, r: Ray, w: Interval) returns (hit: bool)
    requires DirOk(r)
    ensures hit == Slab(b, r, w)
  {
    var t := w;
    for i := 0 to 3
      invariant SlabFrom(b, r, t, i) == Slab(b, r, w)
    {
      var (t0, t1) := Crossings(b, r, i);
      if Lt(t0, t1) {
        if Lt(t.min, t0) { t := t.(min := t0); }
        if Lt(t1, t.max) { t := t.(max := t1); }
      } else {
        if Lt(t.min, t1) { t := t.(min := t1); }
        if Lt(t0, t.max) { t := t.(max := t0); }
      }
      if !Lt(t.min, t.max) {
        return false;
      }
    }
    return true;
  }

  /**
   * Stopping at the first empty axis gives the same answer as narrowing all three axes and
   * checking once: the test passes exactly when the fully narrowed window, which lies inside
   * the given one, is still open.
   */
  lemma {:induction false} SlabIsNarrowedOpen(b: AABB, r: Ray, w: Interval, i: int)
    requires DirOk(r) && 0 <= i <= 3
    requires i == 3 ==> Open(w)
    ensures SlabFrom(b, r, w, i) <==> Open(Narrowed(b, r, w, i))
    ensures Narrowed(b, r, w, i).Within(w)
    decreases 3 - i
  {
    if i < 3 {
      var n := SlabStep(b, r, w, i);
      var m := Narrowed(b, r, n, i + 1);
      if Open(n) {
        SlabIsNarrowedOpen(b, r, n, i + 1);
      } else {
        LeTrans(n.max, n.min, m.min);
        LeTrans(m.max, n.max, m.min);
      }
    }
  }

  /** Narrowing is monotone: a larger window and a larger (not reversed) box narrow to a larger window. */
  lemma SlabStepMonotone(b1: AABB, b2: AABB, r: Ray, w1: Interval, w2: Interval, i: int)
    requires DirOk(r) && 0 <= i < 3
    requires BoxWithin(b1, b2) && Axis(b1, i).Proper() && w1.Within(w2)
    ensures SlabStep(b1, r, w1, i).Within(SlabStep(b2, r, w2, i))
  {
    var a1, a2 := Axis(b1, i), Axis(b2, i);
    var (s0, s1) := Crossings(b1, r, i);
    var (u0, u1) := Crossings(b2, r, i);
    EndsNested(a1.min, a1.max, a2.min, a2.max, Get(r.origin, i), 1.0 / Get(r.direction, i));
    SpanNested(s0, s1, u0, u1);
    WindowNested(w1, w2, s0, s1, u0, u1);
  }

  /**
   * Moving to the ray's origin and scaling by the reciprocal direction keeps nested ends
   * nested, in the same orientation for a positive scale and the opposite one otherwise.
   */
  lemma EndsNested(min1: Ext, max1: Ext, min2: Ext, max2: Ext, o: real, inv: real)
    requires inv != 0.0 && Le(min2, min1) && Le(min1, max1) && Le(max1, max2)
    ensures var s0, s1 := Times(Plus(min1, -o), inv), Times(Plus(max1, -o), inv);
            var u0, u1 := Times(Plus(min2, -o), inv), Times(Plus(max2, -o), inv);
            (Le(u0, s0) && Le(s0, s1) && Le(s1, u1)) || (Le(u1, s1) && Le(s1, s0) && Le(s0, u0))
  {
    PlusMonotone(min2, min1, -o);
    PlusMonotone(min1, max1, -o);
    PlusMonotone(max1, max2, -o);
    TimesMonotone(Plus(min2, -o), Plus(min1, -o), inv);
    TimesMonotone(Plus(min1, -o), Plus(max1, -o), inv);
    TimesMonotone(Plus(max1, -o), Plus(max2, -o), inv);
  }

  /** Narrowing a smaller window by a smaller span gives a smaller window. */
  lemma WindowNested(w1: Interval, w2: Interval, s0: Ext, s1: Ext, u0: Ext, u1: Ext)
    requires w1.Within(w2) && Le(Min(u0, u1), Min(s0, s1)) && Le(Max(s0, s1), Max(u0, u1))
    ensures Interval(Max(w1.min, Min(s0, s1)), Min(w1.max, Max(s0, s1))).Within(
              Interval(Max(w2.min, Min(u0, u1)), Min(w2.max, Max(u0, u1))))
  {
  }

  /**
   * Two crossing pairs where the outer one encloses the inner one, in either orientation:
   * the inner span lies within the outer span.
   */
  lemma SpanNested(s0: Ext, s1: Ext, u0: Ext, u1: Ext)
    requires (Le(u0, s0) && Le(s0, s1) && Le(s1, u1)) || (Le(u1, s1) && Le(s1, s0) && Le(s0, u0))
    ensures Le(Min(u0, u1), Min(s0, s1)) && Le(Max(s0, s1), Max(u0, u1))
  {
    if Le(u0, s0) && Le(s0, s1) && Le(s1, u1) {
      LeTrans(Min(u0, u1), u0, s0);
      LeTrans(Min(u0, u1), s0, Min(s0, s1));
      LeTrans(Max(s0, s1), s1, u1);
      LeTrans(Max(s0, s1), u1, Max(u0, u1));
    } else {
      LeTrans(Min(u0, u1), u1, s1);
      LeTrans(Min(u0, u1), s1, Min(s0, s1));
      LeTrans(Max(s0, s1), s0, u0);
      LeTrans(Max(s0, s1), u0, Max(u0, u1));
    }
  }

  lemma {:induction false} NarrowedMonotone(b1: AABB, b2: AABB, r: Ray, w1: Interval, w2: Interval, i: int)
    requires DirOk(r) && 0 <= i <= 3
    requires BoxWithin(b1, b2) && Proper(b1) && w1.Within(w2)
    ensures Narrowed(b1, r, w1, i).Within(Narrowed(b2, r, w2, i))
    decreases 3 - i
  {
    if i < 3 {
      SlabStepMonotone(b1, b2, r, w1, w2, i);
      NarrowedMonotone(b1, b2, r, SlabStep(b1, r, w1, i), SlabStep(b2, r, w2, i), i + 1);
    }
  }

  /**
   * The slab test is monotone in both arguments: if a box that is not reversed passes in a
   * window, every box around it passes in every window around that window.
   */
  lemma SlabMonotone(b1: AABB, b2: AABB, r: Ray, w1: Interval, w2: Interval)
    requires DirOk(r) && BoxWithin(b1, b2) && Proper(b1) && w1.Within(w2)
    requires Slab(b1, r, w1)
    ensures Slab(b2, r, w2)
  {
    SlabIsNarrowedOpen(b1, r, w1, 0);
    SlabIsNarrowedOpen(b2, r, w2, 0);
    var n1, n2 := Narrowed(b1, r, w1, 0), Narrowed(b2, r, w2, 0);
    NarrowedMonotone(b1, b2, r, w1, w2, 0);
    LeLtTrans(n2.min, n1.min, n1.max);
    LtLeTrans(n2.min, n1.max, n2.max);
  }

  /** Every axis of `b` holds the matching coordinate of `p` strictly inside. */
  predicate StrictlyInside(b: AABB, p: Vec3) {
    b.x.Surrounds(p.x) && b.y.Surrounds(p.y) && b.z.Surrounds(p.z)
  }

  /** Coordinate `i` of the point the ray reaches at distance `t`. */
  lemma AtComponent(r: Ray, t: real, i: int)
    requires 0 <= i < 3
    ensures Get(At(r, t), i) == Get(r.origin, i) + t * Get(r.direction, i)
  {
  }

  /** Dividing by `d` and comparing is comparing after multiplying by `d`, turned round for a negative `d`. */
  lemma ScaledOrder(a: real, d: real, t: real)
    requires d != 0.0
    ensures d > 0.0 ==> (a * (1.0 / d) < t <==> a < t * d) && (t < a * (1.0 / d) <==> t * d < a)
    ensures d < 0.0 ==> (a * (1.0 / d) < t <==> t * d < a) && (t < a * (1.0 / d) <==> a < t * d)
  {
    var q := a * (1.0 / d);
    assert q * d == a;
    if d > 0.0 {
      assert q < t ==> (t - q) * d > 0.0;
      assert t < q ==> (q - t) * d > 0.0;
      assert a < t * d ==> (t * d - a) * (1.0 / d) > 0.0;
      assert t * d < a ==> (a - t * d) * (1.0 / d) > 0.0;
    } else {
      assert q < t ==> (t - q) * (-d) > 0.0;
      assert t < q ==> (q - t) * (-d) > 0.0;
      assert a < t * d ==> (t * d - a) * (-1.0 / d) > 0.0;
      assert t * d < a ==> (a - t * d) * (-1.0 / d) > 0.0;
    }
  }

  /**
   * The crossing of the plane at `e` against the distance `t`, for an origin coordinate `o`
   * and a direction component `d`: with `d > 0` the ray crosses the plane before `t` exactly
   * when the plane lies below the point reached at `t`; with `d < 0` the order turns round.
   */
  lemma CrossingOrder(e: Ext, o: real, d: real, t: real)
    requires d != 0.0
    ensures var c := Times(Plus(e, -o), 1.0 / d);
            var p := Fin(o + t * d);
            (d > 0.0 ==> (Lt(c, Fin(t)) <==> Lt(e, p)) && (Lt(Fin(t), c) <==> Lt(p, e))) &&
            (d < 0.0 ==> (Lt(c, Fin(t)) <==> Lt(p, e)) && (Lt(Fin(t), c) <==> Lt(e, p)))
  {
    if e.Fin? {
      ScaledOrder(e.v - o, d, t);
    }
  }

  /**
   * The span between the two crossings of an axis, against the distance `t`: the point
   * reached at `t` lies strictly inside the axis only if `t` lies strictly inside the span, and,
   * for an axis that is not reversed, `t` in the span reaches a point of the axis.
   */
  lemma SpanOrder(lo: Ext, hi: Ext, o: real, d: real, t: real, p: real, t0: Ext, t1: Ext)
    requires d != 0.0 && p == o + t * d
    requires t0 == Times(Plus(lo, -o), 1.0 / d) && t1 == Times(Plus(hi, -o), 1.0 / d)
    ensures Lt(lo, Fin(p)) && Lt(Fin(p), hi) ==> Lt(Min(t0, t1), Fin(t)) && Lt(Fin(t), Max(t0, t1))
    ensures Le(lo, hi) && Le(Min(t0, t1), Fin(t)) && Le(Fin(t), Max(t0, t1)) ==> Le(lo, Fin(p)) && Le(Fin(p), hi)
  {
    CrossingOrder(lo, o, d, t);
    CrossingOrder(hi, o, d, t);
    if Le(lo, hi) {
      PlusMonotone(lo, hi, -o);
      TimesMonotone(Plus(lo, -o), Plus(hi, -o), 1.0 / d);
    }
  }

  /** `SpanOrder` for axis `i` of a box. */
  lemma AxisSpanOrder(b: AABB, r: Ray, i: int, t: real)
    requires DirOk(r) && 0 <= i < 3
    ensures var c, axis, p := Crossings(b, r, i), Axis(b, i), Get(At(r, t), i);
            (axis.Surrounds(p) ==> Lt(Min(c.0, c.1), Fin(t)) && Lt(Fin(t), Max(c.0, c.1))) &&
            (axis.Proper() && Le(Min(c.0, c.1), Fin(t)) && Le(Fin(t), Max(c.0, c.1)) ==> axis.Contains(p))
  {
    var axis, o, d := Axis(b, i), Get(r.origin, i), Get(r.direction, i);
    AtComponent(r, t, i);
    var c := Crossings(b, r, i);
    SpanOrder(axis.min, axis.max, o, d, t, Get(At(r, t), i), c.0, c.1);
  }

  /**
   * One axis of the slab test passes a distance whose point lies strictly inside that axis:
   * the narrowed window still holds the distance and is still open.
   */
  lemma StepKeeps(b: AABB, r: Ray, w: Interval, i: int, t: real)
    requires DirOk(r) && 0 <= i < 3 && Open(w) && w.Contains(t)
    requires Axis(b, i).Surrounds(Get(At(r, t), i))
    ensures Open(SlabStep(b, r, w, i)) && SlabStep(b, r, w, i).Contains(t)
  {
    AxisSpanOrder(b, r, i, t);
  }

  /** A distance the narrowed window holds reaches a point of that axis, for an axis that is not reversed. */
  lemma StepWitness(b: AABB, r: Ray, w: Interval, i: int, t: real)
    requires DirOk(r) && 0 <= i < 3 && Axis(b, i).Proper()
    requires SlabStep(b, r, w, i).Contains(t)
    ensures w.Contains(t) && Axis(b, i).Contains(Get(At(r, t), i))
  {
    AxisSpanOrder(b, r, i, t);
  }

  lemma {:induction false} SlabFromSound(b: AABB, r: Ray, w: Interval, i: int, t: real)
    requires DirOk(r) && 0 <= i <= 3 && Open(w) && w.Contains(t)
    requires forall j :: i <= j < 3 ==> Axis(b, j).Surrounds(Get(At(r, t), j))
    ensures SlabFrom(b, r, w, i)
    decreases 3 - i
  {
    if i < 3 {
      StepKeeps(b, r, w, i, t);
      SlabFromSound(b, r, SlabStep(b, r, w, i), i + 1, t);
    }
  }

  /** A real inside an open window. */
  lemma PointIn(w: Interval) returns (t: real)
    requires Open(w)
    ensures w.Contains(t)
  {
    if w.min.Fin? && w.max.Fin? {
      t := (w.min.v + w.max.v) / 2.0;
    } else if w.min.Fin? {
      t := w.min.v;
    } else if w.max.Fin? {
      t := w.max.v;
    } else {
      t := 0.0;
    }
  }

  lemma {:induction false} SlabFromWitness(b: AABB, r: Ray, w: Interval, i: int) returns (t: real)
    requires DirOk(r) && 0 <= i <= 3 && (i == 3 ==> Open(w)) && Proper(b)
    requires SlabFrom(b, r, w, i)
    ensures w.Contains(t)
    ensures forall j :: i <= j < 3 ==> Axis(b, j).Contains(Get(At(r, t), j))
    decreases 3 - i
  {
    if i == 3 {
      t := PointIn(w);
    } else {
      var n := SlabStep(b, r, w, i);
      t := SlabFromWitness(b, r, n, i + 1);
      StepWitness(b, r, w, i, t);
    }
  }

  /**
   * The slab test is sound: when the point the ray reaches at a distance in an open window
   * lies strictly inside every axis of the box, the ray passes the slab test in that window.
   */
  lemma SlabSound(b: AABB, r: Ray, w: Interval, t: real)
    requires DirOk(r) && Open(w) && w.Contains(t) && StrictlyInside(b, At(r, t))
    ensures Slab(b, r, w)
  {
    forall j | 0 <= j < 3
      ensures Axis(b, j).Surrounds(Get(At(r, t), j))
    {
    }
    SlabFromSound(b, r, w, 0, t);
  }

  /**
   * The slab test is exact for a box that is not reversed: a ray that passes it reaches a
   * point of the box at some distance in the window.
   */
  lemma SlabComplete(b: AABB, r: Ray, w: Interval)
    requires DirOk(r) && Proper(b) && Slab(b, r, w)
    ensures exists t :: w.Contains(t) && ContainsPoint(b, At(r, t))
  {
    var t := SlabFromWitness(b, r, w, 0);
    assert Axis(b, 0).Contains(Get(At(r, t), 0));
    assert Axis(b, 1).Contains(Get(At(r, t), 1));
    assert Axis(b, 2).Contains(Get(At(r, t), 2));
  }

  /**
   * `SlabComplete` needs the box not to be reversed: the empty box, whose every axis is
   * `(+infinity, -infinity)`, crosses each axis over the whole line and so passes the slab test
   * in every open window.
   */
  lemma EmptyBoxPasses(r: Ray, w: Interval)
    requires DirOk(r) && Open(w)
    ensures Slab(EmptyBox, r, w)
  {
    EmptyBoxProperties(EmptyBox, Zero);
    assert SlabStep(EmptyBox, r, w, 0) == w;
    assert SlabStep(EmptyBox, r, w, 1) == w;
    assert SlabStep(EmptyBox, r, w, 2) == w;
  }

  /** `get_AABB() + offset`: every axis shifted by the matching component. */
  function Offset(b: AABB, d: Vec3): (r: AABB)
    ensures Finite(b) ==> Finite(r)
    ensures Proper(b) ==> Proper(r)
  {
    AABB(b.x.Shift(d.x), b.y.Shift(d.y), b.z.Shift(d.z))
  }

  /** The shifted box holds exactly the shifted points. */
  lemma OffsetContains(b: AABB, d: Vec3, p: Vec3)
    ensures ContainsPoint(b, p) <==> ContainsPoint(Offset(b, d), Add(p, d))
  {
    ShiftContains(b.x, d.x, p.x);
    ShiftContains(b.y, d.y, p.y);
    ShiftContains(b.z, d.z, p.z);
  }
}
