/** Extended reals (a double that is never NaN) and the closed range of Interval.h. */
module Intervals {

  /** A double that is a finite real or one of the two infinities. */
  datatype Ext = NegInf | Fin(v: real) | PosInf

  /** IEEE `<` on extended reals. */
  predicate Lt(a: Ext, b: Ext) {
    match a
    case NegInf => !b.NegInf?
    case Fin(x) => (b.Fin? && x < b.v) || b.PosInf?
    case PosInf => false
  }

  /** IEEE `<=` on extended reals: without NaN it is the negation of `>`. */
  predicate Le(a: Ext, b: Ext) {
    !Lt(b, a)
  }

  /** `std::min(a, b)`, which yields `b` only when `b < a`. */
  function Min(a: Ext, b: Ext): (r: Ext)
    ensures Le(r, a) && Le(r, b)
    ensures r == a || r == b
  {
    if Lt(b, a) then b else a
  }

  /** `std::max(a, b)`, which yields `b` only when `a < b`. */
  function Max(a: Ext, b: Ext): (r: Ext)
    ensures Le(a, r) && Le(b, r)
    ensures r == a || r == b
  {
    if Lt(a, b) then b else a
  }

  /** `a + d` for a finite `d`: infinities absorb the offset. */
  function Plus(a: Ext, d: real): (r: Ext)
    ensures r.Fin? <==> a.Fin?
    ensures a.Fin? ==> r.v - a.v == d
  {
    match a
    case Fin(x) => Fin(x + d)
    case _ => a
  }

  /** `a * c` for a finite, non-zero `c`: a negative factor swaps the infinities. */
  function Times(a: Ext, c: real): (r: Ext)
    requires c != 0.0
    ensures r.Fin? <==> a.Fin?
    ensures a.PosInf? ==> (r.PosInf? <==> c > 0.0)
    ensures a.NegInf? ==> (r.NegInf? <==> c > 0.0)
  {
    match a
    case Fin(x) => Fin(x * c)
    case PosInf => if c > 0.0 then PosInf else NegInf
    case NegInf => if c > 0.0 then NegInf else PosInf
  }

  /** `a - b` is a number (not NaN) unless both are the same infinity. */
  predicate HasDiff(a: Ext, b: Ext) {
    !(a == b && !a.Fin?)
  }

  /** `a - b` on extended reals. */
  function Diff(a: Ext, b: Ext): (r: Ext)
    requires HasDiff(a, b)
    ensures Le(b, a) <==> Le(Fin(0.0), r)
    ensures a.Fin? && b.Fin? ==> r == Fin(a.v - b.v)
  {
    if a.Fin? && b.Fin? then Fin(a.v - b.v)
    else if a.PosInf? || b.NegInf? then PosInf
    else NegInf
  }

  /** Multiplying by a positive factor keeps the order; by a negative one reverses it. */
  lemma TimesMonotone(a: Ext, b: Ext, c: real)
    requires c != 0.0 && Le(a, b)
    ensures c > 0.0 ==> Le(Times(a, c), Times(b, c))
    ensures c < 0.0 ==> Le(Times(b, c), Times(a, c))
  {
    if a.Fin? && b.Fin? {
      if c > 0.0 {
        assert a.v * c <= b.v * c;
      } else {
        assert b.v * c <= a.v * c;
      }
    }
  }

  /** Adding the same finite offset keeps the order. */
  lemma PlusMonotone(a: Ext, b: Ext, d: real)
    requires Le(a, b)
    ensures Le(Plus(a, d), Plus(b, d))
  {
  }

  /** The ordering facts the rest of the model relies on. */
  lemma LeTrans(a: Ext, b: Ext, c: Ext)
    requires Le(a, b) && Le(b, c)
    ensures Le(a, c)
  {
  }

  lemma LeLtTrans(a: Ext, b: Ext, c: Ext)
    requires Le(a, b) && Lt(b, c)
    ensures Lt(a, c)
  {
  }

  lemma LtLeTrans(a: Ext, b: Ext, c: Ext)
    requires Lt(a, b) && Le(b, c)
    ensures Lt(a, c)
  {
  }

  /** A closed range; `min > max` is an empty range. */
  datatype Interval = Interval(min: Ext, max: Ext) {

    /** Inclusive membership, `min <= t <= max`. */
    predicate Contains(t: real) {
      Le(min, Fin(t)) && Le(Fin(t), max)
    }

    /** Strict membership, `min < t < max`. */
    predicate Surrounds(t: real) {
      Lt(min, Fin(t)) && Lt(Fin(t), max)
    }

    /** `max - min` is a number (not NaN). */
    predicate HasSize() {
      HasDiff(max, min)
    }

    /** `size()`: the length `max - min`, negative for an empty range. */
    function Size(): (r: Ext)
      requires HasSize()
      ensures Le(min, max) <==> Le(Fin(0.0), r)
    {
      Diff(max, min)
    }

    /** `clamp(x)`: `std::max(min, std::min(max, x))`. */
    function Clamp(x: real): (r: Ext)
      ensures Le(min, max) ==> Le(min, r) && Le(r, max)
      ensures Contains(x) ==> r == Fin(x)
      ensures Le(min, max) && Lt(Fin(x), min) ==> r == min
      ensures Le(min, max) && Lt(max, Fin(x)) ==> r == max
    {
      Max(min, Min(max, Fin(x)))
    }

    /** `expand(delta)`: each end moves outwards by `delta / 2`. */
    function Expand(delta: real): (r: Interval)
      ensures HasSize() ==> r.HasSize() && r.Size() == Plus(Size(), delta)
      ensures delta >= 0.0 ==> forall t :: Contains(t) ==> r.Contains(t)
    {
      Interval(Plus(min, -delta / 2.0), Plus(max, delta / 2.0))
    }

    /** `operator+(intv, offset)`: both ends move by `offset`. */
    function Shift(offset: real): (r: Interval)
      ensures HasSize() ==> r.HasSize() && r.Size() == Size()
    {
      Interval(Plus(min, offset), Plus(max, offset))
    }

    /** Every point of this range lies in `other`, end by end. */
    predicate Within(other: Interval) {
      Le(other.min, min) && Le(max, other.max)
    }

    /** Not reversed: `min <= max`. */
    predicate Proper() {
      Le(min, max)
    }
  }

  /** `Interval::empty`, and the value of the default constructor `Interval()`. */
  const Empty: Interval := Interval(PosInf, NegInf)

  /** `Interval::universe`. */
  const Universe: Interval := Interval(NegInf, PosInf)

  /** The union constructor `Interval(a, b)`: the smallest range holding both. */
  function Union(a: Interval, b: Interval): (r: Interval)
    ensures a.Within(r) && b.Within(r)
    ensures r.min == a.min || r.min == b.min
    ensures r.max == a.max || r.max == b.max
    ensures forall t :: a.Contains(t) || b.Contains(t) ==> r.Contains(t)
  {
    Interval(Min(a.min, b.min), Max(a.max, b.max))
  }

  /** `operator+(offset, intv)`, which forwards to `intv + offset`. */
  function ShiftLeft(offset: real, intv: Interval): (r: Interval)
    ensures intv.HasSize() ==> r.HasSize() && r.Size() == intv.Size()
    ensures forall t :: intv.Contains(t) <==> r.Contains(t + offset)
  {
    intv.Shift(offset)
  }

  lemma ShiftContains(i: Interval, d: real, t: real)
    ensures i.Contains(t) <==> i.Shift(d).Contains(t + d)
  {
  }

  /** The union with `Empty` (and with a default-constructed interval) is the identity. */
  lemma UnionEmptyIdentity(a: Interval)
    ensures Union(Empty, a) == a && Union(a, Empty) == a
  {
  }

  /** Strict membership implies inclusive membership; the universe holds every real. */
  lemma SurroundsContains(i: Interval, t: real)
    ensures i.Surrounds(t) ==> i.Contains(t)
    ensures Universe.Surrounds(t) && Universe.Contains(t)
    ensures !Empty.Contains(t)
  {
  }

  /** A range that contains a point is not reversed. */
  lemma ContainsProper(i: Interval, t: real)
    requires i.Contains(t)
    ensures i.Proper()
  {
  }

  /** `Within` is transitive. */
  lemma WithinTrans(a: Interval, b: Interval, c: Interval)
    requires a.Within(b) && b.Within(c)
    ensures a.Within(c)
  {
  }
}
