/**
 * BVH.h: the bounding volume hierarchy. The constructor sorts the shared object vector in
 * place, range by range, and splits it at the middle; `intersect` descends the tree, pruning
 * by the slab test and shrinking the right child's window to the left child's hit.
 *
 * The objects are handles of any type `O` (the `shared_ptr`s of the vector); `box` is their
 * `get_AABB()` and a `HitFn` their `intersect`.
 */
module Bvhs {
  import opened Intervals
  import opened Vectors
  import opened Rays
  import opened Boxes
  import opened Objects

  /** A `BVHNode` and its children: a child is another node or an object of the vector. */
  datatype Bvh<O> =
    | Prim(o: O)
    | Node(box: AABB, left: Bvh<O>, right: Bvh<O>)

  /** The objects at the leaves, left to right; the object of a span-1 node appears twice. */
  function Leaves<O>(t: Bvh<O>): seq<O> {
    match t
    case Prim(o) => [o]
    case Node(_, l, r) => Leaves(l) + Leaves(r)
  }

  /**
   * The leaves the constructor makes from the range `s`, following its recursion: a span-1
   * range doubles its object, a span-2 range keeps both in order, and a longer range is split
   * at the middle.
   */
  function Spread<O>(s: seq<O>): (r: seq<O>)
    requires |s| > 0
    ensures |r| >= |s|
    decreases |s|
  {
    if |s| == 1 then [s[0], s[0]]
    else if |s| == 2 then s
    else Spread(s[..|s| / 2]) + Spread(s[|s| / 2..])
  }

  /** A range of three or more objects spreads as its two halves. */
  lemma SpreadSplit<O>(s: seq<O>)
    requires |s| > 2
    ensures Spread(s) == Spread(s[..|s| / 2]) + Spread(s[|s| / 2..])
  {
  }

  /** The leaves are exactly the objects of the range. */
  lemma {:induction false} SpreadMembers<O>(s: seq<O>, o: O)
    requires |s| > 0
    ensures o in Spread(s) <==> o in s
    decreases |s|
  {
    if |s| > 2 {
      var m := |s| / 2;
      assert s == s[..m] + s[m..];
      SpreadMembers(s[..m], o);
      SpreadMembers(s[m..], o);
    }
  }

  /** Every node's box holds the box of every object below it. */
  ghost predicate Covers<O>(box: O -> AABB, t: Bvh<O>) {
    match t
    case Prim(_) => true
    case Node(b, l, r) =>
      (forall o :: o in Leaves(t) ==> BoxWithin(box(o), b)) && Covers(box, l) && Covers(box, r)
  }

  // ---------------------------------------------------------------------------------------
  // The node box
  // ---------------------------------------------------------------------------------------

  /** The box folded from `AABB::empty` over the range, left to right. */
  function FoldBox<O>(box: O -> AABB, s: seq<O>): AABB
    decreases |s|
  {
    if |s| == 0 then EmptyBox else Boxes.Union(FoldBox(box, s[..|s| - 1]), box(s[|s| - 1]))
  }

  /** The folded box holds the box of every object of the range. */
  lemma {:induction false} FoldBoxCovers<O>(box: O -> AABB, s: seq<O>)
    ensures forall i :: 0 <= i < |s| ==> BoxWithin(box(s[i]), FoldBox(box, s))
    decreases |s|
  {
    if |s| > 0 {
      var p := s[..|s| - 1];
      FoldBoxCovers(box, p);
      forall i | 0 <= i < |s| - 1
        ensures BoxWithin(box(s[i]), FoldBox(box, s))
      {
        assert s[i] == p[i];
        BoxWithinTrans(box(s[i]), FoldBox(box, p), FoldBox(box, s));
      }
    }
  }

  /** The loop at the head of the constructor: `aabb = AABB(aabb, objects[i]->get_AABB())`. */
  method NodeBox<O>(a: array<O>, box: O -> AABB, start: int, end: int) returns (b: AABB)
    requires 0 <= start <= end <= a.Length
    ensures b == FoldBox(box, a[start..end])
  {
    b := EmptyBox;
    for i := start to end
      invariant b == FoldBox(box, a[start..i])
    {
      assert a[start..i + 1][..i - start] == a[start..i];
      b := Boxes.Union(b, box(a[i]));
    }
  }

  // ---------------------------------------------------------------------------------------
  // The sort
  // ---------------------------------------------------------------------------------------

  /** `compare_AABB_pos`'s key: the centroid's coordinate on the axis. */
  function Key<O>(box: O -> AABB, axis: int, o: O): real
    requires 0 <= axis < 3 && Finite(box(o))
  {
    Get(Centroid(box(o)), axis)
  }

  /** Every object of `a[lo..hi]` has a finite box, so its centroid is a number. */
  ghost predicate FiniteBoxes<O>(box: O -> AABB, a: seq<O>, lo: int, hi: int)
    requires 0 <= lo <= hi <= |a|
  {
    forall i :: lo <= i < hi ==> Finite(box(a[i]))
  }

  /** `a[lo..hi]` is in order of the key. */
  ghost predicate SortedRange<O>(box: O -> AABB, axis: int, a: seq<O>, lo: int, hi: int)
    requires 0 <= axis < 3 && 0 <= lo <= hi <= |a| && FiniteBoxes(box, a, lo, hi)
  {
    forall i, j :: lo <= i < j < hi ==> Key(box, axis, a[i]) <= Key(box, axis, a[j])
  }

  /** Exchanging two neighbours of `a[lo..hi]` keeps its multiset and everything outside it. */
  method SwapNeighbours<O>(a: array<O>, lo: int, hi: int, j: int)
    requires 0 <= lo < j < hi <= a.Length
    modifies a
    ensures a[..] == old(a[..])[j - 1 := old(a[j])][j := old(a[j - 1])]
    ensures a[..lo] == old(a[..lo]) && a[hi..] == old(a[hi..])
    ensures multiset(a[lo..hi]) == multiset(old(a[lo..hi]))
  {
    ghost var s := a[lo..hi];
    a[j - 1], a[j] := a[j], a[j - 1];
    assert a[lo..hi] == s[j - 1 - lo := s[j - lo]][j - lo := s[j - 1 - lo]];
  }

  /**
   * The state of an insertion step that is moving the object at `j` down: `s[lo..i + 1]`
   * without position `j` is sorted, everything before `j` is at most everything after it,
   * and the object at `j` is at most everything after it.
   */
  ghost predicate Inserting<O>(box: O -> AABB, axis: int, s: seq<O>, lo: int, j: int, i: int, hi: int) {
    0 <= axis < 3 && 0 <= lo <= j <= i < hi <= |s| && FiniteBoxes(box, s, lo, hi) &&
    (forall p, q :: lo <= p < q <= i && p != j && q != j ==> Key(box, axis, s[p]) <= Key(box, axis, s[q])) &&
    (forall p, q :: lo <= p < j < q <= i ==> Key(box, axis, s[p]) <= Key(box, axis, s[q])) &&
    (forall q :: j < q <= i ==> Key(box, axis, s[j]) <= Key(box, axis, s[q]))
  }

  /** Exchanging the moving object with a larger neighbour before it moves it down one place. */
  lemma InsertingSwap<O>(box: O -> AABB, axis: int, s: seq<O>, t: seq<O>, lo: int, j: int, i: int, hi: int)
    requires Inserting(box, axis, s, lo, j, i, hi) && lo < j
    requires Key(box, axis, s[j - 1]) > Key(box, axis, s[j])
    requires t == s[j - 1 := s[j]][j := s[j - 1]]
    ensures Inserting(box, axis, t, lo, j - 1, i, hi)
  {
  }

  /** The moving object has stopped: the whole of `s[lo..i + 1]` is sorted. */
  lemma InsertingDone<O>(box: O -> AABB, axis: int, s: seq<O>, lo: int, j: int, i: int, hi: int)
    requires Inserting(box, axis, s, lo, j, i, hi)
    requires j == lo || Key(box, axis, s[j - 1]) <= Key(box, axis, s[j])
    ensures SortedRange(box, axis, s, lo, i + 1)
  {
  }

  /** `t` is `s` with `t[lo..hi]` a permutation of `s[lo..hi]` and the rest unchanged. */
  ghost predicate Rearranged<O>(s: seq<O>, t: seq<O>, lo: int, hi: int) {
    0 <= lo <= hi <= |s| == |t| && t[..lo] == s[..lo] && t[hi..] == s[hi..] &&
    multiset(t[lo..hi]) == multiset(s[lo..hi])
  }

  /** Exchanging two neighbours inside the range keeps a rearrangement one. */
  lemma RearrangedSwap<O>(s0: seq<O>, s: seq<O>, t: seq<O>, lo: int, hi: int, j: int)
    requires Rearranged(s0, s, lo, hi) && lo < j < hi
    requires t == s[j - 1 := s[j]][j := s[j - 1]]
    requires t[..lo] == s[..lo] && t[hi..] == s[hi..] && multiset(t[lo..hi]) == multiset(s[lo..hi])
    ensures Rearranged(s0, t, lo, hi)
  {
  }

  /**
   * One step of the insertion sort: `a[i]` is moved down into the sorted `a[lo..i]` until the
   * key before it is not larger, so that `a[lo..i + 1]` is sorted.
   */
  method InsertStep<O>(a: array<O>, box: O -> AABB, axis: int, lo: int, i: int, hi: int)
    requires 0 <= axis < 3 && 0 <= lo <= i < hi <= a.Length
    requires FiniteBoxes(box, a[..], lo, hi) && SortedRange(box, axis, a[..], lo, i)
    modifies a
    ensures a[..lo] == old(a[..lo]) && a[hi..] == old(a[hi..])
    ensures multiset(a[lo..hi]) == multiset(old(a[lo..hi]))
    ensures FiniteBoxes(box, a[..], lo, hi) && SortedRange(box, axis, a[..], lo, i + 1)
  {
    var j := i;
    ghost var s0 := a[..];
    while j > lo && Key(box, axis, a[j - 1]) > Key(box, axis, a[j])
      invariant Inserting(box, axis, a[..], lo, j, i, hi)
      invariant Rearranged(s0, a[..], lo, hi)
    {
      ghost var s := a[..];
      SwapNeighbours(a, lo, hi, j);
      InsertingSwap(box, axis, s, a[..], lo, j, i, hi);
      RearrangedSwap(s0, s, a[..], lo, hi, j);
      j := j - 1;
    }
    InsertingDone(box, axis, a[..], lo, j, i, hi);
  }

  /**
   * `std::sort` of `objects[start..end)` by centroid on the axis, as an insertion sort: the
   * range ends up in key order and a permutation of itself, and nothing outside it moves.
   * Objects with equal keys may end up in any order; this sort keeps their order.
   */
  method SortRange<O>(a: array<O>, box: O -> AABB, axis: int, lo: int, hi: int)
    requires 0 <= axis < 3 && 0 <= lo <= hi <= a.Length
    requires FiniteBoxes(box, a[..], lo, hi)
    modifies a
    ensures a[..lo] == old(a[..lo]) && a[hi..] == old(a[hi..])
    ensures multiset(a[lo..hi]) == multiset(old(a[lo..hi]))
    ensures FiniteBoxes(box, a[..], lo, hi) && SortedRange(box, axis, a[..], lo, hi)
  {
    for i := lo to hi
      invariant a[..lo] == old(a[..lo]) && a[hi..] == old(a[hi..])
      invariant multiset(a[lo..hi]) == multiset(old(a[lo..hi]))
      invariant FiniteBoxes(box, a[..], lo, hi)
      invariant SortedRange(box, axis, a[..], lo, i)
    {
      InsertStep(a, box, axis, lo, i, hi);
    }
  }

  // ---------------------------------------------------------------------------------------
  // The constructor
  // ---------------------------------------------------------------------------------------

  /** The multiset of a range splits at any point inside it. */
  lemma SplitRange<O>(s: seq<O>, lo: int, mid: int, hi: int)
    requires 0 <= lo <= mid <= hi <= |s|
    ensures s[lo..hi] == s[lo..mid] + s[mid..hi]
    ensures multiset(s[lo..hi]) == multiset(s[lo..mid]) + multiset(s[mid..hi])
  {
    assert s[lo..hi] == s[lo..mid] + s[mid..hi];
  }

  /** Objects past `mid` that a build of `[lo, mid)` left alone keep their finite boxes. */
  lemma FiniteKept<O>(box: O -> AABB, s: seq<O>, t: seq<O>, lo: int, mid: int, hi: int)
    requires 0 <= lo <= mid <= hi <= |s| == |t|
    requires FiniteBoxes(box, s, lo, hi) && t[mid..] == s[mid..]
    ensures FiniteBoxes(box, t, mid, hi)
  {
    forall i | mid <= i < hi
      ensures Finite(box(t[i]))
    {
      assert t[i] == t[mid..][i - mid] == s[mid..][i - mid];
    }
  }

  /** An object of a permuted range is an object of the original range. */
  lemma InPermuted<O>(s: seq<O>, t: seq<O>, o: O)
    requires multiset(s) == multiset(t) && o in s
    ensures o in t
  {
    assert o in multiset(s);
  }

  /**
   * The node box, folded before the sort, covers every leaf: the leaves are objects of the
   * range after the sort, which is a permutation of the range before it.
   */
  lemma NodeCovers<O>(box: O -> AABB, before: seq<O>, after: seq<O>, t: Bvh<O>)
    requires |after| > 0 && t.Node? && t.box == FoldBox(box, before)
    requires multiset(after) == multiset(before) && Leaves(t) == Spread(after)
    requires Covers(box, t.left) && Covers(box, t.right)
    ensures Covers(box, t)
  {
    var b := t.box;
    FoldBoxCovers(box, before);
    forall o | o in Leaves(t)
      ensures BoxWithin(box(o), b)
    {
      SpreadMembers(after, o);
      InPermuted(after, before, o);
      var i :| 0 <= i < |before| && before[i] == o;
    }
  }

  /**
   * The array after sorting the range (`sorted`), building the left half (`mid`) and building
   * the right half (`after`): outside the range nothing moved, and the range is a permutation
   * of itself made of the two built halves.
   */
  lemma SplitBuild<O>(before: seq<O>, sorted: seq<O>, mid: seq<O>, after: seq<O>, start: int, middle: int, end: int)
    requires |before| == |sorted| == |mid| == |after| && 0 <= start < middle < end <= |before|
    requires sorted[..start] == before[..start] && sorted[end..] == before[end..]
    requires multiset(sorted[start..end]) == multiset(before[start..end])
    requires mid[..start] == sorted[..start] && mid[middle..] == sorted[middle..]
    requires multiset(mid[start..middle]) == multiset(sorted[start..middle])
    requires after[..middle] == mid[..middle] && after[end..] == mid[end..]
    requires multiset(after[middle..end]) == multiset(mid[middle..end])
    ensures after[..start] == before[..start] && after[end..] == before[end..]
    ensures multiset(after[start..end]) == multiset(before[start..end])
    ensures after[start..middle] == mid[start..middle]
  {
    assert after[start..middle] == after[..middle][start..];
    assert mid[start..middle] == mid[..middle][start..];
    assert after[..start] == after[..middle][..start];
    assert mid[..start] == mid[..middle][..start];
    assert mid[middle..end] == mid[middle..][..end - middle];
    assert sorted[middle..end] == sorted[middle..][..end - middle];
    assert after[end..] == mid[end..] == mid[middle..][end - middle..] == sorted[middle..][end - middle..] == sorted[end..];
    SplitRange(after, start, middle, end);
    SplitRange(sorted, start, middle, end);
  }

  /**
   * The leaves of a node built over a range of three or more objects: the left child was
   * built over the first half of the range in the array `mid`, which the right child's build
   * (giving `after`) left alone, and the right child over the second half.
   */
  lemma NodeLeaves<O>(t: Bvh<O>, mid: seq<O>, after: seq<O>, start: int, middle: int, end: int)
    requires 0 <= start && end - start > 2 && middle == start + (end - start) / 2 && end <= |mid| == |after|
    requires after[start..middle] == mid[start..middle]
    requires t.Node? && Leaves(t.left) == Spread(mid[start..middle]) && Leaves(t.right) == Spread(after[middle..end])
    ensures Leaves(t) == Spread(after[start..end])
  {
    var range := after[start..end];
    SpreadSplit(range);
    assert range[..|range| / 2] == after[start..middle];
    assert range[|range| / 2..] == after[middle..end];
  }

  /** Every key of `s[lo..mid]` is at most every key of `s[mid..hi]`. */
  ghost predicate SplitByKey<O>(box: O -> AABB, axis: int, s: seq<O>, lo: int, mid: int, hi: int)
    requires 0 <= axis < 3 && 0 <= lo <= mid <= hi <= |s| && FiniteBoxes(box, s, lo, hi)
  {
    forall i, j :: lo <= i < mid <= j < hi ==> Key(box, axis, s[i]) <= Key(box, axis, s[j])
  }

  /**
   * Permuting each half of a sorted range within itself keeps every object of the first half
   * at most every object of the second on the key.
   */
  lemma HalvesKeepSplit<O>(box: O -> AABB, axis: int, sorted: seq<O>, after: seq<O>, lo: int, mid: int, hi: int)
    requires 0 <= axis < 3 && 0 <= lo <= mid <= hi <= |sorted| == |after|
    requires FiniteBoxes(box, sorted, lo, hi) && SortedRange(box, axis, sorted, lo, hi)
    requires multiset(after[lo..mid]) == multiset(sorted[lo..mid])
    requires multiset(after[mid..hi]) == multiset(sorted[mid..hi])
    ensures FiniteBoxes(box, after, lo, hi) && SplitByKey(box, axis, after, lo, mid, hi)
  {
    forall i | lo <= i < hi
      ensures exists k :: (if i < mid then lo <= k < mid else mid <= k < hi) && after[i] == sorted[k]
    {
      if i < mid {
        assert after[i] == after[lo..mid][i - lo];
        InPermuted(after[lo..mid], sorted[lo..mid], after[i]);
        var k :| 0 <= k < mid - lo && sorted[lo..mid][k] == after[i];
        assert after[i] == sorted[lo + k];
      } else {
        assert after[i] == after[mid..hi][i - mid];
        InPermuted(after[mid..hi], sorted[mid..hi], after[i]);
        var k :| 0 <= k < hi - mid && sorted[mid..hi][k] == after[i];
        assert after[i] == sorted[mid + k];
      }
    }
  }

  /** After the two builds each half of the range is a permutation of the sorted half. */
  lemma HalvesPermuted<O>(sorted: seq<O>, mid: seq<O>, after: seq<O>, start: int, middle: int, end: int)
    requires |sorted| == |mid| == |after| && 0 <= start < middle < end <= |sorted|
    requires mid[middle..] == sorted[middle..] && multiset(mid[start..middle]) == multiset(sorted[start..middle])
    requires after[start..middle] == mid[start..middle] && multiset(after[middle..end]) == multiset(mid[middle..end])
    ensures multiset(after[start..middle]) == multiset(sorted[start..middle])
    ensures multiset(after[middle..end]) == multiset(sorted[middle..end])
  {
    assert mid[middle..end] == mid[middle..][..end - middle];
    assert sorted[middle..end] == sorted[middle..][..end - middle];
  }

  /**
   * `BVHNode(objects, start, end)`. The range must not be empty: with `start == end` the
   * constructor recurses on the same empty range without end. The objects' boxes must be
   * finite so that their centroids are numbers.
   */
  method Build<O>(a: array<O>, box: O -> AABB, start: int, end: int) returns (t: Bvh<O>)
    requires 0 <= start < end <= a.Length
    requires FiniteBoxes(box, a[..], start, end)
    modifies a
    ensures a[..start] == old(a[..start]) && a[end..] == old(a[end..])
    ensures multiset(a[start..end]) == multiset(old(a[start..end]))
    ensures t.Node? && t.box == FoldBox(box, old(a[start..end]))
    ensures Leaves(t) == Spread(a[start..end])
    ensures Covers(box, t)
    decreases end - start, 1
  {
    if end - start > 2 {
      t := BuildSplit(a, box, start, end);
    } else {
      var b := NodeBox(a, box, start, end);
      if end - start == 1 {
        t := Node(b, Prim(a[start]), Prim(a[start]));
      } else {
        t := Node(b, Prim(a[start]), Prim(a[start + 1]));
      }
      NodeCovers(box, a[start..end], a[start..end], t);
    }
  }

  /**
   * The constructor on a range of three or more objects: the range is sorted on the longest
   * axis of its box and each half becomes a child.
   */
  method BuildSplit<O>(a: array<O>, box: O -> AABB, start: int, end: int) returns (t: Bvh<O>)
    requires 0 <= start && end - start > 2 && end <= a.Length
    requires FiniteBoxes(box, a[..], start, end)
    modifies a
    ensures a[..start] == old(a[..start]) && a[end..] == old(a[end..])
    ensures multiset(a[start..end]) == multiset(old(a[start..end]))
    ensures t.Node? && t.box == FoldBox(box, old(a[start..end]))
    ensures Leaves(t) == Spread(a[start..end])
    ensures Covers(box, t)
    ensures FiniteBoxes(box, a[..], start, end)
    ensures SplitByKey(box, LongestAxis(FoldBox(box, old(a[start..end]))), a[..], start, start + (end - start) / 2, end)
    decreases end - start, 0
  {
    var b := NodeBox(a, box, start, end);
    ghost var before := a[..];
    var axis := LongestAxis(b);
    SortRange(a, box, axis, start, end);
    var middle := start + (end - start) / 2;
    ghost var sorted := a[..];
    var l := Build(a, box, start, middle);
    ghost var mid := a[..];
    FiniteKept(box, sorted, mid, start, middle, end);
    var r := Build(a, box, middle, end);
    t := Node(b, l, r);
    ghost var after := a[..];
    SplitBuild(before, sorted, mid, after, start, middle, end);
    NodeLeaves(t, mid, after, start, middle, end);
    NodeCovers(box, before[start..end], after[start..end], t);
    HalvesPermuted(sorted, mid, after, start, middle, end);
    HalvesKeepSplit(box, axis, sorted, after, start, middle, end);
  }

  // ---------------------------------------------------------------------------------------
  // The traversal
  // ---------------------------------------------------------------------------------------

  /**
   * `BVHNode::intersect`: a node whose box the ray misses in the window reports no hit and
   * leaves the record; otherwise the left child is asked first and the right child second,
   * with the window's far end lowered to the left hit, writing over the same record.
   */
  function Traverse<O>(h: HitFn<O>, t: Bvh<O>, ri: Ray, w: Interval, rec: Isect): (r: HitResult)
    requires DirOk(ri)
    ensures t.Node? && !Slab(t.box, ri, w) ==> r == HitResult(false, rec)
  {
    match t
    case Prim(o) => h(o, ri, w, rec)
    case Node(box, l, rt) =>
      if !Slab(box, ri, w) then HitResult(false, rec)
      else
        var hl := Traverse(h, l, ri, w, rec);
        var hr := Traverse(h, rt, ri, Interval(w.min, if hl.hit then Fin(hl.rec.distance) else w.max), hl.rec);
        HitResult(hl.hit || hr.hit, hr.rec)
  }

  /** What every object of the tree must keep for the traversal to find the closest hit. */
  ghost predicate ObjectsOk<O>(h: HitFn<O>, box: O -> AABB, objs: seq<O>) {
    forall o :: o in objs ==> Behaved(h, o) && Bounded(h, box, o) && Proper(box(o))
  }

  /** An object hit in a window is hit in its restriction to `[w.min, d]` when it is nearer than `d`, and the other way. */
  lemma ShrinkTo<O>(h: HitFn<O>, o: O, ri: Ray, w: Interval, d: real)
    requires Behaved(h, o) && Le(Fin(d), w.max)
    ensures var w2 := Interval(w.min, Fin(d));
            (h(o, ri, w2, Blank).hit ==>
               h(o, ri, w, Blank).hit && h(o, ri, w, Blank).rec.distance == h(o, ri, w2, Blank).rec.distance) &&
            (h(o, ri, w, Blank).hit && h(o, ri, w, Blank).rec.distance < d ==>
               h(o, ri, w2, Blank).hit && h(o, ri, w2, Blank).rec.distance == h(o, ri, w, Blank).rec.distance)
  {
    var w2 := Interval(w.min, Fin(d));
    assert Shrinks(h, o);
    assert w2.min == w.min && Le(w2.max, w.max);
  }

  /** The call of one object with the record `rec` hits exactly as the call with a fresh record. */
  lemma PrimClosest<O>(h: HitFn<O>, o: O, ri: Ray, w: Interval, rec: Isect)
    requires Behaved(h, o)
    ensures IsClosest(h, [o], ri, w, h(o, ri, w, rec))
    ensures !h(o, ri, w, rec).hit ==> h(o, ri, w, rec).rec == rec
  {
    assert MissKeeps(h, o) && RecordFree(h, o);
    assert o in [o];
  }

  /** A node whose box the ray misses in an open window has no object hit there. */
  lemma PrunedMisses<O>(h: HitFn<O>, box: O -> AABB, b: AABB, objs: seq<O>, ri: Ray, w: Interval)
    requires DirOk(ri) && ObjectsOk(h, box, objs) && !Slab(b, ri, w)
    requires forall o :: o in objs ==> BoxWithin(box(o), b)
    ensures IsClosest(h, objs, ri, w, HitResult(false, Blank))
  {
    if Open(w) {
      forall o | o in objs
        ensures !h(o, ri, w, Blank).hit
      {
        if h(o, ri, w, Blank).hit {
          assert Bounded(h, box, o);
          SlabMonotone(box(o), b, ri, w, w);
        }
      }
    }
  }

  /** A window that is not open holds at most one distance. */
  lemma ClosedWindow(w: Interval, d1: real, d2: real)
    requires !Open(w) && w.Contains(d1) && w.Contains(d2)
    ensures d1 == d2
  {
  }

  /**
   * The two children's answers make the node's answer: the left child answers in `w`, the
   * right one in `w` lowered to the left hit, so the nearer of the two is kept.
   */
  lemma CombineClosest<O>(h: HitFn<O>, left: seq<O>, right: seq<O>, ri: Ray, w: Interval, hl: HitResult, hr: HitResult)
    requires forall o :: o in left || o in right ==> Behaved(h, o)
    requires IsClosest(h, left, ri, w, hl)
    requires IsClosest(h, right, ri, Interval(w.min, if hl.hit then Fin(hl.rec.distance) else w.max), hr)
    requires !hr.hit ==> hr.rec == hl.rec
    ensures IsClosest(h, left + right, ri, w, HitResult(hl.hit || hr.hit, hr.rec))
  {
    var r := HitResult(hl.hit || hr.hit, hr.rec);
    if hl.hit {
      var dl := hl.rec.distance;
      var w2 := Interval(w.min, Fin(dl));
      var ol :| ol in left && h(ol, ri, w, Blank).hit && h(ol, ri, w, Blank).rec.distance == dl;
      assert InWindow(h, ol);
      assert w.Contains(dl);
      if hr.hit {
        var dr := hr.rec.distance;
        var or :| or in right && h(or, ri, w2, Blank).hit && h(or, ri, w2, Blank).rec.distance == dr;
        assert InWindow(h, or);
        ShrinkTo(h, or, ri, w, dl);
        assert or in left + right;
        forall o | o in left + right && h(o, ri, w, Blank).hit
          ensures dr <= h(o, ri, w, Blank).rec.distance
        {
          if o in right {
            ShrinkTo(h, o, ri, w, dl);
          }
        }
      } else {
        assert ol in left + right;
        forall o | o in left + right && h(o, ri, w, Blank).hit
          ensures dl <= h(o, ri, w, Blank).rec.distance
        {
          if o in right && h(o, ri, w, Blank).rec.distance < dl {
            assert InWindow(h, o);
            ShrinkTo(h, o, ri, w, dl);
            assert Open(w2);
          }
        }
      }
    } else {
      assert Interval(w.min, w.max) == w;
      if hr.hit {
        var dr := hr.rec.distance;
        var or :| or in right && h(or, ri, w, Blank).hit && h(or, ri, w, Blank).rec.distance == dr;
        assert or in left + right;
        forall o | o in left + right && h(o, ri, w, Blank).hit
          ensures dr <= h(o, ri, w, Blank).rec.distance
        {
          if o in left {
            assert !Open(w);
            assert InWindow(h, o) && InWindow(h, or);
            ClosedWindow(w, dr, h(o, ri, w, Blank).rec.distance);
          }
        }
      }
    }
  }

  /**
   * The traversal answers the closest-hit query over the tree's leaves, and leaves the record
   * alone when nothing is hit.
   */
  lemma {:induction false} TraverseClosest<O>(h: HitFn<O>, box: O -> AABB, t: Bvh<O>, ri: Ray, w: Interval, rec: Isect)
    requires DirOk(ri) && Covers(box, t) && ObjectsOk(h, box, Leaves(t))
    ensures IsClosest(h, Leaves(t), ri, w, Traverse(h, t, ri, w, rec))
    ensures !Traverse(h, t, ri, w, rec).hit ==> Traverse(h, t, ri, w, rec).rec == rec
    decreases t
  {
    match t
    case Prim(o) =>
      assert o in Leaves(t);
      PrimClosest(h, o, ri, w, rec);
    case Node(b, l, rt) =>
      if !Slab(b, ri, w) {
        PrunedMisses(h, box, b, Leaves(t), ri, w);
      } else {
        var hl := Traverse(h, l, ri, w, rec);
        var w2 := Interval(w.min, if hl.hit then Fin(hl.rec.distance) else w.max);
        TraverseClosest(h, box, l, ri, w, rec);
        TraverseClosest(h, box, rt, ri, w2, hl.rec);
        CombineClosest(h, Leaves(l), Leaves(rt), ri, w, hl, Traverse(h, rt, ri, w2, hl.rec));
      }
  }
}
