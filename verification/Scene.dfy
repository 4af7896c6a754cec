/**
 * Scene.h: the scene, holding the objects, their bounding box and the BVH built over them,
 * and the image size derived from the width and the aspect ratio. The camera maths of
 * `initialize_camera` other than the image height, and the sampling of camera rays, are not
 * part of this model.
 */
module Scenes {
  import opened Opt
  import opened Intervals
  import opened Vectors
  import opened Rays
  import opened Boxes
  import opened Textures
  import opened Objects
  import opened Bvhs
  import opened ObjectLists

  /**
   * `int(image_w / aspect_ratio)` raised to at least 1: the whole part of the quotient when
   * that is at least 1, and 1 otherwise.
   */
  function ImageHeight(imageW: int, aspectRatio: real): (h: int)
    requires aspectRatio != 0.0
    ensures h >= 1
    ensures var q := imageW as real / aspectRatio;
            (q >= 1.0 ==> h as real <= q < h as real + 1.0) && (q < 1.0 ==> h == 1)
  {
    var n := Trunc(imageW as real / aspectRatio);
    if n < 1 then 1 else n
  }

  /**
   * The BVH built over any arrangement `arranged` of the objects answers an open window's
   * closest-hit query as the list scan over the objects does: a hit exactly when the scan
   * has one, at the same distance, and the caller's record untouched by a miss.
   */
  lemma BvhMatchesList<O>(h: HitFn<O>, box: O -> AABB, objs: seq<O>, arranged: seq<O>, t: Bvh<O>,
                          ri: Ray, w: Interval, rec: Isect)
    requires |arranged| > 0 && multiset(arranged) == multiset(objs)
    requires Leaves(t) == Spread(arranged) && Covers(box, t)
    requires ObjectsOk(h, box, objs) && DirOk(ri) && Open(w)
    ensures var r := Traverse(h, t, ri, w, rec);
            var st := Scan(h, objs, ri, w, rec);
            r.hit == st.happened &&
            (r.hit ==> r.rec.distance == st.isect.distance) &&
            (!r.hit ==> r.rec == rec == st.isect)
  {
    forall o
      ensures o in Leaves(t) <==> o in objs
    {
      SpreadMembers(arranged, o);
      assert o in arranged <==> o in multiset(arranged);
      assert o in objs <==> o in multiset(objs);
    }
    assert ObjectsOk(h, box, Leaves(t));
    TraverseClosest(h, box, t, ri, w, rec);
    ScanClosest(h, objs, ri, w, rec);
    var st := Scan(h, objs, ri, w, rec);
    ClosestUnique(h, Leaves(t), objs, ri, w, Traverse(h, t, ri, w, rec), HitResult(st.happened, st.isect));
  }

  /** A rearrangement of objects whose boxes lie in `b` has its boxes in `b` too. */
  lemma RearrangedWithin<O>(box: O -> AABB, s: seq<O>, t: seq<O>, b: AABB)
    requires multiset(t) == multiset(s)
    requires forall i :: 0 <= i < |s| ==> BoxWithin(box(s[i]), b)
    ensures forall i :: 0 <= i < |t| ==> BoxWithin(box(t[i]), b)
  {
    forall i | 0 <= i < |t|
      ensures BoxWithin(box(t[i]), b)
    {
      assert t[i] in multiset(s);
      var k :| 0 <= k < |s| && s[k] == t[i];
    }
  }

  /**
   * `BVHNode(objects)`: the BVH over the whole vector `s`, and the vector as the build's
   * sort leaves it.
   */
  method BuildOver<O>(s: seq<O>, box: O -> AABB) returns (t: Bvh<O>, arranged: seq<O>)
    requires |s| > 0 && forall i :: 0 <= i < |s| ==> Finite(box(s[i]))
    ensures |arranged| == |s| && multiset(arranged) == multiset(s)
    ensures t.Node? && t.box == FoldBox(box, s)
    ensures Leaves(t) == Spread(arranged) && Covers(box, t)
  {
    var a := new O[|s|](i requires 0 <= i < |s| => s[i]);
    assert a[..] == s;
    t := Build(a, box, 0, a.Length);
    assert a[0..a.Length] == a[..] && s[0..|s|] == s;
    arranged := a[..];
  }

  /** `Scene`: the objects with their box `aabb`, the BVH, and the image settings. */
  class Scene<O> {
    var imageW: int
    var imageH: int
    var aspectRatio: real
    var bgColor: Vec3
    var objects: seq<O>
    var bvh: Option<Bvh<O>>
    var aabb: AABB
    /** `get_AABB()` of each object. */
    const box: O -> AABB

    /** The scene box holds the box of every object added since the scene was made. */
    ghost predicate Valid()
      reads this
    {
      forall i :: 0 <= i < |objects| ==> BoxWithin(box(objects[i]), aabb)
    }

    /** `Scene(image_w, aspect_ratio, bgColor)`: no objects, no BVH, and the empty box. */
    constructor (imageW: int, aspectRatio: real, bgColor: Vec3, box: O -> AABB)
      ensures this.imageW == imageW && this.aspectRatio == aspectRatio && this.bgColor == bgColor
      ensures this.box == box && objects == [] && bvh == None && aabb == EmptyBox
      ensures Valid()
    {
      this.imageW := imageW;
      this.aspectRatio := aspectRatio;
      this.bgColor := bgColor;
      this.box := box;
      objects := [];
      bvh := None;
      aabb := EmptyBox;
    }

    /** `Scene()`: image width 100, aspect ratio 1 and a black background. */
    constructor Default(box: O -> AABB)
      ensures imageW == 100 && aspectRatio == 1.0 && bgColor == Zero
      ensures this.box == box && objects == [] && bvh == None && aabb == EmptyBox
      ensures Valid()
    {
      imageW := 100;
      aspectRatio := 1.0;
      bgColor := Zero;
      this.box := box;
      objects := [];
      bvh := None;
      aabb := EmptyBox;
    }

    /** `clear()`: the objects are dropped; the box and the BVH stay as they were. */
    method Clear()
      modifies this
      ensures objects == [] && aabb == old(aabb) && bvh == old(bvh)
      ensures imageW == old(imageW) && imageH == old(imageH) && aspectRatio == old(aspectRatio) && bgColor == old(bgColor)
      ensures Valid()
    {
      objects := [];
    }

    /** `get_AABB()`: the scene box, which holds every object's box. */
    function GetAABB(): (b: AABB)
      reads this
      ensures Valid() ==> forall i :: 0 <= i < |objects| ==> BoxWithin(box(objects[i]), b)
    {
      aabb
    }

    /** `add(object)`: the object goes to the back and the box grows to hold its box. */
    method Add(o: O)
      modifies this
      ensures objects == old(objects) + [o] && aabb == Boxes.Union(old(aabb), box(o)) && bvh == old(bvh)
      ensures imageW == old(imageW) && imageH == old(imageH) && aspectRatio == old(aspectRatio) && bgColor == old(bgColor)
      ensures BoxWithin(old(aabb), aabb) && BoxWithin(box(o), aabb)
      ensures old(Valid()) ==> Valid()
    {
      ghost var before := aabb;
      objects := objects + [o];
      aabb := Boxes.Union(aabb, box(o));
      forall i | 0 <= i < |old(objects)| && old(Valid())
        ensures BoxWithin(box(objects[i]), aabb)
      {
        assert objects[i] == old(objects)[i];
        BoxWithinTrans(box(objects[i]), before, aabb);
      }
    }

    /**
     * `buildBVH()`: the BVH over all the objects. The constructor sorts the scene's own
     * vector, so the objects end up rearranged. With no objects the constructor recurses on
     * the empty range without end, and the objects' boxes must be finite for their centroids.
     */
    method BuildBvh()
      requires |objects| > 0 && forall i :: 0 <= i < |objects| ==> Finite(box(objects[i]))
      modifies this
      ensures multiset(objects) == multiset(old(objects)) && aabb == old(aabb)
      ensures imageW == old(imageW) && imageH == old(imageH) && aspectRatio == old(aspectRatio) && bgColor == old(bgColor)
      ensures bvh.Some? && bvh.value.Node? && bvh.value.box == FoldBox(box, old(objects))
      ensures Leaves(bvh.value) == Spread(objects) && Covers(box, bvh.value)
      ensures old(Valid()) ==> Valid()
    {
      var s := objects;
      var t, arranged := BuildOver(s, box);
      objects := arranged;
      bvh := Some(t);
      if old(Valid()) {
        RearrangedWithin(box, s, objects, aabb);
      }
    }

    /** `intersect(ri, t_interval, isect)`: the query goes to the BVH, which must be built. */
    method Intersect(h: HitFn<O>, ri: Ray, w: Interval, rec: Isect) returns (r: HitResult)
      requires bvh.Some? && DirOk(ri)
      ensures r == Traverse(h, bvh.value, ri, w, rec)
      ensures bvh.value.Node? && !Slab(bvh.value.box, ri, w) ==> !r.hit && r.rec == rec
    {
      r := Traverse(h, bvh.value, ri, w, rec);
    }

    /** The image height set by `initialize_camera`; the viewport and camera frame are left out. */
    method InitializeCamera()
      requires aspectRatio != 0.0
      modifies this
      ensures imageW == old(imageW) && aspectRatio == old(aspectRatio) && bgColor == old(bgColor)
      ensures imageH == ImageHeight(imageW, aspectRatio) && imageH >= 1
      ensures objects == old(objects) && bvh == old(bvh) && aabb == old(aabb)
    {
      imageH := Trunc(imageW as real / aspectRatio);
      imageH := if imageH < 1 then 1 else imageH;
    }
  }
}
