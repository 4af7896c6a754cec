/**
 * ObjectList.h: a list of objects answering the closest-hit query by a linear scan. The
 * scan keeps the nearest distance found so far and asks each object only for hits nearer
 * than it, handing every object the record the previous call left behind.
 */
module ObjectLists {
  import opened Intervals
  import opened Rays
  import opened Boxes
  import opened Objects

  /**
   * The locals of the scan loop: `happened`, `closest`, the scratch record `temp_isect` that
   * every call writes, and the caller's record `isect`, written on each accepted hit.
   */
  datatype ScanState = ScanState(happened: bool, closest: Ext, temp: Isect, isect: Isect)

  /** The state before the first object: nothing found, `closest == t_max`, `isect` untouched. */
  function ScanStart(w: Interval, rec: Isect): ScanState {
    ScanState(false, w.max, Blank, rec)
  }

  /** One turn of the loop: the object is asked in `[t_min, closest]` with the scratch record. */
  function ScanStep<O>(h: HitFn<O>, o: O, ri: Ray, w: Interval, st: ScanState): ScanState {
    var q := h(o, ri, Interval(w.min, st.closest), st.temp);
    if q.hit then ScanState(true, Fin(q.rec.distance), q.rec, q.rec)
    else ScanState(st.happened, st.closest, q.rec, st.isect)
  }

  /** The state after the loop has run over `objs`, left to right. */
  function Scan<O>(h: HitFn<O>, objs: seq<O>, ri: Ray, w: Interval, rec: Isect): ScanState
    decreases |objs|
  {
    if |objs| == 0 then ScanStart(w, rec)
    else ScanStep(h, objs[|objs| - 1], ri, w, Scan(h, objs[..|objs| - 1], ri, w, rec))
  }

  /** Some object of `objs` is hit in `w`, asked with a fresh record. */
  ghost predicate AnyHit<O>(h: HitFn<O>, objs: seq<O>, ri: Ray, w: Interval) {
    exists o :: o in objs && h(o, ri, w, Blank).hit
  }

  /**
   * What the loop keeps after any prefix `objs` of the list: before the first hit the window
   * and both records are as they started; after it, `closest` is the distance of the record
   * in `isect` and `temp`, that distance is an object's hit in the full window and no
   * object's hit there is nearer; and `happened` exactly when some object is hit.
   */
  ghost predicate ScanOk<O>(h: HitFn<O>, objs: seq<O>, ri: Ray, w: Interval, rec: Isect, st: ScanState) {
    (!st.happened ==> st.closest == w.max && st.temp == Blank && st.isect == rec) &&
    (st.happened ==> st.closest == Fin(st.isect.distance) && st.temp == st.isect && w.Contains(st.isect.distance)) &&
    (st.happened ==> exists o :: o in objs && h(o, ri, w, Blank).hit && h(o, ri, w, Blank).rec.distance == st.isect.distance) &&
    (st.happened ==> forall o :: o in objs && h(o, ri, w, Blank).hit ==> st.isect.distance <= h(o, ri, w, Blank).rec.distance) &&
    (st.happened <==> AnyHit(h, objs, ri, w))
  }

  /** The call of the loop on `o`, in the scan's window, agrees with the call with a fresh record. */
  lemma StepCall<O>(h: HitFn<O>, o: O, ri: Ray, w: Interval, st: ScanState, q: HitResult)
    requires Behaved(h, o) && q == h(o, ri, Interval(w.min, st.closest), st.temp)
    ensures !q.hit ==> q.rec == st.temp
    ensures q.hit == h(o, ri, Interval(w.min, st.closest), Blank).hit
    ensures q.hit ==> q.rec.distance == h(o, ri, Interval(w.min, st.closest), Blank).rec.distance
    ensures q.hit ==> Interval(w.min, st.closest).Contains(q.rec.distance)
  {
    assert MissKeeps(h, o) && RecordFree(h, o) && InWindow(h, o);
  }

  /** The object's answer in the scan's window, against its answer in the full window. */
  lemma StepWindow<O>(h: HitFn<O>, o: O, ri: Ray, w: Interval, closest: Ext)
    requires Behaved(h, o) && Le(closest, w.max)
    ensures var w2 := Interval(w.min, closest);
            (h(o, ri, w2, Blank).hit ==>
               h(o, ri, w, Blank).hit && h(o, ri, w, Blank).rec.distance == h(o, ri, w2, Blank).rec.distance) &&
            (h(o, ri, w, Blank).hit && Lt(Fin(h(o, ri, w, Blank).rec.distance), closest) ==>
               h(o, ri, w2, Blank).hit)
  {
    var w2 := Interval(w.min, closest);
    assert Shrinks(h, o);
    assert w2.min == w.min && Le(w2.max, w.max);
  }

  /** One turn of the loop keeps `ScanOk`, now over the prefix extended by the object. */
  lemma ScanStepOk<O>(h: HitFn<O>, objs: seq<O>, o: O, ri: Ray, w: Interval, rec: Isect, st: ScanState, st': ScanState)
    requires Behaved(h, o) && ScanOk(h, objs, ri, w, rec, st)
    requires st' == ScanStep(h, o, ri, w, st)
    ensures ScanOk(h, objs + [o], ri, w, rec, st')
  {
    var w2 := Interval(w.min, st.closest);
    var q := h(o, ri, w2, st.temp);
    StepCall(h, o, ri, w, st, q);
    assert Le(st.closest, w.max) by {
      if st.happened {
        assert w.Contains(st.isect.distance);
      }
    }
    StepWindow(h, o, ri, w, st.closest);
    assert o in objs + [o];
    forall p | p in objs + [o]
      ensures p in objs || p == o
    {
    }
    if q.hit {
      var d := q.rec.distance;
      forall p | p in objs + [o] && h(p, ri, w, Blank).hit
        ensures d <= h(p, ri, w, Blank).rec.distance
      {
        if p in objs && st.happened {
          assert Le(Fin(d), st.closest);
        }
      }
    } else {
      if st.happened {
        if h(o, ri, w, Blank).hit && h(o, ri, w, Blank).rec.distance < st.isect.distance {
          assert false;
        }
        var p :| p in objs && h(p, ri, w, Blank).hit && h(p, ri, w, Blank).rec.distance == st.isect.distance;
        assert p in objs + [o];
      } else {
        assert w2 == w;
        forall p | p in objs + [o]
          ensures !h(p, ri, w, Blank).hit
        {
          if p in objs {
            assert !AnyHit(h, objs, ri, w);
          }
        }
      }
    }
  }

  /**
   * The scan over the whole list answers the closest-hit query: it reports a hit exactly
   * when some object is hit in the window, the record it leaves is the nearest such hit, and
   * when nothing is hit the caller's record is left as it was.
   */
  lemma {:induction false} ScanClosest<O>(h: HitFn<O>, objs: seq<O>, ri: Ray, w: Interval, rec: Isect)
    requires forall o :: o in objs ==> Behaved(h, o)
    ensures ScanOk(h, objs, ri, w, rec, Scan(h, objs, ri, w, rec))
    ensures var st := Scan(h, objs, ri, w, rec);
            IsClosest(h, objs, ri, w, HitResult(st.happened, st.isect)) &&
            (st.happened <==> AnyHit(h, objs, ri, w)) &&
            (!st.happened ==> st.isect == rec)
    decreases |objs|
  {
    var st := Scan(h, objs, ri, w, rec);
    if |objs| > 0 {
      var init := objs[..|objs| - 1];
      var last := objs[|objs| - 1];
      assert objs == init + [last];
      forall o | o in init
        ensures Behaved(h, o)
      {
        assert o in objs;
      }
      ScanClosest(h, init, ri, w, rec);
      ScanStepOk(h, init, last, ri, w, rec, Scan(h, init, ri, w, rec), st);
    }
  }

  /** `ObjectList`: the list of objects, added to at the back. */
  class ObjectList<O> {
    var objects: seq<O>

    /** `ObjectList()`: the empty list. */
    constructor Empty()
      ensures objects == []
    {
      objects := [];
    }

    /** `ObjectList(object)`: the list of the one object, by way of `add`. */
    constructor Single(o: O)
      ensures objects == [o]
    {
      objects := [] + [o];
    }

    /** `clear()`: the list is emptied. */
    method Clear()
      modifies this
      ensures objects == []
    {
      objects := [];
    }

    /** `add(object)`: `push_back`, the object becomes the last of the list. */
    method Add(o: O)
      modifies this
      ensures objects == old(objects) + [o]
    {
      objects := objects + [o];
    }

    /**
     * `intersect(r, t_interval, isect)`: the scan loop, returning `happened` and the record
     * the caller's `isect` holds afterwards. It leaves the list as it is.
     */
    method Intersect(h: HitFn<O>, ri: Ray, w: Interval, rec: Isect) returns (r: HitResult)
      ensures var st := Scan(h, objects, ri, w, rec); r == HitResult(st.happened, st.isect)
    {
      var temp := Blank;
      var happened := false;
      var closest := w.max;
      var isect := rec;
      for i := 0 to |objects|
        invariant ScanState(happened, closest, temp, isect) == Scan(h, objects[..i], ri, w, rec)
      {
        assert objects[..i + 1][..i] == objects[..i];
        var q := h(objects[i], ri, Interval(w.min, closest), temp);
        temp := q.rec;
        if q.hit {
          happened := true;
          closest := Fin(q.rec.distance);
          isect := temp;
        }
      }
      assert objects[..|objects|] == objects;
      r := HitResult(happened, isect);
    }
  }
}
