/**
 * Renderer.h: the path tracer's radiance estimate `get_color` and the image size set by
 * `initialize`. The scene is its `intersect`, the random draws of a path are supplied in
 * order, and the pixel loop with its file output is not part of this model.
 */
module Render {
  import opened Opt
  import opened Intervals
  import opened Vectors
  import opened Rays
  import opened Textures
  import opened Materials
  import opened Objects
  import opened Scenes

  /** `RussianRoulette`: the probability that a path goes on after a hit. */
  const RussianRoulette: real := 0.8

  /** The window `[1e-3, infinity)` every path segment is traced in. */
  const TraceWindow: Interval := Interval(Fin(0.001), PosInf)

  /** The scene's `intersect`. */
  type World = (Ray, Interval, Isect) -> HitResult

  /** The draws of one bounce: the roulette's `sample_double()` and the scatter's unit vector. */
  datatype Draw = Draw(rr: real, unit: Vec3)

  /**
   * The sky seen along a ray that hits nothing: white blended into light blue by
   * `a = 0.5 + dir.y / viewport_height`. The blue channel is 1 whatever the ray, and for
   * `a` in `[0, 1]` the other two lie between their white and blue values.
   */
  function Background(ri: Ray, viewportHeight: real): (c: Vec3)
    requires viewportHeight != 0.0
    ensures c.z == 1.0
    ensures var a := 0.5 + ri.direction.y / viewportHeight;
            0.0 <= a <= 1.0 ==> 0.5 <= c.x <= 1.0 && 0.7 <= c.y <= 1.0
    ensures ri.direction.y == 0.0 ==> c == Vec3(0.75, 0.85, 1.0)
  {
    var a := 0.5 + ri.direction.y / viewportHeight;
    Add(Scale(1.0 - a, Vec3(1.0, 1.0, 1.0)), Scale(a, Vec3(0.5, 0.7, 1.0)))
  }

  /** The estimate of a path that survived the roulette: `attenuation * L / RussianRoulette`. */
  function Survive(attenuation: Vec3, l: Vec3): Vec3 {
    Div(Mul(attenuation, l), RussianRoulette)
  }

  /**
   * The roulette keeps the estimate unbiased: weighting the survivor's estimate by the
   * survival probability and black by the rest gives back `attenuation * L`.
   */
  lemma RouletteUnbiased(attenuation: Vec3, l: Vec3)
    ensures Add(Scale(RussianRoulette, Survive(attenuation, l)), Scale(1.0 - RussianRoulette, Zero)) == Mul(attenuation, l)
  {
    var m := Mul(attenuation, l);
    assert Scale(RussianRoulette, Div(m, RussianRoulette)) == m by {
      assert RussianRoulette * (m.x / RussianRoulette) == m.x;
      assert RussianRoulette * (m.y / RussianRoulette) == m.y;
      assert RussianRoulette * (m.z / RussianRoulette) == m.z;
    }
  }

  /**
   * `get_color(ri, scene)` along the path whose draws are `draws`. A ray that hits nothing
   * sees the background; after a hit, a roulette draw above `RussianRoulette` ends the path in
   * black, a material that does not scatter gives black, and otherwise the scattered ray is
   * followed and its colour weighted by `Survive`. `None` when the path needs more draws
   * than were supplied.
   */
  function GetColor(world: World, draws: seq<Draw>, ri: Ray, viewportHeight: real,
                    norm: Vec3 -> real, isotropic: (Texture, Ray, Vec3) -> ScatterResult): (c: Option<Vec3>)
    requires viewportHeight != 0.0 && IsNorm(norm)
    ensures !world(ri, TraceWindow, Blank).hit ==> c == Some(Background(ri, viewportHeight))
    ensures world(ri, TraceWindow, Blank).hit && |draws| > 0 && draws[0].rr > RussianRoulette ==> c == Some(Zero)
    ensures world(ri, TraceWindow, Blank).hit && |draws| == 0 ==> c.None?
    ensures var q := world(ri, TraceWindow, Blank);
            (q.hit && |draws| > 0 && draws[0].rr <= RussianRoulette &&
             !Scatter(q.rec.m, ri, q.rec.p, q.rec.normal, draws[0].unit, norm, isotropic).scattered) ==> c == Some(Zero)
    ensures var q := world(ri, TraceWindow, Blank);
            q.hit && |draws| > 0 && draws[0].rr <= RussianRoulette ==>
              var s := Scatter(q.rec.m, ri, q.rec.p, q.rec.normal, draws[0].unit, norm, isotropic);
              s.scattered ==>
                var l := GetColor(world, draws[1..], s.ro, viewportHeight, norm, isotropic);
                (c.Some? <==> l.Some?) && (l.Some? ==> c == Some(Survive(s.attenuation, l.value)))
    decreases |draws|
  {
    var q := world(ri, TraceWindow, Blank);
    if !q.hit then Some(Background(ri, viewportHeight))
    else if |draws| == 0 then None
    else if draws[0].rr > RussianRoulette then Some(Zero)
    else
      var s := Scatter(q.rec.m, ri, q.rec.p, q.rec.normal, draws[0].unit, norm, isotropic);
      if !s.scattered then Some(Zero)
      else match GetColor(world, draws[1..], s.ro, viewportHeight, norm, isotropic)
        case None => None
        case Some(l) => Some(Survive(s.attenuation, l))
  }

  /**
   * Supplying more draws than a path uses does not change its colour: the draws only bound
   * how far the path is followed, never what it computes.
   */
  lemma {:induction false} GetColorExtends(world: World, draws: seq<Draw>, extra: seq<Draw>, ri: Ray, viewportHeight: real,
                                           norm: Vec3 -> real, isotropic: (Texture, Ray, Vec3) -> ScatterResult)
    requires viewportHeight != 0.0 && IsNorm(norm)
    requires GetColor(world, draws, ri, viewportHeight, norm, isotropic).Some?
    ensures GetColor(world, draws + extra, ri, viewportHeight, norm, isotropic) == GetColor(world, draws, ri, viewportHeight, norm, isotropic)
    decreases |draws|
  {
    var q := world(ri, TraceWindow, Blank);
    if q.hit && draws[0].rr <= RussianRoulette {
      var s := Scatter(q.rec.m, ri, q.rec.p, q.rec.normal, draws[0].unit, norm, isotropic);
      if s.scattered {
        assert (draws + extra)[0] == draws[0];
        assert (draws + extra)[1..] == draws[1..] + extra;
        GetColorExtends(world, draws[1..], extra, s.ro, viewportHeight, norm, isotropic);
      }
    }
  }

  /** `Renderer`: the image settings and the viewport set by `initialize`. */
  class Renderer {
    var aspectRatio: real
    var imageWidth: int
    var spp: int
    var imageHeight: int
    var eyePos: Vec3
    var viewportHeight: real
    var viewportWidth: real

    /** `Renderer()`: aspect ratio 1, width 100, 10 samples per pixel, nothing initialized. */
    constructor ()
      ensures aspectRatio == 1.0 && imageWidth == 100 && spp == 10
      ensures imageHeight == 0 && viewportHeight == 0.0 && viewportWidth == 0.0
    {
      aspectRatio := 1.0;
      imageWidth := 100;
      spp := 10;
      imageHeight := 0;
      eyePos := Zero;
      viewportHeight := 0.0;
      viewportWidth := 0.0;
    }

    /**
     * `initialize()`: the image height from the width and the aspect ratio, the eye at the
     * origin, and a viewport 2 high whose sides are in the proportion of the image's.
     */
    method Initialize()
      requires aspectRatio != 0.0
      modifies this
      ensures aspectRatio == old(aspectRatio) && imageWidth == old(imageWidth) && spp == old(spp)
      ensures imageHeight == ImageHeight(imageWidth, aspectRatio) && imageHeight >= 1
      ensures eyePos == Zero && viewportHeight == 2.0
      ensures viewportWidth * imageHeight as real == viewportHeight * imageWidth as real
    {
      imageHeight := Trunc(imageWidth as real / aspectRatio);
      imageHeight := if imageHeight < 1 then 1 else imageHeight;
      eyePos := Zero;
      viewportHeight, viewportWidth := 2.0, 2.0 * (imageWidth as real / imageHeight as real);
    }
  }
}
