/** The textures of Texture.h: a colour looked up from surface coordinates and a point. */
module Textures {
  import opened Intervals
  import opened Vectors

  /** One channel of a stored pixel. */
  newtype Byte = x: int | 0 <= x < 256

  /**
   * The image behind `ImageTexture`. Image.h is not part of this model: the loaded image is
   * its width, its height and the pixel lookup `get_pixel_data(i, j)`.
   */
  datatype Image = Image(width: int, height: int, pixel: (int, int) -> (Byte, Byte, Byte))

  datatype Texture =
    | Solid(albedo: Vec3)
    | Checker(invScale: real, odd: Texture, even: Texture)
    | ImageTexture(image: Image)

  /** The checker constructor from a scale and two textures: stores `1 / scale`. */
  function MakeChecker(scale: real, odd: Texture, even: Texture): (t: Texture)
    requires scale != 0.0
    ensures t.Checker? && t.invScale * scale == 1.0 && t.odd == odd && t.even == even
  {
    Checker(1.0 / scale, odd, even)
  }

  /** The checker constructor from two colours: `c1` colours the odd cells, `c2` the even ones. */
  function CheckerColors(scale: real, c1: Vec3, c2: Vec3): (t: Texture)
    requires scale != 0.0
    ensures t.Checker? && t.odd == Solid(c1) && t.even == Solid(c2)
  {
    MakeChecker(scale, Solid(c1), Solid(c2))
  }

  /** C++ `int(x)` on a double: truncation toward zero. */
  function Trunc(x: real): (n: int)
    ensures x >= 0.0 ==> n >= 0 && n as real <= x < n as real + 1.0
    ensures x < 0.0 ==> n <= 0 && n as real - 1.0 < x <= n as real
  {
    if x >= 0.0 then x.Floor else -((-x).Floor)
  }

  /** C++ `a % 2` on `int`: the remainder takes the sign of `a`. */
  function CRem2(a: int): (r: int)
    ensures -1 <= r <= 1
    ensures a >= 0 ==> r >= 0
    ensures a <= 0 ==> r <= 0
  {
    if a >= 0 then a % 2 else -((-a) % 2)
  }

  /** The cell index sum `floor(x/s) + floor(y/s) + floor(z/s)` of the checker. */
  function CellSum(invScale: real, p: Vec3): int {
    (invScale * p.x).Floor + (invScale * p.y).Floor + (invScale * p.z).Floor
  }

  /** `get_texColor(u, v, p)`. */
  function TexColor(t: Texture, u: real, v: real, p: Vec3): (c: Vec3)
    ensures t.ImageTexture? && t.image.height > 0 ==>
              0.0 <= c.x <= 1.0 && 0.0 <= c.y <= 1.0 && 0.0 <= c.z <= 1.0
    ensures t.ImageTexture? && t.image.height <= 0 ==> c == Vec3(0.0, 1.0, 1.0)
  {
    match t
    case Solid(albedo) => albedo
    case Checker(invScale, odd, even) =>
      if CRem2(CellSum(invScale, p)) == 0 then TexColor(even, u, v, p) else TexColor(odd, u, v, p)
    case ImageTexture(image) =>
      if image.height <= 0 then Vec3(0.0, 1.0, 1.0)
      else
        var (su, sv) := ImageCoordinates(u, v);
        var i := Trunc(su * image.width as real);
        var j := Trunc(sv * image.height as real);
        var (r, g, b) := image.pixel(i, j);
        var scale := 1.0 / 255.0;
        Vec3(scale * r as real, scale * g as real, scale * b as real)
  }

  /** The two clamps of `ImageTexture`: u into [0,1], and v into [0,1] then flipped. */
  function ImageCoordinates(u: real, v: real): (uv: (real, real))
    ensures 0.0 <= uv.0 <= 1.0 && 0.0 <= uv.1 <= 1.0
    ensures 0.0 <= u <= 1.0 ==> uv.0 == u
    ensures 0.0 <= v <= 1.0 ==> uv.1 == 1.0 - v
    ensures u < 0.0 ==> uv.0 == 0.0
    ensures u > 1.0 ==> uv.0 == 1.0
    ensures v < 0.0 ==> uv.1 == 1.0
    ensures v > 1.0 ==> uv.1 == 0.0
  {
    var unit := Interval(Fin(0.0), Fin(1.0));
    (unit.Clamp(u).v, 1.0 - unit.Clamp(v).v)
  }

  /**
   * The C remainder test agrees with the mathematical parity, negative sums included, so the
   * even texture colours exactly the cells whose index sum is even.
   */
  lemma CheckerParity(invScale: real, odd: Texture, even: Texture, u: real, v: real, p: Vec3)
    ensures CRem2(CellSum(invScale, p)) == 0 <==> CellSum(invScale, p) % 2 == 0
    ensures TexColor(Checker(invScale, odd, even), u, v, p) ==
              if CellSum(invScale, p) % 2 == 0 then TexColor(even, u, v, p) else TexColor(odd, u, v, p)
  {
    var s := CellSum(invScale, p);
    if s < 0 {
      var k := (-s) / 2;
      assert -s == 2 * k + (-s) % 2;
    }
  }

  /** A solid texture ignores its inputs. */
  lemma SolidIsConstant(c: Vec3, u1: real, v1: real, p1: Vec3, u2: real, v2: real, p2: Vec3)
    ensures TexColor(Solid(c), u1, v1, p1) == TexColor(Solid(c), u2, v2, p2) == c
  {
  }
}
