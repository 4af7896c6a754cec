# A verified model of the RTIOW/RTNW path tracer core

This project models, in Dafny, the core of a small C++ path tracer (HiT-T/RTIOW_RTNW-Notes):

- the value types: `Interval`, `Vector3d`, `Ray` and the axis-aligned box `AABB`;
- the intersection record and the objects: `Sphere`, `Quad`, `ConstantMedium`, and the instancing
  wrappers `Translate` and `RotateY`;
- the two object containers: the linear `ObjectList` and the bounding volume hierarchy `BVHNode`;
- the `Scene` that owns the objects and their BVH;
- the materials, textures and Perlin noise;
- the `Renderer`'s radiance estimate.

Doubles are modelled as real numbers. Where an infinity matters (interval ends, the slab test,
the empty box), a value is an `Ext`: a real, `+infinity` or `-infinity`. Where a division by zero
would produce a NaN vector, the model returns `None` or the zero vector explicitly.

The entities the source updates in place are classes whose methods state their new state:
`Vector3d`'s compound operators, `ObjectList`, `Scene`, `Perlin` and `Renderer`. The algorithms
that run in place on arrays keep their arrays:

- the BVH constructor sorts the shared object vector range by range;
- Perlin's Fisher–Yates shuffle.

Everything else is a datatype with pure functions.

The central theorems are:

- **Every shape keeps one contract** (`Shapes.ShapesBehaved`), through any nesting of
  translations, rotations and media:
  - a miss leaves the record alone;
  - a hit lies in the window;
  - whether there is a hit, and at which distance, does not depend on the incoming record
    (the rest of the record can: a medium keeps the incoming texture coordinates);
  - shrinking the far end of the window keeps exactly the nearer hits.
- **Both containers answer the closest-hit query**:
  - the list scan finds the nearest hit of any object (`ObjectLists.ScanClosest`);
  - the BVH traversal does the same over its leaves (`Bvhs.TraverseClosest`).
- **BVH construction**: the constructor's sort leaves the vector a permutation of itself, every
  node's box holds the boxes below it, and the leaves are the objects of the range (`Bvhs.Build`).
- **BVH and list agree**: the BVH reports a hit exactly when the list does, at the same distance,
  and leaves the record alone on a miss (`Scenes.BvhMatchesList`). The records of a hit may
  differ on a tie: a quad accepts a hit at the far end of its window (Quad.h:30), so of two
  objects hit at the same distance the one asked last wins, and the BVH asks in a different
  order from the list.
- **Slab test**: a ray that reaches a point strictly inside the box at a distance in the window
  passes the test, and a ray that passes it reaches the box in the window
  (`Boxes.SlabSound`, `Boxes.SlabComplete`). A static sphere's padded box therefore bounds its
  hits (`Shapes.StaticSphereBounded`).

Calls the model does not compute are parameters:

- the square root, `acos`/`atan2` and `log` (the `Env` of `Shapes`);
- a vector's norm;
- the random draws (unit vectors, roulette samples, Perlin's samples and shuffle targets);
- the isotropic phase function;
- the image behind an image texture.

## Model

| member | source | states |
|---|---|---|
| Intervals.Interval.Size | src/Interval.h:17 | the length is non-negative exactly when the range is not reversed |
| Intervals.Interval.Clamp | src/Interval.h:23 | the result lies in a non-reversed range; it is `x` itself when `x` is inside, and the nearer end when `x` is outside |
| Intervals.Interval.Expand | src/Interval.h:25-28 | the size grows by exactly `delta`; a non-negative `delta` keeps every point of the range |
| Intervals.Interval.Shift | src/Interval.h:35-37 | shifting keeps the size |
| Intervals.ShiftLeft | src/Interval.h:39-41 | `offset + intv` keeps the size, and `t` is in `intv` exactly when `t + offset` is in the result |
| Intervals.ShiftContains | src/Interval.h:35-37 | `t` is in the range exactly when `t + d` is in the shifted range |
| Intervals.Union | src/Interval.h:12-15 | the union holds both ranges, and each end comes from one of them |
| Intervals.UnionEmptyIdentity | src/Interval.h:8-15 | the union with the empty (default) interval is the identity on both sides |
| Intervals.SurroundsContains | src/Interval.h:19-33 | `surrounds` implies `contains`; the universe holds every real and the empty interval none |
| Intervals.ContainsProper | src/Interval.h:19 | a range that contains a point is not reversed |
| Vectors.Neg | src/Vector3d.h:15 | `v + (-v)` is the zero vector |
| Vectors.Sub | src/Vector3d.h:82-84 | `(u - v) + v == u` |
| Vectors.Div | src/Vector3d.h:98-100 | `t * (v / t) == v` for non-zero `t` |
| Vectors.NormSquared | src/Vector3d.h:47-49 | the squared norm is never negative |
| Vectors.NormSquaredPos | src/Vector3d.h:47-49 | a non-zero vector has a positive squared norm |
| Vectors.NearZeroSmall | src/Vector3d.h:55-58 | a near-zero vector has squared norm below `3e-16` |
| Vectors.Normalized | src/Vector3d.h:120-122 | `normalize` is undefined (NaN) exactly for the zero vector; otherwise it keeps the sign of the dot product with every vector |
| Vectors.DotProperties | src/Vector3d.h:102-104 | the dot product is symmetric and `v . v` is the squared norm |
| Vectors.CrossProperties | src/Vector3d.h:106-110 | `u x v` is orthogonal to both factors and anti-symmetric |
| Vectors.NegAddSub | src/Vector3d.h:78-84 | negation is an involution; adding then subtracting restores a vector |
| Vectors.Vector3d.constructor | src/Vector3d.h:9 | the three components are the given ones |
| Vectors.Vector3d.AddAssign | src/Vector3d.h:19-25 | `+=` leaves the receiver holding the sum |
| Vectors.Vector3d.SubAssign | src/Vector3d.h:27-33 | `-=` leaves the receiver holding the difference |
| Vectors.Vector3d.MulAssign | src/Vector3d.h:35-41 | `*=` leaves the receiver holding the scaled vector |
| Vectors.Vector3d.DivAssign | src/Vector3d.h:43-45 | `/=`, written as `*= 1/t`, leaves the receiver holding `v / t` |
| Vectors.AddThenSubRestores | src/Vector3d.h:19-33 | `v += w; v -= w` gives back the original vector |
| Vectors.SampleInUnitDisk | src/Vector3d.h:112-118 | the result is the first draw inside the unit disk, with z = 0 and squared norm below 1; it exists exactly when such a draw does |
| Vectors.DivByNorm | src/Vector3d.h:128-129 | dividing by the Euclidean norm gives a unit vector |
| Vectors.SampleRandomDir | src/Vector3d.h:124-132 | the result is the first draw whose norm is in `(1e-160, 1]`, divided by that norm; it is a unit vector, and exists exactly when such a draw does |
| Vectors.SampleOutwardDir | src/Vector3d.h:134-141 | the result is the draw or its negation, lies in the hemisphere of `N`, is the draw itself when that has a positive dot product with `N`, and its negation otherwise, zero included |
| Rays.MakeRay | src/ray.h:9 | the two-argument constructor stamps time 0 |
| Rays.AtProperties | src/ray.h:19-21 | `at(0)` is the origin; two points on the ray differ by a multiple of the direction |
| Boxes.Pad | src/AABB.h:72-77 | padding grows each axis by exactly `1e-4` and keeps the original box inside |
| Boxes.FromIntervals | src/AABB.h:9-11 | the three-interval constructor pads: each axis grows by exactly `1e-4`, and the box holds the given intervals |
| Boxes.Ordered | src/AABB.h:15-17 | each axis of the two-point constructor is a non-reversed range holding both coordinates, with ends taken from them |
| Boxes.FromPoints | src/AABB.h:14-20 | the two-point box is finite, not reversed, and holds both points |
| Boxes.FromPointsBetween | src/AABB.h:14-20 | every point between the two corners lies in the box |
| Boxes.FromPointsSymmetric | src/AABB.h:14-20 | the order of the two points does not matter |
| Boxes.Union | src/AABB.h:23-27 | the union box holds both boxes and every point of either |
| Boxes.EmptyBoxProperties | src/AABB.h:80-81 | the padded `empty` box holds no point and is the identity of the union; `universe` holds every point |
| Boxes.Centroid | src/AABB.h:29 | the centroid of a non-reversed box lies inside it |
| Boxes.LongestAxis | src/AABB.h:62-67 | the chosen axis, with the source's exact tie-break, as two if-and-only-ifs |
| Boxes.LongestAxisIsLongest | src/AABB.h:62-67 | the chosen axis is at least as long as every other; a later axis is strictly shorter |
| Boxes.SlabStep | src/AABB.h:43-56 | one loop pass narrows the window to its intersection with the slab crossing span |
| Boxes.IntersectP | src/AABB.h:37-59 | the loop with early exit returns the slab-test predicate |
| Boxes.SlabIsNarrowedOpen | src/AABB.h:42-58 | stopping at the first emptied axis gives the same answer as narrowing all three axes and testing once |
| Boxes.SlabSound | src/AABB.h:37-59 | when the ray reaches a point strictly inside every axis of the box at a distance in an open window, the slab test passes |
| Boxes.SlabComplete | src/AABB.h:37-59 | when the slab test passes, the ray reaches a point of the box at some distance in the window |
| Boxes.EmptyBoxPasses | src/AABB.h:69-76 | the padded `empty` box passes the slab test for every ray in an open window, so `empty` as a node box never prunes |
| Boxes.PadStrict | src/AABB.h:72-76 | padding puts every point of the unpadded box strictly inside the padded one |
| Boxes.SlabMonotone | src/AABB.h:37-59 | a ray passing a box in a window passes every enclosing box in every enclosing window |
| Boxes.Offset | src/Object.h:41 | shifting a box keeps it finite and not reversed |
| Boxes.OffsetContains | src/Object.h:41 | the shifted box holds exactly the shifted points |
| Textures.MakeChecker | src/Texture.h:30-31 | the checker stores the reciprocal of the scale and the two textures |
| Textures.CheckerColors | src/Texture.h:33-34 | the colour constructor wraps `c1` as the odd texture and `c2` as the even one |
| Textures.Trunc | src/Texture.h:65-66 | C++ `int(x)` truncates toward zero: within 1 of `x`, on `x`'s side of zero |
| Textures.CRem2 | src/Texture.h:41 | C++ `% 2` lies in `[-1, 1]` and takes the sign of its operand |
| Textures.CheckerParity | src/Texture.h:36-44 | the C remainder test selects the even texture exactly for cells with an even index sum, negative sums included |
| Textures.ImageCoordinates | src/Texture.h:61-63 | `u` is clamped to `[0,1]` and `v` is clamped then flipped, with the value at every out-of-range side |
| Textures.TexColor | src/Texture.h:19-71 | an image texture gives cyan when it has no data; otherwise every channel lies in `[0,1]` |
| Textures.SolidIsConstant | src/Texture.h:19-21 | a solid texture ignores its inputs |
| Materials.MakeMetal | src/Material.h:39 | the fuzz is capped at 1 from above, and only from above |
| Materials.Reflect | src/Material.h:59-61 | the reflection points to the same side as `v` of every plane containing `n`; for a unit `n` it is undefined only for a zero `v`, and it points along `n` exactly when `v` points against it |
| Materials.MirrorKeepsPlane | src/Material.h:59-61 | mirroring keeps every component orthogonal to `n` |
| Materials.MirrorUnit | src/Material.h:59-61 | for a unit `n`, mirroring flips the component along `n`, keeps the length, and maps only zero to zero |
| Materials.Scatter | src/Material.h:10-61 | the base material absorbs; diffuse always scatters from `p`, along the normal when `normal + unit` is near zero and otherwise in its direction; metal scatters exactly when the fuzzed reflection `reflect(v, n) + fuzz * unit` points outwards, and then along that direction normalized; attenuation is the albedo |
| Objects.SetNormal | src/Object.h:19-22 | `happend_outside` exactly when the ray meets the outward normal head-on; the stored normal faces against the ray; nothing else changes |
| Objects.ClosestUnique | src/Object.h:30-31 | two answers to the closest-hit query over the same objects in an open window agree on the hit and its distance |
| Objects.TranslateRay | src/Object.h:46 | the inner ray keeps direction and time, and its origin plus the offset is the world origin |
| Objects.TranslateHit | src/Object.h:47-52 | a miss is passed on unchanged; a hit moves only the point, by `+offset` |
| Objects.TranslateAt | src/Object.h:44-52 | the inner hit point moved back is the world point at the same distance |
| Objects.ToObject | src/Object.h:103-113 | the world-to-object rotation keeps y |
| Objects.ToWorld | src/Object.h:119-129 | the object-to-world rotation keeps y |
| Objects.RotateInverse | src/Object.h:101-129 | with `cos^2 + sin^2 = 1` the two rotations undo each other |
| Objects.RotateRay | src/Object.h:103-115 | the inner ray keeps the y components and the time |
| Objects.RotateHit | src/Object.h:116-131 | a miss is passed on unchanged; a hit rotates the point and the normal back to world space |
| Objects.RotateAt | src/Object.h:101-131 | rotating commutes with walking along the ray, so the inner hit rotated back is the world point at that distance |
| Objects.PickFactorForm | src/Object.h:81-83 | `i * hi + (1 - i) * lo` picks the low end for 0 and the high end for 1 |
| Objects.CornerAt | src/Object.h:78-83 | loop position `(i, j, k)` visits corner `(i, j, k)` in the intended loop |
| Objects.AsWrittenCornerAt | src/Object.h:78-83 | as written, loop position `(i, j, k)` visits corner `(i, i, i)` |
| Objects.MinOver | src/Object.h:91 | the `fmin` fold is finite once a point has been folded |
| Objects.MaxOver | src/Object.h:92 | the `fmax` fold is finite once a point has been folded |
| Objects.FoldBounds | src/Object.h:90-93 | the folds bound every folded point from below and above |
| Objects.Accumulate | src/Object.h:90-93 | the `dim` loop folds one more point into `min` and `max` |
| Objects.FoldedBox | src/Object.h:98 | `AABB(min, max)` after the loop is the box of the folded extremes |
| Objects.RotatedBoxAsWritten | src/Object.h:71-98 | the constructor's loop as written computes the box of the two visited corners |
| Objects.RotatedBox | src/Object.h:71-98 | the corrected loop computes the box of all eight rotated corners |
| Objects.RotatedInFolds | src/Object.h:78-98 | every point of the inner box, rotated, lies between the folds of the eight rotated corners |
| Objects.RotatedBoxContains | src/Object.h:65-98 | the corrected box holds every point of the inner box, rotated, for any angle |
| Objects.AsWrittenMisses | src/Object.h:81-83 | the as-written box misses every rotated point lying lower in z than both visited corners by more than the padding |
| Objects.AsWrittenBoxMissesPoint | src/Object.h:78-98 | for a 53-degree turn of the unit cube, the as-written box misses the rotated corner `(1, 0, 0)` |
| Shapes.CubeBox | src/Sphere.h:12-13 | the box around `center +- (r, r, r)` holds every point of that cube |
| Shapes.MakeSphere | src/Sphere.h:9-14 | the radius is stored as `fmax(0, radius)`; the centre does not move; the box is built from the radius as given |
| Shapes.MovingSphere | src/Sphere.h:17-25 | the centre is `center1` at time 0 and `center2` at time 1; the box holds the boxes around both |
| Shapes.SphereRoots | src/Sphere.h:28-42 | there are no roots exactly when the discriminant is negative or the direction is zero; otherwise they are `(h -+ sqrt(disc)) / a` |
| Shapes.SphereRootsOnSphere | src/Sphere.h:28-42 | with an exact square root both roots reach points at distance `radius` from the centre at the ray's time |
| Shapes.RootOnSphere | src/Sphere.h:28-42 | a root `(h -+ sqrtd) / a` with `sqrtd^2 = h^2 - a c` reaches a point of the sphere |
| Shapes.RootSolves | src/Sphere.h:35-42 | `(h -+ s) / a` solves `a t^2 - 2 h t + c = 0` when `s^2 = h^2 - a c` |
| Shapes.RootOrder | src/Sphere.h:39-42 | with a non-negative square root, the first root is the nearer |
| Shapes.ChooseRoot | src/Sphere.h:40-46 | the chosen root is a root surrounded by the window; there is none exactly when the window surrounds neither; it is the nearest surrounded root |
| Shapes.ChooseRootShrinks | src/Sphere.h:40-46 | lowering the far end keeps the chosen root when it stays surrounded, and never invents a new one |
| Shapes.SphereDistance | src/Sphere.h:27-46 | a distance the sphere settles on lies strictly inside the window |
| Shapes.SphereHit | src/Sphere.h:27-56 | a hit is exactly a chosen root: the record's point lies on the ray at that distance, with the sphere's material and a normal against the ray; texture coordinates lie in `[0,1]`; a miss leaves the record alone |
| Shapes.SphereOnSurface | src/Sphere.h:27-53 | a sphere hit reports a point at distance `radius` from the centre at the ray's time |
| Shapes.SphereHitInCube | src/Sphere.h:9-14 | a sphere hit whose stored radius squares to at most `radius^2` lies strictly inside the box built around the centre |
| Shapes.SphereSlab | src/Sphere.h:9-14 | the slab test of that box passes for every sphere hit in an open window |
| Shapes.StaticSphereBounded | src/Sphere.h:9-14 | the box of a static sphere bounds its hits: every hit in an open window passes the slab test of the box |
| Shapes.SphereNearest | src/Sphere.h:39-46 | a sphere hit is never beyond the far root, and is the near root whenever the window surrounds it |
| Shapes.SphereRecord | src/Sphere.h:48-53 | the record holds the distance, the point on the ray, the material and a normal against the ray; texture coordinates lie in `[0,1]` |
| Shapes.TexU | src/Sphere.h:78 | the intended `u = phi / (2 pi)` lies in `[0,1]` for `phi` in `[0, 2 pi]` |
| Shapes.TexV | src/Sphere.h:79 | `v = theta / pi` lies in `[0,1]` for `theta` in `[0, pi]` |
| Shapes.TexUAsWrittenOutOfRange | src/Sphere.h:70-78 | for the point `(1, 0, 0)` the code as written gives `u > 1`, where the comment promises `0.5` |
| Shapes.SphereTexRange | src/Sphere.h:75-79 | with angles in the ranges of `acos` and `atan2 + pi`, both texture coordinates lie in `[0,1]` |
| Shapes.SphereCalls | src/Sphere.h:27-56 | the sphere keeps the object contract on every call |
| Shapes.PlaneW | src/Quad.h:14 | `w = n / (n . n)` satisfies `(n . n) w = n` |
| Shapes.MakeQuad | src/Quad.h:8-17 | the normal is undefined exactly for parallel edges, otherwise has the orientation of `u x v`; `D = Q . normal`; the box holds all four corners |
| Shapes.SetQuadBox | src/Quad.h:43-48 | the union of the two diagonal boxes holds all four corners |
| Shapes.InsideQuad | src/Quad.h:61-67 | both planar coordinates lie in the closed unit interval, as an if-and-only-if |
| Shapes.QuadT | src/Quad.h:21-25 | no parameter exactly when the ray is (nearly) parallel to the plane; otherwise the parameter solves the plane equation |
| Shapes.QuadDistance | src/Quad.h:19-31 | the quad's distance lies in the window (inclusive), solves the plane equation, and has both planar coordinates in `[0,1]` |
| Shapes.QuadHit | src/Quad.h:19-41 | a hit is exactly the quad's distance, with the point on the ray, the material, the planar coordinates as texture coordinates and a normal against the ray; a miss leaves the record alone |
| Shapes.QuadOnPlane | src/Quad.h:25-33 | a hit point lies on the quad's plane `P . normal = D` |
| Shapes.QuadCoordinates | src/Quad.h:26-29 | `alpha` and `beta` recover `a` and `b` of the plane point `Q + a u + b v` |
| Shapes.QuadCalls | src/Quad.h:19-41 | the quad keeps the object contract on every call |
| Shapes.MakeMedium | src/ConstantMedium.h:10-18 | the medium stores `-1 / density` (negative for a positive density) and the phase function; its box is the boundary's |
| Shapes.MediumHit | src/ConstantMedium.h:30-52 | a hit lies between the clamped entry and exit, at the entry (raised to 0) plus the scatter distance; the record gets the point on the ray, normal `(1,0,0)`, outside and the phase function; no hit unless entry < exit; a miss leaves the record alone |
| Shapes.MediumFrom | src/ConstantMedium.h:20-53 | a miss of either boundary query is a miss of the medium |
| Shapes.MediumCalls | src/ConstantMedium.h:20-53 | with a non-negative scatter distance the medium keeps the object contract |
| Shapes.MediumLeafAsWritten | src/BVH.h:21-22 | a BVH leaf of span 1 asks its medium twice, each call with its own draw; a miss leaves the record alone |
| Shapes.MediumLeafTwoDraws | src/ConstantMedium.h:40 | entering at 0 and leaving at 10, draws of 5 then 1 make the leaf report 1.001 where one call reports 5.001 |
| Shapes.MediumLeafOneDraw | src/BVH.h:39-47 | with one draw per ray, asking the medium twice gives exactly the answer of asking it once |
| Shapes.ScatterDistance | src/ConstantMedium.h:40 | `neg_inv_density * log(sample)` is not negative |
| Shapes.MediumShapeCalls | src/ConstantMedium.h:24-28 | the boundary queries ignore the caller's window and record, so the medium keeps the contract |
| Shapes.ShapeHit | src/ConstantMedium.h:20-28 | a miss leaves the record alone; a medium hit needs the boundary hit in the universe and again from 1e-4 past the first hit, each asked with a fresh record |
| Shapes.MakeTranslate | src/Object.h:38-42 | the translated box holds exactly the shifted points of the inner box |
| Shapes.MakeRotateY | src/Object.h:65-99 | the rotated object's box, built by the corrected loop, holds every point of the inner box rotated |
| Shapes.TranslateCalls | src/Object.h:44-53 | a translation keeps the contract its inner object keeps |
| Shapes.RotateCalls | src/Object.h:101-132 | a rotation keeps the contract its inner object keeps |
| Shapes.ShapesBehaved | src/Object.h:30-31 | every well-formed shape keeps the object contract |
| Shapes.HitOnRay | src/Object.h:101-131 | a hit of any well-formed shape lies on the world ray at the reported distance, through any nesting of wrappers |
| Bvhs.Spread | src/BVH.h:21-36 | the constructor's leaves are at least as many as the objects of the range |
| Bvhs.SpreadSplit | src/BVH.h:33-35 | a range of three or more spreads as its two halves, split at `span / 2` |
| Bvhs.SpreadMembers | src/BVH.h:21-36 | the leaves are exactly the objects of the range |
| Bvhs.FoldBoxCovers | src/BVH.h:15-17 | the folded node box holds the box of every object of the range |
| Bvhs.NodeBox | src/BVH.h:15-17 | the loop computes the fold of `AABB(aabb, obj->get_AABB())` from `AABB::empty` |
| Bvhs.SwapNeighbours | src/BVH.h:31 | an exchange of neighbours keeps the range's multiset and everything outside it |
| Bvhs.InsertStep | src/BVH.h:31 | one insertion step extends the sorted prefix by one, permuting only inside the range |
| Bvhs.SortRange | src/BVH.h:27-31 | the range ends up sorted by centroid on the axis and is a permutation of itself; nothing outside it moves |
| Bvhs.NodeCovers | src/BVH.h:15-17 | a node box folded before the sort covers every leaf after it |
| Bvhs.SplitBuild | src/BVH.h:31-35 | sort, left build and right build together permute only the range, and the right build leaves the left half alone |
| Bvhs.NodeLeaves | src/BVH.h:33-35 | a node's leaves are the spread of the range as the two builds left it |
| Bvhs.Build | src/BVH.h:13-37 | the constructor permutes only its range; the node box is the fold over the range; the leaves are the spread of the final range; every node covers its leaves |
| Bvhs.BuildSplit | src/BVH.h:26-36 | the same for a range of three or more; in addition every object of the first half has a key on the range's longest axis at most that of every object of the second half |
| Bvhs.HalvesKeepSplit | src/BVH.h:31-35 | permuting each half of a sorted range within itself keeps the halves split by key |
| Bvhs.Traverse | src/BVH.h:39-47 | a node whose box the ray misses reports no hit and leaves the record |
| Bvhs.ShrinkTo | src/BVH.h:44 | shrinking the window to the left hit keeps exactly the nearer hits |
| Bvhs.PrimClosest | src/BVH.h:43 | a single object's answer is the closest hit over itself, and a miss leaves the record |
| Bvhs.PrunedMisses | src/BVH.h:40 | a node whose box is missed has no object hit in an open window |
| Bvhs.CombineClosest | src/BVH.h:43-46 | the left answer and the right answer in the shrunk window make the closest hit over both children |
| Bvhs.TraverseClosest | src/BVH.h:39-47 | the traversal answers the closest-hit query over the tree's leaves and leaves the record alone on a miss |
| ObjectLists.StepCall | src/ObjectList.h:30 | the call with the scratch record agrees with a call with a fresh record, and a miss leaves the scratch record |
| ObjectLists.StepWindow | src/ObjectList.h:30 | asking in `[t_min, closest]` keeps exactly the hits nearer than `closest` |
| ObjectLists.ScanStepOk | src/ObjectList.h:29-35 | one turn of the loop keeps the scan invariant |
| ObjectLists.ScanClosest | src/ObjectList.h:24-38 | the scan reports a hit exactly when some object is hit; the record is the nearest hit; a miss leaves the caller's record |
| ObjectLists.ObjectList.Empty | src/ObjectList.h:17 | the default list is empty |
| ObjectLists.ObjectList.Single | src/ObjectList.h:18 | the one-object list holds exactly that object |
| ObjectLists.ObjectList.Clear | src/ObjectList.h:20 | the list is emptied |
| ObjectLists.ObjectList.Add | src/ObjectList.h:22 | the object is appended at the back |
| ObjectLists.ObjectList.Intersect | src/ObjectList.h:24-38 | the loop returns the scan's `happened` and the caller's record as the scan leaves it |
| Scenes.ImageHeight | src/Scene.h:33-34 | the height is at least 1, and it is the whole part of `image_w / aspect_ratio` when that is at least 1 |
| Scenes.BvhMatchesList | src/Scene.h:97-99 | the BVH over any arrangement of the objects answers like the list scan: same hit, same distance, the record untouched on a miss |
| Scenes.RearrangedWithin | src/Scene.h:93-95 | rearranging the objects keeps them inside the scene box |
| Scenes.BuildOver | src/BVH.h:11 | the whole-vector constructor permutes the vector and builds a covering tree whose leaves spread it |
| Scenes.Scene.constructor | src/Scene.h:28-29 | the settings are the given ones, with no objects, no BVH and the empty box |
| Scenes.Scene.Default | src/Scene.h:14-27 | width 100, aspect ratio 1, a black background, no objects |
| Scenes.Scene.Clear | src/Scene.h:84 | the objects are dropped, while the box and the BVH stay |
| Scenes.Scene.GetAABB | src/Scene.h:86 | the scene box holds every object's box |
| Scenes.Scene.Add | src/Scene.h:88-91 | the object goes to the back and the box grows to the union, which keeps every box inside |
| Scenes.Scene.BuildBvh | src/Scene.h:93-95 | the objects are permuted; the BVH's box is the fold of their boxes; it covers its leaves, which spread the new order |
| Scenes.Scene.Intersect | src/Scene.h:97-99 | the scene answers with the BVH traversal, which misses when the root box is missed |
| Scenes.Scene.InitializeCamera | src/Scene.h:31-34 | the image height is set from the width and the aspect ratio, at least 1 |
| Noise.PermutationValues | src/Perlin.h:34-39 | a permutation of `0..n-1` holds exactly the values below `n` |
| Noise.Swap | src/Perlin.h:46-49 | the two entries are exchanged and every other entry is kept |
| Noise.SwapPermutes | src/Perlin.h:46-49 | an exchange is a permutation |
| Noise.ShuffledPermutes | src/Perlin.h:42-50 | the shuffle is a permutation of its start |
| Noise.ShuffledKeepsAbove | src/Perlin.h:44-45 | steps at `i` and below never touch a position above `i` |
| Noise.Permute | src/Perlin.h:42-50 | the array ends up as the Fisher–Yates shuffle of its start, and a permutation of it |
| Noise.GeneratePerm | src/Perlin.h:34-39 | the array ends up as the shuffled identity, a permutation of `0..255` |
| Noise.Mask | src/Perlin.h:19-21 | `& 255` gives an index in `[0, 256)` congruent to its operand modulo 256 |
| Noise.Xor3 | src/Perlin.h:24 | the XOR of three indices below 256 stays below 256 |
| Noise.Perlin.constructor | src/Perlin.h:6-14 | the table holds the samples, and each permutation table is the shuffled identity, a permutation of `0..255` |
| Noise.Perlin.NoiseIndex | src/Perlin.h:19-24 | the lookup index lies in the table |
| Noise.Perlin.Noise | src/Perlin.h:16-25 | the noise is one of the stored samples, so it lies in `[0,1)` when they do |
| Render.Background | src/Renderer.h:76-78 | blue is 1 for every ray; red and green lie between white and light blue when the blend is in `[0,1]`; a horizontal ray sees the midpoint |
| Render.RouletteUnbiased | src/Renderer.h:82-88 | survival weighted by its probability gives back `attenuation * L`: the roulette is unbiased |
| Render.GetColor | src/Renderer.h:71-92 | a miss sees the background; a roulette draw above 0.8 or a non-scattering material gives black; a surviving scattered path has the colour `attenuation * L / 0.8`, with `L` the colour of the scattered ray from the remaining draws |
| Render.GetColorExtends | src/Renderer.h:71-92 | more draws than a path uses do not change its colour |
| Render.Renderer.constructor | src/Renderer.h:9-13 | aspect ratio 1, width 100, 10 samples per pixel, nothing initialized |
| Render.Renderer.Initialize | src/Renderer.h:49-56 | the image height is as in the scene, the eye at the origin, and a viewport 2 high whose sides keep the image's proportion |

## Left out

- Floating point: doubles are real numbers, with no rounding. NaN appears only where the model
  makes it explicit: `None` vectors, the zero normal of a zero-radius sphere, and the missing
  roots of a zero direction.
- IntersectP: requires every direction component to be non-zero. The source then divides by zero
  and relies on IEEE infinities and NaN comparisons. `Traverse`, `TraverseClosest`,
  `Scene.Intersect` and `BvhMatchesList` carry the same requirement.
- BvhMatchesList: stated for open windows only. In a window with `min >= max` the slab test
  prunes everything, while an object may still report a hit at the single point of a closed
  window.
- Build: requires a non-empty range, because the source recurses without end on
  `start == end`. It also requires finite object boxes, because the centroid of an infinite box
  is not a number.
- SortRange: `std::sort` leaves the order of objects with equal keys unspecified. The model sorts
  by insertion, which keeps ties in order. `BvhMatchesList` holds for every arrangement.
- TraverseClosest: takes as a hypothesis that each object's box bounds its hits. This is proved
  for static spheres (`StaticSphereBounded`). It is not proved for quads, moving spheres, media
  or the wrappers, and the `RotateY` box as written (see Findings) breaks it. For the quad the
  bound rests on writing a plane point as `Q + a u + b v` from `alpha` and `beta`, an identity
  of degree five in the coordinates that the solver does not settle reliably.
- MakeRotateY: takes `cos_theta` and `sin_theta` as inputs instead of computing `std::cos` and
  `std::sin` of `degrees_to_radians(angle)`. It requires a finite inner box, and it uses the
  corrected corner loop.
- MakeMedium: requires a non-zero density; the source stores `-1/0 = -infinity`.
- Vector3d.DivAssign: requires `t != 0`; the source multiplies by `1/0 = infinity`.
- MakeChecker: requires a non-zero scale; the source stores `1/0 = infinity`.
- ImageHeight, Scene.InitializeCamera, Renderer.Initialize: require a non-zero aspect ratio; the
  source converts the infinite or NaN quotient to `int`, which is undefined behaviour.
- Background, GetColor: require a non-zero viewport height; the source divides by zero and
  blends with an infinite or NaN weight.
- CheckerParity: the cell indices `int(std::floor(...))` and their sum are unbounded integers.
  In the source they are 32-bit `int`s, undefined outside that range.
- ScatterDistance: `log(0) = -infinity` is not modelled. The draw is a real `<= 0`, one per ray.
- MediumShapeCalls, ShapesBehaved, ScatterDistance: ConstantMedium.h:40 draws a new scatter
  distance on every call, while the model draws once per ray. A medium alone in a BVH leaf of
  span 1 (BVH.h:21-22) is asked twice, so the source can report the nearer of two independent
  draws where the list asks once (see Findings). Under one draw per ray the medium keeps the
  object contract, and `BvhMatchesList` holds for scenes with media; under one draw per call
  neither holds.
- Offset, MakeTranslate: Object.h:41 adds a vector to a box, but AABB.h defines no
  `AABB + Vector3d`; only `Interval + double` exists (Interval.h:35-41). The model shifts each
  axis by the matching offset component with `Interval + double`, and does not pad the shifted
  box again.
- Env: `std::sqrt`, `std::acos`, `std::atan2` and `std::log` are supplied functions. Only the
  ranges of their values are assumed, and for the square root that it squares back exactly
  (`EnvOk`), which rounding does not give.
- SphereRecord: computes the texture coordinates with the corrected `u` formula (see Findings).
- ObjectList.Intersect: ObjectList.h declares `intersect(r, t_min, t_max, isect)` with two
  doubles, while `Object::intersect` takes an `Interval`. The model uses the `Interval` form, each
  object asked in `[t_min, closest]`.
- Scene.h reuses the include guard `OBJECT_LIST_H` of ObjectList.h, so the two headers exclude
  each other. This has no effect on behaviour and is not modelled.
- InitializeCamera: only the image height is modelled. The field of view, the camera frame, the
  pixel deltas and the defocus disk are trigonometry and are not modelled. The same goes for
  `cast_ray` and `sample_in_defocus_disk`, which also need random draws.
- Scene.constructor: `image_h` has no initializer in Scene.h, so the model leaves `imageH`
  unconstrained until `InitializeCamera`.
- Scene.Intersect: requires the BVH to have been built. The source dereferences an empty
  `shared_ptr` otherwise.
- GetColor: the source recursion ends only with probability 1, whereas the model's path is
  bounded by the supplied draws. It returns `None` when they run out. `GetColorExtends` shows
  that extra draws do not change a completed path.
- Renderer: `render` (the pixel loop, file output and progress), `get_ray` (random draws and
  `normalize`) and `write_color` of color.h are not part of this model.
- Noise.Mask: C++ `int(4 * p.x())` has undefined behaviour outside the 32-bit range. The model
  truncates mathematically.
- The random draws (`sample_double`, `sample_int`, `sample_unit_vector`, `Vector3d::sample`) are
  inputs. global.h's `random_double` divides `std::rand()` by `RAND_MAX + 1` in integer
  arithmetic, which is 0 for every draw; it is not modelled.
- Materials: the `Isotropic` material's class is not part of this model, so its scatter rule is
  a parameter. Diffuse's `sample_unit_vector()` is the draw `unit`.
- Image.h is not part of this model. An image texture is a width, a height and a pixel lookup.
- The `operator<<` output of Vector3d.h, the default `Ray()` constructor (uninitialized
  fields), the older duplicate vec3d.h and the scene set-up in main.cc are not modelled.

## Findings

| source | as written | input that shows it | evidently intended | confidence | as-written member | corrected member |
|---|---|---|---|---|---|---|
| src/Object.h:81-83 | the corner loop of the `RotateY` constructor derives x, y and z all from `i`, so only the corners `(min, min, min)` and `(max, max, max)` are rotated (`RotatedBoxAsWritten`) | unit cube with `cos = 0.6`, `sin = 0.8`: corner `(1, 0, 0)` rotates to `(0.6, 0, -0.8)`, but the box spans z only in about `[-0.2, 0]` | y from `j` and z from `k`, visiting all eight corners (`RotatedBox`) | high; not executed | Objects.AsWrittenBoxMissesPoint | Objects.RotatedBoxContains |
| src/Sphere.h:78 | `u = phi / 2*pi` is `(phi / 2) * pi` in C++ | point `(1, 0, 0)`: `phi = pi`, so `u = pi^2 / 2 > 1` where the comment at line 70 promises `0.5` | `u = phi / (2 * pi)`, in `[0, 1]` | high; not executed | Shapes.TexUAsWrittenOutOfRange | Shapes.TexU |
| src/ConstantMedium.h:40 | every call of `ConstantMedium::intersect` draws a new scatter distance, and a BVH leaf of span 1 holds the same object left and right (BVH.h:21-22), so it asks the medium twice and reports the nearer of two draws (`MediumLeafAsWritten`) | a medium entered at 0 and left at 10 along the x axis, window `[0.001, inf)`, draws 5 then 1: the leaf reports 1.001, one call reports 5.001 | one scatter distance per ray, so a leaf answers as a single call does (`MediumLeafOneDraw`) | medium; not executed | Shapes.MediumLeafTwoDraws | Shapes.MediumLeafOneDraw |
