# LightCycle rasteriser core, in Dafny

This project models the geometric core of LightCycle, a small CPU software renderer, and proves properties of that model:

- **Integer rasteriser** (`src/plane/mod.rs`):
  - `draw_line` picks one of its cases: vertical, horizontal, diagonal, or Bresenham driven along x or along y;
  - each case writes one colour into a row-major pixel buffer;
  - `draw_rect` fills a rectangle row by row;
  - the two segment-intersection routines and `rect_to_vertices` / `rect_to_edges` are here too.
- **Polygon geometry** (`src/plane/polygon.rs`):
  - the cyclic `EdgeIterator`;
  - `square`;
  - Sutherland–Hodgman clipping: four half-plane passes, Left, Top, Right, Bottom, chained with `?`;
  - `min_y` and `max_y`;
  - `intersection_line` and `line_rect_intersection`.
- **Mesh** (`src/volume/polyhedron.rs`):
  - `map`, `Index` and `IndexMut`;
  - `from_iter`, which builds an indexed triangle mesh with linear-search vertex deduplication;
  - the built-in primitives.
- **Camera** (`src/camera.rs`): a class whose mutators mark a cached view-projection matrix stale, and `fresh_mat`, which recomputes the cache only when it is stale.

Modules, one per file:

| module | file | contents |
|---|---|---|
| `Geometry` | `geometry.dfy` | points, lines, `Either`, cross products, and `relative_eq!(x, 0.0)` as `NearZero` |
| `Plane` | `plane.dfy` | the intersection routines, `rect_to_*` |
| `Raster` | `raster.dfy` | the `Buffer` class and the drawing methods, each proved against a pixel-sequence function |
| `RasterProps` | `raster_props.dfy` | what those pixel sequences are: length, endpoints, connectivity, distinctness, bounds |
| `Polygons` | `polygon.dfy` | the edge iterator, clipping, `min_y`/`max_y`, the intersection walks |
| `Polyhedra` | `polyhedron.dfy` | the mesh, `from_iter` and the primitives |
| `Cameras` | `camera.dfy` | the camera |

Modelling choices:

- **Floats and approximate zero.**
  - `f64` and `f32` are modelled as `real`.
  - `relative_eq!(x, 0.0)` with the `approx` crate's default tolerance is modelled exactly: `|x| <= f64::EPSILON = 2^-52`.
- **Integers.** `isize` coordinates are modelled as `int`. The `as u16` cast of face indices is modelled as the index modulo 65536.
- **Panics.**
  - A drawing routine panics when an index or slice is out of range. Its `requires` rules that out.
  - `clip` has a `Fault` outcome for the `unwrap` that can panic.
- **Library numerics.** The camera's calls into nalgebra are not modelled by their numerics:
  - normalisation, rotation by a quaternion and `rotation_between` are functions in a `LinAlg` value the camera is built with;
  - matrices are terms recording how they were built.
- **The pixel buffer.** `Buffer` is not part of this model's sources. It is a class with `width`, `height` and a `data` array of `width * height` colours.

Where a common description of the Bresenham example disagrees with the code, the model follows the code:

- the line (0,0)–(4,2) is often given as (0,0), (1,0), (2,1), (3,1), (4,2);
- the code's error term starts at 0 for that line, and the code steps the minor axis when the error is not negative;
- so the code draws (0,0), (1,1), (2,1), (3,2), (4,2), which `RasterProps.BresenhamExample` proves.

## Model

| member | source | states |
|---|---|---|
| Plane.LineIntersection | src/plane/mod.rs:8-34 | returns only a point, never the segment variant; returns nothing when the cross product of the two directions is within 2^-52 of zero |
| Plane.LineIntersectionSound | src/plane/mod.rs:16-27 | a returned point lies on both segments: it is `a[0] + t·(a[1]-a[0])` with `0 ≤ t ≤ 1`, and it is reached on `b` with `0 ≤ u ≤ 1` |
| Plane.LineIntersectionComplete | src/plane/mod.rs:16-29 | two segments that are not nearly parallel and meet at parameters `t`, `u` in [0, 1] yield exactly that meeting point |
| Plane.InfLineIntersection | src/plane/mod.rs:36-59 | returns only a point; returns nothing when the directions are nearly parallel |
| Plane.InfLineIntersectionSound | src/plane/mod.rs:44-53 | a returned point lies on the segment `a` and on the infinite line through `inf` |
| Plane.InfLineIntersectionComplete | src/plane/mod.rs:44-54 | a point of the segment that lies on the infinite line is found, unless the two are nearly parallel |
| Plane.RectToVertices | src/plane/mod.rs:214-221 | four corners: the given two at positions 0 and 2, the mixed corners `(x1, y0)` at 1 and `(x0, y1)` at 3; every coordinate is one of the given ones |
| Plane.RectToEdges | src/plane/mod.rs:223-231 | four edges starting at the four corners in order; each edge ends where the next begins and the last ends at the first corner |
| Plane.RectEdgesAxisAligned | src/plane/mod.rs:223-231 | every edge of a rectangle is horizontal or vertical |
| Raster.Classify | src/plane/mod.rs:94-108 | the case of a line, each as an if-and-only-if on `(dx, dy)`: vertical iff `dx = 0 ≠ dy`; horizontal iff `dy = 0`, which includes the single point; diagonal iff `0 ≠ |dx| = |dy|`; Bresenham on x iff `|dx| > |dy| > 0`; Bresenham on y iff `|dy| > |dx| > 0` |
| Raster.DrawLine | src/plane/mod.rs:94-108 | the buffer afterwards is the old one with `c` written at each pixel of the chosen case's pixel sequence, in order, and nothing else written |
| Raster.DrawLineVert | src/plane/mod.rs:110-119 | writes the column `a.x` from the lower to the higher of `a.y` and `yb`, whatever their order |
| Raster.DrawLineHori | src/plane/mod.rs:121-130 | writes the row `a.y` from the smaller to the larger of `a.x` and `xb`, whatever their order |
| Raster.DrawLineDiag | src/plane/mod.rs:132-142 | after swapping so x increases, writes one pixel per column, each one row further in the direction of `sign(dy)` |
| Raster.DrawLineBrs | src/plane/mod.rs:144-150 | draws the x-driven Bresenham pixels when `|dx| > |dy|`, the y-driven ones otherwise |
| Raster.DrawLineBrsX | src/plane/mod.rs:152-180 | after normalising to `dx > 0`, writes pixel `k` at column `x0 + k` and row `y0 + sign(dy)·j`, where `j` is the number of minor steps the error recurrence took before `k` |
| Raster.DrawLineBrsY | src/plane/mod.rs:182-212 | the same with the axes swapped: one pixel per row |
| Raster.DrawRect | src/plane/mod.rs:61-81 | exactly the cells of the inclusive rectangle are set to `c` and every other cell keeps its colour; the buffer is unchanged when `l[0].y > l[1].y` |
| Raster.BresenhamInvariant | src/plane/mod.rs:165-179 | after `k` iterations the error is `2·minor·(k+1) − major − 2·major·j`, with `j ≤ k` minor steps taken, and it stays in `[2(minor − major), 2·minor)` |
| Raster.BresenhamStep | src/plane/mod.rs:173-178 | each iteration steps the minor axis by 0 or 1 |
| Raster.MinorStepsMonotone | src/plane/mod.rs:173-178 | the minor coordinate never goes back |
| Raster.BresenhamReachesEnd | src/plane/mod.rs:165-179 | after `major` iterations exactly `minor` minor steps have been taken, so the last pixel is the far endpoint |
| Raster.MinorStepsBounded | src/plane/mod.rs:165-179 | the minor coordinate never passes the far endpoint |
| RasterProps.VertRun | src/plane/mod.rs:110-119 | a vertical line's pixels: `|dy|+1` of them, from one endpoint to the other, each adjacent to the next, none repeated, all in the bounding box, rows ascending one at a time |
| RasterProps.HoriRun | src/plane/mod.rs:121-130 | the same for a horizontal line, including a single point, with columns ascending |
| RasterProps.DiagRun | src/plane/mod.rs:132-142 | a diagonal's pixels: `|dx|+1` of them from endpoint to endpoint, columns ascending by one and rows changing by `sign(dy)` each step |
| RasterProps.BrsXLineRun | src/plane/mod.rs:152-180 | x-driven Bresenham: `|dx|+1` pixels, one per column from the smaller x, joining the endpoints, connected, distinct, in the bounding box; consecutive rows differ by 0 or `sign(dy)` |
| RasterProps.BrsYLineRun | src/plane/mod.rs:182-212 | y-driven Bresenham: the same with the axes swapped |
| RasterProps.LineRun | src/plane/mod.rs:94-108 | every line `draw_line` draws is `max(|dx|, |dy|)+1` pixels long, starts at one endpoint and ends at the other, is 8-connected, repeats no pixel, and stays in the endpoints' bounding box |
| RasterProps.LineAddressable | src/plane/mod.rs:94-108 | when both endpoints are inside the buffer, every pixel is inside and every index written is in `[0, width·height)` |
| RasterProps.LineCells | src/plane/mod.rs:94-108 | when both endpoints are inside the buffer, exactly `max(|dx|, |dy|)+1` distinct cells are set to `c` and no other cell changes |
| RasterProps.BresenhamExample | src/plane/mod.rs:152-180 | the line (0,0)–(4,2) is drawn as (0,0), (1,1), (2,1), (3,2), (4,2) |
| RasterProps.VerticalExample | src/plane/mod.rs:110-119 | the line (2,3)–(2,1) is drawn as (2,1), (2,2), (2,3) |
| RasterProps.PointExample | src/plane/mod.rs:99-102 | a line from a point to itself is drawn as that one pixel, by the horizontal case |
| Polygons.EdgeIterator.constructor | src/plane/polygon.rs:16-20 | a new iterator is at edge 0 of its polygon |
| Polygons.EdgeIterator.Next | src/plane/polygon.rs:24-36 | before the end, yields `[p_a, p_{(a+1) % n}]` and advances `a` by one; at the end, yields nothing and stays put |
| Polygons.DrainEdges | src/plane/polygon.rs:64-66 | iterating `edges()` to the end yields exactly the `n` edges in order |
| Polygons.EdgesCycle | src/plane/polygon.rs:24-36 | `n` edges, edge `i` starting at vertex `i`, each ending where the next begins, the last closing back to vertex 0 |
| Polygons.Square | src/plane/polygon.rs:70-80 | the square of half-side `r` centred on `(ox, oy)`; `Polygons.SquareCorners` states its four corners and `Polygons.SquareClipsToItself` that clipping it to its own bounds keeps it |
| Polygons.SquareCorners | src/plane/polygon.rs:70-80 | the square's points are `(-r,-r)`, `(r,-r)`, `(r,r)`, `(-r,r)` offset by `(ox, oy)`, that is the vertices of the rectangle between its lowest and highest corners |
| Polygons.ClipSide | src/plane/polygon.rs:90-210 | one pass: the polygon of the vertices each edge emits, starting with `a` as the last vertex; `Emptied` when nothing is emitted; `Fault` when an `unwrap` panics |
| Polygons.Clip | src/plane/polygon.rs:211-223 | the Left, Top, Right and Bottom passes in that order, stopping at the first that empties or panics |
| Polygons.EmitShape | src/plane/polygon.rs:97-205 | for an edge `a → b`: `b` when it is inside, preceded by the crossing when the edge enters; the crossing alone when the edge leaves; nothing when both are outside; every crossing lies on the boundary; the pass panics on an edge iff the edge straddles the boundary while nearly parallel to it |
| Polygons.CrossingOnBoundary | src/plane/polygon.rs:100-123 | a crossing lies on the boundary of its side and on the edge |
| Polygons.CrossingFound | src/plane/polygon.rs:100-123 | an edge that straddles the boundary and is not nearly parallel to it always has its crossing: the `unwrap` does not panic and the segment arm is unreachable |
| Polygons.PassFault | src/plane/polygon.rs:97-205 | a pass panics iff one of its edges does |
| Polygons.SideResultProps | src/plane/polygon.rs:90-210 | a kept polygon has between 1 and `2n` vertices, all inside the pass's half-plane; a polygon entirely inside is returned unchanged; one entirely outside is emptied |
| Polygons.SideResultKeeps | src/plane/polygon.rs:90-210 | a pass keeps every half-plane its input was inside, so later passes keep what earlier passes established |
| Polygons.ClipContained | src/plane/polygon.rs:211-223 | every vertex of a clipped polygon lies within `bound[0] ≤ p ≤ bound[1]` |
| Polygons.ClipInsideUnchanged | src/plane/polygon.rs:211-223 | a polygon already within the bound is returned unchanged |
| Polygons.ClipLeftOfBound | src/plane/polygon.rs:211-223 | a polygon entirely left of the bound is clipped away |
| Polygons.SquareClipsToItself | src/plane/polygon.rs:70-80 | a square clipped to its own corners is unchanged |
| Polygons.ClipFaultExample | src/plane/polygon.rs:100-123 | the triangle (−2^-52, 0.5), (0, 0.5), (0.5, 0.9) clipped to the unit square panics in the Left pass |
| Polygons.MinY | src/plane/polygon.rs:226-234 | the result is at most every vertex's y and equal to some vertex's y |
| Polygons.MaxY | src/plane/polygon.rs:236-244 | the result is at least every vertex's y and equal to some vertex's y |
| Polygons.IntersectionLine | src/plane/polygon.rs:246-258 | the intersections of the line with each edge that meets it, in edge order |
| Polygons.HitsProps | src/plane/polygon.rs:250-257 | at most one hit per edge; every hit is a point on the line and on some edge; every edge that meets the line contributes its hit |
| Polygons.IntersectionLineProps | src/plane/polygon.rs:246-258 | at most `n` results, each on the line and on an edge of the polygon, and no edge that meets the line is missed |
| Polygons.RectSidesAreEdges | src/plane/polygon.rs:321-323 | the four sides tested are the edges of `rect_to_edges`, two of them reversed |
| Polygons.LineRectIntersection | src/plane/polygon.rs:317-332 | the intersections of the line with each of the four sides that meets it, in the order of the sides |
| Polygons.LineRectIntersectionProps | src/plane/polygon.rs:317-332 | at most four results, each on the line and on a side, and no side that meets the line is missed |
| Polyhedra.Map | src/volume/polyhedron.rs:13-18 | as many points as before |
| Polyhedra.MapProps | src/volume/polyhedron.rs:13-18 | faces kept identical; point `i` becomes `f(points[i])`; well-formedness preserved both ways; mapping twice is mapping by the composition |
| Polyhedra.Index | src/volume/polyhedron.rs:55-60 | `poly[i]` is point `i`; what a write through `IndexMut` does to it is stated by `Polyhedra.SetPointProps` |
| Polyhedra.SetPoint | src/volume/polyhedron.rs:62-66 | the mesh after `poly[i] = v`; `Polyhedra.SetPointProps` states that only point `i` changes |
| Polyhedra.SetPointProps | src/volume/polyhedron.rs:55-66 | writing through `IndexMut` at `i` changes only point `i`: every other `Index` is unchanged, faces are unchanged, well-formedness is kept |
| Polyhedra.FindOrPush | src/volume/polyhedron.rs:74-82 | returns the position of the first equal point, pushing the point first when there is none |
| Polyhedra.FromTriangles | src/volume/polyhedron.rs:68-92 | the points are the distinct corners in order of first occurrence, and there is one face per triangle, each recording its corners' positions |
| Polyhedra.FirstsProps | src/volume/polyhedron.rs:75-80 | no point is stored twice, every corner is stored, nothing else is, and there are at most three points per triangle |
| Polyhedra.FirstsPrefix | src/volume/polyhedron.rs:75-80 | the points found for a prefix of the corners are a prefix of the points: a point is never moved once stored |
| Polyhedra.FirstsOrder | src/volume/polyhedron.rs:75-80 | of two stored points, the earlier one occurs first among the corners |
| Polyhedra.FromTrianglesRoundTrip | src/volume/polyhedron.rs:68-92 | with at most 65536 points, every face index is in range and `points[faces[k][j]] == tris[k][j]` |
| Polyhedra.IndexWraps | src/volume/polyhedron.rs:84-86 | on points without duplicates, a face index cast `as u16` always names some point, and names the corner's own point if and only if that point's position is below 65536; past it the index wraps onto a different point |
| Polyhedra.FromTrianglesWraps | src/volume/polyhedron.rs:68-92 | for the mesh `from_iter` builds, corner `j` of face `k` names the point at corner `j` of triangle `k` if and only if that point is among the first 65536 distinct points |
| Polyhedra.CubeProper | src/volume/polyhedron.rs:95-130 | the cube has 8 distinct points and 12 faces, each naming three different points in range |
| Polyhedra.OctohedronProper | src/volume/polyhedron.rs:132-158 | the octahedron has 6 distinct points and 8 faces, each naming three different points in range |
| Polyhedra.TrianglesProper | src/volume/polyhedron.rs:160-184 | `triangle` and `ramp_tri` have 3 distinct points and 1 face in range |
| Polyhedra.QuadsProper | src/volume/polyhedron.rs:167-196 | `quad` and `ramp_quad` have 4 distinct points and 2 faces in range |
| Polyhedra.Cube | src/volume/polyhedron.rs:95-130 | the cube's 8 points and 12 faces as listed; `Polyhedra.CubeProper` states their count and that the mesh is proper |
| Polyhedra.Octohedron | src/volume/polyhedron.rs:132-158 | the octahedron's 6 points and 8 faces as listed; `Polyhedra.OctohedronProper` states their count and that the mesh is proper |
| Polyhedra.Triangle | src/volume/polyhedron.rs:160-165 | one triangle in the plane y = -0.5; `Polyhedra.TrianglesProper` states it is proper |
| Polyhedra.Quad | src/volume/polyhedron.rs:167-177 | a square of two triangles in the plane y = -0.5; `Polyhedra.QuadsProper` states it is proper |
| Polyhedra.RampTri | src/volume/polyhedron.rs:179-184 | one sloping triangle; `Polyhedra.TrianglesProper` states it is proper |
| Polyhedra.RampQuad | src/volume/polyhedron.rs:186-196 | a sloping square of two triangles; `Polyhedra.QuadsProper` states it is proper |
| Cameras.Camera.constructor | src/camera.rs:15-24 | stale, identity cache, forward `(0,0,1)`, up `(0,1,0)`, position and perspective as given; the caching invariant holds |
| Cameras.Camera.FreshMat | src/camera.rs:26-34 | afterwards the flag is clear; a stale cache is recomputed as `persp · face_towards(pos, pos + forward, up)`; a fresh cache is returned unchanged; nothing but the cache and the flag changes; on a coherent camera the result is the matrix of the current view |
| Cameras.Camera.Right | src/camera.rs:36-38 | the right-hand direction is perpendicular to both `up` and `forward` |
| Cameras.DefaultRight | src/camera.rs:36-38 | with the default basis it is `(1, 0, 0)` |
| Cameras.Camera.Resize | src/camera.rs:40-43 | only the aspect ratio changes, to `width / height`, and the cache is marked stale |
| Cameras.Camera.Mov | src/camera.rs:45-50 | `pos' = pos + forward·z + up·y + right·x`; orientation, perspective and cache unchanged; marked stale |
| Cameras.Camera.Rot | src/camera.rs:52-57 | `forward` and `up`, each normalised, are rotated by the quaternion of the scaled axis; position, perspective and cache unchanged; marked stale |
| Cameras.Camera.LookAt | src/camera.rs:59-65 | `forward` becomes the normalised direction to the target; `up` is turned by the rotation from the old forward to the new one and normalised; position, perspective and cache unchanged; marked stale |

## Left out

- `lb_clip` and `aabb_collision` (src/plane/mod.rs): floating-point parameter clipping with tolerance tests, and a double loop over the intersection routine already modelled.
- `Polygon::draw` (src/plane/polygon.rs:260-314): float-to-`isize` truncation plus a debug wireframe; its building blocks (`min_y`, `max_y`, `intersection_line`, `draw_line`) are modelled.
- The `Index`/`IndexMut` impls of `Polygon` and the `Display` impl: plain indexing and formatting.
- `src/volume/mod.rs` and `src/volume/matrix.rs` are not part of this model; `inertia_moment` is `unimplemented!`.
- `Polyhedron::from` and `into` are `map` with a conversion function; `points()`, `faces()` and their `_mut` variants only hand out iterators over the fields.
- Polyhedra.SetPointProps: `IndexMut` hands out a mutable reference; the model treats a write through it as replacing that one point of the mesh value, so aliasing of the reference is not modelled.
- Floating-point rounding: every `f64`/`f32` computation is exact over `real`, so results that rounding would perturb (a crossing that lands just outside the bound, say) are not modelled.
- `isize` and `usize` overflow of pixel indices: coordinates are unbounded integers; the `as usize` of a negative index is excluded by the drawing methods' `requires` instead.
- Raster.DrawLine: a pixel index outside the buffer makes the source panic; the model requires every index in range, and `RasterProps.LineAddressable` shows this holds when both endpoints are in the buffer.
- Raster.DrawRect: the source panics when `l[0].x > l[1].x` with a non-empty row range, or a row leaves the buffer; the model requires neither happens.
- Polygons.Clip: `clip_side` indexes the last vertex, so `clip` panics on an empty polygon; the model requires a non-empty polygon (later passes never see an empty one).
- Polygons.MinY and Polygons.MaxY: they index `self[0]`, so they panic on an empty polygon; the model requires a non-empty one.
- Cameras.Camera.Resize: `width / height` with `height = 0` gives an infinite or NaN aspect in `f32`; the model requires `height ≠ 0`, and nalgebra's own check on the aspect is not modelled.
- Cameras.Camera.LookAt: the source unwraps `rotation_between`; the model requires the rotation to exist.
- The numerics of nalgebra (`Perspective3`, `Isometry3::face_towards`, `UnitQuaternion::from_scaled_axis`, `rotation_between`, `normalize`): the matrix is a term recording its construction, the other operations are opaque functions given to the camera, so orthonormality of the basis is not modelled.
- Polyhedra.FromTrianglesRoundTrip: holds only while there are at most 65536 distinct points; beyond that the `as u16` cast wraps, and `Polyhedra.FromTrianglesWraps` shows that a corner whose point sits at position 65536 or later is then named by a face index that points at a different point.
