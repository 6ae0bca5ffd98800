# rustender core, modelled in Dafny

rustender is a small terminal 3D renderer. A scene is a list of meshes, and
each mesh is a list of triangles. The renderer keeps a frame buffer of
characters, called the `AsciiBuffer`. A transfer step writes one shading
glyph per triangle into that buffer at the grid cells the triangle covers.
`print` computes a terminal column and row for every glyph of the buffer
and builds crossterm commands for them; the commands are never issued.
Next to this pipeline sit:

- `GDI::line`, an integer Bresenham line rasterizer;
- a small fixed-size matrix type with `+`, `-` and `*`;
- the builders that configure meshes, the camera and the renderer;
- the plain vector, rotation and triangle values they are made of.

This project models each of these parts and proves what they promise.

- **`Gdi`** models `GDI::line` as imperative code: a `while` loop with
  invariants over the same `x`, `y`, `err`, `e2` updates as the Rust code.
  - It proves that the returned points form the rasterization of the
    segment (`Rasterized`): one point per step along the longer axis, plus
    one.
  - The first point is the start. The last point is the end, carrying the
    start's `z`.
  - Every point lies on the integer grid inside the segment's bounding box.
  - Every point is the grid cell nearest the ideal line. Its offset along
    the shorter axis is its offset along the longer axis times the slope,
    rounded to the nearest whole number. A tie goes to the cell further
    from the start.
  - Each point is one grid move from the previous one, in the direction
    `line` steps in.
  - `Rasterized` has exactly one solution per segment (`RasterizedUnique`),
    so the contract fixes the output cell by cell.
  - Lemmas show that the points are pairwise distinct and that lines
    parallel to an axis stay on that axis.
  - Two worked examples hold: (0, 0) to (3, 0), and (0, 0) to (4, 1),
    which gives (0, 0), (1, 0), (2, 1), (3, 1), (4, 1).
- **`Frames`** models `AsciiBuffer` as a class with a `buffer: seq<char>`
  field and a `chunkWidth` field.
  - `set` replaces the contents.
  - `chunk` copies a slice into a fresh buffer.
  - The write used by the transfer changes exactly one cell.
  - `print` computes one placement per glyph: (`i % w`, `i / w`), truncated
    to 16 bits.
  - Index and cell are proved to be inverses. While the grid fits the 16-bit
    cursor, no two glyphs share a cell.
- **`Transfer`** models `Transferer::start_transfering` as the same nested
  iteration: scene, then meshes, then triangles, then points.
  - The glyph is computed once per triangle, and every point passes the
    bounds guard before it is written.
  - The method's postcondition gives the final buffer as a fold of
    guarded writes over the scene.
  - Lemmas show that a guarded write lands on its own cell, that cells no
    write reaches stay unchanged, and that the last write to a cell wins.
- **`Matrices`** models the matrix `From`, `Index`, `Add`, `Sub` and `Mul`.
  The arithmetic operators are methods with the Rust code's nested loops, each
  proved against a cell-wise specification function. Lemmas cover
  cancellation, commutativity of addition, the identity product and the
  repository's own examples.
- **`Meshes`**, **`Cameras`** and **`Renderers`** model the builders as
  functions on builder values. Each setter's contract states its effect on
  the built value and that no other builder field changes. Lemmas cover the
  defaults of all three builders. Setter order is covered for meshes and
  cameras only. For every mesh setter except `add_triangle`, which
  appends, and for every camera setter, a later call overrides an earlier
  one. Mesh and camera calls on different fields or axes commute.
- **`Vectors`** and **`Triangles`** model the value types over `real`.

## Model

| member | source | states |
|---|---|---|
| Gdi.Line | src/engine/graphics/gdi.rs:7-38 | for integral end points the result is `Rasterized`: max(abs(dx), abs(dy)) + 1 points, the first is `start`, the last is `(end.x, end.y, start.z)`, each is an integral point of the bounding box at the start's `z` and the grid cell nearest the ideal line (ties away from start), and each is one grid move from the previous one in directions `sx`, `sy`; with `RasterizedUnique` this is exactly the loop's output |
| Gdi.Trace | src/engine/graphics/gdi.rs:20-35 | the loop pushes max(dx, -dy) + 1 points, starting at `(x0, y0)` and ending at `(x1, y1)`; each pushed cursor stays in the bounding box, is the cell nearest the ideal line, and is one move from the previous one |
| Gdi.AsI64 | src/engine/graphics/gdi.rs:16-17 | the `as i64` conversion of an integral coordinate gives that same value |
| Gdi.TruncIntegral | src/engine/graphics/gdi.rs:16-17 | truncation toward zero leaves an integral value unchanged |
| Gdi.IntegralDistance | src/engine/graphics/gdi.rs:10-11 | `abs(end - start)` and its negation are integral when both ends are, so `dx` and `dy` lose nothing in the cast |
| Gdi.Enter | src/engine/graphics/gdi.rs:14-18 | the initial `err = dx + dy` at the start cursor with nothing pushed satisfies the loop invariant |
| Gdi.StepKeepsInvariant | src/engine/graphics/gdi.rs:26-34 | with `e2 = 2 * err`, at least one of the two branches fires; the longer axis always steps; the error term stays within half the longer distance |
| Gdi.ErrorStep | src/engine/graphics/gdi.rs:26-34 | after the two guarded updates, `err` equals `dx + dy` plus the step-weighted distance, the step counts stay within `dx` and `-dy`, and their sum grows |
| Gdi.NoStepPastEndX | src/engine/graphics/gdi.rs:27-30 | once x has taken all `dx` steps, `e2 >= dy` is false, so x never overshoots |
| Gdi.NoStepPastEndY | src/engine/graphics/gdi.rs:31-34 | once y has taken all `-dy` steps, `e2 <= dx` is false, so y never overshoots |
| Gdi.StepsNearest | src/engine/graphics/gdi.rs:26-34 | a cursor `a` steps along x and `b` along y from the start whose error term is balanced (-dx < 2·dist <= dx for an x-major line, -dy <= 2·dist < dy for a y-major one) is the nearest cell |
| Gdi.Advance | src/engine/graphics/gdi.rs:26-34 | one iteration moves the cursor by one grid move towards the end, and the step counts and error term keep tracking it |
| Gdi.Iterate | src/engine/graphics/gdi.rs:20-35 | a non-final iteration preserves the loop invariant over the pushed points, and the step count strictly grows (the loop terminates) |
| Gdi.Arrive | src/engine/graphics/gdi.rs:21-24 | when the cursor equals the end, the pushed points number max(dx, -dy) + 1 and form a walk from start to end |
| Gdi.LineResult | src/engine/graphics/gdi.rs:21-37 | a walk from start to end with max(dx, -dy) + 1 cursors, rendered as `Vec3(x as f64, y as f64, z)`, is `Rasterized` |
| Gdi.DistAsReal | src/engine/graphics/gdi.rs:26-34 | the loop's integer distance `b·dx - a·dy` from the ideal line is the same quantity on the reals |
| Gdi.BalancedRounds | src/engine/graphics/gdi.rs:26-34 | the balance the loop keeps on integers means that the minor offset is the major offset times the slope, rounded to nearest with halves away from start |
| Gdi.NearestNearLine | src/engine/graphics/gdi.rs:21 | a nearest cursor, pushed as `Vec3(x as f64, y as f64, z)`, is the grid point nearest the ideal line between `start` and `end` |
| Gdi.CellOnLine | src/engine/graphics/gdi.rs:21 | a pushed in-box nearest cursor lies on the line: integral, in the box, at the start's `z`, nearest the ideal line |
| Gdi.Push | src/engine/graphics/gdi.rs:21 | pushing the point of an in-box, nearest cursor one move from the last one extends the emitted walk |
| Gdi.RenderAt | src/engine/graphics/gdi.rs:21 | the k-th pushed point is the k-th cursor converted to `f64` with the start's `z` |
| Gdi.WalkCells | src/engine/graphics/gdi.rs:20-35 | every cursor of a walk is in the bounding box, and consecutive cursors are one move apart |
| Gdi.MoveProgresses | src/engine/graphics/gdi.rs:26-34 | every grid move advances `sx * x + sy * y` by at least one |
| Gdi.ProgressGrows | src/engine/graphics/gdi.rs:20-35 | along the output, progress grows by at least the index distance |
| Gdi.RasterizedDistinct | src/engine/graphics/gdi.rs:7-38 | a rasterized line never repeats a point, and a line whose ends coincide is the single point `start` |
| Gdi.StraightLines | src/engine/graphics/gdi.rs:12-13 | when the ends share x (or y), every point has that x (or y), although the step there is -1 |
| Gdi.HorizontalExample | src/engine/graphics/gdi.rs:7-38 | the line from (0, 0) to (3, 0) is exactly (0, 0), (1, 0), (2, 0), (3, 0) |
| Gdi.LowSlopeExample | src/engine/graphics/gdi.rs:7-38 | every rasterization of (0, 0) to (4, 1) is (0, 0), (1, 0), (2, 1), (3, 1), (4, 1): the tie at x = 2 goes to y = 1 |
| Gdi.RoundsToUnique | src/engine/graphics/gdi.rs:26-34 | at most one whole number rounds a given major offset times the slope |
| Gdi.RoundsApart | src/engine/graphics/gdi.rs:26-34 | two neighbouring whole numbers never both round the same value |
| Gdi.AxisStep | src/engine/graphics/gdi.rs:26-34 | a coordinate in the box that stays or steps towards the end keeps its distance from start or adds one |
| Gdi.AxisDistance | src/engine/graphics/gdi.rs:12-13 | within the box, a coordinate is fixed by its distance from start |
| Gdi.MajorSteps | src/engine/graphics/gdi.rs:26-34 | along a walk whose minor offsets round the major ones, no move adds to the minor offset alone, so the k-th major offset is k |
| Gdi.OffsetStep | src/engine/graphics/gdi.rs:26-34 | a grid move between two points on the line adds one to either offset from start, or to both |
| Gdi.OffsetSteps | src/engine/graphics/gdi.rs:26-34 | along a rasterized line every move adds one to the x offset, the y offset, or both |
| Gdi.OffsetsRound | src/engine/graphics/gdi.rs:26-34 | along a rasterized line every minor offset rounds its major offset times the slope |
| Gdi.MajorIndex | src/engine/graphics/gdi.rs:20-35 | point k of a rasterized line is k cells from start along the longer axis |
| Gdi.SameMinor | src/engine/graphics/gdi.rs:26-34 | two grid points k cells along the major axis have the same minor offset |
| Gdi.SameMajor | src/engine/graphics/gdi.rs:26-34 | two points on the line k cells along the major axis are the same point |
| Gdi.SameOffsets | src/engine/graphics/gdi.rs:7-38 | two points on the line at the same x and y offsets from start are equal |
| Gdi.RasterizedUnique | src/engine/graphics/gdi.rs:7-38 | two point sequences that both rasterize the same segment are equal, so `Line`'s contract determines its output |
| Frames.AsciiBuffer.constructor | src/engine/rendering/ascii_buffer.rs:8-13 | stores exactly the given glyphs and chunk width |
| Frames.AsciiBuffer.Set | src/engine/rendering/ascii_buffer.rs:15-17 | replaces the glyphs with the given ones and keeps the chunk width |
| Frames.AsciiBuffer.Len | src/engine/rendering/ascii_buffer.rs:19-21 | the number of glyphs held |
| Frames.AsciiBuffer.Chunk | src/engine/rendering/ascii_buffer.rs:23-25 | a fresh buffer with the same chunk width whose k-th glyph is glyph `start + k`, with `end - start` glyphs; out of range is excluded, because the Rust code panics |
| Frames.AsciiBuffer.UpdateAt | src/engine/rendering/transferer.rs:25 | writes the glyph at index `x + y * chunk_width` and changes nothing else |
| Frames.AsciiBuffer.Print | src/engine/rendering/ascii_buffer.rs:27-35 | one placement per glyph in index order: glyph i goes to column `i % w` and row `i / w`, each cast to `u16` |
| Frames.U16 | src/engine/rendering/ascii_buffer.rs:32 | the `as u16` cast is below 65536 and is the identity on values that fit |
| Frames.CellOf | src/engine/rendering/ascii_buffer.rs:29-30 | the column is below the width, and column + row * width gives back the index |
| Frames.CellIndexRoundTrip | src/engine/rendering/ascii_buffer.rs:29-30 | index to (column, row) and back is the identity, and so is (column, row) to index and back for columns inside the row |
| Frames.CellOfInjective | src/engine/rendering/ascii_buffer.rs:29-30 | two indices share a cell if and only if they are equal |
| Frames.PrintPlacesApart | src/engine/rendering/ascii_buffer.rs:28-33 | while the width and row count fit 16 bits, every placement's column is inside the row, its cell maps back to its index, and no two glyphs share a cell |
| Transfer.Transferer.constructor | src/engine/rendering/transferer.rs:4 | holds the given buffer and meshes |
| Transfer.Transferer.StartTransfering | src/engine/rendering/transferer.rs:7-31 | the final buffer is the initial buffer after the guarded writes of every point of every triangle of every mesh, in order; length and chunk width are unchanged |
| Transfer.Transferer.TransferMesh | src/engine/rendering/transferer.rs:9-29 | applies the guarded writes of the mesh's triangles, in order |
| Transfer.Transferer.TransferTriangle | src/engine/rendering/transferer.rs:11-28 | computes the triangle's glyph once and applies one guarded write per covered point, in order |
| Transfer.Transferer.WritePoint | src/engine/rendering/transferer.rs:21-26 | a point passing `x >= 0 && y >= 0 && x < w && y < len / w` sets its cell, and any other point leaves the buffer unchanged |
| Transfer.GuardedIndexInRange | src/engine/rendering/transferer.rs:24-25 | a point that passes the guard indexes inside the buffer, so `update_at` cannot panic |
| Transfer.Apply | src/engine/rendering/transferer.rs:24-25 | keeps the length; cell n takes the write's glyph exactly when the write passes the guard and names cell n, and keeps its old glyph otherwise |
| Transfer.WriteShowsAtItsCell | src/engine/rendering/transferer.rs:24-25 | a guarded write's index maps back to the same (x, y) when `print` lays out the buffer |
| Transfer.OneGlyphPerTriangle | src/engine/rendering/transferer.rs:12-25 | a triangle's writes are its covered points in order, all carrying the one glyph of that triangle |
| Transfer.PaintCell | src/engine/rendering/transferer.rs:24-25 | each cell ends up holding the glyph of the last write that hits it, or its old glyph if none does |
| Transfer.LastHitIsLast | src/engine/rendering/transferer.rs:24-25 | no write hits a cell if and only if it has no last hit; the last hitting write supplies the glyph |
| Transfer.PaintUntouched | src/engine/rendering/transferer.rs:24 | a cell that no write hits keeps its glyph |
| Transfer.PaintLastWins | src/engine/rendering/transferer.rs:25 | a cell hit by write k and by no later write holds write k's glyph |
| Transfer.PaintSnoc | src/engine/rendering/transferer.rs:20-26 | painting one more write applies it to the earlier result |
| Transfer.PaintAppend | src/engine/rendering/transferer.rs:8-30 | painting two write lists in a row is painting their concatenation |
| Transfer.SceneWritesAppend | src/engine/rendering/transferer.rs:8-9 | a scene's writes are those of its meshes, concatenated in order |
| Transfer.MeshWritesAppend | src/engine/rendering/transferer.rs:10-11 | a mesh's writes are those of its triangles, concatenated in order |
| Matrices.Add | src/engine/math/matrices.rs:90-104 | the result has the same shape, and cell (i, j) is the sum of the two cells (i, j) |
| Matrices.Sub | src/engine/math/matrices.rs:128-141 | the result has the same shape, and cell (i, j) is the difference of the two cells (i, j) |
| Matrices.Mul | src/engine/math/matrices.rs:167-185 | an R×C by C×K product is R×K, and cell (i, j) is the sum over k of `a[i][k] * b[k][j]` |
| Matrices.From | src/engine/math/matrices.rs:42-66 | the matrix has the array's shape, and indexing it at (r, c) gives `value[r][c]` |
| Matrices.PlusMinusCancel | src/engine/math/matrices.rs:90-141 | subtraction undoes addition and addition undoes subtraction; addition is commutative |
| Matrices.ProductIdentity | src/engine/math/matrices.rs:167-185 | multiplying by the identity returns the matrix |
| Matrices.DotIdentity | src/engine/math/matrices.rs:176-178 | the inner sum against an identity column picks out one entry |
| Matrices.AddSubExamples | src/tests/math/matrices.rs:4-42 | [[1,2,3],[4,5,6]] plus all ones is [[2,3,4],[5,6,7]], and minus all ones is [[0,1,2],[3,4,5]] |
| Matrices.MulExample | src/tests/math/matrices.rs:44-63 | [[1,2,3],[4,5,6]] times [[7,8],[9,10],[11,12]] is [[58,64],[139,154]] |
| Matrices.MulDocExample | src/engine/math/matrices.rs:143-165 | [[1,2,3]] times [[1],[2],[3]] is the 1×1 matrix [[14]] |
| Meshes.New | src/engine/graphics/mesh.rs:14-21 | a builder with no triangles and no position, rotation or scale |
| Meshes.Build | src/engine/graphics/mesh.rs:34-41 | keeps the triangles and defaults position to (0, 0, 0), rotation to (0, 0, 0) and scale to (1, 1, 1) |
| Meshes.BuildEmpty | src/engine/graphics/mesh.rs:14-41 | building a fresh builder gives no triangles, the origin, no rotation and unit scale |
| Meshes.SetTriangles | src/engine/graphics/mesh.rs:43-47 | replaces the triangles; no other field changes |
| Meshes.AddTriangle | src/engine/graphics/mesh.rs:49-53 | appends the triangle at the end and keeps the earlier ones; no other field changes |
| Meshes.SetRotation | src/engine/graphics/mesh.rs:55-59 | the built rotation is (x, y, z); no other field changes |
| Meshes.SetRotationX | src/engine/graphics/mesh.rs:61-70 | the built rotation changes only in x; no other field changes |
| Meshes.SetRotationY | src/engine/graphics/mesh.rs:72-81 | the built rotation changes only in y; no other field changes |
| Meshes.SetRotationZ | src/engine/graphics/mesh.rs:84-93 | the built rotation changes only in z; no other field changes |
| Meshes.SetPosition | src/engine/graphics/mesh.rs:95-99 | the built position is the given one; no other field changes |
| Meshes.SetPositionX | src/engine/graphics/mesh.rs:101-110 | the built position changes only in x; no other field changes |
| Meshes.SetPositionY | src/engine/graphics/mesh.rs:113-122 | the built position changes only in y; no other field changes |
| Meshes.SetPositionZ | src/engine/graphics/mesh.rs:125-134 | the built position changes only in z; no other field changes |
| Meshes.SetScale | src/engine/graphics/mesh.rs:136-140 | the built scale is the given one; no other field changes |
| Meshes.SetScaleX | src/engine/graphics/mesh.rs:142-151 | on a set scale only x changes; on an unset scale the result is (x, 0, 0), not the default 1 in y and z; no other field changes |
| Meshes.SetScaleY | src/engine/graphics/mesh.rs:154-163 | on a set scale only y changes; on an unset scale the result is (0, y, 0); no other field changes |
| Meshes.SetScaleZ | src/engine/graphics/mesh.rs:166-175 | on a set scale only z changes; on an unset scale the result is (0, 0, z); no other field changes |
| Meshes.LastWriteWins | src/engine/graphics/mesh.rs:43-175 | a later whole-field setter overrides any earlier setter on that field, and a later axis setter overrides an earlier setter on the same axis; this covers every setter except `add_triangle`, which appends |
| Meshes.PerformFrame | src/engine/graphics/mesh.rs:43-175 | a setter call leaves every builder field but its own unchanged |
| Meshes.PerformLocal | src/engine/graphics/mesh.rs:43-175 | a setter call's effect on its field depends only on that field |
| Meshes.AgreeEverywhere | src/engine/graphics/mesh.rs:26-31 | two builders that agree on every field are equal |
| Meshes.FramesCommute | src/engine/graphics/mesh.rs:43-175 | two calls on different fields, each changing only its own field, give the same builder in either order |
| Meshes.RotationAxesCommute | src/engine/graphics/mesh.rs:61-93 | rotation axis setters on different axes commute |
| Meshes.PositionAxesCommute | src/engine/graphics/mesh.rs:101-134 | position axis setters on different axes commute |
| Meshes.ScaleAxesCommute | src/engine/graphics/mesh.rs:142-175 | scale axis setters on different axes commute, including on an unset scale |
| Meshes.IndependentCallsCommute | src/engine/graphics/mesh.rs:43-175 | any two setter calls on different fields, or on different axes of one field, commute |
| Meshes.MeshInitExample | src/tests/graphics/mesh.rs:4-32 | the repository's mesh example builds to the expected mesh, with rotation (2, 0, 0) |
| Cameras.New | src/engine/rendering/camera.rs:32-39 | a builder with nothing set |
| Cameras.Build | src/engine/rendering/camera.rs:56-63 | defaults the location to the origin, width to 100, height to 60 and fov to 90, and always uses rotation (0, 0, 0) |
| Cameras.BuildEmpty | src/engine/rendering/camera.rs:32-63 | a fresh builder builds the origin, 100 by 60, fov 90, rotation (0, 0, 0) |
| Cameras.Location | src/engine/rendering/camera.rs:65-69 | the built camera differs only in its location; no other builder field changes |
| Cameras.Width | src/engine/rendering/camera.rs:71-75 | the built camera differs only in its width; no other builder field changes |
| Cameras.Height | src/engine/rendering/camera.rs:77-81 | the built camera differs only in its height; no other builder field changes |
| Cameras.Fov | src/engine/rendering/camera.rs:83-87 | the built camera differs only in its fov; no other builder field changes |
| Cameras.SettersOrderIndependent | src/engine/rendering/camera.rs:65-87 | for each of the four setters a repeated call keeps the last value, and all six pairs of different setters commute |
| Cameras.CameraExample | src/engine/rendering/camera.rs:5-14 | the documented builder chain gives location (1, 0, 0), 80 by 50, fov 90 |
| Renderers.New | src/engine/rendering/renderer.rs:13-15 | no size, 60 fps, no quality |
| Renderers.Build | src/engine/rendering/renderer.rs:31-50 | the buffer holds width × height blanks of the size, which defaults to 100 × 50; the quality defaults to Low; fps is kept |
| Renderers.BuildDefaults | src/engine/rendering/renderer.rs:31-50 | with nothing set: 5000 blanks, 100 × 50, 60 fps, Low quality, one worker |
| Renderers.SetFps | src/engine/rendering/renderer.rs:52-56 | the built renderer differs only in fps; no other builder field changes |
| Renderers.SetQuality | src/engine/rendering/renderer.rs:58-62 | the built renderer differs only in quality; no other builder field changes |
| Renderers.SetSize | src/engine/rendering/renderer.rs:64-68 | the built size is the given one and the buffer has width × height cells; no other builder field changes |
| Renderers.SetWidth | src/engine/rendering/renderer.rs:70-81 | on a set size only the width changes; on an unset size the height is 0 and the buffer empty; no other builder field changes |
| Renderers.SetHeight | src/engine/rendering/renderer.rs:84-95 | on a set size only the height changes; on an unset size the width is 0 and the buffer empty; no other builder field changes |
| Triangles.New | src/engine/graphics/triangle.rs:38-40 | corner i of the triangle is vertex i |
| Triangles.FromVertices | src/engine/graphics/triangle.rs:56-60 | the `[Vec3; 3]` conversion keeps the three corners, in order |
| Triangles.FromRows | src/engine/graphics/triangle.rs:75-83 | row i of the array becomes corner i, coordinates in order |
| Triangles.ConversionsAgree | src/engine/graphics/triangle.rs:56-83 | both conversions give the same triangle from the same numbers |
| Triangles.TriangleExample | src/tests/graphics/triangle.rs:4-17 | the repository's triangle example holds |
| Vectors.New3 | src/engine/graphics/vec3.rs:44-46 | stores x, y, z in order, and agrees with the array conversion |
| Vectors.FromArray | src/engine/graphics/vec3.rs:96-98 | the coordinates are the array's elements in order |
| Vectors.Add3 | src/engine/graphics/vec3.rs:115-124 | adds coordinate by coordinate |
| Vectors.Sub3 | src/engine/graphics/vec3.rs:140-149 | subtracts coordinate by coordinate |
| Vectors.Dot | src/engine/graphics/vec3.rs:52-54 | `a · a` is non-negative |
| Vectors.Cross | src/engine/graphics/vec3.rs:56-62 | `a × b` is orthogonal to both a and b |
| Vectors.Add3Commutes | src/engine/graphics/vec3.rs:115-124 | `+` commutes |
| Vectors.Vec3AddSubCancel | src/engine/graphics/vec3.rs:115-149 | `(a + b) - b == a`, `(a - b) + b == a` and `a - a` is zero |
| Vectors.Vec3Examples | src/tests/graphics/vec3.rs:4-36 | the repository's vector examples hold |
| Vectors.DotSymmetric | src/engine/graphics/vec3.rs:52-54 | the dot product is symmetric |
| Vectors.CrossAntiCommutative | src/engine/graphics/vec3.rs:56-62 | `a × b == -(b × a)` and `a × a` is zero |
| Vectors.New2 | src/engine/graphics/vec2.rs:18-20 | stores x and y |
| Vectors.Add2 | src/engine/graphics/vec2.rs:23-31 | adds coordinate by coordinate |
| Vectors.Sub2 | src/engine/graphics/vec2.rs:33-41 | subtracts coordinate by coordinate |
| Vectors.Vec2AddSubCancel | src/engine/graphics/vec2.rs:23-41 | `(a + b) - b == a`, `(a - b) + b == a` and `a - a` is zero |
| Vectors.NewRotation | src/engine/graphics/rotation.rs:10-12 | stores the angles x, y, z |

## Left out

- Gdi.Line: `f64` coordinates are idealised as mathematical reals. The model
  requires integral end coordinates, because the Rust code truncates each end
  with `as i64` and compares truncated values. For non-integral ends the
  loop can run past a truncated end, and that case is not modelled.
- Gdi.Line: `i64` overflow of `dx`, `dy`, `2 * err` and the cursor, and the
  saturation of `as i64` on huge values, are not modelled. All integers are
  unbounded.
- Gdi.Trace: the loop is split out of `line` as its own method. The
  conversion of `end` to `i64` happens once before the loop instead of on
  every iteration, which is the same value.
- Frames.AsciiBuffer.Print: crossterm's `MoveTo` and `Print` commands are
  built and never executed in the Rust code, so nothing reaches the terminal.
  The model returns the placements those commands would carry.
- Frames.AsciiBuffer.Print: a zero `chunk_width` with a non-empty buffer
  divides by zero, which is a panic. It is a precondition here.
- Frames.AsciiBuffer.Chunk: a slice range outside the buffer panics in the
  Rust code. The model requires `start <= end <= len` instead.
- Frames.AsciiBuffer.UpdateAt: an index past the end of the buffer panics.
  The model requires `x + y * chunk_width < len` instead.
- Frames.AsciiBuffer.UpdateAt: `update_at` is called by the transfer but is
  not defined in the repository's files. It is modelled as writing
  `buffer[x + y * chunk_width]`, the layout that `print` reads.
- Transfer.Transferer.StartTransfering: the floating-point stage is
  represented by two parameters.
  - `cover` stands for rasterizing a triangle, projecting each point with
    the camera's focal length and truncating with `as isize`.
  - `shade` stands for the normal, the light intensity and the glyph choice.
  - `Triangle::rasterize`, `Triangle::normal` and `ascii_from_intensity` are
    not part of this model.
  - `Vec3::get_projected_2d`, `Vec3::length`, `Vec3::normalize` and
    `Camera::get_focal_length` need `f64` division, square root and tangent.
- Transfer.Transferer.StartTransfering: the `for_each` closures are written
  as one method per nesting level.
- `special_matrices` (src/engine/math/special_matrices.rs) are not modelled.
  They build rotation matrices as functions of an angle from `f64` sine and
  cosine.
- `MESHES::cube` (src/engine/graphics/meshes.rs:6-45) is not modelled. It
  builds a vertex table from `size / 2.0`, but its `Mesh` literal leaves out
  the required `scale` field. The file is not declared in
  src/engine/graphics/mod.rs, so it is not compiled.
- Vectors.Vec3AddSubCancel: `f64` is idealised as `real`. With rounding,
  `(a + b) - b == a` does not hold exactly.
- Vectors.Vec2AddSubCancel: `f64` is idealised as `real`, as for the 3D
  vectors.
- Matrices.Index has no row of its own. It has no contract apart from its
  panic precondition, and `Matrices.From` states what indexing returns.
- `Renderer::on_error` and its callback are not modelled. The renderer
  datatype has no `on_failed` field, because the callback only prints.
- Renderers.Size: the Rust code's `f32` width and height are modelled as
  natural numbers. The `(height * width) as usize` conversion of fractional
  or negative sizes is not modelled.
- Matrices: matrix elements are modelled as `int` only, not the generic `T`,
  and overflow of the element type is not modelled. The shapes `R`, `C` and
  `K` are explicit arguments with a `Shaped` precondition.
- Matrices.MulDocExample: the doc comment on `Mul` says the example gives
  the 3×1 matrix [[1], [4], [9]]. The code gives the 1×1 matrix [[14]], and
  the lemma states what the code computes.
- `Point`, `BuffChar` and `Shape` (src/engine/graphics) are not used by the
  modelled operations and are not modelled.
- Threading, frame timing and the render loop are not part of this model.
