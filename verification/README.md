# mc-dc: marching squares, dual contouring and the marching-cubes table generator in Dafny

mc-dc is demonstration code for turning an implicit function into a
boundary. It samples a scalar field `f` (positive means solid) on a grid of
unit cells. It then emits either line segments (2D) or polygons (3D) that
approximate the zero set of `f`. This project models the core of that code
and proves properties of the model:

- **Marching squares** (`marching_cubes_2d.py`, with a verbatim copy in
  `main.py`). Each cell is classified by the solidity of its four corners
  into one of 16 cases. Each case joins up to two pairs of crossed sides.
- **2D dual contouring** (`dual_contour_2d.py`, with an older copy in
  `main.py`). Each cell whose corners disagree gets one vertex, placed by a
  quadratic error function (QEF): the least-squares fit to the tangent lines
  at the sign changes on its sides. Each sign-changing interior grid side
  then becomes a segment between the vertices of the two cells beside it.
- **The QEF and its constrained solve** (`qef.py`). This covers building the
  QEF, pinning an axis, the bias towards the mass point, and the fallback to
  the cell's sides, edges and corners when the free solution leaves the
  cell. It also covers clipping.
- **3D dual contouring** (`dual_contour_3d.py`). This is one vertex per cut
  cube cell and one quadrilateral per sign-changing grid edge, over the
  `Mesh` container of `utils_3d.py`. The container's `Tri`/`Quad` faces and
  the `extend`, `+` and `translate` operations are modelled too.
- **The marching-cubes table generator** (`marching_cubes_gen.py`). It
  covers the cube's corner and edge numbering, the edge lookup by corner
  pair, the four corner permutations and `compose`/`pow`, and `bits_apply`,
  `edge_apply`, `face_apply` and `faces_apply`. It also covers the
  hand-written case tables, the brute-force loop that fills `cases`, and its
  `test1` check.

Modelling conventions:

- **Settings.** The global switches of `settings.py` (`ADAPTIVE`, `CLIP`,
  `BOUNDARY`, `BIAS`, `BIAS_STRENGTH` and the default bounds) are one
  `Settings` value passed to every operation that reads them.
  `Settings.Defaults` holds the shipped values.
- **Foreign inputs.** The field, its normal and `numpy.linalg.lstsq` are
  parameters. Arithmetic is exact over `real`.
- **Errors become `None`.** An error the source raises becomes `None` of an
  `Option`:
  - the assertion in `adapt`;
  - a `KeyError` in the vertex lookup of `dual_contour_3d`
    (`DualContour3dStitch.DualContour3dOver` and `DualContour3dAsWritten`);
  - a `KeyError` in `edge_apply`;
  - the `TypeError` of clipping a corner tuple, but only in
    `Qef.QefVertex2dAsWritten` and `Qef.QefVertex3dAsWritten`.
- **Corrected behaviour.** Where "## Findings" records a bug, the pipeline
  members compute the evidently intended behaviour, and their rows below
  start with "corrected (see ## Findings)". Each bug's as-written behaviour
  is modelled separately, by the members named in its row:
  - the vertex solve clips a chosen corner instead of raising
    (`Qef.QefVertex2d` and `Qef.QefVertex3d` and their callers);
  - the second 2D stitching loop winds like the first (`DualContour2d.RowCrossing`
    and its callers, `EarlyDualContour2d.EarlyContour2d` included);
  - marching squares uses the guards 13, 11 and 12 (`MarchingSquares.CaseSides`
    and its callers).
- **Loops.** Functions that loop are methods with loop invariants. Each is
  proved equal to a specification function, and the properties are proved
  as lemmas about those functions.
- **Winding.** A segment "keeps the solid on its left" in x-right, y-up
  coordinates. On the y-down SVG canvas the demos draw on, that is clockwise
  around the solid, the winding the source promises.

## Model

| member | source | states |
|---|---|---|
| Common.Edge.Swap | common.py:10-14 | with `swap` the endpoints are exchanged, otherwise the same segment is returned |
| Common.SwapTwice | common.py:10-14 | swapping twice with the same flag restores the segment |
| Common.SwapMapCommute | common.py:10-14 | reversing a segment commutes with relabelling its endpoints |
| Common.Adapt | common.py:16-22 | defined exactly when the samples have opposite signs (the assertion); when adaptive, `v0 + t·(v1 − v0) = 0` (the linear interpolant's zero); always `0 ≤ t ≤ 1`; otherwise `t = 0.5` |
| Common.AdaptQuarter | common.py:16-22 | from −1 to 3 the crossing is a quarter of the way; two positive samples fail the assertion |
| Common.AdaptNegate | common.py:16-22 | negating both samples moves no crossing |
| Utils3d.Face.Map | utils_3d.py:23-36 | same kind of face, each reference mapped in order |
| Utils3d.Face.Swap | utils_3d.py:38-42 | a quadrilateral whose corners are reversed when `swap`, unchanged otherwise |
| Utils3d.SwapTwice | utils_3d.py:38-42 | swapping a quadrilateral twice restores it |
| Utils3d.SwapMapCommute | utils_3d.py:35-42 | reversing commutes with relabelling |
| Utils3d.ShiftFaces | utils_3d.py:52-55 | each face is the original with every reference moved by `offset` |
| Utils3d.ShiftNothing | utils_3d.py:52-55 | shifting by zero changes nothing |
| Utils3d.ShiftInRange | utils_3d.py:51-55 | faces valid for `m` vertices, shifted past `n` earlier ones, are valid for `n + m` |
| Utils3d.Mesh.constructor | utils_3d.py:47-49 | the mesh holds exactly the given vertices and faces |
| Utils3d.Mesh.Extend | utils_3d.py:51-55 | the other mesh's vertices are appended and its faces appended with references shifted past the old vertex count (extending a face-less mesh by itself doubles its vertices); a well-indexed mesh stays well indexed |
| Utils3d.Mesh.Add | utils_3d.py:57-61 | a fresh mesh of both operands in order, the second's faces shifted; neither operand changes |
| Utils3d.Mesh.Translate | utils_3d.py:63-65 | a fresh mesh with the same faces and every vertex moved by `offset` |
| Qef.Evaluate | qef.py:16-21 | the error `‖A·x − b‖²` is never negative |
| Qef.EvalWithPos | qef.py:23-25 | the pair of a position and its (non-negative) error, position unchanged |
| Qef.Make2d | qef.py:27-33 | rows are the normals, `b[i] = positions[i]·normals[i]`, both axes free |
| Qef.Make3d | qef.py:35-41 | the same in 3D |
| Qef.Make2dMeasuresPlanes | qef.py:27-33 | each error term at `x` is `n_i·(x − p_i)`: the offset from the i-th tangent line |
| Qef.Make3dMeasuresPlanes | qef.py:35-41 | each error term at `x` is `n_i·(x − p_i)`: the offset from the i-th tangent plane |
| Qef.DotInsert | qef.py:47-49 | folding a fixed coordinate into `b` and deleting its column leaves every dot product unchanged |
| Qef.FixAxis | qef.py:43-52 | one column fewer, axis `axis` recorded as `value`, other slots unchanged |
| Qef.FixAxisKeepsErrors | qef.py:43-52 | the pinned QEF's errors at `x` are the original's at `x` with `value` inserted at `axis` |
| Qef.FixAxisRepresents | qef.py:43-52 | repeated pinning keeps measuring the original QEF at the reassembled full position |
| Qef.ReassembleAt | qef.py:64-71 | slot k of the solved position is its fixed value, or the next unused entry of the solution |
| Qef.ReassembleFix | qef.py:64-71 | reassembling after pinning an axis equals inserting the pinned value into the solution |
| Qef.ReassembleAllFree | qef.py:64-71 | with no axis pinned, the position is the solution itself |
| Qef.SolveSpec | qef.py:54-72 | the position keeps every pinned value; the residual is lstsq's if it reported one, else the evaluated error |
| Qef.Solve | qef.py:54-72 | the loop that writes the free values back between the pinned ones computes `SolveSpec` |
| Qef.SolvedErrorIsBaseError | qef.py:57-61 | a solve with no reported residual reports the original QEF's error at the full position |
| Qef.SolvePinned | qef.py:117-120 | a solve with one axis pinned has that coordinate equal to the pin |
| Qef.SolvePinnedError | qef.py:117-120 | its evaluated error is the original QEF's error at its position |
| Qef.SolvePinnedTwice | qef.py:203-214 | an edge solve has both pinned coordinates |
| Qef.SolvePinnedTwiceError | qef.py:203-214 | its evaluated error is the original QEF's error at its position |
| Qef.LexLessTransitive | qef.py:136 | Python's list ordering is transitive |
| Qef.LexLessTotal | qef.py:136 | and total |
| Qef.LexLessIrreflexive | qef.py:136 | and irreflexive |
| Qef.MinOf | qef.py:136 | `min` returns a member of the list that no member is smaller than |
| Qef.MinUnique | qef.py:136 | that member is the only one with this property |
| Qef.InsideOnly | qef.py:109-122 | the filter keeps exactly the candidates inside the closed cell |
| Qef.Clamp | qef.py:138-141 | `numpy.clip`: in range, unchanged inside, the nearer bound outside |
| Qef.MassPoint | qef.py:95-97 | one coordinate per axis |
| Qef.MassPointInCell | qef.py:95-97 | when every crossing is in the cell, so is the mass point |
| Qef.BiasNormals | qef.py:99-102 | axis k's bias normal is `BIAS_STRENGTH` along k and zero elsewhere |
| Qef.BiasNormalsListed | qef.py:99-102 | the 2D and 3D bias normals written out |
| Qef.BiasedPositions | qef.py:87-102 | the caller's positions, then with `BIAS` one copy of the mass point per axis |
| Qef.BiasedNormals | qef.py:87-102 | the caller's normals, then with `BIAS` the bias normals |
| Qef.FaceCandidates2d | qef.py:117-120 | four pinned solves on the lines x, x + 1, y and y + 1 |
| Qef.CornerCandidates2d | qef.py:128-133 | the four corners, all inside the cell |
| Qef.Ladder2d | qef.py:114-136 | the least in-cell side solve, or if there is none the least corner; always inside the cell |
| Qef.FaceCandidates3d | qef.py:190-197 | six pinned solves on the six bounding planes |
| Qef.EdgeCandidates3d | qef.py:203-216 | twelve solves pinned to the cube's edges, the higher axis pinned first |
| Qef.CornerCandidates3d | qef.py:221-230 | the eight corners, all inside the cell |
| Qef.Ladder3d | qef.py:187-233 | the least in-cell plane solve, else the least edge solve, else the least corner; always inside |
| Qef.Choose2d | qef.py:106-136 | without `BOUNDARY` the free solve; with it, a point inside the cell; a corner only when it came from the corners |
| Qef.Choose3d | qef.py:179-233 | the same in 3D |
| Qef.Place2d | qef.py:138-143 | corrected (see ## Findings): with `CLIP` each coordinate is `Clamp` (`numpy.clip`) of the chosen one to the cell, also when a corner was chosen; with `CLIP` or a boundary point the vertex is in the cell; without `CLIP` it is the chosen point |
| Qef.Place3d | qef.py:235-241 | corrected (see ## Findings): with `CLIP` each coordinate is `Clamp` of the chosen one to the cell; with `CLIP` or a boundary point the vertex is in the cell; without `CLIP` it is the chosen point |
| Qef.QefVertex2d | qef.py:75-143 | corrected (see ## Findings): solve_qef_2d with clipping applied to whatever was chosen; in the cell whenever `BOUNDARY` or `CLIP` |
| Qef.QefVertex3d | qef.py:146-241 | corrected (see ## Findings): solve_qef_3d, likewise |
| Qef.QefVertex2dAsWritten | qef.py:138-141 | as written: never fails without `CLIP`; whenever it succeeds it equals `QefVertex2d` |
| Qef.QefVertex3dAsWritten | qef.py:235-239 | as written: never fails without `CLIP`; whenever it succeeds it equals `QefVertex3d` |
| Qef.QefVertex2dUnconstrained | qef.py:104-106 | without `BOUNDARY` and `CLIP` the vertex is lstsq's answer |
| Qef.QefVertex3dUnconstrained | qef.py:177-179 | the same in 3D |
| Qef.ClipCornerRaises2d | qef.py:128-141 | planes x = 5 and y = 5 seen from cell (0, 0) with clipping: the as-written solve raises, the corrected one gives (1, 1) |
| Qef.ExampleChoice2d | qef.py:114-136 | in that example the fallback reaches the corners and picks (1, 1) |
| Qef.FacesOutside2d | qef.py:117-122 | in that example no side solve is in the cell |
| Qef.CornerErrors2d | qef.py:128-133 | in that example the corner errors are 50, 41, 41 and 32 |
| Qef.Fallback2d | qef.py:114-136 | the fallback steps compute `Ladder2d`, reporting a corner exactly when no side solve was inside |
| Qef.Fallback3d | qef.py:187-233 | the fallback steps compute `Ladder3d`, reporting a corner exactly when neither plane nor edge solves were inside |
| Qef.Finish2d | qef.py:138-143 | corrected (see ## Findings): the clip step computes `Place2d` |
| Qef.Finish3d | qef.py:235-241 | corrected (see ## Findings): the clip step computes `Place3d` |
| Qef.AddBias2d | qef.py:87-102 | the caller's lists grow exactly to `BiasedPositions`/`BiasedNormals` |
| Qef.AddBias3d | qef.py:158-175 | the same in 3D |
| Qef.SolveQef2d | qef.py:75-143 | corrected (see ## Findings): computes `QefVertex2d` and leaves the caller's lists biased |
| Qef.SolveQef3d | qef.py:146-241 | corrected (see ## Findings): computes `QefVertex3d` and leaves the caller's lists biased |
| DualContour2d.Crossings2d | dual_contour_2d.py:23-31 | none, two or four points (never one or three); none exactly when no side changes sign; each on the cell's boundary |
| DualContour2d.NormalsAt | dual_contour_2d.py:38-41 | one two-element normal per crossing |
| DualContour2d.BestVertex2d | dual_contour_2d.py:12-45 | corrected (see ## Findings): the centre when not adaptive; when adaptive, a vertex exactly when some side changes sign; inside the cell under `BOUNDARY` or `CLIP` |
| DualContour2d.SignChanges2d | dual_contour_2d.py:23-31 | the four sign tests append exactly `Crossings2d` |
| DualContour2d.FindBestVertex2d | dual_contour_2d.py:12-45 | corrected (see ## Findings): the step-by-step finder computes `BestVertex2d` |
| DualContour2d.VertexPass2d | dual_contour_2d.py:51-54 | corrected (see ## Findings): `verts` has exactly the box's cells as keys, each mapped to its best vertex |
| DualContour2d.ColumnCrossing | dual_contour_2d.py:57-64 | one segment exactly when the vertical side changes sign |
| DualContour2d.ColumnCrossingShape | dual_contour_2d.py:57-64 | it joins the two cells beside the side, both of which have vertices, with the solid on its left |
| DualContour2d.RowCrossingAsWritten | dual_contour_2d.py:65-72 | as written: one segment exactly when the horizontal side changes sign, always with the solid on its RIGHT |
| DualContour2d.RowCrossing | dual_contour_2d.py:65-72 | corrected: one segment exactly when the side changes sign |
| DualContour2d.RowCrossingShape | dual_contour_2d.py:65-72 | the corrected segment joins the two cells beside the side with the solid on its left |
| DualContour2d.CellEdgesWellFormed | dual_contour_2d.py:56-72 | corrected (see ## Findings): every segment joins two adjacent cells of the box that both have vertices, solid on its left |
| DualContour2d.CellEdgesCount | dual_contour_2d.py:56-72 | at most one segment per interior grid side |
| DualContour2d.AsWrittenRowsWindBackwards | dual_contour_2d.py:71-72 | every segment of the second loop as written keeps the solid on its right |
| DualContour2d.SinglePointWindsBothWays | dual_contour_2d.py:57-72 | with only the origin solid, the as-written loops emit one segment of each winding |
| DualContour2d.ContourVerticesExist | dual_contour_2d.py:47-73 | corrected (see ## Findings): every emitted segment joins two existing vertices (never `None`) |
| DualContour2d.ColumnSide | dual_contour_2d.py:59-64 | the first loop's body emits the side's segment over the looked-up vertices |
| DualContour2d.RowSide | dual_contour_2d.py:67-72 | corrected (see ## Findings): the second loop's body, likewise |
| DualContour2d.ColumnSides | dual_contour_2d.py:58-64 | the first inner loop emits one column's segments in order |
| DualContour2d.RowSides | dual_contour_2d.py:66-72 | corrected (see ## Findings): the second inner loop, likewise |
| DualContour2d.ColumnPass2d | dual_contour_2d.py:57-64 | the first loop emits every vertical interior side's segment, x then y order |
| DualContour2d.RowPass2d | dual_contour_2d.py:65-72 | corrected (see ## Findings): the second loop emits every horizontal interior side's segment |
| DualContour2d.StitchPass2d | dual_contour_2d.py:56-72 | corrected (see ## Findings): both loops together emit `CellEdges2d` over the vertices |
| DualContour2d.DualContour2d | dual_contour_2d.py:47-73 | corrected (see ## Findings): the vertex pass then the stitching pass compute `Contour2d` |
| EarlyDualContour2d.RawVertex2d | main.py:78-116 | the centre when not adaptive; otherwise a vertex exactly when some side changes sign |
| EarlyDualContour2d.RawVertexIsPlain | main.py:78-116 | the older finder is `BestVertex2d` with bias, boundary and clip all off |
| EarlyDualContour2d.FindRawVertex2d | main.py:78-116 | the step-by-step older finder computes `RawVertex2d` |
| EarlyDualContour2d.EarlyContour2d | main.py:119-143 | corrected (see ## Findings): the older contour is the cell pairs relabelled by `RawVertex2d`; every segment joins two existing vertices |
| MarchingSquares.CodesWithBits | marching_cubes_2d.py:22-25 | corner k is solid in code c exactly when bit `Bit(k)` of c is set |
| MarchingSquares.CaseCode | marching_cubes_2d.py:22-25 | a code in 0..15 whose bit for each corner is set exactly when that sample is positive |
| MarchingSquares.CaseSidesAsWritten | marching_cubes_2d.py:33-61 | as written: no segment for 0 and 15, two for 6 and 9, one otherwise |
| MarchingSquares.CaseSides | marching_cubes_2d.py:33-61 | corrected guards: the same counts |
| MarchingSquares.CaseSidesOriented | marching_cubes_2d.py:27-61 | every corrected segment joins two sign-changing sides (so `adapt` never fails) with the solid on its left |
| MarchingSquares.ComplementReverses | marching_cubes_2d.py:27-61 | a case and its complement join the same sides in opposite directions |
| MarchingSquares.AsWrittenWinding | marching_cubes_2d.py:39-50 | as written, cases 11, 12 and 13 keep the solid on the right; every other case matches `CaseSides` |
| MarchingSquares.AsWrittenComplementSame | marching_cubes_2d.py:39-50 | as written, 2/13, 4/11 and 3/12 give identical, unreversed segments |
| MarchingSquares.Case13Clockwise | marching_cubes_2d.py:39-41 | case 13 as written runs Left → Top with the solid on its right; corrected it runs Top → Left |
| MarchingSquares.SidePoint | marching_cubes_2d.py:38-61 | the crossing on a side lies on that side of the cell |
| MarchingSquares.SingleCell | marching_cubes_2d.py:10-63 | corrected (see ## Findings): at most two segments; none exactly when all four corners agree; every endpoint on the cell's boundary (main.py:15-65 is a copy) |
| MarchingSquares.MarchColumn | marching_cubes_2d.py:71-72 | corrected (see ## Findings): the inner loop emits the column's cells' segments in order |
| MarchingSquares.MarchingSquares | marching_cubes_2d.py:66-73 | corrected (see ## Findings): the whole loop emits every cell's segments, x outermost (main.py:68-75 is a copy) |
| MarchingSquares.MarchingSquaresInCells | marching_cubes_2d.py:66-73 | every segment lies on the boundary of one cell of the box |
| MarchingSquares.MarchingSquaresCount | marching_cubes_2d.py:66-73 | at most two segments per cell |
| DualContour3d.CutEdgesCube | dual_contour_3d.py:21-40 | a cube has no cut edge exactly when its corners agree, and never exactly one |
| DualContour3d.EdgeCount | dual_contour_3d.py:24-37 | an edge yields a crossing exactly when its ends disagree |
| DualContour3d.ZGroupCount | dual_contour_3d.py:24-27 | the z-edge loop yields one crossing per cut z edge |
| DualContour3d.YGroupCount | dual_contour_3d.py:29-32 | the y-edge loop, likewise |
| DualContour3d.XGroupCount | dual_contour_3d.py:34-37 | the x-edge loop, likewise |
| DualContour3d.CrossingsCount | dual_contour_3d.py:21-40 | at most 12 crossings; none exactly when no corner disagrees; otherwise at least two (so `None` only for uncut cells) |
| DualContour3d.EdgePoint | dual_contour_3d.py:24-37 | a crossing lies on the edge it was found on |
| DualContour3d.ZGroupOnEdges | dual_contour_3d.py:24-27 | every z-edge crossing lies on an edge of the cell |
| DualContour3d.YGroupOnEdges | dual_contour_3d.py:29-32 | every y-edge crossing, likewise |
| DualContour3d.XGroupOnEdges | dual_contour_3d.py:34-37 | every x-edge crossing, likewise |
| DualContour3d.CrossingsOnEdges | dual_contour_3d.py:21-37 | every crossing lies on an edge of its cell |
| DualContour3d.Positions3 | dual_contour_3d.py:53-54 | one three-element list per point |
| DualContour3d.Normals3 | dual_contour_3d.py:48-51 | one three-element normal per crossing |
| DualContour3d.CellQef | dual_contour_3d.py:53-55 | a valid three-column QEF |
| DualContour3d.CellQefMeasuresPlanes | dual_contour_3d.py:42-55 | each error term at `p` is `n·(p − c)`, the offset of `p` from one crossing's tangent plane |
| DualContour3d.BestVertex3dCases | dual_contour_3d.py:10-56 | the centre when not adaptive; otherwise a vertex exactly when the corners disagree, namely lstsq's solution |
| DualContour3d.CornerSamples | dual_contour_3d.py:14-19 | a fresh 2×2×2 array of the corner samples |
| DualContour3d.ZChanges | dual_contour_3d.py:24-27 | the z-edge loop appends exactly the z crossings |
| DualContour3d.YChanges | dual_contour_3d.py:29-32 | the y-edge loop, likewise |
| DualContour3d.XChanges | dual_contour_3d.py:34-37 | the x-edge loop, likewise |
| DualContour3d.SignChanges3d | dual_contour_3d.py:21-37 | the three loops produce `Crossings3d` |
| DualContour3d.NormalsAt3 | dual_contour_3d.py:48-51 | the normals loop produces `Normals3` |
| DualContour3d.FindBestVertex3d | dual_contour_3d.py:10-56 | the step-by-step finder computes `BestVertex3d` |
| DualContour3dMesh.IndexesExtend | dual_contour_3d.py:71-72 | appending a new cell's vertex and recording `len(vert_array)` keeps the index faithful |
| DualContour3dMesh.PassCell | dual_contour_3d.py:68-72 | one cell appends and indexes its vertex, or skips it |
| DualContour3dMesh.PassEnd | dual_contour_3d.py:63-72 | after the loops every vertex of the box is listed and indexed |
| DualContour3dMesh.VertexCell | dual_contour_3d.py:68-72 | the innermost body keeps the pass invariant |
| DualContour3dMesh.VertexRow | dual_contour_3d.py:67-72 | the z loop, likewise |
| DualContour3dMesh.VertexPlane | dual_contour_3d.py:66-72 | the y loop, likewise |
| DualContour3dMesh.VertexPass3d | dual_contour_3d.py:63-72 | the vertices of the box's cells in loop order; each cell with a vertex, and only those, mapped to the 1-based position of its own vertex |
| DualContour3dQuads.ZQuadDual | dual_contour_3d.py:79-88 | a z edge gets a face exactly when its ends disagree; it joins the four cells around the edge, turning counter-clockwise as seen from the edge's empty end |
| DualContour3dQuads.YQuadDual | dual_contour_3d.py:89-98 | the same for y edges |
| DualContour3dQuads.XQuadDual | dual_contour_3d.py:99-108 | the same for x edges |
| DualContour3dQuads.QuadsAtDual | dual_contour_3d.py:79-108 | every face emitted at a grid point is dual to one of its three edges |
| DualContour3dQuads.Quads3dDual | dual_contour_3d.py:75-108 | every face of the mesh is dual to a sign-changing edge at a grid point of the box |
| DualContour3dQuads.AroundChanges | dual_contour_3d.py:39-40 | a cell around a sign-changing edge has disagreeing corners |
| DualContour3dQuads.AroundHasVertex | dual_contour_3d.py:68-72 | so a cell of the box around such an edge has a vertex |
| DualContour3dQuads.QuadCovered | dual_contour_3d.py:83-88 | a face whose four cells lie in the box needs only cells with vertices |
| DualContour3dQuads.QuadsAtCovered | dual_contour_3d.py:79-108 | with z over the box's z range, every face at a grid point resolves |
| DualContour3dQuads.Quads3dCovered | dual_contour_3d.py:76-108 | with z over the box's z range, every face of the mesh resolves |
| DualContour3dQuads.AsWrittenUncovered | dual_contour_3d.py:78 | with z over [ymin, ymax) a face can need a cell outside the box |
| DualContour3dStitch.Lookup | dual_contour_3d.py:83-88 | succeeds exactly when every corner is indexed, then maps each face in order |
| DualContour3dStitch.LookupQuad | dual_contour_3d.py:83-88 | a single face is looked up corner by corner |
| DualContour3dStitch.ZFace | dual_contour_3d.py:79-88 | the first `if` looks up the z edge's face |
| DualContour3dStitch.YFace | dual_contour_3d.py:89-98 | the second `if`, the y edge's face |
| DualContour3dStitch.XFace | dual_contour_3d.py:99-108 | the third `if`, the x edge's face |
| DualContour3dStitch.CellFaces3d | dual_contour_3d.py:79-108 | the loop body looks up all faces at the grid point, or fails |
| DualContour3dStitch.StitchRow | dual_contour_3d.py:78-108 | the z loop extends the looked-up faces, or the whole lookup fails |
| DualContour3dStitch.StitchPlane | dual_contour_3d.py:77-108 | the y loop, likewise |
| DualContour3dStitch.StitchPass3d | dual_contour_3d.py:75-108 | the second loop looks up every face, or fails with a KeyError |
| DualContour3dStitch.LookupCovered | dual_contour_3d.py:83-108 | with the vertex pass's index, the lookup succeeds exactly when every face's cells have vertices |
| DualContour3dStitch.ResolveRealizes | dual_contour_3d.py:83-88 | a resolved face names, corner by corner, its cells' vertices |
| DualContour3dStitch.LookupRealizes | dual_contour_3d.py:75-108 | a successful lookup realises the faces over the vertex list |
| DualContour3dStitch.DualContour3dOver | dual_contour_3d.py:59-110 | a mesh exactly when every face resolves: the vertices in loop order, faces realising `Quads3d` |
| DualContour3dStitch.DualContour3dAsWritten | dual_contour_3d.py:59-110 | as written (z over [ymin, ymax)): succeeds whenever the y and z ranges coincide |
| DualContour3dStitch.DualContour3dCorrected | dual_contour_3d.py:59-110 | corrected: always a well-indexed mesh realising one outward face per sign-changing edge |
| CubeBits.BitsToVerts | marching_cubes_gen.py:139-141 | the ascending list of corners 0..7 whose bit is set |
| CubeBits.VertsToBits | marching_cubes_gen.py:144-146 | a non-negative sum of powers of two |
| CubeBits.BitsRoundTrip | marching_cubes_gen.py:139-146 | `verts_to_bits(bits_to_verts(n)) == n` for every 8-bit n |
| CubeBits.VertsRoundTrip | marching_cubes_gen.py:139-146 | `bits_to_verts(verts_to_bits(vs))` has the corners of vs; equals vs when vs is ascending |
| CubeBits.VertsToBitsBits | marching_cubes_gen.py:144-146 | the bits of a sum of distinct corners are exactly those corners |
| CubeBits.CornersFit | marching_cubes_gen.py:144-146 | a sum of distinct corners fits in eight bits |
| CubeBits.ComplementBits | marching_cubes_gen.py:212-213 | `255 − n` flips every one of the eight bits |
| MarchingCubesGen.EdgesAreCubeEdges | marching_cubes_gen.py:5-31 | 8 corners, 12 edges, each joining corners that differ in exactly one coordinate |
| MarchingCubesGen.EdgeKeysDistinct | marching_cubes_gen.py:18-31 | no two edges join the same pair of corners |
| MarchingCubesGen.VertsetsUpTo | marching_cubes_gen.py:33-35 | the partial dictionary maps each key to an earlier edge with that corner pair |
| MarchingCubesGen.VertsetsIndex | marching_cubes_gen.py:33-35 | each of the first k edges is found under its own corner pair |
| MarchingCubesGen.EdgesByVertsetInverts | marching_cubes_gen.py:33-35 | EDGES_BY_VERTSET inverts EDGES: its keys are exactly the edges' corner pairs |
| MarchingCubesGen.BuildEdgesByVertset | marching_cubes_gen.py:33-35 | the loop builds that dictionary |
| MarchingCubesGen.VertsetAdjacent | marching_cubes_gen.py:33-35 | a corner pair is a key exactly when its corners are adjacent |
| MarchingCubesGen.AdjacentEnds | marching_cubes_gen.py:18-31 | adjacent corners are the ends of some edge |
| MarchingCubesGen.Compose | marching_cubes_gen.py:174-185 | an operation sending each corner through the ops in order, the first one first |
| MarchingCubesGen.ComposePerm | marching_cubes_gen.py:174-185 | a composition of permutations is a permutation |
| MarchingCubesGen.Pow | marching_cubes_gen.py:188-190 | an operation |
| MarchingCubesGen.PowIterates | marching_cubes_gen.py:188-190 | `pow(op, n)` applies op n times; `pow(op, 0)` is the identity |
| MarchingCubesGen.PowPerm | marching_cubes_gen.py:188-190 | a power of a permutation is a permutation |
| MarchingCubesGen.Rotate1Order | marching_cubes_gen.py:98-107 | ROTATE_1 is a permutation of order 4 |
| MarchingCubesGen.Rotate2Order | marching_cubes_gen.py:108-117 | ROTATE_2 is a permutation of order 4 |
| MarchingCubesGen.Rotate3Order | marching_cubes_gen.py:118-127 | ROTATE_3 is a permutation of order 4 |
| MarchingCubesGen.ReflectOrder | marching_cubes_gen.py:128-137 | REFLECT is a permutation of order 2 |
| MarchingCubesGen.Rotate1Symmetry | marching_cubes_gen.py:98-107 | ROTATE_1 sends cube edges to cube edges |
| MarchingCubesGen.Rotate2Symmetry | marching_cubes_gen.py:108-117 | ROTATE_2, likewise |
| MarchingCubesGen.Rotate3Symmetry | marching_cubes_gen.py:118-127 | ROTATE_3, likewise |
| MarchingCubesGen.ReflectSymmetry | marching_cubes_gen.py:128-137 | REFLECT, likewise |
| MarchingCubesGen.ComposePreservesEdges | marching_cubes_gen.py:174-185 | a composition of edge-preserving operations preserves edges |
| MarchingCubesGen.PowSymmetry | marching_cubes_gen.py:188-190 | a power of an edge-preserving permutation is one too |
| MarchingCubesGen.BitsApply | marching_cubes_gen.py:149-151 | a non-negative pattern |
| MarchingCubesGen.BitsApplyImage | marching_cubes_gen.py:149-151 | an 8-bit pattern whose corners are the images of n's corners |
| MarchingCubesGen.BitsApplyMoves | marching_cubes_gen.py:149-151 | under a permutation, corner op[v] is set exactly when corner v was |
| MarchingCubesGen.BitsApplyFixed | marching_cubes_gen.py:149-151 | a permutation fixing every corner leaves the pattern unchanged |
| MarchingCubesGen.BitsApplyIdentity | marching_cubes_gen.py:149-151 | the identity leaves the pattern unchanged |
| MarchingCubesGen.BitsApplyCompose | marching_cubes_gen.py:149-185 | `bits_apply(compose(op1, op2), n) == bits_apply(op2, bits_apply(op1, n))` |
| MarchingCubesGen.EdgeApply | marching_cubes_gen.py:166-171 | defined (no KeyError) exactly when the images of the edge's corners are adjacent; then the edge joining them |
| MarchingCubesGen.EdgeApplyIdentity | marching_cubes_gen.py:166-171 | the identity keeps every edge |
| MarchingCubesGen.FaceApply | marching_cubes_gen.py:159-163 | defined exactly when every edge maps; entry k is edge_apply of entry k, or of the mirrored entry when flipping |
| MarchingCubesGen.FaceApplyDefined | marching_cubes_gen.py:159-171 | an edge-preserving permutation maps any face |
| MarchingCubesGen.FaceApplyIdentity | marching_cubes_gen.py:159-163 | the identity keeps a face, or reverses it when flipping |
| MarchingCubesGen.FacesApply | marching_cubes_gen.py:154-156 | defined exactly when every face maps; then face_apply face by face |
| MarchingCubesCases.KeyIndex | marching_cubes_gen.py:214 | the position of a key in the insertion-ordered dictionary, none exactly when absent |
| MarchingCubesCases.Put | marching_cubes_gen.py:216 | the key maps to the value, no other key changes, an existing key keeps its place and a new one is appended |
| MarchingCubesCases.MergeCases | marching_cubes_gen.py:90-94 | copying BASE_CASES and storing each inverse case in turn |
| MarchingCubesCases.AllCasesMerged | marching_cubes_gen.py:90-94 | no inverse key is a base key, so ALL_CASES is BASE_CASES followed by INVERSE_CASES: 18 entries |
| MarchingCubesCases.AllCasesKeys | marching_cubes_gen.py:42-94 | ALL_CASES lists 18 distinct 8-bit patterns |
| MarchingCubesCases.StraddlesIsTest1 | marching_cubes_gen.py:219-225 | `Straddles` is test1's check: exactly one end of the edge is among `bits_to_verts(bits)` |
| MarchingCubesCases.AllCasesHold | marching_cubes_gen.py:42-94 | every hand-written case is an 8-bit pattern whose faces pass test1 |
| MarchingCubesCases.NewBitsMoves | marching_cubes_gen.py:211-213 | corner op[v] of the new pattern is solid exactly when v was (or empty when inverting) |
| MarchingCubesCases.StraddleImage | marching_cubes_gen.py:211-215 | an edge between a solid and an empty corner maps to such an edge of the new pattern |
| MarchingCubesCases.FacesDefined | marching_cubes_gen.py:215 | a cube symmetry maps any faces without a KeyError |
| MarchingCubesCases.FacesImage | marching_cubes_gen.py:211-216 | faces that pass test1 still pass it after the round's transformation |
| MarchingCubesCases.Combo | marching_cubes_gen.py:197-201 | loop variables in range |
| MarchingCubesCases.ComboRound | marching_cubes_gen.py:197-201 | round i is reached with round number i: refl fastest, invert slowest |
| MarchingCubesCases.RoundInjective | marching_cubes_gen.py:197-201 | distinct loop variables give distinct rounds |
| MarchingCubesCases.RoundCombo | marching_cubes_gen.py:197-201 | every combination of loop variables is one of the 256 rounds |
| MarchingCubesCases.RoundOp | marching_cubes_gen.py:202-207 | the round's composed operation is an operation |
| MarchingCubesCases.RoundOpSymmetry | marching_cubes_gen.py:202-207 | every round's operation is a cube symmetry |
| MarchingCubesCases.OpItems | marching_cubes_gen.py:210-216 | 18 offers per round |
| MarchingCubesCases.Rounds | marching_cubes_gen.py:197-216 | 256 rounds of 18 offers, offer j of round i from entry j under `Combo(i)` |
| MarchingCubesCases.FillSnoc | marching_cubes_gen.py:214-216 | one more offer is kept if its pattern is present and stored if not |
| MarchingCubesCases.FillEntries | marching_cubes_gen.py:214-216 | the filled dictionary has distinct keys, each entry coming from an offer |
| MarchingCubesCases.FillKeys | marching_cubes_gen.py:214-216 | a pattern is stored exactly when it was offered |
| MarchingCubesCases.FillFirst | marching_cubes_gen.py:214-216 | the faces stored for a pattern are those of its first offer |
| MarchingCubesCases.AllCasesTable | marching_cubes_gen.py:42-94 | ALL_CASES can be walked by the loop and passes test1 |
| MarchingCubesCases.RoundDefined | marching_cubes_gen.py:202-216 | no round raises a KeyError on a table that passes test1 |
| MarchingCubesCases.TryEntry | marching_cubes_gen.py:211-216 | the innermost body performs one offer |
| MarchingCubesCases.OpItemsAt | marching_cubes_gen.py:211-215 | offer j of a round is entry j's new pattern and transformed faces |
| MarchingCubesCases.ApplyRound | marching_cubes_gen.py:210-216 | the inner loop performs a round's 18 offers in order |
| MarchingCubesCases.GenerateFrom | marching_cubes_gen.py:197-216 | the loops fill exactly `Gen(all)` |
| MarchingCubesCases.Generate | marching_cubes_gen.py:192-216 | starting from an empty `cases`, over ALL_CASES |
| MarchingCubesCases.GenTest1 | marching_cubes_gen.py:219-225 | every generated entry is an 8-bit pattern whose faces pass test1 |
| MarchingCubesCases.GenKeys | marching_cubes_gen.py:214-216 | a pattern is generated exactly when some round offered it for some entry |
| MarchingCubesCases.GenFirstWriter | marching_cubes_gen.py:194-216 | each generated entry comes from the first round and entry that offered its pattern |
| MarchingCubesCases.FirstRoundIdentity | marching_cubes_gen.py:197-207 | the first round has no rotation, reflection or inversion: the identity |
| MarchingCubesCases.FacesApplyIdentity | marching_cubes_gen.py:154-163 | the identity without flipping keeps the faces |
| MarchingCubesCases.FirstRoundKeeps | marching_cubes_gen.py:197-216 | the first round offers every entry unchanged |
| MarchingCubesCases.GenKeepsTable | marching_cubes_gen.py:194-216 | every entry of a distinct-keyed table appears unchanged in the result |
| MarchingCubesCases.HandWrittenKept | marching_cubes_gen.py:194-216 | every hand-written case, including the three INVERSE_CASES, survives unchanged |

## Left out

- File output is not modelled because it is I/O:
  - `make_svg` and `element` (utils_2d.py, main.py);
  - `make_obj` (utils_3d.py:68-76);
  - the `__main__` blocks;
  - blender_visualize.py.
- The sample fields and their normals are not modelled: `circle_function`, `square_function`, `t_shape_function`, `intersect_function` and `normal_from_function`. They are inputs, not part of the algorithms, and they need `sqrt`. The field and its normal are parameters instead.
- `V2.normalize` and `V3.normalize` are not modelled, because they need `sqrt`.
- `numpy.linalg.lstsq` is a parameter (`Lstsq`). Its minimisation property, rank handling and residual array are not modelled. The model assumes only that it returns one value per column.
- Floating point is not modelled: arithmetic is exact over `real`. In particular, `adapt`'s division is exact.
- Qef.Evaluate: returns the squared norm `‖A·x − b‖²` rather than the norm, because `sqrt` is not modelled.
  - Corners compared with one another keep their order under this change.
  - lstsq's residual is itself a squared norm. The source can compare that residual with a norm from `evaluate` (after a rank-deficient side solve); the model compares two squared values instead.
- Utils3d.Mesh.Extend: requires that a mesh extended by itself has no faces. When `m.faces` is non-empty, `m.extend(m)` appends to `m.faces` while iterating over it, so it never ends. With no faces it doubles the vertex list and returns, and the model does the same.
- Utils3d.Mesh.Translate: the model copies the face list, but utils_3d.py:65 passes `self.faces` itself to the new mesh, so the original and the translated mesh share one face list. The model does not capture what follows from that sharing:
  - extending either mesh also grows the other's faces but not its vertices, which can leave the other mesh referring to missing vertices;
  - `m.extend(m.translate(o))` with faces present never ends, because it iterates over the list it is extending; in the model it terminates.
- Utils3d.Mesh.constructor: utils_3d.py:47-48 keeps a caller's non-empty vertex and face lists without copying them, so later changes through either name are seen by both. The model holds the lists as values and does not capture this aliasing.
- test2 and test3 of marching_cubes_gen.py (manifoldness and the final table dump) are not modelled.
- MarchingCubesCases.GenTest1: proves test1's edge check only for the patterns stored in `cases`. test1 (marching_cubes_gen.py:219-225) looks up `cases[bits]` for every `bits` in `range(256)`, so it also requires that all 256 patterns are stored; that coverage is not proved. `MarchingCubesCases.GenKeys` characterises the stored patterns by the offers made, but showing that every pattern is offered means evaluating the 256 rounds on the 18 entries concretely.
- MarchingCubesCases.GenerateFrom: the five nested loops of marching_cubes_gen.py:197-201 are walked as one loop over the 256 rounds, in the same order. `Combo` and `ComboRound` establish the correspondence between that loop and the nested one.
- Python dictionaries are modelled as follows:
  - `cases` and ALL_CASES are insertion-ordered sequences of pairs;
  - `verts` and `vert_indices` are Dafny maps;
  - EDGES_BY_VERTSET maps sets to ints.
- The generator's ops are seq<int> lists, with `frozenset` as `set`.
- The QEF's numpy matrices are sequences of rows with an explicit column count.
- The module-level settings are parameters, not globals. Changing a setting while the code runs is not modelled.
- dual_contour_3d.py's vertex finder calls lstsq directly and does not go through `solve_qef_3d`. The model follows that code, so `Qef.QefVertex3d` stands on its own.
- marching_cubes_3d.py is not part of this model.

## Findings

| source | as written | input that shows it | evidently intended | confidence | as-written member | corrected member |
|---|---|---|---|---|---|---|
| dual_contour_2d.py:72 | the second stitching loop reverses its segment when the side's left end `(x, y)` is solid (`swap(x0_solid)`), so every horizontal-side segment keeps the solid on its right while the first loop's keep it on their left (the same line is at main.py:142) | a field solid only at the origin, box [−1, 1)²: the emitted segments include (0,0)→(−1,0) with the solid on the left and (0,0)→(0,−1) with the solid on the right | reverse when the right end `(x + 1, y)` is solid, so both loops wind the same way | not executed | DualContour2d.SinglePointWindsBothWays | DualContour2d.RowCrossingShape |
| marching_cubes_2d.py:41 | the swap guards of the branches for cases 2/13, 4/11 and 3/12 test `case is 11`, `case is 13` and `case is 10`, codes that never reach those branches (lines 41, 44 and 50; the same at main.py:43, 46 and 52), so cases 13, 11 and 12 are not reversed | a cell whose only empty corner is (0, 1) (case 13): the segment runs Left → Top with the solid on its right, the same segment as case 2 | guards `case is 13`, `case is 11` and `case is 12`, so that every complement case is reversed | not executed | MarchingSquares.Case13Clockwise | MarchingSquares.CaseSidesOriented |
| qef.py:140-141 | with `CLIP` on, clipping assigns into `v`, which is the immutable tuple `eval_with_pos` returned when the boundary fallback chose a corner, so it raises TypeError | cell (0, 0), crossings (5, 0) and (0, 5) with normals (1, 0) and (0, 1), `BOUNDARY` and `CLIP` on, `BIAS` off: the solution (5, 5) and all four side solves leave the cell, and corner (1, 1) is chosen | clip the chosen point whatever its type, giving (1, 1) | not executed | Qef.ClipCornerRaises2d | Qef.QefVertex2d |
| dual_contour_3d.py:78 | the innermost loop of the face pass runs `z` over `range(ymin, ymax)` | the field 1.5 − z on the box [0, 2) × [0, 2) × [0, 1): the z edge from (1, 1, 1) changes sign and its face needs cell (0, 0, 1), which is outside the box and has no vertex (KeyError) | `range(zmin, zmax)`, under which every face resolves | not executed | DualContour3dQuads.AsWrittenUncovered | DualContour3dStitch.DualContour3dCorrected |
