/**
 * 3D dual contouring (dual_contour_3d.py): one vertex per cube cell that the
 * boundary of `f` crosses, placed by a least-squares fit to the tangent planes
 * at the sign-change points of its edges, and one quadrilateral per grid edge
 * whose two ends lie on opposite sides of the boundary, joining the vertices of
 * the four cells around that edge.
 */
module DualContour3d {
  import opened Wrappers
  import opened Common
  import opened Grid
  import opened Utils3d
  import opened Qef

  /** A scalar field: positive inside the solid. */
  type Field3 = (real, real, real) -> real

  /** The gradient direction of a field. */
  type Normal3 = (real, real, real) -> V3

  /** A cell, named by its lowest corner; also a grid point. */
  type Cell3 = (int, int, int)

  /** The field sampled at a grid point. */
  function At3(f: Field3, p: Cell3): real {
    f(p.0 as real, p.1 as real, p.2 as real)
  }

  predicate Solid3(f: Field3, p: Cell3) {
    At3(f, p) > 0.0
  }

  /** The corner of the cell `c` at offset (dx, dy, dz). */
  function Corner(c: Cell3, dx: int, dy: int, dz: int): Cell3 {
    (c.0 + dx, c.1 + dy, c.2 + dz)
  }

  /** Not all eight corners of the cell at (x, y, z) are on the same side of the boundary. */
  predicate SignChange3(f: Field3, x: int, y: int, z: int) {
    var s := Solid3(f, (x, y, z));
    !(Solid3(f, (x, y, z + 1)) == s && Solid3(f, (x, y + 1, z)) == s && Solid3(f, (x, y + 1, z + 1)) == s &&
      Solid3(f, (x + 1, y, z)) == s && Solid3(f, (x + 1, y, z + 1)) == s &&
      Solid3(f, (x + 1, y + 1, z)) == s && Solid3(f, (x + 1, y + 1, z + 1)) == s)
  }

  predicate InBox3(c: Cell3, xmin: int, xmax: int, ymin: int, ymax: int, zmin: int, zmax: int) {
    xmin <= c.0 < xmax && ymin <= c.1 < ymax && zmin <= c.2 < zmax
  }

  /** `v` lies on the grid plane `a` or `a + 1`. */
  predicate OnPlane(v: real, a: int) {
    v == a as real || v == a as real + 1.0
  }

  /** A point of one of the twelve edges of the cell at (x, y, z). */
  predicate OnCellEdge3(p: V3, x: int, y: int, z: int) {
    InCell3(p, x, y, z) &&
    ((OnPlane(p.x, x) && OnPlane(p.y, y)) || (OnPlane(p.x, x) && OnPlane(p.z, z)) || (OnPlane(p.y, y) && OnPlane(p.z, z)))
  }

  // ---------------------------------------------------------------------
  // Placing one vertex
  // ---------------------------------------------------------------------

  /** The sign-change point, if any, between the grid points `p` and `q`, interpolated along `axis`. */
  function EdgeCrossing(f: Field3, p: Cell3, q: Cell3, axis: nat): seq<V3>
    requires axis < 3
  {
    var v0, v1 := At3(f, p), At3(f, q);
    if !OppositeSigns(v0, v1) then []
    else
      var t := Adapt(v0, v1, true).value;
      [V3(p.0 as real + (if axis == 0 then t else 0.0), p.1 as real + (if axis == 1 then t else 0.0),
          p.2 as real + (if axis == 2 then t else 0.0))]
  }

  /** The z-directed edges of the cell, by offset (dx, dy). */
  function ZCrossings(f: Field3, x: int, y: int, z: int): (int, int) -> seq<V3> {
    (dx: int, dy: int) => EdgeCrossing(f, (x + dx, y + dy, z), (x + dx, y + dy, z + 1), 2)
  }

  /** The y-directed edges of the cell, by offset (dx, dz). */
  function YCrossings(f: Field3, x: int, y: int, z: int): (int, int) -> seq<V3> {
    (dx: int, dz: int) => EdgeCrossing(f, (x + dx, y, z + dz), (x + dx, y + 1, z + dz), 1)
  }

  /** The x-directed edges of the cell, by offset (dy, dz). */
  function XCrossings(f: Field3, x: int, y: int, z: int): (int, int) -> seq<V3> {
    (dy: int, dz: int) => EdgeCrossing(f, (x, y + dy, z + dz), (x + 1, y + dy, z + dz), 0)
  }

  /**
   * The sign-change points on the edges of the cell at (x, y, z): the four
   * z-directed edges, then the four y-directed, then the four x-directed, each
   * group in loop order.
   */
  function Crossings3d(f: Field3, x: int, y: int, z: int): seq<V3> {
    Grid2(ZCrossings(f, x, y, z), 0, 2, 0, 2) + Grid2(YCrossings(f, x, y, z), 0, 2, 0, 2) +
    Grid2(XCrossings(f, x, y, z), 0, 2, 0, 2)
  }

  /** Number of edges of a cube cut by the boundary, from the solidity of its corners (`sXYZ`). */
  function CutEdges(s000: bool, s001: bool, s010: bool, s011: bool, s100: bool, s101: bool, s110: bool, s111: bool): (n: nat)
  {
    (if s000 != s001 then 1 else 0) + (if s010 != s011 then 1 else 0) +
    (if s100 != s101 then 1 else 0) + (if s110 != s111 then 1 else 0) +
    (if s000 != s010 then 1 else 0) + (if s001 != s011 then 1 else 0) +
    (if s100 != s110 then 1 else 0) + (if s101 != s111 then 1 else 0) +
    (if s000 != s100 then 1 else 0) + (if s001 != s101 then 1 else 0) +
    (if s010 != s110 then 1 else 0) + (if s011 != s111 then 1 else 0)
  }

  /**
   * No edge of a cube is cut exactly when its corners agree, and a cut cube is
   * never cut on just one edge: the corners on either side of the boundary are
   * joined to the others by at least two edges.
   */
  lemma CutEdgesCube(s000: bool, s001: bool, s010: bool, s011: bool, s100: bool, s101: bool, s110: bool, s111: bool)
    ensures var n := CutEdges(s000, s001, s010, s011, s100, s101, s110, s111);
      && n <= 12
      && (n == 0 <==> (s001 == s000 && s010 == s000 && s011 == s000 && s100 == s000 && s101 == s000 && s110 == s000 && s111 == s000))
      && n != 1
  {
  }

  /** Each edge contributes one crossing when its ends differ and none otherwise. */
  lemma EdgeCount(f: Field3, p: Cell3, q: Cell3, axis: nat)
    requires axis < 3
    ensures |EdgeCrossing(f, p, q, axis)| == if Solid3(f, p) != Solid3(f, q) then 1 else 0
  {
  }

  /** 1 when the grid points `p` and `q` lie on opposite sides of the boundary. */
  function Cut(f: Field3, p: Cell3, q: Cell3): nat {
    if Solid3(f, p) != Solid3(f, q) then 1 else 0
  }

  /** How many crossings the z-directed edges contribute. */
  lemma ZGroupCount(f: Field3, x: int, y: int, z: int)
    ensures |Grid2(ZCrossings(f, x, y, z), 0, 2, 0, 2)| ==
      Cut(f, (x, y, z), (x, y, z + 1)) + Cut(f, (x, y + 1, z), (x, y + 1, z + 1)) +
      Cut(f, (x + 1, y, z), (x + 1, y, z + 1)) + Cut(f, (x + 1, y + 1, z), (x + 1, y + 1, z + 1))
  {
    Grid2SquareLength(ZCrossings(f, x, y, z));
    EdgeCount(f, (x, y, z), (x, y, z + 1), 2);
    EdgeCount(f, (x, y + 1, z), (x, y + 1, z + 1), 2);
    EdgeCount(f, (x + 1, y, z), (x + 1, y, z + 1), 2);
    EdgeCount(f, (x + 1, y + 1, z), (x + 1, y + 1, z + 1), 2);
  }

  lemma YGroupCount(f: Field3, x: int, y: int, z: int)
    ensures |Grid2(YCrossings(f, x, y, z), 0, 2, 0, 2)| ==
      Cut(f, (x, y, z), (x, y + 1, z)) + Cut(f, (x, y, z + 1), (x, y + 1, z + 1)) +
      Cut(f, (x + 1, y, z), (x + 1, y + 1, z)) + Cut(f, (x + 1, y, z + 1), (x + 1, y + 1, z + 1))
  {
    Grid2SquareLength(YCrossings(f, x, y, z));
    EdgeCount(f, (x, y, z), (x, y + 1, z), 1);
    EdgeCount(f, (x, y, z + 1), (x, y + 1, z + 1), 1);
    EdgeCount(f, (x + 1, y, z), (x + 1, y + 1, z), 1);
    EdgeCount(f, (x + 1, y, z + 1), (x + 1, y + 1, z + 1), 1);
  }

  lemma XGroupCount(f: Field3, x: int, y: int, z: int)
    ensures |Grid2(XCrossings(f, x, y, z), 0, 2, 0, 2)| ==
      Cut(f, (x, y, z), (x + 1, y, z)) + Cut(f, (x, y, z + 1), (x + 1, y, z + 1)) +
      Cut(f, (x, y + 1, z), (x + 1, y + 1, z)) + Cut(f, (x, y + 1, z + 1), (x + 1, y + 1, z + 1))
  {
    Grid2SquareLength(XCrossings(f, x, y, z));
    EdgeCount(f, (x, y, z), (x + 1, y, z), 0);
    EdgeCount(f, (x, y, z + 1), (x + 1, y, z + 1), 0);
    EdgeCount(f, (x, y + 1, z), (x + 1, y + 1, z), 0);
    EdgeCount(f, (x, y + 1, z + 1), (x + 1, y + 1, z + 1), 0);
  }

  /**
   * A cube has twelve edges; there are no crossings exactly when all corners
   * agree; and a cube whose corners disagree is cut on at least two edges.
   */
  lemma CrossingsCount(f: Field3, x: int, y: int, z: int)
    ensures var r := Crossings3d(f, x, y, z);
      && |r| <= 12
      && (|r| == 0 <==> !SignChange3(f, x, y, z))
      && |r| != 1
  {
    ZGroupCount(f, x, y, z);
    YGroupCount(f, x, y, z);
    XGroupCount(f, x, y, z);
    var s000, s001, s010, s011 := Solid3(f, (x, y, z)), Solid3(f, (x, y, z + 1)), Solid3(f, (x, y + 1, z)), Solid3(f, (x, y + 1, z + 1));
    var s100, s101, s110, s111 := Solid3(f, (x + 1, y, z)), Solid3(f, (x + 1, y, z + 1)), Solid3(f, (x + 1, y + 1, z)), Solid3(f, (x + 1, y + 1, z + 1));
    assert |Crossings3d(f, x, y, z)| == CutEdges(s000, s001, s010, s011, s100, s101, s110, s111);
    CutEdgesCube(s000, s001, s010, s011, s100, s101, s110, s111);
  }

  /**
   * The crossing on an edge of the cell at (x, y, z) from the corner at
   * offset (dx, dy, dz) along `axis` lies on that edge.
   */
  lemma EdgePoint(f: Field3, x: int, y: int, z: int, dx: int, dy: int, dz: int, axis: nat)
    requires 0 <= dx < 2 && 0 <= dy < 2 && 0 <= dz < 2 && axis < 3
    requires axis == 0 ==> dx == 0
    requires axis == 1 ==> dy == 0
    requires axis == 2 ==> dz == 0
    ensures var p := (x + dx, y + dy, z + dz);
      var q := (p.0 + (if axis == 0 then 1 else 0), p.1 + (if axis == 1 then 1 else 0), p.2 + (if axis == 2 then 1 else 0));
      forall v :: v in EdgeCrossing(f, p, q, axis) ==> OnCellEdge3(v, x, y, z)
  {
  }

  /** Every crossing on a z-directed edge lies on an edge of the cell. */
  lemma ZGroupOnEdges(f: Field3, x: int, y: int, z: int)
    ensures forall v :: v in Grid2(ZCrossings(f, x, y, z), 0, 2, 0, 2) ==> OnCellEdge3(v, x, y, z)
  {
    var g := ZCrossings(f, x, y, z);
    forall v | v in Grid2(g, 0, 2, 0, 2) ensures OnCellEdge3(v, x, y, z) {
      Grid2SquareMember(g, v);
      if v in g(0, 0) {
        EdgePoint(f, x, y, z, 0, 0, 0, 2);
      } else if v in g(0, 1) {
        EdgePoint(f, x, y, z, 0, 1, 0, 2);
      } else if v in g(1, 0) {
        EdgePoint(f, x, y, z, 1, 0, 0, 2);
      } else {
        EdgePoint(f, x, y, z, 1, 1, 0, 2);
      }
    }
  }

  lemma YGroupOnEdges(f: Field3, x: int, y: int, z: int)
    ensures forall v :: v in Grid2(YCrossings(f, x, y, z), 0, 2, 0, 2) ==> OnCellEdge3(v, x, y, z)
  {
    var g := YCrossings(f, x, y, z);
    forall v | v in Grid2(g, 0, 2, 0, 2) ensures OnCellEdge3(v, x, y, z) {
      Grid2SquareMember(g, v);
      if v in g(0, 0) {
        EdgePoint(f, x, y, z, 0, 0, 0, 1);
      } else if v in g(0, 1) {
        EdgePoint(f, x, y, z, 0, 0, 1, 1);
      } else if v in g(1, 0) {
        EdgePoint(f, x, y, z, 1, 0, 0, 1);
      } else {
        EdgePoint(f, x, y, z, 1, 0, 1, 1);
      }
    }
  }

  lemma XGroupOnEdges(f: Field3, x: int, y: int, z: int)
    ensures forall v :: v in Grid2(XCrossings(f, x, y, z), 0, 2, 0, 2) ==> OnCellEdge3(v, x, y, z)
  {
    var g := XCrossings(f, x, y, z);
    forall v | v in Grid2(g, 0, 2, 0, 2) ensures OnCellEdge3(v, x, y, z) {
      Grid2SquareMember(g, v);
      if v in g(0, 0) {
        EdgePoint(f, x, y, z, 0, 0, 0, 0);
      } else if v in g(0, 1) {
        EdgePoint(f, x, y, z, 0, 0, 1, 0);
      } else if v in g(1, 0) {
        EdgePoint(f, x, y, z, 0, 1, 0, 0);
      } else {
        EdgePoint(f, x, y, z, 0, 1, 1, 0);
      }
    }
  }

  /** Every crossing lies on an edge of its cell. */
  lemma CrossingsOnEdges(f: Field3, x: int, y: int, z: int)
    ensures forall p :: p in Crossings3d(f, x, y, z) ==> OnCellEdge3(p, x, y, z)
  {
    ZGroupOnEdges(f, x, y, z);
    YGroupOnEdges(f, x, y, z);
    XGroupOnEdges(f, x, y, z);
  }

  /** The points as three-element lists. */
  function Positions3(ps: seq<V3>): (r: seq<seq<real>>)
    ensures |r| == |ps| && PointsOf(r, 3)
  {
    seq(|ps|, i requires 0 <= i < |ps| => [ps[i].x, ps[i].y, ps[i].z])
  }

  /** The normal of the field at each point, as a three-element list. */
  function Normals3(fNormal: Normal3, ps: seq<V3>): (r: seq<seq<real>>)
    ensures |r| == |ps| && PointsOf(r, 3)
  {
    seq(|ps|, i requires 0 <= i < |ps| =>
      [fNormal(ps[i].x, ps[i].y, ps[i].z).x, fNormal(ps[i].x, ps[i].y, ps[i].z).y, fNormal(ps[i].x, ps[i].y, ps[i].z).z])
  }

  /** The QEF of the tangent planes at the crossings of the cell at (x, y, z). */
  function CellQef(f: Field3, fNormal: Normal3, x: int, y: int, z: int): (q: Qef)
    requires |Crossings3d(f, x, y, z)| > 0
    ensures Valid(q) && q.a.cols == 3
  {
    var changes := Crossings3d(f, x, y, z);
    Make3d(Positions3(changes), Normals3(fNormal, changes))
  }

  /**
   * Each error term of a cell's QEF at a point `p` is `n·(p − c)` for one
   * crossing `c` and the normal `n` there: how far `p` lies off that tangent
   * plane, scaled by the length of `n`.
   */
  lemma CellQefMeasuresPlanes(f: Field3, fNormal: Normal3, x: int, y: int, z: int, p: V3, i: nat)
    requires i < |Crossings3d(f, x, y, z)|
    ensures var c := Crossings3d(f, x, y, z)[i];
      var n := fNormal(c.x, c.y, c.z);
      Residuals(CellQef(f, fNormal, x, y, z), [p.x, p.y, p.z])[i] == n.x * (p.x - c.x) + n.y * (p.y - c.y) + n.z * (p.z - c.z)
  {
    var changes := Crossings3d(f, x, y, z);
    Make3dMeasuresPlanes(Positions3(changes), Normals3(fNormal, changes), [p.x, p.y, p.z], i);
  }

  /** The raw least-squares solution of the QEF of the crossings, as a point. */
  function QefSolution3d(changes: seq<V3>, fNormal: Normal3, lstsq: Lstsq): V3
    requires |changes| > 0
  {
    var q := Make3d(Positions3(changes), Normals3(fNormal, changes));
    var solution := lstsq(q.a, q.b).solution;
    V3(solution[0], solution[1], solution[2])
  }

  /**
   * The vertex of the cell at (x, y, z): its centre when adaptivity is off,
   * nothing when fewer than two edges change sign, and otherwise the raw
   * least-squares solution of the cell's QEF (no bias, no clipping).
   */
  function BestVertex3d(f: Field3, fNormal: Normal3, x: int, y: int, z: int, adaptive: bool, lstsq: Lstsq): Option<V3> {
    if !adaptive then Some(V3(x as real + 0.5, y as real + 0.5, z as real + 0.5))
    else
      var changes := Crossings3d(f, x, y, z);
      if |changes| <= 1 then None else Some(QefSolution3d(changes, fNormal, lstsq))
  }

  /**
   * With adaptivity off every cell gets its centre; with it on, exactly the
   * cells whose corners disagree get a vertex, and that vertex is the
   * least-squares solution of the cell's QEF.
   */
  lemma BestVertex3dCases(f: Field3, fNormal: Normal3, x: int, y: int, z: int, adaptive: bool, lstsq: Lstsq)
    ensures var r := BestVertex3d(f, fNormal, x, y, z, adaptive, lstsq);
      && (!adaptive ==> r == Some(V3(x as real + 0.5, y as real + 0.5, z as real + 0.5)))
      && (adaptive ==> (r.Some? <==> SignChange3(f, x, y, z)))
      && (adaptive && r.Some? ==>
            |Crossings3d(f, x, y, z)| >= 2 &&
            var q := CellQef(f, fNormal, x, y, z);
            [r.value.x, r.value.y, r.value.z] == lstsq(q.a, q.b).solution)
  {
    CrossingsCount(f, x, y, z);
  }

  /** `v` holds the field at the eight corners of the cell at (x, y, z). */
  ghost predicate Samples(v: array3<real>, f: Field3, x: int, y: int, z: int)
    reads v
  {
    v.Length0 == 2 && v.Length1 == 2 && v.Length2 == 2 &&
    forall dx, dy, dz :: 0 <= dx < 2 && 0 <= dy < 2 && 0 <= dz < 2 ==> v[dx, dy, dz] == At3(f, (x + dx, y + dy, z + dz))
  }

  /** The corner samples of dual_contour_3d_find_best_vertex. */
  method CornerSamples(f: Field3, x: int, y: int, z: int) returns (v: array3<real>)
    ensures fresh(v) && Samples(v, f, x, y, z)
  {
    v := new real[2, 2, 2];
    for dx := 0 to 2
      invariant forall i, j, k :: 0 <= i < dx && 0 <= j < 2 && 0 <= k < 2 ==> v[i, j, k] == At3(f, (x + i, y + j, z + k))
    {
      for dy := 0 to 2
        invariant forall i, j, k :: 0 <= i < dx && 0 <= j < 2 && 0 <= k < 2 ==> v[i, j, k] == At3(f, (x + i, y + j, z + k))
        invariant forall j, k :: 0 <= j < dy && 0 <= k < 2 ==> v[dx, j, k] == At3(f, (x + dx, y + j, z + k))
      {
        for dz := 0 to 2
          invariant forall i, j, k :: 0 <= i < dx && 0 <= j < 2 && 0 <= k < 2 ==> v[i, j, k] == At3(f, (x + i, y + j, z + k))
          invariant forall j, k :: 0 <= j < dy && 0 <= k < 2 ==> v[dx, j, k] == At3(f, (x + dx, y + j, z + k))
          invariant forall k :: 0 <= k < dz ==> v[dx, dy, k] == At3(f, (x + dx, y + dy, z + k))
        {
          v[dx, dy, dz] := f((x + dx) as real, (y + dy) as real, (z + dz) as real);
        }
      }
    }
  }

  /** The loop over the z-directed edges, appending each crossing found to `changes`. */
  method ZChanges(v: array3<real>, ghost f: Field3, x: int, y: int, z: int, changes: seq<V3>) returns (r: seq<V3>)
    requires Samples(v, f, x, y, z)
    ensures r == changes + Grid2(ZCrossings(f, x, y, z), 0, 2, 0, 2)
  {
    ghost var g := ZCrossings(f, x, y, z);
    r := changes;
    for dx := 0 to 2
      invariant r == changes + Grid2(g, 0, dx, 0, 2)
    {
      for dy := 0 to 2
        invariant r == changes + Grid2(g, 0, dx, 0, 2) + Row(g, dx, 0, dy)
      {
        assert g(dx, dy) == EdgeCrossing(f, (x + dx, y + dy, z), (x + dx, y + dy, z + 1), 2);
        assert v[dx, dy, 0] == At3(f, (x + dx, y + dy, z)) && v[dx, dy, 1] == At3(f, (x + dx, y + dy, z + 1));
        if (v[dx, dy, 0] > 0.0) != (v[dx, dy, 1] > 0.0) {
          r := r + [V3((x + dx) as real, (y + dy) as real, z as real + Adapt(v[dx, dy, 0], v[dx, dy, 1], true).value)];
        }
        RowStep(g, dx, 0, dy);
      }
      Grid2Step(g, 0, dx, 0, 2);
    }
  }

  /** The loop over the y-directed edges. */
  method YChanges(v: array3<real>, ghost f: Field3, x: int, y: int, z: int, changes: seq<V3>) returns (r: seq<V3>)
    requires Samples(v, f, x, y, z)
    ensures r == changes + Grid2(YCrossings(f, x, y, z), 0, 2, 0, 2)
  {
    ghost var g := YCrossings(f, x, y, z);
    r := changes;
    for dx := 0 to 2
      invariant r == changes + Grid2(g, 0, dx, 0, 2)
    {
      for dz := 0 to 2
        invariant r == changes + Grid2(g, 0, dx, 0, 2) + Row(g, dx, 0, dz)
      {
        assert g(dx, dz) == EdgeCrossing(f, (x + dx, y, z + dz), (x + dx, y + 1, z + dz), 1);
        assert v[dx, 0, dz] == At3(f, (x + dx, y, z + dz)) && v[dx, 1, dz] == At3(f, (x + dx, y + 1, z + dz));
        if (v[dx, 0, dz] > 0.0) != (v[dx, 1, dz] > 0.0) {
          r := r + [V3((x + dx) as real, y as real + Adapt(v[dx, 0, dz], v[dx, 1, dz], true).value, (z + dz) as real)];
        }
        RowStep(g, dx, 0, dz);
      }
      Grid2Step(g, 0, dx, 0, 2);
    }
  }

  /** The loop over the x-directed edges. */
  method XChanges(v: array3<real>, ghost f: Field3, x: int, y: int, z: int, changes: seq<V3>) returns (r: seq<V3>)
    requires Samples(v, f, x, y, z)
    ensures r == changes + Grid2(XCrossings(f, x, y, z), 0, 2, 0, 2)
  {
    ghost var g := XCrossings(f, x, y, z);
    r := changes;
    for dy := 0 to 2
      invariant r == changes + Grid2(g, 0, dy, 0, 2)
    {
      for dz := 0 to 2
        invariant r == changes + Grid2(g, 0, dy, 0, 2) + Row(g, dy, 0, dz)
      {
        assert g(dy, dz) == EdgeCrossing(f, (x, y + dy, z + dz), (x + 1, y + dy, z + dz), 0);
        assert v[0, dy, dz] == At3(f, (x, y + dy, z + dz)) && v[1, dy, dz] == At3(f, (x + 1, y + dy, z + dz));
        if (v[0, dy, dz] > 0.0) != (v[1, dy, dz] > 0.0) {
          r := r + [V3(x as real + Adapt(v[0, dy, dz], v[1, dy, dz], true).value, (y + dy) as real, (z + dz) as real)];
        }
        RowStep(g, dy, 0, dz);
      }
      Grid2Step(g, 0, dy, 0, 2);
    }
  }

  /** The three edge loops of dual_contour_3d_find_best_vertex. */
  method SignChanges3d(v: array3<real>, ghost f: Field3, x: int, y: int, z: int) returns (changes: seq<V3>)
    requires Samples(v, f, x, y, z)
    ensures changes == Crossings3d(f, x, y, z)
  {
    changes := ZChanges(v, f, x, y, z, []);
    changes := YChanges(v, f, x, y, z, changes);
    changes := XChanges(v, f, x, y, z, changes);
  }

  /** The normals loop of dual_contour_3d_find_best_vertex. */
  method NormalsAt3(fNormal: Normal3, changes: seq<V3>) returns (normals: seq<seq<real>>)
    ensures normals == Normals3(fNormal, changes)
  {
    normals := [];
    for i := 0 to |changes|
      invariant |normals| == i
      invariant forall j :: 0 <= j < i ==> normals[j] == Normals3(fNormal, changes)[j]
    {
      var n := fNormal(changes[i].x, changes[i].y, changes[i].z);
      normals := normals + [[n.x, n.y, n.z]];
    }
  }

  /** dual_contour_3d_find_best_vertex, step by step. */
  method FindBestVertex3d(f: Field3, fNormal: Normal3, x: int, y: int, z: int, adaptive: bool, lstsq: Lstsq)
    returns (r: Option<V3>)
    ensures r == BestVertex3d(f, fNormal, x, y, z, adaptive, lstsq)
  {
    if !adaptive {
      return Some(V3(x as real + 0.5, y as real + 0.5, z as real + 0.5));
    }
    var v := CornerSamples(f, x, y, z);
    var changes := SignChanges3d(v, f, x, y, z);
    if |changes| <= 1 {
      return None;
    }
    var normals := NormalsAt3(fNormal, changes);
    var q := Make3d(Positions3(changes), normals);
    var result := lstsq(q.a, q.b);
    r := Some(V3(result.solution[0], result.solution[1], result.solution[2]));
  }
}
