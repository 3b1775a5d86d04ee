/**
 * The two passes of dual_contour_3d (dual_contour_3d.py) over a box of cells:
 * one vertex per cell that has one, then one quadrilateral per sign-changing
 * grid edge, joining the vertices of the four cells around it.
 */
module DualContour3dMesh {
  import opened Wrappers
  import opened Grid
  import opened Utils3d
  import opened Qef
  import opened DualContour3d

  // ---------------------------------------------------------------------
  // The vertex pass
  // ---------------------------------------------------------------------

  /** The surface being meshed: the field, its normals and how vertices are placed. */
  datatype Surface = Surface(f: Field3, fNormal: Normal3, adaptive: bool, lstsq: Lstsq) {
    function Vertex(c: Cell3): Option<V3> {
      BestVertex3d(f, fNormal, c.0, c.1, c.2, adaptive, lstsq)
    }
  }

  /** The half-open box of cells [xmin, xmax) x [ymin, ymax) x [zmin, zmax). */
  datatype Box3 = Box3(xmin: int, xmax: int, ymin: int, ymax: int, zmin: int, zmax: int) {
    predicate Contains(c: Cell3) {
      InBox3(c, xmin, xmax, ymin, ymax, zmin, zmax)
    }

    /** Where a loop `for x in range(xmin, xmax)` leaves off; likewise for y and z. */
    function XEnd(): int { End(xmin, xmax) }
    function YEnd(): int { End(ymin, ymax) }
    function ZEnd(): int { End(zmin, zmax) }
  }

  /** What the vertex pass keeps for one cell: its vertex, if it has one. */
  function CellVerts(sf: Surface, c: Cell3): seq<V3> {
    match sf.Vertex(c) case Some(v) => [v] case None => []
  }

  function CellVertex(sf: Surface): (int, int, int) -> seq<V3> {
    (x: int, y: int, z: int) => CellVerts(sf, (x, y, z))
  }

  /** The vertex list of the mesh: the vertices of the cells of the box, in loop order. */
  function Verts3d(sf: Surface, b: Box3): seq<V3> {
    Grid3(CellVertex(sf), b.xmin, b.xmax, b.ymin, b.ymax, b.zmin, b.zmax)
  }

  /** The cell has a vertex in the mesh. */
  predicate HasVertex(sf: Surface, b: Box3, c: Cell3) {
    b.Contains(c) && sf.Vertex(c).Some?
  }

  /**
   * `idx` maps cells to distinct 1-based positions in `verts`, and the vertex
   * there is the cell's own.
   */
  ghost predicate Indexes(sf: Surface, verts: seq<V3>, idx: map<Cell3, int>) {
    (forall c :: c in idx ==> 1 <= idx[c] <= |verts| && sf.Vertex(c).Some? && verts[idx[c] - 1] == sf.Vertex(c).value) &&
    (forall c, d :: c in idx && d in idx && c != d ==> idx[c] != idx[d])
  }

  /** The cell of the box comes before (x, y, z) in loop order. */
  predicate Visited(b: Box3, c: Cell3, x: int, y: int, z: int) {
    b.Contains(c) && (c.0 < x || (c.0 == x && (c.1 < y || (c.1 == y && c.2 < z))))
  }

  /** The keys of `idx` are the cells before (x, y, z) in loop order that have a vertex. */
  ghost predicate KeysUpto(sf: Surface, b: Box3, idx: map<Cell3, int>, x: int, y: int, z: int) {
    forall c :: c in idx <==> Visited(b, c, x, y, z) && sf.Vertex(c).Some?
  }

  /** Indexing the cell (x, y, z), which has a vertex, moves the keys one cell on. */
  lemma KeysAdd(sf: Surface, b: Box3, idx: map<Cell3, int>, x: int, y: int, z: int, n: int)
    requires b.xmin <= x < b.xmax && b.ymin <= y < b.ymax && b.zmin <= z < b.zmax
    requires KeysUpto(sf, b, idx, x, y, z) && sf.Vertex((x, y, z)).Some?
    ensures (x, y, z) !in idx && KeysUpto(sf, b, idx[(x, y, z) := n], x, y, z + 1)
  {
  }

  /** Passing over the cell (x, y, z), which has no vertex, moves the keys one cell on. */
  lemma KeysSkip(sf: Surface, b: Box3, idx: map<Cell3, int>, x: int, y: int, z: int)
    requires b.xmin <= x < b.xmax && b.ymin <= y < b.ymax && b.zmin <= z < b.zmax
    requires KeysUpto(sf, b, idx, x, y, z) && sf.Vertex((x, y, z)).None?
    ensures KeysUpto(sf, b, idx, x, y, z + 1)
  {
  }

  /** The end of a row is the start of the next one. */
  lemma KeysNextRow(sf: Surface, b: Box3, idx: map<Cell3, int>, x: int, y: int, z: int)
    requires z == b.zmax || (z == b.zmin && b.zmax <= b.zmin)
    requires KeysUpto(sf, b, idx, x, y, z)
    ensures KeysUpto(sf, b, idx, x, y + 1, b.zmin)
  {
  }

  /** The end of a plane is the start of the next one. */
  lemma KeysNextPlane(sf: Surface, b: Box3, idx: map<Cell3, int>, x: int, y: int)
    requires y == b.ymax || (y == b.ymin && b.ymax <= b.ymin)
    requires KeysUpto(sf, b, idx, x, y, b.zmin)
    ensures KeysUpto(sf, b, idx, x + 1, b.ymin, b.zmin)
  {
  }

  /** Before the first cell there are no keys; after the last plane, every cell with a vertex. */
  lemma KeysEnds(sf: Surface, b: Box3, idx: map<Cell3, int>, x: int)
    ensures idx == map[] ==> KeysUpto(sf, b, idx, b.xmin, b.ymin, b.zmin)
    ensures (x == b.xmax || (x == b.xmin && b.xmax <= b.xmin)) && KeysUpto(sf, b, idx, x, b.ymin, b.zmin) ==>
      forall c :: c in idx <==> HasVertex(sf, b, c)
  {
  }

  /** Appending the vertex of a cell not yet indexed keeps the index faithful. */
  lemma IndexesExtend(sf: Surface, verts: seq<V3>, idx: map<Cell3, int>, c: Cell3)
    requires Indexes(sf, verts, idx) && c !in idx && sf.Vertex(c).Some?
    ensures Indexes(sf, verts + [sf.Vertex(c).value], idx[c := |verts| + 1])
  {
  }

  /** The vertices of the cells of the box before the cell (x, y, z), in loop order. */
  function VertsUpto(sf: Surface, b: Box3, x: int, y: int, z: int): seq<V3>
    requires b.xmin <= x && b.ymin <= y <= b.YEnd() && b.zmin <= z <= b.ZEnd()
  {
    Prefix3(CellVertex(sf), b.xmin, b.ymin, b.ymax, b.zmin, b.zmax, x, y, z)
  }

  /** Visiting the cell (x, y, z) appends what it contributes. */
  lemma VertsStep(sf: Surface, b: Box3, x: int, y: int, z: int)
    requires b.xmin <= x && b.ymin <= y <= b.YEnd() && b.zmin <= z < b.ZEnd()
    ensures VertsUpto(sf, b, x, y, z + 1) == VertsUpto(sf, b, x, y, z) + CellVerts(sf, (x, y, z))
  {
  }

  /**
   * The state of the vertex pass before the cell (x, y, z): the vertices of
   * the cells visited so far, in loop order, and an index of those cells.
   */
  ghost predicate Pass(sf: Surface, b: Box3, verts: seq<V3>, idx: map<Cell3, int>, x: int, y: int, z: int) {
    && b.xmin <= x <= b.XEnd() && b.ymin <= y <= b.YEnd() && b.zmin <= z <= b.ZEnd()
    && verts == VertsUpto(sf, b, x, y, z) && Indexes(sf, verts, idx) && KeysUpto(sf, b, idx, x, y, z)
  }

  /** Visiting the cell (x, y, z) appends its vertex and indexes it, if it has one. */
  lemma PassCell(sf: Surface, b: Box3, verts: seq<V3>, idx: map<Cell3, int>, x: int, y: int, z: int)
    requires x < b.xmax && y < b.ymax && z < b.zmax
    requires Pass(sf, b, verts, idx, x, y, z)
    ensures sf.Vertex((x, y, z)).Some? ==>
      Pass(sf, b, verts + [sf.Vertex((x, y, z)).value], idx[(x, y, z) := |verts| + 1], x, y, z + 1)
    ensures sf.Vertex((x, y, z)).None? ==> Pass(sf, b, verts, idx, x, y, z + 1)
  {
    VertsStep(sf, b, x, y, z);
    if sf.Vertex((x, y, z)).Some? {
      KeysAdd(sf, b, idx, x, y, z, |verts| + 1);
      IndexesExtend(sf, verts, idx, (x, y, z));
    } else {
      KeysSkip(sf, b, idx, x, y, z);
    }
  }

  /** The end of a row is the start of the next one. */
  lemma PassNextRow(sf: Surface, b: Box3, verts: seq<V3>, idx: map<Cell3, int>, x: int, y: int)
    requires y < b.ymax
    requires Pass(sf, b, verts, idx, x, y, b.ZEnd())
    ensures Pass(sf, b, verts, idx, x, y + 1, b.zmin)
  {
    KeysNextRow(sf, b, idx, x, y, b.ZEnd());
  }

  /** The end of a plane is the start of the next one. */
  lemma PassNextPlane(sf: Surface, b: Box3, verts: seq<V3>, idx: map<Cell3, int>, x: int)
    requires x < b.xmax
    requires Pass(sf, b, verts, idx, x, b.YEnd(), b.zmin)
    ensures Pass(sf, b, verts, idx, x + 1, b.ymin, b.zmin)
  {
    KeysNextPlane(sf, b, idx, x, b.YEnd());
  }

  /** The pass starts with nothing collected. */
  lemma PassStart(sf: Surface, b: Box3)
    ensures Pass(sf, b, [], map[], b.xmin, b.ymin, b.zmin)
  {
    KeysEnds(sf, b, map[], b.xmin);
  }

  /** After the last plane the pass holds every vertex of the box, each indexed. */
  lemma PassEnd(sf: Surface, b: Box3, verts: seq<V3>, idx: map<Cell3, int>)
    requires Pass(sf, b, verts, idx, b.XEnd(), b.ymin, b.zmin)
    ensures verts == Verts3d(sf, b) && Indexes(sf, verts, idx) && forall c :: c in idx <==> HasVertex(sf, b, c)
  {
    Prefix3Whole(CellVertex(sf), b.xmin, b.xmax, b.ymin, b.ymax, b.zmin, b.zmax);
    KeysEnds(sf, b, idx, b.XEnd());
  }

  /** One pass of the innermost loop of the vertex pass: the cell (x, y, z). */
  method VertexCell(sf: Surface, b: Box3, x: int, y: int, z: int, verts: seq<V3>, idx: map<Cell3, int>)
    returns (verts': seq<V3>, idx': map<Cell3, int>)
    requires x < b.xmax && y < b.ymax && z < b.zmax
    requires Pass(sf, b, verts, idx, x, y, z)
    ensures Pass(sf, b, verts', idx', x, y, z + 1)
  {
    var vert := FindBestVertex3d(sf.f, sf.fNormal, x, y, z, sf.adaptive, sf.lstsq);
    assert vert == sf.Vertex((x, y, z));
    PassCell(sf, b, verts, idx, x, y, z);
    if vert.Some? {
      verts' := verts + [vert.value];
      idx' := idx[(x, y, z) := |verts'|];
    } else {
      verts', idx' := verts, idx;
    }
  }

  /** The innermost loop of the vertex pass, over one row of cells. */
  method VertexRow(sf: Surface, b: Box3, x: int, y: int, verts: seq<V3>, idx: map<Cell3, int>)
    returns (verts': seq<V3>, idx': map<Cell3, int>)
    requires x < b.xmax && y < b.ymax
    requires Pass(sf, b, verts, idx, x, y, b.zmin)
    ensures Pass(sf, b, verts', idx', x, y + 1, b.zmin)
  {
    verts', idx' := verts, idx;
    var z := b.zmin;
    while z < b.zmax
      invariant Pass(sf, b, verts', idx', x, y, z)
    {
      verts', idx' := VertexCell(sf, b, x, y, z, verts', idx');
      z := z + 1;
    }
    assert z == b.ZEnd();
    PassNextRow(sf, b, verts', idx', x, y);
  }

  /** The middle loop of the vertex pass, over one plane of cells. */
  method VertexPlane(sf: Surface, b: Box3, x: int, verts: seq<V3>, idx: map<Cell3, int>)
    returns (verts': seq<V3>, idx': map<Cell3, int>)
    requires x < b.xmax
    requires Pass(sf, b, verts, idx, x, b.ymin, b.zmin)
    ensures Pass(sf, b, verts', idx', x + 1, b.ymin, b.zmin)
  {
    verts', idx' := verts, idx;
    var y := b.ymin;
    while y < b.ymax
      invariant Pass(sf, b, verts', idx', x, y, b.zmin)
    {
      verts', idx' := VertexRow(sf, b, x, y, verts', idx');
      y := y + 1;
    }
    assert y == b.YEnd();
    PassNextPlane(sf, b, verts', idx', x);
  }

  /**
   * The first loop of dual_contour_3d: the vertices of the cells that have
   * one, in loop order, and the 1-based position of each cell's vertex.
   */
  method VertexPass3d(sf: Surface, b: Box3) returns (verts: seq<V3>, idx: map<Cell3, int>)
    ensures verts == Verts3d(sf, b)
    ensures Indexes(sf, verts, idx)
    ensures forall c :: c in idx <==> HasVertex(sf, b, c)
  {
    verts, idx := [], map[];
    PassStart(sf, b);
    var x := b.xmin;
    while x < b.xmax
      invariant Pass(sf, b, verts, idx, x, b.ymin, b.zmin)
    {
      verts, idx := VertexPlane(sf, b, x, verts, idx);
      x := x + 1;
    }
    assert x == b.XEnd();
    PassEnd(sf, b, verts, idx);
  }
}
