/**
 * 2D dual contouring (dual_contour_2d.py): one vertex per cell that the
 * boundary of `f` crosses, placed by the QEF solver, and one boundary segment
 * per grid side whose two ends lie on opposite sides of the boundary, joining
 * the vertices of the two cells that share that side.
 */
module DualContour2d {
  import opened Wrappers
  import opened Settings
  import opened Utils2d
  import opened Common
  import opened Grid
  import opened Qef

  /** A scalar field: positive inside the solid. */
  type Field2 = (real, real) -> real

  /** The gradient direction of a field. */
  type Normal2 = (real, real) -> V2

  /** A cell, named by its lower-left grid point; also a grid point. */
  type Cell = (int, int)

  /** The field sampled at a grid point. */
  function At(f: Field2, p: Cell): real {
    f(p.0 as real, p.1 as real)
  }

  predicate Solid(f: Field2, p: Cell) {
    At(f, p) > 0.0
  }

  /** Some side of the cell at (x, y) has one solid and one empty end. */
  predicate SignChange(f: Field2, x: int, y: int) {
    OppositeSigns(At(f, (x, y)), At(f, (x, y + 1))) || OppositeSigns(At(f, (x + 1, y)), At(f, (x + 1, y + 1))) ||
    OppositeSigns(At(f, (x, y)), At(f, (x + 1, y))) || OppositeSigns(At(f, (x, y + 1)), At(f, (x + 1, y + 1)))
  }

  predicate InBox(c: Cell, xmin: int, xmax: int, ymin: int, ymax: int) {
    xmin <= c.0 < xmax && ymin <= c.1 < ymax
  }

  // ---------------------------------------------------------------------
  // Placing one vertex
  // ---------------------------------------------------------------------

  /**
   * The sign-change points of the cell at (x, y) from its corner samples
   * (`v01` is the sample at (x, y + 1)), in the order left, right, bottom, top.
   */
  function Crossings2d(x: int, y: int, v00: real, v01: real, v10: real, v11: real, adaptive: bool): (r: seq<seq<real>>)
    ensures |r| <= 4 && |r| % 2 == 0
    ensures |r| == 0 <==> !(OppositeSigns(v00, v01) || OppositeSigns(v10, v11) || OppositeSigns(v00, v10) || OppositeSigns(v01, v11))
    ensures forall i :: 0 <= i < |r| ==> |r[i]| == 2 && OnCellBoundary2(V2(r[i][0], r[i][1]), x, y)
  {
    var xr, yr := x as real, y as real;
    var left := if OppositeSigns(v00, v01) then [[xr + 0.0, yr + Adapt(v00, v01, adaptive).value]] else [];
    var right := if OppositeSigns(v10, v11) then [[xr + 1.0, yr + Adapt(v10, v11, adaptive).value]] else [];
    var bottom := if OppositeSigns(v00, v10) then [[xr + Adapt(v00, v10, adaptive).value, yr + 0.0]] else [];
    var top := if OppositeSigns(v01, v11) then [[xr + Adapt(v01, v11, adaptive).value, yr + 1.0]] else [];
    left + right + bottom + top
  }

  /** The normal of the field at each point, as a two-element list. */
  function NormalsAt(fNormal: Normal2, ps: seq<seq<real>>): (r: seq<seq<real>>)
    requires PointsOf(ps, 2)
    ensures |r| == |ps| && PointsOf(r, 2)
  {
    seq(|ps|, i requires 0 <= i < |ps| => [fNormal(ps[i][0], ps[i][1]).x, fNormal(ps[i][0], ps[i][1]).y])
  }

  /**
   * The vertex of the cell at (x, y): its centre when adaptivity is off,
   * nothing when fewer than two sides change sign, and otherwise the QEF
   * solution over the sign-change points and the normals there.
   */
  function BestVertex2d(f: Field2, fNormal: Normal2, x: int, y: int, s: Settings, lstsq: Lstsq): (r: Option<V2>)
    ensures !s.adaptive ==> r == Some(V2(x as real + 0.5, y as real + 0.5))
    ensures s.adaptive ==> (r.Some? <==> SignChange(f, x, y))
    ensures r.Some? && (s.boundary || s.clip || !s.adaptive) ==> InCell2(r.value, x, y)
  {
    if !s.adaptive then Some(V2(x as real + 0.5, y as real + 0.5))
    else
      var changes := Crossings2d(x, y, f(x as real + 0.0, y as real + 0.0), f(x as real + 0.0, y as real + 1.0),
                                 f(x as real + 1.0, y as real + 0.0), f(x as real + 1.0, y as real + 1.0), s.adaptive);
      if |changes| <= 1 then None
      else Some(QefVertex2d(x, y, changes, NormalsAt(fNormal, changes), s, lstsq))
  }

  /** The four sign tests of dual_contour_2d_find_best_vertex, appending each crossing found. */
  method SignChanges2d(x: int, y: int, x0y0: real, x0y1: real, x1y0: real, x1y1: real, adaptive: bool)
    returns (changes: seq<seq<real>>)
    ensures changes == Crossings2d(x, y, x0y0, x0y1, x1y0, x1y1, adaptive)
  {
    var xr, yr := x as real, y as real;
    ghost var left := if OppositeSigns(x0y0, x0y1) then [[xr + 0.0, yr + Adapt(x0y0, x0y1, adaptive).value]] else [];
    ghost var right := if OppositeSigns(x1y0, x1y1) then [[xr + 1.0, yr + Adapt(x1y0, x1y1, adaptive).value]] else [];
    ghost var bottom := if OppositeSigns(x0y0, x1y0) then [[xr + Adapt(x0y0, x1y0, adaptive).value, yr + 0.0]] else [];
    ghost var top := if OppositeSigns(x0y1, x1y1) then [[xr + Adapt(x0y1, x1y1, adaptive).value, yr + 1.0]] else [];
    changes := [];
    if OppositeSigns(x0y0, x0y1) {
      changes := changes + [[x as real + 0.0, y as real + Adapt(x0y0, x0y1, adaptive).value]];
    }
    assert changes == left;
    if OppositeSigns(x1y0, x1y1) {
      changes := changes + [[x as real + 1.0, y as real + Adapt(x1y0, x1y1, adaptive).value]];
    }
    assert changes == left + right;
    if OppositeSigns(x0y0, x1y0) {
      changes := changes + [[x as real + Adapt(x0y0, x1y0, adaptive).value, y as real + 0.0]];
    }
    assert changes == left + right + bottom;
    if OppositeSigns(x0y1, x1y1) {
      changes := changes + [[x as real + Adapt(x0y1, x1y1, adaptive).value, y as real + 1.0]];
    }
    assert changes == left + right + bottom + top;
  }

  /** dual_contour_2d_find_best_vertex, step by step. */
  method FindBestVertex2d(f: Field2, fNormal: Normal2, x: int, y: int, s: Settings, lstsq: Lstsq) returns (v: Option<V2>)
    ensures v == BestVertex2d(f, fNormal, x, y, s, lstsq)
  {
    if !s.adaptive {
      return Some(V2(x as real + 0.5, y as real + 0.5));
    }
    var x0y0 := f(x as real + 0.0, y as real + 0.0);
    var x0y1 := f(x as real + 0.0, y as real + 1.0);
    var x1y0 := f(x as real + 1.0, y as real + 0.0);
    var x1y1 := f(x as real + 1.0, y as real + 1.0);

    var changes := SignChanges2d(x, y, x0y0, x0y1, x1y0, x1y1, s.adaptive);
    if |changes| <= 1 {
      return None;
    }

    var normals: seq<seq<real>> := [];
    for i := 0 to |changes|
      invariant |normals| == i
      invariant forall j :: 0 <= j < i ==> normals[j] == [fNormal(changes[j][0], changes[j][1]).x, fNormal(changes[j][0], changes[j][1]).y]
    {
      var n := fNormal(changes[i][0], changes[i][1]);
      normals := normals + [[n.x, n.y]];
    }
    assert normals == NormalsAt(fNormal, changes);
    var p, _, _ := SolveQef2d(x, y, changes, normals, s, lstsq);
    v := Some(p);
  }

  /** The vertex finder as a map from cells to vertices. */
  function VertexAt(f: Field2, fNormal: Normal2, s: Settings, lstsq: Lstsq): Cell -> Option<V2> {
    (c: Cell) => BestVertex2d(f, fNormal, c.0, c.1, s, lstsq)
  }

  /** The first loop of dual_contour_2d: a vertex for every cell of the box. */
  method VertexPass2d(f: Field2, fNormal: Normal2, xmin: int, xmax: int, ymin: int, ymax: int,
                      s: Settings, lstsq: Lstsq) returns (verts: map<Cell, Option<V2>>)
    ensures forall c :: c in verts <==> InBox(c, xmin, xmax, ymin, ymax)
    ensures forall c :: c in verts ==> verts[c] == BestVertex2d(f, fNormal, c.0, c.1, s, lstsq)
  {
    verts := map[];
    var x := xmin;
    while x < xmax
      invariant xmin <= x && (x <= xmax || x == xmin)
      invariant forall c :: c in verts <==> xmin <= c.0 < x && ymin <= c.1 < ymax
      invariant forall c :: c in verts ==> verts[c] == BestVertex2d(f, fNormal, c.0, c.1, s, lstsq)
    {
      var y := ymin;
      while y < ymax
        invariant ymin <= y && (y <= ymax || y == ymin)
        invariant forall c :: c in verts <==> (xmin <= c.0 < x && ymin <= c.1 < ymax) || (c.0 == x && ymin <= c.1 < y)
        invariant forall c :: c in verts ==> verts[c] == BestVertex2d(f, fNormal, c.0, c.1, s, lstsq)
      {
        var v := FindBestVertex2d(f, fNormal, x, y, s, lstsq);
        verts := verts[(x, y) := v];
        y := y + 1;
      }
      x := x + 1;
    }
  }

  // ---------------------------------------------------------------------
  // Stitching: which cells are joined, and in which direction
  // ---------------------------------------------------------------------

  /** Two cells sharing a side. */
  predicate Adjacent(a: Cell, b: Cell) {
    (a.0 == b.0 && (b.1 == a.1 + 1 || b.1 == a.1 - 1)) || (a.1 == b.1 && (b.0 == a.0 + 1 || b.0 == a.0 - 1))
  }

  /**
   * Of the grid side crossed when travelling from cell `e.v1` to the
   * adjacent cell `e.v2`, the end on the left of the direction of travel.
   */
  function LeftEnd(e: Edge<Cell>): Cell
    requires Adjacent(e.v1, e.v2)
  {
    var dx, dy := e.v2.0 - e.v1.0, e.v2.1 - e.v1.1;
    ((e.v1.0 + e.v2.0 + 1 - dy) / 2, (e.v1.1 + e.v2.1 + 1 + dx) / 2)
  }

  /** The end on the right of the direction of travel. */
  function RightEnd(e: Edge<Cell>): Cell
    requires Adjacent(e.v1, e.v2)
  {
    var dx, dy := e.v2.0 - e.v1.0, e.v2.1 - e.v1.1;
    ((e.v1.0 + e.v2.0 + 1 + dy) / 2, (e.v1.1 + e.v2.1 + 1 - dx) / 2)
  }

  /** The segment keeps the solid on its left: the winding every emitted segment should share. */
  predicate SolidOnLeft(f: Field2, e: Edge<Cell>) {
    Adjacent(e.v1, e.v2) && Solid(f, LeftEnd(e)) && !Solid(f, RightEnd(e))
  }

  predicate SolidOnRight(f: Field2, e: Edge<Cell>) {
    Adjacent(e.v1, e.v2) && Solid(f, RightEnd(e)) && !Solid(f, LeftEnd(e))
  }

  /**
   * The first stitching loop at (x, y): the vertical side from (x, y) to
   * (x, y + 1) joins cells (x - 1, y) and (x, y) when it changes sign,
   * reversed when its lower end is solid.
   */
  function ColumnCrossing(f: Field2, x: int, y: int): (r: seq<Edge<Cell>>)
    ensures |r| <= 1 && (|r| == 1 <==> OppositeSigns(At(f, (x, y)), At(f, (x, y + 1))))
  {
    if OppositeSigns(At(f, (x, y)), At(f, (x, y + 1))) then [Edge((x - 1, y), (x, y)).Swap(Solid(f, (x, y)))] else []
  }

  /** A segment of the first loop joins the two cells beside the side, both crossed, solid on its left. */
  lemma ColumnCrossingShape(f: Field2, x: int, y: int)
    ensures forall e :: e in ColumnCrossing(f, x, y) ==>
      && SolidOnLeft(f, e)
      && {e.v1, e.v2} == {(x - 1, y), (x, y)}
      && SignChange(f, e.v1.0, e.v1.1) && SignChange(f, e.v2.0, e.v2.1)
  {
  }

  /**
   * The second stitching loop at (x, y) as written: the horizontal side from
   * (x, y) to (x + 1, y) joins cells (x, y - 1) and (x, y), reversed when its
   * LEFT end is solid. Its segments keep the solid on their right, the
   * opposite of `ColumnCrossing`'s.
   */
  function RowCrossingAsWritten(f: Field2, x: int, y: int): (r: seq<Edge<Cell>>)
    ensures |r| <= 1 && (|r| == 1 <==> OppositeSigns(At(f, (x, y)), At(f, (x + 1, y))))
    ensures forall e :: e in r ==> SolidOnRight(f, e)
  {
    if OppositeSigns(At(f, (x, y)), At(f, (x + 1, y))) then [Edge((x, y - 1), (x, y)).Swap(Solid(f, (x, y)))] else []
  }

  /**
   * The second stitching loop, reversed when the RIGHT end of the side is
   * solid, so that it winds the same way as the first loop.
   */
  function RowCrossing(f: Field2, x: int, y: int): (r: seq<Edge<Cell>>)
    ensures |r| <= 1 && (|r| == 1 <==> OppositeSigns(At(f, (x, y)), At(f, (x + 1, y))))
  {
    if OppositeSigns(At(f, (x, y)), At(f, (x + 1, y))) then [Edge((x, y - 1), (x, y)).Swap(Solid(f, (x + 1, y)))] else []
  }

  /** A segment of the corrected second loop joins the two cells beside the side, both crossed, solid on its left. */
  lemma RowCrossingShape(f: Field2, x: int, y: int)
    ensures forall e :: e in RowCrossing(f, x, y) ==>
      && SolidOnLeft(f, e)
      && {e.v1, e.v2} == {(x, y - 1), (x, y)}
      && SignChange(f, e.v1.0, e.v1.1) && SignChange(f, e.v2.0, e.v2.1)
  {
  }

  function ColumnCrossings(f: Field2): (int, int) -> seq<Edge<Cell>> {
    (x, y) => ColumnCrossing(f, x, y)
  }

  function RowCrossings(f: Field2): (int, int) -> seq<Edge<Cell>> {
    (x, y) => RowCrossing(f, x, y)
  }

  function RowCrossingsAsWritten(f: Field2): (int, int) -> seq<Edge<Cell>> {
    (x, y) => RowCrossingAsWritten(f, x, y)
  }

  /** The cell pairs the stitching loops join, in emission order. */
  function CellEdges2d(f: Field2, xmin: int, xmax: int, ymin: int, ymax: int): seq<Edge<Cell>> {
    Grid2(ColumnCrossings(f), xmin + 1, xmax, ymin, ymax) + Grid2(RowCrossings(f), xmin, xmax, ymin + 1, ymax)
  }

  /** The same with the second loop as written. */
  function CellEdges2dAsWritten(f: Field2, xmin: int, xmax: int, ymin: int, ymax: int): seq<Edge<Cell>> {
    Grid2(ColumnCrossings(f), xmin + 1, xmax, ymin, ymax) + Grid2(RowCrossingsAsWritten(f), xmin, xmax, ymin + 1, ymax)
  }

  /**
   * Every segment joins two adjacent cells of the box, both crossed by the
   * boundary, and keeps the solid on its left.
   */
  lemma CellEdgesWellFormed(f: Field2, xmin: int, xmax: int, ymin: int, ymax: int)
    ensures forall e :: e in CellEdges2d(f, xmin, xmax, ymin, ymax) ==>
      InBox(e.v1, xmin, xmax, ymin, ymax) && InBox(e.v2, xmin, xmax, ymin, ymax) &&
      SolidOnLeft(f, e) && SignChange(f, e.v1.0, e.v1.1) && SignChange(f, e.v2.0, e.v2.1)
  {
    forall e | e in CellEdges2d(f, xmin, xmax, ymin, ymax)
      ensures InBox(e.v1, xmin, xmax, ymin, ymax) && InBox(e.v2, xmin, xmax, ymin, ymax)
      ensures SolidOnLeft(f, e) && SignChange(f, e.v1.0, e.v1.1) && SignChange(f, e.v2.0, e.v2.1)
    {
      Grid2Member(ColumnCrossings(f), xmin + 1, xmax, ymin, ymax, e);
      Grid2Member(RowCrossings(f), xmin, xmax, ymin + 1, ymax, e);
      if e in Grid2(ColumnCrossings(f), xmin + 1, xmax, ymin, ymax) {
        var x, y :| xmin + 1 <= x < xmax && ymin <= y < ymax && e in ColumnCrossings(f)(x, y);
        assert e in ColumnCrossing(f, x, y);
        ColumnCrossingShape(f, x, y);
      } else {
        var x, y :| xmin <= x < xmax && ymin + 1 <= y < ymax && e in RowCrossings(f)(x, y);
        assert e in RowCrossing(f, x, y);
        RowCrossingShape(f, x, y);
      }
    }
  }

  /** At most one segment per interior grid side. */
  lemma CellEdgesCount(f: Field2, xmin: int, xmax: int, ymin: int, ymax: int)
    requires xmin < xmax && ymin < ymax
    ensures |CellEdges2d(f, xmin, xmax, ymin, ymax)| <= (xmax - xmin - 1) * (ymax - ymin) + (xmax - xmin) * (ymax - ymin - 1)
  {
    forall x, y | xmin <= x < xmax && ymin <= y < ymax ensures |ColumnCrossings(f)(x, y)| <= 1 && |RowCrossings(f)(x, y)| <= 1 {
      assert ColumnCrossings(f)(x, y) == ColumnCrossing(f, x, y);
      assert RowCrossings(f)(x, y) == RowCrossing(f, x, y);
    }
    SidesLength(ColumnCrossings(f), RowCrossings(f), xmin, xmax, ymin, ymax);
  }

  /** In the source's second loop every segment keeps the solid on its right. */
  lemma AsWrittenRowsWindBackwards(f: Field2, xmin: int, xmax: int, ymin: int, ymax: int, e: Edge<Cell>)
    requires e in Grid2(RowCrossingsAsWritten(f), xmin, xmax, ymin + 1, ymax)
    ensures e in CellEdges2dAsWritten(f, xmin, xmax, ymin, ymax) && SolidOnRight(f, e)
  {
    Grid2Member(RowCrossingsAsWritten(f), xmin, xmax, ymin + 1, ymax, e);
    var x, y :| xmin <= x < xmax && ymin + 1 <= y < ymax && e in RowCrossingsAsWritten(f)(x, y);
    assert e in RowCrossingAsWritten(f, x, y);
  }

  /** A field that is solid at the origin only. */
  function SinglePoint(): Field2 {
    (x: real, y: real) => if x == 0.0 && y == 0.0 then 1.0 else -1.0
  }

  /**
   * Around a single solid point, the source's two loops wind opposite ways:
   * the segment across the side above the origin keeps the solid on its
   * left, the one across the side to its right keeps it on its right.
   */
  lemma SinglePointWindsBothWays()
    ensures Edge((0, 0), (-1, 0)) in CellEdges2dAsWritten(SinglePoint(), -1, 1, -1, 1)
    ensures Edge((0, 0), (0, -1)) in CellEdges2dAsWritten(SinglePoint(), -1, 1, -1, 1)
    ensures SolidOnLeft(SinglePoint(), Edge((0, 0), (-1, 0)))
    ensures SolidOnRight(SinglePoint(), Edge((0, 0), (0, -1)))
  {
    var f := SinglePoint();
    assert Edge((0, 0), (-1, 0)) in CellEdges2dAsWritten(f, -1, 1, -1, 1) by {
      assert ColumnCrossing(f, 0, 0) == [Edge((0, 0), (-1, 0))];
      assert Edge((0, 0), (-1, 0)) in ColumnCrossings(f)(0, 0);
      Grid2Member(ColumnCrossings(f), 0, 1, -1, 1, Edge((0, 0), (-1, 0)));
    }
    assert Edge((0, 0), (0, -1)) in CellEdges2dAsWritten(f, -1, 1, -1, 1) by {
      assert RowCrossingAsWritten(f, 0, 0) == [Edge((0, 0), (0, -1))];
      assert Edge((0, 0), (0, -1)) in RowCrossingsAsWritten(f)(0, 0);
      Grid2Member(RowCrossingsAsWritten(f), -1, 1, 0, 1, Edge((0, 0), (0, -1)));
    }
    assert SolidOnLeft(f, Edge((0, 0), (-1, 0))) by {
      assert LeftEnd(Edge((0, 0), (-1, 0))) == (0, 0) && RightEnd(Edge((0, 0), (-1, 0))) == (0, 1);
    }
    assert SolidOnRight(f, Edge((0, 0), (0, -1))) by {
      assert LeftEnd(Edge((0, 0), (0, -1))) == (1, 0) && RightEnd(Edge((0, 0), (0, -1))) == (0, 0);
    }
  }

  // ---------------------------------------------------------------------
  // The whole contour
  // ---------------------------------------------------------------------

  /** Replaces the cells of every segment by what `g` gives for them. */
  function Relabel<U>(es: seq<Edge<Cell>>, g: Cell -> U): (r: seq<Edge<U>>)
    ensures |r| == |es|
  {
    seq(|es|, i requires 0 <= i < |es| => es[i].Map(g))
  }

  /** Segment i of the relabelled sequence is segment i of `es`, relabelled. */
  lemma RelabelAt<U>(es: seq<Edge<Cell>>, g: Cell -> U, i: int)
    requires 0 <= i < |es|
    ensures Relabel(es, g)[i] == es[i].Map(g)
  {
  }

  /** The cell's vertex in `verts`; `None` for a cell without one. */
  function FindIn(verts: map<Cell, Option<V2>>): Cell -> Option<V2> {
    (c: Cell) => if c in verts then verts[c] else None
  }

  /** What dual_contour_2d returns: each cell pair replaced by the two cells' vertices. */
  function Contour2d(f: Field2, fNormal: Normal2, xmin: int, xmax: int, ymin: int, ymax: int,
                     s: Settings, lstsq: Lstsq): seq<Edge<Option<V2>>> {
    Relabel(CellEdges2d(f, xmin, xmax, ymin, ymax), VertexAt(f, fNormal, s, lstsq))
  }

  /**
   * Every segment of the contour joins two vertices that exist: a side that
   * changes sign makes both cells beside it crossed, so both have a vertex.
   */
  lemma ContourVerticesExist(f: Field2, fNormal: Normal2, xmin: int, xmax: int, ymin: int, ymax: int,
                             s: Settings, lstsq: Lstsq)
    ensures forall e :: e in Contour2d(f, fNormal, xmin, xmax, ymin, ymax, s, lstsq) ==> e.v1.Some? && e.v2.Some?
  {
    var ce := CellEdges2d(f, xmin, xmax, ymin, ymax);
    var r := Contour2d(f, fNormal, xmin, xmax, ymin, ymax, s, lstsq);
    CellEdgesWellFormed(f, xmin, xmax, ymin, ymax);
    forall e | e in r ensures e.v1.Some? && e.v2.Some? {
      var i :| 0 <= i < |r| && r[i] == e;
      assert ce[i] in ce;
      RelabelAt(ce, VertexAt(f, fNormal, s, lstsq), i);
    }
  }

  /** Relabelling distributes over concatenation. */
  lemma RelabelAppend<U>(a: seq<Edge<Cell>>, b: seq<Edge<Cell>>, g: Cell -> U)
    ensures Relabel(a + b, g) == Relabel(a, g) + Relabel(b, g)
  {
    var l, r := Relabel(a + b, g), Relabel(a, g) + Relabel(b, g);
    forall i | 0 <= i < |l| ensures l[i] == r[i] {
      if i < |a| {
        assert (a + b)[i] == a[i];
      } else {
        assert (a + b)[i] == b[i - |a|];
      }
    }
  }

  /** What the first loop emits at (x, y), looked up in `verts`. */
  lemma ColumnLookup(f: Field2, verts: map<Cell, Option<V2>>, x: int, y: int)
    requires (x - 1, y) in verts && (x, y) in verts
    ensures Relabel(ColumnCrossings(f)(x, y), FindIn(verts)) ==
      if OppositeSigns(At(f, (x, y)), At(f, (x, y + 1))) then [Edge(verts[(x - 1, y)], verts[(x, y)]).Swap(Solid(f, (x, y)))] else []
  {
    var es := ColumnCrossings(f)(x, y);
    assert es == ColumnCrossing(f, x, y);
    if es != [] {
      RelabelAt(es, FindIn(verts), 0);
    }
  }

  /** What the second loop emits at (x, y), looked up in `verts`. */
  lemma RowLookup(f: Field2, verts: map<Cell, Option<V2>>, x: int, y: int)
    requires (x, y - 1) in verts && (x, y) in verts
    ensures Relabel(RowCrossings(f)(x, y), FindIn(verts)) ==
      if OppositeSigns(At(f, (x, y)), At(f, (x + 1, y))) then [Edge(verts[(x, y - 1)], verts[(x, y)]).Swap(Solid(f, (x + 1, y)))] else []
  {
    var es := RowCrossings(f)(x, y);
    assert es == RowCrossing(f, x, y);
    if es != [] {
      RelabelAt(es, FindIn(verts), 0);
    }
  }

  /** The first stitching loop's body at (x, y): the segment across the vertical side, if any. */
  method ColumnSide(f: Field2, verts: map<Cell, Option<V2>>, x: int, y: int) returns (here: seq<Edge<Option<V2>>>)
    requires (x - 1, y) in verts && (x, y) in verts
    ensures here == Relabel(ColumnCrossings(f)(x, y), FindIn(verts))
  {
    var y0Solid := f(x as real, y as real) > 0.0;
    var y1Solid := f(x as real, (y + 1) as real) > 0.0;
    here := [];
    if y0Solid != y1Solid {
      here := [Edge(verts[(x - 1, y)], verts[(x, y)]).Swap(y0Solid)];
    }
    ColumnLookup(f, verts, x, y);
  }

  /** The second stitching loop's body at (x, y), winding corrected. */
  method RowSide(f: Field2, verts: map<Cell, Option<V2>>, x: int, y: int) returns (here: seq<Edge<Option<V2>>>)
    requires (x, y - 1) in verts && (x, y) in verts
    ensures here == Relabel(RowCrossings(f)(x, y), FindIn(verts))
  {
    var x0Solid := f(x as real, y as real) > 0.0;
    var x1Solid := f((x + 1) as real, y as real) > 0.0;
    here := [];
    if x0Solid != x1Solid {
      here := [Edge(verts[(x, y - 1)], verts[(x, y)]).Swap(x1Solid)];
    }
    RowLookup(f, verts, x, y);
  }

  /** One more side of a column extends what the loop over that column has looked up. */
  lemma RelabelRowStep<U>(g: (int, int) -> seq<Edge<Cell>>, h: Cell -> U, x: int, lo: int, y: int,
                          edges: seq<Edge<U>>, here: seq<Edge<U>>)
    requires lo <= y && edges == Relabel(Row(g, x, lo, y), h) && here == Relabel(g(x, y), h)
    ensures edges + here == Relabel(Row(g, x, lo, y + 1), h)
  {
    RelabelAppend(Row(g, x, lo, y), g(x, y), h);
  }

  /** The first stitching loop over one column of sides, x fixed. */
  method ColumnSides(f: Field2, verts: map<Cell, Option<V2>>, x: int, ymin: int, ymax: int)
    returns (edges: seq<Edge<Option<V2>>>)
    requires forall c :: InBox(c, x - 1, x + 1, ymin, ymax) ==> c in verts
    ensures edges == Relabel(Row(ColumnCrossings(f), x, ymin, ymax), FindIn(verts))
  {
    edges := [];
    var y := ymin;
    while y < ymax
      invariant ymin <= y && (y <= ymax || y == ymin)
      invariant edges == Relabel(Row(ColumnCrossings(f), x, ymin, y), FindIn(verts))
    {
      assert InBox((x - 1, y), x - 1, x + 1, ymin, ymax) && InBox((x, y), x - 1, x + 1, ymin, ymax);
      var here := ColumnSide(f, verts, x, y);
      RelabelRowStep(ColumnCrossings(f), FindIn(verts), x, ymin, y, edges, here);
      edges := edges + here;
      y := y + 1;
    }
    assert y == ymin || y == ymax;
  }

  /** The second stitching loop over one column of sides, x fixed, winding corrected. */
  method RowSides(f: Field2, verts: map<Cell, Option<V2>>, x: int, ymin: int, ymax: int)
    returns (edges: seq<Edge<Option<V2>>>)
    requires forall c :: InBox(c, x, x + 1, ymin, ymax) ==> c in verts
    ensures edges == Relabel(Row(RowCrossings(f), x, ymin + 1, ymax), FindIn(verts))
  {
    edges := [];
    var y := ymin + 1;
    while y < ymax
      invariant ymin + 1 <= y && (y <= ymax || y == ymin + 1)
      invariant edges == Relabel(Row(RowCrossings(f), x, ymin + 1, y), FindIn(verts))
    {
      assert InBox((x, y - 1), x, x + 1, ymin, ymax) && InBox((x, y), x, x + 1, ymin, ymax);
      var here := RowSide(f, verts, x, y);
      RelabelRowStep(RowCrossings(f), FindIn(verts), x, ymin + 1, y, edges, here);
      edges := edges + here;
      y := y + 1;
    }
    assert y == ymin + 1 || y == ymax;
  }

  /** The first stitching loop of dual_contour_2d, over the vertical interior sides. */
  method ColumnPass2d(f: Field2, verts: map<Cell, Option<V2>>, xmin: int, xmax: int, ymin: int, ymax: int)
    returns (edges: seq<Edge<Option<V2>>>)
    requires forall c :: InBox(c, xmin, xmax, ymin, ymax) ==> c in verts
    ensures edges == Relabel(Grid2(ColumnCrossings(f), xmin + 1, xmax, ymin, ymax), FindIn(verts))
  {
    edges := [];
    var x := xmin + 1;
    while x < xmax
      invariant xmin + 1 <= x && (x <= xmax || x == xmin + 1)
      invariant edges == Relabel(Grid2(ColumnCrossings(f), xmin + 1, x, ymin, ymax), FindIn(verts))
    {
      var column := ColumnSides(f, verts, x, ymin, ymax);
      RelabelAppend(Grid2(ColumnCrossings(f), xmin + 1, x, ymin, ymax), Row(ColumnCrossings(f), x, ymin, ymax), FindIn(verts));
      edges := edges + column;
      x := x + 1;
    }
    assert x == xmin + 1 || x == xmax;
  }

  /** The second stitching loop of dual_contour_2d, over the horizontal interior sides. */
  method RowPass2d(f: Field2, verts: map<Cell, Option<V2>>, xmin: int, xmax: int, ymin: int, ymax: int)
    returns (edges: seq<Edge<Option<V2>>>)
    requires forall c :: InBox(c, xmin, xmax, ymin, ymax) ==> c in verts
    ensures edges == Relabel(Grid2(RowCrossings(f), xmin, xmax, ymin + 1, ymax), FindIn(verts))
  {
    edges := [];
    var x := xmin;
    while x < xmax
      invariant xmin <= x && (x <= xmax || x == xmin)
      invariant edges == Relabel(Grid2(RowCrossings(f), xmin, x, ymin + 1, ymax), FindIn(verts))
    {
      var column := RowSides(f, verts, x, ymin, ymax);
      RelabelAppend(Grid2(RowCrossings(f), xmin, x, ymin + 1, ymax), Row(RowCrossings(f), x, ymin + 1, ymax), FindIn(verts));
      edges := edges + column;
      x := x + 1;
    }
    assert x == xmin || x == xmax;
  }

  /** The stitching loops of dual_contour_2d: one segment per sign-changing interior side. */
  method StitchPass2d(f: Field2, verts: map<Cell, Option<V2>>, xmin: int, xmax: int, ymin: int, ymax: int)
    returns (edges: seq<Edge<Option<V2>>>)
    requires forall c :: InBox(c, xmin, xmax, ymin, ymax) ==> c in verts
    ensures edges == Relabel(CellEdges2d(f, xmin, xmax, ymin, ymax), FindIn(verts))
  {
    var columns := ColumnPass2d(f, verts, xmin, xmax, ymin, ymax);
    var rows := RowPass2d(f, verts, xmin, xmax, ymin, ymax);
    RelabelAppend(Grid2(ColumnCrossings(f), xmin + 1, xmax, ymin, ymax), Grid2(RowCrossings(f), xmin, xmax, ymin + 1, ymax), FindIn(verts));
    edges := columns + rows;
  }

  /** Relabelling through two maps that agree on every cell used gives the same segments. */
  lemma {:induction false} RelabelAgree<U>(es: seq<Edge<Cell>>, g: Cell -> U, h: Cell -> U)
    requires forall e :: e in es ==> g(e.v1) == h(e.v1) && g(e.v2) == h(e.v2)
    ensures Relabel(es, g) == Relabel(es, h)
  {
    if es != [] {
      RelabelAgree(es[..|es| - 1], g, h);
      assert es[|es| - 1] in es;
    }
  }

  /** dual_contour_2d: the vertex pass followed by the stitching pass. */
  method DualContour2d(f: Field2, fNormal: Normal2, xmin: int, xmax: int, ymin: int, ymax: int,
                       s: Settings, lstsq: Lstsq) returns (edges: seq<Edge<Option<V2>>>)
    ensures edges == Contour2d(f, fNormal, xmin, xmax, ymin, ymax, s, lstsq)
  {
    var verts := VertexPass2d(f, fNormal, xmin, xmax, ymin, ymax, s, lstsq);
    edges := StitchPass2d(f, verts, xmin, xmax, ymin, ymax);
    CellEdgesWellFormed(f, xmin, xmax, ymin, ymax);
    RelabelAgree(CellEdges2d(f, xmin, xmax, ymin, ymax), FindIn(verts), VertexAt(f, fNormal, s, lstsq));
  }
}
