/**
 * The older copy of 2D dual contouring kept in main.py
 * (dual_cont_2d_find_best_vertex and dual_cont_2d). It finds the same
 * sign-change points as dual_contour_2d.py but hands them straight to the
 * least-squares solver: no bias towards the mass point, no fallback to the
 * cell boundary and no clipping. Its stitching loops are those of
 * dual_contour_2d.py, so the model reuses them.
 */
module EarlyDualContour2d {
  import opened Wrappers
  import opened Settings
  import opened Utils2d
  import opened Common
  import opened Qef
  import opened DualContour2d

  /**
   * dual_cont_2d_find_best_vertex: the midpoint when adaptivity is off,
   * nothing when fewer than two sides change sign, and otherwise the plain
   * least-squares solution of the planes through the sign-change points.
   */
  function RawVertex2d(f: Field2, fNormal: Normal2, x: int, y: int, adaptive: bool, lstsq: Lstsq): (r: Option<V2>)
    ensures !adaptive ==> r == Some(V2(x as real + 0.5, y as real + 0.5))
    ensures adaptive ==> (r.Some? <==> SignChange(f, x, y))
  {
    if !adaptive then Some(V2(x as real + 0.5, y as real + 0.5))
    else
      var changes := Crossings2d(x, y, f(x as real + 0.0, y as real + 0.0), f(x as real + 0.0, y as real + 1.0),
                                 f(x as real + 1.0, y as real + 0.0), f(x as real + 1.0, y as real + 1.0), adaptive);
      if |changes| <= 1 then None
      else
        var q := Make2d(changes, NormalsAt(fNormal, changes));
        var solution := lstsq(q.a, q.b).solution;
        Some(V2(solution[0], solution[1]))
  }

  /** The settings under which dual_contour_2d.py behaves like the older copy. */
  function Plain(adaptive: bool): (s: Settings)
    ensures s.adaptive == adaptive && !s.bias && !s.boundary && !s.clip
  {
    Settings(adaptive := adaptive, clip := false, boundary := false, bias := false, biasStrength := Defaults.biasStrength)
  }

  /**
   * The older vertex finder is dual_contour_2d.py's with bias, boundary
   * fallback and clipping all switched off.
   */
  lemma RawVertexIsPlain(f: Field2, fNormal: Normal2, x: int, y: int, adaptive: bool, lstsq: Lstsq)
    ensures RawVertex2d(f, fNormal, x, y, adaptive, lstsq) == BestVertex2d(f, fNormal, x, y, Plain(adaptive), lstsq)
  {
    if adaptive {
      var changes := Crossings2d(x, y, f(x as real + 0.0, y as real + 0.0), f(x as real + 0.0, y as real + 1.0),
                                 f(x as real + 1.0, y as real + 0.0), f(x as real + 1.0, y as real + 1.0), adaptive);
      if |changes| > 1 {
        QefVertex2dUnconstrained(x, y, changes, NormalsAt(fNormal, changes), Plain(adaptive), lstsq);
      }
    }
  }

  /** dual_cont_2d_find_best_vertex, step by step. */
  method FindRawVertex2d(f: Field2, fNormal: Normal2, x: int, y: int, adaptive: bool, lstsq: Lstsq) returns (v: Option<V2>)
    ensures v == RawVertex2d(f, fNormal, x, y, adaptive, lstsq)
  {
    if !adaptive {
      return Some(V2(x as real + 0.5, y as real + 0.5));
    }
    var x0y0 := f(x as real + 0.0, y as real + 0.0);
    var x0y1 := f(x as real + 0.0, y as real + 1.0);
    var x1y0 := f(x as real + 1.0, y as real + 0.0);
    var x1y1 := f(x as real + 1.0, y as real + 1.0);

    var changes := SignChanges2d(x, y, x0y0, x0y1, x1y0, x1y1, adaptive);
    if |changes| <= 1 {
      return None;
    }
    var normals: seq<seq<real>> := [];
    for i := 0 to |changes|
      invariant |normals| == i
      invariant forall j :: 0 <= j < i ==> normals[j] == [fNormal(changes[j][0], changes[j][1]).x, fNormal(changes[j][0], changes[j][1]).y]
    {
      var n := fNormal(changes[i][0], changes[i][1]);
      normals := normals + [[n.x, n.y]];
    }
    assert normals == NormalsAt(fNormal, changes);
    var q := Make2d(changes, normals);
    var result := lstsq(q.a, q.b).solution;
    v := Some(V2(result[0], result[1]));
  }

  /** The older vertex finder as a map from cells to vertices. */
  function RawVertexAt(f: Field2, fNormal: Normal2, adaptive: bool, lstsq: Lstsq): Cell -> Option<V2> {
    (c: Cell) => RawVertex2d(f, fNormal, c.0, c.1, adaptive, lstsq)
  }

  /**
   * dual_cont_2d: a vertex for every cell, then one segment per
   * sign-changing interior side between the vertices of the two cells beside
   * it (second loop with its winding corrected, as in `DualContour2d`).
   * Every segment joins two vertices that exist.
   */
  method EarlyContour2d(f: Field2, fNormal: Normal2, xmin: int, xmax: int, ymin: int, ymax: int,
                        adaptive: bool, lstsq: Lstsq) returns (edges: seq<Edge<Option<V2>>>)
    ensures edges == Relabel(CellEdges2d(f, xmin, xmax, ymin, ymax), RawVertexAt(f, fNormal, adaptive, lstsq))
    ensures forall e :: e in edges ==> e.v1.Some? && e.v2.Some?
  {
    var s := Plain(adaptive);
    edges := DualContour2d.DualContour2d(f, fNormal, xmin, xmax, ymin, ymax, s, lstsq);
    ContourVerticesExist(f, fNormal, xmin, xmax, ymin, ymax, s, lstsq);
    forall e | e in CellEdges2d(f, xmin, xmax, ymin, ymax)
      ensures VertexAt(f, fNormal, s, lstsq)(e.v1) == RawVertexAt(f, fNormal, adaptive, lstsq)(e.v1)
      ensures VertexAt(f, fNormal, s, lstsq)(e.v2) == RawVertexAt(f, fNormal, adaptive, lstsq)(e.v2)
    {
      RawVertexIsPlain(f, fNormal, e.v1.0, e.v1.1, adaptive, lstsq);
      RawVertexIsPlain(f, fNormal, e.v2.0, e.v2.1, adaptive, lstsq);
    }
    RelabelAgree(CellEdges2d(f, xmin, xmax, ymin, ymax), VertexAt(f, fNormal, s, lstsq), RawVertexAt(f, fNormal, adaptive, lstsq));
  }
}
