/**
 * The faces of dual_contour_3d (dual_contour_3d.py), named by the cells whose
 * vertices they join: one quadrilateral per grid edge whose ends lie on
 * opposite sides of the boundary, around that edge, wound so that it faces
 * out of the solid.
 */
module DualContour3dQuads {
  import opened Grid
  import opened Utils3d
  import opened DualContour3d
  import opened DualContour3dMesh

  // ---------------------------------------------------------------------
  // The quadrilaterals of one grid point
  // ---------------------------------------------------------------------

  /** The face for the edge from (x, y, z) up the z axis, if its ends disagree. */
  function ZQuad(f: Field3, x: int, y: int, z: int): seq<Face<Cell3>> {
    var solid1, solid2 := Solid3(f, (x, y, z)), Solid3(f, (x, y, z + 1));
    if solid1 != solid2 then [Quad((x - 1, y - 1, z), (x, y - 1, z), (x, y, z), (x - 1, y, z)).Swap(solid2)] else []
  }

  /** The face for the edge from (x, y, z) up the y axis, if its ends disagree. */
  function YQuad(f: Field3, x: int, y: int, z: int): seq<Face<Cell3>> {
    var solid1, solid2 := Solid3(f, (x, y, z)), Solid3(f, (x, y + 1, z));
    if solid1 != solid2 then [Quad((x - 1, y, z - 1), (x, y, z - 1), (x, y, z), (x - 1, y, z)).Swap(solid1)] else []
  }

  /** The face for the edge from (x, y, z) up the x axis, if its ends disagree. */
  function XQuad(f: Field3, x: int, y: int, z: int): seq<Face<Cell3>> {
    var solid1, solid2 := Solid3(f, (x, y, z)), Solid3(f, (x + 1, y, z));
    if solid1 != solid2 then [Quad((x, y - 1, z - 1), (x, y, z - 1), (x, y, z), (x, y - 1, z)).Swap(solid2)] else []
  }

  /**
   * The faces the second loop emits at (x, y, z): an edge gets a face only
   * when the four cells around it are past the box's lower bounds.
   */
  function QuadsAt(f: Field3, b: Box3, x: int, y: int, z: int): seq<Face<Cell3>> {
    (if x > b.xmin && y > b.ymin then ZQuad(f, x, y, z) else []) +
    (if x > b.xmin && z > b.zmin then YQuad(f, x, y, z) else []) +
    (if y > b.ymin && z > b.zmin then XQuad(f, x, y, z) else [])
  }

  function CellQuads(f: Field3, b: Box3): (int, int, int) -> seq<Face<Cell3>> {
    (x: int, y: int, z: int) => QuadsAt(f, b, x, y, z)
  }

  /** Every face of the second loop, when its z loop runs over [zlo, zhi). */
  function Quads3d(f: Field3, b: Box3, zlo: int, zhi: int): seq<Face<Cell3>> {
    Grid3(CellQuads(f, b), b.xmin, b.xmax, b.ymin, b.ymax, zlo, zhi)
  }

  // ---------------------------------------------------------------------
  // What a face is
  // ---------------------------------------------------------------------

  /** The grid point one step from `p` along `axis`. */
  function Next(p: Cell3, axis: nat): Cell3 {
    if axis == 0 then (p.0 + 1, p.1, p.2) else if axis == 1 then (p.0, p.1 + 1, p.2) else (p.0, p.1, p.2 + 1)
  }

  /** The four cells that have the edge from `p` along `axis` as one of their twelve edges. */
  function CellsAround(p: Cell3, axis: nat): set<Cell3> {
    if axis == 0 then {(p.0, p.1 - 1, p.2 - 1), (p.0, p.1, p.2 - 1), (p.0, p.1, p.2), (p.0, p.1 - 1, p.2)}
    else if axis == 1 then {(p.0 - 1, p.1, p.2 - 1), (p.0, p.1, p.2 - 1), (p.0, p.1, p.2), (p.0 - 1, p.1, p.2)}
    else {(p.0 - 1, p.1 - 1, p.2), (p.0, p.1 - 1, p.2), (p.0, p.1, p.2), (p.0 - 1, p.1, p.2)}
  }

  function Sub(a: Cell3, b: Cell3): Cell3 {
    (a.0 - b.0, a.1 - b.1, a.2 - b.2)
  }

  function Cross(a: Cell3, b: Cell3): Cell3 {
    (a.1 * b.2 - a.2 * b.1, a.2 * b.0 - a.0 * b.2, a.0 * b.1 - a.1 * b.0)
  }

  function Dot(a: Cell3, b: Cell3): int {
    a.0 * b.0 + a.1 * b.1 + a.2 * b.2
  }

  /** Going a -> b -> c turns counter-clockwise as seen from the tip of `d`. */
  predicate TurnsAbout(a: Cell3, b: Cell3, c: Cell3, d: Cell3) {
    Dot(Cross(Sub(b, a), Sub(c, b)), d) > 0
  }

  /**
   * The face is the quadrilateral of the four cells around the edge from `p`
   * along `axis`, each of its four corners turning counter-clockwise as seen
   * from the edge's empty end: by the right-hand rule its normal points out
   * of the solid.
   */
  predicate DualFace(f: Field3, q: Face<Cell3>, p: Cell3, axis: nat) {
    var e := Next(p, axis);
    var out := if Solid3(f, p) then Sub(e, p) else Sub(p, e);
    && q.Quad?
    && {q.v1, q.v2, q.v3, q.v4} == CellsAround(p, axis)
    && Solid3(f, p) != Solid3(f, e)
    && TurnsAbout(q.v1, q.v2, q.v3, out) && TurnsAbout(q.v2, q.v3, q.v4, out)
    && TurnsAbout(q.v3, q.v4, q.v1, out) && TurnsAbout(q.v4, q.v1, q.v2, out)
  }

  /** A z edge gets a face exactly when its ends disagree, and that face is dual to it. */
  lemma ZQuadDual(f: Field3, x: int, y: int, z: int)
    ensures |ZQuad(f, x, y, z)| == if Solid3(f, (x, y, z)) != Solid3(f, Next((x, y, z), 2)) then 1 else 0
    ensures forall q :: q in ZQuad(f, x, y, z) ==> DualFace(f, q, (x, y, z), 2)
  {
  }

  /** A y edge gets a face exactly when its ends disagree, and that face is dual to it. */
  lemma YQuadDual(f: Field3, x: int, y: int, z: int)
    ensures |YQuad(f, x, y, z)| == if Solid3(f, (x, y, z)) != Solid3(f, Next((x, y, z), 1)) then 1 else 0
    ensures forall q :: q in YQuad(f, x, y, z) ==> DualFace(f, q, (x, y, z), 1)
  {
  }

  /** An x edge gets a face exactly when its ends disagree, and that face is dual to it. */
  lemma XQuadDual(f: Field3, x: int, y: int, z: int)
    ensures |XQuad(f, x, y, z)| == if Solid3(f, (x, y, z)) != Solid3(f, Next((x, y, z), 0)) then 1 else 0
    ensures forall q :: q in XQuad(f, x, y, z) ==> DualFace(f, q, (x, y, z), 0)
  {
  }

  /** Every face emitted at a grid point is dual to one of the three edges leaving it. */
  lemma QuadsAtDual(f: Field3, b: Box3, x: int, y: int, z: int, q: Face<Cell3>)
    requires q in QuadsAt(f, b, x, y, z)
    ensures exists axis :: 0 <= axis < 3 && DualFace(f, q, (x, y, z), axis)
  {
    ZQuadDual(f, x, y, z);
    YQuadDual(f, x, y, z);
    XQuadDual(f, x, y, z);
  }

  /** Every face of the mesh is dual to a sign-changing edge at a grid point of the box. */
  lemma Quads3dDual(f: Field3, b: Box3, zlo: int, zhi: int, q: Face<Cell3>)
    requires q in Quads3d(f, b, zlo, zhi)
    ensures exists x, y, z, axis ::
      (b.xmin <= x < b.xmax && b.ymin <= y < b.ymax && zlo <= z < zhi && 0 <= axis < 3 && DualFace(f, q, (x, y, z), axis))
  {
    Grid3Member(CellQuads(f, b), b.xmin, b.xmax, b.ymin, b.ymax, zlo, zhi, q);
    var x, y, z :| b.xmin <= x < b.xmax && b.ymin <= y < b.ymax && zlo <= z < zhi && q in CellQuads(f, b)(x, y, z);
    QuadsAtDual(f, b, x, y, z, q);
  }

  // ---------------------------------------------------------------------
  // Which cells the faces need
  // ---------------------------------------------------------------------

  /** A cell around a sign-changing edge has corners on both sides of the boundary. */
  lemma AroundChanges(f: Field3, p: Cell3, axis: nat, c: Cell3)
    requires axis < 3 && c in CellsAround(p, axis) && Solid3(f, p) != Solid3(f, Next(p, axis))
    ensures SignChange3(f, c.0, c.1, c.2)
  {
  }

  /** Every face needs only cells that have a vertex. */
  predicate Covered(sf: Surface, b: Box3, qs: seq<Face<Cell3>>) {
    forall q, c :: q in qs && c in q.Corners() ==> HasVertex(sf, b, c)
  }

  /** A cell of the box around a sign-changing edge has a vertex, adaptive or not. */
  lemma AroundHasVertex(sf: Surface, b: Box3, p: Cell3, axis: nat, c: Cell3)
    requires axis < 3 && c in CellsAround(p, axis) && Solid3(sf.f, p) != Solid3(sf.f, Next(p, axis))
    requires b.Contains(c)
    ensures HasVertex(sf, b, c)
  {
    AroundChanges(sf.f, p, axis, c);
    BestVertex3dCases(sf.f, sf.fNormal, c.0, c.1, c.2, sf.adaptive, sf.lstsq);
  }

  /** The face of an edge resolves when the four cells around the edge lie in the box. */
  lemma QuadCovered(sf: Surface, b: Box3, qs: seq<Face<Cell3>>, p: Cell3, axis: nat)
    requires axis < 3 && forall q :: q in qs ==> DualFace(sf.f, q, p, axis)
    requires forall c :: c in CellsAround(p, axis) ==> b.Contains(c)
    ensures Covered(sf, b, qs)
  {
    forall q, c | q in qs && c in q.Corners()
      ensures HasVertex(sf, b, c)
    {
      assert c in {q.v1, q.v2, q.v3, q.v4};
      AroundHasVertex(sf, b, p, axis, c);
    }
  }

  /** With z running over the box's own z range, every face emitted at a grid point resolves. */
  lemma QuadsAtCovered(sf: Surface, b: Box3, x: int, y: int, z: int)
    requires b.xmin <= x < b.xmax && b.ymin <= y < b.ymax && b.zmin <= z < b.zmax
    ensures Covered(sf, b, QuadsAt(sf.f, b, x, y, z))
  {
    var f := sf.f;
    ZQuadDual(f, x, y, z);
    YQuadDual(f, x, y, z);
    XQuadDual(f, x, y, z);
    if x > b.xmin && y > b.ymin {
      QuadCovered(sf, b, ZQuad(f, x, y, z), (x, y, z), 2);
    }
    if x > b.xmin && z > b.zmin {
      QuadCovered(sf, b, YQuad(f, x, y, z), (x, y, z), 1);
    }
    if y > b.ymin && z > b.zmin {
      QuadCovered(sf, b, XQuad(f, x, y, z), (x, y, z), 0);
    }
  }

  /** With z running over the box's own z range, every face of the mesh resolves. */
  lemma Quads3dCovered(sf: Surface, b: Box3)
    ensures Covered(sf, b, Quads3d(sf.f, b, b.zmin, b.zmax))
  {
    var qs := Quads3d(sf.f, b, b.zmin, b.zmax);
    forall q, c | q in qs && c in q.Corners()
      ensures HasVertex(sf, b, c)
    {
      Grid3Member(CellQuads(sf.f, b), b.xmin, b.xmax, b.ymin, b.ymax, b.zmin, b.zmax, q);
      var x, y, z :| b.xmin <= x < b.xmax && b.ymin <= y < b.ymax && b.zmin <= z < b.zmax && q in CellQuads(sf.f, b)(x, y, z);
      QuadsAtCovered(sf, b, x, y, z);
    }
  }

  /**
   * With z running over [ymin, ymax) instead, a face can need a cell outside
   * the box: for the field 1.5 - z on the box [0, 2) x [0, 2) x [0, 1), the z
   * edge from (1, 1, 1) changes sign and its face needs the cell (0, 0, 1).
   */
  lemma AsWrittenUncovered(sf: Surface)
    requires forall x: real, y: real, z: real :: sf.f(x, y, z) == 1.5 - z
    ensures !Covered(sf, Box3(0, 2, 0, 2, 0, 1), Quads3d(sf.f, Box3(0, 2, 0, 2, 0, 1), 0, 2))
  {
    var b := Box3(0, 2, 0, 2, 0, 1);
    var q := Quad((0, 0, 1), (1, 0, 1), (1, 1, 1), (0, 1, 1));
    assert Solid3(sf.f, (1, 1, 1)) && !Solid3(sf.f, (1, 1, 2));
    assert ZQuad(sf.f, 1, 1, 1) == [q];
    assert q in CellQuads(sf.f, b)(1, 1, 1);
    Grid3Member(CellQuads(sf.f, b), b.xmin, b.xmax, b.ymin, b.ymax, 0, 2, q);
    assert (0, 0, 1) in q.Corners() && !HasVertex(sf, b, (0, 0, 1));
  }
}
