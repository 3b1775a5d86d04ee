/**
 * 2D marching cubes, also called marching squares (marching_cubes_2d.py):
 * each cell is classified by which of its four corners are solid, and the
 * class decides which sides of the cell the boundary segments join.
 */
module MarchingSquares {
  import opened Utils2d
  import opened Common
  import opened Grid

  type Field2 = (real, real) -> real

  /** A corner of the unit cell: Cxy is at offset (x, y). */
  datatype Corner = C00 | C01 | C10 | C11

  /** A side of the unit cell. */
  datatype Side = Left | Right | Bottom | Top

  /** The bit of the case code that records the corner. */
  function Bit(k: Corner): int {
    match k
    case C00 => 1
    case C01 => 2
    case C10 => 4
    case C11 => 8
  }

  /** The sample at a corner, from the four corner samples. */
  function Sample(k: Corner, v00: real, v01: real, v10: real, v11: real): real {
    match k
    case C00 => v00
    case C01 => v01
    case C10 => v10
    case C11 => v11
  }

  /** The codes 0 .. 15 whose bit `Bit(k)` is set. */
  function CodesWith(k: Corner): set<int> {
    match k
    case C00 => {1, 3, 5, 7, 9, 11, 13, 15}
    case C01 => {2, 3, 6, 7, 10, 11, 14, 15}
    case C10 => {4, 5, 6, 7, 12, 13, 14, 15}
    case C11 => {8, 9, 10, 11, 12, 13, 14, 15}
  }

  /** Whether case code `c` records corner `k` as solid. */
  predicate Solid(c: int, k: Corner) {
    c in CodesWith(k)
  }

  /** `CodesWith` lists the codes of 0 .. 15 whose bit for the corner is set. */
  lemma CodesWithBits(c: int, k: Corner)
    requires 0 <= c < 16
    ensures Solid(c, k) <==> (c / Bit(k)) % 2 == 1
  {
  }

  /**
   * The corners at the ends of each side, named as met when walking the
   * cell boundary anticlockwise: `Before(s)` is where side s starts and
   * `After(s)` where it ends.
   */
  function Before(s: Side): Corner {
    match s
    case Bottom => C00
    case Right => C10
    case Top => C11
    case Left => C01
  }

  function After(s: Side): Corner {
    match s
    case Bottom => C10
    case Right => C11
    case Top => C01
    case Left => C00
  }

  /** The side has one solid and one empty end. */
  predicate Crosses(c: int, s: Side) {
    Solid(c, Before(s)) != Solid(c, After(s))
  }

  /**
   * The segment from a point on side `e.v1` to a point on side `e.v2` has
   * the solid on its left: the corner just before its start and the corner
   * just after its end, walking anticlockwise, are solid, and the corners on
   * the other side of the two crossings are empty.
   */
  predicate SolidOnLeft(c: int, e: Edge<Side>) {
    Solid(c, Before(e.v1)) && !Solid(c, After(e.v1)) && Solid(c, After(e.v2)) && !Solid(c, Before(e.v2))
  }

  predicate SolidOnRight(c: int, e: Edge<Side>) {
    !Solid(c, Before(e.v1)) && Solid(c, After(e.v1)) && !Solid(c, After(e.v2)) && Solid(c, Before(e.v2))
  }

  /** The case code of a cell: one bit per corner whose sample is positive. */
  function CaseCode(v00: real, v01: real, v10: real, v11: real): (c: int)
    ensures 0 <= c < 16
    ensures forall k :: Solid(c, k) <==> Sample(k, v00, v01, v10, v11) > 0.0
  {
    (if v00 > 0.0 then 1 else 0) + (if v01 > 0.0 then 2 else 0) +
    (if v10 > 0.0 then 4 else 0) + (if v11 > 0.0 then 8 else 0)
  }

  /**
   * The sides joined for each case, with the swap guards as written: the
   * guards of the second, third and fifth branches test 11, 13 and 10,
   * codes that never reach those branches.
   */
  function CaseSidesAsWritten(c: int): (r: seq<Edge<Side>>)
    requires 0 <= c < 16
    ensures |r| == (if c == 0 || c == 15 then 0 else if c == 6 || c == 9 then 2 else 1)
  {
    if c == 0 || c == 15 then []
    else if c == 1 || c == 14 then [Edge(Bottom, Left).Swap(c == 14)]
    else if c == 2 || c == 13 then [Edge(Left, Top).Swap(c == 11)]
    else if c == 4 || c == 11 then [Edge(Right, Bottom).Swap(c == 13)]
    else if c == 8 || c == 7 then [Edge(Top, Right).Swap(c == 7)]
    else if c == 3 || c == 12 then [Edge(Bottom, Top).Swap(c == 10)]
    else if c == 5 || c == 10 then [Edge(Left, Right).Swap(c == 5)]
    else if c == 9 then [Edge(Bottom, Left), Edge(Top, Right)]
    else assert c == 6; [Edge(Right, Bottom), Edge(Left, Top)]
  }

  /** The sides joined for each case, every complement case reversed. */
  function CaseSides(c: int): (r: seq<Edge<Side>>)
    requires 0 <= c < 16
    ensures |r| == (if c == 0 || c == 15 then 0 else if c == 6 || c == 9 then 2 else 1)
  {
    if c == 0 || c == 15 then []
    else if c == 1 || c == 14 then [Edge(Bottom, Left).Swap(c == 14)]
    else if c == 2 || c == 13 then [Edge(Left, Top).Swap(c == 13)]
    else if c == 4 || c == 11 then [Edge(Right, Bottom).Swap(c == 11)]
    else if c == 8 || c == 7 then [Edge(Top, Right).Swap(c == 7)]
    else if c == 3 || c == 12 then [Edge(Bottom, Top).Swap(c == 12)]
    else if c == 5 || c == 10 then [Edge(Left, Right).Swap(c == 5)]
    else if c == 9 then [Edge(Bottom, Left), Edge(Top, Right)]
    else assert c == 6; [Edge(Right, Bottom), Edge(Left, Top)]
  }

  /**
   * Every segment joins two sides that change sign, so each `adapt` call
   * receives samples of opposite sign, and it keeps the solid on its left.
   */
  lemma CaseSidesOriented(c: int)
    requires 0 <= c < 16
    ensures forall e :: e in CaseSides(c) ==> Crosses(c, e.v1) && Crosses(c, e.v2) && SolidOnLeft(c, e)
  {
    if c < 8 {
      LowCasesOriented(c);
    } else {
      HighCasesOriented(c);
    }
  }

  /** `CaseSidesOriented` for the codes whose top-left corner is empty. */
  lemma LowCasesOriented(c: int)
    requires 0 <= c < 8
    ensures forall e :: e in CaseSides(c) ==> Crosses(c, e.v1) && Crosses(c, e.v2) && SolidOnLeft(c, e)
  {
    var r := CaseSides(c);
    forall e | e in r ensures Crosses(c, e.v1) && Crosses(c, e.v2) && SolidOnLeft(c, e) {
      if c == 1 || c == 2 || c == 4 || c == 7 {
        assert e == r[0];
      } else if c == 3 || c == 5 {
        assert e == r[0];
      } else {
        assert c == 6 && (e == r[0] || e == r[1]);
      }
    }
  }

  /** `CaseSidesOriented` for the codes whose top-left corner is solid. */
  lemma HighCasesOriented(c: int)
    requires 8 <= c < 16
    ensures forall e :: e in CaseSides(c) ==> Crosses(c, e.v1) && Crosses(c, e.v2) && SolidOnLeft(c, e)
  {
    var r := CaseSides(c);
    forall e | e in r ensures Crosses(c, e.v1) && Crosses(c, e.v2) && SolidOnLeft(c, e) {
      if c == 8 || c == 11 || c == 13 || c == 14 {
        assert e == r[0];
      } else if c == 10 || c == 12 {
        assert e == r[0];
      } else {
        assert c == 9 && (e == r[0] || e == r[1]);
      }
    }
  }

  /**
   * As written, the segments of codes 11, 12 and 13 have the solid on their
   * right and every other segment has it on its left.
   */
  lemma AsWrittenWinding(c: int)
    requires 0 <= c < 16
    ensures c in {11, 12, 13} ==> forall e :: e in CaseSidesAsWritten(c) ==> SolidOnRight(c, e)
    ensures c !in {11, 12, 13} ==> CaseSidesAsWritten(c) == CaseSides(c)
  {
  }

  /** The example of the wrong winding: only corner (0, 1) empty. */
  lemma Case13Clockwise()
    ensures CaseSidesAsWritten(13) == [Edge(Left, Top)]
    ensures SolidOnRight(13, Edge(Left, Top)) && !SolidOnLeft(13, Edge(Left, Top))
    ensures CaseSides(13) == [Edge(Top, Left)]
  {
  }

  /**
   * A code and its complement describe the same boundary: the same sides,
   * joined in the opposite direction. The two-segment codes 6 and 9 are
   * complements of each other and are excluded.
   */
  lemma ComplementReverses(c: int)
    requires 0 <= c < 16 && c != 6 && c != 9
    ensures |CaseSides(15 - c)| == |CaseSides(c)|
    ensures forall i :: 0 <= i < |CaseSides(c)| ==> CaseSides(15 - c)[i] == CaseSides(c)[i].Swap(true)
  {
  }

  /** As written, complements 2/13, 4/11 and 3/12 give the same, unreversed segment. */
  lemma AsWrittenComplementSame(c: int)
    requires c in {2, 4, 3}
    ensures CaseSidesAsWritten(15 - c) == CaseSidesAsWritten(c)
  {
  }

  /** The crossing on a side, interpolated between its two end samples. */
  function SidePoint(s: Side, x: int, y: int, v00: real, v01: real, v10: real, v11: real, adaptive: bool): (p: V2)
    requires OppositeSigns(Sample(Before(s), v00, v01, v10, v11), Sample(After(s), v00, v01, v10, v11))
    ensures OnCellBoundary2(p, x, y)
    ensures s == Left ==> p.x == x as real
    ensures s == Right ==> p.x == x as real + 1.0
    ensures s == Bottom ==> p.y == y as real
    ensures s == Top ==> p.y == y as real + 1.0
  {
    match s
    case Left => V2(x as real + 0.0, y as real + Adapt(v00, v01, adaptive).value)
    case Right => V2(x as real + 1.0, y as real + Adapt(v10, v11, adaptive).value)
    case Bottom => V2(x as real + Adapt(v00, v10, adaptive).value, y as real + 0.0)
    case Top => V2(x as real + Adapt(v01, v11, adaptive).value, y as real + 1.0)
  }

  /**
   * marching_cubes_2d_single_cell: the segments of the cell at (x, y). Every
   * interpolation is between samples of opposite sign, so `adapt` never
   * fails, and every endpoint lies on the cell's boundary.
   */
  function SingleCell(f: Field2, x: int, y: int, adaptive: bool): (r: seq<Edge<V2>>)
    ensures |r| <= 2
    ensures |r| == 0 <==> (
      var s00, s01, s10, s11 := f(x as real, y as real) > 0.0, f(x as real, y as real + 1.0) > 0.0,
                                f(x as real + 1.0, y as real) > 0.0, f(x as real + 1.0, y as real + 1.0) > 0.0;
      s00 == s01 && s01 == s10 && s10 == s11)
    ensures forall e :: e in r ==> OnCellBoundary2(e.v1, x, y) && OnCellBoundary2(e.v2, x, y)
  {
    var v00 := f(x as real + 0.0, y as real + 0.0);
    var v01 := f(x as real + 0.0, y as real + 1.0);
    var v10 := f(x as real + 1.0, y as real + 0.0);
    var v11 := f(x as real + 1.0, y as real + 1.0);
    var c := CaseCode(v00, v01, v10, v11);
    var sides := CaseSides(c);
    assert forall i :: 0 <= i < |sides| ==> Crosses(c, sides[i].v1) && Crosses(c, sides[i].v2) by {
      CaseSidesOriented(c);
      forall i | 0 <= i < |sides| ensures Crosses(c, sides[i].v1) && Crosses(c, sides[i].v2) {
        assert sides[i] in sides;
      }
    }
    seq(|sides|, i requires 0 <= i < |sides| =>
      Edge(SidePoint(sides[i].v1, x, y, v00, v01, v10, v11, adaptive), SidePoint(sides[i].v2, x, y, v00, v01, v10, v11, adaptive)))
  }

  function Cells(f: Field2, adaptive: bool): (int, int) -> seq<Edge<V2>> {
    (x, y) => SingleCell(f, x, y, adaptive)
  }

  /** The inner loop of marching_cubes_2d: the cells (x, ymin) .. (x, ymax - 1). */
  method MarchColumn(f: Field2, x: int, ymin: int, ymax: int, adaptive: bool) returns (edges: seq<Edge<V2>>)
    ensures edges == Row(Cells(f, adaptive), x, ymin, ymax)
  {
    edges := [];
    var y := ymin;
    while y < ymax
      invariant ymin <= y && (y <= ymax || y == ymin)
      invariant edges == Row(Cells(f, adaptive), x, ymin, y)
    {
      var cell := SingleCell(f, x, y, adaptive);
      RowStep(Cells(f, adaptive), x, ymin, y);
      assert Cells(f, adaptive)(x, y) == cell;
      edges := edges + cell;
      y := y + 1;
    }
    assert y == ymin || y == ymax;
  }

  /** marching_cubes_2d: every cell's segments, x outermost. */
  method MarchingSquares(f: Field2, xmin: int, xmax: int, ymin: int, ymax: int, adaptive: bool) returns (edges: seq<Edge<V2>>)
    ensures edges == Grid2(Cells(f, adaptive), xmin, xmax, ymin, ymax)
  {
    edges := [];
    var x := xmin;
    while x < xmax
      invariant xmin <= x && (x <= xmax || x == xmin)
      invariant edges == Grid2(Cells(f, adaptive), xmin, x, ymin, ymax)
    {
      var column := MarchColumn(f, x, ymin, ymax, adaptive);
      Grid2Step(Cells(f, adaptive), xmin, x, ymin, ymax);
      edges := edges + column;
      x := x + 1;
    }
    assert x == xmin || x == xmax;
  }

  /** Every segment of the result has both ends on the boundary of one cell of the box. */
  lemma MarchingSquaresInCells(f: Field2, xmin: int, xmax: int, ymin: int, ymax: int, adaptive: bool, e: Edge<V2>)
    requires e in Grid2(Cells(f, adaptive), xmin, xmax, ymin, ymax)
    ensures exists x, y :: xmin <= x < xmax && ymin <= y < ymax && OnCellBoundary2(e.v1, x, y) && OnCellBoundary2(e.v2, x, y)
  {
    Grid2Member(Cells(f, adaptive), xmin, xmax, ymin, ymax, e);
    var x, y :| xmin <= x < xmax && ymin <= y < ymax && e in Cells(f, adaptive)(x, y);
    assert e in SingleCell(f, x, y, adaptive);
  }

  /** At most two segments per cell. */
  lemma MarchingSquaresCount(f: Field2, xmin: int, xmax: int, ymin: int, ymax: int, adaptive: bool)
    requires xmin <= xmax && ymin <= ymax
    ensures |Grid2(Cells(f, adaptive), xmin, xmax, ymin, ymax)| <= (xmax - xmin) * ((ymax - ymin) * 2)
  {
    forall x, y | xmin <= x < xmax && ymin <= y < ymax ensures |Cells(f, adaptive)(x, y)| <= 2 {
      assert Cells(f, adaptive)(x, y) == SingleCell(f, x, y, adaptive);
    }
    Grid2Length(Cells(f, adaptive), xmin, xmax, ymin, ymax, 2);
  }
}
