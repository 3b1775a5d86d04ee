/**
 * The order in which the meshing loops visit a box of cells: `for x in
 * range(..): for y in range(..): [for z in range(..):]`, concatenating what
 * each cell emits. Each sequence grows at its end, as a Python list does.
 */
module Grid {

  /** What cells (x, lo) .. (x, hi - 1) emit, in order. */
  function Row<T>(g: (int, int) -> seq<T>, x: int, lo: int, hi: int): seq<T>
    decreases hi - lo
  {
    if hi <= lo then [] else Row(g, x, lo, hi - 1) + g(x, hi - 1)
  }

  /** What the cells of [xlo, xhi) x [ylo, yhi) emit, x outermost. */
  function Grid2<T>(g: (int, int) -> seq<T>, xlo: int, xhi: int, ylo: int, yhi: int): seq<T>
    decreases xhi - xlo
  {
    if xhi <= xlo then [] else Grid2(g, xlo, xhi - 1, ylo, yhi) + Row(g, xhi - 1, ylo, yhi)
  }

  /** A row one cell longer ends with that cell's output. */
  lemma RowStep<T>(g: (int, int) -> seq<T>, x: int, lo: int, y: int)
    requires lo <= y
    ensures Row(g, x, lo, y + 1) == Row(g, x, lo, y) + g(x, y)
  {
  }

  /** A box one column wider ends with that column's row. */
  lemma Grid2Step<T>(g: (int, int) -> seq<T>, xlo: int, x: int, ylo: int, yhi: int)
    requires xlo <= x
    ensures Grid2(g, xlo, x + 1, ylo, yhi) == Grid2(g, xlo, x, ylo, yhi) + Row(g, x, ylo, yhi)
  {
  }

  /** The 2 x 2 box of offsets, in loop order. */
  lemma Grid2Square<T>(g: (int, int) -> seq<T>)
    ensures Grid2(g, 0, 2, 0, 2) == g(0, 0) + g(0, 1) + g(1, 0) + g(1, 1)
  {
    assert Row(g, 0, 0, 2) == g(0, 0) + g(0, 1);
    assert Row(g, 1, 0, 2) == g(1, 0) + g(1, 1);
  }

  lemma Grid2SquareLength<T>(g: (int, int) -> seq<T>)
    ensures |Grid2(g, 0, 2, 0, 2)| == |g(0, 0)| + |g(0, 1)| + |g(1, 0)| + |g(1, 1)|
  {
    Grid2Square(g);
  }

  lemma Grid2SquareMember<T>(g: (int, int) -> seq<T>, t: T)
    ensures t in Grid2(g, 0, 2, 0, 2) <==> t in g(0, 0) || t in g(0, 1) || t in g(1, 0) || t in g(1, 1)
  {
    Grid2Square(g);
  }

  /** A row of a 3D box one cell longer ends with that cell's output. */
  lemma Row3Step<T>(g: (int, int, int) -> seq<T>, x: int, y: int, lo: int, z: int)
    requires lo <= z
    ensures Row3(g, x, y, lo, z + 1) == Row3(g, x, y, lo, z) + g(x, y, z)
  {
  }

  lemma Plane3Step<T>(g: (int, int, int) -> seq<T>, x: int, ylo: int, y: int, zlo: int, zhi: int)
    requires ylo <= y
    ensures Plane3(g, x, ylo, y + 1, zlo, zhi) == Plane3(g, x, ylo, y, zlo, zhi) + Row3(g, x, y, zlo, zhi)
  {
  }

  lemma Grid3Step<T>(g: (int, int, int) -> seq<T>, xlo: int, x: int, ylo: int, yhi: int, zlo: int, zhi: int)
    requires xlo <= x
    ensures Grid3(g, xlo, x + 1, ylo, yhi, zlo, zhi) == Grid3(g, xlo, x, ylo, yhi, zlo, zhi) + Plane3(g, x, ylo, yhi, zlo, zhi)
  {
  }

  /** Everything `Row` emits comes from one of its cells, and every cell's output is in it. */
  lemma {:induction false} RowMember<T>(g: (int, int) -> seq<T>, x: int, lo: int, hi: int, t: T)
    ensures t in Row(g, x, lo, hi) <==> exists y :: lo <= y < hi && t in g(x, y)
    decreases hi - lo
  {
    if hi > lo {
      RowMember(g, x, lo, hi - 1, t);
      if t in g(x, hi - 1) {
        assert t in Row(g, x, lo, hi);
      }
    }
  }

  lemma {:induction false} Grid2Member<T>(g: (int, int) -> seq<T>, xlo: int, xhi: int, ylo: int, yhi: int, t: T)
    ensures t in Grid2(g, xlo, xhi, ylo, yhi) <==> exists x, y :: xlo <= x < xhi && ylo <= y < yhi && t in g(x, y)
    decreases xhi - xlo
  {
    if xhi > xlo {
      Grid2Member(g, xlo, xhi - 1, ylo, yhi, t);
      RowMember(g, xhi - 1, ylo, yhi, t);
    }
  }

  /** A cell that emits at most `k` items makes a row of at most `k` per cell. */
  lemma {:induction false} RowLength<T>(g: (int, int) -> seq<T>, x: int, lo: int, hi: int, k: nat)
    requires lo <= hi
    requires forall y :: lo <= y < hi ==> |g(x, y)| <= k
    ensures |Row(g, x, lo, hi)| <= (hi - lo) * k
    decreases hi - lo
  {
    if hi > lo {
      RowLength(g, x, lo, hi - 1, k);
      assert (hi - 1 - lo) * k + k == (hi - lo) * k;
    }
  }

  lemma {:induction false} Grid2Length<T>(g: (int, int) -> seq<T>, xlo: int, xhi: int, ylo: int, yhi: int, k: nat)
    requires xlo <= xhi && ylo <= yhi
    requires forall x, y :: xlo <= x < xhi && ylo <= y < yhi ==> |g(x, y)| <= k
    ensures |Grid2(g, xlo, xhi, ylo, yhi)| <= (xhi - xlo) * ((yhi - ylo) * k)
    decreases xhi - xlo
  {
    if xhi > xlo {
      var n, w := xhi - 1 - xlo, (yhi - ylo) * k;
      Grid2Length(g, xlo, xhi - 1, ylo, yhi, k);
      RowLength(g, xhi - 1, ylo, yhi, k);
      assert (n + 1) * w == n * w + w;
    }
  }

  /**
   * Two passes over the sides of a box of cells, one over the vertical
   * interior sides and one over the horizontal ones, each emitting at most
   * one item per side.
   */
  lemma {:induction false} SidesLength<T>(g: (int, int) -> seq<T>, h: (int, int) -> seq<T>, xmin: int, xmax: int, ymin: int, ymax: int)
    requires xmin < xmax && ymin < ymax
    requires forall x, y :: xmin + 1 <= x < xmax && ymin <= y < ymax ==> |g(x, y)| <= 1
    requires forall x, y :: xmin <= x < xmax && ymin + 1 <= y < ymax ==> |h(x, y)| <= 1
    ensures |Grid2(g, xmin + 1, xmax, ymin, ymax) + Grid2(h, xmin, xmax, ymin + 1, ymax)| <=
      (xmax - xmin - 1) * (ymax - ymin) + (xmax - xmin) * (ymax - ymin - 1)
  {
    Grid2Length(g, xmin + 1, xmax, ymin, ymax, 1);
    Grid2Length(h, xmin, xmax, ymin + 1, ymax, 1);
  }

  /** What cells (x, y, lo) .. (x, y, hi - 1) emit, in order. */
  function Row3<T>(g: (int, int, int) -> seq<T>, x: int, y: int, lo: int, hi: int): seq<T>
    decreases hi - lo
  {
    if hi <= lo then [] else Row3(g, x, y, lo, hi - 1) + g(x, y, hi - 1)
  }

  /** What cells (x, ylo..yhi-1, zlo..zhi-1) emit, y outermost. */
  function Plane3<T>(g: (int, int, int) -> seq<T>, x: int, ylo: int, yhi: int, zlo: int, zhi: int): seq<T>
    decreases yhi - ylo
  {
    if yhi <= ylo then [] else Plane3(g, x, ylo, yhi - 1, zlo, zhi) + Row3(g, x, yhi - 1, zlo, zhi)
  }

  /** What the cells of the box emit, x outermost and z innermost. */
  function Grid3<T>(g: (int, int, int) -> seq<T>, xlo: int, xhi: int, ylo: int, yhi: int, zlo: int, zhi: int): seq<T>
    decreases xhi - xlo
  {
    if xhi <= xlo then [] else Grid3(g, xlo, xhi - 1, ylo, yhi, zlo, zhi) + Plane3(g, xhi - 1, ylo, yhi, zlo, zhi)
  }

  lemma {:induction false} Row3Member<T>(g: (int, int, int) -> seq<T>, x: int, y: int, lo: int, hi: int, t: T)
    ensures t in Row3(g, x, y, lo, hi) <==> exists z :: lo <= z < hi && t in g(x, y, z)
    decreases hi - lo
  {
    if hi > lo {
      Row3Member(g, x, y, lo, hi - 1, t);
      if t in g(x, y, hi - 1) {
        assert t in Row3(g, x, y, lo, hi);
      }
    }
  }

  lemma {:induction false} Plane3Member<T>(g: (int, int, int) -> seq<T>, x: int, ylo: int, yhi: int, zlo: int, zhi: int, t: T)
    ensures t in Plane3(g, x, ylo, yhi, zlo, zhi) <==> exists y, z :: ylo <= y < yhi && zlo <= z < zhi && t in g(x, y, z)
    decreases yhi - ylo
  {
    if yhi > ylo {
      Plane3Member(g, x, ylo, yhi - 1, zlo, zhi, t);
      Row3Member(g, x, yhi - 1, zlo, zhi, t);
    }
  }

  lemma {:induction false} Grid3Member<T>(g: (int, int, int) -> seq<T>, xlo: int, xhi: int, ylo: int, yhi: int, zlo: int, zhi: int, t: T)
    ensures t in Grid3(g, xlo, xhi, ylo, yhi, zlo, zhi) <==>
      exists x, y, z :: xlo <= x < xhi && ylo <= y < yhi && zlo <= z < zhi && t in g(x, y, z)
    decreases xhi - xlo
  {
    if xhi > xlo {
      var left, plane := Grid3(g, xlo, xhi - 1, ylo, yhi, zlo, zhi), Plane3(g, xhi - 1, ylo, yhi, zlo, zhi);
      assert Grid3(g, xlo, xhi, ylo, yhi, zlo, zhi) == left + plane;
      Grid3Member(g, xlo, xhi - 1, ylo, yhi, zlo, zhi, t);
      Plane3Member(g, xhi - 1, ylo, yhi, zlo, zhi, t);
      if t in left + plane {
        if t in left {
          var x, y, z :| xlo <= x < xhi - 1 && ylo <= y < yhi && zlo <= z < zhi && t in g(x, y, z);
          assert xlo <= x < xhi;
        } else {
          var y, z :| ylo <= y < yhi && zlo <= z < zhi && t in g(xhi - 1, y, z);
          assert xlo <= xhi - 1 < xhi;
        }
      }
      if exists x, y, z :: xlo <= x < xhi && ylo <= y < yhi && zlo <= z < zhi && t in g(x, y, z) {
        var x, y, z :| xlo <= x < xhi && ylo <= y < yhi && zlo <= z < zhi && t in g(x, y, z);
        if x < xhi - 1 {
          assert t in left;
        } else {
          assert t in plane;
        }
      }
    }
  }

  /** A row splits at any cell between its ends. */
  lemma {:induction false} Row3Split<T>(g: (int, int, int) -> seq<T>, x: int, y: int, lo: int, mid: int, hi: int)
    requires lo <= mid <= hi
    ensures Row3(g, x, y, lo, hi) == Row3(g, x, y, lo, mid) + Row3(g, x, y, mid, hi)
    decreases hi - mid
  {
    if hi > mid {
      Row3Split(g, x, y, lo, mid, hi - 1);
    }
  }

  lemma {:induction false} Plane3Split<T>(g: (int, int, int) -> seq<T>, x: int, ylo: int, ymid: int, yhi: int, zlo: int, zhi: int)
    requires ylo <= ymid <= yhi
    ensures Plane3(g, x, ylo, yhi, zlo, zhi) == Plane3(g, x, ylo, ymid, zlo, zhi) + Plane3(g, x, ymid, yhi, zlo, zhi)
    decreases yhi - ymid
  {
    if yhi > ymid {
      Plane3Split(g, x, ylo, ymid, yhi - 1, zlo, zhi);
    }
  }

  lemma {:induction false} Grid3Split<T>(g: (int, int, int) -> seq<T>, xlo: int, xmid: int, xhi: int, ylo: int, yhi: int, zlo: int, zhi: int)
    requires xlo <= xmid <= xhi
    ensures Grid3(g, xlo, xhi, ylo, yhi, zlo, zhi) == Grid3(g, xlo, xmid, ylo, yhi, zlo, zhi) + Grid3(g, xmid, xhi, ylo, yhi, zlo, zhi)
    decreases xhi - xmid
  {
    if xhi > xmid {
      Grid3Split(g, xlo, xmid, xhi - 1, ylo, yhi, zlo, zhi);
    }
  }

  /**
   * What the cells of the box emit before the cell (x, y, z) in loop order,
   * with (x, y, z) on the box's x, y and z ranges' loop positions.
   */
  function Upto<T>(g: (int, int, int) -> seq<T>, xlo: int, ylo: int, yhi: int, zlo: int, zhi: int, x: int, y: int, z: int): seq<T> {
    Grid3(g, xlo, x, ylo, yhi, zlo, zhi) + Plane3(g, x, ylo, y, zlo, zhi) + Row3(g, x, y, zlo, z)
  }

  /** One more cell of a row. */
  lemma UptoStep<T>(g: (int, int, int) -> seq<T>, xlo: int, ylo: int, yhi: int, zlo: int, zhi: int, x: int, y: int, z: int)
    requires zlo <= z
    ensures Upto(g, xlo, ylo, yhi, zlo, zhi, x, y, z + 1) == Upto(g, xlo, ylo, yhi, zlo, zhi, x, y, z) + g(x, y, z)
    ensures g(x, y, z) == [] ==> Upto(g, xlo, ylo, yhi, zlo, zhi, x, y, z + 1) == Upto(g, xlo, ylo, yhi, zlo, zhi, x, y, z)
  {
  }

  /** The end of a row is the start of the next one. */
  lemma UptoNextRow<T>(g: (int, int, int) -> seq<T>, xlo: int, ylo: int, yhi: int, zlo: int, zhi: int, x: int, y: int, z: int)
    requires ylo <= y && (z == zhi || (z == zlo && zhi <= zlo))
    ensures Upto(g, xlo, ylo, yhi, zlo, zhi, x, y, z) == Upto(g, xlo, ylo, yhi, zlo, zhi, x, y + 1, zlo)
  {
  }

  /** The end of a plane is the start of the next one. */
  lemma UptoNextPlane<T>(g: (int, int, int) -> seq<T>, xlo: int, ylo: int, yhi: int, zlo: int, zhi: int, x: int, y: int)
    requires xlo <= x && (y == yhi || (y == ylo && yhi <= ylo))
    ensures Upto(g, xlo, ylo, yhi, zlo, zhi, x, y, zlo) == Upto(g, xlo, ylo, yhi, zlo, zhi, x + 1, ylo, zlo)
  {
  }

  /** Before the first cell nothing is emitted; after the last plane, everything. */
  lemma UptoEnds<T>(g: (int, int, int) -> seq<T>, xlo: int, xhi: int, ylo: int, yhi: int, zlo: int, zhi: int)
    ensures Upto(g, xlo, ylo, yhi, zlo, zhi, xlo, ylo, zlo) == []
    ensures xlo <= xhi ==> Upto(g, xlo, ylo, yhi, zlo, zhi, xhi, ylo, zlo) == Grid3(g, xlo, xhi, ylo, yhi, zlo, zhi)
  {
  }

  /** Where a loop `for v in range(lo, hi)` leaves its variable. */
  function End(lo: int, hi: int): int {
    if hi > lo then hi else lo
  }

  /**
   * What the cells emit before the cell (x, y, z), one loop step at a time:
   * the previous cell of the row, else the end of the previous row, else the
   * end of the previous plane.
   */
  function Prefix3<T>(g: (int, int, int) -> seq<T>, xlo: int, ylo: int, yhi: int, zlo: int, zhi: int, x: int, y: int, z: int): seq<T>
    requires xlo <= x && ylo <= y <= End(ylo, yhi) && zlo <= z <= End(zlo, zhi)
    decreases x - xlo, y - ylo, z - zlo
  {
    if z > zlo then Prefix3(g, xlo, ylo, yhi, zlo, zhi, x, y, z - 1) + g(x, y, z - 1)
    else if y > ylo then Prefix3(g, xlo, ylo, yhi, zlo, zhi, x, y - 1, End(zlo, zhi))
    else if x > xlo then Prefix3(g, xlo, ylo, yhi, zlo, zhi, x - 1, End(ylo, yhi), zlo)
    else []
  }

  /** Stepping through the loops builds the same prefix as whole planes, rows and cells. */
  lemma {:induction false} Prefix3IsUpto<T>(g: (int, int, int) -> seq<T>, xlo: int, ylo: int, yhi: int, zlo: int, zhi: int, x: int, y: int, z: int)
    requires xlo <= x && ylo <= y <= End(ylo, yhi) && zlo <= z <= End(zlo, zhi)
    ensures Prefix3(g, xlo, ylo, yhi, zlo, zhi, x, y, z) == Upto(g, xlo, ylo, yhi, zlo, zhi, x, y, z)
    decreases x - xlo, y - ylo, z - zlo
  {
    if z > zlo {
      Prefix3IsUpto(g, xlo, ylo, yhi, zlo, zhi, x, y, z - 1);
      UptoStep(g, xlo, ylo, yhi, zlo, zhi, x, y, z - 1);
    } else if y > ylo {
      Prefix3IsUpto(g, xlo, ylo, yhi, zlo, zhi, x, y - 1, End(zlo, zhi));
      UptoNextRow(g, xlo, ylo, yhi, zlo, zhi, x, y - 1, End(zlo, zhi));
    } else if x > xlo {
      Prefix3IsUpto(g, xlo, ylo, yhi, zlo, zhi, x - 1, End(ylo, yhi), zlo);
      UptoNextPlane(g, xlo, ylo, yhi, zlo, zhi, x - 1, End(ylo, yhi));
    }
  }

  /** When the outer loop is done, the prefix is everything the box emits. */
  lemma Prefix3Whole<T>(g: (int, int, int) -> seq<T>, xlo: int, xhi: int, ylo: int, yhi: int, zlo: int, zhi: int)
    ensures Prefix3(g, xlo, ylo, yhi, zlo, zhi, End(xlo, xhi), ylo, zlo) == Grid3(g, xlo, xhi, ylo, yhi, zlo, zhi)
  {
    Prefix3IsUpto(g, xlo, ylo, yhi, zlo, zhi, End(xlo, xhi), ylo, zlo);
    UptoEnds(g, xlo, xhi, ylo, yhi, zlo, zhi);
  }

  /** Whatever follows a prefix leaves it a prefix. */
  lemma PrefixExtend<T>(a: seq<T>, b: seq<T>, c: seq<T>, d: seq<T>)
    requires b <= c
    ensures a + b <= a + c + d
  {
    assert (a + c + d)[..|a + b|] == a + b;
  }

  /** A row up to and including z is a prefix of the plane from that row on. */
  lemma RowWithin<T>(g: (int, int, int) -> seq<T>, x: int, y: int, yhi: int, zlo: int, zhi: int, z: int)
    requires y < yhi && zlo <= z < zhi
    ensures Row3(g, x, y, zlo, z + 1) <= Plane3(g, x, y, yhi, zlo, zhi)
  {
    Row3Split(g, x, y, zlo, z + 1, zhi);
    Plane3Split(g, x, y, y + 1, yhi, zlo, zhi);
    assert Plane3(g, x, y, y + 1, zlo, zhi) == Row3(g, x, y, zlo, zhi);
    PrefixExtend([], Row3(g, x, y, zlo, z + 1), Row3(g, x, y, zlo, z + 1) + Row3(g, x, y, z + 1, zhi), Plane3(g, x, y + 1, yhi, zlo, zhi));
  }

  /** A plane up to and including (y, z) is a prefix of the whole plane. */
  lemma PlaneWithin<T>(g: (int, int, int) -> seq<T>, x: int, ylo: int, yhi: int, zlo: int, zhi: int, y: int, z: int)
    requires ylo <= y < yhi && zlo <= z < zhi
    ensures Plane3(g, x, ylo, y, zlo, zhi) + Row3(g, x, y, zlo, z + 1) <= Plane3(g, x, ylo, yhi, zlo, zhi)
  {
    RowWithin(g, x, y, yhi, zlo, zhi, z);
    Plane3Split(g, x, ylo, y, yhi, zlo, zhi);
    PrefixExtend(Plane3(g, x, ylo, y, zlo, zhi), Row3(g, x, y, zlo, z + 1), Plane3(g, x, y, yhi, zlo, zhi), []);
  }

  /** A grid is the planes before x, plane x, and the planes after it. */
  lemma Grid3Around<T>(g: (int, int, int) -> seq<T>, xlo: int, x: int, xhi: int, ylo: int, yhi: int, zlo: int, zhi: int)
    requires xlo <= x < xhi
    ensures Grid3(g, xlo, xhi, ylo, yhi, zlo, zhi) ==
      Grid3(g, xlo, x, ylo, yhi, zlo, zhi) + Plane3(g, x, ylo, yhi, zlo, zhi) + Grid3(g, x + 1, xhi, ylo, yhi, zlo, zhi)
  {
    Grid3Split(g, xlo, x, xhi, ylo, yhi, zlo, zhi);
    Grid3Split(g, x, x + 1, xhi, ylo, yhi, zlo, zhi);
    assert Grid3(g, x, x + 1, ylo, yhi, zlo, zhi) == Plane3(g, x, ylo, yhi, zlo, zhi);
  }

  /** Three pieces whose last two form a prefix of the middle of three others. */
  lemma PrefixJoin<T>(a: seq<T>, b: seq<T>, c: seq<T>, pl: seq<T>, rest: seq<T>)
    requires b + c <= pl
    ensures a + b + c <= a + pl + rest
  {
    assert a + b + c == a + (b + c);
    PrefixExtend(a, b + c, pl, rest);
  }

  /** The cells up to and including (x, y, z) in loop order come first in the whole grid. */
  lemma Prefix3Within<T>(g: (int, int, int) -> seq<T>, xlo: int, xhi: int, ylo: int, yhi: int, zlo: int, zhi: int, x: int, y: int, z: int)
    requires xlo <= x < xhi && ylo <= y < yhi && zlo <= z < zhi
    ensures Prefix3(g, xlo, ylo, yhi, zlo, zhi, x, y, z + 1) <= Grid3(g, xlo, xhi, ylo, yhi, zlo, zhi)
  {
    Prefix3IsUpto(g, xlo, ylo, yhi, zlo, zhi, x, y, z + 1);
    PlaneWithin(g, x, ylo, yhi, zlo, zhi, y, z);
    Grid3Around(g, xlo, x, xhi, ylo, yhi, zlo, zhi);
    PrefixJoin(Grid3(g, xlo, x, ylo, yhi, zlo, zhi), Plane3(g, x, ylo, y, zlo, zhi), Row3(g, x, y, zlo, z + 1),
               Plane3(g, x, ylo, yhi, zlo, zhi), Grid3(g, x + 1, xhi, ylo, yhi, zlo, zhi));
  }
}
