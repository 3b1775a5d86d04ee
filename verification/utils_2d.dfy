/** The 2D point type shared by the 2D meshing methods (utils_2d.py). */
module Utils2d {

  datatype V2 = V2(x: real, y: real)

  /** A point of the closed unit cell whose lower-left corner is (x, y). */
  predicate InCell2(p: V2, x: int, y: int) {
    x as real <= p.x <= x as real + 1.0 && y as real <= p.y <= y as real + 1.0
  }

  /** A point on the boundary of the unit cell whose lower-left corner is (x, y). */
  predicate OnCellBoundary2(p: V2, x: int, y: int) {
    InCell2(p, x, y) &&
    (p.x == x as real || p.x == x as real + 1.0 || p.y == y as real || p.y == y as real + 1.0)
  }
}
