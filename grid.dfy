/** Cells of the occupancy grid and the cell values shared by every stage.

    The grid is a two-dimensional array indexed `grid[y, x]`, as the numpy
    array of the original program is: `Length0` is the number of rows (the
    height) and `Length1` the number of columns (the width). */
module Grid {

  /** A cell written `(x, y)`: column first, row second. */
  datatype Cell = Cell(x: int, y: int)

  /** Raw obstacle grids hold 0 (free) or 1 (obstacle); sensed grids hold 1, 2 or 3. */
  const OBSTACLE: int := 1
  const KNOWN: int := 2
  const UNKNOWN: int := 3

  /** The cell lies inside the grid. */
  predicate Inside(grid: array2<int>, c: Cell) {
    0 <= c.x < grid.Length1 && 0 <= c.y < grid.Length0
  }

  /** The absolute value of `d`: zero exactly when `d` is, with the square of `d`. */
  function Abs(d: int): (a: nat)
    ensures a == 0 <==> d == 0
    ensures a * a == d * d
  {
    if d < 0 then -d else d
  }
}
