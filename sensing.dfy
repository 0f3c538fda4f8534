/** The sensing filter: from a raw obstacle grid, an observer cell and a
    sensing radius it builds the grid of what the observer knows. */
module Sensing {
  import opened Grid

  /** Squared Euclidean distance between two cells. */
  function Dist2(a: Cell, b: Cell): (d: nat)
    ensures d == 0 <==> a == b
  {
    var dx, dy := a.x - b.x, a.y - b.y;
    assert dx * dx >= 0 && dy * dy >= 0;
    assert dx != 0 ==> dx * dx > 0;
    assert dy != 0 ==> dy * dy > 0;
    dx * dx + dy * dy
  }

  /** The value one cell takes after sensing: a raw obstacle stays an
      obstacle, a free cell no farther than `radius` from the observer
      becomes known, and every other cell stays unknown. The Euclidean test
      `sqrt(d2) <= radius` is written as `d2 <= radius * radius`, which
      EuclideanTestAgrees shows to be the same test. */
  function SensedValue(raw: int, c: Cell, observer: Cell, radius: nat): (v: int)
    ensures v == OBSTACLE || v == KNOWN || v == UNKNOWN
    ensures v == OBSTACLE <==> raw == OBSTACLE
  {
    if raw == OBSTACLE then OBSTACLE
    else if Dist2(c, observer) <= radius * radius then KNOWN
    else UNKNOWN
  }

  /** For a non-negative distance `e` whose square is the squared distance
      (that is, `e` is the square root the original computes), comparing `e`
      with the radius gives the same cell value as the integer comparison. */
  lemma EuclideanTestAgrees(raw: int, c: Cell, observer: Cell, radius: nat, e: real)
    requires 0.0 <= e && e * e == Dist2(c, observer) as real
    ensures SensedValue(raw, c, observer, radius) ==
            if raw == OBSTACLE then OBSTACLE
            else if e <= radius as real then KNOWN
            else UNKNOWN
  {
    var r := radius as real;
    var d := Dist2(c, observer);
    assert (radius * radius) as real == r * r;
    if e <= r {
      RealSquareMono(e, r);
      assert d as real <= r * r;
      assert d <= radius * radius;
    } else {
      RealSquareStrict(r, e);
      assert (radius * radius) as real < d as real;
    }
  }

  lemma RealSquareMono(a: real, b: real)
    requires 0.0 <= a <= b
    ensures a * a <= b * b
  {
    assert a * a <= a * b;
    assert a * b <= b * b;
  }

  lemma RealSquareStrict(a: real, b: real)
    requires 0.0 <= a < b
    ensures a * a < b * b
  {
    var lo := a * a;
    var mid := a * b;
    var hi := b * b;
    assert lo <= mid by { assert a * (b - a) >= 0.0; }
    assert mid < hi by { assert b * (b - a) > 0.0; }
  }

  lemma SquareMono(a: nat, b: nat)
    requires a <= b
    ensures a * a <= b * b
  {
    assert a * a <= a * b;
    assert a * b <= b * b;
  }

  /** With radius 0 the only free cell that becomes known is the observer's own. */
  lemma RadiusZeroSensesObserverOnly(raw: int, c: Cell, observer: Cell)
    ensures SensedValue(raw, c, observer, 0) == KNOWN <==> raw != OBSTACLE && c == observer
  {
  }

  /** A larger radius knows at least every cell a smaller one knows. */
  lemma SensingMonotone(raw: int, c: Cell, observer: Cell, r1: nat, r2: nat)
    requires r1 <= r2
    requires SensedValue(raw, c, observer, r1) == KNOWN
    ensures SensedValue(raw, c, observer, r2) == KNOWN
  {
    SquareMono(r1, r2);
  }

  /** A radius at least as long as the grid's diagonal makes every free cell
      known when the observer stands inside the grid. */
  lemma WideRadiusKnowsAllFree(grid: array2<int>, raw: int, c: Cell, observer: Cell, radius: nat)
    requires Inside(grid, c) && Inside(grid, observer)
    requires (grid.Length1 - 1) * (grid.Length1 - 1) + (grid.Length0 - 1) * (grid.Length0 - 1) <= radius * radius
    requires raw != OBSTACLE
    ensures SensedValue(raw, c, observer, radius) == KNOWN
  {
    var w, h := grid.Length1 - 1, grid.Length0 - 1;
    var ax, ay := Abs(c.x - observer.x), Abs(c.y - observer.y);
    assert ax <= w && ay <= h;
    SquareMono(ax, w);
    SquareMono(ay, h);
    assert Dist2(c, observer) == ax * ax + ay * ay;
  }

  /** Builds the sensed grid (every cell starts unknown, then each cell is
      visited row by row). The raw grid is only read. */
  method UpdateGridWithSensing(grid: array2<int>, observer: Cell, radius: nat)
    returns (sensed: array2<int>)
    ensures fresh(sensed) && unchanged(grid)
    ensures sensed.Length0 == grid.Length0 && sensed.Length1 == grid.Length1
    ensures forall y, x :: 0 <= y < grid.Length0 && 0 <= x < grid.Length1 ==>
              sensed[y, x] == SensedValue(grid[y, x], Cell(x, y), observer, radius)
  {
    var rows, cols := grid.Length0, grid.Length1;
    sensed := new int[rows, cols]((_, _) => UNKNOWN);
    for y := 0 to rows
      invariant forall j, i :: 0 <= j < y && 0 <= i < cols ==>
                  sensed[j, i] == SensedValue(grid[j, i], Cell(i, j), observer, radius)
      invariant forall j, i :: y <= j < rows && 0 <= i < cols ==> sensed[j, i] == UNKNOWN
    {
      for x := 0 to cols
        invariant forall j, i :: 0 <= j < y && 0 <= i < cols ==>
                    sensed[j, i] == SensedValue(grid[j, i], Cell(i, j), observer, radius)
        invariant forall i :: 0 <= i < x ==>
                    sensed[y, i] == SensedValue(grid[y, i], Cell(i, y), observer, radius)
        invariant forall j, i :: y <= j < rows && 0 <= i < cols && (j != y || x <= i) ==>
                    sensed[j, i] == UNKNOWN
      {
        if grid[y, x] == OBSTACLE {
          sensed[y, x] := OBSTACLE;
        } else if Dist2(Cell(x, y), observer) <= radius * radius {
          sensed[y, x] := KNOWN;
        }
      }
    }
  }
}
