/** The truncation step of `smooth_path_with_limit`. The spline through the
    path's cell centres and its sampling are not modelled: the samples arrive
    as an input sequence of points. The scan keeps the samples up to and
    including the first one that falls on an in-grid unknown cell. */
module Trajectory {
  import opened Grid

  /** A sampled point of the continuous trajectory. */
  datatype Point = Point(x: real, y: real)

  /** Python's `int()` on a float: truncation toward zero. */
  function TruncToInt(v: real): (r: int)
    ensures 0.0 <= v ==> r as real <= v < r as real + 1.0
    ensures v < 0.0 ==> r as real - 1.0 < v <= r as real
  {
    if v >= 0.0 then v.Floor else -((-v).Floor)
  }

  /** The centre of a cell, as the path is converted before fitting. */
  function CellCenter(c: Cell): Point {
    Point(c.x as real + 0.5, c.y as real + 0.5)
  }

  /** The cell a sample is mapped to: `int(s - 0.5)` on each coordinate. */
  function SampleCell(p: Point): Cell {
    Cell(TruncToInt(p.x - 0.5), TruncToInt(p.y - 0.5))
  }

  /** Mapping a cell's centre back gives the cell. */
  lemma CenterMapsBack(c: Cell)
    ensures SampleCell(CellCenter(c)) == c
  {
    assert CellCenter(c).x - 0.5 == c.x as real;
    assert CellCenter(c).y - 0.5 == c.y as real;
  }

  /** Because of the truncation toward zero, every coordinate strictly
      between -0.5 and 1.5 maps to 0; beyond that the mapping is the floor of
      `s - 0.5`. So points in the lower half of a cell (other than the first
      row or column) map to the previous cell. */
  lemma SampleIndexCases(s: real)
    ensures -0.5 < s < 1.5 ==> TruncToInt(s - 0.5) == 0
    ensures 0.5 <= s ==> TruncToInt(s - 0.5) == (s - 0.5).Floor
    ensures s <= -0.5 ==> TruncToInt(s - 0.5) == -((0.5 - s).Floor)
  {
  }

  /** The sample falls on a cell inside the grid whose value is unknown (3). */
  predicate HitsUnknown(grid: array2<int>, p: Point)
    reads grid
  {
    var c := SampleCell(p);
    Inside(grid, c) && grid[c.y, c.x] == UNKNOWN
  }

  /** The loop at the end of `smooth_path_with_limit`: returns the samples up
      to and including the first one on an unknown cell, or all of them. */
  method TruncateAtUnknown(grid: array2<int>, samples: seq<Point>) returns (trajectory: seq<Point>)
    ensures |trajectory| <= |samples| && trajectory == samples[..|trajectory|]
    ensures forall j :: 0 <= j < |trajectory| - 1 ==> !HitsUnknown(grid, samples[j])
    ensures (exists i :: 0 <= i < |samples| && HitsUnknown(grid, samples[i])) ==>
              |trajectory| >= 1 && HitsUnknown(grid, trajectory[|trajectory| - 1])
    ensures (forall i :: 0 <= i < |samples| ==> !HitsUnknown(grid, samples[i])) ==>
              trajectory == samples
  {
    for i := 0 to |samples|
      invariant forall j :: 0 <= j < i ==> !HitsUnknown(grid, samples[j])
    {
      var gridX, gridY := TruncToInt(samples[i].x - 0.5), TruncToInt(samples[i].y - 0.5);
      if 0 <= gridY < grid.Length0 && 0 <= gridX < grid.Length1 && grid[gridY, gridX] == UNKNOWN {
        assert HitsUnknown(grid, samples[i]);
        return samples[..i + 1];
      }
    }
    return samples;
  }
}
