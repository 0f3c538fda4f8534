# Grid path planning under partial sensing, modelled in Dafny

This project models the core of `JPS_Algorithm/main.py`: three algorithms
that run one after another over a small integer occupancy grid. The grid is
indexed `grid[y, x]` and is modelled as an `array2<int>`. `Length0` is the
number of rows and `Length1` the number of columns.

1. **Sensing filter** (`update_grid_with_sensing`, module `Sensing`).
   It builds a fresh grid from three inputs: a raw obstacle grid, an observer
   cell and a radius. A raw obstacle (1) stays 1. A free cell no farther than
   the radius from the observer becomes 2 (known). Every other cell stays
   3 (unknown). The source compares `sqrt(dx² + dy²) <= radius`. The model
   compares `dx² + dy² <= radius²` instead, and `EuclideanTestAgrees` proves
   the two tests agree.
2. **Grid search** (`jump_point_search`, modules `Frontier`, `Measure`,
   `Search`). Despite its name it does no jump-point pruning. It is a
   best-first search over the 8-connected grid:
   - cardinal steps cost 1 and diagonal steps cost 1.4;
   - the heuristic is Manhattan distance;
   - only cells equal to 1 block a step;
   - a diagonal step is refused when either corner cell is an obstacle.

   Costs are counted in tenths (10 and 14) and the heuristic is multiplied
   by 10, so every cost is a natural number.

   The frontier is the queue's sequence of `(priority, (x, y))` entries.
   `get` removes the least entry in Python's tuple order. `cost_so_far` and
   `came_from` are maps. Path reconstruction follows `came_from` back from
   the goal and falls back to the start for any cell without an entry.

   The main theorem is on `JumpPointSearch`:
   - the path starts at `start` and ends at `goal`;
   - it is a legal walk exactly when the goal is reachable;
   - when the goal is unreachable it is `[start, goal]`;
   - no cell appears twice.

   The loop is proved to terminate. The measure is the number of grid cells
   without a cost, then the sum of recorded costs, then the queue length.
3. **Trajectory truncation** (the scan at the end of
   `smooth_path_with_limit`, module `Trajectory`). The sampled points are an
   input. The scan maps each sample to a cell with `int(s - 0.5)` on each
   coordinate, which truncates toward zero. It returns the samples up to
   and including the first one that lands on an in-grid unknown cell, or all
   of them when none does.

Behaviour of the code that a reader might not expect, and that the model
keeps:
- The queue compares whole `(priority, (x, y))` tuples, so entries with
  equal priority are popped in `(x, y)` order.
- An unreachable goal still yields a path: the two-cell list
  `[start, goal]`, because backtracking from a goal without a predecessor
  steps straight to the start.
- A sample is mapped to the cell `(int(sx - 0.5), int(sy - 0.5))`.
  `SampleIndexCases` states what that gives: every coordinate strictly
  between -0.5 and 1.5 maps to 0, and from 1.5 upward a point in the lower
  half of a cell maps to the previous cell.
- The search checks neither `start` nor `goal`. The model requires only
  that `start` lies inside the grid. Without that, a diagonal corner test
  could index outside the array, where numpy would raise an error or wrap
  a negative index. `start` may be an obstacle and `goal` may be any cell.
- The sensing filter accepts any observer position, inside the grid or not.

## Model

| member | source | states |
|---|---|---|
| `Sensing.Dist2` | JPS_Algorithm/main.py:27 | the squared distance is zero exactly when the two cells coincide |
| `Sensing.SensedValue` | JPS_Algorithm/main.py:28-31 | a sensed value is always 1, 2 or 3, and it is 1 exactly when the raw cell is 1 |
| `Sensing.EuclideanTestAgrees` | JPS_Algorithm/main.py:27-31 | for every non-negative `e` with `e² = dx² + dy²` (the source's square root), comparing `e <= radius` gives the same cell value as the integer test |
| `Sensing.RadiusZeroSensesObserverOnly` | JPS_Algorithm/main.py:27-31 | with radius 0 a cell becomes known exactly when it is free and is the observer's own cell |
| `Sensing.SensingMonotone` | JPS_Algorithm/main.py:27-31 | a cell known under some radius is known under every larger radius |
| `Sensing.WideRadiusKnowsAllFree` | JPS_Algorithm/main.py:25-31 | with the observer inside the grid and a radius at least the grid's diagonal, every free cell becomes known |
| `Sensing.UpdateGridWithSensing` | JPS_Algorithm/main.py:20-33 | the result is a new array with the raw grid's shape; every cell equals `SensedValue` of the raw cell; the raw grid is unchanged |
| `Frontier.EntryLe` | JPS_Algorithm/main.py:101-129 | defines the order `get` uses on `(priority, (x, y))` entries: smaller priority first, then smaller `x`, then smaller `y` |
| `Frontier.EntryLeIsTotalOrder` | JPS_Algorithm/main.py:101-109 | the `(priority, x, y)` tuple order is reflexive, total, antisymmetric and transitive, so the least entry is unique |
| `Frontier.MinIndex` | JPS_Algorithm/main.py:109 | returns a position in the queue whose entry is at most every entry |
| `Frontier.Get` | JPS_Algorithm/main.py:108-109 | removes one occurrence of the least entry; the rest is the old queue minus that entry, as a multiset |
| `Measure.RowContains` | JPS_Algorithm/main.py:116 | each column index of a row lies in that row's cell list |
| `Measure.AllCellsContains` | JPS_Algorithm/main.py:116 | every in-bounds cell lies in the list the termination measure ranges over |
| `Measure.FirstCostLowersUnreached` | JPS_Algorithm/main.py:126-129 | recording a first cost for a grid cell strictly lowers the number of cells without a cost |
| `Measure.SmallerCostLowersSum` | JPS_Algorithm/main.py:126-129 | replacing a cost by a strictly smaller one keeps the number of cells without a cost and strictly lowers the sum of costs |
| `Search.Move` | JPS_Algorithm/main.py:116-123 | defines a legal step: both cells inside the grid, the target one of the eight neighbours and not an obstacle, and for a diagonal step neither corner cell `(b.x, a.y)` nor `(a.x, b.y)` an obstacle |
| `Search.DirIndex` | JPS_Algorithm/main.py:106 | every one of the eight offsets has a position in the direction list |
| `Search.DirIndexOfDirection` | JPS_Algorithm/main.py:106 | the eight directions are distinct: position `k` maps back to `k` |
| `Search.DirectionIsOffset` | JPS_Algorithm/main.py:106 | every direction is an offset of at most one on each axis and not `(0, 0)` |
| `Search.StepTestsAreMove` | JPS_Algorithm/main.py:116-123 | the three tests the loop applies before it costs a neighbour (inside the grid, not an obstacle, no obstacle in either corner of a diagonal step) hold exactly when the step is legal |
| `Search.Heuristic` | JPS_Algorithm/main.py:97-98 | the Manhattan distance is zero exactly when the two cells coincide |
| `Search.StepCost` | JPS_Algorithm/main.py:125 | a step costs between 10 and 14 tenths |
| `Search.RelaxedAfterLowering` | JPS_Algorithm/main.py:126-127 | lowering one cell's cost keeps every other cell's outgoing steps relaxed |
| `Search.WalkStaysInCost` | JPS_Algorithm/main.py:108-130 | once every costed cell is relaxed, every legal walk from a costed cell ends in a costed cell |
| `Search.WalksEndInCost` | JPS_Algorithm/main.py:108-130 | once the queue is empty, every cell reachable from the start has a cost |
| `Search.SkipKeepsState` | JPS_Algorithm/main.py:116-126 | a direction that is out of bounds, blocked, corner-cut or not cheaper changes no state and keeps the expansion invariant |
| `Search.RelaxedBelowSkip` | JPS_Algorithm/main.py:116-126 | a skipped direction leaves the step in that direction relaxed, extending the relaxed range by one |
| `Search.NewEntriesWiden` | JPS_Algorithm/main.py:114-130 | entries pushed for the first `i` directions are also described as pushed for the first `i + 1` |
| `Search.TreeAfterUpdate` | JPS_Algorithm/main.py:125-130 | recording a first or lower cost with `current` as predecessor keeps the invariant of costs and predecessors: start cost 0 and no predecessor, every predecessor one legal step away and cheaper by at least that step |
| `Search.LinksAfterUpdate` | JPS_Algorithm/main.py:126-130 | after recording `current` as the predecessor of a neighbour with a first or lower cost, every predecessor is still one legal step away and cheaper by at least that step |
| `Search.LoweredAfterUpdate` | JPS_Algorithm/main.py:126-127 | a first or lower cost for one cell keeps every cost recorded before the expansion kept or lowered |
| `Search.UntouchedAfterUpdate` | JPS_Algorithm/main.py:126-130 | the cell that gets a new entry is the only one whose cost and predecessor change, so every cell without an entry keeps both |
| `Search.OthersClosedAfterUpdate` | JPS_Algorithm/main.py:126-129 | after an update every costed cell other than `current` is still queued or relaxed |
| `Search.RelaxedBelowAfterUpdate` | JPS_Algorithm/main.py:125-127 | after an update the steps out of `current` in the directions handled so far are relaxed |
| `Search.NewEntriesAfterUpdate` | JPS_Algorithm/main.py:126-130 | every entry pushed during the expansion is for a legal neighbour with a first or strictly lower cost, its predecessor is `current`, and its priority is its cost plus ten times the heuristic |
| `Search.ProgressAfterUpdate` | JPS_Algorithm/main.py:126-129 | a push comes with a lexicographic decrease of (cells without cost, sum of costs) |
| `Search.UpdateKeepsState` | JPS_Algorithm/main.py:125-130 | an update keeps the whole expansion invariant for the next direction |
| `Search.TryDirection` | JPS_Algorithm/main.py:114-130 | one pass of the direction loop keeps the expansion invariant |
| `Search.Expand` | JPS_Algorithm/main.py:114-130 | an expansion keeps the invariants of costs, predecessors and queue; it leaves `current` relaxed; it only lowers costs; each new entry follows a first or lower cost for a legal neighbour, with priority = cost + 10 × heuristic; every cell without a new entry keeps its cost and predecessor (and has them exactly when it had them before); any push lowers the termination measure |
| `Search.ExpandDone` | JPS_Algorithm/main.py:114-130 | once all eight directions are handled, `current` is relaxed and the state has every property `Expand` promises |
| `Search.TreeIsChain` | JPS_Algorithm/main.py:135-137 | the invariant of costs and predecessors makes each predecessor strictly cheaper than its cell, so backtracking terminates |
| `Search.Trail` | JPS_Algorithm/main.py:133-138 | defines the cells the backtracking loop visits from a cell: the cell, then the trail from its predecessor; a cell without a predecessor is followed by the start; the trail from the start is `[start]` |
| `Search.TrailEnds` | JPS_Algorithm/main.py:133-138 | the backtracking sequence begins at the goal and ends at the start; it is `[start]` when the goal is the start and `[goal, start]` when the goal has no predecessor |
| `Search.TrailFollowsPredecessors` | JPS_Algorithm/main.py:135-137 | from a cell that is the start or has a predecessor, each visited cell is followed by its recorded predecessor |
| `Search.TrailCostsDecrease` | JPS_Algorithm/main.py:135-137 | from such a cell, costs strictly decrease along the visited cells |
| `Search.TrailDistinct` | JPS_Algorithm/main.py:133-138 | backtracking never visits a cell twice |
| `Search.TrailStep` | JPS_Algorithm/main.py:135-137 | one pass of the backtracking loop: the sequence from a cell other than the start is that cell followed by the sequence from the cell the loop steps to, and the termination measure decreases |
| `Search.Reverse` | JPS_Algorithm/main.py:139 | the reversal has the same length, with position `i` holding the element at `n - 1 - i` |
| `Search.ReverseKeepsEndsAndDistinct` | JPS_Algorithm/main.py:139 | reversal swaps the first and last elements and keeps the elements pairwise distinct |
| `Search.Backtrack` | JPS_Algorithm/main.py:132-139 | the loop with `came_from.get(current, start)` returns the reversed backtracking sequence from the goal |
| `Search.ReversedTrailEnds` | JPS_Algorithm/main.py:133-139 | the reconstructed path runs from the start to the goal without repeats; it is `[start]` when start = goal and `[start, goal]` when the goal has no predecessor |
| `Search.ReversedLinksAreLegal` | JPS_Algorithm/main.py:133-139 | a sequence linked by recorded predecessors is, reversed, a legal walk |
| `Search.CostedGoalPathIsLegal` | JPS_Algorithm/main.py:133-139 | for a goal with a cost the reconstructed path is a legal walk; a goal without a cost is not the start and has no predecessor |
| `Search.PathMeansReachable` | JPS_Algorithm/main.py:108-140 | a path from start to goal that is legal whenever the goal has a cost, and is `[start, goal]` when the search closed without costing it, is legal exactly when the goal is reachable |
| `Search.SearchResult` | JPS_Algorithm/main.py:108-140 | from the state the loop leaves, the reconstructed path has the endpoints, the reachability equivalence, the fallback and the distinctness stated for `JumpPointSearch` |
| `Search.JumpPointSearch` | JPS_Algorithm/main.py:96-140 | the path starts at `start` and ends at `goal`; it is `[start]` when they coincide; it is a legal 8-neighbour walk exactly when the goal is reachable; it is `[start, goal]` when the goal is unreachable; no cell repeats; the main loop terminates |
| `Trajectory.CellCenter` | JPS_Algorithm/main.py:82 | defines the centre `(x + 0.5, y + 0.5)` a path cell is converted to before fitting |
| `Trajectory.SampleCell` | JPS_Algorithm/main.py:88 | defines the cell a sample maps to: `(int(sx - 0.5), int(sy - 0.5))`, truncating toward zero |
| `Trajectory.HitsUnknown` | JPS_Algorithm/main.py:89 | defines the stopping test: the sample's cell is inside the grid and holds 3 |
| `Trajectory.TruncToInt` | JPS_Algorithm/main.py:88 | `int()` truncates toward zero: for `v >= 0`, `r <= v < r + 1`; for `v < 0`, `r - 1 < v <= r` |
| `Trajectory.CenterMapsBack` | JPS_Algorithm/main.py:82-88 | a cell's centre `(x + 0.5, y + 0.5)` maps back to that cell |
| `Trajectory.SampleIndexCases` | JPS_Algorithm/main.py:88 | `int(s - 0.5)` is 0 for every `s` strictly between -0.5 and 1.5, and it is the floor of `s - 0.5` for `s >= 0.5` |
| `Trajectory.TruncateAtUnknown` | JPS_Algorithm/main.py:86-92 | the result is a prefix of the samples; no sample before its last one hits an unknown cell; if any sample hits one, the last kept sample does; if none does, all samples are returned; samples mapped outside the grid never cut the trajectory |

## Left out

- `plot_grid` (matplotlib rendering), `create_grid` and the `__main__` block. They hold drawing code and fixed scenario data, not logic.
- Spline fitting and sampling (`splprep`, `splev`, `np.linspace`). These are foreign floating-point numerics. The samples are an input of `TruncateAtUnknown`, and the conversion into two coordinate arrays is modelled as one sequence of points.
- Floating-point costs. The source accumulates `1.4` in IEEE doubles. The model uses exact tenths, so rounding in long float sums is not modelled, and neither is its possible effect on tie-breaking between priorities.
- The sensing radius is a natural number, as in the source's call. A fractional float radius, and `np.sqrt` rounding, are not modelled.
- The internals of `queue.PriorityQueue` (its heap and its locking). Only its observable behaviour is modelled: `get` removes a least `(priority, (x, y))` tuple.
- Any claim that the returned path costs the least. Manhattan distance overestimates a diagonal step (20 tenths against 14), so the heuristic is not admissible and the source does not promise optimal paths.
- Search.JumpPointSearch: requires `start` inside the grid. The source does not check this; with the start outside, numpy would wrap a negative index or raise an error.
