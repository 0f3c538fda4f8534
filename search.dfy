/** The grid search of `jump_point_search`. Despite its name it performs no
    jump-point pruning: it is a best-first search over the 8-connected grid
    with cardinal steps costing 1, diagonal steps 1.4 and a Manhattan-distance
    heuristic. Costs are counted in tenths (10 and 14) so that they are
    natural numbers; the heuristic is scaled by 10 to match. */
module Search {
  import opened Grid
  import opened Frontier
  import opened Measure

  /** The eight offsets in the order the source tries them. */
  const DIRECTIONS: seq<(int, int)> :=
    [(-1, 0), (1, 0), (0, -1), (0, 1), (-1, -1), (-1, 1), (1, -1), (1, 1)]

  /** The position of an offset in DIRECTIONS. */
  function DirIndex(dx: int, dy: int): (k: nat)
    requires -1 <= dx <= 1 && -1 <= dy <= 1 && (dx, dy) != (0, 0)
    ensures k < |DIRECTIONS| && DIRECTIONS[k] == (dx, dy)
  {
    if dy == 0 then (if dx == -1 then 0 else 1)
    else if dx == 0 then (if dy == -1 then 2 else 3)
    else if dx == -1 then (if dy == -1 then 4 else 5)
    else (if dy == -1 then 6 else 7)
  }

  /** Each direction is one of the eight neighbour offsets. */
  lemma DirectionIsOffset(k: nat)
    requires k < |DIRECTIONS|
    ensures -1 <= DIRECTIONS[k].0 <= 1 && -1 <= DIRECTIONS[k].1 <= 1 && DIRECTIONS[k] != (0, 0)
  {
  }

  lemma DirIndexOfDirection(k: nat)
    requires k < |DIRECTIONS|
    ensures DirIndex(DIRECTIONS[k].0, DIRECTIONS[k].1) == k
  {
  }

  /** Manhattan distance between two cells (the inner `heuristic`). */
  function Heuristic(a: Cell, b: Cell): (h: nat)
    ensures h == 0 <==> a == b
  {
    Abs(a.x - b.x) + Abs(a.y - b.y)
  }

  predicate Diagonal(a: Cell, b: Cell) {
    a.x != b.x && a.y != b.y
  }

  /** Cost of one step in tenths: 14 for a diagonal step, 10 otherwise. */
  function StepCost(a: Cell, b: Cell): (s: nat)
    ensures 10 <= s <= 14
  {
    if Diagonal(a, b) then 14 else 10
  }

  /** A step the search may take from `a` to `b`: both inside the grid, `b`
      one of the eight neighbours of `a`, `b` not an obstacle and, for a
      diagonal step, neither corner cell `(b.x, a.y)` nor `(a.x, b.y)` an
      obstacle. Only the value 1 blocks; known and unknown cells are both open. */
  predicate Move(grid: array2<int>, a: Cell, b: Cell)
    reads grid
  {
    Inside(grid, a) && Inside(grid, b) &&
    -1 <= b.x - a.x <= 1 && -1 <= b.y - a.y <= 1 && a != b &&
    grid[b.y, b.x] != OBSTACLE &&
    (Diagonal(a, b) ==> grid[a.y, b.x] != OBSTACLE && grid[b.y, a.x] != OBSTACLE)
  }

  /** The three tests the search applies to the step by offset `(dx, dy)`
      (the neighbour inside the grid, not an obstacle, and for a diagonal
      step no obstacle in either corner cell) hold exactly when the step is a Move. */
  lemma StepTestsAreMove(grid: array2<int>, a: Cell, dx: int, dy: int)
    requires Inside(grid, a)
    requires -1 <= dx <= 1 && -1 <= dy <= 1 && (dx, dy) != (0, 0)
    ensures var b := Cell(a.x + dx, a.y + dy);
            Move(grid, a, b) <==>
            (0 <= b.x < grid.Length1 && 0 <= b.y < grid.Length0 &&
             grid[b.y, b.x] != OBSTACLE &&
             (!(dx != 0 && dy != 0) ||
              (grid[a.y + dy, a.x] != OBSTACLE && grid[a.y, a.x + dx] != OBSTACLE)))
  {
  }

  /** Every consecutive pair of the sequence is a legal step. */
  ghost predicate IsLegalPath(grid: array2<int>, p: seq<Cell>)
    reads grid
  {
    forall i :: 0 <= i < |p| - 1 ==> Move(grid, p[i], p[i + 1])
  }

  /** A legal walk from `s` to `g`. */
  ghost predicate IsWalk(grid: array2<int>, p: seq<Cell>, s: Cell, g: Cell)
    reads grid
  {
    |p| >= 1 && p[0] == s && p[|p| - 1] == g && IsLegalPath(grid, p)
  }

  ghost predicate Reachable(grid: array2<int>, s: Cell, g: Cell)
    reads grid
  {
    exists p :: IsWalk(grid, p, s, g)
  }

  // ---------------------------------------------------------------------
  // The search state: `cost_so_far`, `came_from` and the open queue.
  // ---------------------------------------------------------------------

  /** The invariant of `cost_so_far` and `came_from`: the start has cost 0
      and no predecessor, every costed cell is inside the grid and is the
      start or has a predecessor, and every predecessor is costed, is one
      legal step away and is cheaper by at least the cost of that step. */
  ghost predicate Tree(grid: array2<int>, start: Cell, cost: map<Cell, nat>, came: map<Cell, Cell>)
    reads grid
  {
    Inside(grid, start) &&
    start in cost && cost[start] == 0 && start !in came &&
    CostedCells(grid, start, cost, came) && Links(grid, cost, came)
  }

  /** Every costed cell is inside the grid and is the start or has a predecessor. */
  ghost predicate CostedCells(grid: array2<int>, start: Cell, cost: map<Cell, nat>, came: map<Cell, Cell>) {
    forall c :: c in cost ==> Inside(grid, c) && (c == start || c in came)
  }

  /** Every predecessor is costed, one legal step away and cheaper by at least that step. */
  ghost predicate Links(grid: array2<int>, cost: map<Cell, nat>, came: map<Cell, Cell>)
    reads grid
  {
    forall n :: n in came ==>
      n in cost && came[n] in cost && Move(grid, came[n], n) &&
      cost[came[n]] + StepCost(came[n], n) <= cost[n]
  }

  /** Every queued entry is for a costed cell. */
  ghost predicate Queued(cost: map<Cell, nat>, open: seq<Entry>) {
    forall e :: e in open ==> e.cell in cost
  }

  ghost predicate Pending(open: seq<Entry>, c: Cell) {
    exists e :: e in open && e.cell == c
  }

  /** No legal step out of `c` would improve on a recorded cost. */
  ghost predicate Relaxed(grid: array2<int>, cost: map<Cell, nat>, c: Cell)
    reads grid
    requires c in cost
  {
    forall b :: Move(grid, c, b) ==> b in cost && cost[b] <= cost[c] + StepCost(c, b)
  }

  /** Every costed cell is still waiting in the queue or has been expanded
      since its cost last changed. */
  ghost predicate Closed(grid: array2<int>, cost: map<Cell, nat>, open: seq<Entry>)
    reads grid
  {
    forall c :: c in cost ==> Pending(open, c) || Relaxed(grid, cost, c)
  }

  /** Lowering the cost of `nb` keeps every other cell relaxed. */
  lemma RelaxedAfterLowering(grid: array2<int>, cost: map<Cell, nat>, c: Cell, nb: Cell, v: nat)
    requires c in cost && c != nb && Relaxed(grid, cost, c)
    requires nb !in cost || v < cost[nb]
    ensures Relaxed(grid, cost[nb := v], c)
  {
  }

  /** Once nothing is queued, the costed cells are closed under legal steps:
      every walk that starts in a costed cell ends in one. */
  lemma {:induction false} WalkStaysInCost(grid: array2<int>, cost: map<Cell, nat>, p: seq<Cell>)
    requires forall c :: c in cost ==> Relaxed(grid, cost, c)
    requires |p| >= 1 && p[0] in cost && IsLegalPath(grid, p)
    ensures p[|p| - 1] in cost
  {
    if |p| > 1 {
      assert Move(grid, p[0], p[1]);
      assert IsLegalPath(grid, p[1..]) by {
        forall i | 0 <= i < |p[1..]| - 1
          ensures Move(grid, p[1..][i], p[1..][i + 1])
        {
          assert Move(grid, p[i + 1], p[i + 2]);
        }
      }
      WalkStaysInCost(grid, cost, p[1..]);
    }
  }

  /** Every walk from a costed start ends in a costed cell once all costed cells are relaxed. */
  lemma WalksEndInCost(grid: array2<int>, cost: map<Cell, nat>, start: Cell)
    requires start in cost
    requires forall c :: c in cost ==> Relaxed(grid, cost, c)
    ensures forall p, g :: IsWalk(grid, p, start, g) ==> g in cost
  {
    forall p, g | IsWalk(grid, p, start, g)
      ensures g in cost
    {
      WalkStaysInCost(grid, cost, p);
    }
  }

  // ---------------------------------------------------------------------
  // One expansion of a popped cell.
  // ---------------------------------------------------------------------

  /** Every costed cell other than `current` is queued or relaxed. */
  ghost predicate OthersClosed(grid: array2<int>, cost: map<Cell, nat>, open: seq<Entry>, current: Cell)
    reads grid
  {
    forall c :: c in cost && c != current ==> Pending(open, c) || Relaxed(grid, cost, c)
  }

  /** The steps out of `current` in the first `i` directions are relaxed. */
  ghost predicate RelaxedBelow(grid: array2<int>, cost: map<Cell, nat>, current: Cell, i: nat)
    reads grid
    requires current in cost
  {
    forall b :: Move(grid, current, b) && DirIndex(b.x - current.x, b.y - current.y) < i ==>
      b in cost && cost[b] <= cost[current] + StepCost(current, b)
  }

  /** Every recorded cost is kept or lowered. */
  ghost predicate Lowered(cost0: map<Cell, nat>, cost: map<Cell, nat>) {
    forall c :: c in cost0 ==> c in cost && cost[c] <= cost0[c]
  }

  /** The entries queued from position `n` on are for neighbours of `current`
      in the first `i` directions, each pushed with a first or strictly lower
      cost through `current` and the priority cost plus ten times the heuristic. */
  ghost predicate NewEntries(grid: array2<int>, goal: Cell, current: Cell, cost0: map<Cell, nat>,
                             cost: map<Cell, nat>, came: map<Cell, Cell>, open: seq<Entry>, n: nat, i: nat)
    reads grid
    requires current in cost0
  {
    forall k :: n <= k < |open| ==>
      var c := open[k].cell;
      Move(grid, current, c) && DirIndex(c.x - current.x, c.y - current.y) < i &&
      c in cost && c in came && came[c] == current &&
      (c !in cost0 || cost[c] < cost0[c]) &&
      cost[c] == cost0[current] + StepCost(current, c) &&
      open[k].priority == cost[c] + 10 * Heuristic(c, goal)
  }

  /** A push happened only together with a lexicographic decrease of the measure. */
  ghost predicate Progress(grid: array2<int>, cost0: map<Cell, nat>, came0: map<Cell, Cell>, open0: seq<Entry>,
                           cost: map<Cell, nat>, came: map<Cell, Cell>, open: seq<Entry>)
  {
    (open == open0 ==> cost == cost0 && came == came0) &&
    (open != open0 ==>
       LexLess(Unreached(GridCells(grid), cost), CostSum(GridCells(grid), cost),
               Unreached(GridCells(grid), cost0), CostSum(GridCells(grid), cost0)))
  }

  /** Some entry from position `n` on is for `c`. */
  ghost predicate Pushed(open: seq<Entry>, n: nat, c: Cell) {
    exists k :: n <= k < |open| && open[k].cell == c
  }

  /** Every cell without an entry from position `n` on keeps its cost and
      its predecessor, and has one exactly when it had one before. */
  ghost predicate Untouched(cost0: map<Cell, nat>, came0: map<Cell, Cell>,
                            cost: map<Cell, nat>, came: map<Cell, Cell>, open: seq<Entry>, n: nat) {
    forall c :: !Pushed(open, n, c) ==>
      (c in cost <==> c in cost0) && (c in cost ==> cost[c] == cost0[c]) &&
      (c in came <==> c in came0) && (c in came ==> came[c] == came0[c])
  }

  /** The invariant of the loop over the directions after `i` of them. */
  ghost predicate ExpandState(grid: array2<int>, goal: Cell, current: Cell, start: Cell,
                              cost0: map<Cell, nat>, came0: map<Cell, Cell>, open0: seq<Entry>,
                              cost: map<Cell, nat>, came: map<Cell, Cell>, open: seq<Entry>, i: nat)
    reads grid
  {
    Tree(grid, start, cost, came) && Queued(cost, open) &&
    current in cost0 && current in cost && cost[current] == cost0[current] &&
    OthersClosed(grid, cost, open, current) &&
    RelaxedBelow(grid, cost, current, i) &&
    Lowered(cost0, cost) &&
    |open0| <= |open| && open[..|open0|] == open0 &&
    NewEntries(grid, goal, current, cost0, cost, came, open, |open0|, i) &&
    Untouched(cost0, came0, cost, came, open, |open0|) &&
    Progress(grid, cost0, came0, open0, cost, came, open)
  }

  /** A direction that gives no legal step, or no cheaper cost, changes nothing. */
  lemma SkipKeepsState(grid: array2<int>, goal: Cell, current: Cell, start: Cell,
                       cost0: map<Cell, nat>, came0: map<Cell, Cell>, open0: seq<Entry>,
                       cost: map<Cell, nat>, came: map<Cell, Cell>, open: seq<Entry>, i: nat, nb: Cell)
    requires ExpandState(grid, goal, current, start, cost0, came0, open0, cost, came, open, i)
    requires i < |DIRECTIONS| && nb == Cell(current.x + DIRECTIONS[i].0, current.y + DIRECTIONS[i].1)
    requires !Move(grid, current, nb) || (nb in cost && cost[nb] <= cost[current] + StepCost(current, nb))
    ensures ExpandState(grid, goal, current, start, cost0, came0, open0, cost, came, open, i + 1)
  {
    RelaxedBelowSkip(grid, cost, current, i, nb);
    NewEntriesWiden(grid, goal, current, cost0, cost, came, open, |open0|, i);
  }

  /** A direction whose step is illegal or already relaxed extends the relaxed range by one. */
  lemma RelaxedBelowSkip(grid: array2<int>, cost: map<Cell, nat>, current: Cell, i: nat, nb: Cell)
    requires current in cost && RelaxedBelow(grid, cost, current, i)
    requires i < |DIRECTIONS| && nb == Cell(current.x + DIRECTIONS[i].0, current.y + DIRECTIONS[i].1)
    requires !Move(grid, current, nb) || (nb in cost && cost[nb] <= cost[current] + StepCost(current, nb))
    ensures RelaxedBelow(grid, cost, current, i + 1)
  {
    DirIndexOfDirection(i);
    forall b | Move(grid, current, b) && DirIndex(b.x - current.x, b.y - current.y) < i + 1
      ensures b in cost && cost[b] <= cost[current] + StepCost(current, b)
    {
      if DirIndex(b.x - current.x, b.y - current.y) == i {
        assert b == nb;
      }
    }
  }

  /** The entries pushed for the first `i` directions are also entries for the first `i + 1`. */
  lemma NewEntriesWiden(grid: array2<int>, goal: Cell, current: Cell, cost0: map<Cell, nat>,
                        cost: map<Cell, nat>, came: map<Cell, Cell>, open: seq<Entry>, n: nat, i: nat)
    requires current in cost0
    requires NewEntries(grid, goal, current, cost0, cost, came, open, n, i)
    ensures NewEntries(grid, goal, current, cost0, cost, came, open, n, i + 1)
  {
  }

  lemma TreeAfterUpdate(grid: array2<int>, start: Cell, cost: map<Cell, nat>, came: map<Cell, Cell>,
                        current: Cell, nb: Cell, v: nat)
    requires Tree(grid, start, cost, came) && current in cost
    requires Move(grid, current, nb) && v == cost[current] + StepCost(current, nb)
    requires nb !in cost || v < cost[nb]
    ensures Tree(grid, start, cost[nb := v], came[nb := current])
  {
    assert nb != start;
    LinksAfterUpdate(grid, cost, came, current, nb, v);
  }

  lemma LinksAfterUpdate(grid: array2<int>, cost: map<Cell, nat>, came: map<Cell, Cell>,
                         current: Cell, nb: Cell, v: nat)
    requires Links(grid, cost, came) && current in cost
    requires Move(grid, current, nb) && v == cost[current] + StepCost(current, nb)
    requires nb !in cost || v < cost[nb]
    ensures Links(grid, cost[nb := v], came[nb := current])
  {
    var cost', came' := cost[nb := v], came[nb := current];
    forall n | n in came'
      ensures n in cost' && came'[n] in cost' && Move(grid, came'[n], n) &&
              cost'[came'[n]] + StepCost(came'[n], n) <= cost'[n]
    {
      if n == nb {
        assert came'[n] == current && cost'[current] == cost[current];
      } else {
        assert came'[n] == came[n] && cost'[came[n]] <= cost[came[n]] && cost'[n] == cost[n];
      }
    }
  }

  lemma OthersClosedAfterUpdate(grid: array2<int>, cost: map<Cell, nat>, open: seq<Entry>, current: Cell,
                                nb: Cell, v: nat, e: Entry)
    requires OthersClosed(grid, cost, open, current)
    requires nb !in cost || v < cost[nb]
    requires e.cell == nb
    ensures OthersClosed(grid, cost[nb := v], open + [e], current)
  {
    var cost', open' := cost[nb := v], open + [e];
    assert e in open';
    forall c | c in cost' && c != current
      ensures Pending(open', c) || Relaxed(grid, cost', c)
    {
      if c == nb {
        assert Pending(open', c);
      } else if Pending(open, c) {
        var x :| x in open && x.cell == c;
        assert x in open';
      } else {
        RelaxedAfterLowering(grid, cost, c, nb, v);
      }
    }
  }

  lemma RelaxedBelowAfterUpdate(grid: array2<int>, cost: map<Cell, nat>, current: Cell, i: nat, nb: Cell, v: nat)
    requires current in cost && current != nb && RelaxedBelow(grid, cost, current, i)
    requires i < |DIRECTIONS| && nb == Cell(current.x + DIRECTIONS[i].0, current.y + DIRECTIONS[i].1)
    requires v == cost[current] + StepCost(current, nb)
    requires nb !in cost || v < cost[nb]
    ensures RelaxedBelow(grid, cost[nb := v], current, i + 1)
  {
    DirIndexOfDirection(i);
  }

  lemma NewEntriesAfterUpdate(grid: array2<int>, goal: Cell, current: Cell, cost0: map<Cell, nat>,
                              cost: map<Cell, nat>, came: map<Cell, Cell>, open: seq<Entry>, n: nat, i: nat,
                              nb: Cell, v: nat)
    requires current in cost0 && current in cost && cost[current] == cost0[current]
    requires Lowered(cost0, cost)
    requires NewEntries(grid, goal, current, cost0, cost, came, open, n, i)
    requires i < |DIRECTIONS| && nb == Cell(current.x + DIRECTIONS[i].0, current.y + DIRECTIONS[i].1)
    requires Move(grid, current, nb) && v == cost[current] + StepCost(current, nb)
    requires nb !in cost || v < cost[nb]
    ensures NewEntries(grid, goal, current, cost0, cost[nb := v], came[nb := current],
                       open + [Entry(v + 10 * Heuristic(nb, goal), nb)], n, i + 1)
  {
    DirIndexOfDirection(i);
    var cost', came' := cost[nb := v], came[nb := current];
    var open' := open + [Entry(v + 10 * Heuristic(nb, goal), nb)];
    forall k | n <= k < |open'|
      ensures var c := open'[k].cell;
        Move(grid, current, c) && DirIndex(c.x - current.x, c.y - current.y) < i + 1 &&
        c in cost' && c in came' && came'[c] == current &&
        (c !in cost0 || cost'[c] < cost0[c]) &&
        cost'[c] == cost0[current] + StepCost(current, c) &&
        open'[k].priority == cost'[c] + 10 * Heuristic(c, goal)
    {
      if k < |open| {
        assert open'[k] == open[k];
        assert open[k].cell != nb;
      }
    }
  }

  lemma ProgressAfterUpdate(grid: array2<int>, cost0: map<Cell, nat>, came0: map<Cell, Cell>, open0: seq<Entry>,
                            cost: map<Cell, nat>, came: map<Cell, Cell>, open: seq<Entry>,
                            nb: Cell, v: nat, e: Entry, came': map<Cell, Cell>)
    requires Progress(grid, cost0, came0, open0, cost, came, open)
    requires |open0| <= |open| && Inside(grid, nb)
    requires nb !in cost || v < cost[nb]
    ensures Progress(grid, cost0, came0, open0, cost[nb := v], came', open + [e])
  {
    var all := GridCells(grid);
    AllCellsContains(grid.Length0, grid.Length1, nb);
    if nb !in cost {
      FirstCostLowersUnreached(all, cost, nb, v);
    } else {
      SmallerCostLowersSum(all, cost, nb, v);
    }
    assert open + [e] != open0 by { assert |open + [e]| > |open0|; }
  }

  /** A legal step to a cheaper cost records it, the predecessor and a queue entry. */
  lemma UpdateKeepsState(grid: array2<int>, goal: Cell, current: Cell, start: Cell,
                         cost0: map<Cell, nat>, came0: map<Cell, Cell>, open0: seq<Entry>,
                         cost: map<Cell, nat>, came: map<Cell, Cell>, open: seq<Entry>, i: nat,
                         nb: Cell, v: nat, e: Entry)
    requires ExpandState(grid, goal, current, start, cost0, came0, open0, cost, came, open, i)
    requires i < |DIRECTIONS| && nb == Cell(current.x + DIRECTIONS[i].0, current.y + DIRECTIONS[i].1)
    requires Move(grid, current, nb) && v == cost[current] + StepCost(current, nb)
    requires nb !in cost || v < cost[nb]
    requires e == Entry(v + 10 * Heuristic(nb, goal), nb)
    ensures ExpandState(grid, goal, current, start, cost0, came0, open0,
                        cost[nb := v], came[nb := current], open + [e], i + 1)
  {
    TreeAfterUpdate(grid, start, cost, came, current, nb, v);
    OthersClosedAfterUpdate(grid, cost, open, current, nb, v, e);
    RelaxedBelowAfterUpdate(grid, cost, current, i, nb, v);
    NewEntriesAfterUpdate(grid, goal, current, cost0, cost, came, open, |open0|, i, nb, v);
    ProgressAfterUpdate(grid, cost0, came0, open0, cost, came, open, nb, v, e, came[nb := current]);
    LoweredAfterUpdate(cost0, cost, nb, v);
    UntouchedAfterUpdate(cost0, came0, cost, came, open, |open0|, nb, v, e, current);
    assert nb != current;
    assert Queued(cost[nb := v], open + [e]);
    assert (open + [e])[..|open0|] == open[..|open0|];
  }

  /** A cell that gets a new entry is the only cell whose cost and predecessor change. */
  lemma UntouchedAfterUpdate(cost0: map<Cell, nat>, came0: map<Cell, Cell>,
                             cost: map<Cell, nat>, came: map<Cell, Cell>, open: seq<Entry>, n: nat,
                             nb: Cell, v: nat, e: Entry, current: Cell)
    requires Untouched(cost0, came0, cost, came, open, n)
    requires n <= |open| && e.cell == nb
    ensures Untouched(cost0, came0, cost[nb := v], came[nb := current], open + [e], n)
  {
    var open' := open + [e];
    forall c | Pushed(open, n, c)
      ensures Pushed(open', n, c)
    {
      var k :| n <= k < |open| && open[k].cell == c;
      assert open'[k] == open[k];
    }
    assert Pushed(open', n, nb) by {
      assert open'[|open|] == e;
    }
  }

  lemma LoweredAfterUpdate(cost0: map<Cell, nat>, cost: map<Cell, nat>, nb: Cell, v: nat)
    requires Lowered(cost0, cost)
    requires nb !in cost || v < cost[nb]
    ensures Lowered(cost0, cost[nb := v])
  {
  }

  /** The body of the loop over the directions: the step in direction `i`. */
  method TryDirection(grid: array2<int>, goal: Cell, current: Cell, i: nat,
                      cost: map<Cell, nat>, came: map<Cell, Cell>, open: seq<Entry>,
                      ghost start: Cell, ghost cost0: map<Cell, nat>, ghost came0: map<Cell, Cell>,
                      ghost open0: seq<Entry>)
    returns (cost': map<Cell, nat>, came': map<Cell, Cell>, open': seq<Entry>)
    requires i < |DIRECTIONS|
    requires ExpandState(grid, goal, current, start, cost0, came0, open0, cost, came, open, i)
    ensures ExpandState(grid, goal, current, start, cost0, came0, open0, cost', came', open', i + 1)
  {
    cost', came', open' := cost, came, open;
    assert Inside(grid, current);
    var (dx, dy) := DIRECTIONS[i];
    var neighbor := Cell(current.x + dx, current.y + dy);
    DirectionIsOffset(i);
    StepTestsAreMove(grid, current, dx, dy);
    // The bounds test, then the two `continue` tests of the source, in order.
    if 0 <= neighbor.x < grid.Length1 && 0 <= neighbor.y < grid.Length0 &&
       grid[neighbor.y, neighbor.x] != OBSTACLE &&
       (!(dx != 0 && dy != 0) ||
        (grid[current.y + dy, current.x] != OBSTACLE && grid[current.y, current.x + dx] != OBSTACLE))
    {
      var newCost := cost[current] + if dx != 0 && dy != 0 then 14 else 10;
      assert newCost == cost[current] + StepCost(current, neighbor);
      if neighbor !in cost || newCost < cost[neighbor] {
        var priority := newCost + 10 * Heuristic(neighbor, goal);
        var entry := Entry(priority, neighbor);
        UpdateKeepsState(grid, goal, current, start, cost0, came0, open0, cost, came, open, i,
                         neighbor, newCost, entry);
        cost' := cost[neighbor := newCost];
        open' := open + [entry];
        came' := came[neighbor := current];
      } else {
        SkipKeepsState(grid, goal, current, start, cost0, came0, open0, cost, came, open, i, neighbor);
      }
    } else {
      SkipKeepsState(grid, goal, current, start, cost0, came0, open0, cost, came, open, i, neighbor);
    }
  }

  /** One expansion of `current` (the `for dx, dy in directions` loop): each
      legal neighbour whose cost is unknown or would become strictly smaller
      gets the new cost, `current` as predecessor and a queue entry. */
  method Expand(grid: array2<int>, goal: Cell, current: Cell, cost0: map<Cell, nat>,
                came0: map<Cell, Cell>, open0: seq<Entry>, ghost start: Cell)
    returns (cost: map<Cell, nat>, came: map<Cell, Cell>, open: seq<Entry>)
    requires Tree(grid, start, cost0, came0) && Queued(cost0, open0)
    requires current in cost0
    requires forall c :: c in cost0 && c != current ==> Pending(open0, c) || Relaxed(grid, cost0, c)
    ensures Tree(grid, start, cost, came) && Queued(cost, open) && Closed(grid, cost, open)
    ensures current in cost && cost[current] == cost0[current]
    ensures forall c :: c in cost0 ==> c in cost && cost[c] <= cost0[c]
    ensures |open0| <= |open| && open[..|open0|] == open0
    ensures forall k :: |open0| <= k < |open| ==>
              var c := open[k].cell;
              Move(grid, current, c) && c in cost && c in came && came[c] == current &&
              (c !in cost0 || cost[c] < cost0[c]) &&
              cost[c] == cost0[current] + StepCost(current, c) &&
              open[k].priority == cost[c] + 10 * Heuristic(c, goal)
    ensures forall c :: !Pushed(open, |open0|, c) ==>
              (c in cost <==> c in cost0) && (c in cost ==> cost[c] == cost0[c]) &&
              (c in came <==> c in came0) && (c in came ==> came[c] == came0[c])
    ensures open == open0 ==> cost == cost0 && came == came0
    ensures open != open0 ==>
              LexLess(Unreached(GridCells(grid), cost), CostSum(GridCells(grid), cost),
                      Unreached(GridCells(grid), cost0), CostSum(GridCells(grid), cost0))
  {
    cost, came, open := cost0, came0, open0;
    assert open[..|open0|] == open0;
    for i := 0 to |DIRECTIONS|
      invariant ExpandState(grid, goal, current, start, cost0, came0, open0, cost, came, open, i)
    {
      cost, came, open := TryDirection(grid, goal, current, i, cost, came, open, start, cost0, came0, open0);
    }
    ExpandDone(grid, goal, current, start, cost0, came0, open0, cost, came, open);
  }

  /** After all eight directions, `current` is relaxed too, and the state
      has everything `Expand` promises. */
  lemma ExpandDone(grid: array2<int>, goal: Cell, current: Cell, start: Cell,
                   cost0: map<Cell, nat>, came0: map<Cell, Cell>, open0: seq<Entry>,
                   cost: map<Cell, nat>, came: map<Cell, Cell>, open: seq<Entry>)
    requires ExpandState(grid, goal, current, start, cost0, came0, open0, cost, came, open, |DIRECTIONS|)
    ensures Tree(grid, start, cost, came) && Queued(cost, open) && Closed(grid, cost, open)
    ensures current in cost && cost[current] == cost0[current]
    ensures forall c :: c in cost0 ==> c in cost && cost[c] <= cost0[c]
    ensures |open0| <= |open| && open[..|open0|] == open0
    ensures forall k :: |open0| <= k < |open| ==>
              var c := open[k].cell;
              Move(grid, current, c) && c in cost && c in came && came[c] == current &&
              (c !in cost0 || cost[c] < cost0[c]) &&
              cost[c] == cost0[current] + StepCost(current, c) &&
              open[k].priority == cost[c] + 10 * Heuristic(c, goal)
    ensures forall c :: !Pushed(open, |open0|, c) ==>
              (c in cost <==> c in cost0) && (c in cost ==> cost[c] == cost0[c]) &&
              (c in came <==> c in came0) && (c in came ==> came[c] == came0[c])
    ensures open == open0 ==> cost == cost0 && came == came0
    ensures open != open0 ==>
              LexLess(Unreached(GridCells(grid), cost), CostSum(GridCells(grid), cost),
                      Unreached(GridCells(grid), cost0), CostSum(GridCells(grid), cost0))
  {
    assert Relaxed(grid, cost, current) by {
      forall b | Move(grid, current, b)
        ensures b in cost && cost[b] <= cost[current] + StepCost(current, b)
      {
        assert DirIndex(b.x - current.x, b.y - current.y) < |DIRECTIONS|;
      }
    }
  }

  // ---------------------------------------------------------------------
  // Path reconstruction.
  // ---------------------------------------------------------------------

  /** What the backtracking loop needs of `came_from`: the start has no
      predecessor, and every predecessor is costed, strictly cheaper, and is
      the start or has a predecessor itself. */
  ghost predicate Chain(came: map<Cell, Cell>, cost: map<Cell, nat>, start: Cell) {
    start in cost && start !in came &&
    forall n :: n in came ==>
      n in cost && came[n] in cost && cost[came[n]] < cost[n] &&
      (came[n] == start || came[n] in came)
  }

  lemma TreeIsChain(grid: array2<int>, start: Cell, cost: map<Cell, nat>, came: map<Cell, Cell>)
    requires Tree(grid, start, cost, came)
    ensures Chain(came, cost, start)
  {
  }

  ghost function BacktrackMeasure(came: map<Cell, Cell>, cost: map<Cell, nat>, start: Cell, c: Cell): nat {
    if c == start then 0 else if c in came && c in cost then cost[c] + 2 else 1
  }

  /** The cells the backtracking loop visits from `c`, in visiting order:
      `c`, its predecessor, and so on; a cell without a predecessor is
      followed directly by the start (`came_from.get(current, start)`). */
  ghost function Trail(came: map<Cell, Cell>, cost: map<Cell, nat>, start: Cell, c: Cell): seq<Cell>
    requires Chain(came, cost, start)
    decreases BacktrackMeasure(came, cost, start, c)
  {
    if c == start then [start]
    else if c in came then [c] + Trail(came, cost, start, came[c])
    else [c, start]
  }

  lemma {:induction false} TrailEnds(came: map<Cell, Cell>, cost: map<Cell, nat>, start: Cell, c: Cell)
    requires Chain(came, cost, start)
    ensures var t := Trail(came, cost, start, c); |t| >= 1 && t[0] == c && t[|t| - 1] == start
    ensures c == start ==> Trail(came, cost, start, c) == [start]
    ensures c != start && c !in came ==> Trail(came, cost, start, c) == [c, start]
    decreases BacktrackMeasure(came, cost, start, c)
  {
    if c != start && c in came {
      TrailEnds(came, cost, start, came[c]);
    }
  }

  /** Each cell of `t` but the last has a recorded predecessor, the next cell. */
  ghost predicate LinkedByCame(came: map<Cell, Cell>, t: seq<Cell>) {
    forall i :: 0 <= i < |t| - 1 ==> t[i] in came && came[t[i]] == t[i + 1]
  }

  /** From a cell that is the start or has a predecessor, each visited cell
      is followed by its recorded predecessor. */
  lemma {:induction false} TrailFollowsPredecessors(came: map<Cell, Cell>, cost: map<Cell, nat>, start: Cell, c: Cell)
    requires Chain(came, cost, start)
    requires c == start || c in came
    ensures LinkedByCame(came, Trail(came, cost, start, c))
    decreases BacktrackMeasure(came, cost, start, c)
  {
    if c != start {
      TrailFollowsPredecessors(came, cost, start, came[c]);
      TrailEnds(came, cost, start, came[c]);
    }
  }

  /** From a cell that is the start or has a predecessor, costs strictly
      decrease along the visited cells. */
  lemma {:induction false} TrailCostsDecrease(came: map<Cell, Cell>, cost: map<Cell, nat>, start: Cell, c: Cell)
    requires Chain(came, cost, start)
    requires c == start || c in came
    ensures var t := Trail(came, cost, start, c);
            (forall i :: 0 <= i < |t| ==> t[i] in cost) &&
            (forall i, j :: 0 <= i < j < |t| ==> cost[t[j]] < cost[t[i]])
    decreases BacktrackMeasure(came, cost, start, c)
  {
    if c != start {
      var d := came[c];
      TrailCostsDecrease(came, cost, start, d);
      TrailEnds(came, cost, start, d);
      var t, u := Trail(came, cost, start, c), Trail(came, cost, start, d);
      assert t == [c] + u;
      forall i, j | 0 <= i < j < |t|
        ensures cost[t[j]] < cost[t[i]]
      {
        if i == 0 {
          assert t[j] == u[j - 1];
          if j > 1 {
            assert cost[u[j - 1]] < cost[u[0]];
          }
        }
      }
    }
  }

  /** The backtracking loop never visits a cell twice. */
  lemma TrailDistinct(came: map<Cell, Cell>, cost: map<Cell, nat>, start: Cell, c: Cell)
    requires Chain(came, cost, start)
    ensures var t := Trail(came, cost, start, c);
            forall i, j :: 0 <= i < j < |t| ==> t[i] != t[j]
  {
    if c == start || c in came {
      TrailCostsDecrease(came, cost, start, c);
    } else {
      TrailEnds(came, cost, start, c);
    }
  }

  /** One step of the backtracking loop: the trail from a cell other than
      the start is that cell followed by the trail from the cell the loop
      steps to, and the measure decreases. */
  lemma TrailStep(came: map<Cell, Cell>, cost: map<Cell, nat>, start: Cell, c: Cell)
    requires Chain(came, cost, start) && c != start
    ensures var next := if c in came then came[c] else start;
            Trail(came, cost, start, c) == [c] + Trail(came, cost, start, next) &&
            BacktrackMeasure(came, cost, start, next) < BacktrackMeasure(came, cost, start, c)
  {
  }

  /** `list.reverse()`. */
  function Reverse<T>(s: seq<T>): (r: seq<T>)
    ensures |r| == |s| && forall i :: 0 <= i < |s| ==> r[i] == s[|s| - 1 - i]
  {
    if s == [] then [] else Reverse(s[1..]) + [s[0]]
  }

  /** The backtracking loop: from the goal, append each cell and step to its
      predecessor (the start when there is none) until the start is reached;
      then append the start and reverse. */
  method Backtrack(came: map<Cell, Cell>, start: Cell, goal: Cell, ghost cost: map<Cell, nat>)
    returns (path: seq<Cell>)
    requires Chain(came, cost, start)
    ensures path == Reverse(Trail(came, cost, start, goal))
  {
    var current := goal;
    var trail: seq<Cell> := [];
    while current != start
      invariant trail + Trail(came, cost, start, current) == Trail(came, cost, start, goal)
      decreases BacktrackMeasure(came, cost, start, current)
    {
      var next := if current in came then came[current] else start;
      TrailStep(came, cost, start, current);
      assert (trail + [current]) + Trail(came, cost, start, next) == trail + Trail(came, cost, start, current);
      trail := trail + [current];
      current := next;
    }
    assert Trail(came, cost, start, current) == [start];
    trail := trail + [start];
    path := Reverse(trail);
  }

  /** The reversed trail runs from the start to `c`, without repeated cells. */
  lemma ReversedTrailEnds(came: map<Cell, Cell>, cost: map<Cell, nat>, start: Cell, c: Cell)
    requires Chain(came, cost, start)
    ensures var p := Reverse(Trail(came, cost, start, c));
            |p| >= 1 && p[0] == start && p[|p| - 1] == c &&
            (c == start ==> p == [start]) &&
            (c != start && c !in came ==> p == [start, c]) &&
            (forall i, j :: 0 <= i < j < |p| ==> p[i] != p[j])
  {
    TrailEnds(came, cost, start, c);
    TrailDistinct(came, cost, start, c);
    ReverseKeepsEndsAndDistinct(Trail(came, cost, start, c));
  }

  /** Reversing swaps the ends and keeps the elements distinct. */
  lemma ReverseKeepsEndsAndDistinct<T>(t: seq<T>)
    requires |t| >= 1 && forall i, j :: 0 <= i < j < |t| ==> t[i] != t[j]
    ensures var p := Reverse(t);
            p[0] == t[|t| - 1] && p[|p| - 1] == t[0] &&
            (|t| == 1 ==> p == t) &&
            (|t| == 2 ==> p == [t[1], t[0]]) &&
            (forall i, j :: 0 <= i < j < |p| ==> p[i] != p[j])
  {
    var p := Reverse(t);
    forall i, j | 0 <= i < j < |p|
      ensures p[i] != p[j]
    {
      assert p[i] == t[|t| - 1 - i] && p[j] == t[|t| - 1 - j];
    }
  }

  /** A sequence in which each cell is followed by its recorded predecessor
      is, reversed, a legal walk. */
  lemma ReversedLinksAreLegal(grid: array2<int>, start: Cell, cost: map<Cell, nat>, came: map<Cell, Cell>,
                              t: seq<Cell>)
    requires Tree(grid, start, cost, came)
    requires LinkedByCame(came, t)
    ensures IsLegalPath(grid, Reverse(t))
  {
    var p := Reverse(t);
    forall j | 0 <= j < |p| - 1
      ensures Move(grid, p[j], p[j + 1])
    {
      var i := |t| - 2 - j;
      assert p[j] == t[i + 1] && p[j + 1] == t[i];
      assert came[t[i]] == t[i + 1];
    }
  }

  /** What the returned path is, given the state the search loop leaves
      behind: if the goal has no cost, the loop ran until the queue was
      empty, so every costed cell is relaxed. */
  lemma SearchResult(grid: array2<int>, start: Cell, goal: Cell, cost: map<Cell, nat>, came: map<Cell, Cell>)
    requires Tree(grid, start, cost, came)
    requires goal !in cost ==> forall c :: c in cost ==> Relaxed(grid, cost, c)
    ensures Chain(came, cost, start)
    ensures var path := Reverse(Trail(came, cost, start, goal));
            |path| >= 1 && path[0] == start && path[|path| - 1] == goal &&
            (start == goal ==> path == [start]) &&
            (Reachable(grid, start, goal) <==> IsLegalPath(grid, path)) &&
            (!Reachable(grid, start, goal) ==> path == [start, goal]) &&
            (forall i, j :: 0 <= i < j < |path| ==> path[i] != path[j])
  {
    TreeIsChain(grid, start, cost, came);
    ReversedTrailEnds(came, cost, start, goal);
    CostedGoalPathIsLegal(grid, start, goal, cost, came);
    PathMeansReachable(grid, start, goal, cost, Reverse(Trail(came, cost, start, goal)));
  }

  /** For a costed goal, the reconstructed path follows recorded predecessors
      and so is legal; an uncosted goal has no predecessor. */
  lemma CostedGoalPathIsLegal(grid: array2<int>, start: Cell, goal: Cell, cost: map<Cell, nat>, came: map<Cell, Cell>)
    requires Tree(grid, start, cost, came) && Chain(came, cost, start)
    ensures goal in cost ==> IsLegalPath(grid, Reverse(Trail(came, cost, start, goal)))
    ensures goal !in cost ==> goal != start && goal !in came
  {
    if goal in cost {
      TrailFollowsPredecessors(came, cost, start, goal);
      ReversedLinksAreLegal(grid, start, cost, came, Trail(came, cost, start, goal));
    }
  }

  /** A path from the start to the goal that is legal whenever the goal is
      costed, and is the fallback `[start, goal]` once the search has closed
      the costed cells without costing the goal, is legal exactly when the
      goal is reachable. */
  lemma PathMeansReachable(grid: array2<int>, start: Cell, goal: Cell, cost: map<Cell, nat>, path: seq<Cell>)
    requires start in cost
    requires |path| >= 1 && path[0] == start && path[|path| - 1] == goal
    requires goal in cost ==> IsLegalPath(grid, path)
    requires goal !in cost ==> path == [start, goal] && forall c :: c in cost ==> Relaxed(grid, cost, c)
    ensures Reachable(grid, start, goal) <==> IsLegalPath(grid, path)
    ensures !Reachable(grid, start, goal) ==> path == [start, goal]
  {
    if goal in cost {
      assert IsWalk(grid, path, start, goal);
    } else {
      WalksEndInCost(grid, cost, start);
      assert !Reachable(grid, start, goal);
      assert IsLegalPath(grid, path) ==> IsWalk(grid, path, start, goal);
    }
  }

  // ---------------------------------------------------------------------
  // The search.
  // ---------------------------------------------------------------------

  /** `jump_point_search(grid, start, goal)`. The start must lie inside the
      grid (a start outside it makes the original index outside the array);
      the goal may be any cell. The returned path starts at `start` and ends
      at `goal`; it is a legal walk exactly when the goal is reachable, and
      when it is not, the path is the two-cell fallback `[start, goal]`. */
  method JumpPointSearch(grid: array2<int>, start: Cell, goal: Cell) returns (path: seq<Cell>)
    requires Inside(grid, start)
    ensures |path| >= 1 && path[0] == start && path[|path| - 1] == goal
    ensures start == goal ==> path == [start]
    ensures Reachable(grid, start, goal) <==> IsLegalPath(grid, path)
    ensures !Reachable(grid, start, goal) ==> path == [start, goal]
    ensures forall i, j :: 0 <= i < j < |path| ==> path[i] != path[j]
  {
    var open := [Entry(0, start)];
    var came: map<Cell, Cell> := map[];
    var cost: map<Cell, nat> := map[start := 0];
    assert Entry(0, start) in open;
    while |open| > 0
      invariant Tree(grid, start, cost, came) && Queued(cost, open) && Closed(grid, cost, open)
      decreases Unreached(GridCells(grid), cost), CostSum(GridCells(grid), cost), |open|
    {
      var entry, rest := Get(open);
      var current := entry.cell;
      forall c | c in cost && c != current && Pending(open, c)
        ensures Pending(rest, c)
      {
        var e :| e in open && e.cell == c;
        assert e in rest;
      }
      open := rest;
      if current == goal {
        break;
      }
      cost, came, open := Expand(grid, goal, current, cost, came, open, start);
    }
    assert goal !in cost ==> Closed(grid, cost, []);
    TreeIsChain(grid, start, cost, came);
    path := Backtrack(came, start, goal, cost);
    SearchResult(grid, start, goal, cost, came);
  }
}
