/** The termination measure of the grid search. Every queue push follows
    either the first cost recorded for a cell or a strictly smaller
    replacement of its cost; the first lowers the number of grid cells that
    have no cost yet, the second lowers the sum of the recorded costs and
    leaves that number alone. Both are taken over the list of all cells. */
module Measure {
  import opened Grid

  /** The cells of row `y` with `x < n`. */
  function Row(y: int, n: nat): seq<Cell> {
    if n == 0 then [] else Row(y, n - 1) + [Cell(n - 1, y)]
  }

  /** Every cell of a grid with `rows` rows and `cols` columns. */
  function AllCells(rows: nat, cols: nat): seq<Cell> {
    if rows == 0 then [] else AllCells(rows - 1, cols) + Row(rows - 1, cols)
  }

  lemma {:induction false} RowContains(y: int, n: nat, x: int)
    requires 0 <= x < n
    ensures Cell(x, y) in Row(y, n)
  {
    assert Row(y, n) == Row(y, n - 1) + [Cell(n - 1, y)];
    if x < n - 1 {
      RowContains(y, n - 1, x);
    }
  }

  /** Every cell inside the bounds is listed. */
  lemma {:induction false} AllCellsContains(rows: nat, cols: nat, c: Cell)
    requires 0 <= c.x < cols && 0 <= c.y < rows
    ensures c in AllCells(rows, cols)
  {
    var prefix, last := AllCells(rows - 1, cols), Row(rows - 1, cols);
    assert AllCells(rows, cols) == prefix + last;
    if c.y < rows - 1 {
      AllCellsContains(rows - 1, cols, c);
      assert c in prefix;
    } else {
      RowContains(c.y, cols, c.x);
      assert c in last;
    }
  }

  /** The cells of the grid: the list the measure ranges over. */
  function GridCells(grid: array2<int>): seq<Cell> {
    AllCells(grid.Length0, grid.Length1)
  }

  /** Number of listed cells without a recorded cost. */
  function Unreached(l: seq<Cell>, cost: map<Cell, nat>): nat {
    if l == [] then 0 else (if l[0] in cost then 0 else 1) + Unreached(l[1..], cost)
  }

  /** Sum of the recorded costs of the listed cells. */
  function CostSum(l: seq<Cell>, cost: map<Cell, nat>): nat {
    if l == [] then 0 else (if l[0] in cost then cost[l[0]] else 0) + CostSum(l[1..], cost)
  }

  /** The lexicographic order of (unreached, sum) pairs. */
  predicate LexLess(u: nat, s: nat, u0: nat, s0: nat) {
    u < u0 || (u == u0 && s < s0)
  }

  /** Recording a first cost for a listed cell lowers the number of unreached cells. */
  lemma {:induction false} FirstCostLowersUnreached(l: seq<Cell>, cost: map<Cell, nat>, c: Cell, v: nat)
    requires c !in cost
    ensures Unreached(l, cost[c := v]) <= Unreached(l, cost)
    ensures c in l ==> Unreached(l, cost[c := v]) < Unreached(l, cost)
  {
    if l != [] {
      FirstCostLowersUnreached(l[1..], cost, c, v);
      assert c in l ==> l[0] == c || c in l[1..];
    }
  }

  /** Replacing a cost by a strictly smaller one keeps the number of
      unreached cells and lowers the sum of costs of a list holding the cell. */
  lemma {:induction false} SmallerCostLowersSum(l: seq<Cell>, cost: map<Cell, nat>, c: Cell, v: nat)
    requires c in cost && v < cost[c]
    ensures Unreached(l, cost[c := v]) == Unreached(l, cost)
    ensures CostSum(l, cost[c := v]) <= CostSum(l, cost)
    ensures c in l ==> CostSum(l, cost[c := v]) < CostSum(l, cost)
  {
    if l != [] {
      SmallerCostLowersSum(l[1..], cost, c, v);
      assert c in l ==> l[0] == c || c in l[1..];
    }
  }
}
