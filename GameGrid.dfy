/**
 The grid of cells shared by both front-end components: a dense, row-major
 table of numbers where 1 is a live cell and 0 a dead one. Grids are values,
 so every operation here builds a new grid and leaves its argument as it was
 (the copy-on-write discipline of the original).
 */
module GameGrid {

  /** A grid of cells, addressed as g[row][col]. */
  type Grid = seq<seq<int>>

  /** `g` has exactly `numRows` rows of exactly `numCols` entries each. */
  predicate IsGrid<T>(g: seq<seq<T>>, numRows: int, numCols: int) {
    |g| == numRows && forall i :: 0 <= i < |g| ==> |g[i]| == numCols
  }

  /** Every cell of `g` is dead (0) or alive (1). */
  predicate Binary(g: Grid) {
    forall i, k :: 0 <= i < |g| && 0 <= k < |g[i]| ==> g[i][k] == 0 || g[i][k] == 1
  }

  /** The value of cell (r, c), or 0 when (r, c) lies outside the grid: edges have no wraparound. */
  function Cell(g: Grid, r: int, c: int): (v: int)
    ensures (0 <= r < |g| && 0 <= c < |g[r]|) ==> v == g[r][c]
    ensures !(0 <= r < |g| && 0 <= c < |g[r]|) ==> v == 0
  {
    if 0 <= r < |g| && 0 <= c < |g[r]| then g[r][c] else 0
  }

  /** One row of `numCols` dead cells: `Array.from(Array(numCols), () => 0)`. */
  function DeadRow(numCols: nat): (row: seq<int>)
    ensures |row| == numCols && forall k :: 0 <= k < numCols ==> row[k] == 0
  {
    seq(numCols, _ => 0)
  }

  /** `clearGrid`: push `numRows` rows of dead cells. */
  method ClearGrid(numRows: nat, numCols: nat) returns (rows: Grid)
    ensures IsGrid(rows, numRows, numCols)
    ensures forall i, k :: 0 <= i < numRows && 0 <= k < numCols ==> rows[i][k] == 0
  {
    rows := [];
    for i := 0 to numRows
      invariant |rows| == i
      invariant forall r :: 0 <= r < i ==> rows[r] == DeadRow(numCols)
    {
      rows := rows + [DeadRow(numCols)];
    }
  }

  /**
   `randomiseGrid`. The random source is supplied: draws[i][k] is whether the
   draw for cell (i, k) exceeded the component's threshold.
   */
  method RandomiseGrid(numRows: nat, numCols: nat, draws: seq<seq<bool>>) returns (rows: Grid)
    requires IsGrid(draws, numRows, numCols)
    ensures IsGrid(rows, numRows, numCols) && Binary(rows)
    ensures forall i, k :: 0 <= i < numRows && 0 <= k < numCols ==>
              (rows[i][k] == 1 <==> draws[i][k])
  {
    rows := [];
    for i := 0 to numRows
      invariant |rows| == i
      invariant forall r :: 0 <= r < i ==> |rows[r]| == numCols
      invariant forall r, k :: 0 <= r < i && 0 <= k < numCols ==>
                  rows[r][k] == (if draws[r][k] then 1 else 0)
    {
      var row := seq(numCols, k requires 0 <= k < numCols => if draws[i][k] then 1 else 0);
      rows := rows + [row];
    }
  }

  /** The value a click writes: a truthy (non-zero) cell becomes 0, a zero cell 1. */
  function Flipped(v: int): (w: int)
    ensures v != 0 ==> w == 0
    ensures v == 0 ==> w == 1
  {
    if v != 0 then 0 else 1
  }

  /**
   The cell-click handler: a copy of `g` in which only cell (i, k) is flipped.
   The handler exists only for rendered cells, so (i, k) is always in the grid.
   */
  function Toggle(g: Grid, i: int, k: int): (r: Grid)
    requires 0 <= i < |g| && 0 <= k < |g[i]|
    ensures |r| == |g| && forall a :: 0 <= a < |g| ==> |r[a]| == |g[a]|
    ensures r[i][k] == Flipped(g[i][k]) && r[i][k] != g[i][k]
    ensures forall a, b :: 0 <= a < |g| && 0 <= b < |g[a]| && (a != i || b != k) ==> r[a][b] == g[a][b]
  {
    g[i := g[i][k := Flipped(g[i][k])]]
  }

  /** Toggling keeps a grid's shape and keeps it binary. */
  lemma TogglePreservesShape(g: Grid, numRows: int, numCols: int, i: int, k: int)
    requires IsGrid(g, numRows, numCols) && 0 <= i < numRows && 0 <= k < numCols
    ensures IsGrid(Toggle(g, i, k), numRows, numCols)
    ensures Binary(g) ==> Binary(Toggle(g, i, k))
  {
  }

  /** On a 0/1 cell, toggling twice gives back the original grid. */
  lemma ToggleTwice(g: Grid, i: int, k: int)
    requires 0 <= i < |g| && 0 <= k < |g[i]|
    requires g[i][k] == 0 || g[i][k] == 1
    ensures Toggle(Toggle(g, i, k), i, k) == g
  {
    var t := Toggle(g, i, k);
    assert Toggle(t, i, k)[i] == g[i];
  }
}
