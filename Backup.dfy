/**
 The fixed-size component: the same engine on a 40×63 grid, with generations
 100 ms apart whatever the slider says.
 */
module BackupEngine {
  import opened GameGrid
  import opened Generation
  import opened RunLoop

  const NumRows: nat := 40
  const NumCols: nat := 63

  /** The top-level `clearGrid`: 40 rows of 63 dead cells. */
  method ClearGrid() returns (rows: Grid)
    ensures IsGrid(rows, 40, 63)
    ensures forall i, k :: 0 <= i < 40 && 0 <= k < 63 ==> rows[i][k] == 0
  {
    rows := GameGrid.ClearGrid(NumRows, NumCols);
  }

  /** `randomiseGrid`, with the draws supplied: a 40×63 grid of 0s and 1s. */
  method RandomiseGrid(draws: seq<seq<bool>>) returns (rows: Grid)
    requires IsGrid(draws, 40, 63)
    ensures IsGrid(rows, 40, 63) && Binary(rows)
    ensures forall i, k :: 0 <= i < 40 && 0 <= k < 63 ==> (rows[i][k] == 1 <==> draws[i][k])
  {
    rows := GameGrid.RandomiseGrid(NumRows, NumCols, draws);
  }

  /** The step body of `runSimulation` over the fixed 40×63 bounds. */
  method Step(g: Grid) returns (gridCopy: Grid)
    requires IsGrid(g, 40, 63)
    ensures IsGrid(gridCopy, 40, 63)
    ensures Binary(g) ==> Binary(gridCopy)
    ensures gridCopy == NextGrid(g)
  {
    gridCopy := Generation.Step(g, NumRows, NumCols);
    NextGridPreservesShape(g, NumRows, NumCols);
  }

  /** The cell click keeps the 40×63 shape, and clicking a 0/1 cell twice restores the grid. */
  lemma ToggleOnFixedGrid(g: Grid, i: int, k: int)
    requires IsGrid(g, 40, 63) && 0 <= i < 40 && 0 <= k < 63
    requires Binary(g)
    ensures IsGrid(Toggle(g, i, k), 40, 63) && Binary(Toggle(g, i, k))
    ensures Toggle(Toggle(g, i, k), i, k) == g
  {
    TogglePreservesShape(g, 40, 63, i, k);
    ToggleTwice(g, i, k);
  }

  /** The component's first render: a stopped 40×63 simulation on an empty grid, paced at 100 ms. */
  method NewSimulation() returns (s: Simulation)
    ensures fresh(s) && s.Valid() && s.SingleLoop()
    ensures s.numRows == 40 && s.numCols == 63 && s.variant == Fixed
    ensures s.grid == seq(40, _ => DeadRow(63))
    ensures !s.running && s.pending == 0
    ensures Delay(s.variant, s.interval) == 100
  {
    s := new Simulation(NumRows, NumCols, Fixed);
  }
}
