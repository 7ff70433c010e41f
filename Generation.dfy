/**
 One generation of the Game of Life: the rule applied to every cell of the
 previous grid, written into a copy of it.
 */
module Generation {
  import opened GameGrid
  import opened Neighbourhood

  /**
   The value of cell (i, k) in the next generation, read from the previous
   grid `g` only. A count below 2 or above 3 kills the cell; a dead cell with
   exactly 3 neighbours is born; every other cell keeps its value.
   */
  function Next(g: Grid, i: int, k: int): (v: int)
    requires 0 <= i < |g| && 0 <= k < |g[i]|
    ensures v == 0 || v == 1 || v == g[i][k]
    ensures Binary(g) ==> v == 0 || v == 1
  {
    var n := LiveNeighbours(g, i, k);
    if n < 2 || n > 3 then 0
    else if g[i][k] == 0 && n == 3 then 1
    else g[i][k]
  }

  /** The whole next generation of `g`. */
  function NextGrid(g: Grid): (r: Grid)
    ensures |r| == |g| && forall i :: 0 <= i < |g| ==> |r[i]| == |g[i]|
    ensures forall i, k :: 0 <= i < |g| && 0 <= k < |g[i]| ==> r[i][k] == Next(g, i, k)
  {
    seq(|g|, i requires 0 <= i < |g| => seq(|g[i]|, k requires 0 <= k < |g[i]| => Next(g, i, k)))
  }

  /** Conway's rule B3/S23, stated independently of the code's case order. */
  predicate ConwayAlive(alive: bool, n: int) {
    if alive then n == 2 || n == 3 else n == 3
  }

  /** On a 0/1 grid the next value of every cell is 0 or 1, and it is 1 exactly when B3/S23 says so. */
  lemma NextIsConway(g: Grid, i: int, k: int)
    requires Binary(g) && 0 <= i < |g| && 0 <= k < |g[i]|
    ensures Next(g, i, k) == 0 || Next(g, i, k) == 1
    ensures Next(g, i, k) == 1 <==> ConwayAlive(g[i][k] == 1, LiveNeighbours(g, i, k))
  {
  }

  /** Underpopulation and overcrowding: fewer than 2 or more than 3 neighbours gives 0, whatever the cell held. */
  lemma DiesOutsideTwoToThree(g: Grid, i: int, k: int)
    requires 0 <= i < |g| && 0 <= k < |g[i]|
    requires LiveNeighbours(g, i, k) < 2 || LiveNeighbours(g, i, k) > 3
    ensures NextGrid(g)[i][k] == 0
  {
  }

  /** Birth: a dead cell with exactly three live neighbours becomes 1. */
  lemma BirthOnThree(g: Grid, i: int, k: int)
    requires 0 <= i < |g| && 0 <= k < |g[i]| && g[i][k] == 0
    requires LiveNeighbours(g, i, k) == 3
    ensures NextGrid(g)[i][k] == 1
  {
  }

  /** Otherwise unchanged: a live cell with 2 or 3 neighbours, or a dead cell with 2, keeps its value. */
  lemma KeepsValueOtherwise(g: Grid, i: int, k: int)
    requires 0 <= i < |g| && 0 <= k < |g[i]|
    requires LiveNeighbours(g, i, k) == 2 || (LiveNeighbours(g, i, k) == 3 && g[i][k] != 0)
    ensures NextGrid(g)[i][k] == g[i][k]
  {
  }

  /** A step keeps the grid's shape and keeps a 0/1 grid 0/1. */
  lemma NextGridPreservesShape(g: Grid, numRows: int, numCols: int)
    requires IsGrid(g, numRows, numCols)
    ensures IsGrid(NextGrid(g), numRows, numCols)
    ensures Binary(g) ==> Binary(NextGrid(g))
  {
  }

  /** An all-dead grid stays all-dead. */
  lemma DeadGridIsStill(g: Grid)
    requires forall i, k :: 0 <= i < |g| && 0 <= k < |g[i]| ==> g[i][k] == 0
    ensures NextGrid(g) == g
  {
    forall i | 0 <= i < |g| ensures NextGrid(g)[i] == g[i] {
      forall k | 0 <= k < |g[i]| ensures NextGrid(g)[i][k] == 0 {
        assert forall r, c :: Cell(g, r, c) == 0;
      }
    }
  }

  /**
   The step body of `runSimulation`: start from a copy of `g`, and for every
   cell count its neighbours in `g` and write the rule's verdict into the copy.
   The loop bounds are the component's numRows and numCols, which match `g`.
   */
  method Step(g: Grid, numRows: nat, numCols: nat) returns (gridCopy: Grid)
    requires IsGrid(g, numRows, numCols)
    ensures gridCopy == NextGrid(g)
    ensures IsGrid(gridCopy, numRows, numCols)
  {
    gridCopy := g;
    for i := 0 to numRows
      invariant IsGrid(gridCopy, numRows, numCols)
      invariant forall r, c :: 0 <= r < i && 0 <= c < numCols ==> gridCopy[r][c] == Next(g, r, c)
      invariant forall r :: i <= r < numRows ==> gridCopy[r] == g[r]
    {
      for k := 0 to numCols
        invariant IsGrid(gridCopy, numRows, numCols)
        invariant forall r, c :: 0 <= r < i && 0 <= c < numCols ==> gridCopy[r][c] == Next(g, r, c)
        invariant forall c :: 0 <= c < k ==> gridCopy[i][c] == Next(g, i, c)
        invariant forall c :: k <= c < numCols ==> gridCopy[i][c] == g[i][c]
        invariant forall r :: i < r < numRows ==> gridCopy[r] == g[r]
      {
        var neighbours := CountNeighbours(g, numRows, numCols, i, k);
        if neighbours < 2 || neighbours > 3 {
          gridCopy := gridCopy[i := gridCopy[i][k := 0]];
        } else if g[i][k] == 0 && neighbours == 3 {
          gridCopy := gridCopy[i := gridCopy[i][k := 1]];
        }
      }
    }
    forall r | 0 <= r < numRows ensures gridCopy[r] == NextGrid(g)[r] {
    }
    NextGridPreservesShape(g, numRows, numCols);
  }

  /** On a 3×3 grid each row triple is the sum of the entries of that row that the window covers. */
  lemma RowTriplesOf3x3(g: Grid, r: int)
    requires IsGrid(g, 3, 3)
    ensures 0 <= r < 3 ==> RowTriple(g, r, 0) == g[r][0] + g[r][1]
    ensures 0 <= r < 3 ==> RowTriple(g, r, 1) == g[r][0] + g[r][1] + g[r][2]
    ensures 0 <= r < 3 ==> RowTriple(g, r, 2) == g[r][1] + g[r][2]
    ensures !(0 <= r < 3) ==> RowTriple(g, r, 0) == RowTriple(g, r, 1) == RowTriple(g, r, 2) == 0
  {
  }

  /** The next generation of a 3×3 grid, written out cell by cell. */
  lemma NextGridOf3x3(g: Grid)
    requires IsGrid(g, 3, 3)
    ensures NextGrid(g) == [[Next(g, 0, 0), Next(g, 0, 1), Next(g, 0, 2)],
                            [Next(g, 1, 0), Next(g, 1, 1), Next(g, 1, 2)],
                            [Next(g, 2, 0), Next(g, 2, 1), Next(g, 2, 2)]]
  {
    var r := NextGrid(g);
    assert r[0] == [Next(g, 0, 0), Next(g, 0, 1), Next(g, 0, 2)];
    assert r[1] == [Next(g, 1, 0), Next(g, 1, 1), Next(g, 1, 2)];
    assert r[2] == [Next(g, 2, 0), Next(g, 2, 1), Next(g, 2, 2)];
  }

  /** The "blinker": three live cells across the middle row of a 3×3 grid turn into a vertical line. */
  lemma BlinkerTurnsVertical(h: Grid)
    requires h == [[0, 0, 0], [1, 1, 1], [0, 0, 0]]
    ensures NextGrid(h) == [[0, 1, 0], [0, 1, 0], [0, 1, 0]]
  {
    assert IsGrid(h, 3, 3) && h[0] == [0, 0, 0] && h[1] == [1, 1, 1] && h[2] == [0, 0, 0];
    RowTriplesOf3x3(h, -1);
    RowTriplesOf3x3(h, 0);
    RowTriplesOf3x3(h, 1);
    RowTriplesOf3x3(h, 2);
    RowTriplesOf3x3(h, 3);
    NextGridOf3x3(h);
  }

  /** ... and the vertical line turns back, so the blinker has period 2. */
  lemma BlinkerTurnsHorizontal(v: Grid)
    requires v == [[0, 1, 0], [0, 1, 0], [0, 1, 0]]
    ensures NextGrid(v) == [[0, 0, 0], [1, 1, 1], [0, 0, 0]]
  {
    assert IsGrid(v, 3, 3) && v[0] == [0, 1, 0] && v[1] == [0, 1, 0] && v[2] == [0, 1, 0];
    RowTriplesOf3x3(v, -1);
    RowTriplesOf3x3(v, 0);
    RowTriplesOf3x3(v, 1);
    RowTriplesOf3x3(v, 2);
    RowTriplesOf3x3(v, 3);
    NextGridOf3x3(v);
  }

  /** A grid with no rows, or with rows of no cells, steps to itself. */
  lemma DegenerateGridIsUnchanged(g: Grid, numRows: nat, numCols: nat)
    requires IsGrid(g, numRows, numCols) && (numRows == 0 || numCols == 0)
    ensures NextGrid(g) == g
  {
  }
}
