/**
 Neighbour counting: the fixed table of eight relative offsets and the loop
 that sums the in-bounds cells it reaches.
 */
module Neighbourhood {
  import opened GameGrid

  /** The `operations` table, in the order the source lists it. */
  const Operations: seq<(int, int)> :=
    [(0, 1), (0, -1), (1, -1), (-1, 1), (1, 1), (-1, -1), (1, 0), (-1, 0)]

  /** (dx, dy) is a Moore offset: a non-zero pair drawn from {-1, 0, 1}². */
  predicate IsMooreOffset(dx: int, dy: int) {
    -1 <= dx <= 1 && -1 <= dy <= 1 && (dx != 0 || dy != 0)
  }

  /** The Moore offsets, as a set built independently of the table. */
  function MooreOffsets(): (s: set<(int, int)>)
    ensures forall dx, dy :: (dx, dy) in s <==> IsMooreOffset(dx, dy)
  {
    set dx, dy | -1 <= dx <= 1 && -1 <= dy <= 1 && (dx != 0 || dy != 0) :: (dx, dy)
  }

  /** The table holds eight distinct entries, and together they are exactly the Moore offsets. */
  lemma OperationsAreMooreOffsets()
    ensures |Operations| == 8
    ensures Distinct(Operations)
    ensures forall j :: 0 <= j < |Operations| ==> IsMooreOffset(Operations[j].0, Operations[j].1)
    ensures forall dx, dy :: IsMooreOffset(dx, dy) ==> (dx, dy) in Operations
    ensures Elements(Operations) == MooreOffsets()
  {
  }

  /**
   Reference definition of the neighbour count: the sum over the 3×3 window
   centred on (i, k), minus the centre. Cells outside the grid count as 0.
   */
  function RowTriple(g: Grid, r: int, k: int): (sum: int) {
    Cell(g, r, k - 1) + Cell(g, r, k) + Cell(g, r, k + 1)
  }

  function LiveNeighbours(g: Grid, i: int, k: int): (n: int) {
    RowTriple(g, i - 1, k) + RowTriple(g, i, k) + RowTriple(g, i + 1, k) - Cell(g, i, k)
  }

  /** On a 0/1 grid the count lies in [0, 8]. */
  lemma LiveNeighboursBounded(g: Grid, i: int, k: int)
    requires Binary(g)
    ensures 0 <= LiveNeighbours(g, i, k) <= 8
  {
  }

  /** The sum of the cells reached from (i, k) by each offset of `ops`, summed from the front. */
  function OffsetSum(g: Grid, i: int, k: int, ops: seq<(int, int)>): (sum: int)
    ensures Binary(g) ==> 0 <= sum <= |ops|
    decreases |ops|
  {
    if ops == [] then 0
    else OffsetSum(g, i, k, ops[..|ops| - 1]) + Cell(g, i + ops[|ops| - 1].0, k + ops[|ops| - 1].1)
  }

  /** Summing over the eight table entries gives the window-based count. */
  lemma {:induction false} OperationsSumIsLiveNeighbours(g: Grid, i: int, k: int)
    ensures OffsetSum(g, i, k, Operations) == LiveNeighbours(g, i, k)
  {
    var ops := Operations;
    assert ops[..8] == ops;
    assert ops[..7][..6] == ops[..6];
    assert ops[..6][..5] == ops[..5];
    assert ops[..5][..4] == ops[..4];
    assert ops[..4][..3] == ops[..3];
    assert ops[..3][..2] == ops[..2];
    assert ops[..2][..1] == ops[..1];
    assert ops[..1][..0] == [];
    assert ops[..8][..7] == ops[..7];
    assert OffsetSum(g, i, k, ops[..1]) == Cell(g, i, k + 1);
    assert OffsetSum(g, i, k, ops[..2]) == OffsetSum(g, i, k, ops[..1]) + Cell(g, i, k - 1);
    assert OffsetSum(g, i, k, ops[..3]) == OffsetSum(g, i, k, ops[..2]) + Cell(g, i + 1, k - 1);
    assert OffsetSum(g, i, k, ops[..4]) == OffsetSum(g, i, k, ops[..3]) + Cell(g, i - 1, k + 1);
    assert OffsetSum(g, i, k, ops[..5]) == OffsetSum(g, i, k, ops[..4]) + Cell(g, i + 1, k + 1);
    assert OffsetSum(g, i, k, ops[..6]) == OffsetSum(g, i, k, ops[..5]) + Cell(g, i - 1, k - 1);
    assert OffsetSum(g, i, k, ops[..7]) == OffsetSum(g, i, k, ops[..6]) + Cell(g, i + 1, k);
    assert OffsetSum(g, i, k, ops) == OffsetSum(g, i, k, ops[..7]) + Cell(g, i - 1, k);
  }

  /** The offsets of `ops` that lead from (i, k) to a live cell inside the grid. */
  function LiveOffsets(g: Grid, i: int, k: int, ops: set<(int, int)>): (live: set<(int, int)>) {
    set o | o in ops && Cell(g, i + o.0, k + o.1) == 1
  }

  /** Adding one offset adds it to the live offsets exactly when it reaches a live cell. */
  lemma LiveOffsetsAddOne(g: Grid, i: int, k: int, ops: set<(int, int)>, o: (int, int))
    ensures LiveOffsets(g, i, k, ops + {o}) ==
            LiveOffsets(g, i, k, ops) + (if Cell(g, i + o.0, k + o.1) == 1 then {o} else {})
  {
  }

  /** The elements of a sequence, as a set. */
  function Elements(ops: seq<(int, int)>): (s: set<(int, int)>)
    ensures forall o :: o in s <==> o in ops
  {
    set o | o in ops
  }

  /** The offsets of `ops` are pairwise distinct. */
  predicate Distinct(ops: seq<(int, int)>) {
    forall a, b :: 0 <= a < b < |ops| ==> ops[a] != ops[b]
  }

  /** Dropping the last offset of a distinct list leaves a distinct list without it. */
  lemma DistinctSnoc(ops: seq<(int, int)>)
    requires Distinct(ops) && ops != []
    ensures Distinct(ops[..|ops| - 1]) && ops[|ops| - 1] !in ops[..|ops| - 1]
    ensures Elements(ops) == Elements(ops[..|ops| - 1]) + {ops[|ops| - 1]}
  {
    var pre := ops[..|ops| - 1];
    assert forall a :: 0 <= a < |pre| ==> pre[a] == ops[a];
    assert ops == pre + [ops[|ops| - 1]];
  }

  /** Over distinct offsets of a 0/1 grid, the sum counts the offsets that reach a live cell. */
  lemma {:induction false} OffsetSumCountsLive(g: Grid, i: int, k: int, ops: seq<(int, int)>)
    requires Binary(g) && Distinct(ops)
    ensures OffsetSum(g, i, k, ops) == |LiveOffsets(g, i, k, Elements(ops))|
    decreases |ops|
  {
    if ops != [] {
      var pre, last := ops[..|ops| - 1], ops[|ops| - 1];
      DistinctSnoc(ops);
      OffsetSumCountsLive(g, i, k, pre);
      LiveOffsetsAddOne(g, i, k, Elements(pre), last);
      assert last !in LiveOffsets(g, i, k, Elements(pre));
    }
  }

  /** On a 0/1 grid the count is exactly the number of live Moore neighbours inside the grid. */
  lemma LiveNeighboursCountsLiveMooreNeighbours(g: Grid, i: int, k: int)
    requires Binary(g)
    ensures LiveNeighbours(g, i, k) == |LiveOffsets(g, i, k, MooreOffsets())|
  {
    OperationsAreMooreOffsets();
    OperationsSumIsLiveNeighbours(g, i, k);
    OffsetSumCountsLive(g, i, k, Operations);
    assert Elements(Operations) == MooreOffsets();
  }

  /**
   The `operations.forEach` loop: for each offset, add the neighbour's value
   when the neighbour lies inside the numRows × numCols grid.
   */
  method CountNeighbours(g: Grid, numRows: nat, numCols: nat, i: int, k: int) returns (neighbours: int)
    requires IsGrid(g, numRows, numCols)
    ensures neighbours == LiveNeighbours(g, i, k)
    ensures Binary(g) ==> 0 <= neighbours <= 8
  {
    neighbours := 0;
    for j := 0 to |Operations|
      invariant neighbours == OffsetSum(g, i, k, Operations[..j])
    {
      var (x, y) := Operations[j];
      var newI := i + x;
      var newK := k + y;
      assert Operations[..j + 1][..j] == Operations[..j];
      if newI >= 0 && newI < numRows && newK >= 0 && newK < numCols {
        neighbours := neighbours + g[newI][newK];
      }
    }
    assert Operations[..|Operations|] == Operations;
    OperationsSumIsLiveNeighbours(g, i, k);
    if Binary(g) {
      LiveNeighboursBounded(g, i, k);
    }
  }
}
