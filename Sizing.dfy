/**
 How the responsive component sizes its grid and paces its generations:
 the grid has one cell per 20 measured pixels, rounded to the nearest whole
 cell, and the slider value is scaled by 10 to give the delay in milliseconds.
 */
module Sizing {

  /** `gridSize`: the side of one cell, in pixels. */
  const CellSize: nat := 20

  /** The slider's range and starting value. */
  const SliderMin: int := 1
  const SliderMax: int := 100
  const SliderDefault: int := 50

  /**
   `Math.round(pixels / gridSize)` for a non-negative measurement: the number
   of whole cells nearest to pixels / 20, with a half rounding up.
   */
  function RoundedCells(pixels: nat): (n: nat)
    ensures CellSize * n <= pixels + CellSize / 2 < CellSize * (n + 1)
  {
    (pixels + CellSize / 2) / CellSize
  }

  /** The rounding bound above pins the count down: no other count is within half a cell. */
  lemma RoundedCellsIsNearest(pixels: nat, n: int)
    requires CellSize * n <= pixels + CellSize / 2 < CellSize * (n + 1)
    ensures n == RoundedCells(pixels)
  {
  }

  /** A larger measurement never gives fewer cells. */
  lemma RoundedCellsMonotone(a: nat, b: nat)
    requires a <= b
    ensures RoundedCells(a) <= RoundedCells(b)
  {
  }

  /** `numRows` from the measured height and `numCols` from the measured width. */
  function GridDimensions(width: nat, height: nat): (dims: (nat, nat))
    ensures CellSize * dims.0 <= height + CellSize / 2 < CellSize * (dims.0 + 1)
    ensures CellSize * dims.1 <= width + CellSize / 2 < CellSize * (dims.1 + 1)
  {
    (RoundedCells(height), RoundedCells(width))
  }

  /** `intervalRef.current = interval * 10`: the delay, in milliseconds, before the next generation. */
  function ScaledDelay(interval: int): (ms: int)
    ensures SliderMin <= interval <= SliderMax ==> 10 <= ms <= 1000
    ensures ms % 10 == 0
  {
    interval * 10
  }

  /** A larger slider value gives a strictly longer delay. */
  lemma ScaledDelayStrictlyMonotone(a: int, b: int)
    requires a < b
    ensures ScaledDelay(a) < ScaledDelay(b)
  {
  }
}
