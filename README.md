# Game of Life engine, modelled in Dafny

This project models the simulation engine shared by the two React components of the
game-of-life repository, `src/App.js` (responsive grid, slider-paced) and `src/_backup.js`
(fixed 40×63 grid, 100 ms pace):

- the grid of 0/1 cells and its construction (`clearGrid`, `randomiseGrid`);
- the `operations` table of eight neighbour offsets and the neighbour-counting loop;
- one generation (the step body of `runSimulation`), which reads only the previous grid `g`
  and writes the rule's result into a copy;
- the cell-click toggle;
- the run/stop machine: the `running` flag checked at the top of every tick, the single
  re-arming timer, the run button, the slider, and the clear and randomise buttons;
- the responsive grid size `round(width / 20)` × `round(height / 20)` and the delay `interval * 10`.

Modules: `GameGrid` (grid shape, clear, randomise, toggle), `Neighbourhood` (offset table,
reference neighbour count, counting loop), `Generation` (the rule, the step method, scenario
lemmas), `Sizing` (cell size, rounding, slider scaling), `RunLoop` (class `Simulation`,
the run/stop machine of both components) and `BackupEngine` (the 40×63 component).

Grids are `seq<seq<int>>` values, so "copy, then modify the copy" is written literally: the
step and toggle start from the old grid and update single cells of the copy, and the old
grid cannot change. `Generation.Step` is the nested loop of the source. It is proved equal
to `NextGrid`, a function that applies `Next` to every cell. Properties of the rule are
proved about `Next`: Conway's B3/S23 rule, death below 2 and above 3 neighbours, birth on
3, preservation of shape and of 0/1 values, and the blinker oscillation. The neighbour
count is given twice. `LiveNeighbours` is a window sum written independently of the table.
`OffsetSum` sums along the table, as the loop does. A lemma shows the two are equal. On a
0/1 grid the count is also the number of live in-bounds Moore neighbours, a set cardinality.

The timer is modelled as a count, `pending`, of armed timers that have not fired yet.
`TimerFires` is the transition taken when one fires. A React re-render is assumed to copy
`running` into `runningRef.current` before any timer can fire.

The `operations` table of `src/_backup.js:8-17` is the same as that of `src/App.js:10-19`.
Its step body (`src/_backup.js:53-78`) and toggle (`src/_backup.js:100-105`) are the same
code as well. Both components therefore share `Neighbourhood`, `Generation.Step` and
`GameGrid.Toggle`. `BackupEngine` fixes the dimensions and the delay.

Three behaviours the code does not have, and how the model reflects that:

- There is no out-of-bounds error for a toggle: a click handler exists only for a rendered
  cell. `Toggle` therefore requires (i, k) to be in the grid.
- There are no separate start and stop commands: one button flips the flag, so pressing it
  twice restarts the simulation.
- There is no check for a negative dimension: dimensions come from a rounded non-negative
  measurement or from constants, so they are `nat` here.

## Model

| member | source | states |
|---|---|---|
| GameGrid.ClearGrid | src/App.js:40-47 | returns exactly numRows rows of numCols cells, every cell 0 |
| GameGrid.RandomiseGrid | src/App.js:58-64 | returns a numRows × numCols grid of 0s and 1s; a cell is 1 exactly when its supplied draw exceeded the threshold |
| GameGrid.Toggle | src/App.js:133-136 | the result has the grid's shape; cell (i, k) is flipped (non-zero to 0, 0 to 1) and differs from before; every other cell is unchanged |
| GameGrid.TogglePreservesShape | src/App.js:133-136 | a toggle keeps a numRows × numCols grid that shape, and keeps a 0/1 grid 0/1 |
| GameGrid.ToggleTwice | src/App.js:133-136 | toggling a 0/1 cell twice gives back the original grid |
| Neighbourhood.MooreOffsets | src/App.js:10-19 | the reference set of offsets: (dx, dy) is in it exactly when both lie in {-1, 0, 1} and not both are 0 |
| Neighbourhood.OperationsAreMooreOffsets | src/App.js:10-19 | the table has 8 entries, no two equal, each a Moore offset, and every Moore offset is in it; its elements are exactly the Moore offsets |
| Neighbourhood.OffsetSum | src/App.js:77-85 | the table-order sum of the cells reached through a list of offsets; on a 0/1 grid it lies between 0 and the number of offsets |
| Neighbourhood.OperationsSumIsLiveNeighbours | src/App.js:77-85 | summing the in-bounds cells reached through the eight table offsets gives the 3×3 window sum minus the centre |
| Neighbourhood.LiveNeighboursBounded | src/App.js:77-85 | on a 0/1 grid the neighbour count lies in [0, 8] |
| Neighbourhood.OffsetSumCountsLive | src/App.js:77-85 | on a 0/1 grid, summing over any list of distinct offsets counts exactly the offsets that reach a live in-bounds cell |
| Neighbourhood.LiveNeighboursCountsLiveMooreNeighbours | src/App.js:77-85 | on a 0/1 grid the neighbour count equals the number of live Moore neighbours inside the grid (no wraparound) |
| Neighbourhood.CountNeighbours | src/App.js:75-85 | the forEach loop returns the reference neighbour count of (i, k), skipping coordinates outside the grid; on a 0/1 grid it lies in [0, 8] |
| Generation.Next | src/App.js:88-93 | the next value of a cell is 0, 1 or its old value, and on a 0/1 grid it is 0 or 1 |
| Generation.NextGrid | src/App.js:72-95 | the next generation has the old grid's shape, and each cell is the rule applied to the old grid |
| Generation.NextIsConway | src/App.js:88-93 | on a 0/1 grid the next value is 0 or 1, and it is 1 exactly when B3/S23 holds: alive with 2 or 3 neighbours, or dead with 3 |
| Generation.DiesOutsideTwoToThree | src/App.js:88-89 | a cell with fewer than 2 or more than 3 live neighbours is 0 in the next grid, whatever its current value |
| Generation.BirthOnThree | src/App.js:90-91 | a dead cell with exactly 3 live neighbours is 1 in the next grid |
| Generation.KeepsValueOtherwise | src/App.js:88-93 | a cell with 2 neighbours, or a live cell with 3, keeps its value |
| Generation.NextGridPreservesShape | src/App.js:72-95 | a step keeps a numRows × numCols grid that shape and keeps a 0/1 grid 0/1 |
| Generation.DeadGridIsStill | src/App.js:72-95 | the next generation of an all-dead grid is the same all-dead grid |
| Generation.Step | src/App.js:72-95 | the nested loop, starting from a copy of g and reading only g, returns exactly the next generation of g, of g's shape |
| Generation.BlinkerTurnsVertical | src/App.js:72-95 | three live cells across the middle row of a 3×3 grid become three live cells down the middle column, and nothing else is alive |
| Generation.BlinkerTurnsHorizontal | src/App.js:72-95 | the vertical line turns back into the horizontal one, so the blinker has period 2 |
| Generation.DegenerateGridIsUnchanged | src/App.js:72-95 | a grid with no rows, or with rows of no cells, steps to itself |
| Sizing.RoundedCells | src/App.js:34-37 | round(pixels / 20) with halves rounding up: 20·n ≤ pixels + 10 < 20·(n + 1) |
| Sizing.RoundedCellsIsNearest | src/App.js:36-37 | any count within that rounding bound equals the computed one |
| Sizing.RoundedCellsMonotone | src/App.js:34-37 | a larger measurement never gives fewer cells |
| Sizing.GridDimensions | src/App.js:34-37 | numRows is the rounded height and numCols the rounded width, each within half a cell of the measurement |
| Sizing.ScaledDelay | src/App.js:49-51 | the delay is a multiple of 10, and a slider value in [1, 100] gives a delay in [10, 1000] ms |
| Sizing.ScaledDelayStrictlyMonotone | src/App.js:51 | a larger slider value gives a strictly longer delay |
| RunLoop.Delay | src/App.js:98 | the responsive component's delay lies in [10, 1000] ms for a slider value in range; the fixed component's is 100 ms |
| RunLoop.Simulation.constructor | src/App.js:105-110 | the first grid is an empty numRows × numCols grid; the simulation is stopped, the slider is at 50 and no timer is armed |
| RunLoop.Simulation.RunSimulation | src/App.js:66-99 | with the flag off nothing changes and no timer is armed; with it on, the grid becomes the next generation and exactly one timer is armed, with the current delay |
| RunLoop.Simulation.TimerFires | src/App.js:98 | a fired timer on a stopped simulation changes nothing and arms nothing; on a running one it steps once and re-arms once; at most one loop stays alive |
| RunLoop.Simulation.PressRunButtonAsWritten | src/App.js:150-155 | the button as written: stopping clears the flag and leaves the armed timer; starting sets the flag, steps and arms a further timer whatever is already armed |
| RunLoop.Simulation.PressRunButton | src/App.js:150-155 | the corrected button: the flag flips; starting steps and arms a timer only when none is armed; at most one loop stays alive |
| RunLoop.Simulation.SetInterval | src/App.js:171-179 | the slider changes only the value used for the next timer armed; the grid, the flag and the armed timers are unchanged |
| RunLoop.Simulation.Clear | src/App.js:164-168 | every cell of the published grid becomes 0; flag, slider and timers are unchanged |
| RunLoop.Simulation.Randomise | src/App.js:58-64 | the published grid becomes the 0/1 grid given by the draws; flag, slider and timers are unchanged |
| RunLoop.Simulation.ClickCell | src/App.js:132-137 | the published grid becomes the old one with cell (i, k) toggled; flag, slider and timers are unchanged |
| RunLoop.StopStartRunsTwoLoops | src/App.js:150-155 | with the button as written, start, stop, start before the first timer fires leaves two armed timers |
| RunLoop.StopStartKeepsOneLoop | src/App.js:150-155 | with the corrected button the same presses leave one armed timer and a running simulation |
| RunLoop.StaleTimerEndsLoop | src/App.js:66-69 | with the button as written, after start and stop the armed timer fires, steps nothing, arms nothing, and no timer is left |
| BackupEngine.ClearGrid | src/_backup.js:19-25 | returns 40 rows of 63 cells, every cell 0 |
| BackupEngine.RandomiseGrid | src/_backup.js:40-46 | returns a 40×63 grid whose cells are all 0 or 1, each 1 exactly when its draw exceeded the threshold |
| BackupEngine.Step | src/_backup.js:53-78 | the step over the fixed 40×63 bounds returns the next generation of g, keeps the shape and keeps a 0/1 grid 0/1 |
| BackupEngine.ToggleOnFixedGrid | src/_backup.js:100-105 | a click keeps the 40×63 shape and the 0/1 values, and clicking the same cell twice restores the grid |
| BackupEngine.NewSimulation | src/_backup.js:31-51 | the fixed component starts stopped on an empty 40×63 grid with no timer armed, and its delay is 100 ms |

## Findings

| source | as written | input that shows it | evidently intended | confidence | as-written member | corrected member |
|---|---|---|---|---|---|---|
| src/App.js:150-155 (the same code at src/_backup.js:114-119) | pressing the button to stop clears the flag but does not cancel the armed timer; pressing it to start calls `runSimulation` at once, which arms a new timer | press start, press stop, and press start again before the first timer fires: that timer finds the flag on and keeps its chain going beside the new one, so the grid advances twice per interval | starting never adds a second timer chain: at most one timer is armed, and a running simulation has exactly one | medium; not executed | RunLoop.StopStartRunsTwoLoops | RunLoop.Simulation.PressRunButton |

## Left out

- Rendering: JSX, CSS classes, `Helmet`, the slider widget itself and `console.log` are view code.
- Real time and `setTimeout`: a tick is a state transition, and an armed timer is a count in `pending`. The model never orders timers by time.
- `Math.random` and the thresholds 0.9 (`src/App.js:61`) and 0.7 (`src/_backup.js:43`): the random draws are a supplied grid of booleans, each saying whether the draw exceeded the component's threshold.
- `immer`'s `produce`: it is modelled as "copy the grid, then modify the copy".
- DOM measurement through `offsetWidth`/`offsetHeight`, and the undefined width that gives `NaN` dimensions before the container is mounted: width and height are non-negative integer inputs.
- The undefined grid of `src/App.js` before the container is first measured: the model starts from the cleared grid that the mount effect installs.
- React's state and ref plumbing (`useState`, `useRef`, `useEffect`, `useCallback` dependency lists). The model keeps only the flag, the slider value, the grid and the armed timers.
- Resizing: `src/App.js` recomputes the dimensions on every render, but never resizes a grid it has already built. A `Simulation` fixes its dimensions when it is constructed, and every step requires the grid to have them.
- Generation.Step: requires the loop bounds to match the grid. The source reads `numRows`/`numCols` from the render closure, and its behaviour on a grid of another shape is not modelled.
