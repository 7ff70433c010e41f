/**
 The run/stop machine of both components. The `running` flag is the value
 of `runningRef.current`; a tick is one call of `runSimulation`, made either
 by the run button or by a timer that an earlier tick armed. Timers are not
 modelled in time: `pending` counts the armed timers that have not yet fired,
 and `TimerFires` is the transition taken when one of them does.
 */
module RunLoop {
  import opened GameGrid
  import opened Generation
  import opened Sizing

  datatype Option<T> = None | Some(value: T)

  /** Which component drives the loop: the responsive one (App.js) or the fixed 40×63 one (_backup.js). */
  datatype Variant = Responsive | Fixed

  /** The delay a tick passes to `setTimeout`: the scaled slider value, or a constant 100 ms. */
  function Delay(variant: Variant, interval: int): (ms: int)
    ensures variant == Fixed ==> ms == 100
    ensures variant == Responsive && SliderMin <= interval <= SliderMax ==> 10 <= ms <= 1000
  {
    match variant
    case Responsive => ScaledDelay(interval)
    case Fixed => 100
  }

  class Simulation {
    const numRows: nat
    const numCols: nat
    const variant: Variant

    /** The published grid. */
    var grid: Grid
    /** `runningRef.current`. */
    var running: bool
    /** The slider value. */
    var interval: int
    /** Timers armed by `setTimeout(runSimulation, …)` that have not fired yet. */
    var pending: nat

    /** The grid has the component's shape and holds only 0 and 1; the slider is in range. */
    ghost predicate Valid()
      reads this
    {
      IsGrid(grid, numRows, numCols) && Binary(grid) && SliderMin <= interval <= SliderMax
    }

    /**
     At most one timer chain is alive, and a running simulation always has
     one: this is what keeps the loop from stepping twice per interval.
     */
    ghost predicate SingleLoop()
      reads this
    {
      pending <= 1 && (running ==> pending == 1)
    }

    /** The component's first render: an empty grid, stopped, slider at 50, no timers. */
    constructor (rows: nat, cols: nat, v: Variant)
      ensures Valid() && SingleLoop()
      ensures numRows == rows && numCols == cols && variant == v
      ensures grid == seq(rows, _ => DeadRow(cols))
      ensures !running && interval == SliderDefault && pending == 0
    {
      numRows, numCols, variant := rows, cols, v;
      var empty := ClearGrid(rows, cols);
      assert empty == seq(rows, _ => DeadRow(cols)) by {
        forall i | 0 <= i < rows ensures empty[i] == DeadRow(cols) {
        }
      }
      grid := empty;
      running := false;
      interval := SliderDefault;
      pending := 0;
    }

    /**
     The body of `runSimulation`. With the flag off it returns at once: the
     grid stays and no timer is armed. With the flag on it publishes the next
     generation and arms exactly one timer, whose delay it returns.
     */
    method RunSimulation() returns (armed: Option<int>)
      requires Valid()
      modifies this
      ensures Valid()
      ensures running == old(running) && interval == old(interval)
      ensures !old(running) ==> grid == old(grid) && pending == old(pending) && armed == None
      ensures old(running) ==> grid == NextGrid(old(grid)) && pending == old(pending) + 1
      ensures old(running) ==> armed == Some(Delay(variant, interval))
    {
      if !running {
        return None;
      }
      var next := Step(grid, numRows, numCols);
      NextGridPreservesShape(grid, numRows, numCols);
      grid := next;
      pending := pending + 1;
      armed := Some(Delay(variant, interval));
    }

    /** One armed timer fires and calls `runSimulation`. */
    method TimerFires() returns (armed: Option<int>)
      requires Valid() && pending > 0
      modifies this
      ensures Valid()
      ensures old(SingleLoop()) ==> SingleLoop()
      ensures running == old(running) && interval == old(interval)
      ensures !old(running) ==> grid == old(grid) && pending == old(pending) - 1 && armed == None
      ensures old(running) ==> grid == NextGrid(old(grid)) && pending == old(pending)
      ensures old(running) ==> armed == Some(Delay(variant, interval))
    {
      pending := pending - 1;
      armed := RunSimulation();
    }

    /**
     The run button as the components write it: when stopped, set the flag
     and tick at once; when running, clear the flag. A timer armed before a
     stop is not cancelled, so a stop followed by a start before that timer
     fires leaves two timer chains alive (see StopStartRunsTwoLoops).
     */
    method PressRunButtonAsWritten() returns (armed: Option<int>)
      requires Valid()
      modifies this
      ensures Valid()
      ensures running == !old(running) && interval == old(interval)
      ensures old(running) ==> grid == old(grid) && pending == old(pending) && armed == None
      ensures !old(running) ==> grid == NextGrid(old(grid)) && pending == old(pending) + 1
      ensures !old(running) ==> armed == Some(Delay(variant, interval))
    {
      if !running {
        running := true;
        armed := RunSimulation();
      } else {
        running := false;
        armed := None;
      }
    }

    /**
     The run button with the evident intent, that starting never adds a second
     loop: when a timer from before the last stop is still armed, starting only
     sets the flag and lets that timer resume the loop.
     */
    method PressRunButton() returns (armed: Option<int>)
      requires Valid()
      modifies this
      ensures Valid()
      ensures old(SingleLoop()) ==> SingleLoop()
      ensures running == !old(running) && interval == old(interval)
      ensures old(running) ==> grid == old(grid) && pending == old(pending) && armed == None
      ensures !old(running) && old(pending) > 0 ==> grid == old(grid) && pending == old(pending) && armed == None
      ensures !old(running) && old(pending) == 0 ==> grid == NextGrid(old(grid)) && pending == 1
      ensures !old(running) && old(pending) == 0 ==> armed == Some(Delay(variant, interval))
    {
      if !running {
        running := true;
        if pending == 0 {
          armed := RunSimulation();
        } else {
          armed := None;
        }
      } else {
        running := false;
        armed := None;
      }
    }

    /** The slider: the new value applies to the next timer a tick arms, not to the one already armed. */
    method SetInterval(value: int)
      requires Valid() && SliderMin <= value <= SliderMax
      modifies this
      ensures Valid() && SingleLoop() == old(SingleLoop())
      ensures interval == value
      ensures grid == old(grid) && running == old(running) && pending == old(pending)
    {
      interval := value;
    }

    /** The clear button: publish an empty grid of the component's shape. */
    method Clear()
      requires Valid()
      modifies this
      ensures Valid() && SingleLoop() == old(SingleLoop())
      ensures forall i, k :: 0 <= i < numRows && 0 <= k < numCols ==> grid[i][k] == 0
      ensures running == old(running) && interval == old(interval) && pending == old(pending)
    {
      var empty := ClearGrid(numRows, numCols);
      grid := empty;
    }

    /** The randomise button, with the random draws supplied. */
    method Randomise(draws: seq<seq<bool>>)
      requires Valid() && IsGrid(draws, numRows, numCols)
      modifies this
      ensures Valid() && SingleLoop() == old(SingleLoop())
      ensures forall i, k :: 0 <= i < numRows && 0 <= k < numCols ==> (grid[i][k] == 1 <==> draws[i][k])
      ensures running == old(running) && interval == old(interval) && pending == old(pending)
    {
      var rows := RandomiseGrid(numRows, numCols, draws);
      grid := rows;
    }

    /** A click on the rendered cell (i, k): publish the grid with that cell flipped. */
    method ClickCell(i: nat, k: nat)
      requires Valid() && i < numRows && k < numCols
      modifies this
      ensures Valid() && SingleLoop() == old(SingleLoop())
      ensures grid == Toggle(old(grid), i, k)
      ensures running == old(running) && interval == old(interval) && pending == old(pending)
    {
      TogglePreservesShape(grid, numRows, numCols, i, k);
      grid := Toggle(grid, i, k);
    }
  }

  /** Start, stop, then start again before the first timer fires: the code as written ends with two live timers. */
  method StopStartRunsTwoLoops(rows: nat, cols: nat, v: Variant) returns (loops: nat)
    ensures loops == 2
  {
    var s := new Simulation(rows, cols, v);
    var armed := s.PressRunButtonAsWritten();
    armed := s.PressRunButtonAsWritten();
    armed := s.PressRunButtonAsWritten();
    loops := s.pending;
  }

  /** The same presses with the corrected button leave one live timer, which the restart reuses. */
  method StopStartKeepsOneLoop(rows: nat, cols: nat, v: Variant) returns (loops: nat, running: bool)
    ensures loops == 1 && running
  {
    var s := new Simulation(rows, cols, v);
    var armed := s.PressRunButton();
    armed := s.PressRunButton();
    armed := s.PressRunButton();
    loops, running := s.pending, s.running;
  }

  /** Start, stop, then the armed timer fires: it publishes nothing new, arms no timer, and no timer is left. */
  method StaleTimerEndsLoop(rows: nat, cols: nat, v: Variant) returns (loops: nat, rescheduled: bool, sameGrid: bool)
    ensures loops == 0 && !rescheduled && sameGrid
  {
    var s := new Simulation(rows, cols, v);
    var armed := s.PressRunButtonAsWritten();
    armed := s.PressRunButtonAsWritten();
    var before := s.grid;
    armed := s.TimerFires();
    loops, rescheduled, sameGrid := s.pending, armed != None, s.grid == before;
  }
}
