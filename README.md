# Conway's Game of Life on a torus, in Dafny

This project models `package life` (`src/life/life.go`), the simulation core
of a web Game of Life. A `World` holds a rectangular board of cells indexed
`[y, x]`, its width and height, and a generation counter. Its operations do
the following:

- `New` builds an all-dead world.
- `NumAlive` counts live cells column by column.
- `findCell` reads a cell with wrap-around, using Go's truncating `%` and
  then adding the size back to a negative remainder. The board is therefore
  a torus.
- `stepCell` scans the 3-by-3 block around a cell, skips the centre, and
  applies Conway's rules.
- `Step` fills a fresh matrix cell by cell and then swaps it in.
- `Stream` is a producer loop. It hands out the world, steps it, and repeats
  until it is told to stop.

The project has four modules:

- `GoArith` (`go_arith.dfy`) writes out Go's truncating division and
  remainder. It proves that the sign correction done by `findCell` lands on
  the Euclidean residue.
- `Conway` (`conway.dfy`) holds the rules as pure functions. It defines toroidal
  lookup (`At`), the Moore neighbourhood (`CountAt`, `LiveNeighbours`), the
  rule table (`Rule`), the next generation (`NextGen`, built row by row), the
  `k`-th generation (`Generation`) and the live-cell count (`CountAlive`,
  plus its column-major form `ColumnsCount`).
- `Life` (`life.dfy`) is the imperative model. `World` is a class with the
  source's fields, and its cell matrix is an `array2<bool>`. Each method is
  proved against the `Conway` functions through the ghost view `Grid()`.
- `Patterns` (`patterns.dfy`) runs concrete boards through those functions.
  - A full board dies of overcrowding.
  - A 2-by-2 block is a still life for any number of generations.
  - A blinker on a 5-by-5 torus has period two.
  - A three-cell line on a 3-by-3 torus fills the board and then dies.

What the code does, and the model with it:

- `New` does no dimension check. A zero width or height gives a world with
  no cells. A negative height makes Go's `make` panic. A negative width
  panics only when there is at least one row to allocate.
- `World` has no cell setter. The `Simulator` interface
  (src/life/life.go:10) declares `SetCell`, which `World` does not
  implement. No operation of the package returns an error.
- On a 3-by-3 torus every other cell is a neighbour. A vertical line of three
  therefore fills the board and then dies (`Patterns.LineFillsSmallTorus`,
  `Patterns.LineDiesOnSmallTorus`). The period-two blinker needs a larger
  board (`Patterns.BlinkerOscillates`).

`Stream` runs a goroutine that, at every turn, selects between a stop signal
and a send of `*w` to the consumer. It is modelled sequentially, as its loop
run against a script of what the consumer does at each turn (`Signal`).

- A `Receive` turn sends a `Snapshot` and then calls `Step`. A `Snapshot`
  copies the struct's width, height and counter, and shares the cell matrix,
  just as Go's struct copy shares the slice.
- A `Stop` turn ends the loop.
- A script that runs out of turns leaves the producer blocked, so `stopped`
  is false.

## Model

| member | source | states |
|---|---|---|
| GoArith.Rem | src/life/life.go:51-52 | Go's remainder for a positive modulus lies strictly between `-m` and `m`, and it has the sign of the dividend |
| GoArith.CorrectedRemIsMod | src/life/life.go:49-61 | adding the modulus back to a negative Go remainder gives exactly the Euclidean residue `a % m`, for every integer `a` |
| Conway.AtPeriodic | src/life/life.go:50-59 | the wrapped lookup repeats with the board's width horizontally and with its height vertically, so opposite edges touch |
| Conway.LiveNeighbours | src/life/life.go:77-90 | a cell has at most eight live neighbours |
| Conway.LiveNeighboursExplicit | src/life/life.go:77-90 | the neighbour count is the sum over exactly the eight wrapped cells around `(x, y)`, with the centre excluded |
| Conway.Rule | src/life/life.go:63-69 | the rule table: a live cell with fewer than two or more than three live neighbours dies; one with two or three survives; a dead cell is born exactly when it has three |
| Conway.NextGenAt | src/life/life.go:106-123 | every cell of the next generation is the rule applied to that cell and its neighbours in the current board only |
| Conway.NextGenOfDead | src/life/life.go:96-101 | an all-dead board is its own next generation |
| Conway.GenerationOfDead | src/life/life.go:106-123 | an all-dead board stays all-dead for any number of steps |
| Conway.CountAliveBound | src/life/life.go:36-47 | the live-cell count is at most width times height |
| Conway.CountAliveZero | src/life/life.go:36-47 | the live-cell count is zero exactly when every cell is dead |
| Conway.ColumnsCountIsCountAlive | src/life/life.go:39-45 | counting column by column, the order of the source's loops, gives the same total as counting row by row |
| Conway.RunAt | src/life/life.go:134-144 | the `k`-th board of a run of generations is generation `k` |
| Life.ScanCoversNeighbours | src/life/life.go:78-90 | the two nested loops from `x-1` to `x+1` and `y-1` to `y+1`, skipping the centre, visit exactly the eight neighbours |
| Life.FilledIsBoard | src/life/life.go:111-119 | a matrix filled column by column with the cells of a board holds exactly that board |
| Life.Accepted | src/life/life.go:134-144 | the number of sends before the first stop signal: every earlier turn received, and the turn after them, if any, is a stop |
| Life.World.New | src/life/life.go:27-34 | a fresh matrix of `height` rows of `width` cells, all dead (live count zero), at generation 0 |
| Life.World.NumAlive | src/life/life.go:36-47 | returns the number of live cells of the board, which is between 0 and width times height, and is 0 exactly when the board is all dead |
| Life.World.FindCell | src/life/life.go:49-61 | reads the cell at the Euclidean residues `(x mod Width, y mod Height)`, i.e. the toroidal lookup, for any integer coordinates including -1 and the size |
| Life.World.StepCell | src/life/life.go:71-104 | returns the rule applied to the cell's state and its eight wrapped neighbours, and leaves the world unchanged |
| Life.World.Step | src/life/life.go:106-123 | the world keeps its size, its counter goes up by one, its matrix is replaced by a fresh one, and its board becomes the next generation of the old board |
| Life.World.Stream | src/life/life.go:125-148 | sends as many values as the consumer receives before its first stop. Value `k` is the world after `k` steps: counter `step + k` and board generation `k`. The loop stops exactly when a stop signal comes, and the world is left at generation `|sent|` |
| Patterns.WrapIsMod | src/life/life.go:51-59 | for a coordinate at most one board-size outside the range, one addition or subtraction of the size gives the same cell as the wrapped lookup |
| Patterns.NextCellInside | src/life/life.go:72-104 | for a cell inside the board, the next state is the rule applied to the eight neighbours, each found with at most one addition or subtraction of the size |
| Patterns.FullBoardDies | src/life/life.go:97-98 | on any board, a world whose every cell is alive is all-dead one generation later (overcrowding) |
| Patterns.LineFillsSmallTorus | src/life/life.go:49-61 | on a 3-by-3 torus a vertical line of three becomes a full board, because every other cell is a neighbour |
| Patterns.LineDiesOnSmallTorus | src/life/life.go:106-123 | that line is all-dead from the second generation on |
| Patterns.BlockStaysStill | src/life/life.go:106-123 | the 2-by-2 block in rows and columns 1 and 2 of a 4-by-4 torus, with a dead margin on every side, is unchanged by any number of generations |
| Patterns.BlinkerOscillates | src/life/life.go:106-123 | a three-cell blinker on a 5-by-5 torus alternates between vertical (even generations) and horizontal (odd generations) |

## Left out

- `MarshalJSON` (src/life/life.go:150-152) is not modelled: it is JSON encoding of the cell matrix.
- The `Simulator` interface (src/life/life.go:8-19) is not modelled. It only declares method signatures, and several of them (`Cells`, `SetCell`, `Width`, `Height`) have no implementation on `World`.
- The web server (src/lifeweb) and the browser client (public/js) are not part of this model.
- Life.World.Stream: the goroutine, the two channels, their closing, and the random choice `select` makes when both cases are ready are not modelled. The consumer's script decides each turn instead. Cancelling while blocked, and two streams on one world, are not represented.
- Life.World.Step: the scratch matrix is allocated directly as `new bool[Height, Width]` rather than through `World.New`. Every cell is written before use, so the result is the same, but the zero-filling is not modelled.
- Life.World.Step: the local `numAlive` counter (src/life/life.go:108, 115-117) is never read, so it is not modelled.
- Life.World.Step: the generation counter is an unbounded integer. Go's 64-bit `int` wrap-around is not modelled, and neither is overflow of the coordinates passed to `FindCell`.
- Life.World.New: negative dimensions are excluded by a precondition. Go panics on a negative height, and on a negative width when there is at least one row. A negative width with a zero height (`New(-1, 0)`) is accepted by Go and yields a world with `Width == -1` and no rows. The model excludes it, because an `array2` cannot have a negative length.
- Life.World.FindCell: a zero width or height, on which Go's `%` panics with a division by zero, is excluded by a precondition. `StepCell` inherits that precondition, and `Step` never calls it on an empty board.
- Life.World: the model assumes `Cells` is exactly `Height` rows of `Width` cells (`Valid`, an `array2` of those sizes). In Go, `Cells`, `Width` and `Height` are independent fields. A `World` decoded from JSON (src/lifeweb/server.go:147-162, fed by public/js/life.js:142-146) can carry sizes that disagree with its matrix, or ragged rows, and is then streamed (server.go:165, 189). Such worlds are not represented. On a larger matrix Go works on the top-left `Width`-by-`Height` part, because `findCell` wraps modulo `Width` and `Height` rather than the matrix's length. On a smaller one it panics.
