# Minesweeper board and constraint solver, in Dafny

This project models the core of a Java Minesweeper program and proves properties of it. The core has five parts:

- **`Board`** holds three `[y][x]` grids: `values` (9 for a mine, otherwise the hint 0..8), `probes` (revealed squares) and `marks` (flagged squares). Its operations are:
  - the hint-counting pass of `initialize`;
  - `probe`, with its stack-based flood fill from squares holding 0;
  - `mark` and `unmark`;
  - the two query encodings, `getValue` and `getInformation`;
  - the text rendering `display`;
  - the `isSolved` and `isFailed` scans.
- **`MinesweeperSolver`** runs in three stages:
  - `inspect` seeds one constraint per revealed hint square: its unknown neighbours, with the hint less its flagged neighbours as the mine count.
  - `inspect` then closes that set under the subset rule: for a proper subset A of B, add (B − A, mines(B) − mines(A)).
  - `iteration` probes every square of each constraint with no mines and flags every square of each constraint with as many mines as squares.
- **`Constraint`**: a coordinate set paired with a Java `byte` mine count, with structural equality.
- **`SetOperations`**: generic set algebra.
- **`Coordinate`**: an (x, y) value type with lexicographic `compareTo`.

The form of the model follows the form of the code:

- `Board` (module `Boards`) is a class whose three grids are `array2` fields updated in place. Its loops are methods with invariants, proved against specification functions: `Solved`, `Failed`, `Render` and `Expected`.
- `MinesweeperSolver` (module `Solvers`) is a class whose working set, counter and `inspected` flag are fields.
  - The working set is a `set` of constraint values, because Java's `HashSet<Constraint>` is keyed by `equals`.
  - The seeding, fixed-point and resolution loops are methods. They are proved against `Seeds`, `LeastClosed` and `Planned`.
- `Constraint` (module `Constraints`) is a class over a coordinate set and an `int8`. `ConstraintValue` is the value that `equals` compares.
- `SetOperations` has methods for `intersection`, which loops, and `symDifference`, which calls it; the rest of `SetOperations` and all of `Coordinate` are functions and lemmas.
- Module `Deduction` holds the meaning of the subset rule: the closure, its uniqueness, and its soundness against the mine layout. Module `Grid` holds the clipped 8-neighbourhood. Module `Numerics` holds Java's `int` and `byte` arithmetic.

Main results:

- **`Board` construction:**
  - It fails exactly when the width, the height or the mine count is below 1.
  - Afterwards a square holds 9 exactly when it carries a mine. Every other square holds the number of mines among its in-grid neighbours.
- **`probe`:**
  - It does nothing on a flagged square. Otherwise it reveals the square, and revealing a mine fails the game.
  - The flood fill terminates, never hides a square and never reveals a mine.
  - When it ends, every square holding 0 that it revealed has all its neighbours handled, with the two flag quirks of the source kept.
  - Termination: the stack discipline means a stale stack entry pushes nothing.
  - Its reach is bounded by the popped cells, in order. The first popped cell is the start. Each later one held 0, was unrevealed when the fill began, and is next to an earlier popped cell. Every popped cell ends revealed. Every other square the fill reveals is a neighbour of a popped cell whose guard flag is clear.
  - Whatever the board shows, every square a probe reveals is the probed square itself, or lies on or next to a chain of squares holding 0 grown from it.
- **`isSolved`** holds exactly when no square is both unrevealed and unflagged and every mine is flagged. Flags on squares without a mine do not block it.
- **`display`** produces a `width + 3` by `height + 2` character layout, proved character by character.
- **`inspect`** produces the unique least set that holds the seeds and is closed under the subset rule. So two `inspect` calls on an unchanged board give the same set.
  - The fixed-point loop terminates because byte mine counts make the universe of constraints finite.
- **Soundness:** on a board whose flags are all on mines and that has no revealed mine, every seed and every derived constraint counts the mines of the layout exactly. So `iteration` probes only safe squares and flags only mines, and every planned action takes effect. On any board, resolution adds only planned flags and reveals only squares that some planned probe can reach.

Two details of the code shape these results:

- `isSolved` accepts flags on squares without a mine. It counts flagged mines and requires that count to equal the mine count.
- The flood fill pushes a neighbour holding 0 even when it is flagged (`Board.java:156-158`). For the top neighbour it reads the flag of the popped square, not the neighbour's (`Board.java:169`). So a revealed square can carry a flag, and the model does not claim otherwise.

## Model

| member | source | states |
|---|---|---|
| Numerics.Wrap32 | src/org/shinkirou/minesweeper/MinesweeperSolver.java:169 | the Java `int` result of an exact value: in 32-bit range, congruent to it modulo 2^32, and equal to it when it already fits |
| Numerics.ToByte | src/org/shinkirou/minesweeper/MinesweeperSolver.java:154 | the `(byte)` cast: congruent modulo 256, and the identity on values that fit a byte |
| Coordinates.Equals | src/org/shinkirou/minesweeper/Coordinate.java:26-33 | two coordinates are equal iff both components match, which is Dafny value equality |
| Coordinates.HashCode | src/org/shinkirou/minesweeper/Coordinate.java:35-41 | the hash is a Java `int` (the arithmetic wraps) |
| Coordinates.HashConsistent | src/org/shinkirou/minesweeper/Coordinate.java:35-41 | equal coordinates hash equally |
| Coordinates.Clone | src/org/shinkirou/minesweeper/Coordinate.java:43-46 | the clone equals the original |
| Coordinates.CompareTo | src/org/shinkirou/minesweeper/Coordinate.java:48-54 | the comparison result is a Java `int` (the subtraction wraps) |
| Coordinates.CompareToIsLexicographic | src/org/shinkirou/minesweeper/Coordinate.java:48-54 | without overflow, `compareTo` is negative, zero or positive exactly when the first coordinate is lexicographically before, equal to or after the second |
| Coordinates.CompareToAntisymmetric | src/org/shinkirou/minesweeper/Coordinate.java:48-54 | without overflow, swapping the arguments flips the sign and keeps zero |
| Coordinates.CompareToTransitive | src/org/shinkirou/minesweeper/Coordinate.java:48-54 | without overflow, `<` and `<=` by `compareTo` are transitive |
| SetOperations.SubsetCardinality | src/org/shinkirou/util/SetOperations.java:15-17 | a subset is no larger than its superset, and a subset of equal size is the superset itself |
| SetOperations.Identity | src/org/shinkirou/util/SetOperations.java:15-17 | equal sizes plus containment holds iff the sets are equal |
| SetOperations.Union | src/org/shinkirou/util/SetOperations.java:19-23 | the result holds exactly the elements of either input |
| SetOperations.Intersection | src/org/shinkirou/util/SetOperations.java:25-33 | the loop over `a` keeps exactly the elements in both inputs |
| SetOperations.Difference | src/org/shinkirou/util/SetOperations.java:35-39 | the result holds exactly the elements of `a` not in `b` |
| SetOperations.SymDifference | src/org/shinkirou/util/SetOperations.java:41-48 | the union less the intersection holds exactly the elements in one input but not both, which is (a − b) ∪ (b − a) |
| SetOperations.Subset | src/org/shinkirou/util/SetOperations.java:50-52 | holds iff every element of `a` is in `b` |
| SetOperations.Superset | src/org/shinkirou/util/SetOperations.java:54-56 | holds iff every element of `b` is in `a` |
| SetOperations.ProperSubset | src/org/shinkirou/util/SetOperations.java:58-60 | different sizes plus inclusion holds iff the inclusion is strict |
| SetOperations.ProperSuperset | src/org/shinkirou/util/SetOperations.java:62-64 | the mirror of `properSubset`: holds iff `b` is strictly inside `a` |
| SetOperations.ProperSubsetDifference | src/org/shinkirou/util/SetOperations.java:58-60 | `b` minus a proper subset `a` is non-empty and has as many elements as `b` has more than `a`, fewer than `b` has when `a` is non-empty |
| Constraints.ValueHash | src/org/shinkirou/minesweeper/Constraint.java:127-133 | the hash of a constraint value is a Java `int` |
| Constraints.Constraint.constructor | src/org/shinkirou/minesweeper/Constraint.java:17-19 | the no-argument constructor gives an empty set and one mine |
| Constraints.Constraint.WithMines | src/org/shinkirou/minesweeper/Constraint.java:21-24 | an empty set with the given count |
| Constraints.Constraint.FromCollection | src/org/shinkirou/minesweeper/Constraint.java:26-29 | the set holds exactly the given elements, and the count is the given one |
| Constraints.Constraint.GetMines | src/org/shinkirou/minesweeper/Constraint.java:45-47 | the count of the value the object stands for |
| Constraints.Constraint.SetMines | src/org/shinkirou/minesweeper/Constraint.java:53-55 | replaces the count and leaves the coordinate set as it was |
| Constraints.Constraint.Size | src/org/shinkirou/minesweeper/Constraint.java:61-63 | the cardinality of the set, zero exactly when the set is empty |
| Constraints.Constraint.IsEmpty | src/org/shinkirou/minesweeper/Constraint.java:65-67 | holds iff the size is zero |
| Constraints.Constraint.Contains | src/org/shinkirou/minesweeper/Constraint.java:69-71 | membership in the set |
| Constraints.Constraint.Add | src/org/shinkirou/minesweeper/Constraint.java:85-87 | reports true iff the coordinate was absent; it is present afterwards, the size grows by one exactly then, and the count is kept |
| Constraints.Constraint.Remove | src/org/shinkirou/minesweeper/Constraint.java:89-91 | reports true iff the coordinate was present; it is absent afterwards and the count is kept |
| Constraints.Constraint.ContainsAll | src/org/shinkirou/minesweeper/Constraint.java:93-95 | holds iff every given coordinate is contained |
| Constraints.Constraint.AddAll | src/org/shinkirou/minesweeper/Constraint.java:97-99 | the set becomes the union; reports whether it grew |
| Constraints.Constraint.RetainAll | src/org/shinkirou/minesweeper/Constraint.java:101-103 | the set becomes the intersection; reports whether it shrank |
| Constraints.Constraint.RemoveAll | src/org/shinkirou/minesweeper/Constraint.java:105-107 | the set becomes the difference; reports whether it shrank |
| Constraints.Constraint.Clear | src/org/shinkirou/minesweeper/Constraint.java:109-111 | empties the set and keeps the count |
| Constraints.Constraint.Equals | src/org/shinkirou/minesweeper/Constraint.java:118-125 | two constraints are equal iff they have the same count and the same set |
| Constraints.Constraint.HashCode | src/org/shinkirou/minesweeper/Constraint.java:127-133 | the hash is a Java `int` computed from the value alone |
| Constraints.HashConsistent | src/org/shinkirou/minesweeper/Constraint.java:127-133 | equal constraints have equal hash codes |
| Grid.Neighbour | src/org/shinkirou/minesweeper/Board.java:79-110 | the `k`-th of the eight neighbours, in the source's order, differs from the square and by at most one in each component |
| Grid.RowsCells | src/org/shinkirou/minesweeper/Board.java:75-76 | the squares the nested loops visit are exactly the grid, `w * h` of them |
| Grid.GridCardinality | src/org/shinkirou/minesweeper/Board.java:75-76 | the board has `w * h` squares |
| Grid.MinesAround | src/org/shinkirou/minesweeper/Board.java:78-110 | the count the neighbour cases accumulate is at most the number of cases taken |
| Grid.MinesAroundCountsPrefix | src/org/shinkirou/minesweeper/Board.java:78-110 | that count is the number of mines among the in-grid squares of the first `k` neighbours |
| Grid.NeighbourPrefixIsNeighbourhood | src/org/shinkirou/minesweeper/Board.java:79-110 | the eight bounds-guarded cases reach exactly the clipped 8-neighbourhood |
| Grid.HintIsNeighbourMineCount | src/org/shinkirou/minesweeper/Board.java:75-115 | a hint is the number of mines in the clipped 8-neighbourhood, a value in 0..8 |
| Grid.ZeroHintNoMineNeighbour | src/org/shinkirou/minesweeper/Board.java:139-158 | a square whose hint is 0 has no mine among its in-grid neighbours, so the flood fill's squares are safe |
| Grid.LayoutNeedsRoom | src/org/shinkirou/minesweeper/Board.java:58-71 | distinct squares on the grid number at most `w * h`, so placement cannot finish when the mine count is larger |
| Boards.Board.Init | src/org/shinkirou/minesweeper/Board.java:36-117 | after construction every square holds its mine or hint value, and nothing is revealed or flagged |
| Boards.Board.CountHints | src/org/shinkirou/minesweeper/Board.java:75-115 | the row-major pass leaves mines at 9 and gives every other square its hint |
| Boards.Board.CountAround | src/org/shinkirou/minesweeper/Board.java:78-112 | the eight bounds-guarded cases count the mines of the clipped neighbourhood |
| Boards.Board.Create | src/org/shinkirou/minesweeper/Board.java:36-45 | construction fails iff the width, height or mine count is below 1; otherwise a square holds 9 iff it is in the layout, and nothing is revealed or flagged |
| Boards.HintIsNeighbourMineCountAll | src/org/shinkirou/minesweeper/Board.java:75-115 | on a board, 9 marks exactly the mines, and every other square holds the mine count of its clipped neighbourhood, at most 8 |
| Boards.Board.ProbedSet | src/org/shinkirou/minesweeper/Board.java:16 | the revealed squares, as a set of coordinates |
| Boards.Board.MarkedSet | src/org/shinkirou/minesweeper/Board.java:17 | the flagged squares, as a set of coordinates |
| Boards.Board.ZeroSquareNeighbourNotMine | src/org/shinkirou/minesweeper/Board.java:154-233 | no neighbour of a square holding 0 is a mine |
| Boards.Board.Reveal | src/org/shinkirou/minesweeper/Board.java:151 | reveals exactly one square |
| Boards.Board.Visit | src/org/shinkirou/minesweeper/Board.java:155-163 | one neighbour case: push iff the neighbour is on the grid, unrevealed and holds 0, whatever its flag; otherwise an unrevealed neighbour is revealed unless its guard flag (the square's own flag for the top neighbour) is set |
| Boards.Board.LookAround | src/org/shinkirou/minesweeper/Board.java:153-233 | after the eight cases every neighbour is handled, only non-zero non-mine squares were revealed, the pushed cells hold 0 and are unrevealed, and nothing is pushed when every neighbour holding 0 was already revealed; every square revealed is a neighbour whose guard flag is clear, and every cell pushed is one of the eight around the popped cell |
| Boards.Board.LookNearStep | src/org/shinkirou/minesweeper/Board.java:153-233 | a neighbour case pushes only its own neighbour, and reveals it only when its guard flag is clear |
| Boards.Board.LookStep | src/org/shinkirou/minesweeper/Board.java:153-233 | each neighbour case keeps the progress of the eight cases |
| Boards.Board.Expand | src/org/shinkirou/minesweeper/Board.java:148-233 | a popped square is revealed, then its eight neighbour cases run; besides it, only its neighbours with a clear guard flag are revealed; the reach invariant of the fill grows by this square and the cells it pushes |
| Boards.Board.Probe | src/org/shinkirou/minesweeper/Board.java:126-237 | nothing changes on a flagged square; otherwise the square is revealed, a mine fails the game, and a 0 floods; no square is hidden, no other mine is revealed, and every 0-square revealed has all its neighbours handled; a flood is bounded by its popped cells, which were unrevealed before and grow from the probed square through squares holding 0, and each other square revealed is a neighbour of one with a clear guard flag; any square revealed is the probed one or on or next to a chain of 0-squares from it |
| Boards.Board.FloodFill | src/org/shinkirou/minesweeper/Board.java:139-234 | the stack loop terminates, hides nothing, reveals no mine, and leaves the start and each new 0-square with every neighbour handled; the popped cells start at the start, are then unrevealed cells each next to an earlier one, hold 0 and end revealed; every other square revealed is a neighbour of a popped cell with a clear guard flag |
| Boards.Board.FillPop | src/org/shinkirou/minesweeper/Board.java:146-233 | one pop keeps the fill invariant and the reach invariant, records the popped cell, and either shortens the stack (a stale entry) or pops a cell for the first time |
| Boards.NearGrow | src/org/shinkirou/minesweeper/Board.java:146-233 | a square next to a popped cell stays so as more cells are popped, and the neighbours of the cell just popped become so |
| Boards.Board.ReachStep | src/org/shinkirou/minesweeper/Board.java:146-233 | one pop keeps the reach invariant: the popped cell came off the stack, so it is the start or a cell unrevealed before the fill and next to an earlier popped cell; it is now revealed; and what it reveals has a clear guard flag and what it pushes is next to it |
| Boards.Board.ExposedGrow | src/org/shinkirou/minesweeper/Board.java:146-233 | a square revealed by an earlier popped cell stays accounted for as more cells are popped, and the unguarded neighbours of the cell just popped become so |
| Boards.Board.RegionSpread | src/org/shinkirou/minesweeper/Board.java:139-234 | whatever a flood fill reveals is the start or lies on or next to a chain of 0-squares grown from it |
| Boards.Board.FillStart | src/org/shinkirou/minesweeper/Board.java:142-144 | the invariant holds with only the start on the stack |
| Boards.Board.FillFinish | src/org/shinkirou/minesweeper/Board.java:146 | with the stack empty, every newly revealed 0-square has each neighbour handled |
| Boards.Board.FillStep | src/org/shinkirou/minesweeper/Board.java:146-233 | one pop keeps the invariant and decreases the termination measure |
| Boards.Board.StaleStep | src/org/shinkirou/minesweeper/Board.java:146-233 | an entry popped a second time pushes nothing, because everything it would push was popped before |
| Boards.Board.ZeroStep | src/org/shinkirou/minesweeper/Board.java:146-233 | the stack and the popped cells only ever hold in-grid squares holding 0 |
| Boards.Board.CoveredStep | src/org/shinkirou/minesweeper/Board.java:146-233 | LIFO discipline: each popped cell still on the stack has its 0-neighbours revealed or pushed above it |
| Boards.Board.DoneStep | src/org/shinkirou/minesweeper/Board.java:146-233 | each popped cell has every neighbour handled, with the stack as what is still pending |
| Boards.Board.RevealedStep | src/org/shinkirou/minesweeper/Board.java:146-233 | squares revealed since the fill began are not mines, and those holding 0 have been popped |
| Boards.Board.Mark | src/org/shinkirou/minesweeper/Board.java:244-250 | the flag is set iff the square is unrevealed; no other flag changes |
| Boards.Board.Unmark | src/org/shinkirou/minesweeper/Board.java:257-259 | the flag is cleared unconditionally; no other flag changes |
| Boards.Board.GetValue | src/org/shinkirou/minesweeper/Board.java:271-282 | 2 iff flagged, 1 iff revealed and not flagged, 0 iff neither |
| Boards.Board.GetInformation | src/org/shinkirou/minesweeper/Board.java:295-305 | 9 when flagged, the stored value when revealed and not flagged, and 10 iff neither |
| Boards.Board.GetWidth | src/org/shinkirou/minesweeper/Board.java:343-345 | the width, at least 1, is the row length of the grids |
| Boards.Board.GetHeight | src/org/shinkirou/minesweeper/Board.java:347-349 | the height, at least 1, is the number of rows |
| Boards.Board.GetMineCount | src/org/shinkirou/minesweeper/Board.java:351-353 | the mine count, at least 1, is the number of mines placed |
| Boards.DigitChar | src/org/shinkirou/minesweeper/Board.java:315 | the character Java prints for a digit 0..9 |
| Boards.HeaderText | src/org/shinkirou/minesweeper/Board.java:312-324 | the appending loops build the two header lines |
| Boards.HeaderLayout | src/org/shinkirou/minesweeper/Board.java:312-324 | the header is a plus sign and a bar, the column digits `i % 10`, a newline, then a minus and a plus sign, `width` dashes and a newline |
| Boards.ColumnDigitsLayout | src/org/shinkirou/minesweeper/Board.java:314-316 | column `i` of the header shows `i % 10` |
| Boards.DashesLayout | src/org/shinkirou/minesweeper/Board.java:320-322 | the rule is `width` dashes |
| Boards.Board.Display | src/org/shinkirou/minesweeper/Board.java:311-341 | the appending loops build exactly the rendered board |
| Boards.Board.AppendRow | src/org/shinkirou/minesweeper/Board.java:327-337 | one row appends its line to the buffer |
| Boards.Board.RowLineLayout | src/org/shinkirou/minesweeper/Board.java:327-337 | row `y` is `y % 10`, a bar, one character per square and a newline |
| Boards.Board.CellsLineLayout | src/org/shinkirou/minesweeper/Board.java:328-336 | the cell characters of a row are `#` if flagged, `*` if a revealed mine, the digit if revealed, and a blank otherwise, in column order |
| Boards.Board.RowsLength | src/org/shinkirou/minesweeper/Board.java:326-338 | `y` rows take `(width + 3) * y` characters |
| Boards.Board.DisplayLength | src/org/shinkirou/minesweeper/Board.java:311-341 | the text has `(width + 3) * (height + 2)` characters |
| Boards.Board.DisplayCell | src/org/shinkirou/minesweeper/Board.java:326-338 | at its position in the whole text, row `y` starts with `y % 10` and a bar, and square `(x, y)` shows its cell character |
| Boards.Board.IsSolved | src/org/shinkirou/minesweeper/Board.java:367-383 | the scan with its early return decides exactly `Solved`: every square revealed or flagged, and the count of flagged mines equal to the mine count |
| Boards.Board.ScanStep | src/org/shinkirou/minesweeper/Board.java:371-378 | one square of the scan advances the count of flagged mines seen so far |
| Boards.Board.RowStep | src/org/shinkirou/minesweeper/Board.java:370-380 | the end of a row is the start of the next |
| Boards.Board.SolvedIff | src/org/shinkirou/minesweeper/Board.java:367-383 | solved iff every square is revealed or flagged and every mine is flagged; flags on squares without a mine do not matter |
| Boards.Board.IsFailed | src/org/shinkirou/minesweeper/Board.java:385-396 | the scan returns true iff some revealed square is a mine |
| Deduction.Derive | src/org/shinkirou/minesweeper/MinesweeperSolver.java:148-155 | the subset rule's constraint lies in `e2` and is disjoint from `e1`; when the rule applies it is non-empty and has as many squares as `e2` has more than `e1`, and its count is `mines2 − mines1` whenever that fits a byte |
| Deduction.ClosureUnique | src/org/shinkirou/minesweeper/MinesweeperSolver.java:139-161 | two least closed sets over the same seeds are equal |
| Deduction.InUniverse | src/org/shinkirou/minesweeper/MinesweeperSolver.java:153-155 | every constraint over grid squares with a byte count lies in the finite universe |
| Deduction.UniverseShrinks | src/org/shinkirou/minesweeper/MinesweeperSolver.java:141-161 | adding a new constraint leaves fewer constraints of the universe outside the set, which is the termination measure |
| Deduction.DeriveSound | src/org/shinkirou/minesweeper/MinesweeperSolver.java:148-155 | if both constraints count their mines exactly, so does the derived one, and the byte cast does not wrap |
| Deduction.SoundSetClosed | src/org/shinkirou/minesweeper/MinesweeperSolver.java:148-155 | the true constraints over the grid are closed under the subset rule |
| Deduction.ClosureSound | src/org/shinkirou/minesweeper/MinesweeperSolver.java:139-161 | when every seed is true of the layout, every constraint of their closure is |
| Deduction.SoundResolution | src/org/shinkirou/minesweeper/MinesweeperSolver.java:183-193 | a true constraint with no mines holds no mine, and one with as many mines as squares holds only mines |
| Solvers.View | src/org/shinkirou/minesweeper/MinesweeperSolver.java:31 | what the solver reads: `getInformation` of every square on the grid |
| Solvers.AroundMembers | src/org/shinkirou/minesweeper/MinesweeperSolver.java:33-130 | after `k` cases, the set holds exactly the in-grid neighbours among the first `k` with the given information |
| Solvers.AroundStep | src/org/shinkirou/minesweeper/MinesweeperSolver.java:33-130 | each case adds one element exactly when its neighbour is on the grid with that information |
| Solvers.CountAround | src/org/shinkirou/minesweeper/MinesweeperSolver.java:33-130 | the count of neighbours with given information after `k` cases is at most `k` |
| Solvers.CountAroundSize | src/org/shinkirou/minesweeper/MinesweeperSolver.java:33-130 | that count is the size of the set of those neighbours |
| Solvers.AroundIsNeighbourhood | src/org/shinkirou/minesweeper/MinesweeperSolver.java:33-130 | after the eight cases the set is the clipped 8-neighbourhood restricted to the given information, at most 8 squares |
| Solvers.AroundOnBoard | src/org/shinkirou/minesweeper/MinesweeperSolver.java:33-130 | the same, read off the board's `getInformation` |
| Solvers.SeedOfNeighbours | src/org/shinkirou/minesweeper/MinesweeperSolver.java:31-131 | a seed holds exactly the in-grid neighbours with information 10, and its count is the hint minus the neighbours with information 9 |
| Solvers.SeedsStep | src/org/shinkirou/minesweeper/MinesweeperSolver.java:30-135 | the seeds so far grow by the seed of the next square exactly when it is seeded |
| Solvers.SeedsStepNew | src/org/shinkirou/minesweeper/MinesweeperSolver.java:30-135 | every seed so far came from an earlier square or the current one |
| Solvers.SeedsRowStep | src/org/shinkirou/minesweeper/MinesweeperSolver.java:29-30 | the end of a row is the start of the next |
| Solvers.MinesSplit | src/org/shinkirou/minesweeper/MinesweeperSolver.java:39-45 | the mines around a square are those among its unknown neighbours plus its flagged ones |
| Solvers.SeedSound | src/org/shinkirou/minesweeper/MinesweeperSolver.java:31-131 | on a board whose flags are on mines and with no revealed mine, a seed counts exactly the mines among its squares |
| Solvers.SeedsSound | src/org/shinkirou/minesweeper/MinesweeperSolver.java:28-137 | on such a board every seed lies on the grid and is true of the layout |
| Solvers.PlannedSafe | src/org/shinkirou/minesweeper/MinesweeperSolver.java:180-195 | given the closure of a consistent board's seeds, every planned probe is off the layout and every planned flag is on it |
| Solvers.MarksOf | src/org/shinkirou/minesweeper/MinesweeperSolver.java:191-193 | the squares a set of actions flags |
| Solvers.ApplyProbe | src/org/shinkirou/minesweeper/MinesweeperSolver.java:185-187 | probing a safe square keeps a consistent board consistent and reveals the square; on any board the squares it reveals are reachable from it |
| Solvers.ApplyMark | src/org/shinkirou/minesweeper/MinesweeperSolver.java:191-193 | flagging a mine keeps a consistent board consistent and flags the square |
| Solvers.Acts | src/org/shinkirou/minesweeper/MinesweeperSolver.java:185-193 | the probes, or flags, of a list of squares |
| Solvers.ApplyOne | src/org/shinkirou/minesweeper/MinesweeperSolver.java:185-193 | one square's probe or flag keeps the progress of the pass; a probe adds no flag and a flag reveals nothing |
| Solvers.ActsStep | src/org/shinkirou/minesweeper/MinesweeperSolver.java:185-193 | one more square adds its one action |
| Solvers.ApplyEach | src/org/shinkirou/minesweeper/MinesweeperSolver.java:185-193 | the inner loop probes, or flags, every square of a constraint; a probing pass adds no flag, a flagging pass reveals nothing, and an empty one changes nothing; on any board no square is hidden, no flag is removed, only these flags are added, only squares these probes can reach are revealed, and each square ends revealed or flagged; when the board is consistent and the actions are safe, each action takes effect and the board stays consistent |
| Solvers.ResolveConstraint | src/org/shinkirou/minesweeper/MinesweeperSolver.java:181-194 | a constraint with no mines gets its squares probed, one with as many mines as squares gets them flagged, and any other gets no action: the board is unchanged when it plans nothing, and nothing is revealed unless it has no mines; on any board each acted-on square ends revealed or flagged, only those flags are added and only squares those probes can reach are revealed |
| Solvers.PlannedInStep | src/org/shinkirou/minesweeper/MinesweeperSolver.java:180 | the actions planned for a prefix of the snapshot grow by those of the next constraint |
| Solvers.Snapshot | src/org/shinkirou/minesweeper/MinesweeperSolver.java:143-144 | `toArray` lists each element of the set exactly once, in some order |
| Solvers.PairsDoneStep | src/org/shinkirou/minesweeper/MinesweeperSolver.java:147-158 | a pair whose derived constraint is present advances the row-major position |
| Solvers.PairsDoneRow | src/org/shinkirou/minesweeper/MinesweeperSolver.java:146-159 | the end of one row of pairs is the start of the next |
| Solvers.PairsDoneClosed | src/org/shinkirou/minesweeper/MinesweeperSolver.java:141-160 | once every pair of a snapshot has its derived constraint in the set, the set is closed |
| Solvers.Tally | src/org/shinkirou/minesweeper/MinesweeperSolver.java:36-46 | a neighbour with information 10 joins the set, one with 9 decreases the count, and any other changes nothing |
| Solvers.ScanNeighbours | src/org/shinkirou/minesweeper/MinesweeperSolver.java:33-130 | the eight cases build a fresh constraint over the unknown neighbours, with the hint less the flagged neighbours |
| Solvers.ScanNeighbour | src/org/shinkirou/minesweeper/MinesweeperSolver.java:36-46 | the `k`-th case skips a neighbour off the board and otherwise tallies its information |
| Solvers.SeedAt | src/org/shinkirou/minesweeper/MinesweeperSolver.java:31-131 | a revealed hint square yields its seed |
| Solvers.SeedFor | src/org/shinkirou/minesweeper/MinesweeperSolver.java:31-135 | a square is seeded iff its information is 1..8 and it has an unknown neighbour, and the seed lies on the grid |
| Solvers.Solver.constructor | src/org/shinkirou/minesweeper/MinesweeperSolver.java:21-25 | an empty working set, a zero counter, and not inspected |
| Solvers.Solver.SeedSquare | src/org/shinkirou/minesweeper/MinesweeperSolver.java:31-135 | the working set gains the square's seed exactly when the square is seeded |
| Solvers.Solver.SeedAll | src/org/shinkirou/minesweeper/MinesweeperSolver.java:29-137 | the nested loops leave exactly the seeds of the whole board |
| Solvers.Solver.SeedRow | src/org/shinkirou/minesweeper/MinesweeperSolver.java:30-136 | one row adds the seeds of its squares |
| Solvers.Solver.Inspect | src/org/shinkirou/minesweeper/MinesweeperSolver.java:27-163 | the working set becomes the least closed set holding the board's seeds, a function of the board alone, and `inspected` is set |
| Solvers.Solver.Close | src/org/shinkirou/minesweeper/MinesweeperSolver.java:139-161 | the fixed-point loop terminates with the closure of the set it started from |
| Solvers.Solver.Add | src/org/shinkirou/minesweeper/MinesweeperSolver.java:156 | `sets.add` reports whether the constraint was absent; it is present afterwards |
| Solvers.Solver.Pass | src/org/shinkirou/minesweeper/MinesweeperSolver.java:142-160 | one pass adds at most one constraint, because of the short-circuit; a pass that adds none leaves the set closed; and the set stays inside every closed superset of where it started |
| Solvers.Solver.PassRow | src/org/shinkirou/minesweeper/MinesweeperSolver.java:146-159 | one constraint against the whole snapshot keeps the guarantees of the pass |
| Solvers.Solver.Resolve | src/org/shinkirou/minesweeper/MinesweeperSolver.java:180-195 | no square is hidden, no flag is removed, only planned flags are added, only squares the planned probes can reach are revealed, and every planned square ends revealed or flagged; when the board is consistent and every planned action is safe, the board stays consistent, gains exactly the planned flags, and every planned action takes effect |
| Solvers.Solver.Step | src/org/shinkirou/minesweeper/MinesweeperSolver.java:175-196 | `inspect` runs only when not inspected (an inspected working set is kept as it is), resolution follows, and `inspected` is cleared |
| Solvers.Solver.Proceed | src/org/shinkirou/minesweeper/MinesweeperSolver.java:175-196 | the part of `iteration` after its guard, with the safety guarantees of resolution; an inspected working set is kept as it is |
| Solvers.Solver.Iteration | src/org/shinkirou/minesweeper/MinesweeperSolver.java:168-197 | the counter is incremented (with wrap-around) even when the call then fails; it fails exactly on a solved or failed board, changing nothing else; otherwise `inspected` ends false, a stale set is replaced by the closure of the seeds while a current one is kept; on any board only planned flags are added and only squares the planned probes can reach are revealed, and on a consistent board only safe squares are probed and only mines flagged |
| Solvers.Solver.Check | src/org/shinkirou/minesweeper/MinesweeperSolver.java:169-173 | the counter is incremented first, then the result says whether the board is solved or failed; the board is not changed |
| Solvers.Solver.Over | src/org/shinkirou/minesweeper/MinesweeperSolver.java:171 | `isSolved()` or else `isFailed()`, without changing the board |
| Solvers.Solver.IsFailed | src/org/shinkirou/minesweeper/MinesweeperSolver.java:203-205 | exactly the board's `isFailed` |
| Solvers.Solver.IsSolved | src/org/shinkirou/minesweeper/MinesweeperSolver.java:211-213 | exactly the board's `isSolved` |
| Solvers.Solver.GetSets | src/org/shinkirou/minesweeper/MinesweeperSolver.java:219-221 | the working set |
| Solvers.Solver.GetCount | src/org/shinkirou/minesweeper/MinesweeperSolver.java:227-229 | the iteration counter, a Java `int` |

## Left out

- Random mine placement (`Board.java:57-72`) is replaced by a mine layout given to the constructor. The layout must be `mines` distinct squares on the grid. `LayoutNeedsRoom` shows that no such layout exists when `mines > width * height`, which is when the random loop would never finish.
- The exception paths are modelled as return values. `Board.Create` returns `None` where `initialize` throws `IllegalArgumentException`. `Solver.Iteration` returns `Fail` where `iteration` throws `IllegalStateException`.
- Indexing outside the grid (`ArrayIndexOutOfBoundsException`) is a precondition: `0 <= x < width` and `0 <= y < height`.
- The arrays returned by `getValues`, `getProbes` and `getMarks` (`Board.java:355-365`) are not modelled. The model reads the grids directly and does not model aliasing through those arrays.
- The `Constraint` constructors with a capacity or a load factor (`Constraint.java:31-39`) are not modelled. They behave as `Constraint(byte)`, and the capacity and load factor are performance hints only.
- `Constraint.getSet`, `iterator`, `toArray` and `toString` are not modelled. `Value()` stands for the set those methods expose.
- The solver's working set holds constraint values, not mutable `Constraint` objects. Objects in the set are never mutated after insertion, so `HashSet` membership by `equals` is set membership of values.
- Iteration order of `HashSet` and `toArray` is not modelled: `Snapshot` lists the elements in an unspecified order. The closure, and the set of actions resolution takes, do not depend on that order.
- The order of probes and flags within one resolution pass is abstracted to the set of actions taken. On any board the pass is stated to hide no square, remove no flag, add only planned flags and leave every planned square revealed or flagged. That each action takes effect, and that the pass is safe, is stated for a board that is consistent (every flag on a mine, no mine revealed) with a working set that is the closure of its seeds.
- Solvers.Solver.Iteration: when the working set was left current (`inspected` true) by an outside call to `inspect`, the safety guarantee is conditional on that set still being the closure of the board's seeds. The model does not track board changes made between the two calls.
- Coordinates.HashCode and Constraints.ValueHash: only their range and their agreement with `equals` are stated, not numeric values. `Constraints.SetHash` sums element hashes exactly and wraps once at the end; Java wraps at every addition, which gives the same 32-bit result.
- Coordinates.CompareTo: the order properties are proved only where the subtractions do not overflow (components in 0..2^31 − 1, which covers every grid square).
- The flood fill's loop and branch structure is kept, but its eight hand-unrolled neighbour cases are one loop over an offset table in the source's order. The quirk of `Board.java:169` is kept through `GuardFlag`.
- `union` and `difference` are functions: their only mutation is of a fresh local copy that is then returned.
- `ConsoleApplication` (input, output and command parsing) and the `toString` methods are not part of this model.
