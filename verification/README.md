# Sudoku board engine, modelled in Dafny

A model of the Sudoku board class `io.sudo.board.Board`. The class is a 9x9
digit matrix plus a counter `digitAmount` of filled cells. Its operations are:

- a bounded backtracking counter of the completions of the board
  (`countSolutions`) and the uniqueness test built on it
  (`uniquelySolvable`);
- a random shuffle of the solved starting grid that swaps lines within a
  group of three (`shuffle`);
- a random removal of digits that keeps the puzzle uniquely solvable
  (`removeDigits`);
- the public constructor that chains the two: start from the hard-coded solved
  grid, shuffle it, then remove `81 - digitAmount` digits;
- the text rendering (`toString`).

The model is purely functional. The matrix `digits[x][y]` is a flat sequence
of 81 cells, with cell (x, y) at index `x * 9 + y`. The board is the datatype
`Board(digits, digitAmount)`. `Board.java` writes a digit, recurses and writes
the zero back. Here the board is passed through the search: every call
returns the board it leaves behind, and the contracts prove that this is
the board it was given.

The sources of randomness are inputs:

- The shuffle takes its 1000 draws as a sequence of `Draw` values. Each
  value holds the boolean and the three `nextInt(3)` results of one
  iteration.
- The removal takes `pick: nat -> Coord`, the stream of `nextInt(9)`
  results. Every call returns the position of the next unused draw, so one
  stream runs through the whole recursion, as the static generator does.

The rendering takes the platform line separator as a parameter.

The main results:

- **The counter is correct.** On a well-formed, valid board with a limit of at
  least 1, the count is exactly `min(limit, number of valid completions)`
  (`Solver.CountCorrect`). So `uniquelySolvable()` holds exactly when the
  board has one valid completion (`Solver.UniquelySolvable`).
- **The board is restored.** The search hands back the board it was given on
  every path, including the early exit at the limit.
- **The shuffle preserves the grid.** Each iteration permutes the cells,
  keeps the grid valid and undoes itself. The whole shuffle is undone by
  replaying the draws in reverse.
- **The removal keeps one completion.** A successful removal from a
  well-formed, valid board empties exactly the requested number of cells,
  keeps the counter right and leaves a board with exactly one completion
  (`Removal.RemoveUnique`). From any board, a failed removal leaves the
  board as it was, and a successful one keeps the counter's distance from
  the true filled count.
- **The constructor builds a puzzle from a fresh grid.** Started from an
  untouched copy of the solved starting grid, which is what the first
  construction sees (`Puzzle.FirstConstruction`), it returns a well-formed,
  valid board whose only completion is the shuffled grid, unless the removal
  gave up and the board is the full shuffled grid. Later constructions reuse
  the matrix the earlier ones emptied and are not well formed (see
  "## Findings").
- **Rendering loses nothing.** The rendered text has a fixed length, and
  reading it back gives the grid.

Module layout, one file each:

| module | file | models |
|---|---|---|
| `Sudoku` | sudoku.dfy | constants, the board, the placement test, validity |
| `Initial` | initial.dfy | `RANDOM_BOARD_INITIAL_DIGITS` |
| `Completion` | completion.dfy | the completions a board can have (ghost) |
| `Solver` | solver.dfy | `countSolutions`, `uniquelySolvable` |
| `Shuffle` | shuffle.dfy | `shuffle` |
| `Removal` | removal.dfy | `removeDigits` |
| `Puzzle` | puzzle.dfy | `Board(int digitAmount)` |
| `Render` | render.dfy | `toString` |

## Model

| member | source | states |
|---|---|---|
| Sudoku.FilledFull | src/io/sudo/board/Board.java:72 | The number of filled cells is 81 exactly when no cell is empty. So on a well-formed board, the counter test `digitAmount == 81` means the matrix is full. |
| Sudoku.PlaceFills | src/io/sudo/board/Board.java:118-119 | Writing a digit into an empty cell leaves one empty cell fewer, and the counter increment keeps a well-formed board well formed. |
| Sudoku.Clear | src/io/sudo/board/Board.java:183-184 | Emptying a cell leaves it empty and changes no other cell except by emptying. If the cell was filled, there is one more empty cell and the counter decrement keeps the counter's distance from the true filled count. |
| Sudoku.Place | src/io/sudo/board/Board.java:118-124 | Writing a digit puts it in the cell. On an empty cell, writing the zero back afterwards gives the original board again, counter included. |
| Sudoku.ClearPlace | src/io/sudo/board/Board.java:183-189 | Emptying a cell and then writing its old digit back gives the original board again, counter included. |
| Sudoku.Placeable | src/io/sudo/board/Board.java:87-116 | The line scan and the block scan accept a digit exactly when no cell that shares a line or block with (x, y) holds it. The cell itself counts too. |
| Sudoku.PlaceKeepsValid | src/io/sudo/board/Board.java:87-118 | Writing a digit that passes the placement test into an empty cell of a valid grid gives a valid grid. |
| Sudoku.SubgridValid | src/io/sudo/board/Board.java:183 | Emptying any set of cells of a valid grid gives a valid grid. |
| Initial.InitialGrid | src/io/sudo/board/Board.java:32-42 | The flat grid holds entry `[x][y]` of the hard-coded matrix at cell (x, y). It is full, holds only digits 1..9, and has no digit twice in any line or block. |
| Completion.CompletionsOfSolved | src/io/sudo/board/Board.java:72 | A full valid grid has itself as its one and only completion. This justifies answering 1 for a full board. |
| Completion.CompletionsOfPlace | src/io/sudo/board/Board.java:118-121 | The completions of the grid with digit d written into the empty cell (x, y) are exactly the completions of the grid that hold d at (x, y). |
| Completion.CompletionsOfBlocked | src/io/sudo/board/Board.java:98-116 | A digit the placement test rejects has no completion behind it, so skipping it loses no solution. |
| Solver.FirstEmpty | src/io/sudo/board/Board.java:75-134 | The scan from (startX, startY) stops at the first empty cell in x-major order: every cell before it is filled. If it finds none, every cell from the start on is filled. |
| Solver.CountFrom | src/io/sudo/board/Board.java:71-137 | On every path it hands back the board it was given. The count lies between 0 and max(limit, 1). A counter of 81 gives 1 whatever the limit. |
| Solver.TryDigits | src/io/sudo/board/Board.java:87-129 | The digit loop hands back the board it was given. It never lowers the running count, and never raises it past max(limit, 1). |
| Solver.TryDigit | src/io/sudo/board/Board.java:88-127 | One digit hands back the board it was given, with the running count kept between its start and max(limit, 1). |
| Solver.CountSolutionsUpTo | src/io/sudo/board/Board.java:67-69 | The count from (0, 0) lies in [0, max(limit, 1)]. On a well-formed valid board with limit at least 1, it is min(limit, number of valid completions). |
| Solver.CountSolutions | src/io/sudo/board/Board.java:63-65 | With the default limit of 1000 on a well-formed valid board, the count is the number of valid completions, capped at 1000. |
| Solver.UniquelySolvable | src/io/sudo/board/Board.java:59-61 | On a well-formed valid board, the count under limit 2 equals 1 exactly when the board has one valid completion. |
| Solver.CountFromStart | src/io/sudo/board/Board.java:67-69 | On a well-formed valid board with limit at least 1, the search from (0, 0) counts min(limit, number of valid completions). |
| Solver.CountCorrect | src/io/sudo/board/Board.java:71-137 | The conditions are: a well-formed valid board, a positive limit, and every cell before the start filled. Then the count is min(limit, number of valid completions). |
| Solver.TryCorrect | src/io/sudo/board/Board.java:87-129 | At the first empty cell, suppose the running count equals the completions holding a digit below `digit` there, and is below the limit. Then the loop ends with the capped number of all completions. |
| Solver.TryCorrectBlocked | src/io/sudo/board/Board.java:98-116 | Skipping a rejected digit keeps the running count exact, so the loop still ends with the capped number of all completions. |
| Solver.TryCorrectPlaced | src/io/sudo/board/Board.java:118-127 | Placing an accepted digit, counting under the remaining limit and restoring still ends the loop with the capped number of all completions. |
| Solver.PlacedOutcome | src/io/sudo/board/Board.java:118-126 | After an accepted digit, the running count either reaches the limit, and the loop returns the capped total, or equals the completions holding a digit up to that one, and the loop continues from the same board. |
| Solver.PlacedStep | src/io/sudo/board/Board.java:121 | The nested count under `limit - amount`, added to the running count, either reaches the limit (which is then the capped total) or equals the completions holding a digit up to this one. |
| Solver.CountStep | src/io/sudo/board/Board.java:121-126 | The arithmetic behind the short-circuit: adding the capped count of one digit's completions either reaches the limit, which is then the capped total, or advances the running count to the next digit's exact value. |
| Solver.TryDigitPlaced | src/io/sudo/board/Board.java:118-126 | After the nested count, the digit loop continues from the original board with the count raised by the nested count, unless the limit is reached. |
| Solver.PlacedCorrect | src/io/sudo/board/Board.java:118-121 | The nested call from (x, y) after placing an accepted digit counts the completions that hold that digit at (x, y), capped at the remaining limit. |
| Shuffle.SwapCells | src/io/sudo/board/Board.java:150-152 | Exchanging two cells through a temporary swaps their contents, leaves every other cell alone, and keeps the multiset of digits. |
| Shuffle.SwapXLinesFrom | src/io/sudo/board/Board.java:148-153 | After the inner loop has run from y on, the cells below y are untouched and the cells from y on come from the swapped x-line. The multiset of digits is unchanged. |
| Shuffle.SwapYLinesFrom | src/io/sudo/board/Board.java:162-167 | The same for the y-line swap, scanning x. |
| Shuffle.SwapXLines | src/io/sudo/board/Board.java:148-153 | Cell (x, y) of the result is cell (swap(x), y) of the input, where swap exchanges x1 and x2. The digits are permuted. |
| Shuffle.SwapYLines | src/io/sudo/board/Board.java:162-167 | Cell (x, y) of the result is cell (x, swap(y)) of the input. The digits are permuted. |
| Shuffle.LineA | src/io/sudo/board/Board.java:143-144 | The first drawn line lies in the drawn group of three. |
| Shuffle.LineB | src/io/sudo/board/Board.java:145 | The second drawn line lies in the same group. |
| Shuffle.SwapXLinesValid | src/io/sudo/board/Board.java:143-153 | Swapping two x-lines of one group keeps a valid grid valid. |
| Shuffle.SwapYLinesValid | src/io/sudo/board/Board.java:157-167 | Swapping two y-lines of one group keeps a valid grid valid. |
| Shuffle.Step | src/io/sudo/board/Board.java:140-169 | One iteration, including a skipped one, only permutes the digits, and keeps a valid grid valid. |
| Shuffle.StepInvolution | src/io/sudo/board/Board.java:140-169 | Repeating an iteration with the same draws restores the grid. |
| Shuffle.SwapXLinesTwice | src/io/sudo/board/Board.java:148-153 | Swapping the same two x-lines twice restores the grid. |
| Shuffle.SwapYLinesTwice | src/io/sudo/board/Board.java:162-167 | Swapping the same two y-lines twice restores the grid. |
| Shuffle.Steps | src/io/sudo/board/Board.java:139-170 | Any number of iterations only permutes the digits, and keeps a valid grid valid. |
| Shuffle.StepsKeep | src/io/sudo/board/Board.java:139-170 | The iterations keep the digit multiset and the filled count, and keep cells in range, a full grid full, and a valid grid valid. |
| Shuffle.StepsSnoc | src/io/sudo/board/Board.java:140 | Running one more iteration at the end is applying it to the result of the others. |
| Shuffle.StepsUndo | src/io/sudo/board/Board.java:139-170 | Replaying the draws in reverse order undoes the whole shuffle, so the shuffle is a bijection on grids. |
| Shuffle.ShuffleBoard | src/io/sudo/board/Board.java:139-170 | `shuffle()` leaves the counter alone and permutes the digits. It keeps a well-formed, full or valid board so. |
| Removal.Remove | src/io/sudo/board/Board.java:172-193 | A non-positive count succeeds without touching the board or the draws. A failure leaves the board as it was. A success empties exactly `toRemove` more cells, lowers the counter by as much, and ends uniquely solvable. The result only empties cells, and the counter stays as far from the true count as before. |
| Removal.Attempts | src/io/sudo/board/Board.java:175-192 | The attempt loop from any attempt on either fails with the board exactly as it was, or succeeds with exactly `toRemove` more cells empty, the counter lowered by as much, and the board uniquely solvable. It only empties cells and never rewinds the draw stream. |
| Removal.RemoveUnique | src/io/sudo/board/Board.java:172-193 | A successful removal from a well-formed valid board leaves a well-formed valid board with exactly one valid completion. |
| Removal.RemoveFromSolved | src/io/sudo/board/Board.java:172-193 | A successful removal from a solved grid leaves a puzzle whose one completion is that solved grid. |
| Puzzle.Wrap32 | src/io/sudo/board/Board.java:51 | The Java `int` value of an expression: congruent to it modulo 2^32, and equal to it when it fits. |
| Puzzle.RemoveCount | src/io/sudo/board/Board.java:51 | The wrapped `81 - digitAmount` is positive only when it is the true difference. A request of 81 or more digits removes nothing. |
| Puzzle.Solution | src/io/sudo/board/Board.java:48-50 | The shuffled starting grid is full, in range and valid. |
| Puzzle.RemovalOutcome | src/io/sudo/board/Board.java:51 | Removal from the full shuffled board either changes nothing, or leaves exactly 81 - toRemove digits with the shuffled grid as the only completion. Either way the board is well formed and valid. |
| Puzzle.NewBoard | src/io/sudo/board/Board.java:47-52 | `new Board(digitAmount)` built from a fresh copy of the starting grid is well formed and valid, its digits are those of the shuffled grid or empty, and the shuffled grid completes it. Either it is the full shuffled grid, or exactly `digitAmount` digits remain and the shuffled grid is its only completion. A request of 81 or more gives the full grid. |
| Puzzle.NewBoardShared | src/io/sudo/board/Board.java:47-57 | The constructor with the static matrix shared between boards. The counter is 81 whatever the matrix holds, and its distance from the true filled count is kept. |
| Puzzle.FirstConstruction | src/io/sudo/board/Board.java:47-57 | On the untouched starting matrix, the constructor as written builds the same board as the fresh-copy constructor. |
| Puzzle.SharedMatrixMiscounts | src/io/sudo/board/Board.java:47-57 | After a first board that removed digits, a second board's counter overstates its filled cells by exactly the number of cells the first board emptied, so it is not well formed. |
| Render.Symbol | src/io/sudo/board/Board.java:211-212 | The symbol of a cell identifies its value, and it is a space exactly for an empty cell. |
| Render.CellText | src/io/sudo/board/Board.java:209-221 | One cell adds a space and its symbol, which reads back as the cell's value and is a space exactly for an empty cell. At x = 3 and x = 6 the two characters " \|" come first. |
| Render.RowUpTo | src/io/sudo/board/Board.java:209-221 | The first n cells of a line take 2n characters, plus 2 for each block separator among them. |
| Render.Dashes | src/io/sudo/board/Board.java:202-204 | The block separator line is n dash characters. |
| Render.TextUpTo | src/io/sudo/board/Board.java:199-224 | The first n lines take n times (22 + separator length) characters, plus (23 + separator length) for each dash line among them. |
| Render.Render | src/io/sudo/board/Board.java:195-227 | The text has the fixed length 9 * (22 + L) + 2 * (23 + L) for a line separator of length L. |
| Render.RowAt | src/io/sudo/board/Board.java:209-221 | Within a rendered line, the symbol of cell x sits at column 2x + 1, plus 2 for each block separator before it. |
| Render.LineText | src/io/sudo/board/Board.java:199-224 | At y = 3 and y = 6 a line of text starts with 23 dashes and the separator. Then come the 22 characters of its cells, and it ends with the separator. |
| Render.TextAt | src/io/sudo/board/Board.java:199-224 | Within the whole text, line y starts after the earlier lines and the dash lines before it. |
| Render.RenderParse | src/io/sudo/board/Board.java:195-227 | For any separator, reading each cell's symbol back from the text gives the grid. So `toString()` loses nothing, and two different grids never render alike. |

## Left out

- The distribution of `java.util.Random`. The shuffle's draws and the
  removal's cell draws are inputs. Every property holds for every sequence of
  draws, and nothing is said about how likely a puzzle is.
- `System.lineSeparator()`. The rendering takes the separator as a
  parameter and the properties hold for every separator.
- Running time, including the bound of 100 attempts per level on the
  removal's total work. The model is total but says nothing about cost.
- Render.Symbol: requires a cell value in 0..9. The `(char) ('0' + digit)`
  cast of other values is not modelled, because a well-formed board never
  holds them.
- Solver.CountCorrect: states the exact count only for well-formed valid
  boards with a positive limit. On other boards `countSolutions` is
  modelled as written, but only its bounds are proved.
- The scenario of counting the completions of an all-empty board under limit
  1000. It needs at least 1000 distinct valid grids to be exhibited, and it
  is not proved.
- A limit of 0 does not make `countSolutions` return 0 at once. A board
  whose counter reads 81 answers 1, and otherwise the search follows the
  first accepted digit at each cell before the short-circuit fires. The model
  follows the code. `Solver.CountFrom` keeps only the bound `max(limit, 1)`
  for such limits.
- `uniquelySolvable()` mutates and restores the matrix. It is modelled as a
  pure query, which is justified by the frame property of `Solver.CountFrom`.
- The result of `removeDigits` is ignored by the constructor. `Puzzle.NewBoard`
  likewise keeps only the board.

## Findings

| source | as written | input that shows it | evidently intended | confidence | as-written member | corrected member |
|---|---|---|---|---|---|---|
| src/io/sudo/board/Board.java:48 | The constructor hands the static `RANDOM_BOARD_INITIAL_DIGITS` array itself to the board, and `shuffle()` and `removeDigits` then rewrite it in place. | `new Board(30)` followed by a second `new Board(30)`. When the first removal succeeds, the second starts from the first puzzle's matrix with 51 empty cells but sets the counter to 81, so the counter overstates the filled cells by 51 and the board is not well formed (`Puzzle.SharedMatrixMiscounts`). The search's shortcut `digitAmount == 81` then fires while cells are still empty, so the uniqueness test no longer measures completions and a later puzzle is not shown to be uniquely solvable. | Every board starts from its own copy of the solved starting grid. | high; not executed | Puzzle.NewBoardShared | Puzzle.NewBoard |
