# Verified model of the `Sudoku` backtracking solver

This project models `sudoku.py` in Dafny. That file holds one class, `Sudoku`,
which keeps a 9 x 9 board in a mutable field and fills it by recursive
backtracking. The model keeps the source's shape:

- `board.dfy` (module `Board`) holds the value-level pieces:
  - the board shape and the validation `set_board` performs;
  - the box-origin arithmetic of `__compute_index` and `__find_start_pos`;
  - `Candidate`, which states what `__possible_solution` answers.
- `search.dfy` (module `Search`) holds what the search keeps and establishes,
  on board values:
  - clues and cells before the cursor are never written;
  - the cells the search fills end up fresh in their row and column;
  - no solution is lost: a digit that some solution of the puzzle holds at a
    cell always passes the candidate check, so the search fails only when no
    solution exists;
  - consequences for a solved board.
- `render.dfy` (module `Render`) holds the text `__str__` builds, both in the
  loop shape the method follows and as the fixed eleven-line layout it
  amounts to.
- `sudoku.dfy` (module `Solver`) holds the class `Sudoku`:
  - the board is an `array2<int>` field, with a ghost field `cells` that
    mirrors it as a value;
  - `SetBoard`, `Solve` and the recursive `SolveSudoku` update that array in
    place;
  - `PossibleSolution`, `Contains` and `ToString` only read it, with loops
    proved against the functions above.

The model follows the code as written. Four points need a word:

- The box scan takes the slice `[start : start + 2]` (sudoku.py:101). It
  therefore looks at only the first two columns of each box. `Candidate`
  reproduces this. `Board.BoxThirdColumnUnchecked` exhibits a board where a
  digit is accepted although it already sits in the third column of its box.
  Accordingly, nothing here claims that a solved board has valid boxes.
- Clues are never checked against each other (sudoku.py:59-60 skips them).
  A board with no empty cell is therefore reported solved even when two of
  its clues clash (`Solve` ensures `FilledFrom(old(cells), 0) ==> ok`).
  Rows and columns of a solved board hold every digit only when the clues
  are consistent (`Search.SolvedRowsAndColumnsComplete`).
- After every digit it tries, the search resets the cell to 0, whether or not
  the candidate check accepted that digit (sudoku.py:67 sits outside the
  `if`). The model does the same.
- The error text at sudoku.py:152 speaks of 1 to 9, but the check accepts
  0 to 9. The model follows the check.

Python's `//` floors. For the positive divisor 3 that equals Dafny's `/`, so
`ComputeIndex` uses `/` directly.

## Model

| member | source | states |
|---|---|---|
| `Board.AllOfLength` | sudoku.py:147 | true exactly when every row has the given length |
| `Board.AllDigits` | sudoku.py:148 | true exactly when every entry of the row lies in 0..9 |
| `Board.AllRowsDigits` | sudoku.py:148-149 | true exactly when every row passes the digit check |
| `Board.CheckBoard` | sudoku.py:147-154 | accepts exactly the boards of 9 rows of 9 entries in 0..9; InvalidDimensions exactly when the shape is wrong, whatever the digits (dimensions are checked first); InvalidDigit exactly when the shape is right and some entry is outside 0..9 |
| `Board.ComputeIndex` | sudoku.py:123-136 | the result is a multiple of 3 and `r <= idx < r + 3` |
| `Board.FindStartPos` | sudoku.py:107-121 | both coordinates are multiples of 3 within 3 below the cell's; for a cell on the board both lie in {0, 3, 6} |
| `Board.BoxThirdColumnUnchecked` | sudoku.py:100-103 | some board has a 5 at column offset 2 of a box, yet the candidate check accepts 5 at another cell of that box |
| `Board.ResetCell` | sudoku.py:64-67 | writing a digit into an empty cell and then 0 again gives back the original board |
| `Search.SkipStep` | sudoku.py:59-60 | skipping a clue keeps the search's guarantees, moved back by one cell: nothing before the cursor nor any clue written; on success everything from the cursor filled; success whenever no empty cell remains |
| `Search.AssignStep` | sudoku.py:62-66 | a digit accepted by the candidate check, followed by a successful search of the rest, leaves that cell fresh in its row and column; earlier cells and clues stay untouched |
| `Search.CompletesFromStart` | sudoku.py:34-35 | success from the first cell means a solved board: every cell holds 1..9, clues are kept, every filled cell differs from the rest of its row and column |
| `Search.SolutionPassesCheck` | sudoku.py:88-103 | at an empty cell, the digit any solution of the board (all cells 1..9, clues kept, no repeat in a row, column or box) holds there passes the candidate check |
| `Search.SolutionFits` | sudoku.py:62-65 | that digit passes the check and, written into the cell, leaves a board the same solution still solves |
| `Search.DigitRuledOut` | sudoku.py:62-67 | a digit rejected by the check, or whose recursive search found no completion, is held at that cell by no solution of the board |
| `Search.SolvedRowsAndColumnsComplete` | sudoku.py:88-95 | if no two clues of a row or of a column clash, every row and every column of a solved board holds all digits 1..9 |
| `Render.DigitChar` | sudoku.py:164 | `str(v)` of a cell value is one character in '0'..'9' |
| `Render.RenderedLayout` | sudoku.py:156-167 | the rendered text is exactly the eleven lines: three rows, separator, three rows, separator, three rows |
| `Render.LinesShape` | sudoku.py:156-167 | there are 11 lines, each ending in a newline and holding no other |
| `Solver.Sudoku.constructor` | sudoku.py:31 | a new solver holds an empty (0 x 0) board; only `Create` gives a solver with a usable board |
| `Solver.Sudoku.Create` | sudoku.py:24-32 | construction succeeds exactly when `set_board` accepts the board; the solver then holds exactly that board, otherwise the error `set_board` raises is returned |
| `Solver.Sudoku.SetBoard` | sudoku.py:138-154 | the outcome is `CheckBoard`'s; on acceptance the board holds exactly the given rows; on either error the board is left as it was |
| `Solver.Sudoku.Solve` | sudoku.py:34-35 | clues are never changed; on success every cell holds 1..9 and every filled cell is fresh in its row and column; on failure the board is as it was; it succeeds whenever the puzzle has a solution (all cells 1..9, clues kept, no repeat in a row, column or box), and on any board without empty cells |
| `Solver.Sudoku.SolveSudoku` | sudoku.py:37-69 | cells before the cursor and clues are never written; on success every cell from the cursor on is filled and each one the search filled is fresh in its row and column; on failure the board is exactly as at entry; it succeeds whenever the board at entry has a solution, and whenever no cell from the cursor on is empty |
| `Solver.Sudoku.SetCell` | sudoku.py:64-67 | writing one cell changes that cell of the board and no other |
| `Solver.Sudoku.Contains` | sudoku.py:101-102 | true exactly when the value occurs in the given slice of the row |
| `Solver.Sudoku.PossibleSolution` | sudoku.py:71-105 | the answer is `Candidate` on the current board: false exactly when the digit is in the row and the cell does not hold it, or in the column at another row, or in the first two columns of the box |
| `Solver.Sudoku.ToString` | sudoku.py:156-167 | the text built is the rendering of the current board |

## Left out

- Aliasing: `set_board` stores the caller's list itself (sudoku.py:150). The model copies the rows into an array the solver owns, so later changes by the caller are not modelled.
- Exceptions: the two exceptions of `set_board` become the error kinds `InvalidDimensions` and `InvalidDigit`. Their message texts are not modelled.
- Python's dynamic typing: boards whose entries are not integers, or whose rows are not lists, cannot be expressed.
- `str()` of arbitrary integers: cell values are always 0..9, so each cell renders as one digit character.
- Calling `solve` on a solver without a board: `Solve` requires a valid board, which every successfully constructed solver holds.
- Solver.Sudoku.Solve: does not state that the solution found is the first one in row-major, ascending-digit order; proving that minimality was judged too costly for what it adds.
- Solver.Sudoku.Solve: does not state box validity of a solved board; the code does not guarantee it (see above).
- Determinism across runs is not stated as a property; every operation of the model is deterministic by construction.
- `Solver.Sudoku.SetCell` stands for the two direct assignments at sudoku.py:64 and sudoku.py:67; it also updates the ghost mirror `cells`.
