// The `Sudoku` class (sudoku.py): one mutable 9 x 9 board, its validation, the
// candidate check, the recursive backtracking search and the text rendering.

module Solver {
  import opened Board
  import opened Search
  import opened Render

  /** A new solver, or the error `__init__` raises. */
  datatype Result<T> = Ok(value: T) | Err(error: BoardError)

  class Sudoku {
    /** `self.board`; the solver owns it (the caller's rows are copied in). */
    var board: array2<int>

    /** The board as a value; every write to `board` updates it alongside. */
    ghost var cells: Grid

    /** The board is N x N, every cell holds 0..9, and `cells` mirrors it. */
    ghost predicate Valid()
      reads this, board
    {
      board.Length0 == N && board.Length1 == N && IsGrid(cells) &&
      forall i, j :: 0 <= i < N && 0 <= j < N ==> board[i, j] == cells[i][j]
    }

    /** `self.board = []`: a solver that holds no board yet. Only `Create`, which
        goes on to `SetBoard`, hands out a solver with a usable board. */
    constructor ()
      ensures fresh(board) && board.Length0 == 0 && board.Length1 == 0 && cells == []
    {
      board := new int[0, 0];
      cells := [];
    }

    /** `Sudoku(board)`: construction succeeds exactly when `set_board` accepts. */
    static method Create(b: Grid) returns (r: Result<Sudoku>)
      ensures r.Ok? <==> CheckBoard(b) == Accepted
      ensures r.Err? ==> CheckBoard(b) == Rejected(r.error)
      ensures r.Ok? ==> fresh(r.value) && fresh(r.value.board) &&
                        r.value.Valid() && r.value.cells == b
    {
      var s := new Sudoku();
      var status := s.SetBoard(b);
      if status.Rejected? {
        return Err(status.error);
      }
      return Ok(s);
    }

    /** `set_board`: replaces the board by a valid one, or rejects it, checking
        the dimensions before the digits and leaving the board as it was. */
    method SetBoard(b: Grid) returns (status: Status)
      modifies this
      ensures status == CheckBoard(b)
      ensures status.Accepted? ==> fresh(board) && Valid() && cells == b
      ensures status.Rejected? ==> board == old(board) && cells == old(cells)
    {
      if |b| == N && AllOfLength(b, N) {
        if AllRowsDigits(b) {
          board := new int[N, N]((i, j) => if 0 <= i < |b| && 0 <= j < |b[i]| then b[i][j] else 0);
          cells := b;
          return Accepted;
        } else {
          return Rejected(InvalidDigit);
        }
      } else {
        return Rejected(InvalidDimensions);
      }
    }

    /** `solve`: runs the search from the first cell. On success every cell holds
        1..9, the clues are kept and every filled cell differs from the rest of its
        row and column; on failure the board is as it was. It fails only when the
        puzzle has no solution: "true if a solution exists" (sudoku.py:49-50). */
    method Solve() returns (ok: bool)
      requires Valid()
      modifies this, board
      ensures board == old(board) && Valid()
      ensures Preserves(old(cells), cells, 0)
      ensures ok ==> Solved(old(cells), cells)
      ensures !ok ==> cells == old(cells)
      ensures FilledFrom(old(cells), 0) ==> ok
      ensures forall s :: IsGrid(s) && ValidSolution(old(cells), s) ==> ok
    {
      ok := SolveSudoku(0, 0);
      if ok {
        CompletesFromStart(old(cells), cells);
      }
    }

    /** `__solve_sudoku(row, col)`: the backtracking search from the cursor
        (row, col), where `col` may be N. No cell before the cursor and no clue
        is ever written; on success every cell from the cursor on is filled and
        every one the search filled is fresh in its row and column; on failure
        every digit tried has been reset and the board is as it was, and no
        solution of the board exists. */
    method SolveSudoku(row: int, col: int) returns (ok: bool)
      requires Valid()
      requires 0 <= row < N && 0 <= col <= N
      modifies this, board
      decreases N * N - Pos(row, col)
      ensures board == old(board) && Valid()
      ensures Preserves(old(cells), cells, Pos(row, col))
      ensures ok ==> CompletesFrom(old(cells), cells, Pos(row, col))
      ensures !ok ==> cells == old(cells)
      ensures FilledFrom(old(cells), Pos(row, col)) ==> ok
      ensures forall s :: IsGrid(s) && ValidSolution(old(cells), s) ==> ok
    {
      if row == N - 1 && col == N {
        return true;
      }
      var r, c := row, col;
      if c == N {
        r, c := r + 1, 0;
      }
      ghost var g0 := cells;
      if board[r, c] != 0 {
        ok := SolveSudoku(r, c + 1);
        SkipStep(g0, cells, r, c, ok);
        return;
      }
      for d := 1 to N + 1
        invariant board == old(board) && Valid()
        invariant cells == g0
        invariant forall s :: IsGrid(s) && ValidSolution(g0, s) ==> d <= s[r][c]
      {
        var possible := PossibleSolution(r, c, d);
        if possible {
          SetCell(r, c, d);
          var solved := SolveSudoku(r, c + 1);
          if solved {
            AssignStep(g0, cells, r, c, d);
            return true;
          }
        }
        DigitRuledOut(g0, r, c, d);
        ResetCell(g0, r, c, d);
        SetCell(r, c, 0);
      }
      return false;
    }

    /** `self.board[row][col] = v`. */
    method SetCell(row: int, col: int, v: int)
      requires Valid() && 0 <= row < N && 0 <= col < N && 0 <= v <= 9
      modifies this, board
      ensures board == old(board) && Valid()
      ensures cells == Put(old(cells), row, col, v)
    {
      board[row, col] := v;
      cells := Put(cells, row, col, v);
    }

    /** `num in lst` for the slice `board[row][lo:hi]`. */
    method Contains(row: int, lo: int, hi: int, num: int) returns (found: bool)
      requires Valid()
      requires 0 <= row < N && 0 <= lo <= hi <= N
      ensures found <==> exists j :: lo <= j < hi && board[row, j] == num
    {
      for j := lo to hi
        invariant forall k :: lo <= k < j ==> board[row, k] != num
      {
        if board[row, j] == num {
          return true;
        }
      }
      return false;
    }

    /** `__possible_solution(row, col, num)`: scans the row, the column and the
        first two columns of the box, against the current board. */
    method PossibleSolution(row: int, col: int, num: int) returns (ok: bool)
      requires Valid()
      requires 0 <= row < N && 0 <= col < N
      ensures ok == Candidate(cells, row, col, num)
    {
      var inRow := Contains(row, 0, N, num);
      if inRow && board[row, col] != num {
        return false;
      }
      for i := 0 to board.Length0
        invariant forall k :: 0 <= k < i && k != row ==> board[k, col] != num
      {
        if board[i, col] == num && i != row {
          return false;
        }
      }
      var start := FindStartPos(row, col);
      for i := 0 to BoxLen
        invariant forall a, b :: start.0 <= a < start.0 + i && start.1 <= b < start.1 + 2 ==>
                    board[a, b] != num
      {
        var found := Contains(start.0 + i, start.1, start.1 + 2, num);
        if found {
          return false;
        }
      }
      return true;
    }

    /** `__str__`: the rows in order, each cell followed by a space, `"| "` before
        columns 3 and 6, and the separator line before rows 3 and 6. */
    method ToString() returns (s: string)
      requires Valid()
      ensures s == Rendered(cells)
    {
      ghost var g := cells;
      s := "";
      for i := 0 to board.Length0
        invariant s == RowsPrefix(g, i)
      {
        if i != 0 && i % 3 == 0 {
          s := s + SepLine;
        }
        ghost var head := s;
        for j := 0 to board.Length0
          invariant s == head + RowPrefix(g[i], j)
        {
          RowPrefixStep(g[i], j, head);
          if j != 0 && j % 3 == 0 {
            s := s + "| ";
          }
          s := s + [DigitChar(board[i, j]), ' '];
        }
        RowsPrefixSnoc(g, i);
        s := s + "\n";
      }
    }
  }
}
