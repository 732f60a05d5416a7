// The value-level model of a Sudoku board: its shape, the validation done by
// `set_board`, the box-origin arithmetic and the candidate check exactly as the
// solver performs it (sudoku.py).

module Board {

  /** A board as the caller hands it over: a list of rows, each a list of cells. */
  type Grid = seq<seq<int>>

  /** `Sudoku.n`: the board is N x N. */
  const N: int := 9

  /** `Sudoku.box_len`: a box is BoxLen x BoxLen. */
  const BoxLen: int := 3

  /** The two failures of `set_board`. */
  datatype BoardError = InvalidDimensions | InvalidDigit

  /** Outcome of `set_board`: the board is accepted or one error is raised. */
  datatype Status = Accepted | Rejected(error: BoardError)

  /** N rows of N entries each. */
  predicate Shaped(b: Grid)
  {
    |b| == N && forall i :: 0 <= i < |b| ==> |b[i]| == N
  }

  /** One row of a valid board: N entries, each in 0..9 (0 is an empty cell). */
  predicate IsRow(r: seq<int>)
  {
    |r| == N && forall j :: 0 <= j < |r| ==> 0 <= r[j] <= 9
  }

  /** A board `set_board` accepts: N rows, each a valid row. */
  predicate IsGrid(b: Grid)
  {
    |b| == N && forall i :: 0 <= i < |b| ==> IsRow(b[i])
  }

  /** `all(len(i) == n for i in board)`. */
  function AllOfLength(rows: Grid, n: int): (r: bool)
    ensures r <==> forall i :: 0 <= i < |rows| ==> |rows[i]| == n
  {
    if rows == [] then true
    else |rows[0]| == n && AllOfLength(rows[1..], n)
  }

  /** `all([0 <= j <= 9 for j in lst])`. */
  function AllDigits(lst: seq<int>): (r: bool)
    ensures r <==> forall j :: 0 <= j < |lst| ==> 0 <= lst[j] <= 9
  {
    if lst == [] then true
    else 0 <= lst[0] <= 9 && AllDigits(lst[1..])
  }

  /** `all(all([0 <= j <= 9 for j in lst]) for lst in board)`. */
  function AllRowsDigits(rows: Grid): (r: bool)
    ensures r <==> forall i :: 0 <= i < |rows| ==> AllDigits(rows[i])
  {
    if rows == [] then true
    else AllDigits(rows[0]) && AllRowsDigits(rows[1..])
  }

  /** The decision `set_board` takes: the shape is checked first, the digits second. */
  function CheckBoard(b: Grid): (r: Status)
    ensures r == Accepted <==> IsGrid(b)
    ensures r == Rejected(InvalidDimensions) <==> !Shaped(b)
    ensures r == Rejected(InvalidDigit) <==> Shaped(b) && !IsGrid(b)
  {
    if |b| == N && AllOfLength(b, N) then
      if AllRowsDigits(b) then Accepted else Rejected(InvalidDigit)
    else
      Rejected(InvalidDimensions)
  }

  /** `__compute_index`: the first row (column) of the box band holding `idx`.
      Python's `//` floors; for the positive divisor BoxLen that is Dafny's `/`. */
  function ComputeIndex(idx: int): (r: int)
    ensures r % BoxLen == 0
    ensures r <= idx < r + BoxLen
  {
    (idx / BoxLen) * BoxLen
  }

  /** `__find_start_pos`: the top-left cell of the box holding (row, col). */
  function FindStartPos(row: int, col: int): (p: (int, int))
    ensures p.0 % BoxLen == 0 && p.0 <= row < p.0 + BoxLen
    ensures p.1 % BoxLen == 0 && p.1 <= col < p.1 + BoxLen
    ensures 0 <= row < N ==> p.0 in {0, 3, 6}
    ensures 0 <= col < N ==> p.1 in {0, 3, 6}
  {
    (ComputeIndex(row), ComputeIndex(col))
  }

  /** What `__possible_solution(row, col, num)` answers on board `g`.
      It is false exactly when
      - `num` occurs in the row and the cell itself does not hold `num`, or
      - `num` occurs in the column at another row, or
      - `num` occurs in the box's rows at column offset 0 or 1: the slice
        `[start : start + 2]` leaves the third column of the box unexamined. */
  predicate Candidate(g: Grid, row: int, col: int, num: int)
    requires IsGrid(g)
    requires 0 <= row < N && 0 <= col < N
  {
    var start := FindStartPos(row, col);
    !((exists j :: 0 <= j < N && g[row][j] == num) && g[row][col] != num) &&
    !(exists i :: 0 <= i < N && i != row && g[i][col] == num) &&
    !(exists i, j :: start.0 <= i < start.0 + BoxLen && start.1 <= j < start.1 + 2 && g[i][j] == num)
  }

  /** The board whose cells are all empty. */
  function EmptyGrid(): (g: Grid)
    ensures IsGrid(g)
    ensures forall i, j :: 0 <= i < N && 0 <= j < N ==> g[i][j] == 0
  {
    seq(N, i => seq(N, j => 0))
  }

  /** Board `g` with cell (row, col) set to `v`. */
  function Put(g: Grid, row: int, col: int, v: int): (h: Grid)
    requires IsGrid(g) && 0 <= row < N && 0 <= col < N && 0 <= v <= 9
    ensures IsGrid(h)
    ensures forall i, j :: 0 <= i < N && 0 <= j < N ==>
              h[i][j] == if i == row && j == col then v else g[i][j]
  {
    g[row := g[row][col := v]]
  }

  /** Writing a digit into an empty cell and then 0 again restores the board. */
  lemma ResetCell(g: Grid, row: int, col: int, v: int)
    requires IsGrid(g) && 0 <= row < N && 0 <= col < N && 0 <= v <= 9
    requires g[row][col] == 0
    ensures Put(g, row, col, 0) == g
    ensures Put(Put(g, row, col, v), row, col, 0) == g
  {
    GridExt(Put(g, row, col, 0), g);
    GridExt(Put(Put(g, row, col, v), row, col, 0), g);
  }

  /** The candidate check ignores the third column of a box: on a board whose only
      clue is a 5 at (0, 2), a 5 is still accepted at (1, 0) in the same box. */
  lemma BoxThirdColumnUnchecked()
    ensures exists g: Grid :: IsGrid(g) && g[0][2] == 5 && Candidate(g, 1, 0, 5)
  {
    var g := Put(EmptyGrid(), 0, 2, 5);
    assert !(exists j :: 0 <= j < N && g[1][j] == 5);
    assert !(exists i :: 0 <= i < N && i != 1 && g[i][0] == 5);
    assert FindStartPos(1, 0) == (0, 0);
    assert Candidate(g, 1, 0, 5);
  }

  /** Two boards of the same shape that agree on every cell are equal. */
  lemma {:induction false} GridExt(a: Grid, b: Grid)
    requires Shaped(a) && Shaped(b)
    requires forall i, j :: 0 <= i < N && 0 <= j < N ==> a[i][j] == b[i][j]
    ensures a == b
  {
    forall i | 0 <= i < N
      ensures a[i] == b[i]
    {
      assert forall j :: 0 <= j < N ==> a[i][j] == b[i][j];
    }
  }
}
