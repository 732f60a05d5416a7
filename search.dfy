// What the backtracking search of `__solve_sudoku` keeps and establishes, stated on
// board values. Cells are visited in row-major order; the cursor (row, col) stands
// at position N * row + col, and `col` may reach N (sudoku.py:52-57).

module Search {
  import opened Board

  /** Row-major position of cell (i, j). */
  function Pos(i: int, j: int): int
  {
    N * i + j
  }

  /** Cell (i, j) of `g` differs from every other cell of its row and of its column. */
  predicate Fresh(g: Grid, i: int, j: int)
    requires IsGrid(g) && 0 <= i < N && 0 <= j < N
  {
    (forall k :: 0 <= k < N && k != j ==> g[i][k] != g[i][j]) &&
    (forall k :: 0 <= k < N && k != i ==> g[k][j] != g[i][j])
  }

  /** Going from `g0` to `g`, no cell before position `p` and no clue was written. */
  predicate Preserves(g0: Grid, g: Grid, p: int)
    requires IsGrid(g0) && IsGrid(g)
  {
    forall i, j :: 0 <= i < N && 0 <= j < N && (Pos(i, j) < p || g0[i][j] != 0) ==>
      g[i][j] == g0[i][j]
  }

  /** Every cell from position `p` on is filled in `g`, and every one of them that
      was empty in `g0` differs from the rest of its row and of its column. */
  predicate CompletesFrom(g0: Grid, g: Grid, p: int)
    requires IsGrid(g0) && IsGrid(g)
  {
    forall i, j :: 0 <= i < N && 0 <= j < N && p <= Pos(i, j) ==>
      g[i][j] != 0 && (g0[i][j] == 0 ==> Fresh(g, i, j))
  }

  /** No cell from position `p` on is empty. */
  predicate FilledFrom(g: Grid, p: int)
    requires IsGrid(g)
  {
    forall i, j :: 0 <= i < N && 0 <= j < N && p <= Pos(i, j) ==> g[i][j] != 0
  }

  /** What a successful `solve()` leaves: every cell holds 1..9, the clues of `g0`
      are kept and every cell the search filled is fresh in its row and column. */
  predicate Solved(g0: Grid, g: Grid)
    requires IsGrid(g0) && IsGrid(g)
  {
    forall i, j :: 0 <= i < N && 0 <= j < N ==>
      1 <= g[i][j] <= 9 &&
      (g0[i][j] != 0 ==> g[i][j] == g0[i][j]) &&
      (g0[i][j] == 0 ==> Fresh(g, i, j))
  }

  /** Skipping a clue: what the search from the next cell establishes holds from
      the clue's own position as well (sudoku.py:59-60). */
  lemma SkipStep(g0: Grid, g: Grid, r: int, c: int, ok: bool)
    requires IsGrid(g0) && IsGrid(g) && 0 <= r < N && 0 <= c < N
    requires g0[r][c] != 0
    requires Preserves(g0, g, Pos(r, c) + 1)
    requires ok ==> CompletesFrom(g0, g, Pos(r, c) + 1)
    requires FilledFrom(g0, Pos(r, c) + 1) ==> ok
    ensures Preserves(g0, g, Pos(r, c))
    ensures ok ==> CompletesFrom(g0, g, Pos(r, c))
    ensures FilledFrom(g0, Pos(r, c)) ==> ok
  {
  }

  /** Assigning a digit the candidate check accepted, then completing the rest:
      the assigned cell ends up fresh in its row and column, because earlier
      cells and clues keep the values the check saw and later empty cells were
      themselves filled fresh against it (sudoku.py:62-66). */
  lemma {:induction false} AssignStep(g0: Grid, g: Grid, r: int, c: int, d: int)
    requires IsGrid(g0) && IsGrid(g) && 0 <= r < N && 0 <= c < N && 1 <= d <= 9
    requires g0[r][c] == 0 && Candidate(g0, r, c, d)
    requires Preserves(Put(g0, r, c, d), g, Pos(r, c) + 1)
    requires CompletesFrom(Put(g0, r, c, d), g, Pos(r, c) + 1)
    ensures Preserves(g0, g, Pos(r, c))
    ensures CompletesFrom(g0, g, Pos(r, c))
  {
    var h := Put(g0, r, c, d);
    assert g[r][c] == d by {
      assert Pos(r, c) < Pos(r, c) + 1;
    }
    assert !(exists j :: 0 <= j < N && g0[r][j] == d);
    assert !(exists i :: 0 <= i < N && i != r && g0[i][c] == d);
    forall k | 0 <= k < N && k != c
      ensures g[r][k] != d
    {
      if Pos(r, k) < Pos(r, c) || g0[r][k] != 0 {
        assert h[r][k] == g0[r][k];
        assert g[r][k] == g0[r][k];
      } else {
        assert h[r][k] == 0;
        assert Fresh(g, r, k);
      }
    }
    forall k | 0 <= k < N && k != r
      ensures g[k][c] != d
    {
      if Pos(k, c) < Pos(r, c) || g0[k][c] != 0 {
        assert h[k][c] == g0[k][c];
        assert g[k][c] == g0[k][c];
      } else {
        assert h[k][c] == 0;
        assert Fresh(g, k, c);
      }
    }
    assert Fresh(g, r, c);
  }

  /** The search from the first cell succeeding is a solved board (sudoku.py:34-35). */
  lemma CompletesFromStart(g0: Grid, g: Grid)
    requires IsGrid(g0) && IsGrid(g)
    requires Preserves(g0, g, 0) && CompletesFrom(g0, g, 0)
    ensures Solved(g0, g)
  {
    forall i, j | 0 <= i < N && 0 <= j < N
      ensures 1 <= g[i][j] <= 9
    {
      assert IsRow(g[i]);
      assert 0 <= Pos(i, j);
    }
  }

  /** Cell (i, j) of `g` differs from every other cell of its 3 x 3 box. */
  predicate BoxFresh(g: Grid, i: int, j: int)
    requires IsGrid(g) && 0 <= i < N && 0 <= j < N
  {
    var start := FindStartPos(i, j);
    forall a, b ::
      start.0 <= a < start.0 + BoxLen && start.1 <= b < start.1 + BoxLen && (a != i || b != j) ==>
        g[a][b] != g[i][j]
  }

  /** `s` solves the puzzle `g0`: every cell holds 1..9, the clues of `g0` are
      kept, and no digit repeats in a row, a column or a box. */
  predicate ValidSolution(g0: Grid, s: Grid)
    requires IsGrid(g0) && IsGrid(s)
  {
    forall i, j :: 0 <= i < N && 0 <= j < N ==>
      1 <= s[i][j] <= 9 && (g0[i][j] != 0 ==> s[i][j] == g0[i][j]) &&
      Fresh(s, i, j) && BoxFresh(s, i, j)
  }

  /** A solution's digit at an empty cell passes the candidate check and, written
      in, leaves a board the solution still solves: the search trying that digit
      (sudoku.py:62-65) cannot lose the solution. */
  lemma SolutionFits(g: Grid, s: Grid, r: int, c: int)
    requires IsGrid(g) && IsGrid(s) && 0 <= r < N && 0 <= c < N
    requires g[r][c] == 0 && ValidSolution(g, s)
    ensures 1 <= s[r][c] <= 9
    ensures Candidate(g, r, c, s[r][c])
    ensures ValidSolution(Put(g, r, c, s[r][c]), s)
  {
    SolutionPassesCheck(g, s, r, c);
  }

  /** A solution's digit at an empty cell is in none of the places the candidate
      check scans, because every clue there is a different cell of the solution. */
  lemma {:induction false} SolutionPassesCheck(g: Grid, s: Grid, r: int, c: int)
    requires IsGrid(g) && IsGrid(s) && 0 <= r < N && 0 <= c < N
    requires g[r][c] == 0 && ValidSolution(g, s)
    ensures Candidate(g, r, c, s[r][c])
  {
    var d := s[r][c];
    assert 1 <= d <= 9 && Fresh(s, r, c) && BoxFresh(s, r, c);
    assert !(exists j :: 0 <= j < N && g[r][j] == d) by {
      forall j | 0 <= j < N
        ensures g[r][j] != d
      {
        if j != c && g[r][j] != 0 {
          assert s[r][j] == g[r][j];
        }
      }
    }
    assert !(exists i :: 0 <= i < N && i != r && g[i][c] == d) by {
      forall i | 0 <= i < N && i != r
        ensures g[i][c] != d
      {
        if g[i][c] != 0 {
          assert s[i][c] == g[i][c];
        }
      }
    }
    var start := FindStartPos(r, c);
    assert !(exists i, j :: start.0 <= i < start.0 + BoxLen && start.1 <= j < start.1 + 2 && g[i][j] == d) by {
      forall i, j | start.0 <= i < start.0 + BoxLen && start.1 <= j < start.1 + 2
        ensures g[i][j] != d
      {
        if g[i][j] != 0 && (i != r || j != c) {
          assert s[i][j] == g[i][j];
        }
      }
    }
  }

  /** Trying digit `d` at the empty cell (r, c) and failing rules `d` out for every
      solution: either the candidate check rejected it, and then no solution holds
      `d` there, or the search with `d` written in found no completion, and then no
      solution of the extended board exists (sudoku.py:62-67). */
  lemma DigitRuledOut(g0: Grid, r: int, c: int, d: int)
    requires IsGrid(g0) && 0 <= r < N && 0 <= c < N && 1 <= d <= 9 && g0[r][c] == 0
    requires Candidate(g0, r, c, d) ==>
               forall s :: IsGrid(s) && ValidSolution(Put(g0, r, c, d), s) ==> false
    ensures forall s :: IsGrid(s) && ValidSolution(g0, s) ==> s[r][c] != d
  {
    forall s | IsGrid(s) && ValidSolution(g0, s)
      ensures s[r][c] != d
    {
      SolutionFits(g0, s, r, c);
    }
  }

  /** No two clues of `g0` in one row, nor two in one column, hold the same digit. */
  predicate CluesConsistent(g0: Grid)
    requires IsGrid(g0)
  {
    (forall i, j, k :: 0 <= i < N && 0 <= j < N && 0 <= k < N && j != k && g0[i][j] != 0 ==>
       g0[i][k] != g0[i][j]) &&
    (forall i, k, j :: 0 <= i < N && 0 <= k < N && 0 <= j < N && i != k && g0[i][j] != 0 ==>
       g0[k][j] != g0[i][j])
  }

  /** Column `j` of `g` as a row. */
  function Column(g: Grid, j: int): (col: seq<int>)
    requires IsGrid(g) && 0 <= j < N
    ensures |col| == N
    ensures forall i :: 0 <= i < N ==> col[i] == g[i][j]
  {
    seq(N, i requires 0 <= i < N => g[i][j])
  }

  /** Every digit 1..9 occurs in `s`. */
  predicate HasAllDigits(s: seq<int>)
  {
    forall d :: 1 <= d <= 9 ==> d in s
  }

  /** Pairwise distinct entries. */
  predicate Distinct(s: seq<int>)
  {
    forall j, k :: 0 <= j < |s| && 0 <= k < |s| && j != k ==> s[j] != s[k]
  }

  lemma {:induction false} DistinctCard(s: seq<int>)
    requires Distinct(s)
    ensures |set x | x in s| == |s|
  {
    if s != [] {
      var t := s[1..];
      assert Distinct(t) by {
        forall j, k | 0 <= j < |t| && 0 <= k < |t| && j != k
          ensures t[j] != t[k]
        {
          assert t[j] == s[j + 1] && t[k] == s[k + 1];
        }
      }
      DistinctCard(t);
      assert (set x | x in s) == {s[0]} + (set x | x in t);
      assert s[0] !in (set x | x in t) by {
        forall k | 0 <= k < |t|
          ensures t[k] != s[0]
        {
          assert t[k] == s[k + 1];
        }
      }
    }
  }

  lemma SubsetCard(a: set<int>, b: set<int>)
    requires a <= b
    ensures |a| <= |b|
  {
    assert b == a + (b - a);
    assert a !! (b - a);
  }

  /** The digits a cell can be filled with. */
  const Digits: set<int> := {1, 2, 3, 4, 5, 6, 7, 8, 9}

  /** The digits without `d` are eight values. */
  lemma DigitsWithout(d: int)
    requires 1 <= d <= 9
    ensures |Digits - {d}| == 8
  {
    assert |Digits| == 9;
    assert Digits == (Digits - {d}) + {d};
    assert (Digits - {d}) !! {d};
  }

  /** Nine distinct digits from 1..9 are all of them. */
  lemma DistinctDigitsComplete(s: seq<int>)
    requires |s| == N && Distinct(s)
    requires forall k :: 0 <= k < |s| ==> 1 <= s[k] <= 9
    ensures HasAllDigits(s)
  {
    var values := set x | x in s;
    DistinctCard(s);
    forall d | 1 <= d <= 9
      ensures d in s
    {
      if d !in s {
        var others := Digits - {d};
        assert values <= others;
        DigitsWithout(d);
        SubsetCard(values, others);
      }
    }
  }

  /** If the clues are consistent, a solved board has every digit in every row
      and every column. (Boxes are not covered: the candidate check only looks
      at two of a box's three columns.) */
  lemma SolvedRowsAndColumnsComplete(g0: Grid, g: Grid)
    requires IsGrid(g0) && IsGrid(g)
    requires Solved(g0, g) && CluesConsistent(g0)
    ensures forall i :: 0 <= i < N ==> HasAllDigits(g[i])
    ensures forall j :: 0 <= j < N ==> HasAllDigits(Column(g, j))
  {
    forall i | 0 <= i < N
      ensures HasAllDigits(g[i])
    {
      forall j, k | 0 <= j < N && 0 <= k < N && j != k
        ensures g[i][j] != g[i][k]
      {
        if g0[i][j] == 0 {
          assert Fresh(g, i, j);
        } else if g0[i][k] == 0 {
          assert Fresh(g, i, k);
        }
      }
      DistinctDigitsComplete(g[i]);
    }
    forall j | 0 <= j < N
      ensures HasAllDigits(Column(g, j))
    {
      var col := Column(g, j);
      forall a, b | 0 <= a < N && 0 <= b < N && a != b
        ensures col[a] != col[b]
      {
        if g0[a][j] == 0 {
          assert Fresh(g, a, j);
        } else if g0[b][j] == 0 {
          assert Fresh(g, b, j);
        }
      }
      DistinctDigitsComplete(col);
    }
  }
}
