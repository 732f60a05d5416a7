// The text `__str__` builds from a board (sudoku.py:156-167): the loop-shaped
// definition the method follows, and the fixed eleven-line layout it amounts to.

module Render {
  import opened Board

  /** The separator printed before rows 3 and 6. */
  const SepLine: string := "_ _ _ _ _ _ _ _ _ _ _\n"

  /** `str(v)` for a cell value 0..9. */
  function DigitChar(v: int): (ch: char)
    requires 0 <= v <= 9
    ensures '0' <= ch <= '9'
  {
    ('0' as int + v) as char
  }

  /** `str(v) + " "`. */
  function CellText(v: int): string
    requires 0 <= v <= 9
  {
    [DigitChar(v), ' ']
  }

  /** What column `j` of a row adds: `"| "` before columns 3 and 6, then the cell. */
  function ColumnText(r: seq<int>, j: int): string
    requires IsRow(r) && 0 <= j < N
  {
    (if j != 0 && j % 3 == 0 then "| " else "") + CellText(r[j])
  }

  /** The text of the first `j` columns of row `r` (the inner loop). */
  function RowPrefix(r: seq<int>, j: int): string
    requires IsRow(r) && 0 <= j <= N
  {
    if j == 0 then "" else RowPrefix(r, j - 1) + ColumnText(r, j - 1)
  }

  /** What row `i` adds: the separator before rows 3 and 6, then the row and a newline. */
  function RowText(g: Grid, i: int): string
    requires IsGrid(g) && 0 <= i < N
  {
    (if i != 0 && i % 3 == 0 then SepLine else "") + RowPrefix(g[i], N) + "\n"
  }

  /** The text of the first `i` rows (the outer loop). */
  function RowsPrefix(g: Grid, i: int): string
    requires IsGrid(g) && 0 <= i <= N
  {
    if i == 0 then "" else RowsPrefix(g, i - 1) + RowText(g, i - 1)
  }

  /** The whole rendering. */
  function Rendered(g: Grid): string
    requires IsGrid(g)
  {
    RowsPrefix(g, N)
  }

  /** One turn of the inner loop: the optional `"| "`, then the cell. */
  lemma RowPrefixStep(r: seq<int>, j: int, pre: string)
    requires IsRow(r) && 0 <= j < N
    ensures pre + RowPrefix(r, j + 1) ==
            (if j != 0 && j % 3 == 0 then pre + RowPrefix(r, j) + "| " else pre + RowPrefix(r, j)) +
            CellText(r[j])
  {
    var sep := if j != 0 && j % 3 == 0 then "| " else "";
    assert pre + (RowPrefix(r, j) + (sep + CellText(r[j]))) == pre + RowPrefix(r, j) + sep + CellText(r[j]);
  }

  /** One turn of the outer loop: the optional separator, the row, a newline. */
  lemma RowsPrefixSnoc(g: Grid, i: int)
    requires IsGrid(g) && 0 <= i < N
    ensures RowsPrefix(g, i + 1) ==
            (if i != 0 && i % 3 == 0 then RowsPrefix(g, i) + SepLine else RowsPrefix(g, i)) +
            RowPrefix(g[i], N) + "\n"
  {
    var sep := if i != 0 && i % 3 == 0 then SepLine else "";
    assert RowsPrefix(g, i) + (sep + RowPrefix(g[i], N) + "\n") == RowsPrefix(g, i) + sep + RowPrefix(g[i], N) + "\n";
  }

  // The layout, written out.

  /** The line of one row, without its newline: nine cells, each followed by a
      space, with `"| "` before the fourth and the seventh. */
  function RowBody(r: seq<int>): string
    requires IsRow(r)
  {
    CellText(r[0]) + CellText(r[1]) + CellText(r[2]) + "| " +
    CellText(r[3]) + CellText(r[4]) + CellText(r[5]) + "| " +
    CellText(r[6]) + CellText(r[7]) + CellText(r[8])
  }

  /** Line `k` of the eleven: the separator at 3 and 7, otherwise the next row. */
  function Line(g: Grid, k: int): string
    requires IsGrid(g) && 0 <= k < 11
  {
    if k == 3 || k == 7 then SepLine
    else RowBody(g[if k < 3 then k else if k < 7 then k - 1 else k - 2]) + "\n"
  }

  /** The eleven lines: three rows, separator, three rows, separator, three rows. */
  function Lines(g: Grid): (ls: seq<string>)
    requires IsGrid(g)
    ensures |ls| == 11
  {
    seq(11, k requires 0 <= k < 11 => Line(g, k))
  }

  /** The lines joined in order. */
  function Concat(ls: seq<string>): string
  {
    if ls == [] then "" else Concat(ls[..|ls| - 1]) + ls[|ls| - 1]
  }

  lemma {:induction false} RowPrefixIsBody(r: seq<int>)
    requires IsRow(r)
    ensures RowPrefix(r, N) == RowBody(r)
  {
    var c := seq(N, j requires 0 <= j < N => CellText(r[j]));
    assert RowPrefix(r, 1) == c[0];
    assert RowPrefix(r, 2) == c[0] + c[1];
    assert RowPrefix(r, 3) == c[0] + c[1] + c[2];
    assert RowPrefix(r, 4) == c[0] + c[1] + c[2] + "| " + c[3];
    assert RowPrefix(r, 5) == c[0] + c[1] + c[2] + "| " + c[3] + c[4];
    assert RowPrefix(r, 6) == c[0] + c[1] + c[2] + "| " + c[3] + c[4] + c[5];
    assert RowPrefix(r, 7) == c[0] + c[1] + c[2] + "| " + c[3] + c[4] + c[5] + "| " + c[6];
    assert RowPrefix(r, 8) == c[0] + c[1] + c[2] + "| " + c[3] + c[4] + c[5] + "| " + c[6] + c[7];
  }

  /** How many of the eleven lines the first `i` rows produce. */
  function LineCount(i: int): int
  {
    i + (if i >= 4 then 1 else 0) + (if i >= 7 then 1 else 0)
  }

  lemma ConcatSnoc(ls: seq<string>, k: int)
    requires 0 <= k < |ls|
    ensures Concat(ls[..k + 1]) == Concat(ls[..k]) + ls[k]
  {
    assert ls[..k + 1][..k] == ls[..k];
  }

  lemma RowTextIsLine(g: Grid, i: int)
    requires IsGrid(g) && 0 <= i < N
    ensures RowText(g, i) == (if i == 3 || i == 6 then SepLine else "") + (RowBody(g[i]) + "\n")
  {
    RowPrefixIsBody(g[i]);
    assert (i != 0 && i % 3 == 0) <==> (i == 3 || i == 6);
  }

  /** Row `i` lands on the line after the ones the rows before it produced, behind
      the separator when it is row 3 or 6. */
  lemma LineOfRow(g: Grid, i: int)
    requires IsGrid(g) && 0 <= i < N
    ensures var m := LineCount(i);
            if i == 3 || i == 6 then
              LineCount(i + 1) == m + 2 && Line(g, m) == SepLine && Line(g, m + 1) == RowBody(g[i]) + "\n"
            else
              LineCount(i + 1) == m + 1 && Line(g, m) == RowBody(g[i]) + "\n"
  {
    assert i == 0 || i == 1 || i == 2 || i == 3 || i == 4 || i == 5 || i == 6 || i == 7 || i == 8;
  }

  /** One turn of the outer loop appends the lines of the next row. */
  lemma RowsPrefixStep(g: Grid, i: int)
    requires IsGrid(g) && 0 < i <= N
    requires RowsPrefix(g, i - 1) == Concat(Lines(g)[..LineCount(i - 1)])
    ensures RowsPrefix(g, i) == Concat(Lines(g)[..LineCount(i)])
  {
    RowTextIsLine(g, i - 1);
    LineOfRow(g, i - 1);
    if i - 1 == 3 || i - 1 == 6 {
      SeparatedRowStep(g, i);
    } else {
      PlainRowStep(g, i);
    }
  }

  /** A row not preceded by a separator adds its own line alone. */
  lemma PlainRowStep(g: Grid, i: int)
    requires IsGrid(g) && 0 < i <= N
    requires LineCount(i) == LineCount(i - 1) + 1
    requires Line(g, LineCount(i - 1)) == RowBody(g[i - 1]) + "\n"
    requires RowText(g, i - 1) == "" + (RowBody(g[i - 1]) + "\n")
    requires RowsPrefix(g, i - 1) == Concat(Lines(g)[..LineCount(i - 1)])
    ensures RowsPrefix(g, i) == Concat(Lines(g)[..LineCount(i)])
  {
    var line := RowBody(g[i - 1]) + "\n";
    ConcatSnoc(Lines(g), LineCount(i - 1));
    assert "" + line == line;
  }

  /** Row 3 or 6 adds the separator line, then its own line. */
  lemma SeparatedRowStep(g: Grid, i: int)
    requires IsGrid(g) && 0 < i <= N
    requires LineCount(i) == LineCount(i - 1) + 2
    requires Line(g, LineCount(i - 1)) == SepLine
    requires Line(g, LineCount(i - 1) + 1) == RowBody(g[i - 1]) + "\n"
    requires RowText(g, i - 1) == SepLine + (RowBody(g[i - 1]) + "\n")
    requires RowsPrefix(g, i - 1) == Concat(Lines(g)[..LineCount(i - 1)])
    ensures RowsPrefix(g, i) == Concat(Lines(g)[..LineCount(i)])
  {
    var ls, m := Lines(g), LineCount(i - 1);
    var line := RowBody(g[i - 1]) + "\n";
    var before := RowsPrefix(g, i - 1);
    assert Concat(ls[..m + 1]) == before + SepLine by {
      ConcatSnoc(ls, m);
    }
    assert Concat(ls[..m + 2]) == before + SepLine + line by {
      ConcatSnoc(ls, m + 1);
    }
    assert RowsPrefix(g, i) == before + (SepLine + line);
    Assoc(before, SepLine, line);
  }

  /** Regrouping a concatenation of three strings; as a lemma of its own it keeps
      this step out of the larger proof above. */
  lemma Assoc(a: string, b: string, c: string)
    ensures a + (b + c) == a + b + c
  {
  }

  lemma {:induction false} RowsPrefixLines(g: Grid, i: int)
    requires IsGrid(g) && 0 <= i <= N
    ensures RowsPrefix(g, i) == Concat(Lines(g)[..LineCount(i)])
  {
    if i > 0 {
      RowsPrefixLines(g, i - 1);
      RowsPrefixStep(g, i);
    } else {
      assert Lines(g)[..0] == [];
    }
  }

  /** `__str__` produces exactly the eleven lines of the layout, in order. */
  lemma RenderedLayout(g: Grid)
    requires IsGrid(g)
    ensures Rendered(g) == Concat(Lines(g))
  {
    RowsPrefixLines(g, N);
    assert Lines(g)[..LineCount(N)] == Lines(g);
  }

  /** Every line ends in a newline and holds no other. */
  lemma LinesShape(g: Grid)
    requires IsGrid(g)
    ensures |Lines(g)| == 11
    ensures forall k :: 0 <= k < 11 ==>
              |Lines(g)[k]| > 0 && Lines(g)[k][|Lines(g)[k]| - 1] == '\n' &&
              '\n' !in Lines(g)[k][..|Lines(g)[k]| - 1]
  {
    var ls := Lines(g);
    forall i | 0 <= i < N
      ensures '\n' !in RowBody(g[i])
    {
      var r := g[i];
      forall j | 0 <= j < N
        ensures '\n' !in CellText(r[j])
      {
        assert CellText(r[j]) == [DigitChar(r[j]), ' '];
      }
    }
    forall k | 0 <= k < 11
      ensures |ls[k]| > 0 && ls[k][|ls[k]| - 1] == '\n' && '\n' !in ls[k][..|ls[k]| - 1]
    {
      if k == 3 || k == 7 {
        assert ls[k] == SepLine;
      } else {
        var i := if k < 3 then k else if k < 7 then k - 1 else k - 2;
        assert ls[k] == RowBody(g[i]) + "\n";
        assert ls[k][..|ls[k]| - 1] == RowBody(g[i]);
      }
    }
  }
}
