/**
  The sheet written for the final table, as the text of its cells
  (`str(cell.value)`), and the column widths the formatting pass computes.
 */
module Grid {
  import opened Strings
  import opened Summary

  const Header: seq<string> := ["Name", "Violations", "Violations Count"]

  const NumColumns: nat := 3

  /** The written cells: the header row, then one row per summary row, the count written in decimal. */
  function Render(lines: seq<SummaryRow>): (grid: seq<seq<string>>)
    ensures |grid| == |lines| + 1 && grid[0] == Header
    ensures forall i :: 0 <= i < |grid| ==> |grid[i]| == NumColumns
    ensures forall i :: 0 <= i < |lines| ==>
      grid[i + 1][0] == lines[i].name && grid[i + 1][1] == lines[i].violations &&
      grid[i + 1][2] == NatStr(lines[i].count) && ParseNat(grid[i + 1][2]) == lines[i].count
  {
    var body := seq(|lines|, i requires 0 <= i < |lines| => [lines[i].name, lines[i].violations, NatStr(lines[i].count)]);
    forall i | 0 <= i < |lines| ensures ParseNat(body[i][2]) == lines[i].count {
      ParseNatStr(lines[i].count);
    }
    [Header] + body
  }

  /** The names in the rendered data rows are exactly the names of the summary rows. */
  lemma RenderNames(lines: seq<SummaryRow>, n: string)
    ensures (exists i :: 0 < i < |Render(lines)| && Render(lines)[i][0] == n) <==>
      exists i :: 0 <= i < |lines| && lines[i].name == n
  {
    var grid := Render(lines);
    if exists i :: 0 < i < |grid| && grid[i][0] == n {
      var i :| 0 < i < |grid| && grid[i][0] == n;
      assert lines[i - 1].name == n;
    }
    if exists i :: 0 <= i < |lines| && lines[i].name == n {
      var i :| 0 <= i < |lines| && lines[i].name == n;
      assert grid[i + 1][0] == n;
    }
  }

  /** Every row has a cell in column `j`. */
  predicate HasColumn(grid: seq<seq<string>>, j: nat)
  {
    forall i :: 0 <= i < |grid| ==> j < |grid[i]|
  }

  function Column(grid: seq<seq<string>>, j: nat): (cells: seq<string>)
    requires HasColumn(grid, j)
    ensures |cells| == |grid| && forall i :: 0 <= i < |grid| ==> cells[i] == grid[i][j]
  {
    seq(|grid|, i requires 0 <= i < |grid| => grid[i][j])
  }

  /** The length of the longest text among `cells`, 0 when there are none. */
  function Longest(cells: seq<string>): (m: nat)
    ensures forall i :: 0 <= i < |cells| ==> |cells[i]| <= m
    ensures |cells| == 0 ==> m == 0
    ensures |cells| > 0 ==> exists i :: 0 <= i < |cells| && |cells[i]| == m
  {
    if |cells| == 0 then 0
    else
      var rest := Longest(cells[1..]);
      if |cells[0]| >= rest then |cells[0]| else rest
  }

  /** `(max_length + 2) * 1.1`, as an exact rational. */
  function ColumnWidth(m: nat): real
  {
    (m + 2) as real * 1.1
  }

  /** The width the formatting pass gives column `j`. */
  function Width(grid: seq<seq<string>>, j: nat): real
    requires HasColumn(grid, j)
  {
    ColumnWidth(Longest(Column(grid, j)))
  }

  /** A column is at least wide enough for its header, and for every other cell in it. */
  lemma WidthFitsCells(grid: seq<seq<string>>, j: nat, i: nat)
    requires HasColumn(grid, j) && i < |grid|
    ensures Width(grid, j) >= ColumnWidth(|grid[i][j]|)
  {
    assert Column(grid, j)[i] == grid[i][j];
  }

  /** Some cell of a non-empty column sets its width exactly. */
  lemma WidthAttained(grid: seq<seq<string>>, j: nat)
    requires HasColumn(grid, j) && |grid| > 0
    ensures exists i :: 0 <= i < |grid| && Width(grid, j) == ColumnWidth(|grid[i][j]|)
  {
    var cells := Column(grid, j);
    var i :| 0 <= i < |cells| && |cells[i]| == Longest(cells);
    assert cells[i] == grid[i][j];
  }

  /** A longer longest cell never gives a narrower column. */
  lemma WidthMonotone(g1: seq<seq<string>>, g2: seq<seq<string>>, j: nat)
    requires HasColumn(g1, j) && HasColumn(g2, j)
    requires Longest(Column(g1, j)) <= Longest(Column(g2, j))
    ensures Width(g1, j) <= Width(g2, j)
  {
  }

  /** Adding rows to the sheet never narrows a column. */
  lemma {:induction false} WidthGrows(grid: seq<seq<string>>, more: seq<seq<string>>, j: nat)
    requires HasColumn(grid, j) && HasColumn(more, j)
    ensures HasColumn(grid + more, j) && Width(grid, j) <= Width(grid + more, j)
  {
    var all := grid + more;
    assert HasColumn(all, j);
    if |grid| > 0 {
      var cells := Column(grid, j);
      var i :| 0 <= i < |cells| && |cells[i]| == Longest(cells);
      assert Column(all, j)[i] == cells[i];
    }
  }
}
