/**
  The formatting pass over the written sheet: every cell centred and given a
  thin border, the header cells A1:C1 filled, and each column sized to its
  longest text. The cell styles are updated in place, as openpyxl does.
 */
module Styling {
  import opened Grid

  datatype Alignment = Alignment(horizontal: string, vertical: string)

  datatype Fill = NoFill | PatternFill(fillType: string, fgColor: string)

  datatype Side = NoLine | Line(style: string)

  datatype Border = Border(left: Side, right: Side, top: Side, bottom: Side)

  /** The style attributes of a cell that the formatting pass sets. */
  datatype CellStyle = CellStyle(alignment: Alignment, fill: Fill, border: Border)

  const Centered: Alignment := Alignment("center", "center")

  const HeaderFill: Fill := PatternFill("solid", "B8CCE4")

  const ThinBorder: Border := Border(Line("thin"), Line("thin"), Line("thin"), Line("thin"))

  /** The cells A1:C1: the first three cells of the first row. */
  const HeaderCells: nat := 3

  /** A sheet as the writer leaves it: the text of each cell, fixed; the style of each cell and the width of each column, updatable. */
  class Worksheet {
    /** `str(cell.value)` for every written cell, row by row. */
    const values: seq<seq<string>>
    const style: array2<CellStyle>
    /** `column_dimensions[letter].width`, one per column. */
    const widths: array<real>

    ghost predicate Valid()
    {
      && |values| == style.Length0 >= 1
      && style.Length1 == widths.Length == NumColumns
      && forall i :: 0 <= i < |values| ==> |values[i]| == NumColumns
    }

    /** The sheet the writer produces: the header row in `headerStyle`, the data rows in `bodyStyle`, no widths set yet. */
    constructor (grid: seq<seq<string>>, headerStyle: CellStyle, bodyStyle: CellStyle)
      requires |grid| >= 1 && forall i :: 0 <= i < |grid| ==> |grid[i]| == NumColumns
      ensures Valid() && fresh(style) && fresh(widths)
      ensures values == grid
      ensures forall i, j :: 0 <= i < style.Length0 && 0 <= j < style.Length1 ==>
        style[i, j] == if i == 0 then headerStyle else bodyStyle
      ensures forall j :: 0 <= j < widths.Length ==> widths[j] == 0.0
    {
      values := grid;
      style := new CellStyle[|grid|, NumColumns]((i, j) => if i == 0 then headerStyle else bodyStyle);
      widths := new real[NumColumns](_ => 0.0);
    }

    /** Sets every cell's alignment to centre/centre and leaves the rest of its style alone. */
    method CenterAll()
      requires Valid()
      ensures Valid()
      modifies style
      ensures forall i, j :: 0 <= i < style.Length0 && 0 <= j < style.Length1 ==>
        style[i, j] == old(style[i, j]).(alignment := Centered)
    {
      var i := 0;
      while i < style.Length0
        invariant 0 <= i <= style.Length0
        invariant forall r, c :: 0 <= r < i && 0 <= c < style.Length1 ==>
          style[r, c] == old(style[r, c]).(alignment := Centered)
        invariant forall r, c :: i <= r < style.Length0 && 0 <= c < style.Length1 ==> style[r, c] == old(style[r, c])
      {
        var j := 0;
        while j < style.Length1
          invariant 0 <= j <= style.Length1
          invariant forall r, c :: 0 <= r < i && 0 <= c < style.Length1 ==>
            style[r, c] == old(style[r, c]).(alignment := Centered)
          invariant forall c :: 0 <= c < j ==> style[i, c] == old(style[i, c]).(alignment := Centered)
          invariant forall c :: j <= c < style.Length1 ==> style[i, c] == old(style[i, c])
          invariant forall r, c :: i < r < style.Length0 && 0 <= c < style.Length1 ==> style[r, c] == old(style[r, c])
        {
          style[i, j] := style[i, j].(alignment := Centered);
          j := j + 1;
        }
        i := i + 1;
      }
    }

    /** Gives A1:C1 the solid `B8CCE4` fill; no other cell changes. */
    method FillHeader()
      requires Valid()
      ensures Valid()
      modifies style
      ensures forall i, j :: 0 <= i < style.Length0 && 0 <= j < style.Length1 ==>
        style[i, j] == if i == 0 && j < HeaderCells then old(style[i, j]).(fill := HeaderFill) else old(style[i, j])
    {
      for j := 0 to HeaderCells
        invariant forall i, c :: 0 <= i < style.Length0 && 0 <= c < style.Length1 ==>
          style[i, c] == if i == 0 && c < j then old(style[i, c]).(fill := HeaderFill) else old(style[i, c])
      {
        style[0, j] := style[0, j].(fill := HeaderFill);
      }
    }

    /** Gives every cell a thin border on all four sides and leaves the rest of its style alone. */
    method BorderAll()
      requires Valid()
      ensures Valid()
      modifies style
      ensures forall i, j :: 0 <= i < style.Length0 && 0 <= j < style.Length1 ==>
        style[i, j] == old(style[i, j]).(border := ThinBorder)
    {
      var i := 0;
      while i < style.Length0
        invariant 0 <= i <= style.Length0
        invariant forall r, c :: 0 <= r < i && 0 <= c < style.Length1 ==>
          style[r, c] == old(style[r, c]).(border := ThinBorder)
        invariant forall r, c :: i <= r < style.Length0 && 0 <= c < style.Length1 ==> style[r, c] == old(style[r, c])
      {
        var j := 0;
        while j < style.Length1
          invariant 0 <= j <= style.Length1
          invariant forall r, c :: 0 <= r < i && 0 <= c < style.Length1 ==>
            style[r, c] == old(style[r, c]).(border := ThinBorder)
          invariant forall c :: 0 <= c < j ==> style[i, c] == old(style[i, c]).(border := ThinBorder)
          invariant forall c :: j <= c < style.Length1 ==> style[i, c] == old(style[i, c])
          invariant forall r, c :: i < r < style.Length0 && 0 <= c < style.Length1 ==> style[r, c] == old(style[r, c])
        {
          style[i, j] := style[i, j].(border := ThinBorder);
          j := j + 1;
        }
        i := i + 1;
      }
    }

    /** The running maximum of the text lengths down column `j`, header included. */
    method LongestInColumn(j: nat) returns (m: nat)
      requires Valid() && j < NumColumns
      ensures forall i :: 0 <= i < |values| ==> |values[i][j]| <= m
      ensures exists i :: 0 <= i < |values| && |values[i][j]| == m
      ensures m == Longest(Column(values, j))
    {
      m := 0;
      for i := 0 to |values|
        invariant forall r :: 0 <= r < i ==> |values[r][j]| <= m
        invariant i == 0 ==> m == 0
        invariant i > 0 ==> exists r :: 0 <= r < i && |values[r][j]| == m
      {
        if |values[i][j]| > m {
          m := |values[i][j]|;
        }
      }
      var cells := Column(values, j);
      var r :| 0 <= r < |cells| && |cells[r]| == Longest(cells);
      var s :| 0 <= s < |values| && |values[s][j]| == m;
      assert cells[s] == values[s][j] && cells[r] == values[r][j];
    }

    /** Sets each column's width to `(longest + 2) * 1.1`. */
    method AdjustWidths()
      requires Valid()
      ensures Valid()
      modifies widths
      ensures forall j :: 0 <= j < NumColumns ==> widths[j] == Width(values, j)
    {
      for j := 0 to NumColumns
        invariant forall c :: 0 <= c < j ==> widths[c] == Width(values, c)
      {
        var m := LongestInColumn(j);
        widths[j] := ColumnWidth(m);
      }
    }

    /** The whole formatting pass, in the order the writer applies it. */
    method Format()
      requires Valid()
      ensures Valid()
      modifies style, widths
      ensures forall i, j :: 0 <= i < style.Length0 && 0 <= j < style.Length1 ==>
        style[i, j] == CellStyle(Centered, if i == 0 then HeaderFill else old(style[i, j].fill), ThinBorder)
      ensures forall j :: 0 <= j < NumColumns ==> widths[j] == Width(values, j)
    {
      CenterAll();
      FillHeader();
      BorderAll();
      AdjustWidths();
    }
  }
}
