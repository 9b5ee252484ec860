/**
  The upload handler's pipeline end to end: filename gate, parsed sheet,
  schema check, reading the rows, aggregation, the final table, and the
  formatted sheet written under the output name.
 */
module Upload {
  import opened Wrappers
  import opened Seqs
  import opened Strings
  import opened Filename
  import opened Schema
  import opened Aggregation
  import opened Violations
  import opened Summary
  import opened Grid
  import opened Styling

  /**
    Why an upload produces no grid: the name does not end with `.xlsx`; the
    reader could not parse the file; a required column is missing; or a cell
    has a type the comparisons cannot handle (an unhandled error in the handler).
   */
  datatype Failure = NotXlsx | Unparseable | MissingColumns | CellTypeError

  /** What a successful upload writes: the output file's name and the text of its cells. */
  datatype Report = Report(outputName: string, grid: seq<seq<string>>)

  /**
    The handler's logic. `parsed` is what the spreadsheet reader made of the
    saved file, `None` when it raised.
   */
  function Process(filename: string, parsed: Option<Table>): (r: Result<Report, Failure>)
    ensures r == Failure(NotXlsx) <==> !Accepted(filename)
    ensures Accepted(filename) ==> (r == Failure(Unparseable) <==> parsed.None?)
    ensures Accepted(filename) && parsed.Some? ==>
      (r == Failure(MissingColumns) <==> !HasColumns(parsed.value.columns))
    ensures Accepted(filename) && parsed.Some? && HasColumns(parsed.value.columns) ==>
      (r == Failure(CellTypeError) <==> Extract(parsed.value).None?)
    ensures r.Success? ==>
      && EndsWith(r.value.outputName, GridSuffix)
      && r.value.outputName != filename
      && |r.value.grid| >= 1 && r.value.grid[0] == Header
      && forall i :: 0 <= i < |r.value.grid| ==> |r.value.grid[i]| == NumColumns
  {
    if !Accepted(filename) then Failure(NotXlsx)
    else if parsed.None? then Failure(Unparseable)
    else if !HasColumns(parsed.value.columns) then Failure(MissingColumns)
    else match Extract(parsed.value)
      case None => Failure(CellTypeError)
      case Some(records) =>
        AcceptedOutputName(filename);
        Success(Report(OutputName(filename), Render(Summarize(records))))
  }

  /**
    A successful upload's data rows are the final table of the sheet's records:
    one per driver with a violation-bearing row, names ascending, each
    `Violations` text reading back as the driver's totals and each count the
    number of the driver's violations, at least 1.
   */
  lemma ProcessRows(filename: string, t: Table, i: nat)
    requires Process(filename, Some(t)).Success?
    requires 0 < i < |Process(filename, Some(t)).value.grid|
    ensures Extract(t).Some?
    ensures var records, grid := Extract(t).value, Process(filename, Some(t)).value.grid;
      && (forall j :: i < j < |grid| ==> Less(grid[i][0], grid[j][0]))
      && (exists k :: 0 <= k < |records| && records[k].name == Some(grid[i][0]) && Survives(records[k]))
      && Decode(grid[i][1]) == Some(TotalsOf(records, grid[i][0]))
      && ParseNat(grid[i][2]) == DriverSum(records, grid[i][0]) >= 1
  {
    var records := Extract(t).value;
    var lines := Summarize(records);
    assert Process(filename, Some(t)).value.grid == Render(lines);
    SummaryRowCorrect(records, i - 1);
  }

  /** The summary covers every driver that has a violation-bearing row, and no other. */
  lemma ProcessNames(filename: string, t: Table, n: string)
    requires Process(filename, Some(t)).Success?
    ensures Extract(t).Some?
    ensures var records, grid := Extract(t).value, Process(filename, Some(t)).value.grid;
      (exists i :: 0 < i < |grid| && grid[i][0] == n) <==>
      (exists k :: 0 <= k < |records| && records[k].name == Some(n) && Survives(records[k]))
  {
    var records := Extract(t).value;
    var grid := Process(filename, Some(t)).value.grid;
    var lines := Summarize(records);
    assert grid == Render(lines);
    SummaryNames(records, n);
    RenderNames(lines, n);
  }

  /** Reordering the data rows of the sheet does not change the output. */
  lemma ProcessIgnoresRowOrder(filename: string, t1: Table, t2: Table)
    requires t1.columns == t2.columns && multiset(t1.rows) == multiset(t2.rows)
    ensures Process(filename, Some(t1)) == Process(filename, Some(t2))
  {
    var nameCol, catCols := IndexOf(t1.columns, NameColumn), CategoryColumns(t1.columns);
    ReadRowsPermutation(t1.rows, t2.rows, nameCol, catCols);
    if Extract(t1).Some? {
      AggregatePermutation(Extract(t1).value, Extract(t2).value);
    }
  }

  /**
    The handler: on success the formatted sheet, every cell centred with a thin
    border, the header row filled, each column as wide as its longest text needs.
   */
  method Upload(filename: string, parsed: Option<Table>, headerStyle: CellStyle, bodyStyle: CellStyle)
    returns (r: Result<(string, Worksheet), Failure>)
    ensures Process(filename, parsed).Failure? ==> r == Failure(Process(filename, parsed).error)
    ensures Process(filename, parsed).Success? ==> r.Success?
    ensures r.Success? ==>
      var (name, sheet) := r.value;
      && Process(filename, parsed) == Success(Report(name, sheet.values))
      && fresh(sheet.style) && fresh(sheet.widths) && sheet.Valid()
      && (forall i, j :: 0 <= i < sheet.style.Length0 && 0 <= j < sheet.style.Length1 ==>
            sheet.style[i, j] == CellStyle(Centered, if i == 0 then HeaderFill else bodyStyle.fill, ThinBorder))
      && (forall j :: 0 <= j < NumColumns ==> sheet.widths[j] == Width(sheet.values, j))
  {
    var outcome := Process(filename, parsed);
    if outcome.Failure? {
      return Failure(outcome.error);
    }
    var sheet := new Worksheet(outcome.value.grid, headerStyle, bodyStyle);
    sheet.Format();
    r := Success((outcome.value.outputName, sheet));
  }
}
