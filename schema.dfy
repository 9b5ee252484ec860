/**
  The driver report as it comes out of the spreadsheet reader: named columns
  over rows of cells, the required-column check, and how the Name and the eleven
  violation-category cells of a row are read.
 */
module Schema {
  import opened Wrappers
  import opened Seqs

  const NumCategories: nat := 11

  /** The violation categories, in the order of the required-column list (and of the aggregation). */
  const Categories: seq<string> := [
    "Following Distance", "Camera Obstruction", "U Turn", "Driver Distraction",
    "Seatbelt Compliance", "Sign Violations", "Speeding Violations",
    "Traffic Light Violation", "Hard Turn", "Hard Braking", "Hard Acceleration"]

  const NameColumn: string := "Name"

  /** The twelve columns a driver report must have. */
  const RequiredColumns: seq<string> := [NameColumn] + Categories

  type Category = c: nat | c < NumCategories

  /** One number per violation category, in category order. */
  type Tally = s: seq<int> | |s| == NumCategories witness [0, 0, 0, 0, 0, 0, 0, 0, 0, 0, 0]

  const Zeros: Tally := [0, 0, 0, 0, 0, 0, 0, 0, 0, 0, 0]

  /** A spreadsheet cell as the reader hands it over: a number, a text, or nothing (NaN). */
  datatype Cell = Num(n: int) | Text(s: string) | Blank

  /** A parsed sheet: its header names and its data rows. */
  datatype Table = Table(columns: seq<string>, rows: seq<seq<Cell>>)

  /** A data row reduced to what the pipeline uses: the driver (`None` for a blank Name cell) and the eleven counts. */
  datatype Record = Record(name: Option<string>, counts: Tally)

  /** The schema check: every required column is among the sheet's columns. */
  predicate HasColumns(columns: seq<string>)
  {
    forall k :: 0 <= k < |RequiredColumns| ==> RequiredColumns[k] in columns
  }

  /** The cell of `row` in column `k`; a short row reads as blank there. */
  function CellAt(row: seq<Cell>, k: nat): Cell
  {
    if k < |row| then row[k] else Blank
  }

  /** A category cell as a count: a blank cell is NaN, which compares and sums exactly like 0. */
  function CountValue(c: Cell): int
  {
    match c
    case Num(n) => n
    case _ => 0
  }

  /** Where each category's column is in the sheet, in category order. */
  function CategoryColumns(columns: seq<string>): (cols: seq<nat>)
    ensures |cols| == NumCategories
    ensures HasColumns(columns) ==>
      forall c :: 0 <= c < NumCategories ==> cols[c] < |columns| && columns[cols[c]] == Categories[c]
  {
    assert forall c :: 0 <= c < NumCategories ==> Categories[c] == RequiredColumns[c + 1];
    seq(NumCategories, c requires 0 <= c < NumCategories => IndexOf(columns, Categories[c]))
  }

  /**
    Reads one row. It fails (`None`) when a category cell holds text, which cannot
    be compared with a number, or when the Name cell holds a number.
   */
  function ReadRecord(row: seq<Cell>, nameCol: nat, catCols: seq<nat>): (r: Option<Record>)
    requires |catCols| == NumCategories
    ensures r.Some? <==>
      !CellAt(row, nameCol).Num? && forall c :: 0 <= c < NumCategories ==> !CellAt(row, catCols[c]).Text?
    ensures r.Some? ==>
      && r.value.name == (if CellAt(row, nameCol).Text? then Some(CellAt(row, nameCol).s) else None)
      && forall c :: 0 <= c < NumCategories ==> r.value.counts[c] == CountValue(CellAt(row, catCols[c]))
  {
    var nameCell := CellAt(row, nameCol);
    if nameCell.Num? || exists c :: 0 <= c < NumCategories && CellAt(row, catCols[c]).Text? then None
    else
      var counts := seq(NumCategories, c requires 0 <= c < NumCategories => CountValue(CellAt(row, catCols[c])));
      Some(Record(if nameCell.Text? then Some(nameCell.s) else None, counts))
  }

  function ReadRows(rows: seq<seq<Cell>>, nameCol: nat, catCols: seq<nat>): (r: Option<seq<Record>>)
    requires |catCols| == NumCategories
    ensures r.Some? <==> forall k :: 0 <= k < |rows| ==> ReadRecord(rows[k], nameCol, catCols).Some?
    ensures r.Some? ==>
      && |r.value| == |rows|
      && forall k :: 0 <= k < |rows| ==> r.value[k] == ReadRecord(rows[k], nameCol, catCols).value
  {
    if |rows| == 0 then Some([])
    else match (ReadRecord(rows[0], nameCol, catCols), ReadRows(rows[1..], nameCol, catCols))
      case (Some(first), Some(rest)) => Some([first] + rest)
      case _ => None
  }

  /** Reads every data row of the sheet; one unreadable row fails the whole sheet. */
  function Extract(t: Table): Option<seq<Record>>
  {
    ReadRows(t.rows, IndexOf(t.columns, NameColumn), CategoryColumns(t.columns))
  }

  /** Whether all rows can be read, and what they read as, does not depend on their order. */
  lemma {:induction false} ReadRowsPermutation(a: seq<seq<Cell>>, b: seq<seq<Cell>>, nameCol: nat, catCols: seq<nat>)
    requires |catCols| == NumCategories && multiset(a) == multiset(b)
    ensures ReadRows(a, nameCol, catCols).Some? <==> ReadRows(b, nameCol, catCols).Some?
    ensures ReadRows(a, nameCol, catCols).Some? ==>
      multiset(ReadRows(a, nameCol, catCols).value) == multiset(ReadRows(b, nameCol, catCols).value)
  {
    var f := (row: seq<Cell>) =>
      var r := ReadRecord(row, nameCol, catCols); if r.Some? then r.value else Record(None, Zeros);
    ReadableIn(a, b, nameCol, catCols);
    ReadableIn(b, a, nameCol, catCols);
    if ReadRows(a, nameCol, catCols).Some? {
      assert ReadRows(a, nameCol, catCols).value == Map(a, f);
      assert ReadRows(b, nameCol, catCols).value == Map(b, f);
      MapPermutation(a, b, f);
    }
  }

  /** When every row of `a` can be read, so can every row of a permutation of `a`. */
  lemma ReadableIn(a: seq<seq<Cell>>, b: seq<seq<Cell>>, nameCol: nat, catCols: seq<nat>)
    requires |catCols| == NumCategories && multiset(a) == multiset(b)
    ensures ReadRows(a, nameCol, catCols).Some? ==> ReadRows(b, nameCol, catCols).Some?
  {
    if ReadRows(a, nameCol, catCols).Some? {
      forall k | 0 <= k < |b| ensures ReadRecord(b[k], nameCol, catCols).Some? {
        assert b[k] in multiset(a);
        var j :| 0 <= j < |a| && a[j] == b[k];
      }
    }
  }
}
