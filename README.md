# Driver report grid

A Dafny model of the upload handler in a small Flask application. The handler
takes a spreadsheet from a driver-safety system's Driver Report export and
turns it into a per-driver violations grid.

- **Filename gate.** Only a name ending in `.xlsx` is accepted.
- **Schema check.** The sheet must have a `Name` column and the 11 violation
  category columns.
- **Row filter.** Rows with no positive category count are dropped.
- **Grouping.** The remaining rows are grouped by driver name. Names come out
  ascending, because pandas sorts group keys by default. Each category's
  total is the sum of that driver's counts that are at least 1.
- **Derived columns.** Each driver gets two derived columns:
  - a `Violations` text, `"<Category> (<total>)"` for each category with a
    total of at least 1, joined by `", "` in category order;
  - a `Violations Count`, the sum of the positive totals.
- **Output.** The grid `Name, Violations, Violations Count` is written to a
  file named after the upload, with every `.xlsx` in the name replaced by
  `_grid.xlsx`. Then:
  - every cell is centred and given a thin border;
  - the header cells A1:C1 get a solid `B8CCE4` fill;
  - each column's width becomes `(longest text + 2) * 1.1`.

## Module layout

| file | module | contents |
|---|---|---|
| `wrappers.dfy` | `Wrappers` | `Option` and `Result` |
| `seqs.dfy` | `Seqs` | first-occurrence search, mapping, boolean-mask selection, and the permutation facts used by the order-independence lemmas |
| `strings.dfy` | `Strings` | suffix test, replace-all, join/split, decimal text, code-point order |
| `filename.dfy` | `Filename` | the `.xlsx` gate and the output name |
| `schema.dfy` | `Schema` | category list, the sheet as cells, the column check, reading the rows |
| `aggregation.dfy` | `Aggregation` | row filter, sorted group-by, per-driver totals |
| `violations.dfy` | `Violations` | the `Violations` text with a decoder, and `Violations Count` |
| `summary.dfy` | `Summary` | the projected final table |
| `grid.dfy` | `Grid` | cell text of the written sheet, and column widths |
| `worksheet.dfy` | `Styling` | the in-place styling pass, as a class over a 2-D style array |
| `upload.dfy` | `Upload` | the whole handler |

The aggregation stages are pure pandas expressions, so they are modelled as
functions. Each is paired with a reference definition or an inverse:
- `TotalsOf` is the reference definition of the sums;
- `Decode` reads the `Violations` text back;
- `DriverSum` is an independent definition of the count.

The styling stage assigns cell attributes in nested loops. It is modelled as
methods with loop invariants on a `Worksheet` object.

Drivers come out in ascending name order, not in order of first appearance,
because `groupby('Name')` sorts its keys by default.

## Model

| member | source | states |
|---|---|---|
| Strings.ReplaceAllAtEnd | app.py:130 | replacing every occurrence of a pattern that has no border (such as `.xlsx`) in a string that ends with it gives a string that ends with the replacement and is longer by the growth of one replacement at least |
| Filename.AcceptedOutputName | app.py:130 | for an accepted name, the output name ends with `_grid.xlsx`, is at least 5 characters longer, and so never equals the uploaded name |
| Seqs.IndexOf | app.py:102-117 | the index is within the sequence exactly when the value occurs in it; it is then the position of its first occurrence (used to find the `df['Name']` and `df['<category>']` columns the filter and grouping read, and by the `Violations` decoder) |
| Schema.CategoryColumns | app.py:83-86 | there is one index per category; when all required columns are present, each index points at the column with that category's name |
| Aggregation.ReadRecordSurvives | app.py:102 | a readable row passes the filter exactly when one of its category cells holds a strictly positive number, so a blank (NaN) cell never keeps a row |
| Schema.ReadRows | app.py:102-117 | the sheet can be read exactly when every row can, and then the records are exactly the rows' readings, in order |
| Schema.ReadRowsPermutation | app.py:102-117 | whether a sheet can be read, and the multiset of records it yields, do not depend on row order |
| Aggregation.Filter | app.py:102 | a record is kept exactly when it is in the input and some category count is strictly positive; the filter never adds rows |
| Aggregation.FilterMultiplicity | app.py:102 | each surviving record is kept exactly as many times as it occurs in the input, and no other record is kept |
| Aggregation.FilterAppend | app.py:102 | the filter keeps rows in input order: filtering a concatenation filters each part |
| Aggregation.TotalsOf | app.py:106-116 | every per-category total of a driver is non-negative |
| Aggregation.GroupByNameCorrect | app.py:105-117 | grouping gives strictly ascending names, exactly one group per name that occurs, each with that name's reference totals |
| Aggregation.FilterKeepsTotals | app.py:102-117 | dropping the filtered-out rows leaves every driver's totals unchanged |
| Aggregation.Aggregate | app.py:102-117 | the aggregated rows are strictly ascending by name; a name has a row exactly when some row of that driver survives the filter; each row's totals are the sums of that driver's counts that are at least 1, over all the driver's input rows |
| Aggregation.AggregateHasViolation | app.py:102-117 | every aggregated driver has a category total of at least 1 |
| Aggregation.TotalsOfPermutation | app.py:106-116 | a driver's totals do not depend on row order |
| Aggregation.AggregatePermutation | app.py:105-117 | the aggregated table does not depend on row order |
| Violations.ListedIffAtLeastOne | app.py:120 | a category is listed in the `Violations` items exactly when its total is at least 1, and it is listed with that total |
| Violations.EntriesInCategoryOrder | app.py:120 | the items are in category order (the column order of app.py:106-116), strictly |
| Violations.DecodeViolationsText | app.py:120 | the `Violations` text of non-negative totals parses back into exactly those totals: `Decode(ViolationsText(t)) == Some(t)` |
| Violations.CountIsListedSum | app.py:120-124 | `Violations Count` equals the sum of the numbers the `Violations` text lists |
| Violations.CountAtLeastEachTotal | app.py:124 | `Violations Count` is at least every category total, so it is at least 1 when any total is |
| Summary.CountIsDriverSum | app.py:105-124 | a driver's `Violations Count` equals the sum, over all that driver's rows and categories, of the counts that are at least 1 |
| Summary.SummaryRowCorrect | app.py:102-127 | each final row's name comes before every later row's name; the driver has a surviving row; its `Violations` text decodes to the driver's totals; its count is the driver's sum, at least 1 |
| Summary.SummaryNames | app.py:102-127 | the final table names exactly the drivers that have a row surviving the filter |
| Grid.Render | app.py:127-132 | the written sheet has the header `Name, Violations, Violations Count` followed by one three-cell row per final row: its name, its `Violations` text, and its count as `str(count)`: decimal digits without a leading zero (`NatStr`), which parse back to the count |
| Strings.NatStr | app.py:159 | `str(n)` of a non-negative count: at least one decimal digit, a single digit exactly when `n < 10`, and a leading `0` only for 0 |
| Strings.ParseNatStr | app.py:159 | the decimal text of a count reads back as that count |
| Grid.RenderNames | app.py:127-132 | the names in the written data rows are exactly the names of the final table |
| Grid.Longest | app.py:156-159 | the running maximum is at least every cell's length, is attained by some cell, and is 0 for an empty column |
| Grid.WidthFitsCells | app.py:155-161 | each column's width is at least `(len + 2) * 1.1` for every cell in it, the header included |
| Grid.WidthAttained | app.py:155-161 | a non-empty column's width is exactly `(len + 2) * 1.1` for one of its cells |
| Grid.WidthMonotone | app.py:160 | the width is monotone in the longest cell length |
| Grid.WidthGrows | app.py:155-161 | adding rows to the sheet never narrows a column |
| Styling.Worksheet.constructor | app.py:131-136 | the written sheet holds the grid's cell texts, the header row in the header style and the body in the body style, with no widths set |
| Styling.Worksheet.CenterAll | app.py:139-141 | afterwards every cell's alignment is centre/centre and its fill and border are as before |
| Styling.Worksheet.FillHeader | app.py:144-146 | afterwards exactly the cells A1:C1 have the solid `B8CCE4` fill and no other attribute of any cell has changed |
| Styling.Worksheet.BorderAll | app.py:149-152 | afterwards every cell has a thin border on all four sides and its alignment and fill are as before |
| Styling.Worksheet.LongestInColumn | app.py:156-159 | the loop's `max_length` is at least the text length of every cell of the column, is attained by one of them, and equals `Longest` of the column |
| Styling.Worksheet.AdjustWidths | app.py:155-161 | afterwards each of the three columns has width `(longest + 2) * 1.1` |
| Styling.Worksheet.Format | app.py:139-161 | after the whole pass every cell is centred with a thin border, the header cells have the `B8CCE4` fill, every data cell keeps its fill, and each column has its computed width |
| Upload.Process | app.py:47-130 | the distinct outcomes: rejected exactly when the name does not end with `.xlsx`; otherwise unparseable exactly when the reader failed; otherwise missing columns exactly when a required column is absent; otherwise a cell type error exactly when a row cannot be read; on success the output name ends with `_grid.xlsx` and differs from the input, and the grid is the three-column header plus three-cell rows |
| Upload.ProcessRows | app.py:102-127 | each data row of a successful upload names a driver with a surviving row, comes before every later row in name order, has a `Violations` text that decodes to the driver's totals, and has a count equal to the driver's sum, at least 1 |
| Upload.ProcessNames | app.py:102-127 | a successful upload's data rows name exactly the drivers that have a row surviving the filter |
| Upload.ProcessIgnoresRowOrder | app.py:102-127 | reordering the sheet's data rows does not change the outcome |
| Filename.Accepted | app.py:47 | definition: the name ends with `.xlsx`, case-sensitive; see `Upload.Process` and `Filename.AcceptedOutputName` |
| Filename.OutputName | app.py:130 | definition: `Strings.ReplaceAll` of `.xlsx` by `_grid.xlsx`; see `Filename.AcceptedOutputName` |
| Strings.ReplaceAll | app.py:130 | definition: Python's `str.replace`, every non-overlapping occurrence left to right; see `Strings.ReplaceAllAtEnd` |
| Schema.HasColumns | app.py:83-86 | definition: all 12 required names are columns; see `Upload.Process` (missing columns exactly when it fails) |
| Schema.ReadRecord | app.py:102-117 | definition of reading one row; see `Schema.ReadRows` and `Aggregation.ReadRecordSurvives` |
| Aggregation.Survives | app.py:102 | definition of the filter mask; see `Aggregation.Filter` and `Aggregation.ReadRecordSurvives` |
| Aggregation.GroupByName | app.py:105-117 | definition: sorted insertion of each named row into its group; see `Aggregation.GroupByNameCorrect` and `Aggregation.Aggregate` |
| Violations.ViolationsText | app.py:120 | definition of the `Violations` text; see `Violations.DecodeViolationsText`, `Violations.ListedIffAtLeastOne` and `Violations.EntriesInCategoryOrder` |
| Violations.ViolationsCount | app.py:124 | definition of `Violations Count`; see `Violations.CountIsListedSum`, `Violations.CountAtLeastEachTotal` and `Summary.CountIsDriverSum` |
| Summary.Summarize | app.py:119-127 | definition of the projected final table; see `Summary.SummaryRowCorrect` and `Summary.SummaryNames` |
| Grid.ColumnWidth | app.py:160 | definition: `(m + 2) * 1.1` as an exact rational; see `Grid.WidthMonotone` |
| Grid.Width | app.py:155-161 | definition: the column width from its longest cell; see `Grid.WidthFitsCells`, `Grid.WidthAttained`, `Grid.WidthGrows` and `Styling.Worksheet.AdjustWidths` |
| Upload.Upload | app.py:47-161 | it fails exactly as `Process` does; on success it returns the output name and a new sheet holding `Process`'s grid, every cell centred with a thin border, the header filled, each column at its computed width |

## Left out

- Flask routing, the HTML pages, `index()`, `download()`, saving the upload and serving the result are left out. They are network and file I/O.
- `secure_filename` is not modelled. It is a library call, so the model's filename is the already-sanitised name.
- `pd.read_excel` is modelled as the input `parsed`. This is either the parsed table or `None` when the reader raised. The Excel parser itself is not modelled.
- `ExcelWriter`, `to_excel` and `writer.close()` are left out as file writing. What they write is the grid's cell texts and the sheet's styles.
- Cell values are integers or blank. Fractional values are not modelled. A blank (NaN) count cell is treated as 0, since NaN fails both `> 0` and `>= 1`.
- Float formatting is not modelled; the model writes integer decimal text. A blank in a category column makes pandas hold that column's totals as floats, written as `2.0`. Because `apply(axis=1)` at app.py:124 upcasts each row, it can also make every `Violations Count` a float such as `3.0`. Both change the cell texts that `str(cell.value)` measures for the widths at app.py:159.
- Schema.ReadRecord: a number in the `Name` cell is modelled as a cell type error for the whole upload. pandas may instead sort mixed-type keys or raise a different error depending on the other names, so the model is stricter in that case.
- Upload.Process: when no row survives the filter, the model produces a header-only grid. What pandas does for `apply` on an empty frame is library behaviour and is not modelled.
- Text in a category cell is modelled as the cell type error that the comparison at app.py:102 raises. The handler does not catch it.
- Styling.Worksheet.constructor: the writer's own header font and border are parameters, `headerStyle` and `bodyStyle`. Only the attributes the pass sets are pinned down.
- The development server call and the fixed output path are left out. Concurrent uploads of the same name overwrite each other's output, which is a process concern.
- Counts are unbounded integers. pandas holds them as 64-bit integers, whose sums at app.py:106-116 would wrap past 2^63; integer width is not modelled.
- Grid.ColumnWidth: the width is the exact rational `(m + 2) * 11/10`. IEEE rounding of `* 1.1` is not modelled.
- Strings.Less: name order is code-point lexicographic order, which is how Python compares strings. Locale collation is not modelled.
