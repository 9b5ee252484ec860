/** The upload's filename gate and the name of the grid workbook written for it. */
module Filename {
  import opened Strings

  const Extension: string := ".xlsx"
  const GridSuffix: string := "_grid.xlsx"

  /** Only names that end with `.xlsx` (case-sensitive) are processed. */
  predicate Accepted(filename: string)
  {
    EndsWith(filename, Extension)
  }

  /** The output workbook's name: every `.xlsx` in the upload's name becomes `_grid.xlsx`. */
  function OutputName(filename: string): string
  {
    ReplaceAll(filename, Extension, GridSuffix)
  }

  lemma ExtensionUnbordered()
    ensures Unbordered(Extension)
  {
    var p := Extension;
    forall b | 0 < b < |p| ensures p[..b] != p[|p| - b..] {
      assert p[..b][0] == '.';
      assert p[|p| - b..][0] == p[|p| - b];
    }
  }

  /**
    An accepted name's output name ends with `_grid.xlsx`, and it is longer than
    the upload's name, so the grid never overwrites the uploaded file.
   */
  lemma AcceptedOutputName(filename: string)
    requires Accepted(filename)
    ensures EndsWith(OutputName(filename), GridSuffix)
    ensures |OutputName(filename)| >= |filename| + |GridSuffix| - |Extension|
    ensures OutputName(filename) != filename
  {
    ExtensionUnbordered();
    ReplaceAllAtEnd(filename, Extension, GridSuffix);
  }
}
