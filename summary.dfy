/**
  The final table: one row per aggregated driver projected to `Name`,
  `Violations` and `Violations Count`, and its properties stated against the
  input records.
 */
module Summary {
  import opened Wrappers
  import opened Strings
  import opened Schema
  import opened Aggregation
  import opened Violations

  /** A row of the final table. */
  datatype SummaryRow = SummaryRow(name: string, violations: string, count: nat)

  function SummaryOf(g: Group): SummaryRow
  {
    SummaryRow(g.name, ViolationsText(g.totals), ViolationsCount(g.totals))
  }

  /** The aggregated table with the two derived columns, projected to the three output columns. */
  function Summarize(rows: seq<Record>): seq<SummaryRow>
  {
    var gs := Aggregate(rows);
    seq(|gs|, i requires 0 <= i < |gs| => SummaryOf(gs[i]))
  }

  /** The sum of a row's counts that are at least 1. */
  function RowSum(counts: Tally, from: nat): nat
    requires from <= NumCategories
    decreases NumCategories - from
  {
    if from == NumCategories then 0 else Pos(counts[from]) + RowSum(counts, from + 1)
  }

  /** The reference definition of a driver's number of violations: over all of `n`'s rows and all categories, the counts that are at least 1. */
  function DriverSum(rows: seq<Record>, n: string): nat
  {
    if |rows| == 0 then 0
    else
      var r := rows[|rows| - 1];
      DriverSum(rows[..|rows| - 1], n) + (if r.name == Some(n) then RowSum(r.counts, 0) else 0)
  }

  lemma {:induction false} CountAddsRow(t: Tally, counts: Tally, from: nat)
    requires from <= NumCategories
    requires forall c :: 0 <= c < NumCategories ==> t[c] >= 0
    ensures SumPositiveFrom(AddPos(t, counts), from) == SumPositiveFrom(t, from) + RowSum(counts, from)
    decreases NumCategories - from
  {
    if from < NumCategories { CountAddsRow(t, counts, from + 1); }
  }

  /** The `Violations Count` of a driver's totals counts every violation in every one of that driver's rows. */
  lemma {:induction false} CountIsDriverSum(rows: seq<Record>, n: string)
    ensures ViolationsCount(TotalsOf(rows, n)) == DriverSum(rows, n)
    decreases |rows|
  {
    if |rows| == 0 {
      assert SumPositiveFrom(Zeros, 0) == 0;
    } else {
      var prefix, r := rows[..|rows| - 1], rows[|rows| - 1];
      CountIsDriverSum(prefix, n);
      if r.name == Some(n) { CountAddsRow(TotalsOf(prefix, n), r.counts, 0); }
    }
  }

  /**
    Row `i` of the final table: names strictly ascending; its `Violations` text
    reads back as the driver's totals over all input rows; its `Violations Count`
    is the sum of all of that driver's violations, at least 1.
   */
  lemma SummaryRowCorrect(rows: seq<Record>, i: nat)
    requires i < |Summarize(rows)|
    ensures var s := Summarize(rows)[i];
      && (forall j :: i < j < |Summarize(rows)| ==> Less(s.name, Summarize(rows)[j].name))
      && (exists k :: 0 <= k < |rows| && rows[k].name == Some(s.name) && Survives(rows[k]))
      && Decode(s.violations) == Some(TotalsOf(rows, s.name))
      && s.count == DriverSum(rows, s.name) >= 1
  {
    var gs := Aggregate(rows);
    var g := gs[i];
    assert g.name in Keys(gs);
    DecodeViolationsText(g.totals);
    CountIsDriverSum(rows, g.name);
    AggregateHasViolation(rows, i);
    var c :| 0 <= c < NumCategories && g.totals[c] >= 1;
    CountAtLeastEachTotal(g.totals, c);
  }

  /** Every driver with a row that records a violation has a row in the final table; no other driver has one. */
  lemma SummaryNames(rows: seq<Record>, n: string)
    ensures (exists i :: 0 <= i < |Summarize(rows)| && Summarize(rows)[i].name == n) <==>
      exists k :: 0 <= k < |rows| && rows[k].name == Some(n) && Survives(rows[k])
  {
    var gs := Aggregate(rows);
    if n in Keys(gs) {
      var g :| g in gs && g.name == n;
      var i :| 0 <= i < |gs| && gs[i] == g;
      assert Summarize(rows)[i].name == n;
    }
    if exists i :: 0 <= i < |Summarize(rows)| && Summarize(rows)[i].name == n {
      var i :| 0 <= i < |Summarize(rows)| && Summarize(rows)[i].name == n;
      assert gs[i].name == n;
      assert gs[i] in gs;
    }
  }
}
