/**
  The aggregation stage: keep the rows that record at least one violation,
  group them by driver name (pandas sorts the group keys), and sum, per
  category, each driver's counts that are at least 1.
 */
module Aggregation {
  import opened Wrappers
  import opened Strings
  import opened Schema
  import opened Seqs

  /** The row filter: at least one category count is strictly positive. */
  predicate Survives(r: Record)
  {
    exists c :: 0 <= c < NumCategories && r.counts[c] > 0
  }

  /**
    A read row passes the filter exactly when one of its category cells holds a
    strictly positive number: a blank (NaN) cell never keeps a row.
   */
  lemma ReadRecordSurvives(row: seq<Cell>, nameCol: nat, catCols: seq<nat>)
    requires |catCols| == NumCategories && ReadRecord(row, nameCol, catCols).Some?
    ensures Survives(ReadRecord(row, nameCol, catCols).value) <==>
      exists c :: 0 <= c < NumCategories && CellAt(row, catCols[c]).Num? && CellAt(row, catCols[c]).n > 0
  {
    var r := ReadRecord(row, nameCol, catCols).value;
    if Survives(r) {
      var c :| 0 <= c < NumCategories && r.counts[c] > 0;
      assert CellAt(row, catCols[c]).Num?;
    }
  }

  /** The rows that pass the filter, in their original order. */
  function Filter(rows: seq<Record>): (kept: seq<Record>)
    ensures forall r :: r in kept <==> r in rows && Survives(r)
    ensures |kept| <= |rows|
  {
    if |rows| == 0 then []
    else
      var last := rows[|rows| - 1];
      assert rows == rows[..|rows| - 1] + [last];
      Filter(rows[..|rows| - 1]) + (if Survives(last) then [last] else [])
  }

  /** `Filter` as an instance of the generic selection, whose concatenation law is proved once in `Seqs`. */
  lemma {:induction false} FilterIsKeep(rows: seq<Record>)
    ensures Filter(rows) == Keep(rows, Survives)
    decreases |rows|
  {
    if |rows| > 0 {
      FilterIsKeep(rows[..|rows| - 1]);
    }
  }

  /** The filter keeps rows in their input order: filtering a concatenation filters each part. */
  lemma FilterAppend(a: seq<Record>, b: seq<Record>)
    ensures Filter(a + b) == Filter(a) + Filter(b)
  {
    FilterIsKeep(a + b);
    FilterIsKeep(a);
    FilterIsKeep(b);
    KeepAppend(a, b, Survives);
  }

  /** Each surviving row is kept as many times as it occurs; no other row is kept. */
  lemma {:induction false} FilterMultiplicity(rows: seq<Record>, r: Record)
    ensures multiset(Filter(rows))[r] == if Survives(r) then multiset(rows)[r] else 0
    decreases |rows|
  {
    if |rows| > 0 {
      var prefix, last := rows[..|rows| - 1], rows[|rows| - 1];
      assert rows == prefix + [last];
      FilterMultiplicity(prefix, r);
    }
  }

  /** What one count adds to its category's total: `val` when `val >= 1`, nothing otherwise. */
  function Pos(v: int): nat
  {
    if v >= 1 then v else 0
  }

  /** `acc` with a row's counts added, each as `Pos` of it. */
  function AddPos(acc: Tally, counts: Tally): Tally
  {
    seq(NumCategories, c requires 0 <= c < NumCategories => acc[c] + Pos(counts[c]))
  }

  /**
    The reference definition of a driver's totals: for each category, the sum,
    over all rows named `n`, of the counts that are at least 1.
   */
  function TotalsOf(rows: seq<Record>, n: string): (t: Tally)
    ensures forall c :: 0 <= c < NumCategories ==> t[c] >= 0
  {
    if |rows| == 0 then Zeros
    else
      var prev := TotalsOf(rows[..|rows| - 1], n);
      if rows[|rows| - 1].name == Some(n) then AddPos(prev, rows[|rows| - 1].counts) else prev
  }

  /** The names of the rows that have one. */
  function NamedKeys(rows: seq<Record>): set<string>
  {
    set r | r in rows && r.name.Some? :: r.name.value
  }

  /** One aggregated row: a driver and the eleven category totals. */
  datatype Group = Group(name: string, totals: Tally)

  function Keys(gs: seq<Group>): set<string>
  {
    set g | g in gs :: g.name
  }

  /** Names strictly ascending: sorted, and no name twice. */
  predicate StrictlySorted(gs: seq<Group>)
  {
    forall i, j :: 0 <= i < j < |gs| ==> Less(gs[i].name, gs[j].name)
  }

  /** The totals of the group called `n`, or all zeros when there is none. */
  function TotalsIn(gs: seq<Group>, n: string): Tally
  {
    if |gs| == 0 then Zeros
    else if gs[0].name == n then gs[0].totals
    else TotalsIn(gs[1..], n)
  }

  /** Adds a row of `name` to name-sorted groups: into its group when there is one, as a new group in its place otherwise. */
  function Insert(gs: seq<Group>, name: string, counts: Tally): seq<Group>
  {
    if |gs| == 0 then [Group(name, AddPos(Zeros, counts))]
    else if gs[0].name == name then [Group(name, AddPos(gs[0].totals, counts))] + gs[1..]
    else if Less(name, gs[0].name) then [Group(name, AddPos(Zeros, counts))] + gs
    else [gs[0]] + Insert(gs[1..], name, counts)
  }

  /** `groupby('Name')`: one group per name, rows with a blank name dropped, keys in ascending order. */
  function GroupByName(rows: seq<Record>): seq<Group>
  {
    if |rows| == 0 then []
    else
      var prev := GroupByName(rows[..|rows| - 1]);
      var r := rows[|rows| - 1];
      if r.name.Some? then Insert(prev, r.name.value, r.counts) else prev
  }

  lemma KeysCons(g: Group, gs: seq<Group>)
    ensures Keys([g] + gs) == {g.name} + Keys(gs)
  {
    assert forall h :: h in [g] + gs <==> h == g || h in gs;
  }

  lemma {:induction false} InsertKeys(gs: seq<Group>, name: string, counts: Tally)
    ensures Keys(Insert(gs, name, counts)) == Keys(gs) + {name}
    decreases |gs|
  {
    if |gs| > 0 {
      KeysCons(gs[0], gs[1..]);
      assert gs == [gs[0]] + gs[1..];
      if gs[0].name != name && !Less(name, gs[0].name) {
        InsertKeys(gs[1..], name, counts);
        KeysCons(gs[0], Insert(gs[1..], name, counts));
      }
    }
  }

  /** Every name in `gs` is above `x`. */
  predicate Above(x: string, gs: seq<Group>)
  {
    forall j :: 0 <= j < |gs| ==> Less(x, gs[j].name)
  }

  lemma {:induction false} InsertAbove(gs: seq<Group>, name: string, counts: Tally, x: string)
    requires Above(x, gs) && Less(x, name)
    ensures Above(x, Insert(gs, name, counts))
    decreases |gs|
  {
    if |gs| > 0 && gs[0].name != name && !Less(name, gs[0].name) {
      InsertAbove(gs[1..], name, counts, x);
    }
  }

  lemma {:induction false} InsertSorted(gs: seq<Group>, name: string, counts: Tally)
    requires StrictlySorted(gs)
    ensures StrictlySorted(Insert(gs, name, counts))
    decreases |gs|
  {
    var r := Insert(gs, name, counts);
    if |gs| == 0 {
    } else if gs[0].name == name {
    } else if Less(name, gs[0].name) {
      forall j | 0 < j < |r| ensures Less(name, r[j].name) {
        if j > 1 { LessTransitive(name, gs[0].name, r[j].name); }
      }
    } else {
      LessTotal(name, gs[0].name);
      InsertSorted(gs[1..], name, counts);
      InsertAbove(gs[1..], name, counts, gs[0].name);
    }
  }

  /** A name that no group carries looks up as all zeros. */
  lemma {:induction false} TotalsInAbsent(gs: seq<Group>, n: string)
    requires forall j :: 0 <= j < |gs| ==> gs[j].name != n
    ensures TotalsIn(gs, n) == Zeros
    decreases |gs|
  {
    if |gs| > 0 { TotalsInAbsent(gs[1..], n); }
  }

  lemma {:induction false} InsertTotals(gs: seq<Group>, name: string, counts: Tally, n: string)
    requires StrictlySorted(gs)
    ensures TotalsIn(Insert(gs, name, counts), n) ==
      if n == name then AddPos(TotalsIn(gs, n), counts) else TotalsIn(gs, n)
    decreases |gs|
  {
    if |gs| == 0 {
    } else if gs[0].name == name {
    } else if Less(name, gs[0].name) {
      if n == name {
        forall j | 0 <= j < |gs| ensures gs[j].name != n {
          if j == 0 { LessIrreflexive(n); }
          else {
            LessTransitive(name, gs[0].name, gs[j].name);
            LessIrreflexive(n);
          }
        }
        TotalsInAbsent(gs, n);
      }
    } else {
      InsertTotals(gs[1..], name, counts, n);
    }
  }

  /** In strictly sorted groups, looking up a group's own name finds that group. */
  lemma {:induction false} TotalsInAt(gs: seq<Group>, i: nat)
    requires StrictlySorted(gs) && i < |gs|
    ensures TotalsIn(gs, gs[i].name) == gs[i].totals
    decreases i
  {
    if i > 0 {
      if gs[0].name == gs[i].name { LessIrreflexive(gs[0].name); }
      TotalsInAt(gs[1..], i - 1);
    }
  }

  /** Grouping yields name-sorted groups, one per named row's name, each carrying its reference totals. */
  lemma {:induction false} GroupByNameCorrect(rows: seq<Record>)
    ensures StrictlySorted(GroupByName(rows))
    ensures Keys(GroupByName(rows)) == NamedKeys(rows)
    ensures forall n :: TotalsIn(GroupByName(rows), n) == TotalsOf(rows, n)
    decreases |rows|
  {
    if |rows| > 0 {
      var prefix, r := rows[..|rows| - 1], rows[|rows| - 1];
      assert rows == prefix + [r];
      GroupByNameCorrect(prefix);
      var prev := GroupByName(prefix);
      if r.name.Some? {
        InsertSorted(prev, r.name.value, r.counts);
        InsertKeys(prev, r.name.value, r.counts);
        forall n ensures TotalsIn(GroupByName(rows), n) == TotalsOf(rows, n) {
          InsertTotals(prev, r.name.value, r.counts, n);
        }
        assert NamedKeys(rows) == NamedKeys(prefix) + {r.name.value};
      } else {
        assert NamedKeys(rows) == NamedKeys(prefix);
      }
    }
  }

  /** A row that fails the filter adds nothing to any total, so filtering leaves every driver's totals as they were. */
  lemma {:induction false} FilterKeepsTotals(rows: seq<Record>, n: string)
    ensures TotalsOf(Filter(rows), n) == TotalsOf(rows, n)
    decreases |rows|
  {
    if |rows| > 0 {
      var prefix, r := rows[..|rows| - 1], rows[|rows| - 1];
      FilterKeepsTotals(prefix, n);
      var kept := Filter(rows);
      if Survives(r) {
        assert kept[..|kept| - 1] == Filter(prefix);
      } else {
        assert kept == Filter(prefix);
        var prev := TotalsOf(prefix, n);
        assert forall c :: 0 <= c < NumCategories ==> AddPos(prev, r.counts)[c] == prev[c];
        assert AddPos(prev, r.counts) == prev;
      }
    }
  }

  /**
    The aggregated table: exactly one row per name that has a surviving row, in
    ascending name order, each with the totals of all of that driver's rows.
   */
  function Aggregate(rows: seq<Record>): (gs: seq<Group>)
    ensures StrictlySorted(gs)
    ensures forall n :: n in Keys(gs) <==> exists k :: 0 <= k < |rows| && rows[k].name == Some(n) && Survives(rows[k])
    ensures forall i :: 0 <= i < |gs| ==> gs[i].totals == TotalsOf(rows, gs[i].name)
  {
    var kept := Filter(rows);
    GroupByNameCorrect(kept);
    var gs := GroupByName(kept);
    forall i | 0 <= i < |gs| ensures gs[i].totals == TotalsOf(rows, gs[i].name) {
      TotalsInAt(gs, i);
      FilterKeepsTotals(rows, gs[i].name);
    }
    gs
  }

  /** A row of driver `n` contributes each of its counts that is at least 1 to `n`'s totals. */
  lemma {:induction false} TotalsOfCoverRow(rows: seq<Record>, n: string, k: nat, c: nat)
    requires k < |rows| && rows[k].name == Some(n) && c < NumCategories
    ensures TotalsOf(rows, n)[c] >= Pos(rows[k].counts[c])
    decreases |rows|
  {
    var prefix := rows[..|rows| - 1];
    if k < |rows| - 1 {
      TotalsOfCoverRow(prefix, n, k, c);
    }
  }

  /** Every aggregated driver has at least one category whose total is at least 1. */
  lemma AggregateHasViolation(rows: seq<Record>, i: nat)
    requires i < |Aggregate(rows)|
    ensures exists c :: 0 <= c < NumCategories && Aggregate(rows)[i].totals[c] >= 1
  {
    var gs := Aggregate(rows);
    var n := gs[i].name;
    assert n in Keys(gs);
    var k :| 0 <= k < |rows| && rows[k].name == Some(n) && Survives(rows[k]);
    var c :| 0 <= c < NumCategories && rows[k].counts[c] > 0;
    TotalsOfCoverRow(rows, n, k, c);
  }

  /** The effect of one row on driver `n`'s totals. */
  function Contribute(t: Tally, r: Record, n: string): Tally
  {
    if r.name == Some(n) then AddPos(t, r.counts) else t
  }

  lemma ContributeCommutes(t: Tally, x: Record, y: Record, n: string)
    ensures Contribute(Contribute(t, x, n), y, n) == Contribute(Contribute(t, y, n), x, n)
  {
    var l, r := Contribute(Contribute(t, x, n), y, n), Contribute(Contribute(t, y, n), x, n);
    assert forall c :: 0 <= c < NumCategories ==> l[c] == r[c];
  }

  /** Moving one row to the end of the table does not change any driver's totals. */
  lemma {:induction false} TotalsOfMoveToEnd(a: seq<Record>, x: Record, b: seq<Record>, n: string)
    ensures TotalsOf(a + [x] + b, n) == Contribute(TotalsOf(a + b, n), x, n)
    decreases |b|
  {
    if |b| == 0 {
      assert a + [x] + b == a + [x];
      assert a + b == a;
      assert (a + [x])[..|a + [x]| - 1] == a;
    } else {
      var b', y := b[..|b| - 1], b[|b| - 1];
      assert (a + [x] + b)[..|a + [x] + b| - 1] == a + [x] + b';
      assert (a + [x] + b)[|a + [x] + b| - 1] == y;
      assert (a + b)[..|a + b| - 1] == a + b';
      assert (a + b)[|a + b| - 1] == y;
      TotalsOfMoveToEnd(a, x, b', n);
      ContributeCommutes(TotalsOf(a + b', n), x, y, n);
    }
  }

  /** A driver's totals do not depend on the order of the rows. */
  lemma {:induction false} TotalsOfPermutation(a: seq<Record>, b: seq<Record>, n: string)
    requires multiset(a) == multiset(b)
    ensures TotalsOf(a, n) == TotalsOf(b, n)
    decreases |a|
  {
    if |a| == 0 {
      assert |b| == |multiset(b)| == 0;
    } else {
      var a', x := a[..|a| - 1], a[|a| - 1];
      assert a == a' + [x];
      assert x in multiset(b);
      var j :| 0 <= j < |b| && b[j] == x;
      var b1, b2 := b[..j], b[j + 1..];
      assert b == b1 + [x] + b2;
      MultisetCancel(a', x, b1, b2);
      TotalsOfPermutation(a', b1 + b2, n);
      TotalsOfMoveToEnd(b1, x, b2, n);
    }
  }

  lemma KeyOfHead(gs: seq<Group>)
    ensures |gs| > 0 ==> gs[0].name in Keys(gs)
  {
  }

  lemma SortedTail(gs: seq<Group>)
    requires StrictlySorted(gs) && |gs| > 0
    ensures StrictlySorted(gs[1..])
  {
    forall i, j | 0 <= i < j < |gs| - 1 ensures Less(gs[1..][i].name, gs[1..][j].name) {
      assert gs[1..][i] == gs[i + 1] && gs[1..][j] == gs[j + 1];
    }
  }

  /** Strictly sorted groups are fixed by their names and by the totals each name carries. */
  lemma {:induction false} SortedGroupsUnique(g1: seq<Group>, g2: seq<Group>)
    requires StrictlySorted(g1) && StrictlySorted(g2) && Keys(g1) == Keys(g2)
    requires forall i, j :: 0 <= i < |g1| && 0 <= j < |g2| && g1[i].name == g2[j].name ==> g1[i].totals == g2[j].totals
    ensures g1 == g2
    decreases |g1|
  {
    if |g1| == 0 {
      KeyOfHead(g2);
    } else {
      assert g1[0].name in Keys(g1);
      assert |g2| > 0;
      assert g2[0].name in Keys(g2);
      if g1[0].name != g2[0].name {
        var h1 :| h1 in g1 && h1.name == g2[0].name;
        var i :| 0 <= i < |g1| && g1[i] == h1;
        var h2 :| h2 in g2 && h2.name == g1[0].name;
        var j :| 0 <= j < |g2| && g2[j] == h2;
        assert i > 0 && j > 0;
        LessAsymmetric(g1[0].name, g2[0].name);
        assert false;
      }
      assert g1[0] == g2[0];
      KeysCons(g1[0], g1[1..]);
      KeysCons(g2[0], g2[1..]);
      assert g1 == [g1[0]] + g1[1..] && g2 == [g2[0]] + g2[1..];
      assert g1[0].name !in Keys(g1[1..]) && g2[0].name !in Keys(g2[1..]) by {
        if g1[0].name in Keys(g1[1..]) {
          var h :| h in g1[1..] && h.name == g1[0].name;
          var i :| 0 <= i < |g1[1..]| && g1[1..][i] == h;
          assert Less(g1[0].name, g1[i + 1].name);
          LessIrreflexive(g1[0].name);
        }
        if g2[0].name in Keys(g2[1..]) {
          var h :| h in g2[1..] && h.name == g2[0].name;
          var i :| 0 <= i < |g2[1..]| && g2[1..][i] == h;
          assert Less(g2[0].name, g2[i + 1].name);
          LessIrreflexive(g2[0].name);
        }
      }
      SortedTail(g1);
      SortedTail(g2);
      SortedGroupsUnique(g1[1..], g2[1..]);
    }
  }

  /** The aggregated table depends only on which rows there are, not on their order. */
  lemma AggregatePermutation(a: seq<Record>, b: seq<Record>)
    requires multiset(a) == multiset(b)
    ensures Aggregate(a) == Aggregate(b)
  {
    var ga, gb := Aggregate(a), Aggregate(b);
    forall n ensures n in Keys(ga) <==> n in Keys(gb) {
      if n in Keys(ga) {
        var k :| 0 <= k < |a| && a[k].name == Some(n) && Survives(a[k]);
        assert a[k] in multiset(b);
        var k' :| 0 <= k' < |b| && b[k'] == a[k];
      }
      if n in Keys(gb) {
        var k :| 0 <= k < |b| && b[k].name == Some(n) && Survives(b[k]);
        assert b[k] in multiset(a);
        var k' :| 0 <= k' < |a| && a[k'] == b[k];
      }
    }
    forall i, j | 0 <= i < |ga| && 0 <= j < |gb| && ga[i].name == gb[j].name
      ensures ga[i].totals == gb[j].totals
    {
      TotalsOfPermutation(a, b, ga[i].name);
    }
    SortedGroupsUnique(ga, gb);
  }
}
