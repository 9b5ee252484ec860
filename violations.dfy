/**
  The two derived columns of a driver's aggregated row: the `Violations` text,
  `"<Category> (<total>)"` for each category whose total is at least 1, joined
  by `", "` in category order; and `Violations Count`, the sum of the positive
  totals. A decoder reads the text back, showing that it lists exactly those
  categories with exactly their totals.
 */
module Violations {
  import opened Wrappers
  import opened Seqs
  import opened Strings
  import opened Schema

  /** One item of the list: a category and its total. */
  datatype Entry = Entry(category: Category, count: nat)

  /** The categories from `from` on whose total is at least 1, in category order, with their totals. */
  function EntriesFrom(t: Tally, from: nat): (es: seq<Entry>)
    requires from <= NumCategories
    ensures forall k :: 0 <= k < |es| ==>
      from <= es[k].category && es[k].count >= 1 && es[k].count == t[es[k].category]
    decreases NumCategories - from
  {
    if from == NumCategories then []
    else (if t[from] >= 1 then [Entry(from, t[from])] else []) + EntriesFrom(t, from + 1)
  }

  /** The items of the `Violations` text, in category order. */
  function Entries(t: Tally): seq<Entry>
  {
    EntriesFrom(t, 0)
  }

  /** `f"{col} ({val})"`. */
  function ItemText(e: Entry): string
  {
    Categories[e.category] + " (" + NatStr(e.count) + ")"
  }

  function ItemTexts(es: seq<Entry>): seq<string>
  {
    seq(|es|, k requires 0 <= k < |es| => ItemText(es[k]))
  }

  /** The `Violations` column of a driver with totals `t`. */
  function ViolationsText(t: Tally): string
  {
    Join(ItemTexts(Entries(t)), ", ")
  }

  lemma {:induction false} EntriesFromComplete(t: Tally, from: nat, c: Category)
    requires from <= c && t[c] >= 1
    ensures Entry(c, t[c]) in EntriesFrom(t, from)
    decreases NumCategories - from
  {
    if from < c { EntriesFromComplete(t, from + 1, c); }
  }

  lemma {:induction false} EntriesFromOrdered(t: Tally, from: nat)
    requires from <= NumCategories
    ensures forall i, j :: 0 <= i < j < |EntriesFrom(t, from)| ==>
      EntriesFrom(t, from)[i].category < EntriesFrom(t, from)[j].category
    decreases NumCategories - from
  {
    if from < NumCategories { EntriesFromOrdered(t, from + 1); }
  }

  /** A category is listed in the `Violations` text exactly when its total is at least 1, and then with that total. */
  lemma ListedIffAtLeastOne(t: Tally, c: Category)
    ensures (exists k :: 0 <= k < |Entries(t)| && Entries(t)[k].category == c) <==> t[c] >= 1
    ensures forall k :: 0 <= k < |Entries(t)| && Entries(t)[k].category == c ==> Entries(t)[k].count == t[c]
  {
    var es := Entries(t);
    if t[c] >= 1 {
      EntriesFromComplete(t, 0, c);
      assert Entry(c, t[c]) in es;
      var k :| 0 <= k < |es| && es[k] == Entry(c, t[c]);
      assert es[k].category == c;
    }
  }

  /** The items follow category order, whatever the order of the input rows. */
  lemma EntriesInCategoryOrder(t: Tally)
    ensures forall i, j :: 0 <= i < j < |Entries(t)| ==> Entries(t)[i].category < Entries(t)[j].category
  {
    EntriesFromOrdered(t, 0);
  }

  function SumPositiveFrom(t: Tally, from: nat): nat
    requires from <= NumCategories
    decreases NumCategories - from
  {
    if from == NumCategories then 0
    else (if t[from] > 0 then t[from] else 0) + SumPositiveFrom(t, from + 1)
  }

  /** The `Violations Count` column: the sum of the totals that are positive. */
  function ViolationsCount(t: Tally): nat
  {
    SumPositiveFrom(t, 0)
  }

  function SumCounts(es: seq<Entry>): nat
  {
    if |es| == 0 then 0 else es[0].count + SumCounts(es[1..])
  }

  lemma {:induction false} CountFromIsListedSum(t: Tally, from: nat)
    requires from <= NumCategories
    ensures SumPositiveFrom(t, from) == SumCounts(EntriesFrom(t, from))
    decreases NumCategories - from
  {
    if from < NumCategories {
      CountFromIsListedSum(t, from + 1);
      var rest := EntriesFrom(t, from + 1);
      if t[from] >= 1 {
        var e := Entry(from, t[from]);
        assert EntriesFrom(t, from) == [e] + rest;
        assert ([e] + rest)[1..] == rest;
        assert SumCounts([e] + rest) == e.count + SumCounts(rest);
      } else {
        assert EntriesFrom(t, from) == rest;
      }
    }
  }

  /** `Violations Count` is the sum of the numbers the `Violations` text lists. */
  lemma CountIsListedSum(t: Tally)
    ensures ViolationsCount(t) == SumCounts(Entries(t))
  {
    CountFromIsListedSum(t, 0);
  }

  lemma {:induction false} CountFromAtLeast(t: Tally, from: nat, c: nat)
    requires from <= c < NumCategories
    ensures SumPositiveFrom(t, from) >= (if t[c] > 0 then t[c] else 0)
    decreases NumCategories - from
  {
    if from < c { CountFromAtLeast(t, from + 1, c); }
  }

  /** A driver with some total of at least 1 has a `Violations Count` of at least that total, hence at least 1. */
  lemma CountAtLeastEachTotal(t: Tally, c: nat)
    requires c < NumCategories && t[c] >= 1
    ensures ViolationsCount(t) >= t[c] >= 1
  {
    CountFromAtLeast(t, 0, c);
  }

  lemma CategoryNamesPlain()
    ensures forall c, k :: 0 <= c < NumCategories && 0 <= k < |Categories[c]| ==>
      'A' <= Categories[c][k] <= 'Z' || 'a' <= Categories[c][k] <= 'z' || Categories[c][k] == ' '
  {
  }

  lemma CategoriesDistinct()
    ensures forall i, j :: 0 <= i < j < NumCategories ==> Categories[i] != Categories[j]
  {
  }

  /** The category called `name`, if there is one. */
  function CategoryNamed(name: string): Option<Category>
  {
    var c := IndexOf(Categories, name);
    if c < NumCategories then Some(c) else None
  }

  lemma CategoryNamedInverse(c: Category)
    ensures CategoryNamed(Categories[c]) == Some(c)
  {
    var r := IndexOf(Categories, Categories[c]);
    assert Categories[c] in Categories;
    assert r <= c && Categories[r] == Categories[c];
    CategoriesDistinct();
    assert r == c;
  }

  /** Reads one `"<Category> (<digits>)"` item. */
  function DecodeItem(item: string): Option<Entry>
  {
    var open := IndexOf(item, '(');
    if 1 <= open && open + 1 < |item| && item[open - 1] == ' ' && item[|item| - 1] == ')' then
      var digits := item[open + 1..|item| - 1];
      match CategoryNamed(item[..open - 1])
      case Some(c) => if AllDigits(digits) then Some(Entry(c, ParseNat(digits))) else None
      case None => None
    else None
  }

  function DecodeItems(items: seq<string>): Option<seq<Entry>>
  {
    if |items| == 0 then Some([])
    else match (DecodeItem(items[0]), DecodeItems(items[1..]))
      case (Some(e), Some(es)) => Some([e] + es)
      case _ => None
  }

  /** The totals that a list of items states: each listed category has its count, the others 0. */
  function Assemble(es: seq<Entry>): Tally
  {
    if |es| == 0 then Zeros else Assemble(es[1..])[es[0].category := es[0].count]
  }

  /** Reads a `Violations` text back into the totals it lists. */
  function Decode(s: string): Option<Tally>
  {
    if s == "" then Some(Zeros)
    else match DecodeItems(SplitList(s))
      case Some(es) => Some(Assemble(es))
      case None => None
  }

  lemma DecodeItemText(e: Entry)
    ensures DecodeItem(ItemText(e)) == Some(e)
  {
    var name, digits := Categories[e.category], NatStr(e.count);
    var item := ItemText(e);
    assert item == name + " (" + digits + ")";
    CategoryNamesPlain();
    assert '(' !in name;
    var open := IndexOf(item, '(');
    assert item[|name| + 1] == '(';
    assert open == |name| + 1;
    assert item[..open - 1] == name;
    assert item[open + 1..|item| - 1] == digits;
    CategoryNamedInverse(e.category);
    ParseNatStr(e.count);
  }

  /** Items that each decode give the list of their entries. */
  lemma {:induction false} DecodeItemsAll(items: seq<string>, es: seq<Entry>)
    requires |items| == |es| && forall k :: 0 <= k < |items| ==> DecodeItem(items[k]) == Some(es[k])
    ensures DecodeItems(items) == Some(es)
    decreases |items|
  {
    if |items| > 0 {
      DecodeItemsAll(items[1..], es[1..]);
      assert [es[0]] + es[1..] == es;
    }
  }

  lemma DecodeItemTexts(es: seq<Entry>)
    ensures DecodeItems(ItemTexts(es)) == Some(es)
  {
    forall k | 0 <= k < |es| ensures DecodeItem(ItemTexts(es)[k]) == Some(es[k]) {
      DecodeItemText(es[k]);
    }
    DecodeItemsAll(ItemTexts(es), es);
  }

  /** One step of `AssembleEntriesFrom`: the category at `from` is listed. */
  lemma AssembleTake(t: Tally, from: nat, c: Category)
    requires from < NumCategories && t[c] >= 0 && t[from] >= 1
    requires Assemble(EntriesFrom(t, from + 1))[c] == if c < from + 1 then 0 else t[c]
    ensures Assemble(EntriesFrom(t, from))[c] == if c < from then 0 else t[c]
  {
    var rest := EntriesFrom(t, from + 1);
    var e := Entry(from, t[from]);
    assert EntriesFrom(t, from) == [e] + rest;
    assert ([e] + rest)[1..] == rest;
    assert Assemble([e] + rest) == Assemble(rest)[from := t[from]];
  }

  /** One step of `AssembleEntriesFrom`: the category at `from` is not listed. */
  lemma AssembleSkip(t: Tally, from: nat, c: Category)
    requires from < NumCategories && t[c] >= 0 && t[from] < 1
    requires Assemble(EntriesFrom(t, from + 1))[c] == if c < from + 1 then 0 else t[c]
    ensures Assemble(EntriesFrom(t, from))[c] == if c < from then 0 else t[c]
  {
    assert EntriesFrom(t, from) == EntriesFrom(t, from + 1);
  }

  lemma {:induction false} AssembleEntriesFrom(t: Tally, from: nat, c: Category)
    requires from <= NumCategories && t[c] >= 0
    ensures Assemble(EntriesFrom(t, from))[c] == if c < from then 0 else t[c]
    decreases NumCategories - from
  {
    if from < NumCategories {
      AssembleEntriesFrom(t, from + 1, c);
      if t[from] >= 1 { AssembleTake(t, from, c); } else { AssembleSkip(t, from, c); }
    } else {
      assert EntriesFrom(t, from) == [];
    }
  }

  /** Non-negative totals are exactly what their own entries state. */
  lemma AssembleEntries(t: Tally)
    requires forall c :: 0 <= c < NumCategories ==> t[c] >= 0
    ensures Assemble(Entries(t)) == t
  {
    var a := Assemble(Entries(t));
    forall c | 0 <= c < NumCategories ensures a[c] == t[c] {
      AssembleEntriesFrom(t, 0, c);
    }
  }

  /** No item contains a comma, so the list can be split at its commas. */
  lemma ItemsHaveNoComma(es: seq<Entry>)
    ensures forall k :: 0 <= k < |es| ==> ',' !in ItemTexts(es)[k]
  {
    CategoryNamesPlain();
    forall k | 0 <= k < |es| ensures ',' !in ItemTexts(es)[k] {
      var e := es[k];
      assert ItemTexts(es)[k] == Categories[e.category] + " (" + NatStr(e.count) + ")";
    }
  }

  /**
    The `Violations` text of non-negative totals reads back as those totals: a
    category is listed exactly when its total is at least 1, and with that total.
   */
  lemma DecodeViolationsText(t: Tally)
    requires forall c :: 0 <= c < NumCategories ==> t[c] >= 0
    ensures Decode(ViolationsText(t)) == Some(t)
  {
    var es := Entries(t);
    var items := ItemTexts(es);
    AssembleEntries(t);
    if |es| == 0 {
      assert ViolationsText(t) == "";
    } else {
      JoinLength(items, ", ");
      assert |items[0]| > 0;
      ItemsHaveNoComma(es);
      SplitJoin(items);
      DecodeItemTexts(es);
    }
  }
}
