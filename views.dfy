/** The derived views of the table: the search filter, the dynasty selector's
    options, the long-format ratings of the selected dynasty and its
    population pie. */
module Views {
  import opened Schema
  import opened Text
  import opened Seqs
  import opened Entry

  // ---------------------------------------------------------------- search

  /** A row's dynasty contains the query, ignoring case; a missing dynasty
      never matches. */
  predicate QueryMatches(dynasty: Cell, query: string)
  {
    dynasty.Some? && Contains(Lower(dynasty.value), Lower(query))
  }

  function Matcher(query: string): Record -> bool
  {
    (x: Record) => QueryMatches(x.dynasty, query)
  }

  /** The table after the search box: unchanged for an empty query, otherwise
      exactly the matching rows, in their original order. */
  function Search(rows: seq<Record>, query: string): (r: seq<Record>)
    ensures query == "" ==> r == rows
    ensures query != "" ==> forall i :: 0 <= i < |r| ==> r[i] in rows && QueryMatches(r[i].dynasty, query)
    ensures query != "" ==> forall i :: 0 <= i < |rows| && QueryMatches(rows[i].dynasty, query) ==> rows[i] in r
    ensures query != "" ==> |r| == Count(rows, Matcher(query))
    ensures IsSubsequence(r, rows)
  {
    if query == "" then
      SubsequenceOfItself(rows);
      rows
    else Filter(rows, Matcher(query))
  }

  lemma {:induction false} SubsequenceOfItself<T>(xs: seq<T>)
    ensures IsSubsequence(xs, xs)
  {
    if xs != [] {
      SubsequenceOfItself(xs[1..]);
    }
  }

  /** Queries that differ only in letter case select the same rows. */
  lemma SearchIgnoresCase(rows: seq<Record>, q: string, q': string)
    requires Lower(q) == Lower(q')
    ensures Search(rows, q) == Search(rows, q')
  {
    assert |q| == |q'|;
    FilterCongruence(rows, Matcher(q), Matcher(q'));
  }

  /** The empty query is a no-op rather than a match of every row: matching
      the empty string would drop the rows whose dynasty is missing. */
  lemma EmptyQueryIsNotMatchAll(rows: seq<Record>, i: nat)
    requires i < |rows| && rows[i].dynasty == None
    ensures Search(rows, "") != Filter(rows, Matcher(""))
  {
    assert rows[i] in Search(rows, "");
  }

  // ------------------------------------------------------ dynasty selection

  /** The cells of the Dynasty column, top to bottom. */
  function Dynasties(rows: seq<Record>): (d: seq<Cell>)
    ensures |d| == |rows| && forall i :: 0 <= i < |rows| ==> d[i] == rows[i].dynasty
  {
    seq(|rows|, i requires 0 <= i < |rows| => rows[i].dynasty)
  }

  /** The options of the dynasty selector: each distinct Dynasty cell once, in
      order of first appearance. A missing cell is one of them when some row
      lacks a dynasty. */
  function SelectorOptions(rows: seq<Record>): (opts: seq<Cell>)
    ensures Distinct(opts)
    ensures forall k :: 0 <= k < |opts| ==> exists i :: 0 <= i < |rows| && rows[i].dynasty == opts[k]
    ensures forall i :: 0 <= i < |rows| ==> rows[i].dynasty in opts
  {
    var d := Dynasties(rows);
    var opts := Unique(d);
    assert forall k :: 0 <= k < |opts| ==> opts[k] in d;
    opts
  }

  /** The selector lists its options in order of first appearance. */
  lemma SelectorOptionsInFirstAppearanceOrder(rows: seq<Record>)
    ensures forall i, j :: 0 <= i < j < |SelectorOptions(rows)| ==>
      FirstIndex(Dynasties(rows), SelectorOptions(rows)[i]) < FirstIndex(Dynasties(rows), SelectorOptions(rows)[j])
  {
    UniqueKeepsFirstAppearanceOrder(Dynasties(rows));
  }

  /** A non-empty search leaves no row without a dynasty, so no missing
      option is offered after it. */
  lemma SearchedOptionsArePresent(rows: seq<Record>, query: string)
    requires query != ""
    ensures forall k :: 0 <= k < |SelectorOptions(Search(rows, query))| ==> SelectorOptions(Search(rows, query))[k].Some?
  {
  }

  /** A row belongs to the selection `sel` when its Dynasty equals it exactly;
      as with pandas' `==`, a missing cell equals nothing, not even a missing
      selection. */
  predicate SameDynasty(dynasty: Cell, sel: Cell)
  {
    sel.Some? && dynasty == sel
  }

  function Selector(sel: Cell): Record -> bool
  {
    (x: Record) => SameDynasty(x.dynasty, sel)
  }

  /** The rows of the selected dynasty, in table order. */
  function Selection(rows: seq<Record>, sel: Cell): (r: seq<Record>)
    ensures forall i :: 0 <= i < |r| ==> r[i] in rows && SameDynasty(r[i].dynasty, sel)
    ensures forall i :: 0 <= i < |rows| && SameDynasty(rows[i].dynasty, sel) ==> rows[i] in r
    ensures |r| == Count(rows, Selector(sel))
    ensures IsSubsequence(r, rows)
  {
    Filter(rows, Selector(sel))
  }

  // --------------------------------------------------------------- ratings

  /** The rating columns in the order the chart reshapes them. */
  const MeltOrder: seq<Metric> := [Economy, Political, Science, Education, Craft, Humanity, Kindness, Law, Justice, Religion]

  /** One row of the long-format ratings table. */
  datatype MeltRow = MeltRow(dynasty: Cell, category: string, value: int)

  /** The long-format row of rating `m` of one selected row. */
  function MeltCell(row: Record, m: Metric): MeltRow
  {
    MeltRow(row.dynasty, MetricName(m), Score(row.indices, m))
  }

  /** The long-format rows of one rating column, one per selected row. */
  function MeltColumn(matched: seq<Record>, m: Metric): (r: seq<MeltRow>)
    ensures |r| == |matched|
  {
    seq(|matched|, j requires 0 <= j < |matched| => MeltCell(matched[j], m))
  }

  /** The columns `ms` stacked one after the other. */
  function MeltColumns(matched: seq<Record>, ms: seq<Metric>): (r: seq<MeltRow>)
    ensures |r| == Offset(|ms|, |matched|)
  {
    if ms == [] then [] else MeltColumn(matched, ms[0]) + MeltColumns(matched, ms[1..])
  }

  /** The ratings of the selected dynasty reshaped to (Category, Value) rows,
      column after column: ten rows per selected row, none aggregated. */
  function Melt(rows: seq<Record>, sel: Cell): (r: seq<MeltRow>)
    ensures |r| == 10 * |Selection(rows, sel)|
    ensures forall k :: 0 <= k < |r| ==> r[k].dynasty == sel
  {
    var matched := Selection(rows, sel);
    OffsetIsProduct(|MeltOrder|, |matched|);
    MeltColumnsKeepDynasty(matched, MeltOrder, sel);
    MeltColumns(matched, MeltOrder)
  }

  lemma {:induction false} MeltColumnsKeepDynasty(matched: seq<Record>, ms: seq<Metric>, d: Cell)
    requires forall j :: 0 <= j < |matched| ==> matched[j].dynasty == d
    ensures forall k :: 0 <= k < |MeltColumns(matched, ms)| ==> MeltColumns(matched, ms)[k].dynasty == d
  {
    if ms != [] {
      MeltColumnsKeepDynasty(matched, ms[1..], d);
    }
  }

  /** Where column `c` starts when every column has `m` rows. */
  function Offset(c: nat, m: nat): nat
  {
    if c == 0 then 0 else m + Offset(c - 1, m)
  }

  lemma {:induction false} OffsetIsProduct(c: nat, m: nat)
    ensures Offset(c, m) == c * m
  {
    if c > 0 {
      OffsetIsProduct(c - 1, m);
    }
  }

  lemma {:induction false} MeltColumnsAt(matched: seq<Record>, ms: seq<Metric>, c: nat, j: nat)
    requires c < |ms| && j < |matched|
    ensures Offset(c, |matched|) + j < |MeltColumns(matched, ms)|
    ensures MeltColumns(matched, ms)[Offset(c, |matched|) + j] == MeltColumn(matched, ms[c])[j]
  {
    var col, rest := MeltColumn(matched, ms[0]), MeltColumns(matched, ms[1..]);
    assert MeltColumns(matched, ms) == col + rest;
    if c > 0 {
      MeltColumnsAt(matched, ms[1..], c - 1, j);
      assert ms[1..][c - 1] == ms[c];
      var k := Offset(c - 1, |matched|) + j;
      assert (col + rest)[|col| + k] == rest[k];
    } else {
      assert (col + rest)[j] == col[j];
    }
  }

  /** Row `c * m + j` of the ratings table, where `m` rows are selected, is
      rating `c` of `MeltOrder` for the `j`-th selected row. */
  lemma MeltAt(rows: seq<Record>, sel: Cell, c: nat, j: nat)
    requires c < 10 && j < |Selection(rows, sel)|
    ensures c * |Selection(rows, sel)| + j < |Melt(rows, sel)|
    ensures Melt(rows, sel)[c * |Selection(rows, sel)| + j] ==
      MeltRow(sel, MetricName(MeltOrder[c]), Score(Selection(rows, sel)[j].indices, MeltOrder[c]))
  {
    var matched := Selection(rows, sel);
    var m := |matched|;
    MeltColumnsAt(matched, MeltOrder, c, j);
    OffsetIsProduct(c, m);
    assert Melt(rows, sel) == MeltColumns(matched, MeltOrder);
    assert SameDynasty(matched[j].dynasty, sel);
  }

  /** Sum of the values of the rows whose category is `name`. */
  function CategoryTotal(r: seq<MeltRow>, name: string): int
  {
    if r == [] then 0 else (if r[0].category == name then r[0].value else 0) + CategoryTotal(r[1..], name)
  }

  /** Sum of rating `m` over `matched`. */
  function ScoreTotal(matched: seq<Record>, m: Metric): int
  {
    if matched == [] then 0 else Score(matched[0].indices, m) + ScoreTotal(matched[1..], m)
  }

  lemma {:induction false} CategoryTotalAppend(a: seq<MeltRow>, b: seq<MeltRow>, name: string)
    ensures CategoryTotal(a + b, name) == CategoryTotal(a, name) + CategoryTotal(b, name)
  {
    if a != [] {
      assert (a + b)[0] == a[0];
      assert (a + b)[1..] == a[1..] + b;
      CategoryTotalAppend(a[1..], b, name);
    } else {
      assert a + b == b;
    }
  }

  lemma {:induction false} ColumnTotal(matched: seq<Record>, m: Metric, name: string)
    ensures CategoryTotal(MeltColumn(matched, m), name) ==
      if name == MetricName(m) then ScoreTotal(matched, m) else 0
  {
    if matched != [] {
      assert MeltColumn(matched, m)[1..] == MeltColumn(matched[1..], m);
      ColumnTotal(matched[1..], m, name);
    }
  }

  lemma {:induction false} ColumnsTotal(matched: seq<Record>, ms: seq<Metric>, m: Metric)
    requires Distinct(ms)
    ensures CategoryTotal(MeltColumns(matched, ms), MetricName(m)) ==
      if m in ms then ScoreTotal(matched, m) else 0
  {
    if ms != [] {
      CategoryTotalAppend(MeltColumn(matched, ms[0]), MeltColumns(matched, ms[1..]), MetricName(m));
      MetricNamesDistinct(m, ms[0]);
      ColumnTotal(matched, ms[0], MetricName(m));
      assert Distinct(ms[1..]);
      ColumnsTotal(matched, ms[1..], m);
      assert m in ms[1..] ==> m != ms[0];
    }
  }

  /** What the bar chart shows: summing the long-format values of a category
      gives the total of that rating over the selected rows. */
  lemma MeltCategoryTotal(rows: seq<Record>, sel: Cell, m: Metric)
    ensures CategoryTotal(Melt(rows, sel), MetricName(m)) == ScoreTotal(Selection(rows, sel), m)
  {
    assert m in MeltOrder;
    ColumnsTotal(Selection(rows, sel), MeltOrder, m);
  }

  // ------------------------------------------------------------ population

  /** The population groups in the order of the pie, Others before Christian. */
  const PieOrder: seq<Group> := [Hindu, Muslim, Jain, Buddha, Sikh, French, British, Others, Christian]

  const PieNames: seq<string> := ["Hindu", "Muslim", "Jain", "Buddha", "Sikh", "French", "British", "Others", "Christian"]

  datatype Pie = Pie(values: seq<int>, names: seq<string>)

  /** The pie of one row: the nine population counts, each paired with the
      name of its column. */
  function PieOf(p: Population): (pie: Pie)
    ensures |pie.values| == |pie.names| == |PieOrder|
    ensures forall k :: 0 <= k < |PieOrder| ==>
      pie.values[k] == Headcount(p, PieOrder[k]) && pie.names[k] == GroupName(PieOrder[k])
  {
    Pie([p.hindu, p.muslim, p.jain, p.buddha, p.sikh, p.french, p.british, p.others, p.christian],
        PieNames)
  }

  /** The population pie of the selected dynasty, from its first row; `None`
      when no row matches, where the lookup of a first row fails. */
  function PopulationView(rows: seq<Record>, sel: Cell): (r: Option<Pie>)
    ensures r.None? <==> forall i :: 0 <= i < |rows| ==> !SameDynasty(rows[i].dynasty, sel)
  {
    var matched := Selection(rows, sel);
    FilterEmpty(rows, Selector(sel));
    if matched == [] then None else Some(PieOf(matched[0].population))
  }

  /** The pie is read from the first row of the selected dynasty, whatever
      the later rows of that dynasty hold. */
  lemma PopulationFromFirstMatch(rows: seq<Record>, sel: Cell, i: nat)
    requires i < |rows| && SameDynasty(rows[i].dynasty, sel)
    requires forall j :: 0 <= j < i ==> !SameDynasty(rows[j].dynasty, sel)
    ensures PopulationView(rows, sel) == Some(PieOf(rows[i].population))
  {
    FilterHead(rows, Selector(sel), i);
  }

  // ------------------------------------------------------ chart selection

  /** What the selector returns: nothing when it has no options, else the
      chosen cell. */
  datatype Choice = NoChoice | Chosen(cell: Cell)

  /** The page's test before drawing the charts: Python truthiness of the
      choice. None and the empty string are false; a missing cell (NaN) is
      true. It passes every selectable choice and, besides those, only the
      missing cell. */
  function Truthy(c: Choice): (t: bool)
    ensures t <==> Selectable(c) || c == Chosen(None)
  {
    match c
    case NoChoice => false
    case Chosen(None) => true
    case Chosen(Some(s)) => s != ""
  }

  /** The same test restricted to a present, non-empty dynasty name. */
  predicate Selectable(c: Choice)
  {
    c.Chosen? && c.cell.Some? && c.cell.value != ""
  }

  /** A filled-in row whose Dynasty was typed as "NA": every text cell is
      present except the dynasty, which reading the store back has turned
      into a missing cell. */
  function ReadBackRow(): Record
  {
    var x := Some("x");
    Record(None, Some("Ashoka"), -268, -232, x, x, x, x, x, x,
           Indices(0, 0, 0, 0, 0, 0, 0, 0, 0, 0), Population(0, 0, 0, 0, 0, 0, 0, 0, 0),
           x, x, x, x)
  }

  /** As written, the truthiness test lets a missing dynasty through. The
      entry as typed passes the form's checks; once its dynasty is read back
      as a missing cell, a table holding that row offers the missing cell, the
      test passes, and no row matches it, so the population lookup has no
      first row. */
  lemma TruthyAdmitsMissingDynasty()
    ensures Validate(ReadBackRow().(dynasty := Some("NA"))) == Accepted
    ensures var rows := [ReadBackRow()];
      None in SelectorOptions(rows) && Truthy(Chosen(None)) && PopulationView(rows, None) == None
  {
    assert !AnyBlank(RequiredTexts(ReadBackRow().(dynasty := Some("NA"))));
    assert [ReadBackRow()][0].dynasty == None;
  }

  /** An offered option that passes `Selectable` always has a first row. */
  lemma SelectableOptionHasRows(rows: seq<Record>, c: Choice)
    requires c.Chosen? && c.cell in SelectorOptions(rows) && Selectable(c)
    ensures PopulationView(rows, c.cell).Some? && |Melt(rows, c.cell)| >= 10
  {
    var k :| 0 <= k < |SelectorOptions(rows)| && SelectorOptions(rows)[k] == c.cell;
    var i :| 0 <= i < |rows| && rows[i].dynasty == c.cell;
    assert rows[i] in Selection(rows, c.cell);
  }

  datatype Charts = Charts(metrics: seq<MeltRow>, pie: Pie)

  /** The two charts drawn for the selector's choice, behind the corrected test. */
  function ChartsFor(rows: seq<Record>, c: Choice): (r: Option<Charts>)
    requires c.Chosen? ==> c.cell in SelectorOptions(rows)
    ensures r.Some? <==> Selectable(c)
    ensures r.Some? ==> r.value.metrics == Melt(rows, c.cell) && Some(r.value.pie) == PopulationView(rows, c.cell)
    ensures r.Some? ==> |r.value.metrics| >= 10
  {
    if Selectable(c) then
      SelectableOptionHasRows(rows, c);
      Some(Charts(Melt(rows, c.cell), PopulationView(rows, c.cell).value))
    else None
  }
}
