/** The page's table: the rows read at start-up, which the "Add Entry" button
    may extend by one row and the search box then narrows. */
module App {
  import opened Schema
  import opened Entry
  import opened YearLabel
  import opened Views
  import opened Seqs

  class Table {
    var rows: seq<Record>

    /** The table of a store that does not exist yet: no rows. */
    constructor ()
      ensures rows == []
    {
      rows := [];
    }

    /** Pressing "Add Entry" with the form holding `e`. The chronology check
        runs first and the blank-field check second; a rejected entry yields
        exactly one message and leaves the table as it was, an accepted one
        is appended as the last row. */
    method AddEntry(e: Record) returns (error: Option<string>)
      requires InWidgetRanges(e)
      modifies this
      ensures e.startYear > e.endYear ==> error == Some(ChronologyMessage) && rows == old(rows)
      ensures Validate(e) == Rejected(BlankField) ==> error == Some(BlankMessage) && rows == old(rows)
      ensures error == None <==> Admissible(e)
      ensures error == None ==> rows == old(rows) + [e]
    {
      if e.startYear > e.endYear {
        error := Some(Message(ChronologyError));
      } else if AnyBlank(RequiredTexts(e)) {
        error := Some(Message(BlankField));
      } else {
        rows := rows + [e];
        error := None;
      }
    }

    /** Typing `query` into the search box: the table is replaced by the rows
        the search keeps. */
    method ApplySearch(query: string)
      modifies this
      ensures rows == Search(old(rows), query)
    {
      if query != "" {
        rows := Filter(rows, Matcher(query));
      }
    }
  }

  /** An entry for the Maurya dynasty, 322 BC to 185 BC, every text field "x"
      and every rating and count 0. */
  function Maurya(): Record
  {
    var x := Some("x");
    Record(Some("Maurya"), Some("Chandragupta"), -322, -185, x, x, x, x, x, x,
           Indices(0, 0, 0, 0, 0, 0, 0, 0, 0, 0), Population(0, 0, 0, 0, 0, 0, 0, 0, 0),
           x, x, x, x)
  }

  /** The Maurya entry passes both checks. */
  lemma MauryaAdmissible()
    ensures Validate(Maurya()) == Accepted
  {
    assert !AnyBlank(RequiredTexts(Maurya()));
  }

  /** The timeline labels the Maurya row "322 BC" to "185 BC". */
  lemma MauryaTimeline()
    ensures TimelineRows([Maurya()])[0].beginning == Str("322 BC")
    ensures TimelineRows([Maurya()])[0].end == Str("185 BC")
  {
    Label322();
    Label185();
  }

  lemma Label322()
    ensures FormatYear(-322) == Str("322 BC")
  {
    assert Text.NatToString(32) == Text.NatToString(3) + [Text.DigitChar(2)];
    assert Text.NatToString(322) == Text.NatToString(32) + [Text.DigitChar(2)];
  }

  lemma Label185()
    ensures FormatYear(-185) == Str("185 BC")
  {
    assert Text.NatToString(18) == Text.NatToString(1) + [Text.DigitChar(8)];
    assert Text.NatToString(185) == Text.NatToString(18) + [Text.DigitChar(5)];
  }

  /** The Maurya row's pie is nine zero counts in the pie's order. */
  lemma MauryaPie()
    ensures PopulationView([Maurya()], Some("Maurya")) == Some(Pie([0, 0, 0, 0, 0, 0, 0, 0, 0], PieNames))
  {
    PopulationFromFirstMatch([Maurya()], Some("Maurya"), 0);
  }

  /** Adding Maurya to a fresh table, then an entry whose years run backwards:
      the first is stored, the second is refused with the chronology message
      and the table keeps its one row. */
  method AddEntryScenario()
  {
    var t := new Table();
    MauryaAdmissible();
    var err := t.AddEntry(Maurya());
    assert err == None && t.rows == [Maurya()];
    var backwards := Maurya().(startYear := 100, endYear := 50);
    err := t.AddEntry(backwards);
    assert err == Some(ChronologyMessage) && |t.rows| == 1;
  }
}
