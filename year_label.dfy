/** The display labels of the timeline: a signed year becomes "N BC", "N AD",
    or, for year 0, the bare number 0 (not a string). */
module YearLabel {
  import opened Schema
  import opened Text

  /** A label cell: the formatter yields text for every year but 0, for
      which it yields the integer itself. */
  datatype Label = Num(n: int) | Str(s: string)

  predicate EndsWith(s: string, suffix: string)
  {
    |suffix| <= |s| && s[|s| - |suffix|..] == suffix
  }

  /** The year label of one row. */
  function FormatYear(year: int): (l: Label)
    ensures l.Num? <==> year == 0
    ensures l.Num? ==> l.n == 0
    ensures l.Str? ==> (EndsWith(l.s, " BC") <==> year < 0)
    ensures l.Str? ==> (EndsWith(l.s, " AD") <==> year > 0)
    ensures l.Str? ==> l.s[0] != '0'
  {
    if year < 0 then Str(NatToString(-year) + " BC")
    else if year == 0 then Num(year)
    else Str(NatToString(year) + " AD")
  }

  /** Reads a label back as a year; the inverse of FormatYear. */
  function ParseLabel(l: Label): Option<int>
  {
    match l
    case Num(n) => Some(n)
    case Str(s) =>
      if |s| > 3 && AllDigits(s[..|s| - 3]) then
        if s[|s| - 3..] == " BC" then Some(-(DigitsValue(s[..|s| - 3]) as int))
        else if s[|s| - 3..] == " AD" then Some(DigitsValue(s[..|s| - 3]))
        else None
      else None
  }

  /** Every label reads back as the year it was made from. */
  lemma FormatYearRoundTrip(year: int)
    ensures ParseLabel(FormatYear(year)) == Some(year)
  {
    if year != 0 {
      var n: nat := if year < 0 then -year else year;
      var digits := NatToString(n);
      var s := FormatYear(year).s;
      assert s[..|s| - 3] == digits;
      NatToStringRoundTrip(n);
    }
  }

  /** Distinct years never share a label. */
  lemma FormatYearInjective(y: int, y': int)
    ensures FormatYear(y) == FormatYear(y') <==> y == y'
  {
    FormatYearRoundTrip(y);
    FormatYearRoundTrip(y');
  }

  /** A row of the timeline with its two label columns added. */
  datatype TimelineRow = TimelineRow(record: Record, beginning: Label, end: Label)

  /** The table with `Beginning` and `End` added to every row. */
  function TimelineRows(rows: seq<Record>): (r: seq<TimelineRow>)
    ensures |r| == |rows|
    ensures forall i :: 0 <= i < |rows| ==> r[i].record == rows[i]
    ensures forall i :: 0 <= i < |rows| ==>
      r[i].beginning == FormatYear(rows[i].startYear) && r[i].end == FormatYear(rows[i].endYear)
  {
    seq(|rows|, i requires 0 <= i < |rows| =>
      TimelineRow(rows[i], FormatYear(rows[i].startYear), FormatYear(rows[i].endYear)))
  }

  /** The label columns of every row read back as that row's years. */
  lemma TimelineLabelsReadBack(rows: seq<Record>, i: nat)
    requires i < |rows|
    ensures ParseLabel(TimelineRows(rows)[i].beginning) == Some(rows[i].startYear)
    ensures ParseLabel(TimelineRows(rows)[i].end) == Some(rows[i].endYear)
  {
    FormatYearRoundTrip(rows[i].startYear);
    FormatYearRoundTrip(rows[i].endYear);
  }
}
