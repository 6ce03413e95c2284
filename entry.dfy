/** The checks a new entry must pass before it is appended to the table:
    chronology first, then the required text fields, and the first failing
    check decides the one message shown. */
module Entry {
  import opened Schema

  datatype Rejection = ChronologyError | BlankField

  datatype Verdict = Accepted | Rejected(reason: Rejection)

  const ChronologyMessage: string := "Start Year must be less than or equal to End Year."
  const BlankMessage: string := "1 or more field left blank"

  /** The message shown for a rejected entry. */
  function Message(r: Rejection): (msg: string)
    ensures msg == ChronologyMessage <==> r == ChronologyError
    ensures msg == BlankMessage <==> r == BlankField
  {
    match r
    case ChronologyError => ChronologyMessage
    case BlankField => BlankMessage
  }

  /** The twelve text fields that must be filled in, in the order the form
      checks them; numeric fields are never among them. */
  function RequiredTexts(e: Record): seq<Cell>
  {
    [e.dynasty, e.king, e.capital, e.successor, e.achievements, e.events,
     e.occupiedZone, e.wars, e.rituals, e.malpractices, e.employment, e.diets]
  }

  /** A field counts as left blank when it is the empty string or absent. */
  predicate IsBlank(c: Cell)
  {
    c == Some("") || c == None
  }

  /** Whether any of `fields` is blank, scanning them in order. */
  function AnyBlank(fields: seq<Cell>): (b: bool)
    ensures b <==> exists i :: 0 <= i < |fields| && IsBlank(fields[i])
  {
    if fields == [] then false
    else if IsBlank(fields[0]) then true
    else
      var rest := AnyBlank(fields[1..]);
      assert forall i :: 1 <= i < |fields| ==> fields[i] == fields[1..][i - 1];
      rest
  }

  /** The condition every admitted row satisfies: its start year is not after
      its end year, and none of its required text fields is blank. */
  predicate Admissible(e: Record)
  {
    e.startYear <= e.endYear &&
    forall i :: 0 <= i < |RequiredTexts(e)| ==> RequiredTexts(e)[i] != None && RequiredTexts(e)[i] != Some("")
  }

  /** The outcome of pressing "Add Entry" with the form holding `e`. */
  function Validate(e: Record): (v: Verdict)
    ensures v == Rejected(ChronologyError) <==> e.startYear > e.endYear
    ensures v == Rejected(BlankField) <==>
      e.startYear <= e.endYear && exists i :: 0 <= i < |RequiredTexts(e)| && IsBlank(RequiredTexts(e)[i])
    ensures v == Accepted <==> Admissible(e)
  {
    if e.startYear > e.endYear then Rejected(ChronologyError)
    else if AnyBlank(RequiredTexts(e)) then Rejected(BlankField)
    else Accepted
  }

  /** The verdict depends only on the two years and the twelve required text
      fields: ratings, populations and nothing else can change it. */
  lemma VerdictIgnoresOtherFields(e: Record, e': Record)
    requires e.startYear == e'.startYear && e.endYear == e'.endYear
    requires RequiredTexts(e) == RequiredTexts(e')
    ensures Validate(e) == Validate(e')
  {
  }
}
