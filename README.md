# History Timeline: the record table and its views

History Timeline is a small Streamlit page. It keeps a table of historical
dynasties, one row per dynasty or reign. Each row holds:

- the dynasty and king;
- a start and an end year (negative for BC);
- ten descriptive text fields;
- ten rating indices from 0 to 10;
- nine population counts.

A sidebar form appends new rows. A search box narrows the table. The page then
draws a timeline with "N BC" / "N AD" labels and a selector of dynasties. For
the selected dynasty it draws a bar chart of its ratings and a pie of its
population.

This project models the logic under that page in Dafny:

- `Schema` (`schema.dfy`): the row (`Record`) and its rating and population
  columns. A missing text cell (NaN in the spreadsheet, or None) is `None`.
- `YearLabel` (`year_label.dfy`): the year formatter and the two label
  columns it adds to every row.
- `Entry` (`entry.dfy`): the checks made when "Add Entry" is pressed, and
  their two messages.
- `App` (`table.dfy`): the table as a class whose `rows` the form extends and
  the search replaces, plus two end-to-end scenarios.
- `Views` (`views.dfy`): the derived views. These are the search filter, the
  selector's options, the long-format (melted) ratings, the population pie, and
  the test that decides whether the two charts are drawn.
- `Seqs` and `Text` (`seqs.dfy`, `text.dfy`): the building blocks. `Seqs` has
  order-preserving selection and distinct values in order of first appearance.
  `Text` has decimal numerals, ASCII lower-casing and literal substring search.

Notes on the model:

- The year formatter returns the integer `0` for year 0 and text for every
  other year. So a label is `Num(n) | Str(s)`.
- The blank-field check covers twelve text fields, dynasty and king included.
  It never looks at the numeric fields.
- Selecting a dynasty for the two charts uses exact equality. Pandas' `==`
  never matches a missing cell, so the model does not either. This is not the
  case-insensitive substring match that the search box uses.
- Pandas' `melt` stacks whole columns. So the ratings table lists every
  selected row's Economy value first, then every Political value, and so on.
  Row `c * m + j` is rating `c` of the `j`-th selected row.

## Model

| member | source | states |
|---|---|---|
| `YearLabel.FormatYear` | app.py:41-50 | the label is the number 0 exactly for year 0; otherwise it is text ending in " BC" exactly for negative years and in " AD" exactly for positive ones, and it never starts with a zero digit |
| `YearLabel.FormatYearRoundTrip` | app.py:41-50 | every label reads back as the year it was made from ("N BC" as -N, "N AD" as N, 0 as 0) |
| `YearLabel.FormatYearInjective` | app.py:41-50 | two years get the same label if and only if they are equal |
| `Text.NatToString` | app.py:44-48 | the number printed in a label is a non-empty string of decimal digits with no leading zero, except for 0 itself |
| `Text.NatToStringRoundTrip` | app.py:44-48 | the printed digits have the value of the number printed |
| `YearLabel.TimelineRows` | app.py:53-54 | adding the Beginning and End columns keeps the row count and the order; each row keeps its fields and gains the labels of its own start and end years |
| `YearLabel.TimelineLabelsReadBack` | app.py:53-54 | in every row, the Beginning and End labels read back as that row's start and end years |
| `Entry.AnyBlank` | app.py:166-167 | the blank scan is true exactly when some field is the empty string or absent |
| `Entry.Message` | app.py:163-168 | each rejection has its own message: "Start Year must be less than or equal to End Year." for chronology and "1 or more field left blank" for a blank field |
| `Entry.Validate` | app.py:163-169 | a start year after the end year is rejected for chronology, whatever the other fields hold; otherwise an entry with a blank required field is rejected for that; an entry is accepted exactly when its years are in order (equal years allowed) and all twelve required fields are filled |
| `Entry.VerdictIgnoresOtherFields` | app.py:166-167 | two entries with the same years and the same twelve required text fields get the same verdict, so ratings and populations never cause a rejection |
| `App.Table.constructor` | app.py:13-15 | a store that does not exist yet gives an empty table |
| `App.Table.AddEntry` | app.py:162-179 | years out of order: the chronology message, table unchanged; years in order but a blank field: the blank-field message, table unchanged; otherwise no message, and the new table is the old rows in their order followed by the entry |
| `App.Table.ApplySearch` | app.py:185-187 | the table becomes the rows the search keeps |
| `App.MauryaAdmissible` | app.py:163-169 | the Maurya entry (years -322 to -185, every text field "x") passes both checks |
| `App.MauryaTimeline` | app.py:41-54 | the Maurya row is labelled "322 BC" to "185 BC" on the timeline |
| `App.MauryaPie` | app.py:93-106 | for a table holding only the Maurya row with zero counts, its pie is nine zeros named Hindu, Muslim, Jain, Buddha, Sikh, French, British, Others, Christian |
| `Text.ContainsHasOccurrence` | app.py:187 | when the substring test holds, the query occurs at some position of the dynasty name |
| `Text.OccurrenceIsContained` | app.py:187 | when the query occurs at any position of the name, the substring test holds |
| `Seqs.Filter` | app.py:187 | a boolean-mask selection keeps exactly the rows that satisfy the mask, in their original order: a subsequence whose every row satisfies it, as long as the number of satisfying rows |
| `Views.Search` | app.py:185-187 | an empty query leaves the table unchanged; otherwise the result has exactly the rows whose present dynasty contains the query ignoring case, in their original order; a missing dynasty never matches; the result is always a subsequence of the table |
| `Views.SearchIgnoresCase` | app.py:187 | queries that differ only in letter case (for example "MAURYA" and "maurya") keep the same rows |
| `Views.EmptyQueryIsNotMatchAll` | app.py:186-187 | when some row lacks a dynasty, the empty query's no-op differs from matching the empty string, which would drop that row |
| `Seqs.Unique` | app.py:193 | the distinct values of a column: no duplicates, every value of the column present, nothing else |
| `Seqs.UniqueKeepsFirstAppearanceOrder` | app.py:193 | the distinct values come in the order of their first occurrence |
| `Views.SelectorOptions` | app.py:193 | the selector offers each Dynasty cell of the table once; every option is the dynasty of some row, and every row's dynasty is offered |
| `Views.SelectorOptionsInFirstAppearanceOrder` | app.py:193 | the options come in the order in which each dynasty first appears in the table |
| `Views.SearchedOptionsArePresent` | app.py:186-193 | after a non-empty search, every option is a present dynasty name |
| `Views.Selection` | app.py:73 | the rows selected for the charts are exactly those whose dynasty equals the selection, in table order |
| `Views.Melt` | app.py:72-77 | the long-format ratings have ten rows per selected row, and every one carries the selected dynasty |
| `Views.MeltAt` | app.py:74-77 | with `m` rows selected, row `c * m + j` holds the name of the `c`-th rating of Economy, Political, Science, Education, Craft, Humanity, Kindness, Law, Justice, Religion, and that rating's value in the `j`-th selected row; nothing is aggregated |
| `Views.MeltCategoryTotal` | app.py:72-81 | summing a category's values, as the bar chart does, gives the total of that rating over the selected rows |
| `Views.PieOf` | app.py:95-106 | the pie has nine values and nine names, and the value at each position is the count of the group named at that position, in the order Hindu, Muslim, Jain, Buddha, Sikh, French, British, Others, Christian |
| `Views.PopulationView` | app.py:93-106 | there is no pie (the first-row lookup fails) exactly when no row has the selected dynasty |
| `Views.PopulationFromFirstMatch` | app.py:93-103 | the pie is that of the first row of the selected dynasty, whatever later rows of the dynasty hold |
| `Views.Truthy` | app.py:198 | the page's truthiness test passes exactly the present, non-empty dynasty names and, besides them, the missing cell |
| `Views.TruthyAdmitsMissingDynasty` | app.py:163-203 | an entry with its Dynasty typed as "NA" and every other field filled passes both checks; once that dynasty is read back as a missing cell, a table holding the row offers the missing cell, the page's truthiness test passes it, and no row matches it, so the pie has no first row |
| `Views.SelectableOptionHasRows` | app.py:193-203 | an offered option that is a present, non-empty name always has a pie and at least ten rating rows |
| `Views.ChartsFor` | app.py:198-203 | the charts are drawn exactly when the choice is a present, non-empty name; they are then the melted ratings and the pie of that dynasty |

## Left out

- Reading and writing the spreadsheet store (`load_data`, `to_excel`) is file I/O. Only its empty starting table is modelled, as the constructor; the column list of that empty file is not. Reading the store back also turns texts such as "NA", "None" and "nan" into missing cells; that conversion is not modelled, but the missing cells it produces are.
- The Streamlit widgets, sidebar, page setup, CSS, icon, `st.error` and the rerun are UI. The form's values are the argument of `AddEntry`, and the number widgets' ranges are its precondition `InWidgetRanges`. The error display is the returned message.
- Building the Altair and Plotly charts is left out: axes, sorting, colours, tooltips, the `sum(Value)` aggregation and pie percentages. Only the datasets handed to them are modelled, plus the sum as `MeltCategoryTotal`.
- Views.Search: the query is a literal substring, and case is folded for ASCII letters only. Pandas reads the query as a regular expression and folds case with Unicode rules. So queries with regex metacharacters or non-ASCII letters are not modelled faithfully.
- Pandas dtype coercion is left out. This covers NaN values in numeric columns after a `concat` with mismatched columns, and non-string values in text columns. Numbers are unbounded integers and text cells are strings or missing.

## Findings

| source | as written | input that shows it | evidently intended | confidence | as-written member | corrected member |
|---|---|---|---|---|---|---|
| app.py:193-203 | `unique()` keeps a missing Dynasty (NaN) as an option, and `if selected_dynasty:` treats NaN as true. `display_pop_chart` then selects no row (NaN equals nothing) and reads `iloc[0]` of an empty frame | a Dynasty typed as "NA" (or "N/A", "None", "nan", "null") with every other field filled: the blank check at app.py:166 lets it through, app.py:180-181 write it to the store and rerun, and `read_excel` at app.py:11 reads it back as a missing cell; then an empty search query and that row's option chosen (the default when it is the first row) | draw the charts only for a present, non-empty dynasty name, which always has a first row | medium, not executed; relies on pandas' default missing-value strings when reading the store | `Views.TruthyAdmitsMissingDynasty` | `Views.ChartsFor` |
