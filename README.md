# daily_measles.py, modelled in Dafny

`daily_measles.py` loads the JHU county-level measles feed and builds a table of cases per
state per week. The table covers every state of a fixed state-code list for every MMWR week
from 1 January 2025 to the run day. The script then totals cases by state and compares
those totals with a fixed prior-year table. It writes the comparison as a JSON list and the
state-by-week table as a CSV.

The model follows the script stage by stage:

- `Calendar`: dates as day numbers since 1970-01-01, the MMWR week start (the Sunday on or
  before a day), and the sorted list of week starts from a start day to an end day.
- `Location`: Python's `str.split(", ")` and `", ".join` on strings, and upper-casing. The
  load stage splits each `location_name` into county and state, where a label without a
  separator gets a missing state. A feed whose widest label does not split into exactly
  two pieces fails, as the two-column assignment does.
- `Joins`: pandas' `merge(..., how='left')` over value rows, used for all three merges.
- `Grid`: the state × week grid, its left merge with the case records, the in-place
  `fillna` defaults (date = week start, cases = 0, county = `UNKNOWN`) on an array, and
  the state-code merge.
- `Comparison`: the `groupby` sum, built step by step into a map. It also holds `str.title`,
  the prior-year table, the percent change, the change indicator and the JSON object of
  one report row, including the `int(...)` failure on a missing count.
- `Pipeline`: the whole script as a function `DailyMeasles`. `Run` performs the same steps
  imperatively and is proved equal to it. The end-to-end lemmas sit beside it.

Four behaviours of the script are easy to expect otherwise. The model follows the code.
As written, the "..." line of line 62 makes every run raise before the report is written
(`Pipeline.PlaceholderAlwaysRaises`, under "## Findings"). The report facts below are
therefore stated for the 11 listed prior-year rows, with that line removed.

- Several county rows for the same state and week are not summed into one cell. The left
  merge keeps one row per matching record, so a grid key can hold several rows
  (`Grid.CellContents`). Only the later `groupby` sums them.
- New York City is not folded into New York. With the 11 listed prior-year rows (the "..."
  line of line 62 removed), its report row carries the total of the `NEW YORK CITY` rows
  alone (`Pipeline.ListedStateTotal`).
- The state-code list of lines 24-27 is abbreviated to four entries: Alabama, Alaska,
  Arizona and New York City. The grid holds no other state, so the merge of line 39 drops
  every record of any other state. With the 11 listed prior-year rows (the "..." line of
  line 62 removed), seven prior-year states are therefore reported with 0 current-year
  cases and a falling indicator, whatever the feed holds:
  California, Illinois, Minnesota, New York, Oregon, Texas and Washington
  (`Pipeline.UnlistedStatesReportZero`).
- Negative case values are not coerced to 0. Cases are plain integers.

## Model

| member | source | states |
|---|---|---|
| Calendar.WeekStart | daily_measles.py:21 | The week start of a day is a Sunday, at most six days before the day. |
| Calendar.WeekStartUnique | daily_measles.py:21 | Any Sunday whose seven-day week holds the day is that day's week start. |
| Calendar.SameWeek | daily_measles.py:21-22 | Two days share a week start exactly when the second lies in the first one's week. |
| Calendar.WeekStartMonotonic | daily_measles.py:21-22 | A later day never has an earlier week start. |
| Calendar.AllWeeksSpec | daily_measles.py:30-32 | The week list is strictly ascending. Its entries are Sundays seven days apart. It holds exactly the week starts of the days in the range. |
| Location.UpperAppend | daily_measles.py:17-18 | Upper-casing distributes over concatenation. |
| Location.JoinSplit | daily_measles.py:15 | Joining the pieces of a split with ", " gives back the label. |
| Location.SplitPiecesClean | daily_measles.py:15 | No piece of a split contains the separator. |
| Location.SplitAfterPiece | daily_measles.py:15 | A separator-free prefix followed by ", " splits off as the first piece. |
| Location.TwoPieces | daily_measles.py:15 | A label splits into two pieces exactly when it is two separator-free parts joined by ", ". |
| Location.ParseTwoSided | daily_measles.py:15-18 | "county, state" parses to the upper-cased county and state, which rejoin to the upper-cased label. |
| Location.ParseRejoins | daily_measles.py:15-18 | A parsed label has a state exactly when it contains ", ". County and state rejoin to the upper-cased label. Without a state, the county is the whole upper-cased label. |
| Location.LoadRecords | daily_measles.py:14-22 | The load succeeds exactly when every label splits into at most two pieces and some label splits into two. On success, each row keeps its label, date and cases, gets its day's MMWR week start, and has a state exactly when its label has a separator. |
| Joins.LeftJoinRows | daily_measles.py:39 | Every joined row comes from a left row. A filled right side is a matching right row. A missing right side means no right row matched. |
| Joins.LeftJoinKeys | daily_measles.py:39 | Every left row appears in the join. |
| Joins.LeftJoinSound | daily_measles.py:39 | The join's left column holds exactly the left table's rows, with right sides as in `LeftJoinRows`. |
| Joins.SelectLeftJoin | daily_measles.py:39 | With distinct left keys, a key receives one row per matching right row, in right-table order, or one row with a missing right side. |
| Joins.LeftJoinAtMostOne | daily_measles.py:43 | When no left row matches more than one right row, the join has the left table's length, and row i is left row i beside its match or a missing cell. |
| Grid.Unique | daily_measles.py:35 | `unique()` keeps exactly the values of its input, each once. |
| Grid.UniqueOrder | daily_measles.py:35 | `unique()` lists the values in order of their first appearance. |
| Grid.UniqueOfDistinct | daily_measles.py:35 | On a list without repeats, `unique()` returns the list unchanged. |
| Grid.ProductLength | daily_measles.py:36 | The grid has one key per state per week. |
| Grid.ProductMembers | daily_measles.py:36 | A key is in the grid exactly when its state and week are in the lists. |
| Grid.ProductDistinct | daily_measles.py:36 | Distinct states and distinct weeks give distinct grid keys. |
| Grid.FillMissing | daily_measles.py:40-42 | The in-place fill leaves each array row as the row with its missing date, cases and county defaulted. |
| Grid.GridCovers | daily_measles.py:35-42 | Every state-week pair has a row in the completed table. |
| Grid.GridBounded | daily_measles.py:35-42 | Every row of the completed table has a grid state and a grid week. |
| Grid.CellContents | daily_measles.py:39-42 | A grid key's rows are one per matching record, holding that record's values, or exactly one default row (0 cases, county UNKNOWN, date the week start) when nothing matches. |
| Grid.AtMostOneCode | daily_measles.py:43 | With distinct state names in the code table, a row matches at most one code entry, and matches one exactly when its state is listed. |
| Grid.CodesOneToOne | daily_measles.py:43 | Attaching codes keeps the table's rows one-for-one. Each row gets the entry of its own state, present exactly when its state is listed. |
| Grid.StateCodesDistinct | daily_measles.py:24-27 | The fixed code table has distinct state names. |
| Comparison.TitleInjective | daily_measles.py:47 | On names without lower-case letters, title-casing two names gives the same result exactly when the names are equal. |
| Comparison.TitleFromAt | daily_measles.py:47 | Character k of a title-cased name depends only on character k and on whether the character before it is a letter. |
| Comparison.TitleShapeDiffers | daily_measles.py:47 | Names of different lengths, or starting with different letters, title-case to different names. |
| Comparison.GroupTotals | daily_measles.py:46 | The totals map has a key exactly for each state in the table, holding the sum of that state's cases. |
| Comparison.StateTotalAbsent | daily_measles.py:46 | A state with no rows totals 0. |
| Comparison.TotalsAddUp | daily_measles.py:46 | The per-state totals add up to the sum of all cases. |
| Comparison.SummaryNamesDistinct | daily_measles.py:46-48 | With upper-case states, the summary's title-cased names are distinct. |
| Comparison.SummaryLookup | daily_measles.py:46-48 | The summary gives a state's title-cased name that state's total. |
| Comparison.CurrentForAt | daily_measles.py:46-48 | With distinct names, looking up a summary row's name gives that row's total. |
| Comparison.MatchesByName | daily_measles.py:68 | With distinct summary names, a prior-year row matches at most one summary row, and its match is the row with its name. |
| Comparison.PercentChange | daily_measles.py:70-73 | The change is undefined exactly when the prior count is 0 or missing. Otherwise, times the prior count, it equals 100 times the difference. |
| Comparison.ChangeIndicator | daily_measles.py:75-84 | Up, down or flat exactly when the current count is above, below or equal to the prior count. No indicator when the prior count is missing. |
| Comparison.PercentAgreesWithIndicator | daily_measles.py:70-82 | For a positive prior count, the percent change is positive, negative or zero exactly when the indicator is up, down or flat. |
| Comparison.CompareKeepsBaseline | daily_measles.py:65-84 | The report has one row per prior-year row, in order. Each row has the title-cased name, the prior count, the summary total under that name, and the change and indicator of those counts. |
| Comparison.CurrentForUntitled | daily_measles.py:68-69 | A name that no table state title-cases to gets current count 0. |
| Comparison.CurrentForAbsent | daily_measles.py:69 | A name missing from the summary gets current count 0. |
| Comparison.GetAt | daily_measles.py:87-94 | In an object with distinct keys, looking up a key gives its value. |
| Comparison.JsonOfCounts | daily_measles.py:86-95 | An object with a prior count always has the state, both counts and the indicator symbol. It has "Percent Change" exactly when the prior count is not 0, and then holds the change. |
| Comparison.MakeJsonList | daily_measles.py:97 | The list is written exactly when every row has a prior count. It has one object per row, each the row's object. |
| Comparison.ReportWritable | daily_measles.py:86-97 | The report writes exactly when every prior-year row has a count. |
| Pipeline.BuildCaseTable | daily_measles.py:35-43 | The grid merged, filled in place on an array and code-merged is the case table. |
| Pipeline.SummarizeTable | daily_measles.py:46-48 | The step-by-step group sum gives the state summary. |
| Pipeline.Run | daily_measles.py:13-97 | The imperative run equals `DailyMeasles` with the fixed code and prior-year tables. |
| Pipeline.TableIsCompleteGrid | daily_measles.py:35-43 | The case table's rows are the completed grid, one-for-one. Every state is upper case. |
| Pipeline.SummaryDistinct | daily_measles.py:46-48 | With the fixed code table, the summary has one row per name. |
| Pipeline.ReportNeverRaises | daily_measles.py:51-61 | With the 11 listed prior-year rows, writing the report never raises, whatever the feed holds. |
| Pipeline.PlaceholderAlwaysRaises | daily_measles.py:62 | With the "..." line read as a row, every run fails, whatever the feed holds. |
| Pipeline.RunFailsOnlyOnLoad | daily_measles.py:14-97 | With the 11 listed prior-year rows (the "..." line of line 62 removed), a run succeeds exactly when the feed's labels split into two columns. |
| Pipeline.GridStates | daily_measles.py:24-35 | The grid's states are the four code-table names, in table order. |
| Pipeline.TableStates | daily_measles.py:24-43 | Every state of the case table is one of the four code-table states. |
| Pipeline.UnlistedByShape | daily_measles.py:24-27 | A name that differs from each code state's name in length, or in a cased first letter, title-cases differently from all of them. |
| Pipeline.UnlistedCurrentZero | daily_measles.py:24-69 | The summary total under any name that no code state title-cases to is 0. |
| Pipeline.ReportRowAt | daily_measles.py:64-97 | Object i of a report names baseline state i, title-cased. It holds the summary's total under that title and the matching indicator. |
| Pipeline.UnlistedRowZero | daily_measles.py:24-97 | With the 11 listed prior-year rows (the "..." line of line 62 removed), one prior-year row for a state missing from the code table reports 0 current-year cases and a falling indicator. |
| Pipeline.UnlistedStatesReportZero | daily_measles.py:24-97 | With the 11 listed prior-year rows (the "..." line of line 62 removed), California, Illinois, Minnesota, New York, Oregon, Texas and Washington are reported with 0 current-year cases and a falling indicator, whatever the feed holds. |
| Pipeline.ListedStateTotal | daily_measles.py:24-69 | With the 11 listed prior-year rows (the "..." line of line 62 removed), a prior-year row whose name title-cases like a code state's reports exactly that state's own total, so New York City's cases stay on their own row. |
| Pipeline.ReportFollowsBaseline | daily_measles.py:64-97 | A successful report has one object per prior-year row, in order. Object i is the object of that state with its prior count and the summary's total under its title. |

## Left out

- The HTTP fetch of the feed (line 14) is left out. The feed is a parameter, a sequence of rows whose dates are already parsed.
- CSV parsing and pandas dtype handling are left out. Feed columns other than `location_name`, `date` and `value` are left out, and so is the drop of `location_type` (line 16).
- `date.today()` (line 31) is the `today` parameter of `DailyMeasles` and `Run`.
- The epiweeks library's week numbering is left out. Only `startdate()` is modelled: the Sunday on or before the day.
- Upper-casing and title-casing are modelled on ASCII letters only. Python's Unicode case tables are left out.
- Comparison.PercentChange: the 4-decimal rounding of line 72 is not modelled. The change is the exact rational value, so the rounded float is left out.
- Comparison.Summary: the rows come in order of first appearance, while `groupby` sorts them by state. The only consumer is the name-keyed merge of line 68, so the order never reaches an output.
- The NaN keys of pandas merges are left out. A record without a state never matches a grid key. Grid states are never missing, so this matches pandas.
- An empty feed is treated as a load failure, like a feed whose labels never split into two columns.
- Writing the JSON and CSV files (lines 99-103) is left out. The model returns the report and the table.
- The prior-year table is read from fixed text (lines 51-64). `Comparison.Baseline2024` holds the 11 listed rows. `Comparison.Baseline2024AsWritten` adds the placeholder line as read.

## Findings

| source | as written | input that shows it | evidently intended | confidence | as-written member | corrected member |
|---|---|---|---|---|---|---|
| daily_measles.py:62 | The prior-year text ends with a "..." line. `read_csv` reads it as a state "..." with a missing count, and `int(...)` on line 89 raises for that row. | Any feed whose labels split into two columns, on any day. | A prior-year table of the listed states only, which writes the report for every feed that loads. | not executed | Pipeline.PlaceholderAlwaysRaises | Pipeline.ReportNeverRaises |
