# Profit & loss dashboard: the data pipeline

The dashboard in `mytrade.py` fetches a Google Sheet as CSV, normalises it in
`load_data`, and shows a handful of figures computed from it. This project is
a Dafny model of that pipeline. The fetched sheet is given as text, a header
row and rows of cells (`Table.RawTable`). The model covers the following,
with proofs about each:

- **Header normalisation.** Every column name goes through Python's
  `str.strip()`, with Python's whitespace set (module `Text`).
- **Column lookup.** `df[name]` on the stripped header finds the one column
  with that name. It fails when no column has the name or when several do
  (`Table.Lookup`).
- **Date parsing.** The `date` column is parsed strictly, the way
  `pd.to_datetime(..., format="%d %b")` does (module `Dates`):
  - a day and an abbreviated English month, in any letter case, with one or
    more whitespace characters between them;
  - the parser's default year, 1900, so `29 Feb` is rejected;
  - missing markers (an empty cell, `NaN`, `N/A`, …) become NaT.

  Any other text fails the whole load at the first bad row.
- **Sorting.** `sort_values("date")` becomes a sort on the parsed dates, with
  NaT last (`Table.SortByDate`). It is proved to return a permutation that is
  ordered by date.
- **Cleaning the money columns.** The `for col in [...]` loop
  (`Loader.CleanMoneyColumns`) visits `money in`, `gain/loss`, `money out`
  and `overall money` in order. It deletes every `,` from each cell, reads
  the rest as a decimal number, and turns anything that is not a number into
  0 (module `Amounts`). Amounts are exact rationals (`real`).
- **The whole of `load_data`.** `Loader.LoadData` is proved equal, up to row
  order, to a sheet-order reference `Table.InputOrder`. It fails exactly when
  the reference fails, its rows are sorted by date, and each row holds the
  cleaned cells of its own sheet row.
- **The summary figures** (module `Metrics`):
  - total P&L, total in and total out as column sums;
  - the current balance as the last row's `overall money`;
  - the best and worst day as the first row with the largest and the
    smallest gain/loss.

  `Metrics.Summarize` fails on an empty table, as `iloc[-1]` on line 81
  faults there. The sums alone are 0 on an empty table.

`sort_values` is not stable, so the model promises no order for rows with the
same date. `Metrics.SummaryIgnoresRowOrder` shows that the tie order does not
change the totals or the best and worst gain/loss values.
`Metrics.CurrentBalanceOnTiedLastDay` shows that it can change the current
balance: when the last date is shared, `iloc[-1]` picks whichever of those
rows the sort happened to put last.

Three points about the code that decide what the model does:

- **Year.** `load_data` passes no reference year, so every date gets
  `strptime`'s default year, 1900. Ordering comes down to (month, day).
- **Sorting.** `sort_values` uses an unstable quicksort.
- **Missing dates.** An empty or missing `date` cell is not a format error.
  It loads as NaT and sorts last.

## Model

| member | source | states |
|---|---|---|
| Text.Strip | mytrade.py:24 | stripping never lengthens a header, and a header that neither starts nor ends with whitespace strips to itself |
| Text.StripCutsOnlySpace | mytrade.py:24 | a stripped header neither starts nor ends with whitespace, and is the header with only whitespace cut from either end |
| Text.StripUnique | mytrade.py:24 | the stripped header is the one infix that cuts only whitespace and keeps none at its ends |
| Text.StripIgnoresPadding | mytrade.py:24 | whitespace added around a header does not change the stripped header: `" date "` and `"date"` strip alike |
| Text.StripIdempotent | mytrade.py:24 | stripping a stripped header changes nothing |
| Text.StripAfterTrim | mytrade.py:24 | cutting whitespace off either end of a header before stripping changes nothing |
| Table.StripHeader | mytrade.py:24 | the header keeps its length and each column name is stripped on its own, in place |
| Table.Lookup | mytrade.py:27 | `df[name]` either finds a column holding `name`, or fails as a missing or a duplicated column of that name |
| Table.LookupMeaning | mytrade.py:27 | the lookup succeeds exactly when one column has the name; it reports a missing column exactly when none has it, and a duplicate exactly when two do |
| Table.ColumnLookup | mytrade.py:24-27 | the column whose stripped header alone is `name` is the one `df[name]` finds |
| Table.LookupAll | mytrade.py:31-32 | a successful lookup of the money columns gives one position per name |
| Table.LookupAllMeaning | mytrade.py:31-32 | looking the money columns up succeeds exactly when each one can be looked up, and yields their positions in loop order |
| Table.LookupAllStopsAtFirstFailure | mytrade.py:31-32 | the first money column that cannot be looked up decides the error |
| Dates.IsMissingMarker | mytrade.py:27 | the empty cell is a missing marker, and no marker is longer than eight characters |
| Dates.ParseDayMonth | mytrade.py:27 | what `%d %b` reads is a day from 1 to 31 and a month from 1 to 12 |
| Dates.ParseDate | mytrade.py:27 | a cell reads as NaT exactly when it is a missing marker; it is rejected exactly when it is no marker and either `%d %b` does not match or the day is past the month's end in 1900; a parsed day lies in 1900, is a real calendar day, and is the (day, month) that `%d %b` matched |
| Dates.ParseDateAcceptsSpellings | mytrade.py:27 | a cell parses as day d of month m in 1900 exactly when that is a real day of 1900 and the cell is one `%d` spelling of d (`1`, `01` or ` 1`), a non-empty run of whitespace, and the month's abbreviation in any ASCII letter case |
| Dates.ParseDateRejects | mytrade.py:27 | a cell fails to parse exactly when it is not a missing marker and spells no real day of 1900 |
| Dates.DayMonthOfSpelling | mytrade.py:27 | every spelling of day d, whitespace and month m reads as (d, m) |
| Dates.SpellingOfDayMonth | mytrade.py:27 | whatever `%d %b` reads as (d, m) is a spelling of day d, whitespace and month m |
| Dates.MonthAfterSpelling | mytrade.py:27 | after a day, a run of whitespace and a spelling of month m read as that day and m |
| Dates.MonthSpellingRead | mytrade.py:27 | a month abbreviation in any ASCII letter case reads as its month |
| Dates.MonthReadIsSpelling | mytrade.py:27 | text read as a month is that month's abbreviation in some letter case |
| Dates.OtherSpellingsAccepted | mytrade.py:27 | `" 1 Nov"` and `"01\tnOV"` both parse as 1 November 1900 |
| Dates.MonthNumberOfName | mytrade.py:27 | every month abbreviation reads back as its own month |
| Dates.FormatRoundTrip | mytrade.py:27 | every valid day of 1900 written as `%d %b` parses back to that day |
| Dates.ParseDateExample | mytrade.py:26-27 | `"11 Nov"` parses as 11 November 1900 |
| Dates.LeapDayRejected | mytrade.py:27 | `"29 Feb"` is rejected, since the default year 1900 is not a leap year |
| Dates.DayOutOfRangeRejected | mytrade.py:27 | `"32 Jan"` is rejected |
| Dates.MonthFirstRejected | mytrade.py:27 | `"Nov 11"` is rejected |
| Dates.DayMonthShape | mytrade.py:27 | text that `%d %b` accepts starts with a digit or a space, followed by a digit or whitespace |
| Dates.NoMarkerIsADate | mytrade.py:27 | no missing marker has the shape of a day and a month |
| Dates.StampLe | mytrade.py:28 | every date is ordered with itself, and NaT comes before nothing but NaT |
| Dates.OrderIsMonthDay | mytrade.py:28 | two days of the default year are ordered by (month, day) |
| Dates.StampLeTransitive | mytrade.py:28 | the date order is transitive |
| Dates.StampLeTotal | mytrade.py:28 | any two parsed dates are ordered one way or the other |
| Table.ParseDates | mytrade.py:27 | the date column parses exactly when every cell parses, and then holds each cell's date; otherwise the error names the first row that does not parse |
| Table.ParseDatesStopsAtFirstFailure | mytrade.py:27 | the first cell that does not parse decides the error of the whole column |
| Table.InsertByDate | mytrade.py:28 | inserting a row into sorted rows keeps them sorted and adds exactly that row |
| Table.SortByDate | mytrade.py:28 | the sorted rows are a permutation of the input, ordered by date with NaT last |
| Amounts.RemoveCommas | mytrade.py:32 | no comma is left, text without a comma is unchanged, and text never grows |
| Amounts.ParseUnsigned | mytrade.py:32 | only non-empty text reads as an unsigned number |
| Amounts.ParseNumber | mytrade.py:32 | only non-empty text reads as a number |
| Amounts.CleanAmount | mytrade.py:32 | a cleaned cell is 0 or the number its comma-free text reads as |
| Amounts.RemoveCommasAppend | mytrade.py:32 | deleting commas works piecewise over concatenated text |
| Amounts.ParseUnsignedAcceptsNumerals | mytrade.py:32 | the unsigned reader accepts exactly digits with at most one decimal point and at least one digit |
| Amounts.ParseNumberAcceptsNumerals | mytrade.py:32 | the number reader accepts exactly an optional sign followed by an unsigned numeral |
| Amounts.ParseUnsignedIsNonNegative | mytrade.py:32 | an unsigned numeral reads as a number that is at least 0 |
| Amounts.ParseNumberSign | mytrade.py:32 | a number read after `-` is at most 0; a number read without `-` is at least 0 |
| Amounts.CleanAmountMeaning | mytrade.py:32 | a cell cleans to the value its comma-free text denotes; it cleans to exactly 0 when that text is not a numeral |
| Amounts.CleanIgnoresSeparator | mytrade.py:32 | a comma anywhere in a cell does not change its value |
| Amounts.CleanIsCommaBlind | mytrade.py:32 | a cell and the same cell with all commas deleted clean to the same value |
| Amounts.CleanThousands | mytrade.py:32 | `"1,234"` cleans to 1234 |
| Amounts.CleanNonNumbers | mytrade.py:32 | `""`, `"N/A"` and `"-"` clean to exactly 0 |
| Amounts.UnsignedDigits | mytrade.py:32 | a string of digits reads as its decimal value |
| Amounts.CleanDigits | mytrade.py:32 | a string of digits cleans to its decimal value |
| Amounts.GroupedUngroups | mytrade.py:32 | deleting the commas of digits written in groups of three gives back the digits |
| Amounts.DigitsValueAppend | mytrade.py:32 | two runs of digits written one after the other are worth the first times ten to the length of the second, plus the second |
| Amounts.DecimalSplit | mytrade.py:32 | whole digits plus the fraction digits' value is the value of all the digits over ten to the number of fraction digits |
| Amounts.ParseDecimal | mytrade.py:32 | the numeral `ds.fs` reads as the value of the digits `ds fs` divided by ten to the length of `fs` |
| Amounts.ParseSigned | mytrade.py:32 | an unsigned numeral read after `-` is negated, and after `+` or no sign keeps its value |
| Amounts.CleanDecimal | mytrade.py:32 | a cell whose comma-free text is `ds.fs`, bare or after `+` or `-`, cleans to that decimal value with that sign |
| Amounts.CleanDecimalExample | mytrade.py:32 | `"1,234.50"` cleans to 1234.5 |
| Amounts.CleanGroupedDigits | mytrade.py:32 | digits of value n written with thousands separators clean to n, and to -n after a minus sign |
| Amounts.CleanShownAmount | mytrade.py:32 | every integer written with thousands separators (`-1,234,567`) cleans back to itself |
| Table.CleanRecord | mytrade.py:31-32 | a cleaned record keeps its row's date |
| Loader.CleanColumn | mytrade.py:32 | one cleaned amount per row, each the cleaned cell of that row in that column |
| Table.CleanAll | mytrade.py:31-32 | cleaning keeps the number and the order of the rows, and cleans each row on its own |
| Table.CleanAllAppend | mytrade.py:31-32 | cleaning works piecewise over concatenated tables |
| Table.CleanCommutesWithPermutation | mytrade.py:28-32 | cleaning two permutations of the same rows gives permutations of the same records, so cleaning commutes with the sort |
| Table.CleanKeepsOrder | mytrade.py:28-32 | cleaning keeps the dates, so rows sorted before cleaning are sorted after |
| Table.InputOrder | mytrade.py:22-34 | the load succeeds exactly when `date` can be looked up, every date cell parses and every money column can be looked up; a successful load has one record per row |
| Table.LoadedRowContents | mytrade.py:24-32 | each loaded record holds its row's parsed date and the cleaned cells of the columns whose stripped headers are the four money names |
| Table.LoadedDatesInDefaultYear | mytrade.py:27 | every loaded date is NaT or a valid day of 1900 |
| Table.LoadNeedsDateColumn | mytrade.py:27 | without a column whose stripped header is `date`, the load fails naming `date` |
| Table.LoadFailsOnBadDate | mytrade.py:27 | the first row whose date does not parse fails the whole load with that row and text, and no table is produced |
| Table.LoadSeesStrippedHeader | mytrade.py:24 | two sheets with the same stripped header and rows load alike |
| Table.PaddedHeaderLoadsAlike | mytrade.py:24 | padding any header with whitespace changes nothing about the load |
| Loader.CleanMoneyColumns | mytrade.py:31-32 | the loop fails with the error of the first money column it cannot look up; otherwise every row has its four money columns cleaned |
| Loader.AssembleCleans | mytrade.py:31-32 | writing the four cleaned columns back into the table cleans every row |
| Loader.LoadData | mytrade.py:22-34 | the load fails exactly when the sheet-order load fails, with the same error; otherwise it returns one record per row, sorted by date, a permutation of the sheet-order records, every date NaT or in 1900 |
| Metrics.Sum | mytrade.py:80 | the total of an empty column is 0, and of one row it is that row's amount |
| Metrics.SumAppend | mytrade.py:80 | a column total is additive over concatenated tables |
| Metrics.SumRemove | mytrade.py:80 | taking one row out of a table takes its value out of the total |
| Metrics.SumPermutation | mytrade.py:80 | a column total does not depend on the order of the rows |
| Metrics.SumBounds | mytrade.py:80 | a total lies between the row count times the smallest value and times the largest |
| Metrics.CurrentBalance | mytrade.py:81 | fails exactly on an empty table; otherwise it is the last row's overall money, and on sorted rows that row has the latest date |
| Metrics.FirstMaxIndex | mytrade.py:82 | `idxmax` is a row whose gain/loss is at least every row's, and every earlier row's is smaller |
| Metrics.FirstMaxIsUnique | mytrade.py:82 | only one row is the first to hold the largest value |
| Metrics.FirstMinIndex | mytrade.py:83 | `idxmin` is a row whose gain/loss is at most every row's, and every earlier row's is larger |
| Metrics.FirstMinIsUnique | mytrade.py:83 | only one row is the first to hold the smallest value |
| Metrics.Summarize | mytrade.py:80-100 | fails exactly on an empty table; total P&L (line 80), total in (line 96) and total out (line 100) are the column sums, the balance is the last row's, best and worst day are the first rows with the largest and smallest gain/loss |
| Metrics.SummaryIgnoresRowOrder | mytrade.py:80-83 | reordering the rows changes neither the three totals nor the best and worst gain/loss values |
| Metrics.PnlBetweenWorstAndBest | mytrade.py:80-83 | the total P&L lies between the row count times the worst day's gain/loss and times the best day's |
| Metrics.SummaryExample | mytrade.py:80-83 | two November rows give total P&L 300, balance 1300, and the 6th and the 5th as best and worst day |
| Metrics.CurrentBalanceOnTiedLastDay | mytrade.py:81 | two sorted orders of the same rows can give different current balances when the last date is shared |

## Left out

- Streamlit is not modelled: the page setup, the refresh button, the cache clear and rerun, and the ten-minute `st.cache_data` memo. They are framework state and wall-clock time.
- The network fetch is not modelled. `pd.read_csv(SHEET_URL)` has already happened: the model starts from the header and the cell texts it produces.
- CSV parsing is not modelled: quoting, type inference and rows longer than the header. A cell missing from a short row reads as empty text, as `read_csv` fills it with NaN.
- The charts, the `₹` and `:,.0f` display formats, `strftime` for display and the `datetime.now()` footer are presentation and the clock.
- Columns other than `date` and the four money columns are dropped from the loaded records, since nothing downstream reads them.
- Amounts are exact rationals, not float64: rounding and negative zero are not modelled.
- The number grammar is an optional sign, then digits with at most one decimal point and at least one digit. Exponents, `inf`, `nan` as text, and whitespace around a number are outside it and clean to 0 here. pandas would read some of them as numbers.
- Month names are matched with ASCII case folding in the C locale. Other locales and Unicode case folding are not modelled.
- Day digits are ASCII only. The `%d` pattern also accepts other Unicode decimal digits in its second position, so pandas reads `"1٥ Nov"` as 15 November; the model rejects it.
- Dates.ParseDate: date cells that pandas recognises as missing are the fixed list in `IsMissingMarker`. Custom `na_values` are not modelled.
- Table.SortByDate: the output order of rows with the same date is not stated. `sort_values` uses an unstable quicksort, so the model proves only that the result is a sorted permutation.
- Table.Lookup: with duplicated stripped headers, pandas returns a two-column frame, and a later call fails with its own exception type. The model reports `DuplicateColumn` instead and does not name that exception.
- `reset_index(drop=True)` is implicit: rows are a sequence, so after the sort their positions are 0 to n-1.
