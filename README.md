# Supermarket sales cleaning core, in Dafny

This project models the in-memory stages of `clean_data.py`, the pipeline that cleans the supermarket sales table. It proves properties of four stages:

- **`clean_strings`** strips every text (`object`) column. It then recodes Gender (`Male`→`M`, `Female`→`F`) and Customer type (`Member`→`M`, `Normal`→`N`).
- **`optimize_types`** retags six columns as categorical. It then joins `Date` and `Time` with one space and parses the result with the format `%m/%d/%Y %I:%M:%S %p`, all or nothing. The parsed column is stored as `Full_Date`, and `Date` and `Time` are dropped.
- **`validate_financial_integrity`** reports whether every row satisfies Sales ≈ cogs + Tax 5% under numpy's `isclose` tolerance. Otherwise it reports how many rows do not.
- **`generate_quality_summary`** computes its count columns per column: dtype, total rows, non-null count, missing percentage, distinct count, zero count and negative count.

The table is a value `Table.Frame`: named, typed columns of optional cells (`Missing` is NaN/NaT), all of the same length and with distinct names.

The two stages that mutate the table in place are methods of the class `Frames.DataFrame`:

- `CleanStrings` loops over the columns.
- `OptimizeTypes` loops over the six category names.

Each method is proved to leave the object in exactly the state described by a specification function (`Normalize.CleanStringsEffect`, `Optimize.OptimizeTypesEffect`). The two stages can raise part-way through, so these functions also describe the partial changes pandas leaves behind when a lookup raises `KeyError`. The properties of the stages are lemmas about those functions. The two read-only stages are pure functions with lemmas.

Modules:

- `Table`: the data model, column lookup, and counting.
- `Text`: Python's `str.strip()`.
- `Normalize`: `clean_strings`.
- `DateTimeFormat`: the date-time format.
- `Spelling`: every way of writing a value in that format, and what the parse makes of each.
- `Optimize`: `optimize_types`.
- `Integrity`: `validate_financial_integrity`.
- `Summary`: `generate_quality_summary`.
- `Frames`: the mutable table class.

Behaviour of the code that the model keeps:

- **Tolerance.** The tolerance is `atol=0.01` plus numpy's default `rtol=1e-05` times |cogs + Tax 5%| (`Integrity.RelativeToleranceExample`).
- **Single digits.** `%m`, `%d` and `%I` accept a single digit, and `%d` also a space and one digit (`DateTimeFormat.ParseShortForms`, `Spelling.ParseSpell`).
- **Distinct count.** `nunique` counts distinct non-null values: the column [0, 0, 5, -3, NaN] has 3 (`Summary.SummaryExample`).
- **In-place updates.** Both stages mutate the caller's table before returning, so a stage that raises leaves its earlier changes behind. `optimize_types` then returns the new frame that `drop` makes.
- **Masked addition.** When text is added to a numeric column, pandas retries the add on the rows where both sides are present and leaves NaN on the others (`Table.AddRaises`). So a Time column left empty in the CSV (float64 NaN) joins to NaT rather than raising (`Optimize.OptimizeTypesNumericTime`), and text cogs with no number beside them add to NaN (`Integrity.ValidateTextCogs`).
- **Extra errors.** `validate_financial_integrity` can also raise `TypeError` on non-numeric columns.

## Model

| member | source | states |
|---|---|---|
| Table.Lookup | clean_data.py:33-34 | a column found has the name looked up; nothing is found exactly when no column has that name (`KeyError`) |
| Table.CountIf | clean_data.py:90-91 | the count equals the number of positions where the predicate holds and is at most the length |
| Table.CountIfComplement | clean_data.py:87-88 | positions where a predicate holds and where it fails add up to the length |
| Text.Strip | clean_data.py:30 | the result has no whitespace (Python `isspace`) at either end and is no longer than the input |
| Text.StripIsMiddle | clean_data.py:30 | whitespace, then a trimmed middle, then whitespace: strip returns exactly that middle |
| Text.StripIdempotent | clean_data.py:30 | stripping twice is stripping once |
| Normalize.StripCell | clean_data.py:30 | `.str.strip()` turns a string into a trimmed string and any other value into NaN |
| Normalize.StripColumn | clean_data.py:27-30 | stripping a column keeps its name, its dtype and its number of cells |
| Normalize.StripText | clean_data.py:27-30 | stripping the text columns keeps the row count, the number of columns, and each column's name and cell count |
| Normalize.RecodeValue | clean_data.py:33-34 | `replace` maps a string that is a key of the table to one of the table's codes and leaves every other value as it was |
| Normalize.Recode | clean_data.py:33-34 | recoding a column keeps its name and cell count, keeps it categorical or not, keeps a non-categorical dtype, and leaves every cell that is not a key unchanged |
| Normalize.RecodeAt | clean_data.py:33-34 | `df[name] = df[name].replace(...)` fails (`KeyError`) exactly when the column is absent, and otherwise keeps the row count and each column's name and cell count |
| Normalize.CleanStringsEffect | clean_data.py:20-36 | the stage keeps the row count and each column's name and cell count, and the only errors it raises are `KeyError` for Gender or Customer type |
| Normalize.CleanStringsShape | clean_data.py:27-34 | rows, the ordered column names and well-formedness are kept; numeric columns are untouched; the stage raises exactly when Gender, then Customer type, is absent, naming it |
| Normalize.CleanStringsTrimmed | clean_data.py:27-34 | afterwards, even when it raised, no string in a text column has surrounding whitespace |
| Normalize.CleanStringsCodes | clean_data.py:30-34 | after a successful call, the stripped Gender values Male/Female are M/F and the stripped Customer type values Member/Normal are M/N; every other value and column equals its stripped value |
| Normalize.StripThenRecode | clean_data.py:30-33 | stripping comes before recoding: "Male" with any whitespace around it becomes "M" |
| Normalize.RecodeTwice | clean_data.py:33-34 | recoding with a table whose codes are not keys is idempotent |
| Normalize.CleanStringsIdempotent | clean_data.py:20-36 | running `clean_strings` on its own successful output changes nothing and succeeds |
| Frames.DataFrame.CleanStrings | clean_data.py:20-36 | the column loop strips each text column in place; the object ends in the state `CleanStringsEffect` gives, including the partial state on a `KeyError`, and stays well formed |
| Frames.DataFrame.OptimizeTypes | clean_data.py:38-59 | the loop retags the six columns in order and stops at the first missing one; then Full_Date is set and Date and Time are dropped; the object ends in the state `OptimizeTypesEffect` gives, and stays well formed |
| Optimize.AsCategory | clean_data.py:47 | `astype("category")` keeps the name and every cell and makes the dtype categorical |
| Optimize.Categorize | clean_data.py:45-47 | retagging keeps the row count and the ordered column names |
| Optimize.FirstAbsent | clean_data.py:45-47 | the six names before the result are all present, and the name at the result is absent |
| Optimize.FirstAbsentIs | clean_data.py:45-47 | the position where the loop first finds a missing name is `FirstAbsent` |
| Optimize.CategorizeStep | clean_data.py:46-47 | retagging one more name changes exactly that column |
| Optimize.JoinCell | clean_data.py:56 | `Date + " " + Time` is a string exactly when both are strings, and is then the date, one space and the time; otherwise NaN |
| Optimize.ConvertCell | clean_data.py:56 | `to_datetime` on one value: a non-string becomes NaT, only a string can be refused, and a timestamp produced is a valid calendar date-time |
| Optimize.FullDateCells | clean_data.py:56 | the joined and converted column has one cell per row; the only errors are a missing or non-text Date, a missing Time or one that cannot be added, or a parse error at a row of the table |
| Optimize.OptimizeTypesEffect | clean_data.py:38-59 | the stage keeps the row count; when it raises, the table is the input with only the category columns before the first missing one retagged |
| Optimize.ConvertAllSpec | clean_data.py:56 | an all-or-nothing conversion succeeds exactly when every element converts, holds each converted element, and otherwise names the first element that does not convert |
| Optimize.ToDatetimeAllOrNothing | clean_data.py:54-56 | `to_datetime` succeeds exactly when every value parses (NaN becoming NaT); otherwise it names the row of the first value that does not parse |
| Optimize.WithColumnOk | clean_data.py:56 | `df["Full_Date"] = ...` replaces a column of that name in place or appends it at the end; the other columns are unchanged |
| Optimize.KeepNames | clean_data.py:57 | the names after `drop` are the old names without the dropped ones, in order |
| Optimize.OptimizeTypesShape | clean_data.py:38-59 | the table stays well formed with the same row count, whether or not the stage raised |
| Optimize.OptimizeTypesMissing | clean_data.py:45-56 | a missing category column raises for the first missing one, with the earlier ones already retagged; with all six present and all six retagged, a missing Date raises `KeyError`, a non-text Date raises `TypeError`, and a text Date with no Time raises `KeyError` for Time; with both present, Time raises `TypeError` exactly when `Table.AddRaises` holds for the two columns (never for text Time, and for numeric Time only when a row holds a date and a number) |
| Optimize.FullDateNumericTime | clean_data.py:56 | a text Date plus a numeric Time raises `TypeError` exactly when some row has both a date and a number; otherwise every row converts to NaT |
| Optimize.OptimizeTypesNumericTime | clean_data.py:45-57 | with the six category columns present, a text Date and a numeric Time (an all-empty CSV column reads as float64 NaN): the stage raises `TypeError` for Time, with the six retagged, exactly when some row has both a date and a number; otherwise it completes and Full_Date is NaT on every row |
| Optimize.OptimizeTypesAllOrNothing | clean_data.py:54-57 | the stage succeeds exactly when every joined Date/Time row parses; otherwise it names the row of the first value that does not, and the table keeps Date and Time and gains no Full_Date column |
| Optimize.OptimizeTypesColumns | clean_data.py:45-57 | on success Date and Time are gone; the names are the old ones minus Date and Time, plus Full_Date at the end unless it existed; every other column keeps its cells, and the six are retagged |
| Optimize.OptimizeTypesFullDate | clean_data.py:56 | on success Full_Date holds, row by row, the conversion of `Date + " " + Time` |
| Optimize.JoinConvertFormat | clean_data.py:51-56 | for every valid date-time, its date and time written in the format, joined with one space and converted, give that date-time back |
| Optimize.JoinConvertMissing | clean_data.py:56 | a NaN Date or Time gives NaT, not an error |
| DateTimeFormat.Scan | clean_data.py:54 | every field the format's regular expression captures is in its range (month 1-12, day 1-31, hour 1-12, minute 0-59, second 0-61, four-digit year); `Spelling.ScanIsSpelling` characterises it on all strings |
| DateTimeFormat.To24 | clean_data.py:53-54 | `%I` with `%p` gives an hour 0-23 that is afternoon exactly for PM and agrees with the 12-hour reading modulo 12 |
| DateTimeFormat.To12 | clean_data.py:53-54 | the 12-hour reading of an hour converts back to that hour |
| DateTimeFormat.Build | clean_data.py:54-56 | the captured fields yield a date-time exactly when it is a real calendar date-time (year at least 1, day within its month, second below 60), and then the date-time they spell |
| DateTimeFormat.ParseTimestamp | clean_data.py:54-56 | every value that parses is a valid calendar date-time; `Spelling.ParseIsSpelling` characterises it on all strings |
| DateTimeFormat.ScanRender | clean_data.py:54 | the canonical spelling of any fields scans back to those fields |
| DateTimeFormat.ParseFormat | clean_data.py:51-56 | every valid date-time written in the format parses back to itself |
| DateTimeFormat.ParseSourceExample | clean_data.py:51-54 | "01/05/2021 12:30:45 PM" parses to 2021-01-05 12:30:45 |
| DateTimeFormat.ParseMidnight | clean_data.py:53-54 | 12 AM is hour 0 |
| DateTimeFormat.ParseRejectsMissingDay | clean_data.py:54-56 | 29 February 2021 is refused |
| DateTimeFormat.ParseAcceptsLeapDay | clean_data.py:54-56 | 29 February 2020 is accepted |
| DateTimeFormat.ParseRejectsGarbage | clean_data.py:54-56 | "13/40/2021 99:99:99 XM" is refused |
| DateTimeFormat.ParseShortForms | clean_data.py:54 | single-digit month and hour, a space-padded day and a lower-case marker are accepted: "1/ 5/2021 1:02:03 pm" is 2021-01-05 13:02:03 |
| Spelling.Short | clean_data.py:54 | a one- or two-digit field is written with the width chosen, in digits, and is worth its value |
| Spelling.ShortFieldOf | clean_data.py:54 | a one- or two-digit field written at a position and followed by a non-digit is read back exactly when its value is in the field's range |
| Spelling.DayFieldOf | clean_data.py:54 | a day written in any of its three forms is read back exactly when it is 1-31 |
| Spelling.YearFieldOf | clean_data.py:54 | four year digits written at a position and followed by a non-digit are always read back |
| Spelling.MarkerOf | clean_data.py:54 | the last two characters are read as the marker exactly when they are AM or PM in any case, PM giving true |
| Spelling.ScanDateSpell | clean_data.py:52-54 | the date part of any spelling is read back exactly when month and day are in range |
| Spelling.ScanClockSpell | clean_data.py:53-54 | the clock part of any spelling, read from the end of the date, is read back exactly when hour, minute and second are in range and the marker is AM or PM |
| Spelling.ScanSpell | clean_data.py:54 | every spelling in any layout scans to the values written when the regular expression admits them all, and fails to match otherwise |
| Spelling.ParseSpell | clean_data.py:54-56 | every spelling parses exactly when the fields are admitted and form a real calendar date-time, and then to the date-time written |
| Spelling.ScanDateSpelled | clean_data.py:52-54 | the date part of an accepted string is the spelling of the fields read, in some widths |
| Spelling.ScanClockSpelled | clean_data.py:53-54 | the clock part of an accepted string is a gap, the time fields in some widths, a gap and the marker |
| Spelling.SpellingOfScan | clean_data.py:54 | every string `Scan` accepts is a spelling, in some layout, of admitted fields, and captures them |
| Spelling.ScanIsSpelling | clean_data.py:54 | `Scan` accepts a string with given fields exactly when the string spells admitted fields that are captured as those |
| Spelling.ParseIsSpelling | clean_data.py:54-56 | `ParseTimestamp` returns a date-time exactly when the string spells admitted fields that form that real calendar date-time |
| Integrity.IsClose | clean_data.py:69 | `isclose` holds for equal numbers and for numbers within 0.01, and for a second argument of at most one fails beyond 0.01 + 1e-5 |
| Integrity.Check | clean_data.py:69-76 | the report is success exactly when every row agrees; otherwise the count is the number of disagreeing rows, between 1 and the row count |
| Integrity.ValidateFinancialIntegrity | clean_data.py:61-78 | the stage only ever raises `KeyError` or `TypeError` |
| Integrity.ValidateCounts | clean_data.py:67-76 | with the three numeric columns present: success exactly when no row has a missing amount or \|Sales − (cogs + Tax 5%)\| > 0.01 + 1e-5·\|cogs + Tax 5%\|; otherwise the count of such rows |
| Integrity.ValidateMissing | clean_data.py:67-69 | a missing cogs, then a missing Tax 5%, raises `KeyError` naming it; once the two are present and can be added, a missing Sales raises `KeyError` for Sales |
| Integrity.ValidateTextCogs | clean_data.py:67-69 | text cogs plus numeric Tax 5% raises `TypeError` for cogs exactly when some row holds a string and a number; otherwise the sum is NaN text, so a missing Sales raises `KeyError` and a present one `TypeError` |
| Integrity.ToleranceExamples | clean_data.py:69 | cogs 10.00 and Tax 0.50 agree with Sales 10.50, not with 10.52 |
| Integrity.RelativeToleranceExample | clean_data.py:69 | the relative term matters: Sales 1000.015 agrees with 990 + 10 although it is more than 0.01 off |
| Integrity.IsCloseAsymmetric | clean_data.py:69 | `isclose` is not symmetric in its arguments |
| Integrity.MissingDisagrees | clean_data.py:69-75 | a missing amount makes the row a discrepancy |
| Integrity.ExactRowAgrees | clean_data.py:69 | a row whose Sales is exactly cogs + Tax agrees |
| Summary.MissingPercent | clean_data.py:88 | Missing (%) is absent (NaN) exactly for a table with no rows |
| Summary.Row | clean_data.py:84-91 | a report row has the column's dtype and the table's row count; Unique ≤ Non-Null ≤ the number of cells; Zero ≤ Non-Null; Negatives exists exactly for numeric columns |
| Summary.QualitySummary | clean_data.py:84-92 | the report's keys are the column names, and each holds that column's row |
| Summary.SummaryShape | clean_data.py:84-92 | the report has exactly one row per column |
| Summary.RowBounds | clean_data.py:84-91 | Total Rows is the row count; Non-Null ≤ Total; Unique, Zero and Negatives ≤ Non-Null; Missing (%) = (Total − Non-Null)/Total·100; Negatives exists exactly for numeric columns; text and timestamp columns have no zeros |
| Summary.UniqueAtMostNonNull | clean_data.py:87-89 | the distinct count never exceeds the non-null count |
| Summary.MissingIsRest | clean_data.py:87-88 | missing count = length − non-null count |
| Summary.SummaryExample | clean_data.py:84-91 | [0, 0, 5, -3, NaN] gives non-null 4, missing 20%, 3 distinct, 2 zeros, 1 negative |

## Left out

- `load_data`, `save_output` and `main`: reading the CSV, writing the Excel and Parquet files, the top-level catch-all and every `print`. These are I/O and driver code. `Integrity.Check` returns as a value the outcome the stage prints.
- The `.round(2)` of Missing (%) and the `describe()` min/mean/max columns. These are floating-point rounding and pandas' own choice of columns.
- Floating point: amounts are `real`, so the integrity check is an exact idealisation of the float comparison. `int64` values are unbounded integers.
- CSV type inference: a text column holds only strings and NaN, and numbers are not stored in text columns.
- pandas' timestamp range (years 1677–2262): `DateTimeFormat.ParseTimestamp` accepts years 1–9999, as Python's `datetime` does. `%p` is matched in the English (C) locale.
- DateTimeFormat.IsDigit: only the ASCII digits 0-9 are digits. Python's `\d` in a `str` pattern, and `int()` after it, also accept the other Unicode decimal digits (such as Arabic-Indic ٢), so a value written with them is refused by the model but may be parsed by pandas.
- DateTimeFormat.Build: seconds 60 and 61 pass the regular expression and are refused here, following Python's `datetime`, which admits seconds 0-59 only. pandas' own assembly of the timestamp from the captured fields is not part of this model.
- `Optimize.OptimizeTypesEffect` describes the table `optimize_types` returns. `df.drop` makes a new table, so the caller's original object keeps Date and Time next to Full_Date. The model follows the returned table, which the driver rebinds. That aliasing is not modelled.
- Category order and the categorical codes: categories are a set.
- The row order of the summary table (pandas may sort it when it aligns the series): the report is a map keyed by column name.
- Integrity.ValidateFinancialIntegrity: its `TypeError` path names one offending column. pandas' message is not modelled.
- Integrity.ValidateFinancialIntegrity: a text Sales column is taken to make `isclose` raise `TypeError`. numpy 1.x raises for any text-typed argument. numpy 2 raises only when a Sales value is a string, so it would count the rows of an all-NaN text Sales column as inconsistent; `read_csv` reads such a column as float64.
- Table.AddRaises: a categorical or datetime operand is taken to raise `TypeError` whatever its cells, even with no rows. `read_csv` produces neither dtype, and pandas' own arithmetic for them is not part of this model.
- Optimize.ToDatetimeAllOrNothing: `ParseError` holds the row of the first value that does not parse. For more than 50 values with many repeats, pandas converts only the distinct values, and the position in its message is then one among those. The failing value is the same.
