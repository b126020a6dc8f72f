# Telecom billing consumption: a Dafny model

This project models the data pipeline of a small tool that turns telecom billing exports
(semicolon-separated CSV files, loose or inside ZIP archives) into a per-subscriber summary of
monthly data consumption, the "Moyenne conso DATA" sheet. It models four parts:

- **The volume codec** (`parse_volume` / `format_volume`). It converts between the billing text
  "X Go Y Mo Z Ko" and a byte count, with 1 Ko = 1024 bytes, 1 Mo = 1024² and 1 Go = 1024³.
- **The comma-decimal normaliser.** This is the column loop of `read_csv_file` in `app.py` and of
  `_read_csv` in `csv_xls_analyse/core.py`.
- **The merge of files.** `merge_csv_files` and `_read_from_zip` dispatch on the path suffix, read
  archive members and stack the tables in order.
- **The two aggregations.**
  - `compute_moyenne_conso` (`app.py`) groups by five identity columns and the billing month. It
    decodes volume texts into bytes, pivots, computes the total and the 4-month and lifetime means
    in Go, and renders the month cells back as volume texts.
  - `analyse_consumption` (`csv_xls_analyse/core.py`) groups by user number and month label. It
    sums the `Volume` column and attaches identity columns from each user's first row.

## Structure

- `wrappers.dfy` — `Option` and `Result`.
- `text.dfy` — digits, number rendering, character replacement and removal, and ASCII case
  folding.
- `volume_codec.dfy`, `volume_codec_lemmas.dfy` — `parse_volume` and `format_volume`, and what is
  proved about them.
  - The three `re.search(r"([\d\.]+)\s*<unit>", text, re.IGNORECASE)` calls are modelled as
    leftmost searches.
  - `float()` on the captured run is modelled as exact decimal reading: at most one point and at
    least one digit, otherwise an error.
- `frames.dfy` — tables.
  - A table is a list of column names and a sequence of rows.
  - A row maps names to cells: text, number, or missing (NaN).
  - `pd.concat` is modelled as the union of columns in order of first appearance, with rows
    stacked and absent cells missing.
- `normaliser.dfy` — the comma-decimal column loop, as an imperative loop over columns proved
  against a specification function.
- `merge.dfy` — `Path.suffix`, the member filter of archives, and `merge_csv_files` as a loop over
  paths.
- `sequences.dfy` — boolean-mask selection and sums.
- `ordering.dfy` — the orders pandas sorts group keys in, and the sorted list of distinct keys.
- `pivoting.dfy` — grouped sums laid out as a pivot with 0 fill, and the partition of a row's
  total over its cells.
- `moyenne.dfy` — `compute_moyenne_conso`.
- `analyse.dfy` — `analyse_consumption`.

### Inputs modelled as parameters

- **Reading files.** `pd.read_csv` of a path is `readCsv`. The listing of an archive (members in
  `namelist()` order, each with its parsed table) is `zipMembers`. `os.listdir` is `entries`.
- **`pd.to_numeric` on one text.** This is `toNumber: string -> Option<real>`. The
  all-or-nothing column conversion is modelled on top of it.
- **`pd.to_datetime(..., dayfirst=True)` on one cell.** This is
  `parseDate: Cell -> Option<YearMonth>`.
- **The locale's month name used by `strftime("%B")`.** This is `monthName`.

### Byte counts after a format and parse

- **Round trip.** Formatting drops the bytes below one Ko, so `VolumeCodecLemmas.RoundTrip`
  proves `parse(format(b)) == b - b % 1024`. `VolumeCodecLemmas.RoundTripExact` proves that the
  round trip gives back `b` exactly when `b` is a multiple of 1024.
- **Worked example.** "8 Go 206 Mo 633 Ko" is 8806589440 bytes, in both directions
  (`VolumeCodecLemmas.BillingExample`).

## Model

| member | source | states |
|---|---|---|
| VolumeCodec.ParseVolume | app.py:11-28 | None/NaN decodes to 0 bytes; a decoded count is never negative |
| VolumeCodec.Amount | app.py:16-25 | a unit whose pattern does not match contributes 0; a unit raises exactly when its captured run is not a number `float` accepts |
| VolumeCodec.NumeralValue | app.py:19 | `float` of a digit/point run yields a non-negative value |
| VolumeCodec.Capture | app.py:17 | a match captures a non-empty group |
| VolumeCodec.CaptureIsNumeral | app.py:17 | the captured group consists only of digits and points |
| VolumeCodec.Combine | app.py:26-28 | the truncated sum of the three amounts is never negative |
| VolumeCodec.Components | app.py:35-40 | Mo and Ko parts are below 1024 and go·1024³ + mo·1024² + ko·1024 = v − v mod 1024; Go is non-negative for v ≥ 0 |
| VolumeCodecLemmas.RoundTrip | app.py:11-41 | parse(format(b)) = b − b mod 1024 for every b ≥ 0 |
| VolumeCodecLemmas.RoundTripExact | app.py:11-41 | parse(format(b)) = b exactly when b is a multiple of 1024 |
| VolumeCodecLemmas.FormatAbsent | app.py:33-34 | format(None) is "0 Go 0 Mo 0 Ko", the same as format(0) |
| VolumeCodecLemmas.FormatOfNat | app.py:35-41 | format(b) is the text of its three components, which add up to b − b mod 1024 |
| VolumeCodecLemmas.ParseIntegerVolume | app.py:17-28 | "g Go m Mo k Ko" with integer numerals decodes to g·1024³ + m·1024² + k·1024 |
| VolumeCodecLemmas.BillingExample | app.py:31-41 | 8806589440 bytes format to "8 Go 206 Mo 633 Ko", that text parses back to 8806589440, and 8·1024³ + 206·1024² + 633·1024 is that count |
| VolumeCodecLemmas.ParseRender | app.py:15-28 | a text made of unit phrases decodes by taking, for each unit, the numeral of its first phrase and combining the three |
| VolumeCodecLemmas.CaptureRender | app.py:17-25 | each unit's search stops at the numeral of the first phrase carrying that unit |
| VolumeCodecLemmas.OrderIrrelevant | app.py:17-25 | with each unit written once, the order of the phrases does not change the result |
| VolumeCodecLemmas.LaterRepeatIgnored | app.py:17-25 | only the first match of a unit counts: appending another phrase of a present unit changes nothing |
| VolumeCodecLemmas.MalformedRaises | app.py:17-25 | a volume text raises exactly when the first numeral of some unit is malformed; an absent unit never raises |
| VolumeCodecLemmas.CombineFails | app.py:18-25 | the arithmetic tail fails exactly when one of the three captures is malformed |
| VolumeCodecLemmas.TwoPointsRejected | app.py:19 | a run with two points ("1.2.3") makes `float` raise |
| VolumeCodecLemmas.NumeralOfDecimal | app.py:19 | "w.f" reads as the exact decimal, either side possibly empty |
| VolumeCodecLemmas.NumeralOfDigits | app.py:19 | a run of digits reads as the integer it spells |
| VolumeCodecLemmas.CommaIsDecimalPoint | app.py:15 | a comma means the same as a point |
| VolumeCodecLemmas.NoUnitIsZero | app.py:26-27 | a text with no 'o'/'O' matches no unit and decodes to 0 |
| Text.NatToStringValue | app.py:41 | the decimal rendering of n spells n |
| Text.ReplaceCharAt | app.py:125 | `str.replace` of one character changes exactly the positions holding it |
| Text.RemoveChar | app.py:124 | removing spaces leaves no space and keeps every other character as often as it occurs |
| Text.RemoveCharAppend | app.py:124 | removal distributes over concatenation, so the kept characters stay in their order |
| Text.RemoveCharAbsent | app.py:124 | a text without a space is left unchanged |
| Normaliser.CleanSpec | app.py:124-125 | a rewritten text holds no ',' and, when spaces are stripped, no ' '; without stripping only the commas change |
| Normaliser.NormaliseColumnCells | app.py:122-129 | a column without a comma-bearing text is unchanged; otherwise every text becomes its rewritten form, converted to a number when all of them parse, missing cells stay missing |
| Normaliser.NumericIffAllParse | app.py:126-129 | a touched column ends with no text at all exactly when every rewritten text parses |
| Normaliser.NormaliseIdempotent | app.py:122-129 | normalising a normalised column changes nothing |
| Normaliser.NormaliseFrameCells | app.py:122-129 | every column of the table is normalised on its own; names and row count are kept |
| Normaliser.NormaliseColumns | app.py:122-129 | the column loop computes the normalised table |
| Normaliser.ReadCsvFile | app.py:122-130 | `read_csv_file`'s loop: valid table, same columns and rows, cells as the column rule says, touched texts without ',' or ' ' |
| Normaliser.ReadCsv | csv_xls_analyse/core.py:20-23 | `_read_csv`'s loop: the same rule without space stripping; touched texts keep their length |
| Frames.SetColumnCells | app.py:124-127 | assigning `df[col]` keeps the table valid and changes only that column |
| Frames.ConcatSpec | csv_xls_analyse/core.py:50 | stacking two tables keeps the first's columns first, unions the columns, and keeps each table's cells in place |
| Frames.ConcatAllSpec | csv_xls_analyse/core.py:50 | stacking many tables gives their rows in order and exactly the columns some table has |
| Frames.AllRowsPlace | csv_xls_analyse/core.py:50 | row j of table k lands after the rows of the tables before it |
| Frames.AllRowsLength | csv_xls_analyse/core.py:50 | the stacked row count is the sum of the row counts |
| Merge.SuffixShape | csv_xls_analyse/core.py:44 | `Path.suffix` is empty or a point followed by at least one character, with no other point and no slash |
| Merge.CsvTablesMembers | csv_xls_analyse/core.py:30-35 | a table is read from an archive exactly when a member named `*.csv` (any case) holds it |
| Merge.CsvTablesAppend | csv_xls_analyse/core.py:30-35 | the member filter keeps archive order |
| Merge.ReadFromZip | csv_xls_analyse/core.py:26-36 | the loop returns the `.csv` members' tables in `namelist()` order |
| Merge.CollectAppend | csv_xls_analyse/core.py:41-47 | the frames of consecutive runs of paths follow each other |
| Merge.IgnoredPath | csv_xls_analyse/core.py:42-47 | a path whose suffix is neither `.csv` nor `.zip` does not change the merge |
| Merge.ZipIsNotCsv | csv_xls_analyse/core.py:44-46 | the two suffix tests exclude each other |
| Merge.ZipContribution | csv_xls_analyse/core.py:46-47 | an archive contributes its `.csv` members' tables |
| Merge.ZipNotNormalised | csv_xls_analyse/core.py:33-35 | a table read from an archive is stacked as read, not normalised |
| Merge.CsvNormalised | csv_xls_analyse/core.py:44-45 | a `.csv` path contributes its table normalised by `_read_csv` |
| Merge.PathFramesValid | csv_xls_analyse/core.py:44-47 | each path contributes only valid tables |
| Merge.MergeFramesValid | csv_xls_analyse/core.py:39-47 | every collected frame is a valid table |
| Merge.MergedSpec | csv_xls_analyse/core.py:48-50 | the merge is valid, its rows are the frames' rows in path order, and its row count is their sum |
| Merge.MergeCsvFiles | csv_xls_analyse/core.py:39-50 | the loop over paths computes the merge |
| Sequences.FilterMembers | app.py:60-61 | a row is selected by a mask exactly when it is in the table and satisfies it |
| Sequences.FilterAppend | app.py:60-61 | selection keeps row order |
| Sequences.FilterEmpty | app.py:62-63 | nothing is selected exactly when no row satisfies the mask |
| Ordering.TextOrder | app.py:81 | Python's string order is a strict total order |
| Ordering.CellsOrder | app.py:81-82 | the order on identity tuples is a strict total order |
| Ordering.SortDistinctSpec | app.py:84 | the sorted distinct keys are strictly increasing and are exactly the input's keys |
| Ordering.SortedDistinct | app.py:84 | sorted keys hold no duplicate |
| Pivoting.CellAbsent | app.py:82 | a cell no record reaches is 0 (`fillna(0)`) |
| Pivoting.CellWhole | app.py:104 | a sum of whole non-negative byte counts is whole |
| Pivoting.RowPartition | app.py:85 | summing a pivot row across its distinct columns gives the identity's total |
| Moyenne.LaterOrder | app.py:84 | newest-first month order is a strict total order |
| Moyenne.DatedRowsEmpty | app.py:65-68 | no row survives the date filter exactly when no date parses |
| Moyenne.DatedRowsFrom | app.py:65-66 | every kept row is an input row whose date parsed, with that month |
| Moyenne.NumberTextIsZero | app.py:71 | a numeric volume cell, whose text has no unit, decodes to 0 bytes |
| Moyenne.RecordsSpec | app.py:71 | volume decoding succeeds exactly when every row's volume decodes; then there is one record per row with its identity, month and bytes |
| Moyenne.RecordsWhole | app.py:71 | decoded records hold whole non-negative byte counts and five identity cells |
| Moyenne.NoTableCases | app.py:56-68 | the column-less `pd.DataFrame()` comes back exactly when a required column is missing, no sub-category starts with "Echanges", or no such row's date parses |
| Moyenne.DatesNeverRaise | app.py:65-71 | an error always comes from a malformed volume on an "Echanges" row whose date parsed, never from a date |
| Moyenne.PivotShape | app.py:81-84 | identities strictly increasing and months newest first, each exactly the grouped keys; one line per identity, one cell per month |
| Moyenne.IdentityWidth | app.py:81 | every identity has the five identity cells |
| Moyenne.PivotCell | app.py:81-82 | the cell of identity i and month j is the sum of the matching records' bytes, 0 when none matches |
| Moyenne.PivotTotal | app.py:85-89 | total × 1024³ is the identity's bytes over all its records |
| Moyenne.PivotLine | app.py:86-93 | each line is computed over every month of the table, which is never empty |
| Moyenne.LineMeans | app.py:86-93 | the lifetime mean times the month count is the total; the 4-month mean covers the first min(4, n) months and equals the lifetime mean when n ≤ 4 |
| Moyenne.FormattedCell | app.py:103-104 | a rendered month cell is `format_volume` of the whole byte sum of that cell |
| Moyenne.FormatMonthColumns | app.py:103-104 | the loop over month columns renders every month cell and nothing else |
| Moyenne.SheetAligned | app.py:106-109 | the columns are the identity columns, the three figures, then the month labels newest first; every line has one cell per column, its identity first |
| Moyenne.ComputeMoyenneConso | app.py:44-110 | the method computes the sheet, or the volume error |
| Analyse.CsvPathsAppend | csv_xls_analyse/core.py:64 | a `*.csv` entry gives the folder joined to it and any other entry nothing; the listing distributes over consecutive entries, so paths keep the entries' order |
| Analyse.CsvPathsCover | csv_xls_analyse/core.py:64 | every `*.csv` entry yields its joined path, and every path is the folder joined to some `*.csv` entry |
| Analyse.Facts | csv_xls_analyse/core.py:72 | the only error the sums raise is a text volume |
| Analyse.FactsSpec | csv_xls_analyse/core.py:72 | the sums see exactly one record per grouped row (user number and date present), in row order, with its user, month bucket and volume, so duplicate rows count twice; a text volume on such a row raises |
| Analyse.FirstAbsent | csv_xls_analyse/core.py:82-84 | no column is reported exactly when all fixed columns exist; a reported one is a missing fixed column |
| Analyse.Fixed | csv_xls_analyse/core.py:84-85 | every line carries five identity cells |
| Analyse.EmptyRaises | csv_xls_analyse/core.py:66-67 | "No CSV files found" is raised exactly for an empty merged table |
| Analyse.NoCsvEntryRaises | csv_xls_analyse/core.py:64-67 | a folder with no `*.csv` entry raises "No CSV files found" |
| Analyse.DateRaises | csv_xls_analyse/core.py:69-71 | once the mask is computable, the run raises on dates exactly when an "Echanges" row has a present date that does not parse |
| Analyse.EchangesUndated | csv_xls_analyse/core.py:69-71 | an undated row survives the mask exactly when it is an "Echanges" row |
| Analyse.BucketSpec | csv_xls_analyse/core.py:71-73 | dates share a month column exactly when they share month and two-digit year; the column sorts in 1969..2068 |
| Analyse.FirstRowSpec | csv_xls_analyse/core.py:84 | `drop_duplicates` finds the first row with a user number exactly when one exists |
| Analyse.AggregateShape | csv_xls_analyse/core.py:72-73 | users strictly increasing and months newest first, each exactly the grouped keys; one line per user, one sum per month |
| Analyse.AggregateLine | csv_xls_analyse/core.py:75-79 | each line is computed over every month column, which is never empty |
| Analyse.AggregateFixed | csv_xls_analyse/core.py:84-85 | every user keeps exactly one line, whose identity cells are those of the first row with that user number |
| Analyse.AggregateCell | csv_xls_analyse/core.py:72 | the sum of user i in month j gathers the matching volumes, 0 when none |
| Analyse.AggregateTotal | csv_xls_analyse/core.py:76 | Total × 1024 is the user's volume over all its records |
| Analyse.SummaryMeans | csv_xls_analyse/core.py:77-79 | the mean times the month count is the total; the 4-month mean covers the first min(4, n) columns and equals the mean when n ≤ 4 |
| Analyse.ReportAligned | csv_xls_analyse/core.py:82-85 | the columns are the fixed columns, the month labels newest first, then the three figures; every line has one cell per column |
| Analyse.AnalyseConsumption | csv_xls_analyse/core.py:62-85 | the method computes the sheet, or the error raised |

## Left out

- File reading, CSV parsing (encoding, separator, quoting), archive opening, folder listing and
  Excel output are parameters or absent. The model starts from parsed tables and stops at the
  sheet's columns and cells.
- The Streamlit interface, `main` and the command-line wiring are not part of this model.
- `.round(2)` on the three figures is not modelled, nor is floating-point arithmetic in general.
  Sums and means are exact reals, and `float()` in `parse_volume` reads exact decimals.
- `pd.to_datetime` is modelled as an oracle on one cell. Format inference across a column is not
  modelled, and neither is `dayfirst` beyond what the oracle does.
- `locale.setlocale` is not modelled. Month names come from the parameter `monthName`.
- `pd.to_numeric` is modelled as an oracle on one text. An empty text, which pandas reads as NaN,
  is whatever the oracle says.
- `str(value)` of a numeric volume cell is not rendered: it has no unit letter, so it decodes to
  0 (`Moyenne.NumberTextIsZero`). `Moyenne.RowBytes` uses 0 directly.
- `\d` and `\s` in `parse_volume` are ASCII digits and Python's white space. `str.lower()` in the
  suffix and name tests is ASCII lower-casing.
- `Path` handling is POSIX: trailing slashes are trimmed. '.' components and Windows separators
  are not handled.
- Group keys of mixed types are assumed to sort as pandas' safe sort does: numbers, then texts,
  with missing keys dropped.
- Analyse.Facts: a text `Volume` cell on a grouped row raises `TextVolume`. pandas would
  concatenate such texts and fail later, at the division, or produce a text total; the model does
  not follow that path.
- Analyse.Bucket: month columns are keyed by month and two-digit year, as the `%B-%y` label keys
  them. The month name is assumed to be distinct for distinct months.
- Moyenne.Label / Moyenne.MoyenneConso: two dated months whose `%B-%y` labels coincide (the same
  month 100 years apart, or a `monthName` that repeats a name) give a sheet with two columns of
  the same name. In app.py:102-104 the rename then yields duplicate columns, and formatting them
  raises `TypeError` when more than one identity row is present. The model does not raise there;
  it assumes the labels of distinct months are distinct.
- `analyse_consumption` computes the `Echanges` mask without `na=False`, so a missing
  sub-category raises (`MaskWithMissing`), where `compute_moyenne_conso` skips the row.
