/**
 * `compute_moyenne_conso` of app.py: the "Moyenne conso DATA" sheet built from the merged
 * billing table. Rows of the "Echanges" sub-categories whose billing date parses are grouped
 * by the five identity columns and the billing month; each group's volume texts are decoded
 * to bytes and summed; the sums are laid out one line per identity and one column per month,
 * newest first, with the total, the mean of the four newest months and the mean over all
 * months (in Go); finally each month cell is rendered back as a volume text.
 *
 * Date parsing (`pd.to_datetime(..., dayfirst=True, errors="coerce")` on one cell) is the
 * parameter `parseDate`, None standing for NaT; the month name that `strftime("%B")` gives in
 * the current locale is the parameter `monthName`.
 */
module Moyenne {
  import opened Wrappers
  import opened Text
  import opened Frames
  import opened Sequences
  import opened Ordering
  import opened Pivoting
  import opened VolumeCodec
  import opened VolumeCodecLemmas

  const SubCategory: string := "Nom de la sous-rubrique"
  const Period: string := "P\U{E9}riode de la facture"
  const Quantity: string := "Quantit\U{E9} ou volume"
  const IdColumns: seq<string> := [
    "Nom de la rubrique de niveau 1",
    "Num\U{E9}ro de l\U{2019}utilisateur",
    "Nom de l\U{2019}utilisateur",
    "Pr\U{E9}nom de l\U{2019}utilisateur",
    "Num\U{E9}ro de t\U{E9}l\U{E9}phone"
  ]
  const Required: seq<string> := [SubCategory, Period, Quantity] + IdColumns
  const Derived: seq<string> := ["Total (Go)", "Moyenne (Go) 4 mois", "Moyenne (Go) total"]

  /** 1024 ** 3 bytes, one Go. */
  const Gio: real := 1073741824.0

  /** A `Period("M")`: year and month of a billing date. */
  datatype YearMonth = YearMonth(year: int, month: int)

  /** Newer first: the order of `sorted(pivot.columns, reverse=True)`. */
  function Later(a: YearMonth, b: YearMonth): bool {
    a.year > b.year || (a.year == b.year && a.month > b.month)
  }

  lemma LaterOrder()
    ensures StrictTotal(Later)
  {
  }

  predicate HasRequired(names: seq<string>) {
    forall c | c in Required :: c in names
  }

  /**
   * `astype(str).str.startswith("Echanges")`: only a text can start with "Echanges"; a
   * number renders as digits and a missing cell as "nan".
   */
  predicate IsEchanges(r: Row) {
    var c := Get(r, SubCategory);
    c.Text? && "Echanges" <= c.s
  }

  /** A row that survived `dropna(subset=["date"])`, with its month. */
  datatype Dated = Dated(row: Row, month: YearMonth)

  /** The rows whose billing date parses, in order. */
  function DatedRows(rows: seq<Row>, parseDate: Cell -> Option<YearMonth>): seq<Dated> {
    if rows == [] then []
    else
      var last := rows[|rows| - 1];
      DatedRows(rows[..|rows| - 1], parseDate) +
      match parseDate(Get(last, Period))
      case Some(m) => [Dated(last, m)]
      case None => []
  }

  /** Every kept row is one of the input rows whose date parsed, with that date's month. */
  lemma {:induction false} DatedRowsFrom(rows: seq<Row>, parseDate: Cell -> Option<YearMonth>, d: Dated)
    requires d in DatedRows(rows, parseDate)
    ensures d.row in rows && parseDate(Get(d.row, Period)) == Some(d.month)
  {
    var init := rows[..|rows| - 1];
    if d in DatedRows(init, parseDate) {
      DatedRowsFrom(init, parseDate, d);
    }
  }

  /** No row is kept exactly when no date parses. */
  lemma {:induction false} DatedRowsEmpty(rows: seq<Row>, parseDate: Cell -> Option<YearMonth>)
    ensures DatedRows(rows, parseDate) == [] <==>
      forall i | 0 <= i < |rows| :: parseDate(Get(rows[i], Period)).None?
  {
    if rows != [] {
      var init := rows[..|rows| - 1];
      DatedRowsEmpty(init, parseDate);
      if DatedRows(rows, parseDate) == [] {
        forall i | 0 <= i < |rows| ensures parseDate(Get(rows[i], Period)).None? {
          if i < |init| {
            assert rows[i] == init[i];
          }
        }
      }
    }
  }

  /** The five identity cells of a row. */
  function IdCells(r: Row): (ids: seq<Cell>)
    ensures |ids| == |IdColumns|
  {
    seq(|IdColumns|, i requires 0 <= i < |IdColumns| => Get(r, IdColumns[i]))
  }

  /**
   * `parse_volume` on a volume cell: a missing cell gives 0, and so does a number, whose
   * text never holds the 'o' every unit needs (see NumberTextIsZero).
   */
  function RowBytes(c: Cell): Result<int, VolumeError> {
    if c.Text? then ParseVolume(Some(c.s)) else Ok(0)
  }

  /** A text without 'o' or 'O', such as Python's rendering of any number, decodes to 0 bytes. */
  lemma NumberTextIsZero(x: real, shown: string)
    requires forall i | 0 <= i < |shown| :: shown[i] != 'o' && shown[i] != 'O'
    ensures ParseVolume(Some(shown)) == RowBytes(Number(x)) == Ok(0)
  {
    NoUnitIsZero(shown);
  }

  type Key = seq<Cell>
  type Record = Fact<Key, YearMonth>

  /** `df["bytes"] = df[Quantity].apply(parse_volume)`: the first failing row raises. */
  function Records(ds: seq<Dated>): Result<seq<Record>, VolumeError> {
    if ds == [] then Ok([])
    else
      var d := ds[|ds| - 1];
      match Records(ds[..|ds| - 1])
      case Err(e) => Err(e)
      case Ok(fs) =>
        match RowBytes(Get(d.row, Quantity))
        case Err(e) => Err(e)
        case Ok(b) => Ok(fs + [Fact(IdCells(d.row), d.month, b as real)])
  }

  /**
   * The volumes decode unless some row's volume text is malformed; when they do, there is one
   * record per row, keyed by its identity cells and month, holding its byte count.
   */
  lemma {:induction false} RecordsSpec(ds: seq<Dated>)
    ensures Records(ds).Ok? <==> forall k | 0 <= k < |ds| :: RowBytes(Get(ds[k].row, Quantity)).Ok?
    ensures Records(ds).Ok? ==>
              |Records(ds).value| == |ds| &&
              forall k | 0 <= k < |ds| :: Records(ds).value[k] ==
                Fact(IdCells(ds[k].row), ds[k].month, RowBytes(Get(ds[k].row, Quantity)).value as real)
  {
    if ds != [] {
      var init := ds[..|ds| - 1];
      RecordsSpec(init);
      if Records(ds).Ok? {
        forall k | 0 <= k < |ds| ensures RowBytes(Get(ds[k].row, Quantity)).Ok? {
          if k < |init| {
            assert ds[k] == init[k];
          }
        }
      }
    }
  }

  /** `groupby` drops the rows with a missing key cell (its default `dropna=True`). */
  predicate Keyed(f: Record) {
    forall i | 0 <= i < |f.row| :: f.row[i] != Missing
  }

  /** One line of the pivot: identity cells, the three derived figures, one cell per month. */
  datatype Line = Line(ids: Key, total: real, recent: real, lifetime: real, volumes: seq<Cell>)

  datatype Pivot = Pivot(identities: seq<Key>, months: seq<YearMonth>, lines: seq<Line>)

  /** The number of months the 4-month mean covers: `len(sorted_months[:4])`. */
  function RecentCount(months: seq<YearMonth>): nat {
    if |months| < 4 then |months| else 4
  }

  /** The line of identity `ids`; `n` is the month count the lifetime mean divides by. */
  function LineOf(fs: seq<Record>, ids: Key, months: seq<YearMonth>, n: nat): Line
    requires |months| > 0 && n > 0
  {
    var sums := RowCells(fs, ids, months);
    var r := RecentCount(months);
    Line(ids,
         SumReal(sums) / Gio,
         SumReal(sums[..r]) / (r as real * Gio),
         SumReal(sums) / (n as real * Gio),
         seq(|sums|, j requires 0 <= j < |sums| => Number(sums[j])))
  }

  /**
   * Group, pivot with 0 for absent cells, and add the derived columns. With no month there is
   * no identity either (PivotShape), so there are no lines to compute.
   */
  function PivotOf(records: seq<Record>): Pivot {
    var keyed := Filter(records, Keyed);
    var identities := SortDistinct(RowKeys(keyed), CellsLess);
    var months := SortDistinct(ColKeys(keyed), Later);
    var n := if |months| > 0 then |months| else 1;
    Pivot(identities, months,
          if months == [] then []
          else seq(|identities|, i requires 0 <= i < |identities| => LineOf(keyed, identities[i], months, n)))
  }

  /** Python's `int(x)`: truncation toward zero. */
  function Truncate(x: real): int {
    if x >= 0.0 then x.Floor else -((-x).Floor)
  }

  /** `format_volume(int(x))` on a month cell. */
  function FormatCell(c: Cell): Cell {
    if c.Number? then Text(FormatVolume(Some(Truncate(c.x)))) else c
  }

  function FormatLine(l: Line): Line {
    l.(volumes := seq(|l.volumes|, j requires 0 <= j < |l.volumes| => FormatCell(l.volumes[j])))
  }

  function FormatLines(lines: seq<Line>): seq<Line> {
    seq(|lines|, i requires 0 <= i < |lines| => FormatLine(lines[i]))
  }

  /** `%y`: the year within its century, on two digits. */
  function TwoDigits(n: nat): string
    requires n < 100
  {
    [DigitChar(n / 10), DigitChar(n % 10)]
  }

  /** `strftime("%B-%y")`. */
  function Label(m: YearMonth, monthName: int -> string): string {
    monthName(m.month) + "-" + TwoDigits(m.year % 100)
  }

  function Labels(months: seq<YearMonth>, monthName: int -> string): (r: seq<string>)
    ensures |r| == |months|
  {
    seq(|months|, j requires 0 <= j < |months| => Label(months[j], monthName))
  }

  /** `column_order`. */
  function ColumnOrder(labels: seq<string>): seq<string> {
    IdColumns + Derived + labels
  }

  /** The cells of a line in column order. */
  function LineCells(l: Line): seq<Cell> {
    l.ids + [Number(l.total), Number(l.recent), Number(l.lifetime)] + l.volumes
  }

  /** The sheet, or `pd.DataFrame()` (NoTable). */
  datatype Conso = NoTable | Sheet(columns: seq<string>, lines: seq<Line>)

  /** What `compute_moyenne_conso` returns, or the volume error it raises. */
  function MoyenneConso(df: Frame, parseDate: Cell -> Option<YearMonth>, monthName: int -> string)
    : Result<Conso, VolumeError>
  {
    if !HasRequired(df.names) then Ok(NoTable)
    else
      var rows := Filter(df.rows, IsEchanges);
      if rows == [] then Ok(NoTable)
      else
        var dated := DatedRows(rows, parseDate);
        if dated == [] then Ok(NoTable)
        else
          match Records(dated)
          case Err(e) => Err(e)
          case Ok(records) =>
            var p := PivotOf(records);
            Ok(Sheet(ColumnOrder(Labels(p.months, monthName)), FormatLines(p.lines)))
  }

  /**
   * The column-less `pd.DataFrame()` (`NoTable`) comes back exactly when a required column is
   * missing, when no row's sub-category starts with "Echanges", or when none of those rows has
   * a date that parses.
   */
  lemma NoTableCases(df: Frame, parseDate: Cell -> Option<YearMonth>, monthName: int -> string)
    ensures MoyenneConso(df, parseDate, monthName) == Ok(NoTable) <==>
      (exists c | c in Required :: c !in df.names) ||
      (forall i | 0 <= i < |df.rows| :: !IsEchanges(df.rows[i])) ||
      (forall i | 0 <= i < |df.rows| :: IsEchanges(df.rows[i]) ==> parseDate(CellAt(df, Period, i)).None?)
  {
    var rows := Filter(df.rows, IsEchanges);
    FilterEmpty(df.rows, IsEchanges);
    DatedRowsEmpty(rows, parseDate);
    if forall i | 0 <= i < |df.rows| :: IsEchanges(df.rows[i]) ==> parseDate(CellAt(df, Period, i)).None? {
      forall k | 0 <= k < |rows| ensures parseDate(Get(rows[k], Period)).None? {
        FilterMembers(df.rows, IsEchanges, rows[k]);
        var i :| 0 <= i < |df.rows| && df.rows[i] == rows[k];
      }
    }
    if DatedRows(rows, parseDate) == [] {
      forall i | 0 <= i < |df.rows| && IsEchanges(df.rows[i]) ensures parseDate(CellAt(df, Period, i)).None? {
        FilterMembers(df.rows, IsEchanges, df.rows[i]);
        var k :| 0 <= k < |rows| && rows[k] == df.rows[i];
      }
    }
  }

  /**
   * A row whose date does not parse is dropped, never raised on: the only error is a malformed
   * volume text on an "Echanges" row whose date parsed.
   */
  lemma DatesNeverRaise(df: Frame, parseDate: Cell -> Option<YearMonth>, monthName: int -> string)
    requires MoyenneConso(df, parseDate, monthName).Err?
    ensures exists i | 0 <= i < |df.rows| ::
      IsEchanges(df.rows[i]) && parseDate(CellAt(df, Period, i)).Some? && RowBytes(CellAt(df, Quantity, i)).Err?
  {
    var rows := Filter(df.rows, IsEchanges);
    var dated := DatedRows(rows, parseDate);
    RecordsSpec(dated);
    var k :| 0 <= k < |dated| && RowBytes(Get(dated[k].row, Quantity)).Err?;
    DatedRowsFrom(rows, parseDate, dated[k]);
    FilterMembers(df.rows, IsEchanges, dated[k].row);
    var i :| 0 <= i < |df.rows| && df.rows[i] == dated[k].row;
  }

  /**
   * Identities come out strictly increasing and months strictly newest first, each list
   * holding exactly the keys of the grouped records; there is one line per identity, with one
   * cell per month, and no months exactly when no record was grouped.
   */
  lemma PivotShape(records: seq<Record>)
    ensures var p := PivotOf(records);
      var keyed := Filter(records, Keyed);
      Sorted(p.identities, CellsLess) && Sorted(p.months, Later) &&
      (forall k :: k in p.identities <==> k in RowKeys(keyed)) &&
      (forall m :: m in p.months <==> m in ColKeys(keyed)) &&
      (p.months == [] <==> keyed == []) && (p.identities == [] <==> keyed == []) &&
      |p.lines| == |p.identities| &&
      forall i | 0 <= i < |p.lines| :: p.lines[i].ids == p.identities[i] && |p.lines[i].volumes| == |p.months|
  {
    var keyed := Filter(records, Keyed);
    CellsOrder();
    LaterOrder();
    SortDistinctSpec(RowKeys(keyed), CellsLess);
    SortDistinctSpec(ColKeys(keyed), Later);
    var p := PivotOf(records);
    if keyed != [] {
      assert RowKeys(keyed)[0] in p.identities;
      assert ColKeys(keyed)[0] in p.months;
    }
  }

  /**
   * The cell of identity i and month j is the sum of the bytes of the grouped records with
   * that identity and month, and 0 when there is none.
   */
  lemma PivotCell(records: seq<Record>, i: nat, j: nat)
    requires var p := PivotOf(records); i < |p.lines| && j < |p.months|
    ensures var p := PivotOf(records);
      var keyed := Filter(records, Keyed);
      p.lines[i].volumes[j] == Number(CellSum(keyed, p.identities[i], p.months[j])) &&
      ((forall k | 0 <= k < |keyed| :: keyed[k].row != p.identities[i] || keyed[k].col != p.months[j]) ==>
        p.lines[i].volumes[j] == Number(0.0))
  {
    var p := PivotOf(records);
    var keyed := Filter(records, Keyed);
    if forall k | 0 <= k < |keyed| :: keyed[k].row != p.identities[i] || keyed[k].col != p.months[j] {
      CellAbsent(keyed, p.identities[i], p.months[j]);
    }
  }

  /**
   * Within one line, the lifetime mean is the total spread over the `|months|` months, the
   * 4-month mean is the sum of the first (newest) `RecentCount` month cells over that many
   * months, and the two means agree when there are no more than four months.
   */
  lemma LineMeans(fs: seq<Record>, ids: Key, months: seq<YearMonth>)
    requires |months| > 0
    ensures var l := LineOf(fs, ids, months, |months|);
      var sums := RowCells(fs, ids, months);
      l.lifetime * (|months| as real) == l.total &&
      l.recent * (RecentCount(months) as real * Gio) == SumReal(sums[..RecentCount(months)]) &&
      (|months| <= 4 ==> l.recent == l.lifetime)
  {
    var l := LineOf(fs, ids, months, |months|);
    var sums := RowCells(fs, ids, months);
    var r := RecentCount(months);
    var total, recent := SumReal(sums), SumReal(sums[..r]);
    assert l.total == total / Gio && l.lifetime == total / (|months| as real * Gio);
    assert l.recent == recent / (r as real * Gio);
    Spread(total, |months| as real, Gio);
    Spread(recent, r as real, Gio);
    if |months| <= 4 {
      assert sums[..r] == sums;
    }
  }

  /**
   * The total of a line is the identity's bytes over all its grouped records, in Go: every
   * record of the identity lands in exactly one month cell.
   */
  lemma PivotTotal(records: seq<Record>, i: nat)
    requires i < |PivotOf(records).lines|
    ensures var p := PivotOf(records);
      p.lines[i].total * Gio == RowSum(Filter(records, Keyed), p.identities[i])
  {
    var p := PivotOf(records);
    var keyed := Filter(records, Keyed);
    LaterOrder();
    SortDistinctSpec(ColKeys(keyed), Later);
    SortedDistinct(p.months, Later);
    var ids := p.identities[i];
    forall k | 0 <= k < |keyed| && keyed[k].row == ids ensures keyed[k].col in p.months {
      assert keyed[k].col == ColKeys(keyed)[k];
    }
    RowPartition(keyed, ids, p.months);
  }

  /** Line i of the pivot is the line of the i-th identity, over all the months of the table. */
  lemma PivotLine(records: seq<Record>, i: nat)
    requires i < |PivotOf(records).lines|
    ensures var p := PivotOf(records);
      p.months != [] && i < |p.identities| &&
      p.lines[i] == LineOf(Filter(records, Keyed), p.identities[i], p.months, |p.months|)
  {
  }

  /** Decoded volumes are whole, non-negative byte counts, keyed by five identity cells. */
  lemma RecordsWhole(ds: seq<Dated>)
    requires Records(ds).Ok?
    ensures forall k | 0 <= k < |Records(ds).value| ::
      Records(ds).value[k].value == Records(ds).value[k].value.Floor as real && Records(ds).value[k].value >= 0.0 &&
      |Records(ds).value[k].row| == |IdColumns|
  {
    RecordsSpec(ds);
  }

  /**
   * After formatting, the month cell of identity i and month j is the volume text of the
   * whole number of bytes summed in that cell ("0 Go 0 Mo 0 Ko" for a cell no record reaches).
   */
  lemma FormattedCell(records: seq<Record>, i: nat, j: nat)
    requires forall k | 0 <= k < |records| :: records[k].value == records[k].value.Floor as real && records[k].value >= 0.0
    requires var p := PivotOf(records); i < |p.lines| && j < |p.months|
    ensures var p := PivotOf(records);
      var sum := CellSum(Filter(records, Keyed), p.identities[i], p.months[j]);
      sum >= 0.0 && sum == sum.Floor as real &&
      FormatLines(p.lines)[i].volumes[j] == Text(FormatVolume(Some(sum.Floor)))
  {
    var p := PivotOf(records);
    var keyed := Filter(records, Keyed);
    forall k | 0 <= k < |keyed| ensures keyed[k].value == keyed[k].value.Floor as real && keyed[k].value >= 0.0 {
      FilterMembers(records, Keyed, keyed[k]);
    }
    var n := CellWhole(keyed, p.identities[i], p.months[j]);
    PivotCell(records, i, j);
    PivotShape(records);
    assert Truncate(n as real) == n;
  }

  /** Every formatted line has one cell per column of the sheet, in the same order. */
  lemma SheetAligned(records: seq<Record>, monthName: int -> string, i: nat)
    requires forall k | 0 <= k < |records| :: |records[k].row| == |IdColumns|
    requires i < |PivotOf(records).lines|
    ensures var p := PivotOf(records);
      var columns := ColumnOrder(Labels(p.months, monthName));
      var cells := LineCells(FormatLines(p.lines)[i]);
      |cells| == |columns| && cells[..|IdColumns|] == p.identities[i] &&
      columns[..|IdColumns|] == IdColumns &&
      columns[|IdColumns|..|IdColumns| + |Derived|] == Derived &&
      forall j | 0 <= j < |p.months| :: columns[|IdColumns| + |Derived| + j] == Label(p.months[j], monthName)
  {
    var p := PivotOf(records);
    PivotLine(records, i);
    IdentityWidth(records, i);
    var cells := LineCells(FormatLines(p.lines)[i]);
    assert cells[..|IdColumns|] == p.identities[i];
  }

  lemma IdentityWidth(records: seq<Record>, i: nat)
    requires forall k | 0 <= k < |records| :: |records[k].row| == |IdColumns|
    requires i < |PivotOf(records).identities|
    ensures |PivotOf(records).identities[i]| == |IdColumns|
  {
    var p := PivotOf(records);
    var keyed := Filter(records, Keyed);
    var ids := p.identities[i];
    PivotShape(records);
    assert ids in p.identities;
    var k :| 0 <= k < |keyed| && RowKeys(keyed)[k] == ids;
    FilterMembers(records, Keyed, keyed[k]);
  }

  /** A sum divided by `n` units, taken `n` times, is the sum divided by one unit. */
  lemma Spread(s: real, n: real, unit: real)
    requires n > 0.0 && unit > 0.0
    ensures (s / (n * unit)) * n == s / unit
    ensures (s / (n * unit)) * (n * unit) == s
  {
    var m := s / (n * unit);
    assert m * (n * unit) == s;
    assert (m * n) * unit == s;
  }

  /** `for col in month_cols: pivot[col] = pivot[col].apply(...)`, one month column at a time. */
  method FormatMonthColumns(lines: seq<Line>, n: nat) returns (out: seq<Line>)
    requires forall i | 0 <= i < |lines| :: |lines[i].volumes| == n
    ensures out == FormatLines(lines)
  {
    out := lines;
    var j := 0;
    while j < n
      invariant j <= n && |out| == |lines|
      invariant forall i | 0 <= i < |out| :: out[i] == lines[i].(volumes := out[i].volumes) && |out[i].volumes| == n
      invariant forall i, k | 0 <= i < |out| && 0 <= k < n ::
        out[i].volumes[k] == if k < j then FormatCell(lines[i].volumes[k]) else lines[i].volumes[k]
    {
      out := seq(|out|, i requires 0 <= i < |out| => out[i].(volumes := out[i].volumes[j := FormatCell(out[i].volumes[j])]));
      j := j + 1;
    }
    forall i | 0 <= i < |out| ensures out[i] == FormatLine(lines[i]) {
      assert out[i].volumes == FormatLine(lines[i]).volumes;
    }
  }

  /** `compute_moyenne_conso`. */
  method ComputeMoyenneConso(df: Frame, parseDate: Cell -> Option<YearMonth>, monthName: int -> string)
    returns (r: Result<Conso, VolumeError>)
    ensures r == MoyenneConso(df, parseDate, monthName)
  {
    if !HasRequired(df.names) {
      return Ok(NoTable);
    }
    var rows := Filter(df.rows, IsEchanges);
    if rows == [] {
      return Ok(NoTable);
    }
    var dated := DatedRows(rows, parseDate);
    if dated == [] {
      return Ok(NoTable);
    }
    var records := Records(dated);
    if records.Err? {
      return Err(records.error);
    }
    var pivot := PivotOf(records.value);
    PivotShape(records.value);
    var lines := FormatMonthColumns(pivot.lines, |pivot.months|);
    r := Ok(Sheet(ColumnOrder(Labels(pivot.months, monthName)), lines));
  }
}
