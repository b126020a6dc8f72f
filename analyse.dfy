/**
 * `analyse_consumption` of csv_xls_analyse/core.py: the `.csv` entries of a folder are merged;
 * the "Echanges" rows are grouped by user number and by the month label `%B-%y` of their
 * billing date; the `Volume` sums are laid out one line per user and one column per month,
 * newest first, with the total, the mean of the four newest months and the mean over all
 * months (each divided by 1024); the identity columns of each user come from the user's first
 * "Echanges" row.
 *
 * Unlike `compute_moyenne_conso`, dates are parsed without `errors="coerce"`: a date that does
 * not parse raises. Listing the folder (`os.listdir`) is the parameter `entries`; date parsing
 * is `parseDate` (only ever asked about a present cell); the locale's month name is
 * `monthName`.
 */
module Analyse {
  import opened Wrappers
  import opened Frames
  import opened Sequences
  import opened Ordering
  import opened Pivoting
  import opened Merge
  import opened Moyenne

  const UserNumber: string := IdColumns[1]
  const VolumeColumn: string := "Volume"

  /** The exceptions `analyse_consumption` raises. */
  datatype AnalyseError =
    | NoCsvFiles                     // ValueError("No CSV files found")
    | MissingColumn(name: string)    // KeyError on a column lookup
    | MaskWithMissing                // a boolean mask holding NaN
    | BadDate                        // to_datetime on a date it cannot parse
    | TextVolume                     // summing a `Volume` text

  /** `os.path.join(folder, f)`. */
  function Join(folder: string, f: string): string {
    if |f| > 0 && f[0] == '/' then f
    else if folder == [] || folder[|folder| - 1] == '/' then folder + f
    else folder + "/" + f
  }

  /** `csv_files`: the entries whose lower-cased name ends in ".csv", joined to the folder. */
  function CsvPaths(folder: string, entries: seq<string>): (r: seq<string>)
    ensures |r| == |Filter(entries, IsCsvName)|
    ensures forall i | 0 <= i < |r| :: r[i] == Join(folder, Filter(entries, IsCsvName)[i])
  {
    var names := Filter(entries, IsCsvName);
    seq(|names|, i requires 0 <= i < |names| => Join(folder, names[i]))
  }

  /**
   * The listing works entry by entry: a `.csv` entry gives its joined path, any other entry
   * nothing, and consecutive runs of entries give consecutive runs of paths, so the paths
   * keep the order of the entries.
   */
  lemma CsvPathsAppend(folder: string, a: seq<string>, b: seq<string>, e: string)
    ensures CsvPaths(folder, a + b) == CsvPaths(folder, a) + CsvPaths(folder, b)
    ensures CsvPaths(folder, [e]) == if IsCsvName(e) then [Join(folder, e)] else []
  {
    FilterAppend(a, b, IsCsvName);
    assert Filter([e], IsCsvName) == Filter([], IsCsvName) + (if IsCsvName(e) then [e] else []);
  }

  /** Every `.csv` entry yields its joined path, and every path comes from such an entry. */
  lemma CsvPathsCover(folder: string, entries: seq<string>)
    ensures forall e | e in entries && IsCsvName(e) :: Join(folder, e) in CsvPaths(folder, entries)
    ensures forall p | p in CsvPaths(folder, entries) ::
      exists e | e in entries && IsCsvName(e) :: p == Join(folder, e)
  {
    var names := Filter(entries, IsCsvName);
    var r := CsvPaths(folder, entries);
    forall e | e in entries && IsCsvName(e) ensures Join(folder, e) in r {
      FilterMembers(entries, IsCsvName, e);
      var i :| 0 <= i < |names| && names[i] == e;
      assert r[i] == Join(folder, e);
    }
    forall p | p in r ensures exists e | e in entries && IsCsvName(e) :: p == Join(folder, e) {
      var i :| 0 <= i < |r| && r[i] == p;
      FilterMembers(entries, IsCsvName, names[i]);
    }
  }

  /** A present billing date that does not parse: `pd.to_datetime` raises on it. */
  predicate Undated(r: Row, parseDate: Cell -> Option<YearMonth>) {
    Get(r, Period) != Missing && parseDate(Get(r, Period)).None?
  }

  /**
   * A row that reaches the sums: `groupby` drops the rows whose user number is missing or
   * whose month label is (a missing date gives NaT, whose label is missing).
   */
  predicate Grouped(r: Row, parseDate: Cell -> Option<YearMonth>) {
    Get(r, UserNumber) != Missing && Get(r, Period) != Missing && parseDate(Get(r, Period)).Some?
  }

  /** Python's `%y` read back by `%B-%y`: 69..99 are 1969..1999, 0..68 are 2000..2068. */
  function PivotYear(yy: int): int
    requires 0 <= yy < 100
  {
    if yy < 69 then 2000 + yy else 1900 + yy
  }

  /**
   * The month a date is grouped under. Grouping is by the label `%B-%y`, which forgets the
   * century; the label sorts as the date `to_datetime(label, format="%B-%y")` gives it.
   */
  function Bucket(d: YearMonth): YearMonth {
    YearMonth(PivotYear(d.year % 100), d.month)
  }

  /** The `Volume` cell of a row, as `sum` counts it: a missing cell adds nothing. */
  function Usage(r: Row): Result<real, AnalyseError> {
    match Get(r, VolumeColumn)
    case Missing => Ok(0.0)
    case Number(x) => Ok(x)
    case Text(_) => Err(TextVolume)
  }

  type Entry = Fact<Cell, YearMonth>

  function FactOf(r: Row, parseDate: Cell -> Option<YearMonth>): Entry
    requires Grouped(r, parseDate) && Usage(r).Ok?
  {
    Fact(Get(r, UserNumber), Bucket(parseDate(Get(r, Period)).value), Usage(r).value)
  }

  /** The records the grouping sums, in row order; the first row with a text volume raises. */
  function Facts(rows: seq<Row>, parseDate: Cell -> Option<YearMonth>): (r: Result<seq<Entry>, AnalyseError>)
    ensures r.Err? ==> r.error == TextVolume
  {
    if rows == [] then Ok([])
    else
      var r := rows[|rows| - 1];
      match Facts(rows[..|rows| - 1], parseDate)
      case Err(e) => Err(e)
      case Ok(fs) =>
        if !Grouped(r, parseDate) then Ok(fs)
        else
          match Usage(r)
          case Err(e) => Err(e)
          case Ok(_) => Ok(fs + [FactOf(r, parseDate)])
  }

  /** `drop_duplicates(UserNumber)` keeps, for each user number, the first row that has it. */
  function FirstRow(rows: seq<Row>, u: Cell): Option<Row> {
    if rows == [] then None
    else if Get(rows[0], UserNumber) == u then Some(rows[0])
    else FirstRow(rows[1..], u)
  }

  /** The identity cells the right merge attaches to user `u` (missing when no row matches). */
  function Fixed(rows: seq<Row>, u: Cell): (r: seq<Cell>)
    ensures |r| == |IdColumns|
  {
    match FirstRow(rows, u)
    case Some(row) => IdCells(row)
    case None => seq(|IdColumns|, _ => Missing)
  }

  /** One output line: the identity cells, one sum per month, and the three derived figures. */
  datatype Summary = Summary(fixed: seq<Cell>, volumes: seq<real>, total: real, recent: real, mean: real)

  function SummaryOf(rows: seq<Row>, fs: seq<Entry>, u: Cell, months: seq<YearMonth>): Summary
    requires |months| > 0
  {
    var sums := RowCells(fs, u, months);
    var r := RecentCount(months);
    Summary(Fixed(rows, u), sums,
            SumReal(sums) / 1024.0,
            SumReal(sums[..r]) / (r as real * 1024.0),
            SumReal(sums) / (|months| as real * 1024.0))
  }

  datatype Volumes = Volumes(users: seq<Cell>, months: seq<YearMonth>, lines: seq<Summary>)

  /** `groupby(...).sum().unstack(fill_value=0)`, the months sorted newest first, and the derived columns. */
  function Aggregate(rows: seq<Row>, fs: seq<Entry>): Volumes {
    var users := SortDistinct(RowKeys(fs), CellLess);
    var months := SortDistinct(ColKeys(fs), Later);
    Volumes(users, months,
            if months == [] then []
            else seq(|users|, i requires 0 <= i < |users| => SummaryOf(rows, fs, users[i], months)))
  }

  /** The first of `cols` that is not a column of the table. */
  function FirstAbsent(cols: seq<string>, names: seq<string>): (r: Option<string>)
    ensures r.None? <==> forall c | c in cols :: c in names
    ensures r.Some? ==> r.value in cols && r.value !in names
  {
    if cols == [] then None
    else if cols[0] !in names then Some(cols[0])
    else FirstAbsent(cols[1..], names)
  }

  /** The sheet: `fixed_cols`, then the month labels newest first, then the derived columns. */
  datatype Report = Report(columns: seq<string>, lines: seq<Summary>)

  function ReportColumns(months: seq<YearMonth>, monthName: int -> string): seq<string> {
    IdColumns + Labels(months, monthName) + Derived
  }

  function SummaryCells(l: Summary): seq<Cell> {
    l.fixed + seq(|l.volumes|, j requires 0 <= j < |l.volumes| => Number(l.volumes[j])) +
    [Number(l.total), Number(l.recent), Number(l.mean)]
  }

  /** What `analyse_consumption` writes, or what it raises, given the merged table. */
  function Analysis(df: Frame, parseDate: Cell -> Option<YearMonth>, monthName: int -> string)
    : Result<Report, AnalyseError>
  {
    if IsEmpty(df) then Err(NoCsvFiles)
    else if SubCategory !in df.names then Err(MissingColumn(SubCategory))
    else if exists i | 0 <= i < |df.rows| :: !Get(df.rows[i], SubCategory).Text? then Err(MaskWithMissing)
    else
      var rows := Filter(df.rows, IsEchanges);
      if Period !in df.names then Err(MissingColumn(Period))
      else if exists i | 0 <= i < |rows| :: Undated(rows[i], parseDate) then Err(BadDate)
      else if UserNumber !in df.names then Err(MissingColumn(UserNumber))
      else if VolumeColumn !in df.names then Err(MissingColumn(VolumeColumn))
      else
        match Facts(rows, parseDate)
        case Err(e) => Err(e)
        case Ok(fs) =>
          match FirstAbsent(IdColumns, df.names)
          case Some(c) => Err(MissingColumn(c))
          case None =>
            var v := Aggregate(rows, fs);
            Ok(Report(ReportColumns(v.months, monthName), v.lines))
  }

  /** `analyse_consumption`, up to the Excel writer. */
  method AnalyseConsumption(folder: string, entries: seq<string>, readCsv: string -> Frame,
                            zipMembers: string -> seq<Member>, toNumber: string -> Option<real>,
                            parseDate: Cell -> Option<YearMonth>, monthName: int -> string)
    returns (r: Result<Report, AnalyseError>)
    requires forall p :: Valid(readCsv(p))
    ensures r == Analysis(Merged(CsvPaths(folder, entries), readCsv, zipMembers, toNumber), parseDate, monthName)
  {
    var csvFiles := CsvPaths(folder, entries);
    var df := MergeCsvFiles(csvFiles, readCsv, zipMembers, toNumber);
    if IsEmpty(df) {
      return Err(NoCsvFiles);
    }
    if SubCategory !in df.names {
      return Err(MissingColumn(SubCategory));
    }
    if exists i | 0 <= i < |df.rows| :: !Get(df.rows[i], SubCategory).Text? {
      return Err(MaskWithMissing);
    }
    var rows := Filter(df.rows, IsEchanges);
    if Period !in df.names {
      return Err(MissingColumn(Period));
    }
    if exists i | 0 <= i < |rows| :: Undated(rows[i], parseDate) {
      return Err(BadDate);
    }
    if UserNumber !in df.names {
      return Err(MissingColumn(UserNumber));
    }
    if VolumeColumn !in df.names {
      return Err(MissingColumn(VolumeColumn));
    }
    var facts := Facts(rows, parseDate);
    if facts.Err? {
      return Err(facts.error);
    }
    var absent := FirstAbsent(IdColumns, df.names);
    if absent.Some? {
      return Err(MissingColumn(absent.value));
    }
    var volumes := Aggregate(rows, facts.value);
    r := Ok(Report(ReportColumns(volumes.months, monthName), volumes.lines));
  }

  /** An empty merged table raises `ValueError`, and only an empty one does. */
  lemma EmptyRaises(df: Frame, parseDate: Cell -> Option<YearMonth>, monthName: int -> string)
    ensures Analysis(df, parseDate, monthName) == Err(NoCsvFiles) <==> IsEmpty(df)
  {
  }

  /** A folder with no entry named `*.csv` (in any case) raises "No CSV files found". */
  lemma NoCsvEntryRaises(folder: string, entries: seq<string>, readCsv: string -> Frame,
                         zipMembers: string -> seq<Member>, toNumber: string -> Option<real>,
                         parseDate: Cell -> Option<YearMonth>, monthName: int -> string)
    requires forall i | 0 <= i < |entries| :: !IsCsvName(entries[i])
    ensures Analysis(Merged(CsvPaths(folder, entries), readCsv, zipMembers, toNumber), parseDate, monthName)
      == Err(NoCsvFiles)
  {
    FilterEmpty(entries, IsCsvName);
    assert CsvPaths(folder, entries) == [];
  }

  /**
   * Once the sub-category column is present and all text, the run raises on dates exactly
   * when some "Echanges" row has a present date that does not parse.
   */
  lemma DateRaises(df: Frame, parseDate: Cell -> Option<YearMonth>, monthName: int -> string)
    requires !IsEmpty(df) && SubCategory in df.names && Period in df.names
    requires forall i | 0 <= i < |df.rows| :: Get(df.rows[i], SubCategory).Text?
    ensures Analysis(df, parseDate, monthName) == Err(BadDate) <==>
      exists i | 0 <= i < |df.rows| :: IsEchanges(df.rows[i]) && Undated(df.rows[i], parseDate)
  {
    var rows := Filter(df.rows, IsEchanges);
    EchangesUndated(df.rows, parseDate);
    assert !exists i | 0 <= i < |df.rows| :: !Get(df.rows[i], SubCategory).Text?;
    if exists i | 0 <= i < |rows| :: Undated(rows[i], parseDate) {
      assert Analysis(df, parseDate, monthName) == Err(BadDate);
    } else if Analysis(df, parseDate, monthName).Err? {
      var e := Analysis(df, parseDate, monthName).error;
      assert e.MissingColumn? || e == Facts(rows, parseDate).error;
    }
  }

  lemma EchangesUndated(all: seq<Row>, parseDate: Cell -> Option<YearMonth>)
    ensures (exists k | 0 <= k < |Filter(all, IsEchanges)| :: Undated(Filter(all, IsEchanges)[k], parseDate)) <==>
      exists i | 0 <= i < |all| :: IsEchanges(all[i]) && Undated(all[i], parseDate)
  {
    var rows := Filter(all, IsEchanges);
    if exists i | 0 <= i < |all| :: IsEchanges(all[i]) && Undated(all[i], parseDate) {
      var i :| 0 <= i < |all| && IsEchanges(all[i]) && Undated(all[i], parseDate);
      FilterMembers(all, IsEchanges, all[i]);
      var k :| 0 <= k < |rows| && rows[k] == all[i];
    }
    if exists k | 0 <= k < |rows| :: Undated(rows[k], parseDate) {
      var k :| 0 <= k < |rows| && Undated(rows[k], parseDate);
      FilterMembers(all, IsEchanges, rows[k]);
      var i :| 0 <= i < |all| && all[i] == rows[k];
    }
  }

  /** The rows `groupby` keeps, in row order. */
  function GroupedRows(rows: seq<Row>, parseDate: Cell -> Option<YearMonth>): (g: seq<Row>)
    ensures |g| <= |rows|
    ensures forall k | 0 <= k < |g| :: Grouped(g[k], parseDate)
  {
    if rows == [] then []
    else
      var last := rows[|rows| - 1];
      GroupedRows(rows[..|rows| - 1], parseDate) + if Grouped(last, parseDate) then [last] else []
  }

  /**
   * The sums see one record per grouped row, with the row's user number, month bucket and
   * volume, and nothing else; a text volume on a grouped row raises.
   */
  lemma {:induction false} FactsSpec(rows: seq<Row>, parseDate: Cell -> Option<YearMonth>)
    ensures Facts(rows, parseDate).Ok? <==>
      forall k | 0 <= k < |rows| && Grouped(rows[k], parseDate) :: Usage(rows[k]).Ok?
    ensures Facts(rows, parseDate).Ok? ==>
      (forall f | f in Facts(rows, parseDate).value ::
         exists k | 0 <= k < |rows| :: Grouped(rows[k], parseDate) && Usage(rows[k]).Ok? && f == FactOf(rows[k], parseDate)) &&
      (forall k | 0 <= k < |rows| && Grouped(rows[k], parseDate) && Usage(rows[k]).Ok? ::
         FactOf(rows[k], parseDate) in Facts(rows, parseDate).value)
    ensures Facts(rows, parseDate).Ok? ==>
      |Facts(rows, parseDate).value| == |GroupedRows(rows, parseDate)| &&
      forall k | 0 <= k < |GroupedRows(rows, parseDate)| ::
        Usage(GroupedRows(rows, parseDate)[k]).Ok? &&
        Facts(rows, parseDate).value[k] == FactOf(GroupedRows(rows, parseDate)[k], parseDate)
  {
    if rows != [] {
      var n := |rows| - 1;
      var init := rows[..n];
      FactsSpec(init, parseDate);
      assert forall k | 0 <= k < n :: rows[k] == init[k];
      if Facts(rows, parseDate).Ok? {
        var fs := Facts(rows, parseDate).value;
        var g0 := GroupedRows(init, parseDate);
        var g := GroupedRows(rows, parseDate);
        assert forall k | 0 <= k < |g0| :: g[k] == g0[k];
        forall f | f in fs
          ensures exists k | 0 <= k < |rows| :: Grouped(rows[k], parseDate) && Usage(rows[k]).Ok? && f == FactOf(rows[k], parseDate)
        {
          if f !in Facts(init, parseDate).value {
            assert Grouped(rows[n], parseDate) && Usage(rows[n]).Ok? && f == FactOf(rows[n], parseDate);
          }
        }
      }
    }
  }

  /** Grouping by the month label: two dates share a bucket exactly when they share month and `%y`. */
  lemma BucketSpec(a: YearMonth, b: YearMonth)
    ensures 1969 <= Bucket(a).year <= 2068 && Bucket(a).year % 100 == a.year % 100 && Bucket(a).month == a.month
    ensures Bucket(a) == Bucket(b) <==> a.year % 100 == b.year % 100 && a.month == b.month
  {
  }

  /** The first row with user number `u`, when there is one. */
  lemma {:induction false} FirstRowSpec(rows: seq<Row>, u: Cell)
    ensures FirstRow(rows, u).Some? <==> exists k | 0 <= k < |rows| :: Get(rows[k], UserNumber) == u
    ensures FirstRow(rows, u).Some? ==>
      exists k | 0 <= k < |rows| :: FirstRow(rows, u).value == rows[k] && Get(rows[k], UserNumber) == u &&
        forall k' | 0 <= k' < k :: Get(rows[k'], UserNumber) != u
  {
    if rows != [] && Get(rows[0], UserNumber) != u {
      FirstRowSpec(rows[1..], u);
      assert forall k | 1 <= k < |rows| :: rows[k] == rows[1..][k - 1];
      if FirstRow(rows, u).Some? {
        var k :| 0 <= k < |rows[1..]| && FirstRow(rows, u).value == rows[1..][k] && Get(rows[1..][k], UserNumber) == u &&
          forall k' | 0 <= k' < k :: Get(rows[1..][k'], UserNumber) != u;
        assert forall k' | 1 <= k' < k + 1 :: Get(rows[k'], UserNumber) != u;
        assert rows[k + 1] == rows[1..][k];
      }
    }
  }

  /**
   * Users come out strictly increasing and months newest first, each list holding exactly the
   * keys of the records; one line per user, one sum per month, and no months exactly when no
   * record was grouped.
   */
  lemma AggregateShape(rows: seq<Row>, fs: seq<Entry>)
    ensures var v := Aggregate(rows, fs);
      Sorted(v.users, CellLess) && Sorted(v.months, Later) &&
      (forall u :: u in v.users <==> u in RowKeys(fs)) &&
      (forall m :: m in v.months <==> m in ColKeys(fs)) &&
      (v.months == [] <==> fs == []) && (v.users == [] <==> fs == []) &&
      |v.lines| == |v.users| &&
      forall i | 0 <= i < |v.lines| :: |v.lines[i].volumes| == |v.months|
  {
    CellOrder();
    LaterOrder();
    SortDistinctSpec(RowKeys(fs), CellLess);
    SortDistinctSpec(ColKeys(fs), Later);
    var v := Aggregate(rows, fs);
    if fs != [] {
      assert RowKeys(fs)[0] in v.users;
      assert ColKeys(fs)[0] in v.months;
    }
  }

  /** Line i is the summary of the i-th user over all the months of the table. */
  lemma AggregateLine(rows: seq<Row>, fs: seq<Entry>, i: nat)
    requires i < |Aggregate(rows, fs).lines|
    ensures var v := Aggregate(rows, fs);
      v.months != [] && i < |v.users| && v.lines[i] == SummaryOf(rows, fs, v.users[i], v.months)
  {
  }

  /**
   * Every user of the sheet gets exactly one line, whose identity cells are those of the
   * first row carrying that user number: the right merge always finds the user.
   */
  lemma AggregateFixed(rows: seq<Row>, fs: seq<Entry>, i: nat)
    requires forall j | 0 <= j < |fs| :: exists k | 0 <= k < |rows| :: Get(rows[k], UserNumber) == fs[j].row
    requires i < |Aggregate(rows, fs).lines|
    ensures var v := Aggregate(rows, fs);
      exists k | 0 <= k < |rows| ::
        Get(rows[k], UserNumber) == v.users[i] &&
        (forall k' | 0 <= k' < k :: Get(rows[k'], UserNumber) != v.users[i]) &&
        v.lines[i].fixed == IdCells(rows[k]) && v.lines[i].fixed[1] == v.users[i]
  {
    var v := Aggregate(rows, fs);
    var u := v.users[i];
    AggregateShape(rows, fs);
    AggregateLine(rows, fs, i);
    assert u in v.users;
    var j :| 0 <= j < |fs| && RowKeys(fs)[j] == u;
    FirstRowSpec(rows, u);
  }

  /** The sum of user i in month j gathers the volumes of the matching records, 0 when none. */
  lemma AggregateCell(rows: seq<Row>, fs: seq<Entry>, i: nat, j: nat)
    requires var v := Aggregate(rows, fs); i < |v.lines| && j < |v.months|
    ensures var v := Aggregate(rows, fs);
      v.lines[i].volumes[j] == CellSum(fs, v.users[i], v.months[j]) &&
      ((forall k | 0 <= k < |fs| :: fs[k].row != v.users[i] || fs[k].col != v.months[j]) ==>
        v.lines[i].volumes[j] == 0.0)
  {
    var v := Aggregate(rows, fs);
    AggregateLine(rows, fs, i);
    if forall k | 0 <= k < |fs| :: fs[k].row != v.users[i] || fs[k].col != v.months[j] {
      CellAbsent(fs, v.users[i], v.months[j]);
    }
  }

  /** The total of a line is the user's volume over all its records, divided by 1024. */
  lemma AggregateTotal(rows: seq<Row>, fs: seq<Entry>, i: nat)
    requires i < |Aggregate(rows, fs).lines|
    ensures var v := Aggregate(rows, fs);
      v.lines[i].total * 1024.0 == RowSum(fs, v.users[i])
  {
    var v := Aggregate(rows, fs);
    LaterOrder();
    SortDistinctSpec(ColKeys(fs), Later);
    SortedDistinct(v.months, Later);
    AggregateLine(rows, fs, i);
    var u := v.users[i];
    forall k | 0 <= k < |fs| && fs[k].row == u ensures fs[k].col in v.months {
      assert fs[k].col == ColKeys(fs)[k];
    }
    RowPartition(fs, u, v.months);
  }

  /**
   * The mean spreads the total over every month column; the 4-month mean covers the first
   * `min(4, months)` columns, and equals the mean when there are no more than four.
   */
  lemma SummaryMeans(rows: seq<Row>, fs: seq<Entry>, u: Cell, months: seq<YearMonth>)
    requires |months| > 0
    ensures var l := SummaryOf(rows, fs, u, months);
      var sums := RowCells(fs, u, months);
      l.mean * (|months| as real) == l.total &&
      l.recent * (RecentCount(months) as real * 1024.0) == SumReal(sums[..RecentCount(months)]) &&
      (|months| <= 4 ==> l.recent == l.mean)
  {
    var l := SummaryOf(rows, fs, u, months);
    var sums := RowCells(fs, u, months);
    var r := RecentCount(months);
    var total, recent := SumReal(sums), SumReal(sums[..r]);
    assert l.total == total / 1024.0 && l.mean == total / (|months| as real * 1024.0);
    assert l.recent == recent / (r as real * 1024.0);
    Spread(total, |months| as real, 1024.0);
    Spread(recent, r as real, 1024.0);
    if |months| <= 4 {
      assert sums[..r] == sums;
    }
  }

  /** Every line has one cell per column of the sheet. */
  lemma ReportAligned(rows: seq<Row>, fs: seq<Entry>, monthName: int -> string, i: nat)
    requires i < |Aggregate(rows, fs).lines|
    ensures var v := Aggregate(rows, fs);
      var columns := ReportColumns(v.months, monthName);
      |SummaryCells(v.lines[i])| == |columns| &&
      columns[..|IdColumns|] == IdColumns &&
      (forall j | 0 <= j < |v.months| :: columns[|IdColumns| + j] == Label(v.months[j], monthName)) &&
      columns[|IdColumns| + |v.months|..] == Derived
  {
    AggregateLine(rows, fs, i);
  }
}
