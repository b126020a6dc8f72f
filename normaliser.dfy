/**
 * The comma-decimal normalisation applied to a table straight after it is read. For each
 * text column in which some text cell holds a ',', every text cell is rewritten (spaces
 * removed in `read_csv_file` of app.py, kept in `_read_csv` of csv_xls_analyse/core.py, then
 * ',' replaced by '.'), and the rewritten column is converted to numbers when every one of
 * its texts reads as a number; otherwise it keeps the rewritten text.
 *
 * `pd.to_numeric` on one text is a parameter, `toNumber`: Some(x) when the text reads as the
 * number x, None when it does not.
 */
module Normaliser {
  import opened Wrappers
  import opened Text
  import opened Frames

  /**
   * `col.str.contains(',').any()`: missing cells (NaN) are skipped, so only a text cell can
   * trigger the rewrite. A column holding a text cell is an object column, so this also covers
   * the `select_dtypes(include="object")` filter.
   */
  predicate HasComma(col: seq<Cell>) {
    exists i | 0 <= i < |col| :: col[i].Text? && ',' in col[i].s
  }

  /** The text of one cell after the rewrite. */
  function Clean(s: string, stripSpaces: bool): string {
    ReplaceChar(if stripSpaces then RemoveChar(s, ' ') else s, ',', '.')
  }

  /** `.str.replace` yields NaN for every cell that is not a string. */
  function RewriteCell(c: Cell, stripSpaces: bool): Cell {
    if c.Text? then Text(Clean(c.s, stripSpaces)) else Missing
  }

  function Rewrite(col: seq<Cell>, stripSpaces: bool): (r: seq<Cell>)
    ensures |r| == |col|
  {
    seq(|col|, i requires 0 <= i < |col| => RewriteCell(col[i], stripSpaces))
  }

  /** Every text of the column reads as a number. */
  predicate AllParse(col: seq<Cell>, toNumber: string -> Option<real>) {
    forall i | 0 <= i < |col| :: col[i].Text? ==> toNumber(col[i].s).Some?
  }

  function NumberCell(c: Cell, toNumber: string -> Option<real>): Cell
    requires c.Text? ==> toNumber(c.s).Some?
  {
    if c.Text? then Number(toNumber(c.s).value) else c
  }

  /** `pd.to_numeric(col)`: the numbers when every text converts, None when one raises. */
  function ToNumeric(col: seq<Cell>, toNumber: string -> Option<real>): (r: Option<seq<Cell>>)
    ensures r.Some? ==> |r.value| == |col|
  {
    if AllParse(col, toNumber) then
      Some(seq(|col|, i requires 0 <= i < |col| => NumberCell(col[i], toNumber)))
    else
      None
  }

  /** The rewritten column, converted when the conversion succeeds. */
  function Convert(col: seq<Cell>, stripSpaces: bool, toNumber: string -> Option<real>): (r: seq<Cell>)
    ensures |r| == |col|
  {
    var t := Rewrite(col, stripSpaces);
    ToNumeric(t, toNumber).GetOr(t)
  }

  /** What the normalisation makes of one column. */
  function NormaliseColumn(col: seq<Cell>, stripSpaces: bool, toNumber: string -> Option<real>): seq<Cell> {
    if HasComma(col) then Convert(col, stripSpaces, toNumber) else col
  }

  /** Every text of the column, once rewritten, reads as a number. */
  predicate TextsParse(col: seq<Cell>, stripSpaces: bool, toNumber: string -> Option<real>) {
    forall j | 0 <= j < |col| && col[j].Text? :: toNumber(Clean(col[j].s, stripSpaces)).Some?
  }

  /** A rewritten text holds no ',' and, when spaces are stripped, no ' '; otherwise its length is kept. */
  lemma CleanSpec(s: string, stripSpaces: bool)
    ensures ',' !in Clean(s, stripSpaces)
    ensures stripSpaces ==> ' ' !in Clean(s, stripSpaces)
    ensures !stripSpaces ==> |Clean(s, stripSpaces)| == |s|
    ensures !stripSpaces ==> forall i | 0 <= i < |s| && s[i] != ',' :: Clean(s, stripSpaces)[i] == s[i]
  {
    var u := if stripSpaces then RemoveChar(s, ' ') else s;
    ReplaceCharAt(u, ',', '.');
  }

  /**
   * A column without a comma-bearing text is left as it is. A column with one ends up with
   * the same number of cells, each non-text cell missing, and either every text converted to
   * its number (when all rewritten texts read as numbers) or every text rewritten.
   */
  lemma NormaliseColumnCells(col: seq<Cell>, stripSpaces: bool, toNumber: string -> Option<real>)
    ensures |NormaliseColumn(col, stripSpaces, toNumber)| == |col|
    ensures !HasComma(col) ==> NormaliseColumn(col, stripSpaces, toNumber) == col
    ensures HasComma(col) ==> forall i | 0 <= i < |col| ::
      NormaliseColumn(col, stripSpaces, toNumber)[i] ==
        if !col[i].Text? then Missing
        else if TextsParse(col, stripSpaces, toNumber) then
          Number(toNumber(Clean(col[i].s, stripSpaces)).value)
        else Text(Clean(col[i].s, stripSpaces))
  {
    if HasComma(col) {
      var t := Rewrite(col, stripSpaces);
      assert forall i | 0 <= i < |col| :: t[i] == RewriteCell(col[i], stripSpaces);
      assert AllParse(t, toNumber) <==> TextsParse(col, stripSpaces, toNumber);
    }
  }

  /**
   * The conversion is all or nothing: a touched column holds no text at all exactly when every
   * one of its rewritten texts reads as a number.
   */
  lemma NumericIffAllParse(col: seq<Cell>, stripSpaces: bool, toNumber: string -> Option<real>)
    requires HasComma(col)
    ensures (forall i | 0 <= i < |col| :: !NormaliseColumn(col, stripSpaces, toNumber)[i].Text?) <==>
      TextsParse(col, stripSpaces, toNumber)
  {
    var r := NormaliseColumn(col, stripSpaces, toNumber);
    NormaliseColumnCells(col, stripSpaces, toNumber);
    if !TextsParse(col, stripSpaces, toNumber) {
      var j :| 0 <= j < |col| && col[j].Text? && toNumber(Clean(col[j].s, stripSpaces)).None?;
      assert r[j].Text?;
    }
  }

  /** After normalisation no text cell holds a ',', so a second pass changes nothing. */
  lemma NormaliseIdempotent(col: seq<Cell>, stripSpaces: bool, toNumber: string -> Option<real>)
    ensures NormaliseColumn(NormaliseColumn(col, stripSpaces, toNumber), stripSpaces, toNumber) ==
      NormaliseColumn(col, stripSpaces, toNumber)
  {
    var r := NormaliseColumn(col, stripSpaces, toNumber);
    if HasComma(col) {
      NormaliseColumnCells(col, stripSpaces, toNumber);
      if HasComma(r) {
        var i :| 0 <= i < |r| && r[i].Text? && ',' in r[i].s;
        CleanSpec(col[i].s, stripSpaces);
        assert false;
      }
    }
  }

  /** One turn of the column loop: the column `n` is rewritten when it holds a comma. */
  function Step(f: Frame, n: string, stripSpaces: bool, toNumber: string -> Option<real>): Frame {
    var c := Column(f, n);
    if HasComma(c) then SetColumn(f, n, Convert(c, stripSpaces, toNumber)) else f
  }

  /** The table after the first `k` columns have been through the loop. */
  function NormalisePrefix(f: Frame, k: nat, stripSpaces: bool, toNumber: string -> Option<real>): Frame
    requires k <= |f.names|
  {
    if k == 0 then f
    else Step(NormalisePrefix(f, k - 1, stripSpaces, toNumber), f.names[k - 1], stripSpaces, toNumber)
  }

  /** The table after the whole loop. */
  function NormaliseFrame(f: Frame, stripSpaces: bool, toNumber: string -> Option<real>): Frame {
    NormalisePrefix(f, |f.names|, stripSpaces, toNumber)
  }

  lemma {:induction false} PrefixCells(f: Frame, k: nat, stripSpaces: bool, toNumber: string -> Option<real>)
    requires Valid(f) && k <= |f.names|
    ensures Valid(NormalisePrefix(f, k, stripSpaces, toNumber))
    ensures NormalisePrefix(f, k, stripSpaces, toNumber).names == f.names
    ensures |NormalisePrefix(f, k, stripSpaces, toNumber).rows| == |f.rows|
    ensures forall n, i | 0 <= i < |f.rows| ::
      CellAt(NormalisePrefix(f, k, stripSpaces, toNumber), n, i) ==
        if n in f.names[..k] then NormaliseColumn(Column(f, n), stripSpaces, toNumber)[i] else CellAt(f, n, i)
  {
    if k > 0 {
      PrefixCells(f, k - 1, stripSpaces, toNumber);
      var p := NormalisePrefix(f, k - 1, stripSpaces, toNumber);
      var n := f.names[k - 1];
      assert n !in f.names[..k - 1];
      assert Column(p, n) == Column(f, n);
      assert f.names[..k] == f.names[..k - 1] + [n];
      var c := Column(f, n);
      if HasComma(c) {
        SetColumnCells(p, n, Convert(c, stripSpaces, toNumber));
      }
    }
  }

  /**
   * The loop normalises every column on its own: the result has the same columns and rows, and
   * each column is what NormaliseColumn makes of the original one.
   */
  lemma NormaliseFrameCells(f: Frame, stripSpaces: bool, toNumber: string -> Option<real>)
    requires Valid(f)
    ensures Valid(NormaliseFrame(f, stripSpaces, toNumber))
    ensures NormaliseFrame(f, stripSpaces, toNumber).names == f.names
    ensures |NormaliseFrame(f, stripSpaces, toNumber).rows| == |f.rows|
    ensures forall n, i | 0 <= i < |f.rows| ::
      CellAt(NormaliseFrame(f, stripSpaces, toNumber), n, i) == NormaliseColumn(Column(f, n), stripSpaces, toNumber)[i]
  {
    PrefixCells(f, |f.names|, stripSpaces, toNumber);
    assert f.names[..|f.names|] == f.names;
    forall n | n !in f.names ensures !HasComma(Column(f, n)) {
    }
  }

  /** The column loop shared by both readers. */
  method NormaliseColumns(table: Frame, stripSpaces: bool, toNumber: string -> Option<real>) returns (df: Frame)
    ensures df == NormaliseFrame(table, stripSpaces, toNumber)
  {
    df := table;
    var k := 0;
    while k < |table.names|
      invariant k <= |table.names|
      invariant df == NormalisePrefix(table, k, stripSpaces, toNumber)
    {
      var name := table.names[k];
      var col := Column(df, name);
      if HasComma(col) {
        var rewritten := Rewrite(col, stripSpaces);
        var converted := ToNumeric(rewritten, toNumber);
        if converted.Some? {
          df := SetColumn(df, name, converted.value);
        } else {
          df := SetColumn(df, name, rewritten);
        }
      }
      k := k + 1;
    }
  }

  /**
   * `read_csv_file` after `pd.read_csv`: spaces removed and ',' made '.', so a touched column
   * keeps no text with a space or a comma.
   */
  method ReadCsvFile(table: Frame, toNumber: string -> Option<real>) returns (df: Frame)
    requires Valid(table)
    ensures df == NormaliseFrame(table, true, toNumber)
    ensures Valid(df) && df.names == table.names && |df.rows| == |table.rows|
    ensures forall n, i | 0 <= i < |table.rows| ::
      CellAt(df, n, i) == NormaliseColumn(Column(table, n), true, toNumber)[i]
    ensures forall n, i | 0 <= i < |table.rows| && HasComma(Column(table, n)) && CellAt(df, n, i).Text? ::
      ' ' !in CellAt(df, n, i).s && ',' !in CellAt(df, n, i).s
  {
    df := NormaliseColumns(table, true, toNumber);
    NormaliseFrameCells(table, true, toNumber);
    forall n, i | 0 <= i < |table.rows| && HasComma(Column(table, n)) && CellAt(df, n, i).Text?
      ensures ' ' !in CellAt(df, n, i).s && ',' !in CellAt(df, n, i).s
    {
      NormaliseColumnCells(Column(table, n), true, toNumber);
      CleanSpec(Column(table, n)[i].s, true);
    }
  }

  /**
   * `_read_csv` after `pd.read_csv`: ',' made '.', spaces kept, so a text left in a touched
   * column has its original length and differs only where it held a ','.
   */
  method ReadCsv(table: Frame, toNumber: string -> Option<real>) returns (df: Frame)
    requires Valid(table)
    ensures df == NormaliseFrame(table, false, toNumber)
    ensures Valid(df) && df.names == table.names && |df.rows| == |table.rows|
    ensures forall n, i | 0 <= i < |table.rows| ::
      CellAt(df, n, i) == NormaliseColumn(Column(table, n), false, toNumber)[i]
    ensures forall n, i | 0 <= i < |table.rows| && HasComma(Column(table, n)) && CellAt(df, n, i).Text? ::
      CellAt(table, n, i).Text? && |CellAt(df, n, i).s| == |CellAt(table, n, i).s|
  {
    df := NormaliseColumns(table, false, toNumber);
    NormaliseFrameCells(table, false, toNumber);
    forall n, i | 0 <= i < |table.rows| && HasComma(Column(table, n)) && CellAt(df, n, i).Text?
      ensures CellAt(table, n, i).Text? && |CellAt(df, n, i).s| == |CellAt(table, n, i).s|
    {
      NormaliseColumnCells(Column(table, n), false, toNumber);
      CleanSpec(Column(table, n)[i].s, false);
    }
  }
}
