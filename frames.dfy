/**
 * Tables as pandas holds them after `read_csv`: named columns, and rows whose cells are text,
 * numbers or missing (NaN); and `pd.concat(frames, ignore_index=True)`, which stacks the rows
 * and takes the union of the columns, an absent column reading as missing.
 */
module Frames {

  datatype Cell = Text(s: string) | Number(x: real) | Missing

  /** A row maps column names to cells; a name it lacks reads as missing. */
  type Row = map<string, Cell>

  /** Column names in display order, and the rows in index order. */
  datatype Frame = Frame(names: seq<string>, rows: seq<Row>)

  predicate Distinct<T(==)>(s: seq<T>) {
    forall i, j | 0 <= i < j < |s| :: s[i] != s[j]
  }

  /** Column names are unique and every cell sits in a named column. */
  predicate Valid(f: Frame) {
    Distinct(f.names) && forall i, n | 0 <= i < |f.rows| && n in f.rows[i] :: n in f.names
  }

  /** `pd.DataFrame()`: no columns, no rows. */
  function EmptyFrame(): (f: Frame)
    ensures Valid(f) && f.rows == [] && f.names == []
  {
    Frame([], [])
  }

  /** `df.empty`: no rows or no columns. */
  predicate IsEmpty(f: Frame) {
    |f.rows| == 0 || |f.names| == 0
  }

  function Get(r: Row, n: string): Cell {
    if n in r then r[n] else Missing
  }

  /** The cell of column `n` in row `i`. */
  function CellAt(f: Frame, n: string, i: nat): Cell
    requires i < |f.rows|
  {
    Get(f.rows[i], n)
  }

  /** The column `n` as a sequence of cells, one per row (all missing when there is no such column). */
  function Column(f: Frame, n: string): (c: seq<Cell>)
    ensures |c| == |f.rows|
  {
    seq(|f.rows|, i requires 0 <= i < |f.rows| => CellAt(f, n, i))
  }

  /** `df[n] = c` for an existing column `n`. */
  function SetColumn(f: Frame, n: string, c: seq<Cell>): (g: Frame)
    requires |c| == |f.rows|
  {
    Frame(f.names, seq(|f.rows|, i requires 0 <= i < |f.rows| => f.rows[i][n := c[i]]))
  }

  /** Assigning a column of an existing name replaces that column's cells and nothing else. */
  lemma SetColumnCells(f: Frame, n: string, c: seq<Cell>)
    requires Valid(f) && n in f.names && |c| == |f.rows|
    ensures Valid(SetColumn(f, n, c))
    ensures SetColumn(f, n, c).names == f.names && |SetColumn(f, n, c).rows| == |f.rows|
    ensures forall m, i | 0 <= i < |f.rows| ::
      CellAt(SetColumn(f, n, c), m, i) == if m == n then c[i] else CellAt(f, m, i)
  {
  }

  /** The names of `extra` that `names` does not hold yet, in their order. */
  function NewNames(names: seq<string>, extra: seq<string>): (r: seq<string>)
    ensures forall n :: n in r <==> n in extra && n !in names
  {
    if extra == [] then []
    else if extra[0] in names then NewNames(names, extra[1..])
    else [extra[0]] + NewNames(names, extra[1..])
  }

  lemma {:induction false} NewNamesDistinct(names: seq<string>, extra: seq<string>)
    requires Distinct(extra)
    ensures Distinct(NewNames(names, extra))
  {
    if extra != [] {
      assert Distinct(extra[1..]) by {
        forall i, j | 0 <= i < j < |extra[1..]| ensures extra[1..][i] != extra[1..][j] {
          assert extra[1..][i] == extra[i + 1] && extra[1..][j] == extra[j + 1];
        }
      }
      NewNamesDistinct(names, extra[1..]);
      if extra[0] !in names {
        assert extra[0] !in extra[1..] by {
          forall k | 0 <= k < |extra[1..]| ensures extra[1..][k] != extra[0] {
            assert extra[1..][k] == extra[k + 1];
          }
        }
      }
    }
  }

  lemma {:induction false} NewNamesAll(extra: seq<string>)
    ensures NewNames([], extra) == extra
  {
    if extra != [] {
      NewNamesAll(extra[1..]);
    }
  }

  /** The column order of `pd.concat([a, b])`: a's columns, then b's new ones in b's order. */
  function ConcatNames(a: seq<string>, b: seq<string>): seq<string> {
    a + NewNames(a, b)
  }

  lemma ConcatNamesDistinct(a: seq<string>, b: seq<string>)
    requires Distinct(a) && Distinct(b)
    ensures Distinct(ConcatNames(a, b))
    ensures ConcatNames(a, b)[..|a|] == a
    ensures forall n :: n in ConcatNames(a, b) <==> n in a || n in b
  {
    var r := ConcatNames(a, b);
    var added := NewNames(a, b);
    NewNamesDistinct(a, b);
    forall i, j | 0 <= i < j < |r| ensures r[i] != r[j] {
      if j >= |a| {
        assert r[j] == added[j - |a|] && r[j] in added;
        if i >= |a| {
          assert r[i] == added[i - |a|];
        } else {
          assert r[i] == a[i];
        }
      }
    }
  }

  /** `pd.concat([a, b], ignore_index=True)`. */
  function Concat(a: Frame, b: Frame): Frame {
    Frame(ConcatNames(a.names, b.names), a.rows + b.rows)
  }

  /**
   * The concatenation is a valid table with the columns of both, a's first, whose rows are
   * a's rows and then b's rows, every cell unchanged (a column that a row's own table lacked
   * reads as missing there).
   */
  lemma ConcatSpec(a: Frame, b: Frame)
    requires Valid(a) && Valid(b)
    ensures Valid(Concat(a, b))
    ensures Concat(a, b).names[..|a.names|] == a.names
    ensures forall n :: n in Concat(a, b).names <==> n in a.names || n in b.names
    ensures |Concat(a, b).rows| == |a.rows| + |b.rows|
    ensures forall n, i | 0 <= i < |a.rows| :: CellAt(Concat(a, b), n, i) == CellAt(a, n, i)
    ensures forall n, i | |a.rows| <= i < |a.rows| + |b.rows| ::
      CellAt(Concat(a, b), n, i) == CellAt(b, n, i - |a.rows|)
  {
    ConcatNamesDistinct(a.names, b.names);
    var r := Concat(a, b);
    forall i, n | 0 <= i < |r.rows| && n in r.rows[i] ensures n in r.names {
      if i < |a.rows| {
        assert r.rows[i] == a.rows[i];
      } else {
        assert r.rows[i] == b.rows[i - |a.rows|];
      }
    }
  }

  /** `pd.concat(frames, ignore_index=True)` for a non-empty list, folded from the left. */
  function ConcatAll(frames: seq<Frame>): Frame
    requires |frames| >= 1
  {
    if |frames| == 1 then frames[0]
    else Concat(ConcatAll(frames[..|frames| - 1]), frames[|frames| - 1])
  }

  /** All the rows of all the frames, in order. */
  function AllRows(frames: seq<Frame>): seq<Row> {
    if frames == [] then [] else AllRows(frames[..|frames| - 1]) + frames[|frames| - 1].rows
  }

  /** All the column names of all the frames, each once, in order of first appearance. */
  function AllNames(frames: seq<Frame>): seq<string> {
    if frames == [] then []
    else ConcatNames(AllNames(frames[..|frames| - 1]), frames[|frames| - 1].names)
  }

  lemma {:induction false} ConcatAllShape(frames: seq<Frame>)
    requires |frames| >= 1 && forall k | 0 <= k < |frames| :: Valid(frames[k])
    ensures Valid(ConcatAll(frames))
    ensures ConcatAll(frames).rows == AllRows(frames)
    ensures ConcatAll(frames).names == AllNames(frames)
  {
    if |frames| == 1 {
      assert AllRows(frames[..0]) == [] && AllNames(frames[..0]) == [];
      NewNamesAll(frames[0].names);
    } else {
      var init := frames[..|frames| - 1];
      ConcatAllShape(init);
      ConcatSpec(ConcatAll(init), frames[|frames| - 1]);
    }
  }

  /** A name is among AllNames exactly when some frame has a column of that name. */
  lemma {:induction false} AllNamesMembers(frames: seq<Frame>, n: string)
    ensures n in AllNames(frames) <==> exists k | 0 <= k < |frames| :: n in frames[k].names
  {
    if frames != [] {
      var init := frames[..|frames| - 1];
      AllNamesMembers(init, n);
      if n in AllNames(init) {
        var k :| 0 <= k < |init| && n in init[k].names;
        assert frames[k] == init[k];
      }
      if k :| 0 <= k < |frames| && n in frames[k].names {
        if k < |init| {
          assert init[k] == frames[k];
        }
      }
    }
  }

  /**
   * `ignore_index=True` stacks without deduplication: the rows of the result are the rows of
   * the frames one after the other, and its columns are the union of theirs, in order of
   * first appearance.
   */
  lemma ConcatAllSpec(frames: seq<Frame>)
    requires |frames| >= 1 && forall k | 0 <= k < |frames| :: Valid(frames[k])
    ensures Valid(ConcatAll(frames))
    ensures ConcatAll(frames).rows == AllRows(frames)
    ensures ConcatAll(frames).names == AllNames(frames)
    ensures forall n :: n in ConcatAll(frames).names <==>
      exists k | 0 <= k < |frames| :: n in frames[k].names
  {
    ConcatAllShape(frames);
    forall n {
      AllNamesMembers(frames, n);
    }
  }

  /** The number of rows before frame `k`. */
  function RowsBefore(frames: seq<Frame>, k: nat): nat
    requires k <= |frames|
  {
    if k == 0 then 0 else RowsBefore(frames, k - 1) + |frames[k - 1].rows|
  }

  lemma {:induction false} RowsBeforePrefix(frames: seq<Frame>, init: seq<Frame>, q: nat)
    requires q <= |init| <= |frames| && init == frames[..|init|]
    ensures RowsBefore(init, q) == RowsBefore(frames, q)
  {
    if q > 0 {
      RowsBeforePrefix(frames, init, q - 1);
    }
  }

  lemma {:induction false} AllRowsLength(frames: seq<Frame>)
    ensures |AllRows(frames)| == RowsBefore(frames, |frames|)
  {
    if frames != [] {
      var init := frames[..|frames| - 1];
      AllRowsLength(init);
      RowsBeforePrefix(frames, init, |init|);
    }
  }

  /** The heights add up, and row j of frame k is row RowsBefore(k) + j of the stack. */
  lemma {:induction false} AllRowsPlace(frames: seq<Frame>, k: nat, j: nat)
    requires k < |frames| && j < |frames[k].rows|
    ensures |AllRows(frames)| == RowsBefore(frames, |frames|)
    ensures RowsBefore(frames, k) + j < |AllRows(frames)|
    ensures AllRows(frames)[RowsBefore(frames, k) + j] == frames[k].rows[j]
  {
    var init := frames[..|frames| - 1];
    AllRowsLength(frames);
    AllRowsLength(init);
    RowsBeforePrefix(frames, init, |init|);
    RowsBeforePrefix(frames, init, k);
    if k < |init| {
      AllRowsPlace(init, k, j);
    }
  }
}
