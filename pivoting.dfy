/**
 * `df.groupby([row, col])[value].sum()` followed by `pivot`/`unstack` with missing cells
 * filled by 0: a table indexed by the distinct row keys, with one column per distinct column
 * key, whose cells are the sums of the values of the matching records.
 */
module Pivoting {
  import opened Frames
  import opened Sequences
  import opened Ordering

  /** One record that reaches the grouping: its row key, its column key and its value. */
  datatype Fact<K, C> = Fact(row: K, col: C, value: real)

  function RowKeys<K, C>(fs: seq<Fact<K, C>>): (r: seq<K>)
    ensures |r| == |fs| && forall i | 0 <= i < |fs| :: r[i] == fs[i].row
  {
    seq(|fs|, i requires 0 <= i < |fs| => fs[i].row)
  }

  function ColKeys<K, C>(fs: seq<Fact<K, C>>): (r: seq<C>)
    ensures |r| == |fs| && forall i | 0 <= i < |fs| :: r[i] == fs[i].col
  {
    seq(|fs|, i requires 0 <= i < |fs| => fs[i].col)
  }

  /** The sum of the values of the records with row key `k` and column key `c` (0 when none). */
  function CellSum<K(==), C(==)>(fs: seq<Fact<K, C>>, k: K, c: C): real {
    if fs == [] then 0.0
    else
      var f := fs[|fs| - 1];
      CellSum(fs[..|fs| - 1], k, c) + (if f.row == k && f.col == c then f.value else 0.0)
  }

  /** The sum of the values of the records with row key `k`. */
  function RowSum<K(==), C>(fs: seq<Fact<K, C>>, k: K): real {
    if fs == [] then 0.0
    else
      var f := fs[|fs| - 1];
      RowSum(fs[..|fs| - 1], k) + (if f.row == k then f.value else 0.0)
  }

  /** The cells of row `k` under the columns `cols`, in that order. */
  function RowCells<K(==), C(==)>(fs: seq<Fact<K, C>>, k: K, cols: seq<C>): (r: seq<real>)
    ensures |r| == |cols| && forall j | 0 <= j < |cols| :: r[j] == CellSum(fs, k, cols[j])
  {
    seq(|cols|, j requires 0 <= j < |cols| => CellSum(fs, k, cols[j]))
  }

  /** A cell that no record reaches holds 0, as `fillna(0)` / `fill_value=0` makes it. */
  lemma {:induction false} CellAbsent<K, C>(fs: seq<Fact<K, C>>, k: K, c: C)
    requires forall i | 0 <= i < |fs| :: fs[i].row != k || fs[i].col != c
    ensures CellSum(fs, k, c) == 0.0
  {
    if fs != [] {
      CellAbsent(fs[..|fs| - 1], k, c);
    }
  }

  /** A sum of whole non-negative values is a whole non-negative number. */
  lemma {:induction false} CellWhole<K, C>(fs: seq<Fact<K, C>>, k: K, c: C) returns (n: nat)
    requires forall i | 0 <= i < |fs| :: fs[i].value == fs[i].value.Floor as real && fs[i].value >= 0.0
    ensures CellSum(fs, k, c) == n as real
  {
    if fs == [] {
      n := 0;
    } else {
      var m := CellWhole(fs[..|fs| - 1], k, c);
      var f := fs[|fs| - 1];
      n := m + if f.row == k && f.col == c then f.value.Floor else 0;
    }
  }

  lemma {:induction false} SumPointwise(a: seq<real>, b: seq<real>, c: seq<real>)
    requires |a| == |b| == |c| && forall j | 0 <= j < |c| :: c[j] == a[j] + b[j]
    ensures SumReal(c) == SumReal(a) + SumReal(b)
  {
    if c != [] {
      var n := |c| - 1;
      SumPointwise(a[..n], b[..n], c[..n]);
    }
  }

  /** `v` under column `c` and 0 elsewhere, summed, is `v` when `c` occurs once. */
  lemma {:induction false} SumIndicator<C>(cols: seq<C>, c: C, v: real, s: seq<real>)
    requires Distinct(cols) && |s| == |cols|
    requires forall j | 0 <= j < |cols| :: s[j] == if cols[j] == c then v else 0.0
    ensures SumReal(s) == if c in cols then v else 0.0
  {
    if cols != [] {
      var n := |cols| - 1;
      assert Distinct(cols[..n]);
      SumIndicator(cols[..n], c, v, s[..n]);
      assert cols == cols[..n] + [cols[n]];
      if cols[n] == c {
        assert c !in cols[..n];
      }
    }
  }

  /**
   * Summing a row across its columns gives the row's total, provided the columns are
   * distinct and every column key of the row's records is among them: each record is
   * counted in exactly one cell.
   */
  lemma {:induction false} RowPartition<K, C>(fs: seq<Fact<K, C>>, k: K, cols: seq<C>)
    requires Distinct(cols)
    requires forall i | 0 <= i < |fs| && fs[i].row == k :: fs[i].col in cols
    ensures SumReal(RowCells(fs, k, cols)) == RowSum(fs, k)
  {
    if fs != [] {
      var n := |fs| - 1;
      var f := fs[n];
      RowPartition(fs[..n], k, cols);
      var a := RowCells(fs[..n], k, cols);
      var v := if f.row == k then f.value else 0.0;
      var b := seq(|cols|, j requires 0 <= j < |cols| => if cols[j] == f.col then v else 0.0);
      var whole := RowCells(fs, k, cols);
      forall j | 0 <= j < |cols| ensures whole[j] == a[j] + b[j] {
        assert whole[j] == CellSum(fs, k, cols[j]);
      }
      SumPointwise(a, b, whole);
      SumIndicator(cols, f.col, v, b);
      assert RowSum(fs, k) == RowSum(fs[..n], k) + v;
    } else {
      SumZeros(RowCells(fs, k, cols));
    }
  }

  lemma {:induction false} SumZeros(s: seq<real>)
    requires forall j | 0 <= j < |s| :: s[j] == 0.0
    ensures SumReal(s) == 0.0
  {
    if s != [] {
      SumZeros(s[..|s| - 1]);
    }
  }

  /** The records of the row keyed `k`, summed across `cols`, split into a leading block and the rest. */
  lemma SplitRow(s: seq<real>, r: nat)
    requires r <= |s|
    ensures SumReal(s) == SumReal(s[..r]) + SumReal(s[r..])
  {
    SumRealAppend(s[..r], s[r..]);
    assert s == s[..r] + s[r..];
  }
}
