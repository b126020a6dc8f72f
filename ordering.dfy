/**
 * The orders pandas sorts group keys by, and the sorted list of distinct keys that `groupby`,
 * `pivot` and `sorted(...)` produce.
 */
module Ordering {
  import opened Frames

  /** `less` is a strict total order. */
  ghost predicate StrictTotal<T(!new)>(less: (T, T) -> bool) {
    (forall x :: !less(x, x)) &&
    (forall x, y, z :: less(x, y) && less(y, z) ==> less(x, z)) &&
    (forall x, y :: x != y ==> less(x, y) || less(y, x))
  }

  /** Lexicographic order on sequences: a proper prefix comes first. */
  function LexLess<T(==)>(a: seq<T>, b: seq<T>, less: (T, T) -> bool): bool {
    if a == [] then b != []
    else if b == [] then false
    else if a[0] == b[0] then LexLess(a[1..], b[1..], less)
    else less(a[0], b[0])
  }

  lemma {:induction false} LexIrreflexive<T(!new)>(a: seq<T>, less: (T, T) -> bool)
    requires StrictTotal(less)
    ensures !LexLess(a, a, less)
  {
    if a != [] {
      LexIrreflexive(a[1..], less);
    }
  }

  lemma {:induction false} LexTransitive<T(!new)>(a: seq<T>, b: seq<T>, c: seq<T>, less: (T, T) -> bool)
    requires StrictTotal(less) && LexLess(a, b, less) && LexLess(b, c, less)
    ensures LexLess(a, c, less)
  {
    if a != [] && b != [] && c != [] && a[0] == b[0] && b[0] == c[0] {
      LexTransitive(a[1..], b[1..], c[1..], less);
    }
  }

  lemma {:induction false} LexTotal<T(!new)>(a: seq<T>, b: seq<T>, less: (T, T) -> bool)
    requires StrictTotal(less) && a != b
    ensures LexLess(a, b, less) || LexLess(b, a, less)
  {
    if a != [] && b != [] && a[0] == b[0] {
      assert a == [a[0]] + a[1..] && b == [b[0]] + b[1..];
      LexTotal(a[1..], b[1..], less);
    }
  }

  function CharLess(x: char, y: char): bool {
    x < y
  }

  /** Python's string order: by code points, a proper prefix first. */
  function TextLess(a: string, b: string): bool {
    LexLess(a, b, CharLess)
  }

  /** Numbers before texts (as pandas' safe sort puts them), missing cells last. */
  function CellLess(x: Cell, y: Cell): bool {
    match (x, y)
    case (Number(a), Number(b)) => a < b
    case (Number(_), _) => true
    case (Text(a), Text(b)) => TextLess(a, b)
    case (Text(_), Missing) => true
    case (_, _) => false
  }

  /** Lexicographic order on tuples of cells, as a sorted MultiIndex has it. */
  function CellsLess(a: seq<Cell>, b: seq<Cell>): bool {
    LexLess(a, b, CellLess)
  }

  lemma TextOrder()
    ensures StrictTotal(TextLess)
  {
    assert StrictTotal(CharLess);
    forall a: string ensures !TextLess(a, a) {
      LexIrreflexive(a, CharLess);
    }
    forall a: string, b: string, c: string | TextLess(a, b) && TextLess(b, c) ensures TextLess(a, c) {
      LexTransitive(a, b, c, CharLess);
    }
    forall a: string, b: string | a != b ensures TextLess(a, b) || TextLess(b, a) {
      LexTotal(a, b, CharLess);
    }
  }

  lemma CellOrder()
    ensures StrictTotal(CellLess)
  {
    TextOrder();
  }

  lemma CellsOrder()
    ensures StrictTotal(CellsLess)
  {
    CellOrder();
    forall a: seq<Cell> ensures !CellsLess(a, a) {
      LexIrreflexive(a, CellLess);
    }
    forall a: seq<Cell>, b: seq<Cell>, c: seq<Cell> | CellsLess(a, b) && CellsLess(b, c) ensures CellsLess(a, c) {
      LexTransitive(a, b, c, CellLess);
    }
    forall a: seq<Cell>, b: seq<Cell> | a != b ensures CellsLess(a, b) || CellsLess(b, a) {
      LexTotal(a, b, CellLess);
    }
  }

  /** Strictly increasing, hence without duplicates. */
  predicate Sorted<T>(s: seq<T>, less: (T, T) -> bool) {
    forall i, j | 0 <= i < j < |s| :: less(s[i], s[j])
  }

  /** Insert `x` into a strictly increasing sequence, unless it is already there. */
  function Insert<T(==)>(s: seq<T>, x: T, less: (T, T) -> bool): seq<T> {
    if s == [] then [x]
    else if x == s[0] then s
    else if less(x, s[0]) then [x] + s
    else [s[0]] + Insert(s[1..], x, less)
  }

  lemma {:induction false} InsertSpec<T(!new)>(s: seq<T>, x: T, less: (T, T) -> bool)
    requires StrictTotal(less) && Sorted(s, less)
    ensures Sorted(Insert(s, x, less), less)
    ensures forall y :: y in Insert(s, x, less) <==> y == x || y in s
  {
    if s != [] && x != s[0] && !less(x, s[0]) {
      var t := s[1..];
      assert Sorted(t, less) by {
        forall i, j | 0 <= i < j < |t| ensures less(t[i], t[j]) {
          assert t[i] == s[i + 1] && t[j] == s[j + 1];
        }
      }
      InsertSpec(t, x, less);
      var r := Insert(t, x, less);
      assert s == [s[0]] + t;
      forall y | y in r ensures less(s[0], y) {
        if y != x {
          var k :| 0 <= k < |t| && t[k] == y;
          assert s[k + 1] == y;
        }
      }
      var u := [s[0]] + r;
      forall i, j | 0 <= i < j < |u| ensures less(u[i], u[j]) {
        if i > 0 {
          assert u[i] == r[i - 1] && u[j] == r[j - 1];
        } else {
          assert u[j] == r[j - 1] && u[j] in r;
        }
      }
    } else if s != [] && x != s[0] {
      var u := [x] + s;
      forall i, j | 0 <= i < j < |u| ensures less(u[i], u[j]) {
        if i > 0 {
          assert u[i] == s[i - 1] && u[j] == s[j - 1];
        } else if j > 1 {
          assert u[j] == s[j - 1];
          assert less(s[0], s[j - 1]);
        }
      }
    }
  }

  /** The distinct elements of `xs`, in increasing order (`sorted(set(xs))`). */
  function SortDistinct<T(==)>(xs: seq<T>, less: (T, T) -> bool): seq<T> {
    if xs == [] then [] else Insert(SortDistinct(xs[..|xs| - 1], less), xs[|xs| - 1], less)
  }

  /** The result is strictly increasing and holds exactly the elements of `xs`. */
  lemma {:induction false} SortDistinctSpec<T(!new)>(xs: seq<T>, less: (T, T) -> bool)
    requires StrictTotal(less)
    ensures Sorted(SortDistinct(xs, less), less)
    ensures forall y :: y in SortDistinct(xs, less) <==> y in xs
  {
    if xs != [] {
      var init := xs[..|xs| - 1];
      SortDistinctSpec(init, less);
      InsertSpec(SortDistinct(init, less), xs[|xs| - 1], less);
      assert xs == init + [xs[|xs| - 1]];
    }
  }

  /** A strictly increasing sequence has no element twice. */
  lemma SortedDistinct<T(!new)>(s: seq<T>, less: (T, T) -> bool)
    requires StrictTotal(less) && Sorted(s, less)
    ensures Distinct(s)
  {
  }
}
