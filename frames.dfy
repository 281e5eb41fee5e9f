/** Sensor logs as tables indexed by timestamp, and the time-window slice
    `between` of utilities.py. */
module Frames {
  import opened Values

  /** One logged sample: its timestamp index and its numeric cells. A column
      that is absent from `cells` holds a missing (NaN) value in that row. */
  datatype Row = Row(time: int, cells: map<string, real>)

  /** A data frame: the set of its column labels and its rows in file order
      (not necessarily sorted by time). */
  datatype Table = Table(columns: set<string>, rows: seq<Row>)

  /** The rows whose timestamp lies strictly between `lo` and `hi`, in their
      original order. */
  function Filter(lo: int, hi: int, rows: seq<Row>): (r: seq<Row>)
    ensures |r| <= |rows|
    ensures forall k :: 0 <= k < |r| ==> lo < r[k].time < hi
  {
    if rows == [] then []
    else (if lo < rows[0].time < hi then [rows[0]] else []) + Filter(lo, hi, rows[1..])
  }

  /** `between(start, end, df)`: the slice of a table to the open window
      `(start, end)`; the columns are kept. */
  function Between(start: int, end: int, t: Table): (r: Table)
    ensures r.columns == t.columns
    ensures forall k :: 0 <= k < |r.rows| ==> start < r.rows[k].time < end
  {
    Table(t.columns, Filter(start, end, t.rows))
  }

  /** `xs` is obtained from `ys` by deleting elements. */
  predicate IsSubsequence<T(==)>(xs: seq<T>, ys: seq<T>)
    decreases |ys|
  {
    xs == [] ||
    (ys != [] &&
     ((xs[0] == ys[0] && IsSubsequence(xs[1..], ys[1..])) || IsSubsequence(xs, ys[1..])))
  }

  /** The slice keeps rows in their order and neither adds nor alters any. */
  lemma {:induction false} BetweenIsSubsequence(start: int, end: int, t: Table)
    ensures IsSubsequence(Between(start, end, t).rows, t.rows)
  {
    FilterIsSubsequence(start, end, t.rows);
  }

  lemma {:induction false} FilterIsSubsequence(lo: int, hi: int, rows: seq<Row>)
    ensures IsSubsequence(Filter(lo, hi, rows), rows)
    decreases |rows|
  {
    if rows != [] {
      FilterIsSubsequence(lo, hi, rows[1..]);
      var rest := Filter(lo, hi, rows[1..]);
      if lo < rows[0].time < hi {
        assert Filter(lo, hi, rows) == [rows[0]] + rest;
        assert ([rows[0]] + rest)[1..] == rest;
      } else {
        assert Filter(lo, hi, rows) == rest;
      }
    }
  }

  /** The slice holds exactly the rows strictly inside the window, each as
      many times as the table holds it; a row stamped `start` or `end` is
      never kept. */
  lemma {:induction false} BetweenExact(start: int, end: int, t: Table, row: Row)
    ensures multiset(Between(start, end, t).rows)[row]
         == if start < row.time < end then multiset(t.rows)[row] else 0
  {
    FilterExact(start, end, t.rows, row);
  }

  lemma {:induction false} FilterExact(lo: int, hi: int, rows: seq<Row>, row: Row)
    ensures multiset(Filter(lo, hi, rows))[row]
         == if lo < row.time < hi then multiset(rows)[row] else 0
    decreases |rows|
  {
    if rows != [] {
      FilterExact(lo, hi, rows[1..], row);
      assert rows == [rows[0]] + rows[1..];
      assert multiset(rows) == multiset{rows[0]} + multiset(rows[1..]);
      var rest := Filter(lo, hi, rows[1..]);
      if lo < rows[0].time < hi {
        assert multiset(Filter(lo, hi, rows)) == multiset{rows[0]} + multiset(rest);
      } else {
        assert Filter(lo, hi, rows) == rest;
      }
    }
  }

  /** Slicing twice is slicing once to the intersection of the two windows. */
  lemma {:induction false} FilterTwice(lo: int, hi: int, start: int, end: int, rows: seq<Row>)
    ensures Filter(lo, hi, Filter(start, end, rows)) == Filter(Max(lo, start), Min(hi, end), rows)
    decreases |rows|
  {
    if rows != [] {
      FilterTwice(lo, hi, start, end, rows[1..]);
      var inner := Filter(start, end, rows[1..]);
      if start < rows[0].time < end {
        assert Filter(start, end, rows) == [rows[0]] + inner;
        assert ([rows[0]] + inner)[1..] == inner;
      } else {
        assert Filter(start, end, rows) == inner;
      }
    }
  }

  /** `df[column].sum()`: the sum of the column's present values (pandas
      skips NaN; an empty column sums to 0). */
  function ColumnSum(rows: seq<Row>, column: string): real
  {
    if rows == [] then 0.0
    else (if column in rows[0].cells then rows[0].cells[column] else 0.0) + ColumnSum(rows[1..], column)
  }

  /** Reference definition, in one pass over the unsliced rows: the sum of
      `column` over the rows strictly inside `(lo, hi)`. */
  function SumIn(rows: seq<Row>, column: string, lo: int, hi: int): real
  {
    if rows == [] then 0.0
    else
      (if lo < rows[0].time < hi && column in rows[0].cells then rows[0].cells[column] else 0.0)
      + SumIn(rows[1..], column, lo, hi)
  }

  /** Summing a column of the slice is summing it over the rows inside the
      window. */
  lemma {:induction false} SumOfBetween(lo: int, hi: int, rows: seq<Row>, column: string)
    ensures ColumnSum(Filter(lo, hi, rows), column) == SumIn(rows, column, lo, hi)
    decreases |rows|
  {
    if rows != [] {
      SumOfBetween(lo, hi, rows[1..], column);
      var rest := Filter(lo, hi, rows[1..]);
      if lo < rows[0].time < hi {
        assert Filter(lo, hi, rows) == [rows[0]] + rest;
        assert ([rows[0]] + rest)[1..] == rest;
      } else {
        assert Filter(lo, hi, rows) == rest;
      }
    }
  }

  /** An empty or reversed window `hi <= lo` contains no row, so it sums to 0. */
  lemma {:induction false} SumInEmptyWindow(rows: seq<Row>, column: string, lo: int, hi: int)
    requires hi <= lo
    ensures SumIn(rows, column, lo, hi) == 0.0
    decreases |rows|
  {
    if rows != [] {
      SumInEmptyWindow(rows[1..], column, lo, hi);
    }
  }
}
