/** The row-major lattice both grid builders produce: row 0 left to right, then
    row 1, and so on, one element per cell, generic in what a cell holds. */
module Lattice {

  /** The first `n` cells of row `y`. */
  function RowOf<T>(f: (nat, nat) -> T, y: nat, n: nat): seq<T> {
    if n == 0 then [] else RowOf(f, y, n - 1) + [f(n - 1, y)]
  }

  /** The first `k` full rows of width `cols`. */
  function RowsOf<T>(cols: nat, f: (nat, nat) -> T, k: nat): seq<T> {
    if k == 0 then [] else RowsOf(cols, f, k - 1) + RowOf(f, k - 1, cols)
  }

  /** All `cols` × `rows` cells, row-major. */
  function Build<T>(cols: nat, rows: nat, f: (nat, nat) -> T): seq<T> {
    RowsOf(cols, f, rows)
  }

  lemma {:induction false} RowOfCells<T>(f: (nat, nat) -> T, y: nat, n: nat)
    ensures |RowOf(f, y, n)| == n
    ensures forall x :: 0 <= x < n ==> RowOf(f, y, n)[x] == f(x, y)
  {
    if n > 0 {
      RowOfCells(f, y, n - 1);
    }
  }

  lemma {:induction false} RowsOfLength<T>(cols: nat, f: (nat, nat) -> T, k: nat)
    ensures |RowsOf(cols, f, k)| == k * cols
  {
    if k > 0 {
      RowsOfLength(cols, f, k - 1);
      RowOfCells(f, k - 1, cols);
      assert (k - 1) * cols + cols == k * cols;
    }
  }

  /** The cell at column `x` of row `y` sits at index `y * cols + x`. */
  lemma {:induction false} RowsOfAt<T>(cols: nat, f: (nat, nat) -> T, k: nat, x: nat, y: nat)
    requires x < cols && y < k
    ensures y * cols + x < |RowsOf(cols, f, k)|
    ensures RowsOf(cols, f, k)[y * cols + x] == f(x, y)
  {
    RowsOfLength(cols, f, k);
    RowsOfLength(cols, f, k - 1);
    RowOfCells(f, k - 1, cols);
    var before := RowsOf(cols, f, k - 1);
    var row := RowOf(f, k - 1, cols);
    assert RowsOf(cols, f, k) == before + row;
    var i := y * cols + x;
    if y < k - 1 {
      RowStep(y, k - 1, cols);
      assert i < |before|;
      RowsOfAt(cols, f, k - 1, x, y);
      assert (before + row)[i] == before[i];
    } else {
      assert i == |before| + x;
      assert (before + row)[i] == row[x];
    }
  }

  /** A lattice of `cols` × `rows` cells has `rows * cols` elements, and the
      element at index `gy * cols + gx` is the cell (`gx`, `gy`). */
  lemma BuildAt<T>(cols: nat, rows: nat, f: (nat, nat) -> T, x: nat, y: nat)
    requires x < cols && y < rows
    ensures |Build(cols, rows, f)| == rows * cols
    ensures y * cols + x < rows * cols && Build(cols, rows, f)[y * cols + x] == f(x, y)
  {
    RowsOfLength(cols, f, rows);
    RowsOfAt(cols, f, rows, x, y);
  }

  /** Conversely every element is the cell of its own row-major position:
      column `i % cols`, row `i / cols`. */
  lemma BuildCells<T>(cols: nat, rows: nat, f: (nat, nat) -> T)
    ensures |Build(cols, rows, f)| == rows * cols
    ensures forall i :: 0 <= i < |Build(cols, rows, f)| ==>
      0 < cols && i % cols < cols && i / cols < rows
      && Build(cols, rows, f)[i] == f(i % cols, i / cols)
  {
    RowsOfLength(cols, f, rows);
    forall i | 0 <= i < rows * cols
      ensures 0 < cols && i % cols < cols && i / cols < rows
        && Build(cols, rows, f)[i] == f(i % cols, i / cols)
    {
      assert 0 < cols;
      var x, y := i % cols, i / cols;
      assert i == y * cols + x;
      if y >= rows {
        RowStep(rows - 1, y, cols);
        assert false;
      }
      RowsOfAt(cols, f, rows, x, y);
    }
  }

  /** Row `a` ends before row `b > a` starts. */
  lemma RowStep(a: nat, b: nat, cols: nat)
    requires a < b
    ensures a * cols + cols <= b * cols
  {
    var d := b - a;
    assert b * cols == a * cols + d * cols;
    assert d * cols >= cols by {
      assert d * cols == cols + (d - 1) * cols;
    }
  }

  lemma AppendAssoc<T>(a: seq<T>, b: seq<T>, c: seq<T>)
    ensures (a + b) + c == a + (b + c)
  {
  }
}
