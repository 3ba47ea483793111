/** `Matrix<Element>`: a row-major matrix stored as a flat element list.

    The Swift subscript addresses cell `(row, col)` at `row*rows + col`,
    which is the row-major position only when the matrix is square. The
    model keeps that formula as `IndexAsWritten`, exhibits where it goes
    wrong, and addresses cells at `row*cols + col` (`Index`), which agrees
    with it on every square matrix — the only shape the program builds.
 */
module Matrices {

  datatype Matrix<T> = Matrix(rows: nat, cols: nat, elements: seq<T>)

  /** A cell position `(row, col)`. */
  type Cell = (nat, nat)

  predicate Valid<T>(m: Matrix<T>)
  {
    |m.elements| == m.rows * m.cols
  }

  predicate InRange<T>(m: Matrix<T>, cell: Cell)
  {
    cell.0 < m.rows && cell.1 < m.cols
  }

  /** `init(rows:cols:elements:)`, whose `assert` demands one element per
      cell. */
  function Make<T>(rows: nat, cols: nat, elements: seq<T>): (m: Matrix<T>)
    requires rows * cols == |elements|
    ensures Valid(m) && m.rows == rows && m.cols == cols
    ensures forall r: nat, c: nat :: r < rows && c < cols ==>
              Index(cols, r, c) < |elements| && Get(m, r, c) == elements[Index(cols, r, c)]
  {
    var m := Matrix(rows, cols, elements);
    forall r: nat, c: nat | r < rows && c < cols
      ensures Index(cols, r, c) < |elements| && Get(m, r, c) == elements[Index(cols, r, c)]
    {
      IndexInBounds(rows, cols, r, c);
    }
    m
  }

  /** The flat position of a cell as the subscript computes it. */
  function IndexAsWritten(rows: nat, r: nat, c: nat): nat
  {
    r * rows + c
  }

  /** The row-major flat position of a cell. */
  function Index(cols: nat, r: nat, c: nat): nat
  {
    r * cols + c
  }

  lemma IndexInBounds(rows: nat, cols: nat, r: nat, c: nat)
    requires r < rows && c < cols
    ensures Index(cols, r, c) < rows * cols
  {
    assert r * cols + cols == (r + 1) * cols;
    assert (r + 1) * cols <= rows * cols;
  }

  /** Distinct cells of a matrix have distinct row-major positions. */
  lemma IndexInjective(cols: nat, r1: nat, c1: nat, r2: nat, c2: nat)
    requires c1 < cols && c2 < cols
    requires Index(cols, r1, c1) == Index(cols, r2, c2)
    ensures r1 == r2 && c1 == c2
  {
    RowsApart(r1, r2, cols);
    RowsApart(r2, r1, cols);
  }

  /** A later row starts at least one full row further on. */
  lemma RowsApart(a: nat, b: nat, cols: nat)
    ensures a < b ==> a * cols + cols <= b * cols
  {
    if a < b {
      assert a * cols + cols == (a + 1) * cols;
    }
  }

  /** On a square matrix the subscript's formula is the row-major one. */
  lemma IndexAsWrittenSquare(n: nat, r: nat, c: nat)
    ensures IndexAsWritten(n, r, c) == Index(n, r, c)
  {
  }

  /** On a 2x3 matrix the subscript's formula sends the distinct cells
      (1, 0) and (0, 2) to the same element, and on a 3x2 matrix it sends
      the cell (2, 1) past the end of the six elements. */
  lemma IndexAsWrittenFailsWhenNotSquare()
    ensures IndexAsWritten(2, 1, 0) == IndexAsWritten(2, 0, 2)
    ensures IndexAsWritten(3, 2, 1) >= 3 * 2
  {
  }

  /** `subscript(row:col:)` getter. */
  function Get<T>(m: Matrix<T>, r: nat, c: nat): T
    requires Valid(m) && r < m.rows && c < m.cols
  {
    IndexInBounds(m.rows, m.cols, r, c);
    m.elements[Index(m.cols, r, c)]
  }

  /** `subscript(row:col:)` setter: the cell holds the new value and every
      other cell keeps its value. */
  function Set<T>(m: Matrix<T>, r: nat, c: nat, v: T): (m': Matrix<T>)
    requires Valid(m) && r < m.rows && c < m.cols
    ensures Valid(m') && m'.rows == m.rows && m'.cols == m.cols
    ensures Get(m', r, c) == v
    ensures forall i: nat, j: nat :: i < m.rows && j < m.cols && (i, j) != (r, c) ==> Get(m', i, j) == Get(m, i, j)
  {
    IndexInBounds(m.rows, m.cols, r, c);
    var m' := Matrix(m.rows, m.cols, m.elements[Index(m.cols, r, c) := v]);
    forall i: nat, j: nat | i < m.rows && j < m.cols && (i, j) != (r, c)
      ensures Get(m', i, j) == Get(m, i, j)
    {
      IndexInBounds(m.rows, m.cols, i, j);
      if Index(m.cols, i, j) == Index(m.cols, r, c) {
        IndexInjective(m.cols, i, j, r, c);
      }
    }
    m'
  }

  /** `init(rows:cols:filledWith:)`. */
  function Filled<T>(rows: nat, cols: nat, v: T): (m: Matrix<T>)
    ensures Valid(m) && m.rows == rows && m.cols == cols
    ensures forall r: nat, c: nat :: r < rows && c < cols ==> Get(m, r, c) == v
  {
    var m := Matrix(rows, cols, seq(rows * cols, _ => v));
    forall r: nat, c: nat | r < rows && c < cols ensures Get(m, r, c) == v {
      IndexInBounds(rows, cols, r, c);
    }
    m
  }

  /** The cells of row `r`, left to right. */
  function RowCells(r: nat, cols: nat): (s: seq<Cell>)
    ensures |s| == cols
    ensures forall k :: 0 <= k < cols ==> s[k] == (r, k)
  {
    seq(cols, c requires 0 <= c => (r, c))
  }

  /** `indices()`: every cell, rows in order and each row left to right.
      Position `k` of the list holds the cell whose row-major position is
      `k`. */
  function Indices(rows: nat, cols: nat): (s: seq<Cell>)
    ensures |s| == rows * cols
    ensures forall k :: 0 <= k < |s| ==>
              s[k].0 < rows && s[k].1 < cols && Index(cols, s[k].0, s[k].1) == k
  {
    if rows == 0 then []
    else
      var front := Indices(rows - 1, cols);
      var s := front + RowCells(rows - 1, cols);
      assert |s| == rows * cols by {
        assert (rows - 1) * cols + cols == rows * cols;
      }
      s
  }

  /** Each cell appears in `indices()` exactly once, at its row-major
      position. */
  lemma IndicesListEachCellOnce(rows: nat, cols: nat)
    ensures forall r: nat, c: nat :: r < rows && c < cols ==>
              Index(cols, r, c) < |Indices(rows, cols)| && Indices(rows, cols)[Index(cols, r, c)] == (r, c)
    ensures Distinct(Indices(rows, cols))
  {
    var s := Indices(rows, cols);
    forall r: nat, c: nat | r < rows && c < cols
      ensures Index(cols, r, c) < |s| && s[Index(cols, r, c)] == (r, c)
    {
      IndexInBounds(rows, cols, r, c);
      var k := Index(cols, r, c);
      IndexInjective(cols, s[k].0, s[k].1, r, c);
    }
  }

  /** A cell is listed by `indices()` exactly when it lies in the matrix. */
  lemma IndicesMembership(rows: nat, cols: nat)
    ensures forall cell: Cell :: cell in Indices(rows, cols) <==> cell.0 < rows && cell.1 < cols
  {
    IndicesListEachCellOnce(rows, cols);
    var s := Indices(rows, cols);
    forall cell: Cell | cell.0 < rows && cell.1 < cols ensures cell in s {
      assert s[Index(cols, cell.0, cell.1)] == cell;
    }
  }

  /** Two matrices of the same shape that agree on every cell are equal. */
  lemma Extensionality<T>(a: Matrix<T>, b: Matrix<T>)
    requires Valid(a) && Valid(b) && a.rows == b.rows && a.cols == b.cols
    requires forall r: nat, c: nat :: r < a.rows && c < a.cols ==> Get(a, r, c) == Get(b, r, c)
    ensures a == b
  {
    var cells := Indices(a.rows, a.cols);
    forall k | 0 <= k < |a.elements| ensures a.elements[k] == b.elements[k] {
      var cell := cells[k];
      assert Get(a, cell.0, cell.1) == Get(b, cell.0, cell.1);
    }
  }

  /** No cell is listed twice. */
  predicate Distinct(cells: seq<Cell>)
  {
    forall i, j :: 0 <= i < j < |cells| ==> cells[i] != cells[j]
  }

  predicate AllInRange<T>(m: Matrix<T>, cells: seq<Cell>)
  {
    forall k :: 0 <= k < |cells| ==> InRange(m, cells[k])
  }

  /** Replaces, in list order, each listed cell by `f(cell, value)`. Because
      no cell is listed twice, each `f` sees the cell's original value. */
  function Modify<T>(m: Matrix<T>, cells: seq<Cell>, f: (Cell, T) -> T): (m': Matrix<T>)
    requires Valid(m) && AllInRange(m, cells) && Distinct(cells)
    ensures Valid(m') && m'.rows == m.rows && m'.cols == m.cols
    ensures forall r: nat, c: nat :: r < m.rows && c < m.cols ==>
              Get(m', r, c) == if (r, c) in cells then f((r, c), Get(m, r, c)) else Get(m, r, c)
    decreases |cells|
  {
    if |cells| == 0 then m
    else
      var cell := cells[0];
      var rest := cells[1..];
      assert cell !in rest by {
        forall k | 0 <= k < |rest| ensures rest[k] != cell {
          assert rest[k] == cells[k + 1];
        }
      }
      var next := Set(m, cell.0, cell.1, f(cell, Get(m, cell.0, cell.1)));
      assert AllInRange(next, rest) by {
        forall k | 0 <= k < |rest| ensures InRange(next, rest[k]) {
          assert rest[k] == cells[k + 1];
        }
      }
      assert Distinct(rest) by {
        forall i, j | 0 <= i < j < |rest| ensures rest[i] != rest[j] {
          assert rest[i] == cells[i + 1] && rest[j] == cells[j + 1];
        }
      }
      var m' := Modify(next, rest, f);
      assert forall x :: x in cells <==> x == cell || x in rest;
      m'
  }

  /** `modifyElements(_:)`: every cell becomes `transform(cell, old value)`,
      and the shape does not change. */
  function ModifyElements<T>(m: Matrix<T>, transform: (Cell, T) -> T): (m': Matrix<T>)
    requires Valid(m)
    ensures Valid(m') && m'.rows == m.rows && m'.cols == m.cols
    ensures forall r: nat, c: nat :: r < m.rows && c < m.cols ==> Get(m', r, c) == transform((r, c), Get(m, r, c))
  {
    IndicesListEachCellOnce(m.rows, m.cols);
    var cells := Indices(m.rows, m.cols);
    var m' := Modify(m, cells, transform);
    forall r: nat, c: nat | r < m.rows && c < m.cols
      ensures Get(m', r, c) == transform((r, c), Get(m, r, c))
    {
      assert cells[Index(m.cols, r, c)] == (r, c);
    }
    m'
  }

  /** `transpose()`, which is not part of this model's source files:
      modelled as the plain transpose of a square matrix. */
  function Transpose<T>(m: Matrix<T>): (t: Matrix<T>)
    requires Valid(m) && m.rows == m.cols
    ensures Valid(t) && t.rows == m.rows && t.cols == m.cols
    ensures forall r: nat, c: nat :: r < m.rows && c < m.cols ==> Get(t, r, c) == Get(m, c, r)
  {
    var n := m.rows;
    var cells := Indices(n, n);
    var t := Matrix(n, n, seq(n * n, k requires 0 <= k < n * n => Get(m, cells[k].1, cells[k].0)));
    IndicesListEachCellOnce(n, n);
    forall r: nat, c: nat | r < n && c < n ensures Get(t, r, c) == Get(m, c, r) {
      assert cells[Index(n, r, c)] == (r, c);
    }
    t
  }

  lemma TransposeInvolution<T>(m: Matrix<T>)
    requires Valid(m) && m.rows == m.cols
    ensures Transpose(Transpose(m)) == m
  {
    var t2 := Transpose(Transpose(m));
    var n := m.rows;
    forall k | 0 <= k < n * n ensures t2.elements[k] == m.elements[k] {
      var cells := Indices(n, n);
      var (r, c) := cells[k];
      assert Get(t2, r, c) == Get(m, r, c);
    }
  }

  /** `colorMatrix(filledWith:)`, which is not part of this model's source
      files: a 6x6 matrix, one row and column per colour, every cell set to
      the value. */
  function ColorMatrix<T>(v: T): (m: Matrix<T>)
    ensures Valid(m) && m.rows == 6 && m.cols == 6
    ensures forall r: nat, c: nat :: r < 6 && c < 6 ==> Get(m, r, c) == v
  {
    Filled(6, 6, v)
  }
}
