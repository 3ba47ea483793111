/** `AttractionLineUpdate`: set one row, one column or the diagonal of the
    step matrix to a single step, within the first `colorCount` colours.
 */
module AttractionLineUpdates {
  import opened Colors
  import opened Matrices
  import opened AttractionUpdates

  datatype LineUpdate = Row(color: Color) | Column(color: Color) | Diagonal

  /** Whether the update writes cell `(r, c)`. */
  predicate OnLine(u: LineUpdate, colorCount: nat, r: nat, c: nat)
  {
    match u
    case Row(color) => r == IntValue(color) && c < colorCount
    case Column(color) => c == IntValue(color) && r < colorCount
    case Diagonal => r == c && r < colorCount
  }

  /** The cell the loop of `apply` writes on its `k`-th iteration. */
  function LineCell(u: LineUpdate, k: nat): Cell
  {
    match u
    case Row(color) => (RawValue(color), k)
    case Column(color) => (k, RawValue(color))
    case Diagonal => (k, k)
  }

  /** The cells the loop of `apply` visits, in loop order: exactly the
      cells on the line, each once. */
  function LineCells(u: LineUpdate, colorCount: nat): (cells: seq<Cell>)
    requires colorCount <= TotalColors
    ensures |cells| == colorCount
    ensures Distinct(cells)
    ensures forall k :: 0 <= k < |cells| ==> cells[k].0 < TotalColors && cells[k].1 < TotalColors
    ensures forall r: nat, c: nat :: (r, c) in cells <==> OnLine(u, colorCount, r, c)
  {
    var cells := seq(colorCount, k requires 0 <= k => LineCell(u, k));
    assert forall r: nat, c: nat :: OnLine(u, colorCount, r, c) ==> (r, c) in cells by {
      forall r: nat, c: nat | OnLine(u, colorCount, r, c) ensures (r, c) in cells {
        var k := if u.Row? then c else r;
        assert cells[k] == (r, c);
      }
    }
    cells
  }

  /** `apply(_:step:colorCount:)`. `0..<colorCount` traps on a negative
      count. A count above six makes `.column` and `.diagonal` index past
      the 36 elements, which traps, but `.row(color)` below the last colour
      runs on into the following rows while `color * 6 + colorCount <= 36`:
      with a count of 7, `steps[2, 6]` is element 18, cell (3, 0),
      which is silently overwritten. The precondition keeps to the counts
      where every write lands on the line. The cells on the line get the
      step; every other cell, including those on the line beyond
      `colorCount`, keeps its value. */
  function Apply(u: LineUpdate, m: Matrix<int>, step: int, colorCount: int): (m': Matrix<int>)
    requires IsColorMatrix(m) && 0 <= colorCount <= TotalColors
    ensures IsColorMatrix(m')
    ensures forall r: nat, c: nat :: r < TotalColors && c < TotalColors ==>
              Get(m', r, c) == if OnLine(u, colorCount, r, c) then step else Get(m, r, c)
  {
    var cells := LineCells(u, colorCount);
    Modify(m, cells, (_: Cell, _: int) => step)
  }

  /** Applying the same update twice is the same as applying it once. */
  lemma ApplyIdempotent(u: LineUpdate, m: Matrix<int>, step: int, colorCount: int)
    requires IsColorMatrix(m) && 0 <= colorCount <= TotalColors
    ensures Apply(u, Apply(u, m, step, colorCount), step, colorCount) == Apply(u, m, step, colorCount)
  {
    var once := Apply(u, m, step, colorCount);
    Extensionality(Apply(u, once, step, colorCount), once);
  }

  /** A step within `-10...10` keeps the matrix within it. */
  lemma ApplyBounded(u: LineUpdate, m: Matrix<int>, step: int, colorCount: int)
    requires IsColorMatrix(m) && Bounded(m) && 0 <= colorCount <= TotalColors
    requires -AttractionRange <= step <= AttractionRange
    ensures Bounded(Apply(u, m, step, colorCount))
  {
  }
}
