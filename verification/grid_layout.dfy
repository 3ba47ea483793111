/** The deterministic geometry of the particle generators: the grid that
    places particle `i` at row `i / rows`, column `i % rows` of a square of
    `rows = ceil(sqrt(count))` cells, and the equal bands a span is cut
    into, one per colour. Both generator families use it, over `[-1, 1)`
    in the newer one and `[0, 1)` in the older one.
 */
module GridLayout {
  import opened Types
  import IndexMath

  /** `Int(ceil(sqrt(Float(count))))`. For counts up to 65536 the `Float`
      square root is exact enough that this is the integer ceiling. */
  function Rows(count: nat): (rows: nat)
    ensures count <= rows * rows
    ensures rows == 0 || (rows - 1) * (rows - 1) < count
  {
    IndexMath.CeilSqrt(count)
  }

  datatype Cell = Cell(row: nat, col: nat)

  /** `i.quotientAndRemainder(dividingBy: rows)`. */
  function CellOf(i: nat, count: nat): (c: Cell)
    requires i < count
    ensures c.row < Rows(count) && c.col < Rows(count)
    ensures c.row * Rows(count) + c.col == i
  {
    var rows := Rows(count);
    IndexMath.GridDivMod(i, count, rows);
    Cell(i / rows, i % rows)
  }

  /** The centre of the `k`-th of `rows` equal steps that cut
      `[offset, offset + span)`: `k*gap + gap/2 + offset` with
      `gap = span / rows`. */
  function Coordinate(k: nat, rows: nat, span: real, offset: real): (x: real)
    requires k < rows && span > 0.0
    ensures offset < x < offset + span
  {
    var gap := span / rows as real;
    StrictScale(k as real + 0.5, rows as real, gap);
    k as real * gap + gap / 2.0 + offset
  }

  lemma StrictScale(a: real, b: real, g: real)
    requires a < b && g > 0.0
    ensures a * g < b * g
  {
  }

  /** Different steps have different centres. */
  lemma CoordinateInjective(a: nat, b: nat, rows: nat, span: real, offset: real)
    requires a < rows && b < rows && span > 0.0
    ensures Coordinate(a, rows, span, offset) == Coordinate(b, rows, span, offset) <==> a == b
  {
    var gap := span / rows as real;
    if a < b {
      StrictScale(a as real, b as real, gap);
    } else if b < a {
      StrictScale(b as real, a as real, gap);
    }
  }

  /** The grid position of particle `i`: its column sets `x`, and rows are
      counted from the top, so row 0 has the largest `y`. */
  function Position(i: nat, count: nat, span: real, offset: real): (v: Vec2)
    requires i < count && span > 0.0
    ensures offset < v.x < offset + span && offset < v.y < offset + span
  {
    var rows := Rows(count);
    var c := CellOf(i, count);
    Vec2(Coordinate(c.col, rows, span, offset), Coordinate(rows - c.row - 1, rows, span, offset))
  }

  /** No two particles of a grid share a position. */
  lemma PositionInjective(i: nat, j: nat, count: nat, span: real, offset: real)
    requires i < count && j < count && span > 0.0
    ensures Position(i, count, span, offset) == Position(j, count, span, offset) <==> i == j
  {
    var rows := Rows(count);
    var a := CellOf(i, count);
    var b := CellOf(j, count);
    CoordinateInjective(a.col, b.col, rows, span, offset);
    CoordinateInjective(rows - a.row - 1, rows - b.row - 1, rows, span, offset);
  }

  /** Where band `c` of `n` equal bands of `[0, span)` starts:
      `volume * c` with `volume = span / n`. */
  function BandStart(c: nat, n: nat, span: real): real
    requires n > 0
  {
    span / n as real * c as real
  }

  /** Later bands start no earlier. */
  lemma BandStartMonotone(c: nat, d: nat, n: nat, span: real)
    requires n > 0 && span > 0.0 && c <= d
    ensures BandStart(c, n, span) <= BandStart(d, n, span)
  {
    Scale(c as real, d as real, span / n as real);
  }

  /** The `c`-th of `n` equal bands of `[0, span)`:
      `volume*c ..< volume*(c + 1)` with `volume = span / n`. */
  function Band(c: nat, n: nat, span: real): (r: (real, real))
    requires c < n && span > 0.0
    ensures 0.0 <= r.0 < r.1 <= span
  {
    var volume := span / n as real;
    Scale((c + 1) as real, n as real, volume);
    StrictScale(c as real, (c + 1) as real, volume);
    (BandStart(c, n, span), BandStart(c + 1, n, span))
  }

  lemma Scale(a: real, b: real, g: real)
    requires a <= b && g >= 0.0
    ensures a * g <= b * g && g * a <= g * b
  {
  }

  /** A lower band ends where a higher one starts, or before. */
  lemma BandsOrdered(c: nat, d: nat, n: nat, span: real)
    requires c < n && d < n && span > 0.0
    ensures c < d ==> Band(c, n, span).1 <= Band(d, n, span).0
  {
    if c < d {
      BandStartMonotone(c + 1, d, n, span);
    }
  }

  /** The bands do not overlap: a value lies in at most one of them. */
  lemma BandsDisjoint(c: nat, d: nat, n: nat, span: real, x: real)
    requires c < n && d < n && span > 0.0
    requires Band(c, n, span).0 <= x < Band(c, n, span).1
    requires Band(d, n, span).0 <= x < Band(d, n, span).1
    ensures c == d
  {
    BandsOrdered(c, d, n, span);
    BandsOrdered(d, c, n, span);
  }
}
