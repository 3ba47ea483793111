/** `AttractionUpdate`: whole-matrix edits of the 6x6 integer step matrix
    behind the attraction coefficients. Random draws are a parameter:
    `draw(i, j)` is the value `Int.random(in: -10...10)` returns when the
    edit visits cell `(i, j)`.
 */
module AttractionUpdates {
  import opened Results
  import opened Colors
  import opened Matrices
  import Lookup

  /** The largest step magnitude; the random draws lie in
      `-AttractionRange...AttractionRange`. */
  const AttractionRange: int := 10

  datatype Update = Randomize | SymmetricRandom | Negate | Transpose | ZeroToOne | ZeroToMinusOne

  /** `allCases`, in declaration order. */
  const AllUpdates: seq<Update> := [Randomize, SymmetricRandom, Negate, Transpose, ZeroToOne, ZeroToMinusOne]

  /** The raw value, which is also the `description`. */
  function Description(u: Update): string
  {
    match u
    case Randomize => "Randomize"
    case SymmetricRandom => "Symmetric random"
    case Negate => "Negate"
    case Transpose => "Transpose"
    case ZeroToOne => "Zero to one"
    case ZeroToMinusOne => "Zero to minus one"
  }

  /** `init?(_ description:)`. */
  function FromDescription(s: string): (r: Option<Update>)
    ensures r.Some? ==> Description(r.value) == s
    ensures r.None? <==> forall u: Update :: Description(u) != s
  {
    var r := Lookup.FirstWhere(AllUpdates, Description, s);
    assert r.None? ==> forall u: Update :: Description(u) != s by {
      if r.None? {
        forall u: Update ensures Description(u) != s {
          assert AllUpdates[Position(u)] == u;
        }
      }
    }
    r
  }

  /** The position of a case in `allCases`. */
  function Position(u: Update): (k: nat)
    ensures k < |AllUpdates| && AllUpdates[k] == u
  {
    match u
    case Randomize => 0
    case SymmetricRandom => 1
    case Negate => 2
    case Transpose => 3
    case ZeroToOne => 4
    case ZeroToMinusOne => 5
  }

  lemma DescriptionRoundTrip(u: Update)
    ensures FromDescription(Description(u)) == Some(u)
  {
    assert Lookup.DistinctDescriptions(AllUpdates, Description);
    Lookup.FirstWhereRoundTrip(AllUpdates, Description, Position(u));
  }

  /** The step matrix always has one row and one column per colour. */
  predicate IsColorMatrix(m: Matrix<int>)
  {
    Valid(m) && m.rows == TotalColors && m.cols == TotalColors
  }

  predicate Bounded(m: Matrix<int>)
    requires Valid(m)
  {
    forall r: nat, c: nat :: r < m.rows && c < m.cols ==> -AttractionRange <= Get(m, r, c) <= AttractionRange
  }

  ghost predicate DrawsInRange(draw: (nat, nat) -> int)
  {
    forall i: nat, j: nat :: -AttractionRange <= draw(i, j) <= AttractionRange
  }

  /** `.randomize`: every cell gets its own draw. */
  function RandomizeSteps(m: Matrix<int>, draw: (nat, nat) -> int): (m': Matrix<int>)
    requires Valid(m)
    ensures Valid(m') && m'.rows == m.rows && m'.cols == m.cols
    ensures forall r: nat, c: nat :: r < m.rows && c < m.cols ==> Get(m', r, c) == draw(r, c)
  {
    ModifyElements(m, (cell: Cell, _: int) => draw(cell.0, cell.1))
  }

  lemma RandomizeBounded(m: Matrix<int>, draw: (nat, nat) -> int)
    requires Valid(m) && DrawsInRange(draw)
    ensures Bounded(RandomizeSteps(m, draw))
  {
  }

  /** One pass of the inner loop of `.symmetricRandom`: for `j` from the
      given start up to 5, cells `(i, j)` and `(j, i)` both get the draw
      for `(i, j)`. */
  function SymmetricRow(m: Matrix<int>, i: nat, j: nat, draw: (nat, nat) -> int): (m': Matrix<int>)
    requires IsColorMatrix(m) && i < TotalColors && j <= TotalColors
    ensures IsColorMatrix(m')
    ensures forall r: nat, c: nat :: r < TotalColors && c < TotalColors ==>
              Get(m', r, c) ==
                if r == i && j <= c then draw(i, c)
                else if c == i && j <= r then draw(i, r)
                else Get(m, r, c)
    decreases TotalColors - j
  {
    if j == m.cols then m
    else
      var v := draw(i, j);
      SymmetricRow(Set(Set(m, i, j, v), j, i, v), i, j + 1, draw)
  }

  /** The outer loop of `.symmetricRandom` from row `i` on: every cell
      whose row and column are both at least `i` gets the draw for its
      upper-triangle position. */
  function SymmetricRows(m: Matrix<int>, i: nat, draw: (nat, nat) -> int): (m': Matrix<int>)
    requires IsColorMatrix(m) && i <= TotalColors
    ensures IsColorMatrix(m')
    ensures forall r: nat, c: nat :: r < TotalColors && c < TotalColors ==>
              Get(m', r, c) ==
                if i <= r && i <= c then draw(Min(r, c), Max(r, c)) else Get(m, r, c)
    decreases TotalColors - i
  {
    if i == m.rows then m
    else SymmetricRows(SymmetricRow(m, i, i, draw), i + 1, draw)
  }

  function Min(a: nat, b: nat): nat { if a <= b then a else b }
  function Max(a: nat, b: nat): nat { if a <= b then b else a }

  /** `.symmetricRandom`. */
  function SymmetricRandomSteps(m: Matrix<int>, draw: (nat, nat) -> int): (m': Matrix<int>)
    requires IsColorMatrix(m)
    ensures IsColorMatrix(m')
    ensures forall r: nat, c: nat :: r < TotalColors && c < TotalColors ==>
              Get(m', r, c) == draw(Min(r, c), Max(r, c))
  {
    SymmetricRows(m, 0, draw)
  }

  predicate Symmetric(m: Matrix<int>)
    requires IsColorMatrix(m)
  {
    forall r: nat, c: nat :: r < TotalColors && c < TotalColors ==> Get(m, r, c) == Get(m, c, r)
  }

  lemma SymmetricRandomIsSymmetric(m: Matrix<int>, draw: (nat, nat) -> int)
    requires IsColorMatrix(m)
    ensures Symmetric(SymmetricRandomSteps(m, draw))
    ensures DrawsInRange(draw) ==> Bounded(SymmetricRandomSteps(m, draw))
  {
    DrawnSymmetric(SymmetricRandomSteps(m, draw), draw);
  }

  /** A matrix whose every cell holds the draw for its upper-triangle
      position is symmetric, and bounded when the draws are. */
  lemma DrawnSymmetric(s: Matrix<int>, draw: (nat, nat) -> int)
    requires IsColorMatrix(s)
    requires forall r: nat, c: nat :: r < TotalColors && c < TotalColors ==> Get(s, r, c) == draw(Min(r, c), Max(r, c))
    ensures Symmetric(s)
    ensures DrawsInRange(draw) ==> Bounded(s)
  {
  }

  /** `.negate`. */
  function NegateSteps(m: Matrix<int>): (m': Matrix<int>)
    requires Valid(m)
    ensures Valid(m') && m'.rows == m.rows && m'.cols == m.cols
    ensures forall r: nat, c: nat :: r < m.rows && c < m.cols ==> Get(m', r, c) == -Get(m, r, c)
  {
    ModifyElements(m, (_: Cell, v: int) => -v)
  }

  lemma NegateInvolution(m: Matrix<int>)
    requires Valid(m)
    ensures NegateSteps(NegateSteps(m)) == m
  {
    Extensionality(NegateSteps(NegateSteps(m)), m);
  }

  lemma NegateBounded(m: Matrix<int>)
    requires Valid(m)
    ensures Bounded(NegateSteps(m)) <==> Bounded(m)
  {
    var n := NegateSteps(m);
    if Bounded(n) {
      forall r: nat, c: nat | r < m.rows && c < m.cols
        ensures -AttractionRange <= Get(m, r, c) <= AttractionRange
      {
        assert Get(n, r, c) == -Get(m, r, c);
      }
    }
  }

  /** `.zeroToOne` (fill 10) and `.zeroToMinusOne` (fill -10): zero cells
      become the fill, the others keep their value. */
  function ZeroFill(m: Matrix<int>, fill: int): (m': Matrix<int>)
    requires Valid(m)
    ensures Valid(m') && m'.rows == m.rows && m'.cols == m.cols
    ensures forall r: nat, c: nat :: r < m.rows && c < m.cols ==>
              Get(m', r, c) == if Get(m, r, c) == 0 then fill else Get(m, r, c)
  {
    ModifyElements(m, (_: Cell, v: int) => if v == 0 then fill else v)
  }

  /** With a nonzero fill no zero survives, and a second fill changes
      nothing. */
  lemma ZeroFillLeavesNoZero(m: Matrix<int>, fill: int)
    requires Valid(m) && fill != 0
    ensures forall r: nat, c: nat :: r < m.rows && c < m.cols ==> Get(ZeroFill(m, fill), r, c) != 0
    ensures ZeroFill(ZeroFill(m, fill), fill) == ZeroFill(m, fill)
  {
    var once := ZeroFill(m, fill);
    Extensionality(ZeroFill(once, fill), once);
  }

  lemma ZeroFillBounded(m: Matrix<int>, fill: int)
    requires Valid(m) && Bounded(m) && -AttractionRange <= fill <= AttractionRange
    ensures Bounded(ZeroFill(m, fill))
  {
  }

  /** `apply(_:)`. */
  function Apply(u: Update, m: Matrix<int>, draw: (nat, nat) -> int): (m': Matrix<int>)
    requires IsColorMatrix(m)
    ensures IsColorMatrix(m')
    ensures u == Randomize ==> m' == RandomizeSteps(m, draw)
    ensures u == SymmetricRandom ==> m' == SymmetricRandomSteps(m, draw)
    ensures u == Transpose ==> m' == Matrices.Transpose(m)
    ensures u == Negate ==> m' == NegateSteps(m)
    ensures u == ZeroToOne ==> m' == ZeroFill(m, AttractionRange)
    ensures u == ZeroToMinusOne ==> m' == ZeroFill(m, -AttractionRange)
  {
    match u
    case Randomize => RandomizeSteps(m, draw)
    case SymmetricRandom => SymmetricRandomSteps(m, draw)
    case Negate => NegateSteps(m)
    case Transpose => Matrices.Transpose(m)
    case ZeroToOne => ZeroFill(m, AttractionRange)
    case ZeroToMinusOne => ZeroFill(m, -AttractionRange)
  }

  /** Every update keeps the steps within `-10...10` when the draws are. */
  lemma ApplyPreservesBounds(u: Update, m: Matrix<int>, draw: (nat, nat) -> int)
    requires IsColorMatrix(m) && Bounded(m) && DrawsInRange(draw)
    ensures Bounded(Apply(u, m, draw))
  {
    match u
    case Randomize =>
    case SymmetricRandom => SymmetricRandomIsSymmetric(m, draw);
    case Negate => NegateBounded(m);
    case Transpose =>
    case ZeroToOne => ZeroFillBounded(m, AttractionRange);
    case ZeroToMinusOne => ZeroFillBounded(m, -AttractionRange);
  }
}
