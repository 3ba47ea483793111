/** `AttractionPreset`: ready-made 6x6 step matrices. `.chain` and `.snake`
    fill only the block of the first `colorCount` colours and leave the
    rest of the matrix at 0.
 */
module AttractionPresets {
  import opened Results
  import opened Colors
  import opened Matrices
  import opened AttractionUpdates
  import AttractionLineUpdates
  import Lookup
  import IndexMath

  datatype Preset = Zero | Identity | Exclusive | Chain | Snake | Area

  /** `allCases`, in declaration order. */
  const AllPresets: seq<Preset> := [Zero, Identity, Exclusive, Chain, Snake, Area]

  /** The raw value, which is also the `description`. */
  function Description(p: Preset): string
  {
    match p
    case Zero => "Zero fill"
    case Identity => "Identity"
    case Exclusive => "Exclusive"
    case Chain => "Chain"
    case Snake => "Snake"
    case Area => "Area"
  }

  /** The position of a case in `allCases`. */
  function Position(p: Preset): (k: nat)
    ensures k < |AllPresets| && AllPresets[k] == p
  {
    match p
    case Zero => 0
    case Identity => 1
    case Exclusive => 2
    case Chain => 3
    case Snake => 4
    case Area => 5
  }

  /** `init?(_ description:)`. */
  function FromDescription(s: string): (r: Option<Preset>)
    ensures r.Some? ==> Description(r.value) == s
    ensures r.None? <==> forall p: Preset :: Description(p) != s
  {
    var r := Lookup.FirstWhere(AllPresets, Description, s);
    assert r.None? ==> forall p: Preset :: Description(p) != s by {
      if r.None? {
        forall p: Preset ensures Description(p) != s {
          assert AllPresets[Position(p)] == p;
        }
      }
    }
    r
  }

  lemma DescriptionRoundTrip(p: Preset)
    ensures FromDescription(Description(p)) == Some(p)
  {
    assert Lookup.DistinctDescriptions(AllPresets, Description);
    Lookup.FirstWhereRoundTrip(AllPresets, Description, Position(p));
  }

  /** `(a + 1) % n` and `(a - 1 + n) % n` for `a < n`, with the
      non-negative operands for which Swift's `%` agrees with Dafny's. */
  function NextIndex(a: nat, n: nat): (r: nat)
    requires a < n
    ensures r < n
    ensures r == if a + 1 == n then 0 else a + 1
  {
    IndexMath.ModSucc(a, n);
    (a + 1) % n
  }

  function PrevIndex(a: nat, n: nat): (r: nat)
    requires a < n
    ensures r < n
    ensures r == if a == 0 then n - 1 else a - 1
  {
    IndexMath.ModPred(a, n);
    (a - 1 + n) % n
  }

  /** The `.chain` entry of cell `(i, j)` in the block of `n` colours, as
      the loop computes it. When `n` is 0 the loop visits no cell. */
  function ChainEntry(n: nat, i: nat, j: nat): int
  {
    if i == j then 10
    else if i < n && (j == PrevIndex(i, n) || j == NextIndex(i, n)) then 2
    else -10
  }

  /** The `.snake` entry of cell `(i, j)` in the block of `n` colours. */
  function SnakeEntry(n: nat, i: nat, j: nat): int
  {
    if i == j then 10
    else if i < n && j == NextIndex(i, n) then 2
    else 0
  }

  /** Colours `i` and `j` are adjacent on the cycle of the first `n`
      colours. */
  predicate CyclicNeighbours(n: nat, i: nat, j: nat)
    requires i < n && j < n
  {
    NextIndex(i, n) == j || NextIndex(j, n) == i
  }

  /** The loop's "previous or next" test is cyclic adjacency, which is
      symmetric. */
  lemma PrevOrNextIsAdjacency(n: nat, i: nat, j: nat)
    requires i < n && j < n
    ensures (j == PrevIndex(i, n) || j == NextIndex(i, n)) <==> CyclicNeighbours(n, i, j)
  {
  }

  /** The presets that fill a colour matrix and then overwrite its
      diagonal. */
  predicate IsDiagonalPreset(p: Preset)
  {
    p == Identity || p == Exclusive || p == Area
  }

  /** The fill and the diagonal value of `.identity`, `.exclusive` and
      `.area`. */
  function Background(p: Preset): int
  {
    if p == Exclusive then -10 else 0
  }

  function DiagonalValue(p: Preset): int
  {
    if p == Area then 1 else 10
  }

  /** A colour matrix filled with the preset's background whose diagonal
      the `for i in 0..<matrix.rows` loop then sets. */
  function DiagonalSteps(p: Preset): (m: Matrix<int>)
    requires IsDiagonalPreset(p)
    ensures IsColorMatrix(m)
    ensures forall r: nat, c: nat :: r < TotalColors && c < TotalColors ==>
              Get(m, r, c) == if r == c then DiagonalValue(p) else Background(p)
  {
    AttractionLineUpdates.Apply(AttractionLineUpdates.Diagonal, ColorMatrix(Background(p)), DiagonalValue(p), TotalColors)
  }

  /** The `.chain` loop over the `colorCount` block of a zero matrix. */
  function ChainSteps(colorCount: nat): (m: Matrix<int>)
    requires colorCount <= TotalColors
    ensures IsColorMatrix(m)
    ensures forall r: nat, c: nat :: r < TotalColors && c < TotalColors ==>
              Get(m, r, c) == if r < colorCount && c < colorCount then ChainEntry(colorCount, r, c) else 0
  {
    IndicesMembership(colorCount, colorCount);
    IndicesListEachCellOnce(colorCount, colorCount);
    Modify(ColorMatrix(0), Indices(colorCount, colorCount), (cell: Cell, _: int) => ChainEntry(colorCount, cell.0, cell.1))
  }

  /** The `.snake` loop over the `colorCount` block of a zero matrix. */
  function SnakeSteps(colorCount: nat): (m: Matrix<int>)
    requires colorCount <= TotalColors
    ensures IsColorMatrix(m)
    ensures forall r: nat, c: nat :: r < TotalColors && c < TotalColors ==>
              Get(m, r, c) == if r < colorCount && c < colorCount then SnakeEntry(colorCount, r, c) else 0
  {
    IndicesMembership(colorCount, colorCount);
    IndicesListEachCellOnce(colorCount, colorCount);
    Modify(ColorMatrix(0), Indices(colorCount, colorCount), (cell: Cell, _: int) => SnakeEntry(colorCount, cell.0, cell.1))
  }

  /** `steps(colorCount:)`. `0..<colorCount` traps on a negative count and
      a count above six indexes past the 6x6 matrix, so `.chain` and
      `.snake` need a count in `0...6`; the other presets ignore it. */
  function Steps(p: Preset, colorCount: int): (m: Matrix<int>)
    requires (p == Chain || p == Snake) ==> 0 <= colorCount <= TotalColors
    ensures IsColorMatrix(m)
  {
    match p
    case Zero => ColorMatrix(0)
    case Identity => DiagonalSteps(p)
    case Exclusive => DiagonalSteps(p)
    case Chain => ChainSteps(colorCount)
    case Snake => SnakeSteps(colorCount)
    case Area => DiagonalSteps(p)
  }

  /** The cell-by-cell content of each preset. */
  lemma StepsContent(p: Preset, colorCount: int, r: nat, c: nat)
    requires (p == Chain || p == Snake) ==> 0 <= colorCount <= TotalColors
    requires r < TotalColors && c < TotalColors
    ensures p == Zero ==> Get(Steps(p, colorCount), r, c) == 0
    ensures p == Identity ==> Get(Steps(p, colorCount), r, c) == if r == c then 10 else 0
    ensures p == Exclusive ==> Get(Steps(p, colorCount), r, c) == if r == c then 10 else -10
    ensures p == Area ==> Get(Steps(p, colorCount), r, c) == if r == c then 1 else 0
    ensures p == Chain ==> (Get(Steps(p, colorCount), r, c) ==
              if r < colorCount && c < colorCount then
                if r == c then 10 else if CyclicNeighbours(colorCount, r, c) then 2 else -10
              else 0)
    ensures p == Snake ==> (Get(Steps(p, colorCount), r, c) ==
              if r < colorCount && c < colorCount then
                if r == c then 10 else if c == NextIndex(r, colorCount) then 2 else 0
              else 0)
  {
    match p
    case Zero =>
    case Chain =>
      assert Steps(p, colorCount) == ChainSteps(colorCount);
      if r < colorCount && c < colorCount {
        PrevOrNextIsAdjacency(colorCount, r, c);
      }
    case Snake =>
      assert Steps(p, colorCount) == SnakeSteps(colorCount);
    case _ =>
      assert Steps(p, colorCount) == DiagonalSteps(p);
  }

  /** `.chain` is symmetric. */
  lemma ChainSymmetric(colorCount: int, r: nat, c: nat)
    requires 0 <= colorCount <= TotalColors && r < TotalColors && c < TotalColors
    ensures Get(Steps(Chain, colorCount), r, c) == Get(Steps(Chain, colorCount), c, r)
  {
    StepsContent(Chain, colorCount, r, c);
    StepsContent(Chain, colorCount, c, r);
  }

  /** Every preset entry is a step within `-10...10`. */
  lemma StepsBounded(p: Preset, colorCount: int)
    requires (p == Chain || p == Snake) ==> 0 <= colorCount <= TotalColors
    ensures Bounded(Steps(p, colorCount))
  {
    var m := Steps(p, colorCount);
    forall r: nat, c: nat | r < TotalColors && c < TotalColors
      ensures -AttractionRange <= Get(m, r, c) <= AttractionRange
    {
      StepsContent(p, colorCount, r, c);
    }
  }
}
