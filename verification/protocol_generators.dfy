/** The particle generators behind `ParticleGeneratorProtocol`: which
    generator each menu entry builds, the colour each particle receives,
    the grid and band geometry, and `generate(particles:)`, which sets the
    count on the store before the body writes every slot once.

    The random sources (`Float.random`, `randomElement`, `shuffled`) are
    parameters: one `Draws` value per particle and the shuffled palette
    table. Positions that come from `Float.random`, `cos` and `sin` are
    taken as drawn.
 */
module ProtocolGenerators {
  import opened Results
  import opened Colors
  import opened Types
  import Lookup
  import IndexMath
  import Palettes
  import GridLayout
  import Particles

  /** `ParticleGeneratorType`, in declaration order. */
  datatype GeneratorType = Uniform | Circle | UnitCircle | Partition | RainbowRing | Grid | Imbalance

  /** `allCases`. */
  const AllTypes: seq<GeneratorType> := [Uniform, Circle, UnitCircle, Partition, RainbowRing, Grid, Imbalance]

  /** The raw value, which is also the `description`. */
  function Label(t: GeneratorType): string
  {
    match t
    case Uniform => "Uniform"
    case Circle => "Circle"
    case UnitCircle => "Unit circle"
    case Partition => "Partition"
    case RainbowRing => "Rainbow ring"
    case Grid => "Grid"
    case Imbalance => "Imbalance"
  }

  /** The position of a case in `allCases`. */
  function IndexOf(t: GeneratorType): (k: nat)
    ensures k < |AllTypes| && AllTypes[k] == t
  {
    match t
    case Uniform => 0
    case Circle => 1
    case UnitCircle => 2
    case Partition => 3
    case RainbowRing => 4
    case Grid => 5
    case Imbalance => 6
  }

  /** `init?(_ description:)`. */
  function FromLabel(s: string): (r: Option<GeneratorType>)
    ensures r.Some? ==> Label(r.value) == s
    ensures r.None? <==> forall t :: Label(t) != s
  {
    var r := Lookup.FirstWhere(AllTypes, Label, s);
    assert r.None? ==> forall t :: Label(t) != s by {
      if r.None? {
        forall t ensures Label(t) != s {
          assert AllTypes[IndexOf(t)] == t;
        }
      }
    }
    r
  }

  /** The labels are distinct, so every case is found by its own label. */
  lemma LabelRoundTrip(t: GeneratorType)
    ensures FromLabel(Label(t)) == Some(t)
  {
    assert Lookup.DistinctDescriptions(AllTypes, Label);
    Lookup.FirstWhereRoundTrip(AllTypes, Label, IndexOf(t));
  }

  /** The generator structs. A circle generator has an optional fixed
      radius; without one it draws a radius. */
  datatype Shape =
    | UniformShape
    | CircleShape(radius: Option<real>)
    | PartitionShape
    | RainbowRingShape
    | GridShape
    | ImbalanceShape

  datatype Generator = Generator(shape: Shape, colorCountToUse: int, particleCount: int, fixed: bool)

  /** `generator(colorCountToUse:particleCount:fixed:)`: the parameters are
      passed through unchanged; "Unit circle" is the circle generator with
      radius 1. */
  function MakeGenerator(t: GeneratorType, colorCountToUse: int, particleCount: int, fixed: bool): (g: Generator)
    ensures g.colorCountToUse == colorCountToUse && g.particleCount == particleCount && g.fixed == fixed
    ensures g.shape.CircleShape? <==> t == Circle || t == UnitCircle
    ensures g.shape == CircleShape(Some(1.0)) <==> t == UnitCircle
  {
    var shape := match t
      case Uniform => UniformShape
      case Circle => CircleShape(None)
      case UnitCircle => CircleShape(Some(1.0))
      case Partition => PartitionShape
      case RainbowRing => RainbowRingShape
      case Grid => GridShape
      case Imbalance => ImbalanceShape;
    Generator(shape, colorCountToUse, particleCount, fixed)
  }

  /** Different menu entries build different generators. */
  lemma MakeGeneratorInjective(t: GeneratorType, u: GeneratorType, n: int, count: int, fixed: bool)
    ensures MakeGenerator(t, n, count, fixed) == MakeGenerator(u, n, count, fixed) <==> t == u
  {
  }

  /** The colour count a body may rely on: the one `setCount` accepts. */
  predicate ColorCountOk(g: Generator)
  {
    1 <= g.colorCountToUse <= TotalColors
  }

  /** The shuffle handed to a random palette is a permutation. */
  predicate ShuffleOk(g: Generator, shuffled: seq<nat>)
  {
    ColorCountOk(g) && !g.fixed ==> Palettes.IsPermutation(shuffled, g.colorCountToUse)
  }

  /** `colorPalette()`. */
  function PaletteOf(g: Generator, shuffled: seq<nat>): Palettes.Palette
    requires ColorCountOk(g) && ShuffleOk(g, shuffled)
  {
    Palettes.Choose(g.fixed, g.colorCountToUse, shuffled)
  }

  /** What one iteration of a body draws: a position (or the point the
      position is computed from) and, for the imbalance generator, the
      `cc` taken from `1...ps`. */
  datatype Draws = Draws(position: Vec2, cc: nat)

  /** `ps = (1 << colorCountToUse) - 1`; `cc` lies in `1...ps`. */
  predicate DrawOk(g: Generator, d: Draws)
    requires ColorCountOk(g)
  {
    g.shape.ImbalanceShape? ==> 1 <= d.cc < IndexMath.Pow2(g.colorCountToUse)
  }

  /** The particle one iteration of `generateBody` writes at index `i`. */
  function Body(g: Generator, palette: Palettes.Palette, i: nat, d: Draws): (p: Particle)
    requires ColorCountOk(g) && Palettes.Valid(palette) && Palettes.Count(palette) == g.colorCountToUse
    requires i < g.particleCount && DrawOk(g, d)
    ensures p.color < g.colorCountToUse
    ensures p.velocity == Zero && p.attractorCount == 0
    ensures (g.shape.UniformShape? || g.shape.CircleShape?) ==> p.color == i % g.colorCountToUse
    ensures (g.shape.PartitionShape? || g.shape.RainbowRingShape? || g.shape.GridShape?) ==>
              p.color == IntValue(Palettes.Get(palette, i))
    ensures g.shape.ImbalanceShape? ==>
              p.color == IntValue(Palettes.Get(palette, IndexMath.Log2Floor(d.cc)))
    ensures g.shape.GridShape? ==> p.position == GridLayout.Position(i, g.particleCount, 2.0, -1.0)
    ensures g.shape.PartitionShape? ==> p.position == Vec2(d.position.x - 1.0, d.position.y)
  {
    var n := g.colorCountToUse;
    match g.shape
    case UniformShape => MakeParticle(FromIntValue(i % n).value, d.position)
    case CircleShape(_) => MakeParticle(FromIntValue(i % n).value, d.position)
    case PartitionShape => MakeParticle(Palettes.Get(palette, i), Sub(d.position, Vec2(1.0, 0.0)))
    case RainbowRingShape => MakeParticle(Palettes.Get(palette, i), d.position)
    case ImbalanceShape =>
      IndexMath.Log2FloorBelow(d.cc, n);
      MakeParticle(Palettes.Get(palette, IndexMath.Log2Floor(d.cc)), d.position)
    case GridShape =>
      MakeParticle(Palettes.Get(palette, i), GridLayout.Position(i, g.particleCount, 2.0, -1.0))
  }

  /** A fixed generator's palette is the identity, so the palette-driven
      generators colour particle `i` with `i % colorCountToUse`, like the
      uniform one. */
  lemma FixedPaletteColor(g: Generator, shuffled: seq<nat>, i: nat, d: Draws)
    requires ColorCountOk(g) && ShuffleOk(g, shuffled) && g.fixed
    requires i < g.particleCount && DrawOk(g, d) && !g.shape.ImbalanceShape?
    ensures Body(g, PaletteOf(g, shuffled), i, d).color == i % g.colorCountToUse
  {
    Palettes.IdentityGet(g.colorCountToUse, i);
  }

  /** In the partition generator the band of particle `i` is `i % n`, the
      residue the palette also reads, so two particles share a colour
      exactly when they share a band. */
  lemma PartitionColorMatchesBand(g: Generator, palette: Palettes.Palette, i: nat, j: nat, di: Draws, dj: Draws)
    requires ColorCountOk(g) && Palettes.Valid(palette) && Palettes.Count(palette) == g.colorCountToUse
    requires g.shape.PartitionShape? && i < g.particleCount && j < g.particleCount
    ensures Body(g, palette, i, di).color == Body(g, palette, j, dj).color
            <==> i % g.colorCountToUse == j % g.colorCountToUse
  {
    var n := g.colorCountToUse;
    Palettes.GetResidue(palette, i);
    Palettes.GetResidue(palette, j);
    Palettes.GetInjective(palette, i % n, j % n);
    Palettes.IntValueInjective(Palettes.Get(palette, i), Palettes.Get(palette, j));
  }

  /** A partition particle drawn inside its band `volume*c ..< volume*(c+1)`
      (with `volume = 2/n`, `c = i % n`) and `0 ..< 2` has `x` in `[-1, 1)`
      after the shift. The vector subtracted is `(1, 0)`, so `y` keeps its
      drawn range `[0, 2)`. */
  lemma PartitionInSquare(g: Generator, palette: Palettes.Palette, i: nat, d: Draws)
    requires ColorCountOk(g) && Palettes.Valid(palette) && Palettes.Count(palette) == g.colorCountToUse
    requires g.shape.PartitionShape? && i < g.particleCount
    requires var band := GridLayout.Band(i % g.colorCountToUse, g.colorCountToUse, 2.0);
      band.0 <= d.position.x < band.1 && 0.0 <= d.position.y < 2.0
    ensures var v := Body(g, palette, i, d).position;
      -1.0 <= v.x < 1.0 && 0.0 <= v.y < 2.0
  {
  }

  /** Grid particles sit strictly inside `[-1, 1)` and no two share a
      position. */
  lemma GridPositions(g: Generator, palette: Palettes.Palette, i: nat, j: nat, d: Draws, e: Draws)
    requires ColorCountOk(g) && Palettes.Valid(palette) && Palettes.Count(palette) == g.colorCountToUse
    requires g.shape.GridShape? && i < g.particleCount && j < g.particleCount
    ensures var v := Body(g, palette, i, d).position;
      -1.0 < v.x < 1.0 && -1.0 < v.y < 1.0
    ensures Body(g, palette, i, d).position == Body(g, palette, j, e).position <==> i == j
  {
    GridLayout.PositionInjective(i, j, g.particleCount, 2.0, -1.0);
  }

  /** Every colour below `colorCountToUse` can come out of the imbalance
      generator: drawing `cc = 1 << k` picks palette entry `k`. */
  lemma ImbalanceReachesEveryEntry(g: Generator, palette: Palettes.Palette, i: nat, k: nat, position: Vec2)
    requires ColorCountOk(g) && Palettes.Valid(palette) && Palettes.Count(palette) == g.colorCountToUse
    requires g.shape.ImbalanceShape? && i < g.particleCount && k < g.colorCountToUse
    ensures DrawOk(g, Draws(position, IndexMath.Pow2(k)))
    ensures Body(g, palette, i, Draws(position, IndexMath.Pow2(k))).color == IntValue(Palettes.Get(palette, k))
  {
    IndexMath.Pow2Monotone(k, g.colorCountToUse);
    IndexMath.Log2FloorOfPower(k);
  }

  /** Every particle of the body has its draw in range. */
  predicate DrawsOk(g: Generator, draws: seq<Draws>)
    requires ColorCountOk(g)
  {
    forall k :: 0 <= k < |draws| ==> DrawOk(g, draws[k])
  }

  /** `generate(particles:)`: `setCount` runs first, with the generator's
      particle count and colour count; when it throws, nothing is written.
      Otherwise the body writes every slot `0 ..< particleCount` exactly
      once, in order (`written` lists the slots as they are written), and
      leaves the slots beyond the count as they were. */
  method Generate(s: Particles.Store, g: Generator, shuffled: seq<nat>, draws: seq<Draws>)
    returns (r: Result<Particles.Store, string>, written: seq<nat>)
    requires Particles.Valid(s)
    requires ShuffleOk(g, shuffled)
    requires g.particleCount <= |draws| && (ColorCountOk(g) ==> DrawsOk(g, draws))
    ensures r.Err? <==> Particles.SetCount(s, g.particleCount, g.colorCountToUse).Err?
    ensures r.Err? ==> r.error == Particles.SetCount(s, g.particleCount, g.colorCountToUse).error && written == []
    ensures r.Ok? ==>
              && ColorCountOk(g) && 0 <= g.particleCount
              && Particles.Valid(r.value)
              && r.value.count == g.particleCount && r.value.colorCount == g.colorCountToUse
              && |written| == g.particleCount
              && (forall k :: 0 <= k < |written| ==> written[k] == k)
              && (forall k :: 0 <= k < g.particleCount ==>
                    r.value.buffer[k] == Body(g, PaletteOf(g, shuffled), k, draws[k]))
              && r.value.buffer[g.particleCount..] == s.buffer[g.particleCount..]
  {
    written := [];
    var counted := Particles.SetCount(s, g.particleCount, g.colorCountToUse);
    if counted.Err? {
      return Err(counted.error), written;
    }
    var store := counted.value;
    var palette := PaletteOf(g, shuffled);
    var buffer := store.buffer;
    var i := 0;
    while i < g.particleCount
      invariant 0 <= i <= g.particleCount
      invariant |buffer| == |s.buffer|
      invariant |written| == i && forall k :: 0 <= k < i ==> written[k] == k
      invariant forall k :: 0 <= k < i ==> buffer[k] == Body(g, palette, k, draws[k])
      invariant buffer[i..] == s.buffer[i..]
    {
      buffer := buffer[i := Body(g, palette, i, draws[i])];
      written := written + [i];
      i := i + 1;
    }
    r := Ok(store.(buffer := buffer));
  }
}
