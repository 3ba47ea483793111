/** The older `ParticleGenerator` family: six generator types found by a
    lowercase label, each writing straight into a buffer over the unit
    square `[0, 1)` instead of `[-1, 1)`. It redeclares the names the
    newer family uses, so it is a module of its own.

    The random sources are parameters, as in the newer family.
 */
module LegacyGenerators {
  import opened Results
  import opened Colors
  import opened Types
  import Lookup
  import IndexMath
  import Palettes
  import GridLayout

  /** The generator types of `ParticleGenerators.allTypes`. */
  datatype GeneratorType = Uniform | Circle | Partition | RainbowRing | Grid | Imbalance

  /** `allTypes`, in its own order. */
  const AllTypes: seq<GeneratorType> := [Uniform, Circle, Partition, RainbowRing, Grid, Imbalance]

  /** The static `label` of each type. */
  function Label(t: GeneratorType): string
  {
    match t
    case Uniform => "uniform"
    case Partition => "partition"
    case Circle => "circle"
    case RainbowRing => "rainbow ring"
    case Imbalance => "imbalance"
    case Grid => "grid"
  }

  function IndexOf(t: GeneratorType): (k: nat)
    ensures k < |AllTypes| && AllTypes[k] == t
  {
    match t
    case Uniform => 0
    case Circle => 1
    case Partition => 2
    case RainbowRing => 3
    case Grid => 4
    case Imbalance => 5
  }

  /** `get(for:)`: the first type in `allTypes` whose label matches, or
      nothing. */
  function Get(name: string): (r: Option<GeneratorType>)
    ensures r.Some? ==> Label(r.value) == name
    ensures r.Some? ==> forall k :: 0 <= k < IndexOf(r.value) ==> Label(AllTypes[k]) != name
    ensures r.None? <==> forall t :: Label(t) != name
  {
    var r := Lookup.FirstWhere(AllTypes, Label, name);
    assert r.None? ==> forall t :: Label(t) != name by {
      if r.None? {
        forall t ensures Label(t) != name {
          assert AllTypes[IndexOf(t)] == t;
        }
      }
    }
    assert r.Some? ==> IndexOf(r.value) == Lookup.FirstIndex(AllTypes, Label, name);
    r
  }

  /** The six labels are distinct, so each type is found by its own
      label. */
  lemma LabelRoundTrip(t: GeneratorType)
    ensures Get(Label(t)) == Some(t)
  {
    assert Lookup.DistinctDescriptions(AllTypes, Label);
    Lookup.FirstWhereRoundTrip(AllTypes, Label, IndexOf(t));
  }

  datatype Generator = Generator(kind: GeneratorType, colorCountToUse: int, particleCount: int, fixed: bool)

  /** The colour counts for which every kind colours every particle: the
      palette kinds build `0..<colorCountToUse`, which traps below zero, and
      `i % colorCountToUse` traps at zero. Uniform and circle never build a
      palette, and Swift's truncating `%` keeps `i % n` in `0..<|n|`, so they
      also run with a negative count down to `-6`. Nothing in this family
      checks the count. */
  predicate ColorCountOk(g: Generator)
  {
    1 <= g.colorCountToUse <= TotalColors
  }

  predicate ShuffleOk(g: Generator, shuffled: seq<nat>)
  {
    ColorCountOk(g) && !g.fixed ==> Palettes.IsPermutation(shuffled, g.colorCountToUse)
  }

  /** `colorPalette()`. */
  function PaletteOf(g: Generator, shuffled: seq<nat>): Palettes.Palette
    requires ColorCountOk(g) && ShuffleOk(g, shuffled)
  {
    Palettes.Choose(g.fixed, g.colorCountToUse, shuffled)
  }

  /** One iteration's draws: a position (or the point it is computed from)
      and the imbalance generator's `cc`. */
  datatype Draws = Draws(position: Vec2, cc: nat)

  predicate DrawOk(g: Generator, d: Draws)
    requires ColorCountOk(g)
  {
    g.kind == Imbalance ==> 1 <= d.cc < IndexMath.Pow2(g.colorCountToUse)
  }

  /** The particle one iteration of `generate(buffer:)` writes at index
      `i`. */
  function Body(g: Generator, palette: Palettes.Palette, i: nat, d: Draws): (p: Particle)
    requires ColorCountOk(g) && Palettes.Valid(palette) && Palettes.Count(palette) == g.colorCountToUse
    requires i < g.particleCount && DrawOk(g, d)
    ensures p.color < g.colorCountToUse
    ensures (g.kind == Uniform || g.kind == Circle) ==> p.color == i % g.colorCountToUse
    ensures (g.kind == Partition || g.kind == RainbowRing || g.kind == Grid) ==>
              p.color == IntValue(Palettes.Get(palette, i))
    ensures g.kind == Imbalance ==>
              p.color == IntValue(Palettes.Get(palette, IndexMath.Log2Floor(d.cc)))
    ensures g.kind == Grid ==> p.position == GridLayout.Position(i, g.particleCount, 1.0, 0.0)
  {
    var n := g.colorCountToUse;
    match g.kind
    case Uniform => MakeParticle(FromIntValue(i % n).value, d.position)
    case Circle => MakeParticle(FromIntValue(i % n).value, Vec2(d.position.x + 0.5, d.position.y + 0.5))
    case Partition => MakeParticle(Palettes.Get(palette, i), d.position)
    case RainbowRing =>
      MakeParticle(Palettes.Get(palette, i), Vec2((d.position.x + 1.0) / 2.0, (d.position.y + 1.0) / 2.0))
    case Imbalance =>
      IndexMath.Log2FloorBelow(d.cc, n);
      MakeParticle(Palettes.Get(palette, IndexMath.Log2Floor(d.cc)), d.position)
    case Grid =>
      MakeParticle(Palettes.Get(palette, i), GridLayout.Position(i, g.particleCount, 1.0, 0.0))
  }

  /** A circle point drawn inside the disc of radius `r < 0.4` about the
      origin lands inside the unit square after the shift by `(0.5, 0.5)`;
      a ring point inside the unit disc lands there after `(p + 1) / 2`. */
  lemma ShiftedIntoUnitSquare(g: Generator, palette: Palettes.Palette, i: nat, d: Draws)
    requires ColorCountOk(g) && Palettes.Valid(palette) && Palettes.Count(palette) == g.colorCountToUse
    requires (g.kind == Circle || g.kind == RainbowRing) && i < g.particleCount
    requires g.kind == Circle ==> -0.5 <= d.position.x < 0.5 && -0.5 <= d.position.y < 0.5
    requires g.kind == RainbowRing ==> -1.0 <= d.position.x < 1.0 && -1.0 <= d.position.y < 1.0
    ensures var v := Body(g, palette, i, d).position;
      0.0 <= v.x < 1.0 && 0.0 <= v.y < 1.0
  {
  }

  /** Grid particles sit strictly inside the unit square and no two share
      a position. */
  lemma GridPositions(g: Generator, palette: Palettes.Palette, i: nat, j: nat, d: Draws, e: Draws)
    requires ColorCountOk(g) && Palettes.Valid(palette) && Palettes.Count(palette) == g.colorCountToUse
    requires g.kind == Grid && i < g.particleCount && j < g.particleCount
    ensures var v := Body(g, palette, i, d).position;
      0.0 < v.x < 1.0 && 0.0 < v.y < 1.0
    ensures Body(g, palette, i, d).position == Body(g, palette, j, e).position <==> i == j
  {
    GridLayout.PositionInjective(i, j, g.particleCount, 1.0, 0.0);
  }

  /** With a `noReplacement` palette the palette-driven types colour
      particle `i` with `i % colorCountToUse`. */
  lemma FixedPaletteColor(g: Generator, shuffled: seq<nat>, i: nat, d: Draws)
    requires ColorCountOk(g) && ShuffleOk(g, shuffled) && g.fixed
    requires i < g.particleCount && DrawOk(g, d) && g.kind != Imbalance
    ensures Body(g, PaletteOf(g, shuffled), i, d).color == i % g.colorCountToUse
  {
    Palettes.IdentityGet(g.colorCountToUse, i);
  }

  /** `generate(buffer:)`: writes slots `0 ..< particleCount` once each, in
      order, and no slot beyond them. The buffer must hold that many
      particles. */
  method Generate(buffer: seq<Particle>, g: Generator, shuffled: seq<nat>, draws: seq<Draws>)
    returns (result: seq<Particle>, written: seq<nat>)
    requires ColorCountOk(g) && ShuffleOk(g, shuffled)
    requires 0 <= g.particleCount <= |buffer| && g.particleCount <= |draws|
    requires forall k :: 0 <= k < |draws| ==> DrawOk(g, draws[k])
    ensures |result| == |buffer|
    ensures |written| == g.particleCount && forall k :: 0 <= k < |written| ==> written[k] == k
    ensures forall k :: 0 <= k < g.particleCount ==> result[k] == Body(g, PaletteOf(g, shuffled), k, draws[k])
    ensures result[g.particleCount..] == buffer[g.particleCount..]
  {
    var palette := PaletteOf(g, shuffled);
    result := buffer;
    written := [];
    var i := 0;
    while i < g.particleCount
      invariant 0 <= i <= g.particleCount
      invariant |result| == |buffer|
      invariant |written| == i && forall k :: 0 <= k < i ==> written[k] == k
      invariant forall k :: 0 <= k < i ==> result[k] == Body(g, palette, k, draws[k])
      invariant result[i..] == buffer[i..]
    {
      result := result[i := Body(g, palette, i, draws[i])];
      written := written + [i];
      i := i + 1;
    }
  }
}
