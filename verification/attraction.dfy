/** `Attraction`: the 6x6 attraction coefficients as a flat list, the
    coefficient of `target` towards `to` at `target*6 + to`.
 */
module Attractions {
  import opened Colors
  import IndexMath

  /** `Color.allCases.count * Color.allCases.count`. */
  const Size: nat := TotalColors * TotalColors

  datatype Attraction = Attraction(matrix: seq<real>)

  predicate Valid(a: Attraction)
  {
    |a.matrix| == Size
  }

  /** The flat position of the coefficient of `target` towards `to`. */
  function Slot(target: Color, to: Color): (k: nat)
    ensures k < Size
  {
    IntValue(target) * TotalColors + IntValue(to)
  }

  /** The colour pair stored at flat position `k`. */
  function PairAt(k: nat): (Color, Color)
    requires k < Size
  {
    (AllColors[k / TotalColors], AllColors[k % TotalColors])
  }

  /** `Slot` is a bijection from colour pairs onto `0..<36`: `PairAt`
      inverts it on both sides. */
  lemma SlotBijection(target: Color, to: Color, k: nat)
    requires k < Size
    ensures PairAt(Slot(target, to)) == (target, to)
    ensures Slot(PairAt(k).0, PairAt(k).1) == k
  {
    IndexMath.DivModUnique(Slot(target, to), TotalColors, RawValue(target), RawValue(to));
    var q, r := k / TotalColors, k % TotalColors;
    assert k == q * TotalColors + r;
    assert q < TotalColors by {
      IndexMath.MultipleBounds(q - TotalColors + 1, TotalColors);
    }
    assert RawValue(AllColors[q]) == q && RawValue(AllColors[r]) == r;
  }

  lemma SlotInjective(t1: Color, s1: Color, t2: Color, s2: Color)
    ensures Slot(t1, s1) == Slot(t2, s2) <==> t1 == t2 && s1 == s2
  {
    SlotBijection(t1, s1, 0);
    SlotBijection(t2, s2, 0);
  }

  /** `init(matrix:)`, whose `assert` demands exactly 36 entries. */
  function Make(matrix: seq<real>): (a: Attraction)
    requires |matrix| == Size
    ensures Valid(a)
    ensures forall t: Color, s: Color :: Get(a, t, s) == matrix[Slot(t, s)]
  {
    Attraction(matrix)
  }

  /** `init()`: no colour attracts any other. */
  function Default(): (a: Attraction)
    ensures Valid(a)
    ensures forall t: Color, s: Color :: Get(a, t, s) == 0.0
  {
    Attraction(seq(Size, _ => 0.0))
  }

  /** `subscript(for:to:)` getter. */
  function Get(a: Attraction, target: Color, to: Color): real
    requires Valid(a)
  {
    a.matrix[Slot(target, to)]
  }

  /** `subscript(for:to:)` setter: the pair reads back the new value and
      the other 35 coefficients keep theirs. */
  function Set(a: Attraction, target: Color, to: Color, v: real): (a': Attraction)
    requires Valid(a)
    ensures Valid(a')
    ensures Get(a', target, to) == v
    ensures forall t: Color, s: Color :: (t, s) != (target, to) ==> Get(a', t, s) == Get(a, t, s)
  {
    var a' := Attraction(a.matrix[Slot(target, to) := v]);
    forall t: Color, s: Color | (t, s) != (target, to) ensures Get(a', t, s) == Get(a, t, s) {
      SlotInjective(t, s, target, to);
    }
    a'
  }

  /** Writing a coefficient back unchanged gives the same attraction. */
  lemma SetGetIdentity(a: Attraction, target: Color, to: Color)
    requires Valid(a)
    ensures Set(a, target, to, Get(a, target, to)) == a
  {
    assert Set(a, target, to, Get(a, target, to)).matrix == a.matrix;
  }
}
