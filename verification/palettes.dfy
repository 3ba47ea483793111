/** `ColorPalette`, declared identically (as a file-private struct) beside
    both generator families: a replacement table that maps an index, taken
    modulo the table's length, to a colour. The table is either the
    identity on `0..<count` or a shuffle of it.
 */
module Palettes {
  import opened Colors
  import IndexMath

  /** `s` lists each of `0..<n` exactly once. */
  predicate IsPermutation(s: seq<nat>, n: nat)
  {
    && |s| == n
    && (forall k :: 0 <= k < n ==> s[k] < n)
    && (forall j, k :: 0 <= j < k < n ==> s[j] != s[k])
  }

  datatype Palette = Palette(replacement: seq<nat>)

  function Count(p: Palette): nat
  {
    |p.replacement|
  }

  /** A table `get` can use: non-empty, no longer than the colour list, and
      a permutation of its own index range. */
  predicate Valid(p: Palette)
  {
    1 <= Count(p) <= TotalColors && IsPermutation(p.replacement, Count(p))
  }

  /** `init(identity:)` (`init(noReplacement:)` in the older generators):
      the table `[0, 1, ..., count - 1]`. */
  function Identity(count: nat): (p: Palette)
    requires 1 <= count <= TotalColors
    ensures Valid(p) && Count(p) == count
    ensures forall k :: 0 <= k < count ==> p.replacement[k] == k
  {
    Palette(seq(count, k requires 0 <= k < count => k as nat))
  }

  /** `init(random:)`: the table is `(0..<count).shuffled()`, passed in as
      `shuffled`; a shuffle is a permutation, which is all the model
      assumes of it. */
  function Random(count: nat, shuffled: seq<nat>): (p: Palette)
    requires 1 <= count <= TotalColors && IsPermutation(shuffled, count)
    ensures Valid(p) && Count(p) == count
    ensures forall k :: 0 <= k < count ==> p.replacement[k] == shuffled[k]
  {
    Palette(shuffled)
  }

  /** `colorPalette()`, the same in both generator families: the
      identity table for a fixed generator, the shuffled one otherwise. */
  function Choose(fixed: bool, count: nat, shuffled: seq<nat>): (p: Palette)
    requires 1 <= count <= TotalColors
    requires !fixed ==> IsPermutation(shuffled, count)
    ensures Valid(p) && Count(p) == count
    ensures fixed ==> p == Identity(count)
    ensures !fixed ==> p.replacement == shuffled
  {
    if fixed then Identity(count) else Random(count, shuffled)
  }

  /** `get(_:)`: the colour whose `intValue` is the table entry at
      `i % count`. Every entry is below the count, and the count is at most
      six, so `Color(intValue:)` always succeeds. */
  function Get(p: Palette, i: nat): (c: Color)
    requires Valid(p)
    ensures IntValue(c) == p.replacement[i % Count(p)]
    ensures IntValue(c) < Count(p)
  {
    FromIntValue(p.replacement[i % Count(p)]).value
  }

  /** With the identity table, particle `i` gets colour `i % count`. */
  lemma IdentityGet(count: nat, i: nat)
    requires 1 <= count <= TotalColors
    ensures IntValue(Get(Identity(count), i)) == i % count
  {
  }

  /** `get` only looks at the residue of its index. */
  lemma GetResidue(p: Palette, i: nat)
    requires Valid(p)
    ensures Get(p, i) == Get(p, i % Count(p))
    ensures Get(p, i + Count(p)) == Get(p, i)
  {
    var n := Count(p);
    IndexMath.DivModUnique(i % n, n, 0, i % n);
    IndexMath.ModAddPeriod(i, n);
    IntValueInjective(Get(p, i), Get(p, i % n));
    IntValueInjective(Get(p, i + n), Get(p, i));
  }

  /** Any table, identity or shuffled, gives `count` distinct colours to
      `count` consecutive indices. */
  lemma GetInjective(p: Palette, i: nat, j: nat)
    requires Valid(p) && i < Count(p) && j < Count(p)
    ensures Get(p, i) == Get(p, j) <==> i == j
  {
    var n := Count(p);
    IndexMath.DivModUnique(i, n, 0, i);
    IndexMath.DivModUnique(j, n, 0, j);
    if i < j {
      assert p.replacement[i] != p.replacement[j];
    } else if j < i {
      assert p.replacement[j] != p.replacement[i];
    }
  }

  lemma IntValueInjective(c: Color, d: Color)
    ensures IntValue(c) == IntValue(d) ==> c == d
  {
    RawValueInjective(c, d);
  }
}
