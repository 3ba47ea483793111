/** `Xorshift64`: a xorshift generator whose state is a 32-bit word. Each
    draw widens the state to 64 bits, applies the shift-xor steps 13, 17
    and 5, keeps the low 32 bits as the new state and returns the whole
    64-bit word.
 */
module Xorshift {

  /** The default seed. */
  const DefaultSeed: bv32 := 20240816

  datatype Generator = Generator(state: bv32)

  /** The three shift-xor steps on a 64-bit word. */
  function Scramble(x: bv64): bv64
  {
    var x1 := x ^ (x << 13);
    var x2 := x1 ^ (x1 >> 17);
    x2 ^ (x2 << 5)
  }

  /** `next()`: the returned word and the generator with the truncated
      state. */
  function Next(g: Generator): (r: (Generator, bv64))
    ensures r.0.state == Low32(r.1)
    ensures r.1 < 1 << 50
  {
    var x := Scramble(g.state as bv64);
    ScrambleFitsIn50Bits(g.state as bv64);
    (Generator(Low32(x)), x)
  }

  /** The new state is the low 32 bits of the returned word. */
  lemma NextState(g: Generator)
    ensures Next(g).0.state as bv64 == Next(g).1 & 0xFFFF_FFFF
  {
    LowWord(Next(g).1);
  }

  /** `UInt32(truncatingIfNeeded:)`: the low 32 bits. */
  function Low32(x: bv64): bv32
  {
    (x & 0xFFFF_FFFF) as bv32
  }

  lemma LowWord(x: bv64)
    ensures Low32(x) as bv64 == x & 0xFFFF_FFFF
  {
  }

  /** For a state below 2^32 no shift pushes a bit out of the 64-bit
      word: each left shift can be undone by the matching right shift, and
      the result is below 2^50. */
  lemma ScrambleFitsIn50Bits(x: bv64)
    requires x < 1 << 32
    ensures (x << 13) >> 13 == x
    ensures Scramble(x) < 1 << 50
  {
    var x1 := x ^ (x << 13);
    ShiftLeft13(x);
    var x2 := x1 ^ (x1 >> 17);
    ShiftRight17(x1);
    ShiftLeft5(x2);
  }

  lemma ShiftLeft13(x: bv64)
    requires x < 1 << 32
    ensures x << 13 < 1 << 45 && (x << 13) >> 13 == x
    ensures x ^ (x << 13) < 1 << 45
  {
  }

  lemma ShiftRight17(x: bv64)
    requires x < 1 << 45
    ensures x ^ (x >> 17) < 1 << 45
  {
  }

  lemma ShiftLeft5(x: bv64)
    requires x < 1 << 45
    ensures x << 5 < 1 << 50 && (x << 5) >> 5 == x
    ensures x ^ (x << 5) < 1 << 50
  {
  }

  /** The first draw from the default seed. */
  lemma FirstDrawFromDefaultSeed()
    ensures Next(Generator(DefaultSeed)) == (Generator(3626173073), 5453939671697)
  {
  }

  /** The first `n` draws from a generator. */
  function Draws(g: Generator, n: nat): (r: seq<bv64>)
    ensures |r| == n
    ensures n > 0 ==> r[0] == Next(g).1
    decreases n
  {
    if n == 0 then [] else [Next(g).1] + Draws(Next(g).0, n - 1)
  }

  /** Each draw's low 32 bits seed the next draw. */
  lemma {:induction false} DrawsChain(g: Generator, n: nat, k: nat)
    requires k + 1 < n
    decreases k
    ensures Draws(g, n)[k + 1] == Next(Generator(Low32(Draws(g, n)[k]))).1
  {
    if k > 0 {
      var g' := Next(g).0;
      DrawsChain(g', n - 1, k - 1);
      DrawsTail(g, n, k);
      DrawsTail(g, n, k - 1);
    } else {
      DrawsSecond(g, n);
    }
  }

  /** After the first draw, the rest are the draws of the next generator. */
  lemma DrawsTail(g: Generator, n: nat, j: nat)
    requires j + 1 < n
    ensures Draws(g, n)[j + 1] == Draws(Next(g).0, n - 1)[j]
  {
    var d := Draws(g, n);
    var rest := Draws(Next(g).0, n - 1);
    assert d == [Next(g).1] + rest;
    assert d[1..] == rest;
  }

  /** The second draw is seeded by the low 32 bits of the first. */
  lemma DrawsSecond(g: Generator, n: nat)
    requires 1 < n
    ensures Draws(g, n)[1] == Next(Generator(Low32(Draws(g, n)[0]))).1
  {
    NextGenerator(g);
    DrawsTail(g, n, 0);
  }

  /** Every draw is below 2^50. */
  lemma {:induction false} DrawsBelow(g: Generator, n: nat, k: nat)
    requires k < n
    decreases k
    ensures Draws(g, n)[k] < 1 << 50
  {
    if k > 0 {
      DrawsBelow(Next(g).0, n - 1, k - 1);
      DrawsTail(g, n, k - 1);
    }
  }

  /** The generator after a draw holds the draw's low 32 bits. */
  lemma NextGenerator(g: Generator)
    ensures Next(g).0 == Generator(Low32(Next(g).1))
  {
  }
}
