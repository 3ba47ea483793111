/** Integer facts behind the index arithmetic of the generators and the
    ring buffer: Euclidean division by a positive divisor, `floor(log2)`
    and the ceiling square root.
 */
module IndexMath {

  /** A multiple of `n` strictly between `-n` and `n` is zero. */
  lemma SmallMultiple(d: int, n: int)
    requires n > 0 && -n < d * n < n
    ensures d == 0
  {
    MultipleBounds(d, n);
  }

  lemma MultipleBounds(d: int, n: int)
    requires n >= 0
    ensures d >= 1 ==> d * n >= n
    ensures d <= -1 ==> d * n <= -n
  {
  }

  /** Division with remainder by a positive divisor is unique: whenever
      `a == q*n + r` with `0 <= r < n`, the quotient is `q` and the
      remainder `r`. */
  lemma DivModUnique(a: int, n: nat, q: int, r: int)
    requires n > 0 && 0 <= r < n && a == q * n + r
    ensures a / n == q && a % n == r
  {
    var q' := a / n;
    var r' := a % n;
    assert a == q' * n + r';
    assert (q - q') * n == r' - r;
    SmallMultiple(q - q', n);
  }

  /** Adding a whole period does not change the remainder. */
  lemma ModAddPeriod(a: nat, n: nat)
    requires n > 0
    ensures (a + n) % n == a % n
  {
    DivModUnique(a + n, n, a / n + 1, a % n);
  }

  /** One step round a ring of `n` slots, as `(h + 1) % n`. */
  lemma ModSucc(h: nat, n: nat)
    requires h < n
    ensures (h + 1) % n == if h + 1 == n then 0 else h + 1
  {
    if h + 1 == n {
      DivModUnique(h + 1, n, 1, 0);
    } else {
      DivModUnique(h + 1, n, 0, h + 1);
    }
  }

  /** One step back round a ring of `n` slots, as `(h - 1 + n) % n`. */
  lemma ModPred(h: nat, n: nat)
    requires h < n
    ensures (h - 1 + n) % n == if h == 0 then n - 1 else h - 1
  {
    if h == 0 {
      DivModUnique(n - 1, n, 0, n - 1);
    } else {
      DivModUnique(h - 1 + n, n, 1, h - 1);
    }
  }

  /** `1 << n`. */
  function Pow2(n: nat): (r: nat)
    ensures r >= 1
  {
    if n == 0 then 1 else 2 * Pow2(n - 1)
  }

  /** A larger exponent gives a larger power, at least twice as large when
      the exponent is strictly larger. */
  lemma {:induction false} Pow2Monotone(m: nat, n: nat)
    ensures m <= n ==> Pow2(m) <= Pow2(n)
    ensures m < n ==> 2 * Pow2(m) <= Pow2(n)
    decreases n
  {
    if m < n {
      Pow2Monotone(m, n - 1);
    }
  }

  /** `Int(log2(Float(cc)))` for a positive `cc`: the exponent of the
      largest power of two not above `cc`. */
  function Log2Floor(cc: nat): (k: nat)
    requires cc >= 1
    ensures Pow2(k) <= cc < Pow2(k + 1)
    decreases cc
  {
    if cc == 1 then 0
    else
      var k := Log2Floor(cc / 2);
      assert Pow2(k + 1) == 2 * Pow2(k) && Pow2(k + 2) == 2 * Pow2(k + 1);
      k + 1
  }

  /** A number drawn from `1...(1 << n) - 1` has its `floor(log2)` below
      `n`. */
  lemma Log2FloorBelow(cc: nat, n: nat)
    requires 1 <= cc < Pow2(n)
    ensures Log2Floor(cc) < n
  {
    Pow2Monotone(n, Log2Floor(cc));
  }

  /** Every exponent below `n` is reached: `Pow2(k)` itself is a draw in
      range whose `floor(log2)` is `k`. */
  lemma Log2FloorOfPower(k: nat)
    ensures Log2Floor(Pow2(k)) == k
  {
    var j := Log2Floor(Pow2(k));
    Pow2Monotone(j, k);
    Pow2Monotone(k, j);
  }

  lemma MulMonotone(a: nat, b: nat, c: nat)
    requires a <= b
    ensures a * c <= b * c
  {
  }

  /** The least `r >= from` whose square is at least `n`. */
  function CeilSqrtFrom(n: nat, from: nat): (r: nat)
    requires from == 0 || (from - 1) * (from - 1) < n
    ensures from <= r && n <= r * r
    ensures r == 0 || (r - 1) * (r - 1) < n
    decreases n - from
  {
    if n <= from * from then from
    else
      assert from < n by {
        if from > 0 {
          MulMonotone(1, from, from);
        }
      }
      CeilSqrtFrom(n, from + 1)
  }

  /** `Int(ceil(sqrt(Float(n))))`: the least `r` with `n <= r*r`. */
  function CeilSqrt(n: nat): (r: nat)
    ensures n <= r * r
    ensures r == 0 || (r - 1) * (r - 1) < n
  {
    CeilSqrtFrom(n, 0)
  }

  /** The ceiling square root is unique. */
  lemma CeilSqrtUnique(n: nat, r: nat)
    requires n <= r * r && (r == 0 || (r - 1) * (r - 1) < n)
    ensures CeilSqrt(n) == r
  {
    var s := CeilSqrt(n);
    if s < r {
      MulMonotone(s, r - 1, s);
      MulMonotone(s, r - 1, r - 1);
    } else if r < s {
      MulMonotone(r, s - 1, r);
      MulMonotone(r, s - 1, s - 1);
    }
  }

  /** `i.quotientAndRemainder(dividingBy: rows)` for an index below a count
      of at most `rows*rows`: both parts are below `rows` and recombine to
      `i`. */
  lemma GridDivMod(i: nat, count: nat, rows: nat)
    requires i < count <= rows * rows
    ensures rows > 0
    ensures i / rows < rows && i % rows < rows
    ensures (i / rows) * rows + i % rows == i
  {
    if rows > 0 && i / rows >= rows {
      MulMonotone(rows, i / rows, rows);
    }
  }
}
