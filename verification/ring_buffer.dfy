/** `RingBuffer`: a fixed number of `Float` slots, written round-robin from
    `head`, with the slots' sum and average.
 */
module RingBuffers {
  import opened Results
  import IndexMath

  datatype RingBuffer = RingBuffer(storage: seq<real>, head: nat)

  /** `count`: the number of slots, fixed at creation. */
  function Count(b: RingBuffer): nat
  {
    |b.storage|
  }

  predicate Valid(b: RingBuffer)
  {
    b.head < Count(b) || b.head == 0
  }

  /** `init(count:initialValue:)`: `count` slots holding the value, the head
      at slot 0. A negative count traps, hence the `nat`. */
  function Init(count: nat, value: real): (b: RingBuffer)
    ensures Valid(b) && Count(b) == count && b.head == 0
    ensures forall i :: 0 <= i < count ==> b.storage[i] == value
  {
    RingBuffer(seq(count, _ => value), 0)
  }

  /** `insert(_:)`: writes at the head and advances it, wrapping to slot 0
      after the last. Writing into a buffer without slots traps, hence the
      precondition. */
  function Insert(b: RingBuffer, value: real): (b': RingBuffer)
    requires Valid(b) && Count(b) > 0
    ensures Valid(b') && Count(b') == Count(b)
    ensures b'.storage[b.head] == value
    ensures forall i :: 0 <= i < Count(b) && i != b.head ==> b'.storage[i] == b.storage[i]
    ensures b'.head == (b.head + 1) % Count(b)
  {
    var head := b.head + 1;
    IndexMath.ModSucc(b.head, Count(b));
    RingBuffer(b.storage[b.head := value], if head == Count(b) then 0 else head)
  }

  /** Inserts the values one after another. */
  function InsertAll(b: RingBuffer, values: seq<real>): (b': RingBuffer)
    requires Valid(b) && Count(b) > 0
    ensures Valid(b') && Count(b') == Count(b)
    decreases |values|
  {
    if |values| == 0 then b else InsertAll(Insert(b, values[0]), values[1..])
  }

  /** After `k` inserts the head has advanced `k` slots round the ring; in
      particular `count` inserts bring it back where it started. */
  lemma {:induction false} InsertAllHead(b: RingBuffer, values: seq<real>)
    requires Valid(b) && Count(b) > 0
    ensures InsertAll(b, values).head == (b.head + |values|) % Count(b)
    decreases |values|
  {
    if |values| > 0 {
      var n := Count(b);
      var next := Insert(b, values[0]);
      InsertAllHead(next, values[1..]);
      ModAddOne(b.head, |values| - 1, n);
    }
  }

  lemma ModAddOne(h: nat, k: nat, n: nat)
    requires h < n
    ensures ((h + 1) % n + k) % n == (h + 1 + k) % n
  {
    IndexMath.ModSucc(h, n);
    if h + 1 == n {
      IndexMath.ModAddPeriod(k, n);
    }
  }

  lemma InsertCountTimesRestoresHead(b: RingBuffer, values: seq<real>)
    requires Valid(b) && Count(b) > 0 && |values| == Count(b)
    ensures InsertAll(b, values).head == b.head
  {
    InsertAllHead(b, values);
    IndexMath.DivModUnique(b.head + Count(b), Count(b), 1, b.head);
  }

  /** `fill(_:)`: every slot holds the value; the head stays. */
  function Fill(b: RingBuffer, value: real): (b': RingBuffer)
    requires Valid(b)
    ensures Valid(b') && Count(b') == Count(b) && b'.head == b.head
    ensures forall i :: 0 <= i < Count(b) ==> b'.storage[i] == value
  {
    RingBuffer(seq(Count(b), _ => value), b.head)
  }

  /** `reduce(0, +)`, folding from the first slot. */
  function SumOf(s: seq<real>): real
  {
    if |s| == 0 then 0.0 else SumOf(s[..|s| - 1]) + s[|s| - 1]
  }

  /** `sum()`. */
  function Sum(b: RingBuffer): real
  {
    SumOf(b.storage)
  }

  /** Replacing one slot changes the sum by the difference. */
  lemma {:induction false} SumOfUpdate(s: seq<real>, i: nat, v: real)
    requires i < |s|
    ensures SumOf(s[i := v]) == SumOf(s) - s[i] + v
    decreases |s|
  {
    var t := s[i := v];
    var last := |s| - 1;
    assert t[..last] == if i == last then s[..last] else s[..last][i := v];
    if i < last {
      SumOfUpdate(s[..last], i, v);
    }
  }

  /** Inserting a value replaces the head slot's share of the sum. */
  lemma SumAfterInsert(b: RingBuffer, value: real)
    requires Valid(b) && Count(b) > 0
    ensures Sum(Insert(b, value)) == Sum(b) - b.storage[b.head] + value
  {
    SumOfUpdate(b.storage, b.head, value);
    assert Insert(b, value).storage == b.storage[b.head := value];
  }

  /** `n` equal slots sum to `n` times the value. */
  lemma {:induction false} SumOfConstant(s: seq<real>, value: real)
    requires forall i :: 0 <= i < |s| ==> s[i] == value
    ensures SumOf(s) == |s| as real * value
    decreases |s|
  {
    if |s| > 0 {
      SumOfConstant(s[..|s| - 1], value);
    }
  }

  lemma SumAfterFill(b: RingBuffer, value: real)
    requires Valid(b)
    ensures Sum(Fill(b, value)) == Count(b) as real * value
  {
    SumOfConstant(Fill(b, value).storage, value);
  }

  /** `average()`: the sum over the slot count. With no slots the `Float`
      division is 0/0, a NaN, modelled as `None`. */
  function Average(b: RingBuffer): (r: Option<real>)
    ensures r.None? <==> Count(b) == 0
    ensures r.Some? ==> r.value * Count(b) as real == Sum(b)
  {
    if Count(b) == 0 then None else Some(Sum(b) / Count(b) as real)
  }

  /** After a fill the average is the fill value. */
  lemma AverageAfterFill(b: RingBuffer, value: real)
    requires Valid(b) && Count(b) > 0
    ensures Average(Fill(b, value)) == Some(value)
  {
    SumAfterFill(b, value);
    var n := Count(b) as real;
    var x := Average(Fill(b, value)).value;
    assert x * n == n * value;
    assert (x - value) * n == 0.0;
  }
}
