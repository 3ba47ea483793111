/** The six particle colours (`Color`, raw type `UInt32`), their cyclic
    successor/predecessor, and the `IntRepresentable` conversions to and
    from `Int`.
 */
module Colors {
  import opened Results

  /** `Color.allCases.count`. */
  const TotalColors: nat := 6

  /** One past the largest `UInt32`. */
  const UInt32Limit: int := 0x1_0000_0000

  datatype Color = Red | Green | Blue | Cyan | Magenta | Yellow

  /** `Color.allCases`, in declaration order. */
  const AllColors: seq<Color> := [Red, Green, Blue, Cyan, Magenta, Yellow]

  /** The raw value: declaration order starting at 0. */
  function RawValue(c: Color): (r: nat)
    ensures r < TotalColors
    ensures AllColors[r] == c
  {
    match c
    case Red => 0
    case Green => 1
    case Blue => 2
    case Cyan => 3
    case Magenta => 4
    case Yellow => 5
  }

  /** `init?(rawValue:)`: the case with that raw value, if there is one. */
  function FromRawValue(raw: int): (r: Option<Color>)
    ensures r.Some? <==> 0 <= raw < TotalColors
    ensures r.Some? ==> RawValue(r.value) == raw
  {
    if 0 <= raw < TotalColors then Some(AllColors[raw]) else None
  }

  /** `next(_ i:)`. `UInt32(i)` traps on a negative `i`, and the `UInt32`
      addition traps when it overflows, hence the precondition. */
  function Next(c: Color, i: int): (r: Color)
    requires 0 <= i && RawValue(c) + i < UInt32Limit
    ensures RawValue(r) == (RawValue(c) + i) % TotalColors
  {
    AllColors[(RawValue(c) + i) % TotalColors]
  }

  /** `next`: one step forward. */
  function Succ(c: Color): (r: Color)
    ensures r == Next(c, 1)
    ensures RawValue(r) == if c == Yellow then 0 else RawValue(c) + 1
  {
    Next(c, 1)
  }

  /** `prev`: `next(allCases.count - 1)`. */
  function Pred(c: Color): (r: Color)
    ensures r == Next(c, TotalColors - 1)
    ensures RawValue(r) == if c == Red then TotalColors - 1 else RawValue(c) - 1
  {
    Next(c, TotalColors - 1)
  }

  lemma SuccPredInverse(c: Color)
    ensures Pred(Succ(c)) == c
    ensures Succ(Pred(c)) == c
  {
  }

  /** Stepping forward is periodic with period six. */
  lemma NextPeriodic(c: Color, i: int)
    requires 0 <= i && RawValue(c) + i + TotalColors < UInt32Limit
    ensures Next(c, i + TotalColors) == Next(c, i)
    ensures Next(c, TotalColors) == c
  {
    assert (RawValue(c) + i + TotalColors) % TotalColors == (RawValue(c) + i) % TotalColors;
  }

  /** Two forward steps compose into one. */
  lemma NextCompose(c: Color, i: nat, j: nat)
    requires i + j + TotalColors < UInt32Limit
    ensures Next(Next(c, i), j) == Next(c, i + j)
  {
    var a := RawValue(c);
    assert ((a + i) % TotalColors + j) % TotalColors == (a + i + j) % TotalColors;
  }

  /** `intValue`: `Int(rawValue)`. */
  function IntValue(c: Color): (r: int)
    ensures 0 <= r < TotalColors
    ensures FromRawValue(r) == Some(c)
  {
    RawValue(c)
  }

  /** `init?(intValue:)`. Converting the `Int` to `UInt32` traps outside
      the `UInt32` range, hence the precondition. */
  function FromIntValue(i: int): (r: Option<Color>)
    requires 0 <= i < UInt32Limit
    ensures r.Some? <==> i < TotalColors
    ensures r.Some? ==> IntValue(r.value) == i
  {
    FromRawValue(i)
  }

  lemma IntValueRoundTrip(c: Color)
    ensures FromIntValue(IntValue(c)) == Some(c)
  {
  }

  /** Distinct colours have distinct raw values. */
  lemma RawValueInjective(c: Color, d: Color)
    ensures RawValue(c) == RawValue(d) <==> c == d
  {
  }
}
