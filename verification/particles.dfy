/** `Particles`: the older particle buffer, whose count is set by a
    range-checked `setCount` before a generator fills the buffer.
 */
module Particles {
  import opened Results
  import opened Types
  import opened Colors

  /** `Particles.maxCount`. */
  const MaxCount: nat := 65536

  datatype Store = Store(count: int, colorCount: int, buffer: seq<Particle>)

  predicate Valid(s: Store)
  {
    |s.buffer| == MaxCount && 0 <= s.count <= MaxCount && 1 <= s.colorCount <= TotalColors
  }

  /** `init(device:)`: no particles, every colour in use. */
  function Init(buffer: seq<Particle>): (s: Store)
    requires |buffer| == MaxCount
    ensures Valid(s) && IsEmpty(s) && s.colorCount == TotalColors
  {
    Store(0, TotalColors, buffer)
  }

  /** `isEmpty`. */
  predicate IsEmpty(s: Store)
  {
    s.count == 0
  }

  lemma IsEmptyMeansNoParticles(s: Store)
    requires Valid(s)
    ensures IsEmpty(s) <==> s.buffer[..s.count] == []
  {
  }

  const CountOutOfRange: string := "Particle count must be in range [0, 65536]."
  /** The message as written names `[0, 6]`, although 0 is rejected. */
  const ColorCountOutOfRange: string := "Color count must be in range [0, 6]."

  /** `setCount(count:colorCount:)`: the particle count is checked first,
      then the colour count; a rejected call changes nothing. */
  function SetCount(s: Store, count: int, colorCount: int): (r: Result<Store, string>)
    ensures r.Err? <==> !(0 <= count <= MaxCount) || !(1 <= colorCount <= TotalColors)
    ensures !(0 <= count <= MaxCount) ==> r == Err(CountOutOfRange)
    ensures 0 <= count <= MaxCount && !(1 <= colorCount <= TotalColors) ==> r == Err(ColorCountOutOfRange)
    ensures r.Ok? ==> r.value == s.(count := count, colorCount := colorCount)
    ensures r.Ok? && |s.buffer| == MaxCount ==> Valid(r.value)
  {
    if !(0 <= count <= MaxCount) then Err(CountOutOfRange)
    else if !(1 <= colorCount <= TotalColors) then Err(ColorCountOutOfRange)
    else Ok(s.(count := count, colorCount := colorCount))
  }

  /** `addParticle(_:)`: increments the count and stores the particle in
      the new last slot, unless `MaxCount - 1` particles are already
      active. */
  function AddParticle(s: Store, p: Particle): (r: Store)
    requires Valid(s)
    ensures Valid(r) && r.colorCount == s.colorCount
    ensures s.count >= MaxCount - 1 ==> r == s
    ensures s.count < MaxCount - 1 ==>
              && r.count == s.count + 1
              && r.buffer[r.count - 1] == p
              && r.buffer[..s.count] == s.buffer[..s.count]
              && r.buffer[r.count..] == s.buffer[r.count..]
  {
    if s.count >= MaxCount - 1 then s
    else
      var count := s.count + 1;
      Store(count, s.colorCount, s.buffer[count - 1 := p])
  }
}
