/** `ParticleHolder`: the fixed-capacity particle buffer shared with the
    GPU, the number of active particles and the number of colours in use.

    The buffer is a sequence of `MaxCount` particles; only the first
    `particleCount` are active. Each mutating operation is a function from
    the old holder to the new one.
 */
module ParticleHolder {
  import opened Results
  import opened Types
  import opened Colors

  /** `ParticleHolder.maxCount`. */
  const MaxCount: nat := 65536

  datatype Holder = Holder(particleCount: nat, colorCount: int, buffer: seq<Particle>)

  /** The buffer has its full capacity and the active prefix fits in it. */
  predicate Valid(h: Holder)
  {
    |h.buffer| == MaxCount && h.particleCount <= MaxCount
  }

  /** The active particles. */
  function Active(h: Holder): seq<Particle>
    requires Valid(h)
  {
    h.buffer[..h.particleCount]
  }

  /** `init(device:)`: an empty holder using every colour, over a freshly
      allocated buffer whose contents are not specified. */
  function Init(buffer: seq<Particle>): (h: Holder)
    requires |buffer| == MaxCount
    ensures Valid(h) && IsEmpty(h) && h.colorCount == TotalColors
  {
    Holder(0, TotalColors, buffer)
  }

  /** `isEmpty`. */
  predicate IsEmpty(h: Holder)
  {
    h.particleCount == 0
  }

  const TooManyParticles: string := "Particle count must be less than or equal to 65536"

  /** `setParticles(_:colorCount:)`: copies the list to the front of the
      buffer. A list longer than the capacity is rejected, and then no new
      state exists: the holder is left as it was. The colour count is not
      checked. */
  function SetParticles(h: Holder, particles: seq<Particle>, colorCount: int): (r: Result<Holder, string>)
    requires Valid(h)
    ensures r.Err? <==> |particles| > MaxCount
    ensures r.Err? ==> r.error == TooManyParticles
    ensures r.Ok? ==> Valid(r.value)
    ensures r.Ok? ==> r.value.particleCount == |particles| && r.value.colorCount == colorCount
    ensures r.Ok? ==> Active(r.value) == particles
    ensures r.Ok? ==> r.value.buffer[|particles|..] == h.buffer[|particles|..]
  {
    if |particles| > MaxCount then Err(TooManyParticles)
    else Ok(Holder(|particles|, colorCount, particles + h.buffer[|particles|..]))
  }

  /** `addParticle(_:)`: appends while fewer than `MaxCount - 1` particles
      are active and otherwise drops the particle silently. */
  function AddParticle(h: Holder, p: Particle): (r: Holder)
    requires Valid(h)
    ensures Valid(r) && r.colorCount == h.colorCount
    ensures h.particleCount >= MaxCount - 1 ==> r == h
    ensures h.particleCount < MaxCount - 1 ==>
              && r.particleCount == h.particleCount + 1
              && r.buffer[h.particleCount] == p
              && forall i :: 0 <= i < MaxCount && i != h.particleCount ==> r.buffer[i] == h.buffer[i]
    ensures r.particleCount < MaxCount
            || (r.particleCount == MaxCount && h.particleCount == MaxCount)
  {
    if h.particleCount >= MaxCount - 1 then h
    else Holder(h.particleCount + 1, h.colorCount, h.buffer[h.particleCount := p])
  }

  /** Appending keeps an active count that started below the capacity
      at most `MaxCount - 1`. */
  lemma AddParticleStaysBelowCapacity(h: Holder, p: Particle)
    requires Valid(h) && h.particleCount < MaxCount
    ensures AddParticle(h, p).particleCount <= MaxCount - 1
  {
  }

  /** The squared length of the wrapped offset from `center`. */
  function DistanceSquared(p: Particle, center: Vec2): (d: real)
    ensures d >= 0.0
  {
    LengthSquared(WrapVec(Sub(p.position, center), 1.0))
  }

  /** `length(offset) < radius`, stated on squared lengths: a length is
      never negative, so no particle qualifies when `radius <= 0`. */
  predicate WithinRadius(d: real, radius: real)
  {
    0.0 < radius && d < radius * radius
  }

  /** `k` is the particle `removeNaarestParticle` chooses: within the
      radius, no farther than any other active particle, and strictly
      nearer than every active particle before it. */
  ghost predicate IsNearest(h: Holder, center: Vec2, radius: real, k: int)
    requires Valid(h)
  {
    && 0 <= k < h.particleCount
    && WithinRadius(DistanceSquared(h.buffer[k], center), radius)
    && (forall j :: 0 <= j < h.particleCount ==>
          DistanceSquared(h.buffer[k], center) <= DistanceSquared(h.buffer[j], center))
    && (forall j :: 0 <= j < k ==>
          DistanceSquared(h.buffer[k], center) < DistanceSquared(h.buffer[j], center))
  }

  /** The search loop of `removeNaarestParticle`: the index of the nearest
      active particle strictly within `radius`, ties going to the lowest
      index, or -1 when none is within `radius`. */
  method NearestIndex(h: Holder, center: Vec2, radius: real) returns (k: int)
    requires Valid(h)
    ensures -1 <= k < h.particleCount
    ensures k == -1 <==> forall j :: 0 <= j < h.particleCount ==>
                           !WithinRadius(DistanceSquared(h.buffer[j], center), radius)
    ensures k != -1 ==> IsNearest(h, center, radius, k)
  {
    k := -1;
    var minimum: real := 0.0;
    var i := 0;
    while i < h.particleCount
      invariant 0 <= i <= h.particleCount
      invariant -1 <= k < i
      invariant k == -1 ==> forall j :: 0 <= j < i ==>
                              !WithinRadius(DistanceSquared(h.buffer[j], center), radius)
      invariant k != -1 ==> minimum == DistanceSquared(h.buffer[k], center)
      invariant k != -1 ==> WithinRadius(minimum, radius)
      invariant k != -1 ==> forall j :: 0 <= j < i ==> minimum <= DistanceSquared(h.buffer[j], center)
      invariant k != -1 ==> forall j :: 0 <= j < k ==> minimum < DistanceSquared(h.buffer[j], center)
    {
      var d := DistanceSquared(h.buffer[i], center);
      var closer := if k == -1 then WithinRadius(d, radius) else d < minimum;
      if closer {
        k := i;
        minimum := d;
      }
      i := i + 1;
    }
  }

  /** Removal by swapping slot `k` with the last active slot and shrinking
      the active count by one. */
  function RemoveAt(h: Holder, k: nat): (r: Holder)
    requires Valid(h) && k < h.particleCount
    ensures Valid(r) && r.colorCount == h.colorCount
    ensures r.particleCount == h.particleCount - 1
    ensures r.buffer[r.particleCount] == h.buffer[k]
    ensures multiset(Active(r)) == multiset(Active(h)) - multiset{h.buffer[k]}
    ensures forall i :: 0 <= i < MaxCount && i != k && i != r.particleCount ==> r.buffer[i] == h.buffer[i]
  {
    var last := h.particleCount - 1;
    var buffer := if k == last then h.buffer
                  else h.buffer[k := h.buffer[last]][last := h.buffer[k]];
    var r := Holder(last, h.colorCount, buffer);
    RemoveAtMultiset(h, k, r);
    r
  }

  lemma RemoveAtMultiset(h: Holder, k: nat, r: Holder)
    requires Valid(h) && k < h.particleCount
    requires r.particleCount == h.particleCount - 1
    requires |r.buffer| == MaxCount
    requires r.buffer == if k == r.particleCount then h.buffer
                         else h.buffer[k := h.buffer[r.particleCount]][r.particleCount := h.buffer[k]]
    ensures multiset(r.buffer[..r.particleCount]) == multiset(Active(h)) - multiset{h.buffer[k]}
  {
    var last := r.particleCount;
    var a := Active(h);
    assert a == a[..last] + [a[last]];
    assert multiset(a) == multiset(a[..last]) + multiset{a[last]};
    if k == last {
      assert r.buffer[..last] == a[..last];
    } else {
      // Slot k of the shortened prefix now holds the old last particle.
      SwapPrefix(h.buffer, k, last);
      var front := a[..last];
      assert r.buffer[..last] == front[k := a[last]];
      ReplaceMultiset(front, k, a[last]);
      assert front[k] == a[k] && a[k] in multiset(front);
    }
  }

  /** Swapping slot `k` with slot `last` and cutting at `last` leaves the
      prefix with `k` overwritten by the old last element. */
  lemma SwapPrefix(s: seq<Particle>, k: nat, last: nat)
    requires k < last < |s|
    ensures s[k := s[last]][last := s[k]][..last] == s[..last][k := s[last]]
  {
  }

  /** Overwriting one element swaps it for the new one in the multiset. */
  lemma ReplaceMultiset(a: seq<Particle>, k: nat, x: Particle)
    requires k < |a|
    ensures multiset(a[k := x]) == multiset(a) - multiset{a[k]} + multiset{x}
  {
    assert a == a[..k] + [a[k]] + a[k + 1..];
    assert a[k := x] == a[..k] + [x] + a[k + 1..];
  }

  /** `removeNaarestParticle(around:in:)`: removes the nearest active
      particle strictly within `radius` of `center`, if there is one. */
  method RemoveNearestParticle(h: Holder, center: Vec2, radius: real) returns (r: Holder)
    requires Valid(h)
    ensures Valid(r) && r.colorCount == h.colorCount
    ensures (forall j :: 0 <= j < h.particleCount ==>
               !WithinRadius(DistanceSquared(h.buffer[j], center), radius)) ==> r == h
    ensures r != h ==> exists k :: IsNearest(h, center, radius, k) && r == RemoveAt(h, k)
    ensures r.particleCount == h.particleCount || r.particleCount == h.particleCount - 1
    ensures r.particleCount == h.particleCount - 1 <==>
              exists j :: 0 <= j < h.particleCount && WithinRadius(DistanceSquared(h.buffer[j], center), radius)
  {
    var k := NearestIndex(h, center, radius);
    if k >= 0 {
      r := RemoveAt(h, k);
    } else {
      r := h;
    }
  }

  /** The number of particles of `ps` that satisfy `f`. */
  function CountWhere(ps: seq<Particle>, f: Particle -> bool): (n: nat)
    ensures n <= |ps|
  {
    if |ps| == 0 then 0
    else CountWhere(ps[..|ps| - 1], f) + (if f(ps[|ps| - 1]) then 1 else 0)
  }

  /** The number of particles of `ps` with raw colour `c`. */
  function ColorCount(ps: seq<Particle>, c: nat): nat
  {
    CountWhere(ps, (p: Particle) => p.color == c)
  }

  /** Every particle's colour is a valid colour index. */
  predicate ColorsValid(ps: seq<Particle>)
  {
    forall i :: 0 <= i < |ps| ==> ps[i].color < TotalColors
  }

  /** When every colour is valid, the six colour counts add up to the
      number of particles. */
  lemma {:induction false} ColorCountsSum(ps: seq<Particle>)
    requires ColorsValid(ps)
    ensures ColorCount(ps, 0) + ColorCount(ps, 1) + ColorCount(ps, 2)
            + ColorCount(ps, 3) + ColorCount(ps, 4) + ColorCount(ps, 5) == |ps|
  {
    if |ps| > 0 {
      var init := ps[..|ps| - 1];
      assert ColorsValid(init) by {
        forall i | 0 <= i < |init| ensures init[i].color < TotalColors {
          assert init[i] == ps[i];
        }
      }
      ColorCountsSum(init);
      assert ps[|ps| - 1].color < TotalColors;
    }
  }

  /** The counting part of `dumpStatistics`. */
  datatype Statistics = Statistics(particleCount: nat, nanCount: nat, infiniteCount: nat, colorCounts: seq<nat>)

  function SumOfCounts(cs: seq<nat>): nat
    requires |cs| == TotalColors
  {
    cs[0] + cs[1] + cs[2] + cs[3] + cs[4] + cs[5]
  }

  /** `dumpStatistics()` without the text formatting. Whether a particle
      has a NaN or an infinite component is a property of its `Float`
      fields; the model takes both as parameters. Indexing `colorCounts`
      by a colour of 6 or more traps, hence the precondition. */
  method DumpStatistics(h: Holder, hasNaN: Particle -> bool, hasInfinite: Particle -> bool)
    returns (s: Statistics)
    requires Valid(h) && ColorsValid(Active(h))
    ensures s.particleCount == h.particleCount
    ensures s.nanCount == CountWhere(Active(h), hasNaN) <= h.particleCount
    ensures s.infiniteCount == CountWhere(Active(h), hasInfinite) <= h.particleCount
    ensures |s.colorCounts| == TotalColors
    ensures forall c :: 0 <= c < TotalColors ==> s.colorCounts[c] == ColorCount(Active(h), c)
    ensures SumOfCounts(s.colorCounts) == h.particleCount
  {
    var ps := Active(h);
    var nanCount := 0;
    var infiniteCount := 0;
    var colorCounts: seq<nat> := seq(TotalColors, _ => 0);
    var i := 0;
    while i < |ps|
      invariant 0 <= i <= |ps|
      invariant nanCount == CountWhere(ps[..i], hasNaN)
      invariant infiniteCount == CountWhere(ps[..i], hasInfinite)
      invariant |colorCounts| == TotalColors
      invariant forall c :: 0 <= c < TotalColors ==> colorCounts[c] == ColorCount(ps[..i], c)
    {
      var p := ps[i];
      assert ps[..i + 1][..i] == ps[..i];
      if hasNaN(p) { nanCount := nanCount + 1; }
      if hasInfinite(p) { infiniteCount := infiniteCount + 1; }
      colorCounts := colorCounts[p.color := colorCounts[p.color] + 1];
      i := i + 1;
    }
    assert ps[..i] == ps;
    ColorCountsSum(ps);
    s := Statistics(h.particleCount, nanCount, infiniteCount, colorCounts);
  }
}
