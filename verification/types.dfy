/** The `Particle` record shared with the GPU kernels, with `Float`
    components modelled as `real`.
 */
module Types {
  import opened Colors
  import Torus

  /** `SIMD2<Float>`. */
  datatype Vec2 = Vec2(x: real, y: real)

  const Zero: Vec2 := Vec2(0.0, 0.0)

  /** `color` holds a raw `UInt32` colour value; `attractorCount` is only
      written by the velocity kernel. */
  datatype Particle = Particle(color: nat, position: Vec2, velocity: Vec2, attractorCount: nat)

  /** `Particle(color:position:velocity:)` with the default zero velocity. */
  function MakeParticle(c: Color, position: Vec2): (p: Particle)
    ensures p.color == RawValue(c) && p.position == position
    ensures p.velocity == Zero && p.attractorCount == 0
  {
    Particle(RawValue(c), position, Zero, 0)
  }

  function Sub(a: Vec2, b: Vec2): Vec2
  {
    Vec2(a.x - b.x, a.y - b.y)
  }

  /** `wrapped(max:)` applied to each component of a vector. */
  function WrapVec(v: Vec2, max: real): (r: Vec2)
    requires max > 0.0
    ensures -max <= r.x < max && -max <= r.y < max
  {
    Vec2(Torus.Wrap(v.x, max), Torus.Wrap(v.y, max))
  }

  /** The squared Euclidean length; it orders vectors as `length` does. */
  function LengthSquared(v: Vec2): (r: real)
    ensures r >= 0.0
  {
    v.x * v.x + v.y * v.y
  }
}
