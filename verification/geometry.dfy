/**
 * Plane vectors. The simulation's single-precision floats are modelled as exact
 * reals; normalisation (which needs a square root) is an oracle supplied by the
 * caller, so every displacement vector stays opaque.
 */
module Geometry {

  datatype Vec2 = Vec2(x: real, y: real)

  const Zero: Vec2 := Vec2(0.0, 0.0)

  function Add(a: Vec2, b: Vec2): Vec2
  {
    Vec2(a.x + b.x, a.y + b.y)
  }

  function Sub(a: Vec2, b: Vec2): Vec2
  {
    Vec2(a.x - b.x, a.y - b.y)
  }

  function Scale(v: Vec2, k: real): Vec2
  {
    Vec2(v.x * k, v.y * k)
  }

  function MagnitudeSquared(v: Vec2): real
  {
    v.x * v.x + v.y * v.y
  }

  /** A normalisation oracle: maps a non-zero vector to the unit vector along it. */
  type Normalizer = Vec2 -> Vec2

  /**
   * Direction from `from` towards `to`. A degenerate (zero) difference has no
   * direction, and the zero vector is used instead of failing.
   */
  function DirectionTo(from: Vec2, to: Vec2, normalize: Normalizer): (d: Vec2)
    ensures from == to ==> d == Zero
    ensures from != to ==> d == normalize(Sub(to, from))
  {
    var diff := Sub(to, from);
    if diff == Zero then Zero else normalize(diff)
  }

  /** Scaling a vector scales its squared length by the square of the factor. */
  lemma ScaleMagnitude(v: Vec2, k: real)
    ensures MagnitudeSquared(Scale(v, k)) == k * k * MagnitudeSquared(v)
  {
  }
}
