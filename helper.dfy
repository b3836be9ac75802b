/**
 * `helper::clamp` of `QuadtreeRenderer.cpp`, on reals (the template is instantiated
 * with floating-point types; rounding is not modelled).
 */
module Helper {
  /**
   * `clamp(val, min, max)`: `max` when `val` exceeds it, otherwise `min` when `val`
   * is below it, otherwise `val`. The upper bound is tested first, so for an
   * inverted range (`min > max`) a value above `max` gives `max`.
   */
  function Clamp(val: real, min: real, max: real): (r: real)
    ensures min <= max ==> min <= r <= max
    ensures min <= val <= max ==> r == val
    ensures r == val || r == min || r == max
  {
    if val > max then max else if val < min then min else val
  }

  /** On a proper range, clamping twice is clamping once. */
  lemma ClampIdempotent(val: real, min: real, max: real)
    requires min <= max
    ensures Clamp(Clamp(val, min, max), min, max) == Clamp(val, min, max)
  {
  }

  /** On a proper range, clamping preserves order. */
  lemma ClampMonotone(a: real, b: real, min: real, max: real)
    requires min <= max && a <= b
    ensures Clamp(a, min, max) <= Clamp(b, min, max)
  {
  }

  /**
   * On a proper range, `Clamp` gives the nearest point of `[min, max]`: no point of
   * the range is closer to `val`.
   */
  lemma ClampNearest(val: real, min: real, max: real, y: real)
    requires min <= max && min <= y <= max
    ensures Dist(val, Clamp(val, min, max)) <= Dist(val, y)
  {
  }

  /** The distance between two reals. */
  function Dist(a: real, b: real): real
  {
    if a <= b then b - a else a - b
  }
}
