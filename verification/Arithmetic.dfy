/** Facts about products and rounding down that the other modules share. They are stated once, with as few terms as
    they need, so that no proof elsewhere has to reason about a product of two variables: a product rises with
    either factor, a common positive factor cancels, and rounding down to a multiple of a step gives the one multiple
    that is at most a step below. Division by a positive number rounds down in Dafny, for negative numbers too, as
    FLOOR and Math.floor do. */
module Arithmetic {

  lemma MulMonotone(b: nat, x: int, y: int)
    requires x <= y
    ensures b * x <= b * y
  {
  }

  lemma MulCancel(x: int, y: int, unit: int)
    requires unit > 0 && x * unit < y * unit
    ensures x < y
  {
    if y <= x {
      MulMonotone(unit, y, x);
      assert false;
    }
  }

  /** FLOOR(x / step) * step; for a positive step Dafny's division rounds down. */
  function Floor(x: int, step: int): int
    requires step > 0
  {
    (x / step) * step
  }

  lemma FloorBounds(x: int, step: int)
    requires step > 0
    ensures Floor(x, step) <= x < Floor(x, step) + step
  {
  }

  lemma FloorUnique(x: int, step: int, k: int)
    requires step > 0 && k * step <= x < k * step + step
    ensures x / step == k
    ensures Floor(x, step) == k * step
  {
    FloorBounds(x, step);
    MulCancel(k, x / step + 1, step);
    MulCancel(x / step, k + 1, step);
  }

  lemma FloorMonotone(x: int, y: int, step: int)
    requires step > 0 && x <= y
    ensures x / step <= y / step
    ensures Floor(x, step) <= Floor(y, step)
  {
    FloorBounds(x, step);
    FloorBounds(y, step);
    MulCancel(x / step, y / step + 1, step);
    MulMonotone(step, x / step, y / step);
  }
}
