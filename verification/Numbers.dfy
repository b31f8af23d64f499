/** JavaScript numbers, where the services use them exactly. */
module Numbers {

  datatype Number = NotFinite | Finite(value: real)

  /** Math.trunc: the whole part, towards zero. */
  function Trunc(x: real): (n: int)
    ensures x >= 0.0 ==> n as real <= x < n as real + 1.0
    ensures x <= 0.0 ==> n as real - 1.0 < x <= n as real
  {
    if x >= 0.0 then x.Floor else -(-x).Floor
  }
}
