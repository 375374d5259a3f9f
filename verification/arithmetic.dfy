/** Percentages as the samplers show them. */
module Arithmetic {
  /** `qBound(0, u, 100)` */
  function Clamp(u: int): (r: int)
    ensures 0 <= r <= 100 && (0 <= u <= 100 ==> r == u)
  {
    if u > 100 then 100 else if u < 0 then 0 else u
  }
}
