/** Widening multiply-divide: the product is formed in twice the width, and `None` is
    returned only for a zero divisor or a quotient that does not fit. */
module FullMath {
  import opened Types
  import opened Arith

  function MulDivFloor(val: nat, num: nat, denom: nat, max: nat): (r: Option<nat>)
    ensures r.Some? ==> denom > 0 && r.value * denom <= val * num < r.value * denom + denom && r.value <= max
    ensures r.None? <==> denom == 0 || (max + 1) * denom <= val * num
  {
    if denom == 0 then None
    else
      MulLe(0, val, num);
      DivBounds(val * num, denom);
      FloorIff(val * num, denom, max + 1);
      var q := val * num / denom;
      if q > max then None else Some(q)
  }

  function MulDivCeil(val: nat, num: nat, denom: nat, max: nat): (r: Option<nat>)
    ensures r.Some? ==> denom > 0 && r.value * denom - denom < val * num <= r.value * denom && r.value <= max
    ensures r.None? <==> denom == 0 || max * denom < val * num
  {
    if denom == 0 then None
    else
      MulLe(0, val, num);
      CeilIff(val * num, denom, max);
      var q := CeilDiv(val * num, denom);
      Expand(q, denom);
      if q > max then None else Some(q)
  }

  /** The narrowing read of a wide amount: anything from u64::MAX up becomes zero. */
  function ToUnderflowU64(x: nat): (r: u64)
    ensures r <= x
    ensures x < U64_MAX ==> r == x
    ensures x >= U64_MAX ==> r == 0
  {
    if x < U64_MAX then x else 0
  }

  /** No widened product overflows the doubled width, so `None` never hides a wrap. */
  lemma {:induction false} WidenedProductFits(val: nat, num: nat, denom: nat, max: nat)
    requires val <= max && num <= max && denom <= max
    ensures val * num + denom < (max + 1) * (max + 1)
  {
    MulLe(val, max, num);
    MulLe(num, max, max);
    assert (max + 1) * (max + 1) == max * max + 2 * max + 1;
  }
}
