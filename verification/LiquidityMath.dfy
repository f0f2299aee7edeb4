/** Token amounts of a liquidity range, and the liquidity a token budget buys. */
module LiquidityMath {
  import opened Types
  import opened Arith
  import opened FullMath

  /** Signed change of an unsigned liquidity, with the checked arithmetic of the release profile. */
  function AddDelta(x: u128, y: i128): (r: Result<u128>)
    ensures r.Ok? <==> 0 <= x + y <= U128_MAX
    ensures r.Ok? ==> r.value == x + y
  {
    if y < 0 then
      if x + y < 0 then Err(Panic) else Ok(x + y)
    else
      if x + y > U128_MAX then Err(Panic) else Ok(x + y)
  }

  // ---- The four range amounts, exact over the integers ----

  /** Token 0 owed by the payer over [lo, hi]: ceil(ceil(L * 2^64 * (hi - lo) / hi) / lo). */
  function In0(lo: nat, hi: nat, liquidity: nat): nat
    requires 0 < lo <= hi
  {
    MulLe(0, liquidity * Q64, hi - lo);
    CeilDiv(CeilDiv(liquidity * Q64 * (hi - lo), hi), lo)
  }

  /** Token 0 paid out over [lo, hi]: both divisions round down. */
  function Out0(lo: nat, hi: nat, liquidity: nat): nat
    requires 0 < lo <= hi
  {
    MulLe(0, liquidity * Q64, hi - lo);
    liquidity * Q64 * (hi - lo) / hi / lo
  }

  /** Token 1 owed by the payer over [lo, hi]. */
  function In1(lo: nat, hi: nat, liquidity: nat): nat
    requires lo <= hi
  {
    MulLe(0, liquidity, hi - lo);
    CeilDiv(liquidity * (hi - lo), Q64)
  }

  /** Token 1 paid out over [lo, hi]. */
  function Out1(lo: nat, hi: nat, liquidity: nat): nat
    requires lo <= hi
  {
    MulLe(0, liquidity, hi - lo);
    liquidity * (hi - lo) / Q64
  }

  lemma In0Iff(lo: nat, hi: nat, liquidity: nat, k: int)
    requires 0 < lo <= hi
    ensures In0(lo, hi, liquidity) <= k <==> liquidity * Q64 * (hi - lo) <= k * lo * hi
  {
    MulLe(0, liquidity * Q64, hi - lo);
    CeilCeilIff(liquidity * Q64 * (hi - lo), hi, lo, k);
  }

  lemma Out0Iff(lo: nat, hi: nat, liquidity: nat, k: int)
    requires 0 < lo <= hi
    ensures k <= Out0(lo, hi, liquidity) <==> k * lo * hi <= liquidity * Q64 * (hi - lo)
  {
    MulLe(0, liquidity * Q64, hi - lo);
    FloorFloorIff(liquidity * Q64 * (hi - lo), hi, lo, k);
  }

  lemma In1Iff(lo: nat, hi: nat, liquidity: nat, k: int)
    requires lo <= hi
    ensures In1(lo, hi, liquidity) <= k <==> liquidity * (hi - lo) <= k * Q64
  {
    MulLe(0, liquidity, hi - lo);
    CeilIff(liquidity * (hi - lo), Q64, k);
  }

  lemma Out1Iff(lo: nat, hi: nat, liquidity: nat, k: int)
    requires lo <= hi
    ensures k <= Out1(lo, hi, liquidity) <==> k * Q64 <= liquidity * (hi - lo)
  {
    MulLe(0, liquidity, hi - lo);
    FloorIff(liquidity * (hi - lo), Q64, k);
  }

  // ---- The program's functions ----

  /** The numerator of a token 0 amount, and so its quotient by `hi`, fits 256 bits. */
  lemma Range0Fits(lo: nat, hi: nat, numerator1: nat)
    requires 0 < lo <= hi && numerator1 <= U256_MAX
    ensures 0 <= numerator1 * (hi - lo) <= U256_MAX * hi
  {
    MulLe(0, numerator1, hi - lo);
    MulLe(numerator1, U256_MAX, hi - lo);
    MulLe(hi - lo, hi, U256_MAX);
  }

  /** `mul_div_ceil` then `div_rounding_up`; the 256-bit overflow branch is unreachable. */
  function Amount0RoundUp(lo: nat, hi: nat, liquidity: u128): (r: nat)
    requires 0 < lo <= hi
    ensures r == In0(lo, hi, liquidity)
  {
    var numerator1 := liquidity * Q64;
    Range0Fits(lo, hi, numerator1);
    var v := MulDivCeil(numerator1, hi - lo, hi, U256_MAX).value;
    CeilUnique(numerator1 * (hi - lo), hi, v);
    DivRoundingUp(v, lo);
    v / lo + (if v % lo > 0 then 1 else 0)
  }

  function Amount0RoundDown(lo: nat, hi: nat, liquidity: u128): (r: nat)
    requires 0 < lo <= hi
    ensures r == Out0(lo, hi, liquidity)
  {
    var numerator1 := liquidity * Q64;
    Range0Fits(lo, hi, numerator1);
    MulLt(U256_MAX, U256_MAX + 1, hi);
    var v := MulDivFloor(numerator1, hi - lo, hi, U256_MAX).value;
    FloorUnique(numerator1 * (hi - lo), hi, v);
    v / lo
  }

  function GetDeltaAmount0Unsigned(a: u128, b: u128, liquidity: u128, roundUp: bool): (r: Result<int>)
    ensures Min(a, b) == 0 ==> r == Err(ZeroSqrtPrice)
    ensures Min(a, b) > 0 ==>
              var amount := if roundUp then In0(Min(a, b), Max(a, b), liquidity)
                  else Out0(Min(a, b), Max(a, b), liquidity);
              r == if amount > U64_MAX then Err(MaxTokenOverflow) else Ok(amount)
  {
    var lo, hi := Min(a, b), Max(a, b);
    if lo == 0 then Err(ZeroSqrtPrice)
    else
      var result := if roundUp then Amount0RoundUp(lo, hi, liquidity) else Amount0RoundDown(lo, hi, liquidity);
      if result > U64_MAX then Err(MaxTokenOverflow) else Ok(result)
  }

  function GetDeltaAmount1Unsigned(a: u128, b: u128, liquidity: u128, roundUp: bool): (r: Result<int>)
    ensures var amount := if roundUp then In1(Min(a, b), Max(a, b), liquidity)
            else Out1(Min(a, b), Max(a, b), liquidity);
            r == if amount > U64_MAX then Err(MaxTokenOverflow) else Ok(amount)
  {
    var lo, hi := Min(a, b), Max(a, b);
    MulLe(0, liquidity, hi - lo);
    MulLe(hi - lo, U128_MAX, liquidity);
    MulLe(liquidity, U128_MAX, U128_MAX);
    var result :=
      if roundUp then MulDivCeil(liquidity, hi - lo, Q64, U256_MAX).value
      else MulDivFloor(liquidity, hi - lo, Q64, U256_MAX).value;
    if result > U64_MAX then Err(MaxTokenOverflow) else Ok(result)
  }

  lemma CeilUnique(a: nat, d: nat, v: nat)
    requires d > 0 && v * d - d < a <= v * d
    ensures v == CeilDiv(a, d)
  {
    CeilIff(a, d, v);
    CeilIff(a, d, v - 1);
    Expand(v, d);
  }

  lemma FloorUnique(a: nat, d: nat, v: nat)
    requires d > 0 && v * d <= a < v * d + d
    ensures v == a / d
  {
    FloorIff(a, d, v);
    FloorIff(a, d, v + 1);
    Expand(v, d);
  }
}
