/** The price a swap step moves to for a given token amount, rounded so that the pool never
    gives a better price than the amount pays for. */
module SqrtPriceMath {
  import opened Types
  import opened Arith
  import opened FullMath
  import opened LiquidityMath

  /** `amount * price` always fits 256 bits, and so does the sum with the shifted liquidity:
      the checked multiplication succeeds and the alternate formula is never reached. */
  lemma Amount0ProductFits(price: u128, liquidity: u128, amount: u64)
    ensures 0 <= amount * price <= U64_MAX * U128_MAX
    ensures liquidity * Q64 + amount * price <= U256_MAX
  {
    MulLe(amount, U64_MAX, price);
    MulLe(price, U128_MAX, U64_MAX);
    MulLe(0, amount, price);
  }

  /** ceil(L*p / (L + a*p)) when adding, ceil(L*p / (L - a*p)) when removing (L in Q64.64). */
  function NextPriceFromAmount0RoundingUp(price: u128, liquidity: u128, amount: u64, add: bool): (r: Result<int>)
  {
    if amount == 0 then Ok(price)
    else
      var numerator1 := liquidity * Q64;
      Amount0ProductFits(price, liquidity, amount);
      var product := amount * price;
      if !add && numerator1 < product then Err(CalculateOverflow)
      else
        var denominator := if add then numerator1 + product else numerator1 - product;
        match MulDivCeil(numerator1, price, denominator, U256_MAX)
        case None => Err(CalculateOverflow)
        case Some(v) => if v > U128_MAX then Err(Panic) else Ok(v)
  }

  function NextPriceFromAmount1RoundingDown(price: u128, liquidity: u128, amount: u64, add: bool): (r: Result<int>)
    requires liquidity > 0
  {
    if amount == 0 then Ok(price)
    else if add then
      var next := price + amount * Q64 / liquidity;
      if next > U128_MAX then Err(CalculateOverflow) else Ok(next)
    else
      DivRoundingUp(amount * Q64, liquidity);
      var quotient := amount * Q64 / liquidity + (if amount * Q64 % liquidity > 0 then 1 else 0);
      if price < quotient then Err(CalculateOverflow) else Ok(price - quotient)
  }

  function NextPriceFromInput(price: u128, liquidity: u128, amountIn: u64, zeroForOne: bool): (r: Result<int>)
  {
    if price == 0 then Err(ZeroSqrtPrice)
    else if liquidity == 0 then Err(ZeroLiquidity)
    else if zeroForOne then NextPriceFromAmount0RoundingUp(price, liquidity, amountIn, true)
    else NextPriceFromAmount1RoundingDown(price, liquidity, amountIn, true)
  }

  function NextPriceFromOutput(price: u128, liquidity: u128, amountOut: u64, zeroForOne: bool): (r: Result<int>)
  {
    if price == 0 then Err(ZeroSqrtPrice)
    else if liquidity == 0 then Err(ZeroLiquidity)
    else if zeroForOne then NextPriceFromAmount1RoundingDown(price, liquidity, amountOut, false)
    else NextPriceFromAmount0RoundingUp(price, liquidity, amountOut, false)
  }

  // ---- The same moves as exact integer formulas ----

  /** Token 0 in: the price falls to ceil(N*p / (N + a*p)), N = L * 2^64. */
  function PriceAfterIn0(price: nat, liquidity: nat, amount: nat): nat
    requires price > 0 && liquidity > 0
  {
    MulLe(0, amount, price);
    MulLe(0, liquidity * Q64, price);
    CeilDiv(liquidity * Q64 * price, liquidity * Q64 + amount * price)
  }

  /** Token 0 out: the price rises to ceil(N*p / (N - a*p)). */
  function PriceAfterOut0(price: nat, liquidity: nat, amount: nat): nat
    requires price > 0 && amount * price < liquidity * Q64
  {
    MulLe(0, liquidity * Q64, price);
    MulLe(0, amount, price);
    CeilDiv(liquidity * Q64 * price, liquidity * Q64 - amount * price)
  }

  function PriceAfterIn1(price: nat, liquidity: nat, amount: nat): nat
    requires liquidity > 0
  {
    price + amount * Q64 / liquidity
  }

  function PriceAfterOut1(price: nat, liquidity: nat, amount: nat): int
    requires liquidity > 0
  {
    price - CeilDiv(amount * Q64, liquidity)
  }

  // ---- Reaching a target price: price move and range amount are two views of one inequality ----

  /** An input of token 0 carries the price down to `target` or below exactly when it covers
      the rounded-up amount of the range. */
  lemma In0ReachesIff(price: nat, target: nat, liquidity: nat, amount: nat)
    requires 0 < target <= price && liquidity > 0
    ensures PriceAfterIn0(price, liquidity, amount) <= target <==> In0(target, price, liquidity) <= amount
  {
    var n := liquidity * Q64;
    MulLe(0, n, price);
    MulLe(0, amount, price);
    CeilIff(n * price, n + amount * price, target);
    In0Iff(target, price, liquidity, amount);
    Distribute(target, n, amount * price);
    Distribute(n, price, target);
    Rotate(amount, target, price);
    Rotate(target, amount, price);
  }

  lemma In1ReachesIff(price: nat, target: nat, liquidity: nat, amount: nat)
    requires price <= target && liquidity > 0
    ensures target <= PriceAfterIn1(price, liquidity, amount) <==> In1(price, target, liquidity) <= amount
  {
    FloorIff(amount * Q64, liquidity, target - price);
    In1Iff(price, target, liquidity, amount);
  }

  /** An output of token 0 stays at `target` or below exactly when the range holds it. */
  lemma Out0StaysIff(price: nat, target: nat, liquidity: nat, amount: nat)
    requires 0 < price <= target && liquidity > 0
    ensures (amount * price < liquidity * Q64 && PriceAfterOut0(price, liquidity, amount) <= target)
            <==> amount <= Out0(price, target, liquidity)
  {
    var n := liquidity * Q64;
    MulLe(0, n, price);
    MulLe(0, amount, price);
    Out0Iff(price, target, liquidity, amount);
    Distribute(n, target, price);
    Distribute(target, n, amount * price);
    if amount * price < n {
      CeilIff(n * price, n - amount * price, target);
    } else {
      MulLt(0, n, price);
      MulLe(n, amount * price, target);
    }
  }

  lemma Out1StaysIff(price: nat, target: nat, liquidity: nat, amount: nat)
    requires target <= price && liquidity > 0
    ensures target <= PriceAfterOut1(price, liquidity, amount) <==> amount <= Out1(target, price, liquidity)
  {
    CeilIff(amount * Q64, liquidity, price - target);
    Out1Iff(target, price, liquidity, amount);
  }

  // ---- The program's functions compute those formulas ----

  lemma NextPriceFromInputExact(price: u128, liquidity: u128, amountIn: u64, zeroForOne: bool)
    requires price > 0 && liquidity > 0
    ensures zeroForOne ==>
              NextPriceFromInput(price, liquidity, amountIn, true) == Ok(PriceAfterIn0(price, liquidity, amountIn))
              && PriceAfterIn0(price, liquidity, amountIn) <= price
    ensures !zeroForOne && PriceAfterIn1(price, liquidity, amountIn) <= U128_MAX ==>
              NextPriceFromInput(price, liquidity, amountIn, false) == Ok(PriceAfterIn1(price, liquidity, amountIn))
  {
    var n := liquidity * Q64;
    MulLe(0, n, price);
    Amount0ProductFits(price, liquidity, amountIn);
    if zeroForOne {
      var d := n + amountIn * price;
      CeilIff(n * price, d, price);
      MulLe(n, d, price);
      if amountIn == 0 {
        CeilIff(n * price, n, price - 1);
        Expand(price, n);
      } else {
        MulDivCeilExact(n, price, d);
      }
    } else if amountIn == 0 {
      FloorIff(0, liquidity, 1);
      FloorIff(0, liquidity, 0);
    }
  }

  lemma NextPriceFromOutput1Exact(price: u128, liquidity: u128, amountOut: u64)
    requires price > 0 && liquidity > 0
    requires 0 <= PriceAfterOut1(price, liquidity, amountOut)
    ensures NextPriceFromOutput(price, liquidity, amountOut, true) == Ok(PriceAfterOut1(price, liquidity, amountOut))
  {
    DivRoundingUp(amountOut * Q64, liquidity);
    if amountOut == 0 {
      CeilIff(0, liquidity, 0);
    }
  }

  lemma NextPriceFromOutput0Exact(price: u128, liquidity: u128, amountOut: u64)
    requires price > 0 && liquidity > 0
    requires amountOut * price < liquidity * Q64 && PriceAfterOut0(price, liquidity, amountOut) <= U128_MAX
    ensures NextPriceFromOutput(price, liquidity, amountOut, false) == Ok(PriceAfterOut0(price, liquidity, amountOut))
  {
    var n := liquidity * Q64;
    MulLe(0, n, price);
    MulLe(0, amountOut, price);
    if amountOut == 0 {
      CeilIff(n * price, n, price);
      CeilIff(n * price, n, price - 1);
      Expand(price, n);
    } else {
      MulDivCeilExact(n, price, n - amountOut * price);
    }
  }

  /** A ceiling quotient that fits is the one `mul_div_ceil` returns. */
  lemma MulDivCeilExact(n: nat, price: nat, d: nat)
    requires d > 0 && n * price >= 0 && CeilDiv(n * price, d) <= U256_MAX
    ensures MulDivCeil(n, price, d, U256_MAX) == Some(CeilDiv(n * price, d))
  {
    CeilIff(n * price, d, U256_MAX);
    var v := MulDivCeil(n, price, d, U256_MAX);
    CeilUnique(n * price, d, v.value);
  }
}
