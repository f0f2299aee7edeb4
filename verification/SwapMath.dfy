/** One swap step: `compute_swap` against a clean specification of where the price goes and
    what each side pays. */
module SwapMath {
  import opened Types
  import opened Arith
  import opened FullMath
  import opened LiquidityMath
  import opened SqrtPriceMath

  const FEE_RATE_DENOMINATOR: int := 1_000_000

  datatype SwapComputationResult = SwapComputationResult(
    sqrtPriceNext: nat, amountIn: nat, amountOut: nat, feeAmount: nat)

  /** Prices are positive and `target` lies in the direction of the swap. */
  predicate Directed(current: int, target: int, zeroForOne: bool) {
    0 < current && 0 < target && (if zeroForOne then target <= current else current <= target)
  }

  // ---- Specification ----

  /** What the trader pays to move the price, rounded up. */
  function AmountIn(current: nat, next: nat, liquidity: nat, zeroForOne: bool): nat
    requires Directed(current, next, zeroForOne)
  {
    if zeroForOne then In0(next, current, liquidity) else In1(current, next, liquidity)
  }

  /** What the pool pays out over the same move, rounded down. */
  function AmountOut(current: nat, next: nat, liquidity: nat, zeroForOne: bool): nat
    requires Directed(current, next, zeroForOne)
  {
    if zeroForOne then Out1(next, current, liquidity) else Out0(current, next, liquidity)
  }

  /** The amount that drives the price: the input net of its fee, or the output grossed up. */
  function Budget(remaining: nat, feeRate: nat, baseInput: bool, feeOnInput: bool): Option<nat> {
    if baseInput then
      if !feeOnInput then Some(remaining)
      else if feeRate > FEE_RATE_DENOMINATOR then None
      else
        MulLe(0, remaining, FEE_RATE_DENOMINATOR - feeRate);
        Some(remaining * (FEE_RATE_DENOMINATOR - feeRate) / FEE_RATE_DENOMINATOR)
    else if feeOnInput then Some(remaining)
    else if feeRate >= FEE_RATE_DENOMINATOR then None
    else
      var gross := CeilDiv(remaining * FEE_RATE_DENOMINATOR, FEE_RATE_DENOMINATOR - feeRate);
      if gross > U64_MAX then None else Some(gross)
  }

  /** Exact input: the unconstrained price move clamped to the target.
      Exact output: the target when the range cannot more than cover the budget, the
      unconstrained move otherwise. */
  function NextPrice(current: nat, target: nat, liquidity: nat, budget: nat, baseInput: bool, zeroForOne: bool): nat
    requires Directed(current, target, zeroForOne)
  {
    if baseInput then
      if liquidity == 0 then target
      else if zeroForOne then Max(target, PriceAfterIn0(current, liquidity, budget))
      else Min(target, PriceAfterIn1(current, liquidity, budget))
    else if AmountOut(current, target, liquidity, zeroForOne) <= budget then target
    else
      LiquidityPositive(current, target, liquidity, zeroForOne);
      if zeroForOne then
        Out1StaysIff(current, target, liquidity, budget);
        PriceAfterOut1(current, liquidity, budget)
      else
        Out0StaysIff(current, target, liquidity, budget);
        PriceAfterOut0(current, liquidity, budget)
  }

  lemma LiquidityPositive(current: nat, target: nat, liquidity: nat, zeroForOne: bool)
    requires Directed(current, target, zeroForOne)
    requires AmountOut(current, target, liquidity, zeroForOne) > 0
    ensures liquidity > 0
  {
    if liquidity == 0 {
      if zeroForOne { Out1Iff(target, current, 0, 1); } else {
        Out0Iff(current, target, 0, 1);
        MulLt(0, current, target);
      }
    }
  }

  /** Output before the output-side fee. An exact-output range amount above u64 is dropped and
      reads as zero when rounding carries the price exactly onto the target. */
  function GrossOut(current: nat, target: nat, next: nat, liquidity: nat, baseInput: bool, zeroForOne: bool): nat
    requires Directed(current, target, zeroForOne) && Directed(current, next, zeroForOne)
  {
    var gross := AmountOut(current, next, liquidity, zeroForOne);
    if !baseInput && next == target && gross > U64_MAX then 0 else gross
  }

  /** The fee and the amounts the trader sees, or `None` when the fee does not fit. */
  function Charge(next: nat, reached: bool, amountIn: nat, gross: nat, remaining: nat, feeRate: nat,
                  baseInput: bool, feeOnInput: bool): Option<SwapComputationResult>
    requires baseInput && feeOnInput && !reached ==> amountIn <= remaining
  {
    MulLe(0, amountIn, feeRate);
    MulLe(0, gross, feeRate);
    if feeOnInput then
      var out := if baseInput then gross else Min(gross, remaining);
      if baseInput && !reached then Some(SwapComputationResult(next, amountIn, out, remaining - amountIn))
      else if feeRate >= FEE_RATE_DENOMINATOR then None
      else
        var fee := CeilDiv(amountIn * feeRate, FEE_RATE_DENOMINATOR - feeRate);
        if fee > U64_MAX then None else Some(SwapComputationResult(next, amountIn, out, fee))
    else
      var fee := CeilDiv(gross * feeRate, FEE_RATE_DENOMINATOR);
      if fee > gross then None
      else
        var out := if baseInput then gross - fee else Min(gross - fee, remaining);
        Some(SwapComputationResult(next, amountIn, out, gross - out))
  }

  /** The whole step; `None` when the program returns an error. */
  function Step(current: nat, target: nat, liquidity: nat, remaining: nat, feeRate: nat,
                baseInput: bool, zeroForOne: bool, feeOnInput: bool): (r: Option<SwapComputationResult>)
    requires Directed(current, target, zeroForOne)
    ensures r.Some? ==>
              && Directed(current, r.value.sqrtPriceNext, zeroForOne)
              && Directed(r.value.sqrtPriceNext, target, zeroForOne)
  {
    match Budget(remaining, feeRate, baseInput, feeOnInput)
    case None => None
    case Some(budget) =>
      BudgetWithin(remaining, feeRate, baseInput, feeOnInput);
      var next := NextPrice(current, target, liquidity, budget, baseInput, zeroForOne);
      NextPriceProperties(current, target, liquidity, budget, baseInput, zeroForOne);
      var amountIn := AmountIn(current, next, liquidity, zeroForOne);
      var gross := GrossOut(current, target, next, liquidity, baseInput, zeroForOne);
      if amountIn > U64_MAX || gross > U64_MAX then None
      else Charge(next, next == target, amountIn, gross, remaining, feeRate, baseInput, feeOnInput)
  }

  lemma BudgetWithin(remaining: nat, feeRate: nat, baseInput: bool, feeOnInput: bool)
    requires Budget(remaining, feeRate, baseInput, feeOnInput).Some?
    ensures baseInput ==> Budget(remaining, feeRate, baseInput, feeOnInput).value <= remaining
    ensures !baseInput ==> remaining <= Budget(remaining, feeRate, baseInput, feeOnInput).value
  {
    if baseInput && feeOnInput {
      MulLe(0, remaining, FEE_RATE_DENOMINATOR - feeRate);
      MulLe(FEE_RATE_DENOMINATOR - feeRate, FEE_RATE_DENOMINATOR, remaining);
      FloorIff(remaining * (FEE_RATE_DENOMINATOR - feeRate), FEE_RATE_DENOMINATOR, remaining + 1);
    } else if !baseInput && !feeOnInput {
      MulLe(FEE_RATE_DENOMINATOR - feeRate, FEE_RATE_DENOMINATOR, remaining);
      CeilIff(remaining * FEE_RATE_DENOMINATOR, FEE_RATE_DENOMINATOR - feeRate, remaining - 1);
      Expand(remaining, FEE_RATE_DENOMINATOR - feeRate);
    }
  }

  /** The price never leaves [current, target] in any of the modes, for any liquidity.
      Exact input: the range amount decides exactly whether the target is reached, and the
      amount charged never exceeds the budget.
      Exact output: short of the target the pool pays at least the budget. */
  lemma NextPriceProperties(current: nat, target: nat, liquidity: nat, budget: nat, baseInput: bool, zeroForOne: bool)
    requires Directed(current, target, zeroForOne)
    ensures var next := NextPrice(current, target, liquidity, budget, baseInput, zeroForOne);
            && Directed(current, next, zeroForOne) && Directed(next, target, zeroForOne)
            && (baseInput ==>
                  && (next == target <==> AmountIn(current, target, liquidity, zeroForOne) <= budget)
                  && AmountIn(current, next, liquidity, zeroForOne) <= budget)
            && (!baseInput && next != target ==> budget <= AmountOut(current, next, liquidity, zeroForOne))
  {
    var next := NextPrice(current, target, liquidity, budget, baseInput, zeroForOne);
    if baseInput {
      ExactInputNext(current, target, liquidity, budget, zeroForOne);
    } else if AmountOut(current, target, liquidity, zeroForOne) > budget {
      LiquidityPositive(current, target, liquidity, zeroForOne);
      if zeroForOne {
        Out1StaysIff(current, target, liquidity, budget);
        Out1StaysIff(current, next, liquidity, budget);
      } else {
        Out0StaysIff(current, target, liquidity, budget);
        PriceAfterOut0Rises(current, liquidity, budget);
        Out0StaysIff(current, next, liquidity, budget);
      }
    }
  }

  lemma ExactInputNext(current: nat, target: nat, liquidity: nat, budget: nat, zeroForOne: bool)
    requires Directed(current, target, zeroForOne)
    ensures var next := NextPrice(current, target, liquidity, budget, true, zeroForOne);
            && Directed(current, next, zeroForOne) && Directed(next, target, zeroForOne)
            && (next == target <==> AmountIn(current, target, liquidity, zeroForOne) <= budget)
            && AmountIn(current, next, liquidity, zeroForOne) <= budget
  {
    var next := NextPrice(current, target, liquidity, budget, true, zeroForOne);
    if liquidity == 0 {
      if zeroForOne {
        In0Iff(target, current, 0, budget);
        Positive3(budget, target, current);
      } else {
        In1Iff(current, target, 0, budget);
      }
    } else if zeroForOne {
      PriceAfterIn0Falls(current, liquidity, budget);
      In0ReachesIff(current, target, liquidity, budget);
      In0ReachesIff(current, next, liquidity, budget);
    } else {
      FloorIff(budget * Q64, liquidity, 0);
      In1ReachesIff(current, target, liquidity, budget);
      In1ReachesIff(current, next, liquidity, budget);
    }
  }

  lemma Positive3(a: nat, b: nat, c: nat)
    ensures 0 <= a * b * c
  {
    MulLe(0, a, b);
    MulLe(0, a * b, c);
  }

  lemma PriceAfterIn0Falls(price: nat, liquidity: nat, amount: nat)
    requires price > 0 && liquidity > 0
    ensures PriceAfterIn0(price, liquidity, amount) <= price
  {
    MulLe(0, amount, price);
    MulLe(0, liquidity * Q64, price);
    CeilIff(liquidity * Q64 * price, liquidity * Q64 + amount * price, price);
    MulLe(liquidity * Q64, liquidity * Q64 + amount * price, price);
  }

  lemma PriceAfterOut0Rises(price: nat, liquidity: nat, amount: nat)
    requires price > 0 && amount * price < liquidity * Q64
    ensures PriceAfterOut0(price, liquidity, amount) >= price
  {
    MulLe(0, amount, price);
    MulLe(0, liquidity * Q64, price);
    var d := liquidity * Q64 - amount * price;
    CeilIff(liquidity * Q64 * price, d, price - 1);
    MulLe(d, liquidity * Q64, price);
    Expand(price, d);
  }

  // ---- The program ----

  /** The range amount, with the u64 overflow turned into `None`. */
  function CalculateAmountInRange(current: u128, target: u128, liquidity: u128, zeroForOne: bool, isBaseInput: bool)
    : (r: Result<Option<int>>)
    requires Directed(current, target, zeroForOne)
    ensures var amount := if isBaseInput then AmountIn(current, target, liquidity, zeroForOne)
                          else AmountOut(current, target, liquidity, zeroForOne);
            r == Ok(if amount > U64_MAX then None else Some(amount))
  {
    var result :=
      if isBaseInput then
        if zeroForOne then GetDeltaAmount0Unsigned(target, current, liquidity, true)
        else GetDeltaAmount1Unsigned(current, target, liquidity, true)
      else if zeroForOne then GetDeltaAmount1Unsigned(target, current, liquidity, false)
      else GetDeltaAmount0Unsigned(current, target, liquidity, false);
    match result
    case Ok(v) => Ok(Some(v))
    case Err(e) => if e == MaxTokenOverflow then Ok(None) else Err(SqrtPriceLimitOverflow)
  }

  /** Short of the target there is liquidity, and the program's price function computes the move. */
  lemma ExactInputMove(current: u128, target: u128, liquidity: u128, budget: u64, zeroForOne: bool)
    requires Directed(current, target, zeroForOne)
    requires budget < AmountIn(current, target, liquidity, zeroForOne)
    ensures NextPriceFromInput(current, liquidity, budget, zeroForOne)
            == Ok(NextPrice(current, target, liquidity, budget, true, zeroForOne))
  {
    NextPriceProperties(current, target, liquidity, budget, true, zeroForOne);
    NextPriceFromInputExact(current, liquidity, budget, zeroForOne);
  }

  lemma ExactOutputMove(current: u128, target: u128, liquidity: u128, budget: u64, zeroForOne: bool)
    requires Directed(current, target, zeroForOne)
    requires budget < AmountOut(current, target, liquidity, zeroForOne)
    ensures NextPriceFromOutput(current, liquidity, budget, zeroForOne)
            == Ok(NextPrice(current, target, liquidity, budget, false, zeroForOne))
  {
    LiquidityPositive(current, target, liquidity, zeroForOne);
    if zeroForOne {
      Out1StaysIff(current, target, liquidity, budget);
      NextPriceFromOutput1Exact(current, liquidity, budget);
    } else {
      Out0StaysIff(current, target, liquidity, budget);
      NextPriceFromOutput0Exact(current, liquidity, budget);
    }
  }

  /** The fee part of `compute_swap`, in the source's four branches. */
  method ChargeFee(priceNext: nat, priceTarget: nat, rangeIn: u64, grossOut: u64, amountRemaining: u64,
                   feeRate: u32, isBaseInput: bool, isFeeOnInput: bool)
    returns (r: Result<SwapComputationResult>)
    requires isBaseInput && isFeeOnInput && priceNext != priceTarget ==> rangeIn <= amountRemaining
    ensures var charge := Charge(priceNext, priceNext == priceTarget, rangeIn, grossOut, amountRemaining, feeRate,
            isBaseInput, isFeeOnInput);
            && (r.Ok? <==> charge.Some?)
            && (r.Ok? ==> r.value == charge.value)
  {
    var amountOut, feeAmount := grossOut, 0;
    MulLe(0, rangeIn, feeRate);
    MulLe(0, grossOut, feeRate);
    if isFeeOnInput {
      if isBaseInput && priceNext != priceTarget {
        feeAmount := amountRemaining - rangeIn;
      } else {
        if !isBaseInput { amountOut := Min(amountOut, amountRemaining); }
        if feeRate > FEE_RATE_DENOMINATOR { return Err(Panic); }
        var fee := MulDivCeil(rangeIn, feeRate, FEE_RATE_DENOMINATOR - feeRate, U64_MAX);
        if fee.None? {
          return Err(CalculateOverflow);
        }
        feeAmount := fee.value;
        CeilUnique(rangeIn * feeRate, FEE_RATE_DENOMINATOR - feeRate, feeAmount);
      }
    } else {
      var fee := MulDivCeil(grossOut, feeRate, FEE_RATE_DENOMINATOR, U64_MAX);
      if fee.Some? {
        CeilUnique(grossOut * feeRate, FEE_RATE_DENOMINATOR, fee.value);
      }
      if fee.None? || fee.value > grossOut {
        return Err(CalculateOverflow);
      }
      feeAmount := fee.value;
      amountOut := grossOut - feeAmount;
      if !isBaseInput && amountOut > amountRemaining {
        feeAmount := grossOut - amountRemaining;
        amountOut := amountRemaining;
      }
    }
    r := Ok(SwapComputationResult(priceNext, rangeIn, amountOut, feeAmount));
  }

  /** The exact-input half of the price computation: the price reached and the range amount.
      `.value` marks the results that are proved never to be errors. */
  method PriceFromExactInput(current: u128, target: u128, liquidity: u128, amountRemaining: u64,
                             feeRate: u32, zeroForOne: bool, isFeeOnInput: bool)
    returns (r: Result<(nat, nat)>)
    requires Directed(current, target, zeroForOne)
    ensures var budget := Budget(amountRemaining, feeRate, true, isFeeOnInput);
            && (r.Ok? <==> budget.Some?)
            && (r.Ok? ==>
                  && r.value.0 == NextPrice(current, target, liquidity, budget.value, true, zeroForOne)
                  && (r.value.0 == target ==> r.value.1 == AmountIn(current, target, liquidity, zeroForOne)))
  {
    var amountForPriceCalc, amountIn := amountRemaining, 0;
    if isFeeOnInput {
      if feeRate > FEE_RATE_DENOMINATOR { return Err(Panic); }
      BudgetWithin(amountRemaining, feeRate, true, true);
      FloorIff(amountRemaining * (FEE_RATE_DENOMINATOR - feeRate), FEE_RATE_DENOMINATOR, U64_MAX + 1);
      amountForPriceCalc := MulDivFloor(amountRemaining, FEE_RATE_DENOMINATOR - feeRate, FEE_RATE_DENOMINATOR,
          U64_MAX).value;
      FloorUnique(amountRemaining * (FEE_RATE_DENOMINATOR - feeRate), FEE_RATE_DENOMINATOR, amountForPriceCalc);
    }
    var inRange := CalculateAmountInRange(current, target, liquidity, zeroForOne, true).value;
    if inRange.Some? { amountIn := inRange.value; }
    NextPriceProperties(current, target, liquidity, amountForPriceCalc, true, zeroForOne);
    var priceNext: nat := target;
    if !(inRange.Some? && amountForPriceCalc >= amountIn) {
      ExactInputMove(current, target, liquidity, amountForPriceCalc, zeroForOne);
      priceNext := NextPriceFromInput(current, liquidity, amountForPriceCalc, zeroForOne).value;
    }
    r := Ok((priceNext, amountIn));
  }

  /** The exact-output half. */
  method PriceFromExactOutput(current: u128, target: u128, liquidity: u128, amountRemaining: u64,
                              feeRate: u32, zeroForOne: bool, isFeeOnInput: bool)
    returns (r: Result<(nat, nat)>)
    requires Directed(current, target, zeroForOne)
    ensures var budget := Budget(amountRemaining, feeRate, false, isFeeOnInput);
            && (r.Ok? <==> budget.Some?)
            && (r.Ok? ==>
                  && r.value.0 == NextPrice(current, target, liquidity, budget.value, false, zeroForOne)
                  && (r.value.0 == target ==>
                        r.value.1 == GrossOut(current, target, target, liquidity, false, zeroForOne)))
  {
    var amountForPriceCalc, amountOut := amountRemaining, 0;
    if !isFeeOnInput {
      if feeRate > FEE_RATE_DENOMINATOR { return Err(Panic); }
      var gross := MulDivCeil(amountRemaining, FEE_RATE_DENOMINATOR, FEE_RATE_DENOMINATOR - feeRate, U64_MAX);
      if feeRate < FEE_RATE_DENOMINATOR {
        CeilIff(amountRemaining * FEE_RATE_DENOMINATOR, FEE_RATE_DENOMINATOR - feeRate, U64_MAX);
      }
      if gross.None? {
        return Err(CalculateOverflow);
      }
      amountForPriceCalc := gross.value;
      CeilUnique(amountRemaining * FEE_RATE_DENOMINATOR, FEE_RATE_DENOMINATOR - feeRate, amountForPriceCalc);
    }
    var outRange := CalculateAmountInRange(current, target, liquidity, zeroForOne, false).value;
    if outRange.Some? { amountOut := outRange.value; }
    NextPriceProperties(current, target, liquidity, amountForPriceCalc, false, zeroForOne);
    var priceNext: nat := target;
    if !(outRange.Some? && amountForPriceCalc >= amountOut) {
      ExactOutputMove(current, target, liquidity, amountForPriceCalc, zeroForOne);
      priceNext := NextPriceFromOutput(current, liquidity, amountForPriceCalc, zeroForOne).value;
    }
    r := Ok((priceNext, amountOut));
  }

  method ComputeSwap(sqrtPriceCurrent: u128, sqrtPriceTarget: u128, liquidity: u128, amountRemaining: u64,
                     feeRate: u32, isBaseInput: bool, zeroForOne: bool, isFeeOnInput: bool)
    returns (r: Result<SwapComputationResult>)
    requires Directed(sqrtPriceCurrent, sqrtPriceTarget, zeroForOne)
    ensures var step := Step(sqrtPriceCurrent, sqrtPriceTarget, liquidity, amountRemaining, feeRate, isBaseInput,
            zeroForOne, isFeeOnInput);
            && (r.Ok? <==> step.Some?)
            && (r.Ok? ==> r.value == step.value)
  {
    hide In0, Out0, In1, Out1, NextPrice, Budget, Charge, GetDeltaAmount0Unsigned, GetDeltaAmount1Unsigned;
    var priceNext, amountIn, amountOut := 0, 0, 0;
    ghost var budget := Budget(amountRemaining, feeRate, isBaseInput, isFeeOnInput);
    if isBaseInput {
      var priced :- PriceFromExactInput(sqrtPriceCurrent, sqrtPriceTarget, liquidity, amountRemaining, feeRate,
          zeroForOne, isFeeOnInput);
      priceNext, amountIn := priced.0, priced.1;
    } else {
      var priced :- PriceFromExactOutput(sqrtPriceCurrent, sqrtPriceTarget, liquidity, amountRemaining, feeRate,
          zeroForOne, isFeeOnInput);
      priceNext, amountOut := priced.0, priced.1;
    }
    NextPriceProperties(sqrtPriceCurrent, sqrtPriceTarget, liquidity, budget.value, isBaseInput, zeroForOne);
    // The source's direction check never fires.
    assert if zeroForOne then priceNext >= sqrtPriceTarget else sqrtPriceTarget >= priceNext;

    var max := sqrtPriceTarget == priceNext;
    if zeroForOne {
      if !(max && isBaseInput) {
        amountIn :- GetDeltaAmount0Unsigned(priceNext, sqrtPriceCurrent, liquidity, true);
      }
      if !(max && !isBaseInput) {
        amountOut :- GetDeltaAmount1Unsigned(priceNext, sqrtPriceCurrent, liquidity, false);
      }
    } else {
      if !(max && isBaseInput) {
        amountIn :- GetDeltaAmount1Unsigned(sqrtPriceCurrent, priceNext, liquidity, true);
      }
      if !(max && !isBaseInput) {
        amountOut :- GetDeltaAmount0Unsigned(sqrtPriceCurrent, priceNext, liquidity, false);
      }
    }
    assert amountIn == AmountIn(sqrtPriceCurrent, priceNext, liquidity, zeroForOne);
    assert amountOut == GrossOut(sqrtPriceCurrent, sqrtPriceTarget, priceNext, liquidity, isBaseInput, zeroForOne);
    BudgetWithin(amountRemaining, feeRate, isBaseInput, isFeeOnInput);
    r := ChargeFee(priceNext, sqrtPriceTarget, amountIn, amountOut, amountRemaining, feeRate, isBaseInput,
        isFeeOnInput);
  }
}
