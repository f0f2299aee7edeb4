/** What a swap step, and any sequence of steps at fixed liquidity, can and cannot do. */
module SwapTheorems {
  import opened Types
  import opened Arith
  import opened LiquidityMath
  import opened SqrtPriceMath
  import opened SwapMath

  // ---- Accounting of one step ----

  /** Exact input, fee on input: the trader pays exactly all of the remaining amount when the step stops short of
      the target; on it the fee is the least that pays the rate, on top of the input, and both fit that amount. */
  lemma ExactInputFeeOnInputAccounting(current: nat, target: nat, liquidity: nat, remaining: nat, feeRate: nat,
      zeroForOne: bool)
    requires Directed(current, target, zeroForOne)
    requires Step(current, target, liquidity, remaining, feeRate, true, zeroForOne, true).Some?
    ensures var s := Step(current, target, liquidity, remaining, feeRate, true, zeroForOne, true).value;
            && s.amountIn + s.feeAmount <= remaining
            && (s.sqrtPriceNext != target ==> s.amountIn + s.feeAmount == remaining)
            && (s.sqrtPriceNext == target ==>
                  && feeRate < FEE_RATE_DENOMINATOR
                  && (s.feeAmount - 1) * (FEE_RATE_DENOMINATOR - feeRate) < s.amountIn * feeRate
                  && s.amountIn * feeRate <= s.feeAmount * (FEE_RATE_DENOMINATOR - feeRate))
            && s.amountOut == AmountOut(current, s.sqrtPriceNext, liquidity, zeroForOne)
  {
    var budget := Budget(remaining, feeRate, true, true).value;
    BudgetWithin(remaining, feeRate, true, true);
    NextPriceProperties(current, target, liquidity, budget, true, zeroForOne);
    var next := NextPrice(current, target, liquidity, budget, true, zeroForOne);
    ChargeInput(next, next == target, AmountIn(current, next, liquidity, zeroForOne),
                GrossOut(current, target, next, liquidity, true, zeroForOne), remaining, feeRate);
  }

  lemma ChargeInput(next: nat, reached: bool, amountIn: nat, gross: nat, remaining: nat, feeRate: nat)
    requires Budget(remaining, feeRate, true, true).Some?
    requires amountIn <= Budget(remaining, feeRate, true, true).value <= remaining
    requires Charge(next, reached, amountIn, gross, remaining, feeRate, true, true).Some?
    ensures var s := Charge(next, reached, amountIn, gross, remaining, feeRate, true, true).value;
            && s.amountIn + s.feeAmount <= remaining
            && (!reached ==> s.amountIn + s.feeAmount == remaining)
            && (reached ==>
                  && feeRate < FEE_RATE_DENOMINATOR
                  && (s.feeAmount - 1) * (FEE_RATE_DENOMINATOR - feeRate) < s.amountIn * feeRate
                  && s.amountIn * feeRate <= s.feeAmount * (FEE_RATE_DENOMINATOR - feeRate))
  {
    if reached {
      FeeWithinRemainder(amountIn, remaining, feeRate);
    }
  }

  /** The fee charged on top of an input that fits the net budget still fits the whole budget. */
  lemma FeeWithinRemainder(amountIn: nat, remaining: nat, feeRate: nat)
    requires feeRate < FEE_RATE_DENOMINATOR
    requires amountIn <= remaining * (FEE_RATE_DENOMINATOR - feeRate) / FEE_RATE_DENOMINATOR
    ensures amountIn * feeRate >= 0
    ensures amountIn + CeilDiv(amountIn * feeRate, FEE_RATE_DENOMINATOR - feeRate) <= remaining
  {
    var d, keep := FEE_RATE_DENOMINATOR, FEE_RATE_DENOMINATOR - feeRate;
    MulLe(0, remaining, keep);
    FloorIff(remaining * keep, d, amountIn);
    MulLe(0, amountIn, feeRate);
    Distribute(amountIn, d, feeRate);
    Distribute(keep, remaining, amountIn);
    CeilIff(amountIn * feeRate, keep, remaining - amountIn);
  }

  /** Exact input, fee on output: at most the budget is paid, the gross output splits exactly
      into net and fee, and the fee is the rounded-up rate. */
  lemma ExactInputFeeOnOutputAccounting(current: nat, target: nat, liquidity: nat, remaining: nat, feeRate: nat,
      zeroForOne: bool)
    requires Directed(current, target, zeroForOne)
    requires Step(current, target, liquidity, remaining, feeRate, true, zeroForOne, false).Some?
    ensures var s := Step(current, target, liquidity, remaining, feeRate, true, zeroForOne, false).value;
            var gross := AmountOut(current, s.sqrtPriceNext, liquidity, zeroForOne);
            && s.amountIn <= remaining
            && s.amountOut + s.feeAmount == gross
            && (s.feeAmount - 1) * FEE_RATE_DENOMINATOR < gross * feeRate <= s.feeAmount * FEE_RATE_DENOMINATOR
  {
    NextPriceProperties(current, target, liquidity, remaining, true, zeroForOne);
  }

  /** Exact output: never more than asked for, exactly that short of the target. A fee on the input is the least
      that pays the rate; one on the output is what is left of the gross output, which pays the rate, and the least
      that does unless the net output is all that was asked for. */
  lemma ExactOutputAccounting(current: nat, target: nat, liquidity: nat, remaining: nat, feeRate: nat,
      zeroForOne: bool, feeOnInput: bool)
    requires Directed(current, target, zeroForOne)
    requires Step(current, target, liquidity, remaining, feeRate, false, zeroForOne, feeOnInput).Some?
    ensures var s := Step(current, target, liquidity, remaining, feeRate, false, zeroForOne, feeOnInput).value;
            var gross := GrossOut(current, target, s.sqrtPriceNext, liquidity, false, zeroForOne);
            && s.amountOut <= remaining
            && (s.sqrtPriceNext != target ==> s.amountOut == remaining)
            && (!feeOnInput ==>
                  && s.amountOut + s.feeAmount == gross && gross * feeRate <= s.feeAmount * FEE_RATE_DENOMINATOR
                  && (s.amountOut == remaining || (s.feeAmount - 1) * FEE_RATE_DENOMINATOR < gross * feeRate))
            && (feeOnInput ==>
                  && s.amountOut == Min(gross, remaining) && feeRate < FEE_RATE_DENOMINATOR
                  && (s.feeAmount - 1) * (FEE_RATE_DENOMINATOR - feeRate) < s.amountIn * feeRate
                  && s.amountIn * feeRate <= s.feeAmount * (FEE_RATE_DENOMINATOR - feeRate))
  {
    var budget := Budget(remaining, feeRate, false, feeOnInput).value;
    NextPriceProperties(current, target, liquidity, budget, false, zeroForOne);
    var next := NextPrice(current, target, liquidity, budget, false, zeroForOne);
    var gross := GrossOut(current, target, next, liquidity, false, zeroForOne);
    ChargeOutput(next, next == target, AmountIn(current, next, liquidity, zeroForOne), gross, remaining, feeRate,
        feeOnInput);
  }

  lemma ChargeOutput(next: nat, reached: bool, amountIn: nat, gross: nat, remaining: nat, feeRate: nat,
      feeOnInput: bool)
    requires Budget(remaining, feeRate, false, feeOnInput).Some?
    requires !reached ==> Budget(remaining, feeRate, false, feeOnInput).value <= gross
    requires Charge(next, reached, amountIn, gross, remaining, feeRate, false, feeOnInput).Some?
    ensures var s := Charge(next, reached, amountIn, gross, remaining, feeRate, false, feeOnInput).value;
            && s.amountOut <= remaining
            && (!reached ==> s.amountOut == remaining)
            && (!feeOnInput ==>
                  && s.amountOut + s.feeAmount == gross && gross * feeRate <= s.feeAmount * FEE_RATE_DENOMINATOR
                  && (s.amountOut == remaining || (s.feeAmount - 1) * FEE_RATE_DENOMINATOR < gross * feeRate))
            && (feeOnInput ==>
                  && s.amountOut == Min(gross, remaining) && feeRate < FEE_RATE_DENOMINATOR
                  && (s.feeAmount - 1) * (FEE_RATE_DENOMINATOR - feeRate) < s.amountIn * feeRate
                  && s.amountIn * feeRate <= s.feeAmount * (FEE_RATE_DENOMINATOR - feeRate))
  {
    if !feeOnInput {
      FeeOnOutputFloor(gross, remaining, feeRate);
      if !reached {
        NetCoversRequest(gross, remaining, feeRate);
      }
    }
  }

  /** Capping the net output at the request only raises the fee. */
  lemma FeeOnOutputFloor(gross: nat, remaining: nat, feeRate: nat)
    ensures gross * feeRate >= 0
    ensures var fee := CeilDiv(gross * feeRate, FEE_RATE_DENOMINATOR);
            gross * feeRate <= (gross - Min(gross - fee, remaining)) * FEE_RATE_DENOMINATOR
  {
    MulLe(0, gross, feeRate);
    var fee := CeilDiv(gross * feeRate, FEE_RATE_DENOMINATOR);
    MulLe(fee, gross - Min(gross - fee, remaining), FEE_RATE_DENOMINATOR);
  }

  /** Grossing up and deducting the fee again leaves at least the requested net output. */
  lemma NetCoversRequest(gross: nat, remaining: nat, feeRate: nat)
    requires feeRate < FEE_RATE_DENOMINATOR
    requires CeilDiv(remaining * FEE_RATE_DENOMINATOR, FEE_RATE_DENOMINATOR - feeRate) <= gross
    ensures gross * feeRate >= 0
    ensures remaining <= gross - CeilDiv(gross * feeRate, FEE_RATE_DENOMINATOR)
  {
    var d := FEE_RATE_DENOMINATOR;
    CeilFloorComplement(gross, feeRate, d);
    CeilIff(remaining * d, d - feeRate, gross);
    FloorIff(gross * (d - feeRate), d, remaining);
  }

  // ---- How far one step goes ----

  /** An input pays for a range and the fee on it. */
  predicate Affords(remaining: nat, feeRate: nat, feeOnInput: bool, amountIn: nat) {
    if feeOnInput then amountIn * FEE_RATE_DENOMINATOR <= remaining * (FEE_RATE_DENOMINATOR - feeRate)
    else amountIn <= remaining
  }

  /** An exact input moves the price to or past every price, up to the target, that it pays for with the fee, and
      to or past no other. */
  lemma InputReachesIff(current: nat, target: nat, m: nat, liquidity: nat, remaining: nat, feeRate: nat,
      zeroForOne: bool, feeOnInput: bool)
    requires Directed(current, m, zeroForOne) && Directed(m, target, zeroForOne)
    requires Step(current, target, liquidity, remaining, feeRate, true, zeroForOne, feeOnInput).Some?
    ensures var next := Step(current, target, liquidity, remaining, feeRate, true, zeroForOne, feeOnInput)
                          .value.sqrtPriceNext;
            Directed(m, next, zeroForOne)
            <==> Affords(remaining, feeRate, feeOnInput, AmountIn(current, m, liquidity, zeroForOne))
  {
    hide AmountIn, AmountOut;
    var budget := Budget(remaining, feeRate, true, feeOnInput).value;
    StepNext(current, target, liquidity, remaining, feeRate, true, zeroForOne, feeOnInput);
    AffordsIff(remaining, feeRate, feeOnInput, AmountIn(current, m, liquidity, zeroForOne));
    NextReachesIff(current, target, m, liquidity, budget, zeroForOne);
  }

  lemma StepNext(current: nat, target: nat, liquidity: nat, remaining: nat, feeRate: nat, baseInput: bool,
      zeroForOne: bool, feeOnInput: bool)
    requires Directed(current, target, zeroForOne)
    requires Step(current, target, liquidity, remaining, feeRate, baseInput, zeroForOne, feeOnInput).Some?
    ensures Budget(remaining, feeRate, baseInput, feeOnInput).Some?
    ensures Step(current, target, liquidity, remaining, feeRate, baseInput, zeroForOne, feeOnInput).value.sqrtPriceNext
            == NextPrice(current, target, liquidity, Budget(remaining, feeRate, baseInput, feeOnInput).value, baseInput,
                   zeroForOne)
  {
    hide NextPrice, AmountIn, GrossOut, Budget;
    if Budget(remaining, feeRate, baseInput, feeOnInput).Some? {
      BudgetWithin(remaining, feeRate, baseInput, feeOnInput);
      var budget := Budget(remaining, feeRate, baseInput, feeOnInput).value;
      NextPriceProperties(current, target, liquidity, budget, baseInput, zeroForOne);
    }
  }

  lemma AffordsIff(remaining: nat, feeRate: nat, feeOnInput: bool, amount: nat)
    requires Budget(remaining, feeRate, true, feeOnInput).Some?
    ensures amount <= Budget(remaining, feeRate, true, feeOnInput).value
            <==> Affords(remaining, feeRate, feeOnInput, amount)
  {
    if feeOnInput {
      MulLe(0, remaining, FEE_RATE_DENOMINATOR - feeRate);
      FloorIff(remaining * (FEE_RATE_DENOMINATOR - feeRate), FEE_RATE_DENOMINATOR, amount);
    }
  }

  lemma NextReachesIff(current: nat, target: nat, m: nat, liquidity: nat, budget: nat, zeroForOne: bool)
    requires Directed(current, m, zeroForOne) && Directed(m, target, zeroForOne)
    ensures Directed(m, NextPrice(current, target, liquidity, budget, true, zeroForOne), zeroForOne)
            <==> AmountIn(current, m, liquidity, zeroForOne) <= budget
  {
    NextPriceProperties(current, target, liquidity, budget, true, zeroForOne);
    if liquidity == 0 {
      if zeroForOne { In0Iff(m, current, 0, 0); } else { In1Iff(current, m, 0, 0); }
    } else if zeroForOne {
      In0ReachesIff(current, m, liquidity, budget);
    } else {
      In1ReachesIff(current, m, liquidity, budget);
    }
  }

  /** What is left of an output after the fee on it covers the request. */
  predicate Yields(remaining: nat, feeRate: nat, feeOnInput: bool, amountOut: int) {
    if feeOnInput then remaining <= amountOut
    else remaining * FEE_RATE_DENOMINATOR <= amountOut * (FEE_RATE_DENOMINATOR - feeRate)
  }

  /** An exact output goes to the target unless the range there holds more than it takes to cover the request; it
      then stops at or before every price that yields the request, and at or before no other. */
  lemma OutputStaysIff(current: nat, target: nat, m: nat, liquidity: nat, remaining: nat, feeRate: nat,
      zeroForOne: bool, feeOnInput: bool)
    requires Directed(current, m, zeroForOne) && Directed(m, target, zeroForOne) && m != target
    requires Step(current, target, liquidity, remaining, feeRate, false, zeroForOne, feeOnInput).Some?
    ensures var next := Step(current, target, liquidity, remaining, feeRate, false, zeroForOne, feeOnInput)
                          .value.sqrtPriceNext;
            Directed(next, m, zeroForOne)
            <==> Yields(remaining, feeRate, feeOnInput, AmountOut(current, m, liquidity, zeroForOne))
                 && Yields(remaining, feeRate, feeOnInput, AmountOut(current, target, liquidity, zeroForOne) - 1)
  {
    hide AmountOut;
    var budget := Budget(remaining, feeRate, false, feeOnInput).value;
    StepNext(current, target, liquidity, remaining, feeRate, false, zeroForOne, feeOnInput);
    YieldsIff(remaining, feeRate, feeOnInput, AmountOut(current, m, liquidity, zeroForOne));
    YieldsIff(remaining, feeRate, feeOnInput, AmountOut(current, target, liquidity, zeroForOne) - 1);
    NextStaysIff(current, target, m, liquidity, budget, zeroForOne);
  }

  lemma YieldsIff(remaining: nat, feeRate: nat, feeOnInput: bool, amount: int)
    requires Budget(remaining, feeRate, false, feeOnInput).Some?
    ensures Budget(remaining, feeRate, false, feeOnInput).value <= amount
            <==> Yields(remaining, feeRate, feeOnInput, amount)
  {
    if !feeOnInput { CeilIff(remaining * FEE_RATE_DENOMINATOR, FEE_RATE_DENOMINATOR - feeRate, amount); }
  }

  lemma NextStaysIff(current: nat, target: nat, m: nat, liquidity: nat, budget: nat, zeroForOne: bool)
    requires Directed(current, m, zeroForOne) && Directed(m, target, zeroForOne) && m != target
    ensures Directed(NextPrice(current, target, liquidity, budget, false, zeroForOne), m, zeroForOne)
            <==> budget <= AmountOut(current, m, liquidity, zeroForOne)
                 && budget <= AmountOut(current, target, liquidity, zeroForOne) - 1
  {
    NextPriceProperties(current, target, liquidity, budget, false, zeroForOne);
    if AmountOut(current, target, liquidity, zeroForOne) > budget {
      LiquidityPositive(current, target, liquidity, zeroForOne);
      if zeroForOne {
        Out1StaysIff(current, m, liquidity, budget);
      } else {
        Out0StaysIff(current, target, liquidity, budget);
        Out0StaysIff(current, m, liquidity, budget);
      }
    }
  }

  /** An exact input fails exactly if it pays for some range, up to the target, that holds more than 64 bits. */
  lemma InputFailsIff(current: nat, target: nat, liquidity: nat, remaining: u64, feeRate: nat, zeroForOne: bool,
      feeOnInput: bool)
    requires Directed(current, target, zeroForOne) && feeRate < FEE_RATE_DENOMINATOR
    ensures Step(current, target, liquidity, remaining, feeRate, true, zeroForOne, feeOnInput).None?
            <==> exists m: nat :: Overpays(current, target, m, liquidity, remaining, feeRate, zeroForOne, feeOnInput)
  {
    hide AmountIn, AmountOut, NextPrice;
    var budget := Budget(remaining, feeRate, true, feeOnInput).value;
    BudgetWithin(remaining, feeRate, true, feeOnInput);
    NextPriceProperties(current, target, liquidity, budget, true, zeroForOne);
    var next := NextPrice(current, target, liquidity, budget, true, zeroForOne);
    var amountIn := AmountIn(current, next, liquidity, zeroForOne);
    AffordsIff(remaining, feeRate, feeOnInput, amountIn);
    InputSucceeds(next, next == target, amountIn, AmountOut(current, next, liquidity, zeroForOne), remaining, feeRate,
        feeOnInput);
    if AmountOut(current, next, liquidity, zeroForOne) > U64_MAX {
      assert Overpays(current, target, next, liquidity, remaining, feeRate, zeroForOne, feeOnInput);
    } else {
      forall m: nat
        ensures !Overpays(current, target, m, liquidity, remaining, feeRate, zeroForOne, feeOnInput)
      {
        if Overpays(current, target, m, liquidity, remaining, feeRate, zeroForOne, feeOnInput) {
          AffordsIff(remaining, feeRate, feeOnInput, AmountIn(current, m, liquidity, zeroForOne));
          NextReachesIff(current, target, m, liquidity, budget, zeroForOne);
          OutGrows(current, m, next, liquidity, zeroForOne);
        }
      }
    }
  }

  predicate Overpays(current: nat, target: nat, m: nat, liquidity: nat, remaining: nat, feeRate: nat, zeroForOne: bool,
      feeOnInput: bool)
  {
    && Directed(current, m, zeroForOne) && Directed(m, target, zeroForOne)
    && Affords(remaining, feeRate, feeOnInput, AmountIn(current, m, liquidity, zeroForOne))
    && AmountOut(current, m, liquidity, zeroForOne) > U64_MAX
  }

  lemma InputSucceeds(next: nat, reached: bool, amountIn: nat, gross: nat, remaining: u64, feeRate: nat,
      feeOnInput: bool)
    requires feeRate < FEE_RATE_DENOMINATOR
    requires amountIn <= Budget(remaining, feeRate, true, feeOnInput).value <= remaining
    ensures Charge(next, reached, amountIn, gross, remaining, feeRate, true, feeOnInput).Some?
  {
    if feeOnInput {
      FeeWithinRemainder(amountIn, remaining, feeRate);
    } else {
      MulLe(0, gross, feeRate);
      MulLe(feeRate, FEE_RATE_DENOMINATOR, gross);
      CeilIff(gross * feeRate, FEE_RATE_DENOMINATOR, gross);
    }
  }

  lemma OutGrows(current: nat, m: nat, next: nat, liquidity: nat, zeroForOne: bool)
    requires Directed(current, m, zeroForOne) && Directed(m, next, zeroForOne)
    ensures AmountOut(current, m, liquidity, zeroForOne) <= AmountOut(current, next, liquidity, zeroForOne)
  {
    RangesCompose(current, m, next, liquidity, zeroForOne);
  }

  /** An exact output succeeds whenever the grossed-up request, the output of the range, and its input with the fee
      fit 64 bits. */
  lemma OutputSucceeds(current: nat, target: nat, liquidity: nat, remaining: u64, feeRate: nat, zeroForOne: bool,
      feeOnInput: bool)
    requires Directed(current, target, zeroForOne) && feeRate < FEE_RATE_DENOMINATOR
    requires Yields(remaining, feeRate, feeOnInput, U64_MAX)
    requires AmountOut(current, target, liquidity, zeroForOne) <= U64_MAX
    requires Affords(U64_MAX, feeRate, true, AmountIn(current, target, liquidity, zeroForOne))
    ensures Step(current, target, liquidity, remaining, feeRate, false, zeroForOne, feeOnInput).Some?
  {
    hide AmountIn, AmountOut, NextPrice, Affords, Yields;
    GrossUpFits(remaining, feeRate, feeOnInput);
    var budget := Budget(remaining, feeRate, false, feeOnInput).value;
    BudgetWithin(remaining, feeRate, false, feeOnInput);
    NextPriceProperties(current, target, liquidity, budget, false, zeroForOne);
    var next := NextPrice(current, target, liquidity, budget, false, zeroForOne);
    OutGrows(current, next, target, liquidity, zeroForOne);
    InGrows(current, next, target, liquidity, zeroForOne);
    FeeFits(AmountIn(current, next, liquidity, zeroForOne), AmountIn(current, target, liquidity, zeroForOne), feeRate);
    OutputCharges(next, next == target, AmountIn(current, next, liquidity, zeroForOne),
        GrossOut(current, target, next, liquidity, false, zeroForOne), remaining, feeRate, feeOnInput);
  }

  lemma GrossUpFits(remaining: u64, feeRate: nat, feeOnInput: bool)
    requires feeRate < FEE_RATE_DENOMINATOR && Yields(remaining, feeRate, feeOnInput, U64_MAX)
    ensures Budget(remaining, feeRate, false, feeOnInput).Some?
  {
    if !feeOnInput { CeilIff(remaining * FEE_RATE_DENOMINATOR, FEE_RATE_DENOMINATOR - feeRate, U64_MAX); }
  }

  lemma InGrows(current: nat, m: nat, next: nat, liquidity: nat, zeroForOne: bool)
    requires Directed(current, m, zeroForOne) && Directed(m, next, zeroForOne)
    ensures AmountIn(current, m, liquidity, zeroForOne) <= AmountIn(current, next, liquidity, zeroForOne)
  {
    var k := AmountIn(current, next, liquidity, zeroForOne);
    NextReachesIff(current, next, m, liquidity, k, zeroForOne);
    NextReachesIff(current, next, next, liquidity, k, zeroForOne);
  }

  lemma FeeFits(amountIn: nat, most: nat, feeRate: nat)
    requires amountIn <= most && feeRate < FEE_RATE_DENOMINATOR && Affords(U64_MAX, feeRate, true, most)
    ensures 0 <= amountIn * feeRate
    ensures amountIn + CeilDiv(amountIn * feeRate, FEE_RATE_DENOMINATOR - feeRate) <= U64_MAX
  {
    AffordsIff(U64_MAX, feeRate, true, most);
    FeeWithinRemainder(amountIn, U64_MAX, feeRate);
  }

  lemma OutputCharges(next: nat, reached: bool, amountIn: nat, gross: nat, remaining: u64, feeRate: nat,
      feeOnInput: bool)
    requires feeRate < FEE_RATE_DENOMINATOR && 0 <= amountIn * feeRate
    requires amountIn + CeilDiv(amountIn * feeRate, FEE_RATE_DENOMINATOR - feeRate) <= U64_MAX
    ensures Charge(next, reached, amountIn, gross, remaining, feeRate, false, feeOnInput).Some?
  {
    if !feeOnInput {
      MulLe(0, gross, feeRate);
      MulLe(feeRate, FEE_RATE_DENOMINATOR, gross);
      CeilIff(gross * feeRate, FEE_RATE_DENOMINATOR, gross);
    }
  }

  // ---- Where the program's own expectations stop holding ----

  /** What a division of a by d lacks to come out even, rounded up. */
  function Lacking(a: nat, d: nat): nat
    requires d > 0
  {
    (d - a % d) % d
  }

  lemma CeilLacks(a: nat, d: nat)
    requires d > 0
    ensures CeilDiv(a, d) * d == a + Lacking(a, d)
  {
    hide CeilDiv;
    DivBounds(a, d);
    DivRoundingUp(a, d);
    Expand(a / d, d);
    RestOf(a % d, d);
  }

  lemma RestOf(r: nat, d: nat)
    requires r < d
    ensures (d - r) % d == if r == 0 then 0 else d - r
  {
    DivUnique(d - r, d, if r == 0 then 1 else 0, if r == 0 then 0 else d - r);
  }

  lemma DivUnique(x: nat, d: nat, q: nat, r: nat)
    requires r < d && x == q * d + r
    ensures x % d == r
  {
    FloorIff(x, d, q);
    FloorIff(x, d, q + 1);
    Expand(q, d);
    DivBounds(x, d);
  }

  /** The rounding slack that decides whether an exact input is charged in full, from the arguments of
      the call: what the division for the next price lacks, or leaves over. */
  predicate InputFullyCharged(current: nat, liquidity: nat, amount: nat, zeroForOne: bool)
    requires current > 0 && liquidity > 0
  {
    if zeroForOne then
      var n := liquidity * Q64;
      var d := n + amount * current;
      MulLe(0, amount, current);
      Lacking(n * current, d) * (d - current) < n * current * current
    else (amount * Q64) % liquidity < Q64
  }

  /** n p / d rounded up, times d - p, stays below n p exactly when the slack is small. */
  lemma SlackIff(n: int, p: int, d: int, next: int, slack: int)
    requires 0 < d && next * d == n * p + slack
    ensures next * (d - p) < n * p <==> slack * (d - p) < n * p * p
  {
    var np, g := n * p, d - p;
    Rotate(next, g, d);
    SlackForms(np, p, d, g, next * d, slack);
    var x := next * g;
    assert x * d == next * d * g;
    if x < np { MulLt(x, np, d); } else { MulLe(np, x, d); }
  }

  lemma SlackForms(np: int, p: int, d: int, g: int, nd: int, slack: int)
    requires g == d - p && nd == np + slack
    ensures nd * g == np * d - np * p + slack * g
  {
    Distribute(g, np, slack);
    Distribute(np, d, p);
  }

  lemma NotFullyCharged0(current: nat, liquidity: nat, amount: nat, next: nat)
    requires current > 0 && liquidity > 0 && amount > 0 && 0 < next <= current
    requires next == PriceAfterIn0(current, liquidity, amount)
    ensures In0(next, current, liquidity) <= amount - 1 <==> !InputFullyCharged(current, liquidity, amount, true)
  {
    var n, spent := liquidity * Q64, amount * current;
    var d := n + spent;
    MulLe(0, amount, current);
    MulLe(0, n, current);
    In0Iff(next, current, liquidity, amount - 1);
    CeilLacks(n * current, d);
    SlackIff(n, current, d, next, Lacking(n * current, d));
    hide In0, Lacking;
    ChargedForms(n, current, amount, d, next);
  }

  lemma ChargedForms(n: int, current: int, amount: int, d: int, next: int)
    requires d == n + amount * current
    ensures n * (current - next) <= (amount - 1) * next * current <==> n * current <= next * (d - current)
  {
    Distribute(n, current, next);
    Expand(amount, current);
    assert d - current == n + (amount - 1) * current;
    Distribute(next, n, (amount - 1) * current);
    Rotate(amount - 1, next, current);
    Rotate(next, amount - 1, current);
  }

  lemma NotFullyCharged1(current: nat, liquidity: nat, amount: nat, next: nat)
    requires current > 0 && liquidity > 0 && amount > 0 && current <= next
    requires next == PriceAfterIn1(current, liquidity, amount)
    ensures In1(current, next, liquidity) <= amount - 1 <==> !InputFullyCharged(current, liquidity, amount, false)
  {
    In1Iff(current, next, liquidity, amount - 1);
    DivBounds(amount * Q64, liquidity);
    var moved := amount * Q64 / liquidity;
    assert liquidity * (next - current) == moved * liquidity;
  }

  /** With the fee on the output the source's tests expect an exact input that cannot pay for the whole
      range to be charged in full. That holds exactly when the rounding slack is small. */
  lemma InputChargedInFullIff(current: nat, target: nat, liquidity: nat, remaining: nat, feeRate: nat, zeroForOne: bool)
    requires Directed(current, target, zeroForOne) && 0 < remaining < AmountIn(current, target, liquidity, zeroForOne)
    requires Step(current, target, liquidity, remaining, feeRate, true, zeroForOne, false).Some?
    ensures liquidity > 0
    ensures var s := Step(current, target, liquidity, remaining, feeRate, true, zeroForOne, false).value;
            s.sqrtPriceNext != target && (s.amountIn == remaining
                <==> InputFullyCharged(current, liquidity, remaining, zeroForOne))
  {
    hide In0, In1, Out0, Out1, InputFullyCharged, PriceAfterIn0, PriceAfterIn1;
    var next := NextPrice(current, target, liquidity, remaining, true, zeroForOne);
    NextPriceProperties(current, target, liquidity, remaining, true, zeroForOne);
    ChargeKeepsInput(current, target, liquidity, remaining, feeRate, zeroForOne);
    if zeroForOne {
      NotFullyCharged0(current, liquidity, remaining, next);
    } else {
      NotFullyCharged1(current, liquidity, remaining, next);
    }
  }

  lemma ChargeKeepsInput(current: nat, target: nat, liquidity: nat, remaining: nat, feeRate: nat, zeroForOne: bool)
    requires Directed(current, target, zeroForOne)
    requires Step(current, target, liquidity, remaining, feeRate, true, zeroForOne, false).Some?
    ensures var next := NextPrice(current, target, liquidity, remaining, true, zeroForOne);
            var s := Step(current, target, liquidity, remaining, feeRate, true, zeroForOne, false).value;
            s.sqrtPriceNext == next && Directed(current, next, zeroForOne)
                && s.amountIn == AmountIn(current, next, liquidity, zeroForOne)
  {
    hide NextPrice, AmountIn, GrossOut;
    NextPriceProperties(current, target, liquidity, remaining, true, zeroForOne);
  }

  /** A concrete input charged nothing at all: one token into a pool with liquidity above 2^64
      moves neither the price nor the amounts, so the loop that called it makes no progress. */
  lemma InputNotCharged()
    ensures Step(Q64, 2 * Q64, 2 * Q64, 1, 0, true, false, false)
            == Some(SwapComputationResult(Q64, 0, 0, 0))
  {
    In1Iff(Q64, 2 * Q64, 2 * Q64, 1);
    NextPriceProperties(Q64, 2 * Q64, 2 * Q64, 1, true, false);
    assert PriceAfterIn1(Q64, 2 * Q64, 1) == Q64;
    In1Iff(Q64, Q64, 2 * Q64, 0);
    Out0Iff(Q64, Q64, 2 * Q64, 1);
  }

  /** Known before the call: the range holds more than a 64-bit amount, and rounding the price the
      budget moves to carries it onto the target. */
  predicate OutputDropped(current: nat, target: nat, liquidity: nat, budget: nat, zeroForOne: bool)
    requires Directed(current, target, zeroForOne)
  {
    var range := AmountOut(current, target, liquidity, zeroForOne);
    if range <= U64_MAX || range <= budget then false
    else
      LiquidityPositive(current, target, liquidity, zeroForOne);
      if zeroForOne then
        Out1StaysIff(current, target, liquidity, budget);
        PriceAfterOut1(current, liquidity, budget) == target
      else
        Out0StaysIff(current, target, liquidity, budget);
        PriceAfterOut0(current, liquidity, budget) == target
  }

  /** An exact-output step ends on its target without paying what the range holds (up to the request,
      when the fee is on the input; net and fee together, when it is on the output) exactly in that
      case, and then it pays nothing at all. */
  lemma ReachedOutputIff(current: nat, target: nat, liquidity: nat, remaining: u64, feeRate: nat, zeroForOne: bool,
      feeOnInput: bool)
    requires Directed(current, target, zeroForOne) && remaining > 0
    requires Step(current, target, liquidity, remaining, feeRate, false, zeroForOne, feeOnInput).Some?
    ensures var s := Step(current, target, liquidity, remaining, feeRate, false, zeroForOne, feeOnInput).value;
            var range := AmountOut(current, target, liquidity, zeroForOne);
            var budget := Budget(remaining, feeRate, false, feeOnInput).value;
            var paid := if feeOnInput then s.amountOut else s.amountOut + s.feeAmount;
            && (OutputDropped(current, target, liquidity, budget, zeroForOne)
                <==> s.sqrtPriceNext == target && paid != if feeOnInput then Min(range, remaining) else range)
            && (OutputDropped(current, target, liquidity, budget, zeroForOne) ==> paid == 0)
  {
    var budget := Budget(remaining, feeRate, false, feeOnInput).value;
    BudgetIsU64(remaining, feeRate, feeOnInput);
    BudgetWithin(remaining, feeRate, false, feeOnInput);
    NextPriceProperties(current, target, liquidity, budget, false, zeroForOne);
    DroppedIs(current, target, liquidity, budget, zeroForOne);
    hide NextPrice, OutputDropped, AmountIn, AmountOut, Budget;
    ChargePaysGross(current, target, liquidity, remaining, feeRate, zeroForOne, feeOnInput);
  }

  lemma BudgetIsU64(remaining: u64, feeRate: nat, feeOnInput: bool)
    requires Budget(remaining, feeRate, false, feeOnInput).Some?
    ensures Budget(remaining, feeRate, false, feeOnInput).value <= U64_MAX
  {}

  lemma DroppedIs(current: nat, target: nat, liquidity: nat, budget: nat, zeroForOne: bool)
    requires Directed(current, target, zeroForOne) && budget <= U64_MAX
    ensures OutputDropped(current, target, liquidity, budget, zeroForOne) <==>
              && AmountOut(current, target, liquidity, zeroForOne) > U64_MAX
              && NextPrice(current, target, liquidity, budget, false, zeroForOne) == target
  {
    hide AmountOut, PriceAfterOut0, PriceAfterOut1;
  }

  lemma ChargePaysGross(current: nat, target: nat, liquidity: nat, remaining: nat, feeRate: nat, zeroForOne: bool,
      feeOnInput: bool)
    requires Directed(current, target, zeroForOne)
    requires Step(current, target, liquidity, remaining, feeRate, false, zeroForOne, feeOnInput).Some?
    ensures Budget(remaining, feeRate, false, feeOnInput).Some?
    ensures var budget := Budget(remaining, feeRate, false, feeOnInput).value;
            var next := NextPrice(current, target, liquidity, budget, false, zeroForOne);
            var s := Step(current, target, liquidity, remaining, feeRate, false, zeroForOne, feeOnInput).value;
            && Directed(current, next, zeroForOne) && s.sqrtPriceNext == next
            && var gross := GrossOut(current, target, next, liquidity, false, zeroForOne);
               if feeOnInput then s.amountOut == Min(gross, remaining) else s.amountOut + s.feeAmount == gross
  {
    hide NextPrice, AmountIn, GrossOut, Budget;
    NextPriceProperties(current, target, liquidity, Budget(remaining, feeRate, false, feeOnInput).value, false,
        zeroForOne);
  }

  /** The failing family is inhabited in both fee modes: rounding carries the price onto the target
      although the range holds 2^64 tokens, and the step pays nothing for a price move it charges for. */
  lemma ReachedOutputDropped(feeOnInput: bool)
    ensures var half := 0x8000_0000_0000_0000;
            var target := half * Q64 / 0x1_0000_0000;
            var s := Step(target + 2, target, half * Q64, half + 1, 0, false, true, feeOnInput);
            s.Some? && s.value.sqrtPriceNext == target && s.value.amountOut == 0 && s.value.amountIn > 0
                && s.value.feeAmount == 0
  {
    var half := 0x8000_0000_0000_0000;
    var target := half * Q64 / 0x1_0000_0000;
    Out1Iff(target, target + 2, half * Q64, Q64);
    Out1StaysIff(target + 2, target, half * Q64, half + 1);
    CeilIff((half + 1) * Q64, half * Q64, 1);
    CeilIff((half + 1) * Q64, half * Q64, 2);
    In0Iff(target, target + 2, half * Q64, 0);
    In0Iff(target, target + 2, half * Q64, U64_MAX);
    CeilIff((half + 1) * FEE_RATE_DENOMINATOR, FEE_RATE_DENOMINATOR, half + 1);
    CeilIff((half + 1) * FEE_RATE_DENOMINATOR, FEE_RATE_DENOMINATOR, half);
    CeilIff(0, FEE_RATE_DENOMINATOR, 0);
  }

  // ---- Ranges compose ----

  /** Paying for two adjoining ranges costs at least the whole; being paid for them never
      yields more than the whole. */
  lemma RangesCompose(a: nat, m: nat, b: nat, liquidity: nat, zeroForOne: bool)
    requires Directed(a, m, zeroForOne) && Directed(m, b, zeroForOne)
    ensures Directed(a, b, zeroForOne)
    ensures AmountIn(a, b, liquidity, zeroForOne)
            <= AmountIn(a, m, liquidity, zeroForOne) + AmountIn(m, b, liquidity, zeroForOne)
    ensures AmountOut(a, m, liquidity, zeroForOne) + AmountOut(m, b, liquidity, zeroForOne)
            <= AmountOut(a, b, liquidity, zeroForOne)
  {
    var n := liquidity * Q64;
    if zeroForOne {
      var x, y := In0(m, a, liquidity), In0(b, m, liquidity);
      In0Iff(m, a, liquidity, x);
      In0Iff(b, m, liquidity, y);
      Telescope0(b, m, a, n, x, y);
      In0Iff(b, a, liquidity, x + y);
      var g, h := Out1(m, a, liquidity), Out1(b, m, liquidity);
      Out1Iff(m, a, liquidity, g);
      Out1Iff(b, m, liquidity, h);
      Distribute(liquidity, a, m);
      Distribute(liquidity, m, b);
      Distribute(liquidity, a, b);
      Out1Iff(b, a, liquidity, g + h);
    } else {
      var x, y := In1(a, m, liquidity), In1(m, b, liquidity);
      In1Iff(a, m, liquidity, x);
      In1Iff(m, b, liquidity, y);
      Distribute(liquidity, m, a);
      Distribute(liquidity, b, m);
      Distribute(liquidity, b, a);
      In1Iff(a, b, liquidity, x + y);
      var g, h := Out0(a, m, liquidity), Out0(m, b, liquidity);
      Out0Iff(a, m, liquidity, g);
      Out0Iff(m, b, liquidity, h);
      TelescopeOut0(a, m, b, n, g, h);
      Out0Iff(a, b, liquidity, g + h);
    }
  }

  /** n(hi-mid) <= y*mid*hi and n(mid-lo) <= x*lo*mid add up across the middle price. */
  lemma Telescope0(lo: nat, mid: nat, hi: nat, n: nat, x: nat, y: nat)
    requires 0 < lo <= mid <= hi
    requires n * (hi - mid) <= x * mid * hi
    requires n * (mid - lo) <= y * lo * mid
    ensures n * (hi - lo) <= (x + y) * lo * hi
  {
    MulLe(n * (hi - mid), x * mid * hi, lo);
    MulLe(n * (mid - lo), y * lo * mid, hi);
    assert n * (hi - mid) * lo + n * (mid - lo) * hi == n * (hi - lo) * mid by { MidIdentity(lo, mid, hi, n); }
    assert x * mid * hi * lo + y * lo * mid * hi == (x + y) * lo * hi * mid by { SumIdentity(lo, mid, hi, x, y); }
    MulCancelLe(n * (hi - lo), (x + y) * lo * hi, mid);
  }

  lemma TelescopeOut0(lo: nat, mid: nat, hi: nat, n: nat, x: nat, y: nat)
    requires 0 < lo <= mid <= hi
    requires x * lo * mid <= n * (mid - lo)
    requires y * mid * hi <= n * (hi - mid)
    ensures (x + y) * lo * hi <= n * (hi - lo)
  {
    MulLe(x * lo * mid, n * (mid - lo), hi);
    MulLe(y * mid * hi, n * (hi - mid), lo);
    assert n * (hi - mid) * lo + n * (mid - lo) * hi == n * (hi - lo) * mid by { MidIdentity(lo, mid, hi, n); }
    assert y * mid * hi * lo + x * lo * mid * hi == (y + x) * lo * hi * mid by { SumIdentity(lo, mid, hi, y, x); }
    MulCancelLe((x + y) * lo * hi, n * (hi - lo), mid);
  }

  lemma MidIdentity(lo: int, mid: int, hi: int, n: int)
    ensures n * (hi - mid) * lo + n * (mid - lo) * hi == n * (hi - lo) * mid
  {
    Rotate(n, hi - mid, lo);
    Rotate(n, mid - lo, hi);
    Rotate(n, hi - lo, mid);
    assert (hi - mid) * lo + (mid - lo) * hi == (hi - lo) * mid;
    Distribute(n, (hi - mid) * lo, (mid - lo) * hi);
  }

  lemma SumIdentity(lo: int, mid: int, hi: int, x: int, y: int)
    ensures x * mid * hi * lo + y * lo * mid * hi == (x + y) * lo * hi * mid
  {
    var p := lo * hi * mid;
    assert x * mid * hi * lo == x * p
        by { Rotate(x * mid, hi, lo); Rotate(x, mid, hi * lo); assert mid * (hi * lo) == p; }
    assert y * lo * mid * hi == y * p by { Rotate(y * lo, mid, hi); Rotate(y, lo, mid * hi); Rotate(lo, hi, mid); }
    assert (x + y) * lo * hi * mid == (x + y) * p
        by { Rotate((x + y) * lo, hi, mid); Rotate(x + y, lo, hi * mid); Rotate(lo, hi, mid); }
    Distribute(p, x, y);
  }

  // ---- Splitting an exact-input swap ----

  /** The price an exact input of `amount` reaches from `current`. */
  function ReachedPrice(current: nat, target: nat, liquidity: nat, amount: nat, feeRate: nat, zeroForOne: bool,
      feeOnInput: bool): (r: nat)
    requires Directed(current, target, zeroForOne) && feeRate <= FEE_RATE_DENOMINATOR
    ensures Directed(current, r, zeroForOne) && Directed(r, target, zeroForOne)
  {
    var budget := Budget(amount, feeRate, true, feeOnInput).value;
    NextPriceProperties(current, target, liquidity, budget, true, zeroForOne);
    NextPrice(current, target, liquidity, budget, true, zeroForOne)
  }

  function OneShotGross(current: nat, target: nat, liquidity: nat, amount: nat, feeRate: nat, zeroForOne: bool,
      feeOnInput: bool): nat
    requires Directed(current, target, zeroForOne) && feeRate <= FEE_RATE_DENOMINATOR
  {
    AmountOut(current, ReachedPrice(current, target, liquidity, amount, feeRate, zeroForOne, feeOnInput), liquidity,
        zeroForOne)
  }

  lemma BudgetSuperadditive(x: nat, y: nat, feeRate: nat, feeOnInput: bool)
    requires feeRate <= FEE_RATE_DENOMINATOR
    ensures Budget(x, feeRate, true, feeOnInput).value + Budget(y, feeRate, true, feeOnInput).value
            <= Budget(x + y, feeRate, true, feeOnInput).value
  {
    if feeOnInput {
      var keep := FEE_RATE_DENOMINATOR - feeRate;
      MulLe(0, x, keep);
      MulLe(0, y, keep);
      Distribute(keep, x, y);
      FloorSuperadditive(x * keep, y * keep, FEE_RATE_DENOMINATOR);
    }
  }

  /** A budget that pays for the range up to `m` carries the price to `m` or beyond. */
  lemma BudgetReaches(current: nat, m: nat, target: nat, liquidity: nat, budget: nat, zeroForOne: bool)
    requires Directed(current, m, zeroForOne) && Directed(m, target, zeroForOne)
    requires AmountIn(current, m, liquidity, zeroForOne) <= budget
    ensures Directed(current, target, zeroForOne)
    ensures Directed(m, NextPrice(current, target, liquidity, budget, true, zeroForOne), zeroForOne)
  {
    if liquidity > 0 {
      if zeroForOne {
        In0ReachesIff(current, m, liquidity, budget);
      } else {
        In1ReachesIff(current, m, liquidity, budget);
      }
    }
  }

  lemma SplitInTwo(current: nat, target: nat, liquidity: nat, x: nat, y: nat, feeRate: nat, zeroForOne: bool,
      feeOnInput: bool)
    requires Directed(current, target, zeroForOne) && feeRate <= FEE_RATE_DENOMINATOR
    ensures var m := ReachedPrice(current, target, liquidity, x, feeRate, zeroForOne, feeOnInput);
            OneShotGross(current, target, liquidity, x, feeRate, zeroForOne, feeOnInput)
            + OneShotGross(m, target, liquidity, y, feeRate, zeroForOne, feeOnInput)
            <= OneShotGross(current, target, liquidity, x + y, feeRate, zeroForOne, feeOnInput)
  {
    var bx, bY := Budget(x, feeRate, true, feeOnInput).value, Budget(y, feeRate, true, feeOnInput).value;
    var bxy := Budget(x + y, feeRate, true, feeOnInput).value;
    var m := ReachedPrice(current, target, liquidity, x, feeRate, zeroForOne, feeOnInput);
    var e := ReachedPrice(m, target, liquidity, y, feeRate, zeroForOne, feeOnInput);
    NextPriceProperties(current, target, liquidity, bx, true, zeroForOne);
    NextPriceProperties(m, target, liquidity, bY, true, zeroForOne);
    RangesCompose(current, m, e, liquidity, zeroForOne);
    BudgetSuperadditive(x, y, feeRate, feeOnInput);
    BudgetReaches(current, e, target, liquidity, bxy, zeroForOne);
    var one := ReachedPrice(current, target, liquidity, x + y, feeRate, zeroForOne, feeOnInput);
    RangesCompose(current, e, one, liquidity, zeroForOne);
  }

  function Sum(pieces: seq<nat>): nat {
    if pieces == [] then 0 else pieces[0] + Sum(pieces[1..])
  }

  /** Gross and net output of running the pieces one after the other; `None` if a step fails. */
  function SplitRun(current: nat, target: nat, liquidity: nat, pieces: seq<nat>, feeRate: nat, zeroForOne: bool,
      feeOnInput: bool)
    : Option<(nat, nat)>
    requires Directed(current, target, zeroForOne)
    decreases |pieces|
  {
    if pieces == [] then Some((0, 0))
    else
      match Step(current, target, liquidity, pieces[0], feeRate, true, zeroForOne, feeOnInput)
      case None => None
      case Some(s) =>
        match SplitRun(s.sqrtPriceNext, target, liquidity, pieces[1..], feeRate, zeroForOne, feeOnInput)
        case None => None
        case Some(rest) => Some((s.amountOut + (if feeOnInput then 0 else s.feeAmount) + rest.0, s.amountOut + rest.1))
  }

  function NetOfFee(gross: nat, feeRate: nat, feeOnInput: bool): nat
    requires feeRate <= FEE_RATE_DENOMINATOR
  {
    MulLe(0, gross, FEE_RATE_DENOMINATOR - feeRate);
    if feeOnInput then gross else gross * (FEE_RATE_DENOMINATOR - feeRate) / FEE_RATE_DENOMINATOR
  }

  lemma StepIsOneShot(current: nat, target: nat, liquidity: nat, amount: nat, feeRate: nat, zeroForOne: bool,
      feeOnInput: bool)
    requires Directed(current, target, zeroForOne) && feeRate <= FEE_RATE_DENOMINATOR
    requires Step(current, target, liquidity, amount, feeRate, true, zeroForOne, feeOnInput).Some?
    ensures var s := Step(current, target, liquidity, amount, feeRate, true, zeroForOne, feeOnInput).value;
            var gross := OneShotGross(current, target, liquidity, amount, feeRate, zeroForOne, feeOnInput);
            && s.sqrtPriceNext == ReachedPrice(current, target, liquidity, amount, feeRate, zeroForOne, feeOnInput)
            && s.amountOut + (if feeOnInput then 0 else s.feeAmount) == gross
            && s.amountOut == NetOfFee(gross, feeRate, feeOnInput)
  {
    var gross := OneShotGross(current, target, liquidity, amount, feeRate, zeroForOne, feeOnInput);
    CeilFloorComplement(gross, feeRate, FEE_RATE_DENOMINATOR);
  }

  lemma NetOfFeeSuperadditive(x: nat, y: nat, z: nat, feeRate: nat, feeOnInput: bool)
    requires feeRate <= FEE_RATE_DENOMINATOR && x + y <= z
    ensures NetOfFee(x, feeRate, feeOnInput) + NetOfFee(y, feeRate, feeOnInput) <= NetOfFee(z, feeRate, feeOnInput)
  {
    var keep := FEE_RATE_DENOMINATOR - feeRate;
    MulLe(0, x, keep);
    MulLe(0, y, keep);
    Distribute(keep, x, y);
    MulLe(x + y, z, keep);
    FloorSuperadditive(x * keep, y * keep, FEE_RATE_DENOMINATOR);
    FloorMono((x + y) * keep, z * keep, FEE_RATE_DENOMINATOR);
  }

  /** Splitting an exact input into any number of pieces never yields more, gross or net. */
  lemma {:induction false} SplittingNeverGains(current: nat, target: nat, liquidity: nat, pieces: seq<nat>,
      feeRate: nat, zeroForOne: bool, feeOnInput: bool)
    requires Directed(current, target, zeroForOne) && feeRate <= FEE_RATE_DENOMINATOR
    requires SplitRun(current, target, liquidity, pieces, feeRate, zeroForOne, feeOnInput).Some?
    ensures var split := SplitRun(current, target, liquidity, pieces, feeRate, zeroForOne, feeOnInput).value;
            var gross := OneShotGross(current, target, liquidity, Sum(pieces), feeRate, zeroForOne, feeOnInput);
            split.0 <= gross && split.1 <= NetOfFee(gross, feeRate, feeOnInput)
    decreases |pieces|
  {
    if pieces != [] {
      var s := Step(current, target, liquidity, pieces[0], feeRate, true, zeroForOne, feeOnInput).value;
      StepIsOneShot(current, target, liquidity, pieces[0], feeRate, zeroForOne, feeOnInput);
      SplittingNeverGains(s.sqrtPriceNext, target, liquidity, pieces[1..], feeRate, zeroForOne, feeOnInput);
      SplitInTwo(current, target, liquidity, pieces[0], Sum(pieces[1..]), feeRate, zeroForOne, feeOnInput);
      NetOfFeeSuperadditive(
        OneShotGross(current, target, liquidity, pieces[0], feeRate, zeroForOne, feeOnInput),
        OneShotGross(s.sqrtPriceNext, target, liquidity, Sum(pieces[1..]), feeRate, zeroForOne, feeOnInput),
        OneShotGross(current, target, liquidity, Sum(pieces), feeRate, zeroForOne, feeOnInput), feeRate, feeOnInput);
    }
  }

  // ---- Any sequence of swaps at fixed liquidity ----

  /** One swap request; its target price is wherever the caller's limit or the next tick puts it. */
  datatype Swap = Swap(target: nat, remaining: nat, feeRate: nat, baseInput: bool, zeroForOne: bool, feeOnInput: bool)

  /** The pool price and the trader's net gain in each token since the start. */
  datatype Trader = Trader(price: nat, net0: int, net1: int)

  /** Fees on the input are paid on top; fees on the output are already deducted. */
  function Trade(t: Trader, liquidity: nat, s: Swap): Trader {
    if Directed(t.price, s.target, s.zeroForOne) then
      match Step(t.price, s.target, liquidity, s.remaining, s.feeRate, s.baseInput, s.zeroForOne, s.feeOnInput)
      case None => t
      case Some(r) =>
        var paid := r.amountIn + (if s.feeOnInput then r.feeAmount else 0);
        if s.zeroForOne then Trader(r.sqrtPriceNext, t.net0 - paid, t.net1 + r.amountOut)
        else Trader(r.sqrtPriceNext, t.net0 + r.amountOut, t.net1 - paid)
    else t
  }

  function Trades(t: Trader, liquidity: nat, swaps: seq<Swap>): Trader {
    if swaps == [] then t else Trade(Trades(t, liquidity, swaps[..|swaps| - 1]), liquidity, swaps[|swaps| - 1])
  }

  /** The virtual reserves the price curve assigns to each token. */
  function Reserve0(price: nat, liquidity: nat): real
    requires price > 0
  {
    (liquidity * Q64) as real / price as real
  }

  function Reserve1(price: nat, liquidity: nat): real {
    (liquidity * price) as real / Q64 as real
  }

  lemma StepAmountsBounded(current: nat, next: nat, liquidity: nat, zeroForOne: bool)
    requires Directed(current, next, zeroForOne)
    ensures zeroForOne ==>
              && Reserve0(next, liquidity) - Reserve0(current, liquidity)
                 <= AmountIn(current, next, liquidity, true) as real
              && AmountOut(current, next, liquidity, true) as real
                 <= Reserve1(current, liquidity) - Reserve1(next, liquidity)
    ensures !zeroForOne ==>
              && Reserve1(next, liquidity) - Reserve1(current, liquidity)
                 <= AmountIn(current, next, liquidity, false) as real
              && AmountOut(current, next, liquidity, false) as real
                 <= Reserve0(current, liquidity) - Reserve0(next, liquidity)
  {
    var n := liquidity * Q64;
    var i, o := AmountIn(current, next, liquidity, zeroForOne), AmountOut(current, next, liquidity, zeroForOne);
    if zeroForOne {
      In0Iff(next, current, liquidity, i);
      Fraction(n, next, current, i);
      Out1Iff(next, current, liquidity, o);
      Distribute(liquidity, current, next);
    } else {
      In1Iff(current, next, liquidity, i);
      Distribute(liquidity, next, current);
      Out0Iff(current, next, liquidity, o);
      Fraction(n, current, next, o);
    }
  }

  /** n/lo - n/hi compared with k, over the common denominator. */
  lemma Fraction(n: nat, lo: nat, hi: nat, k: nat)
    requires 0 < lo && 0 < hi
    ensures n * (hi - lo) <= k * lo * hi ==> n as real / lo as real - n as real / hi as real <= k as real
    ensures k * lo * hi <= n * (hi - lo) ==> k as real <= n as real / lo as real - n as real / hi as real
  {
    var d := n as real / lo as real - n as real / hi as real;
    var p := lo as real * hi as real;
    RealMulLt(0.0, lo as real, hi as real);
    CommonDenominator(n as real, lo as real, hi as real);
    assert d * p == (n * (hi - lo)) as real;
    assert k as real * p == (k * lo * hi) as real by { RealAssoc(k as real, lo as real, hi as real); }
    if n * (hi - lo) <= k * lo * hi { RealCancel(d, k as real, p); }
    if k * lo * hi <= n * (hi - lo) { RealCancel(k as real, d, p); }
  }

  lemma CommonDenominator(n: real, lo: real, hi: real)
    requires 0.0 < lo && 0.0 < hi
    ensures (n / lo - n / hi) * (lo * hi) == n * (hi - lo)
  {
    var x, y := n / lo, n / hi;
    assert x * lo == n && y * hi == n;
    RealAssoc(x, lo, hi);
    RealAssoc(y, hi, lo);
    assert (x - y) * (lo * hi) == x * (lo * hi) - y * (hi * lo);
  }

  lemma RealAssoc(x: real, y: real, z: real)
    ensures x * (y * z) == (x * y) * z
  {}

  lemma RealMulLt(x: real, y: real, p: real)
    requires p > 0.0 && x < y
    ensures x * p < y * p
  {}

  lemma RealCancel(x: real, y: real, p: real)
    requires p > 0.0 && x * p <= y * p
    ensures x <= y
  {
    if y < x { RealMulLt(y, x, p); }
  }

  /** In each token the trader's gain is bounded by what the curve's reserve gave up. */
  lemma {:induction false} TradesBoundedByReserves(price: nat, liquidity: nat, swaps: seq<Swap>)
    requires price > 0
    ensures var t := Trades(Trader(price, 0, 0), liquidity, swaps);
            && t.price > 0
            && t.net0 as real <= Reserve0(price, liquidity) - Reserve0(t.price, liquidity)
            && t.net1 as real <= Reserve1(price, liquidity) - Reserve1(t.price, liquidity)
  {
    if swaps != [] {
      TradesBoundedByReserves(price, liquidity, swaps[..|swaps| - 1]);
      var t, s := Trades(Trader(price, 0, 0), liquidity, swaps[..|swaps| - 1]), swaps[|swaps| - 1];
      if Directed(t.price, s.target, s.zeroForOne) {
        var r := Step(t.price, s.target, liquidity, s.remaining, s.feeRate, s.baseInput, s.zeroForOne, s.feeOnInput);
        if r.Some? {
          StepPaysTheCurve(t.price, s, liquidity);
          StepAmountsBounded(t.price, r.value.sqrtPriceNext, liquidity, s.zeroForOne);
        }
      }
    }
  }

  /** In every mode the step charges the range input and pays out at most the range output. */
  lemma StepPaysTheCurve(current: nat, s: Swap, liquidity: nat)
    requires Directed(current, s.target, s.zeroForOne)
    requires Step(current, s.target, liquidity, s.remaining, s.feeRate, s.baseInput, s.zeroForOne, s.feeOnInput).Some?
    ensures var r := Step(current, s.target, liquidity, s.remaining, s.feeRate, s.baseInput, s.zeroForOne,
            s.feeOnInput).value;
            && r.amountIn == AmountIn(current, r.sqrtPriceNext, liquidity, s.zeroForOne)
            && r.amountOut <= AmountOut(current, r.sqrtPriceNext, liquidity, s.zeroForOne)
  {}

  /** No free round trip, over whole runs: no sequence of swaps at fixed liquidity, in any mix
      of directions, modes and fee rates, leaves the trader ahead in one token without being
      behind in the other. */
  lemma NoFreeLunch(price: nat, liquidity: nat, swaps: seq<Swap>)
    requires price > 0
    ensures var t := Trades(Trader(price, 0, 0), liquidity, swaps);
            && (t.net1 >= 0 ==> t.net0 <= 0)
            && (t.net0 >= 0 ==> t.net1 <= 0)
  {
    TradesBoundedByReserves(price, liquidity, swaps);
    var t := Trades(Trader(price, 0, 0), liquidity, swaps);
    if t.price <= price {
      MulLe(t.price, price, liquidity * Q64);
      assert Reserve0(price, liquidity) <= Reserve0(t.price, liquidity) by { ReserveOrder(t.price, price, liquidity); }
      if t.price == price || liquidity == 0 {
        assert t.net1 <= 0 by { ReserveOrder(price, t.price, liquidity); }
      } else if t.net0 >= 0 {
        ReserveStrict(t.price, price, liquidity);
      }
    } else {
      MulLe(price, t.price, liquidity);
      assert t.net1 <= 0;
      if t.net1 >= 0 && liquidity > 0 {
        MulLt(price, t.price, liquidity);
      }
      if liquidity == 0 { ReserveOrder(t.price, price, 0); }
    }
  }

  lemma ReserveOrder(lo: nat, hi: nat, liquidity: nat)
    requires 0 < lo && 0 < hi && (lo <= hi || liquidity == 0)
    ensures Reserve0(hi, liquidity) <= Reserve0(lo, liquidity)
    ensures Reserve1(lo, liquidity) <= Reserve1(hi, liquidity)
  {
    var n := liquidity * Q64;
    MulLe(0, n, if lo <= hi then hi - lo else lo - hi);
    if liquidity == 0 { assert 0 * (hi - lo) == 0; assert 0 * lo * hi == 0; }
    Fraction(n, lo, hi, 0);
    if lo <= hi { MulLe(lo, hi, liquidity); }
  }

  lemma ReserveStrict(lo: nat, hi: nat, liquidity: nat)
    requires 0 < lo < hi && liquidity > 0
    ensures Reserve0(hi, liquidity) < Reserve0(lo, liquidity)
  {
    var n := liquidity * Q64;
    var x, y := Reserve0(lo, liquidity), Reserve0(hi, liquidity);
    assert x * lo as real == n as real && y * hi as real == n as real;
    assert (x - y) * lo as real == y * (hi as real - lo as real);
    RealMulLt(0.0, n as real, 1.0 / hi as real);
    RealMulLt(lo as real, hi as real, y);
    if x <= y && x != y { RealMulLt(x, y, lo as real); }
  }
}
