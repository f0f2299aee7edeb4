/** What a taker is charged and given when a swap matches the limit orders at a tick. */
module MatchTheorems {
  import opened Types
  import opened Arith
  import opened FullMath
  import opened LimitOrder

  const D: int := FEE_RATE_DENOMINATOR

  /** What `apply_swap_amounts` takes off the remaining amount; nothing when no input was used. */
  function Consumed(m: Match, baseInput: bool, feeOnInput: bool): nat {
    if m.amountIn == 0 then 0
    else if !baseInput then m.amountOut
    else if feeOnInput then m.amountIn + m.fee
    else m.amountIn
  }

  /** An input and its fee on top cost at most an amount iff the input fits what the fee within
      that amount leaves. */
  lemma FeeForms(input: nat, amount: nat, rate: nat)
    requires rate < D
    ensures 0 <= input * rate && 0 <= amount * rate
    ensures input + CeilDiv(input * rate, D - rate) <= amount <==> input <= amount - CeilDiv(amount * rate, D)
  {
    MulLe(0, input, rate);
    MulLe(0, amount, rate);
    CeilIff(input * rate, D - rate, amount - input);
    CeilIff(amount * rate, D, amount - input);
    Distribute(D - rate, amount, input);
    Distribute(D, amount, input);
    Distribute(amount, D, rate);
    Distribute(input, D, rate);
  }

  /** A taker who buys more than is available owes no more for what is than was offered. */
  lemma InWithinOffer(q: Quote, x: nat, available: nat)
    requires q.Valid() && available < q.TakerOut(x)
    ensures q.In(available) <= x
  {
    var u := available + 1;
    MulLe(0, x, q.floorPrice);
    MulLe(0, available, q.ceilPrice);
    if q.zeroForOne {
      FloorIff(x * Q64, q.ceilPrice, u);
      CeilIff(available * q.ceilPrice, Q64, x);
      Distribute(q.ceilPrice, available, 1);
    } else {
      FloorIff(x * q.floorPrice, Q64, u);
      CeilIff(available * Q64, q.floorPrice, x);
    }
  }

  /** Units cost at least one token. */
  lemma InPositive(q: Quote, x: nat)
    requires q.Valid() && x > 0
    ensures q.In(x) >= 1
  {
    MulLt(0, x, q.ceilPrice);
    if q.zeroForOne {
      CeilIff(x * q.ceilPrice, Q64, 0);
    } else {
      CeilIff(x * Q64, q.floorPrice, 0);
    }
  }

  /** Grossing a net output up and taking the fee off again gives it back. */
  lemma GrossUpRoundTrip(net: nat, rate: nat)
    requires rate < D
    ensures var gross := CeilDiv(net * D, D - rate);
            gross >= net && 0 <= gross * rate && gross - CeilDiv(gross * rate, D) == net
  {
    var gross := CeilDiv(net * D, D - rate);
    CeilIff(net * D, D - rate, net - 1);
    CeilIff(net * D, D - rate, gross);
    CeilIff(net * D, D - rate, gross - 1);
    MulLe(0, gross, rate);
    MulLe(0, net, rate);
    Distribute(net, D, rate);
    Distribute(gross, D, rate);
    Distribute(D, gross, net);
    Distribute(D - rate, gross, 1);
    CeilIff(gross * rate, D, gross - net);
    CeilIff(gross * rate, D, gross - net - 1);
    Distribute(D, gross - net, 1);
    Distribute(net - 1, D, rate);
    Distribute(D, net, 1);
    Distribute(rate, net, 1);
  }

  /** And a gross no larger leaves a net no larger. */
  lemma NetMonotone(gross: nat, gross': nat, rate: nat)
    requires rate < D && gross <= gross'
    ensures 0 <= gross * rate && 0 <= gross' * rate
    ensures gross - CeilDiv(gross * rate, D) <= gross' - CeilDiv(gross' * rate, D)
  {
    MulLe(0, gross, rate);
    MulLe(0, gross', rate);
    var f := CeilDiv(gross * rate, D);
    CeilIff(gross' * rate, D, gross' - gross + f);
    CeilIff(gross * rate, D, f);
    MulLe(rate, D, gross' - gross);
    Distribute(rate, gross', gross);
    Distribute(D, gross' - gross, f);
  }

  lemma InputMatch(available: nat, q: Quote, swapAmount: nat, rate: nat, feeOnInput: bool)
    requires q.Valid() && rate < D && 0 < available && 0 < swapAmount
    requires MatchInput(available, q, swapAmount, rate, feeOnInput).Ok?
    ensures var m := MatchInput(available, q, swapAmount, rate, feeOnInput).value;
            && 0 <= swapAmount * rate
            && m.1 <= available
            && m.0 + m.2 <= swapAmount
            && (m.0 + m.2 == swapAmount || m.1 == available)
            && (m.0 == 0 <==> feeOnInput && swapAmount <= CeilDiv(swapAmount * rate, D))
            && (m.0 == 0 ==> m.1 == 0)
            && (!feeOnInput ==> m.2 == 0)
  {
    hide Quote.In, Quote.TakerOut;
    MulLe(0, swapAmount, rate);
    var fee := if feeOnInput then CeilDiv(swapAmount * rate, D) else 0;
    NothingForNothing(q);
    if q.TakerOut(swapAmount - fee) > available {
      InWithinOffer(q, swapAmount - fee, available);
      InPositive(q, available);
      FeeForms(q.In(available), swapAmount, rate);
    }
  }

  lemma NothingForNothing(q: Quote)
    requires q.Valid()
    ensures q.TakerOut(0) == 0
  {}

  /** A match never costs more than the swap has left, so the subtraction from it never fails. */
  lemma MatchWithinInput(available: nat, q: Quote, swapAmount: nat, rate: nat, feeOnInput: bool)
    requires q.Valid() && rate < D
    requires MatchAmounts(available, q, swapAmount, true, rate, feeOnInput).Ok?
    ensures Consumed(MatchAmounts(available, q, swapAmount, true, rate, feeOnInput).value, true, feeOnInput)
            <= swapAmount
  {
    hide MatchInput;
    if 0 < available && 0 < swapAmount { InputMatch(available, q, swapAmount, rate, feeOnInput); }
  }

  lemma OutputMatch(available: nat, q: Quote, swapAmount: nat, rate: nat, feeOnInput: bool)
    requires q.Valid() && rate < D && 0 < available && 0 < swapAmount
    requires MatchAmounts(available, q, swapAmount, false, rate, feeOnInput).Ok?
    ensures var m := MatchAmounts(available, q, swapAmount, false, rate, feeOnInput).value;
            && m.amountIn > 0
            && m.amountOut <= swapAmount && m.gross <= available
            && (m.amountOut == swapAmount || m.gross == available)
  {
    hide Quote.In;
    var net := Min(swapAmount, available);
    GrossUpRoundTrip(net, rate);
    var gross := if feeOnInput then net else Min(CeilDiv(net * D, D - rate), available);
    NetMonotone(gross, CeilDiv(net * D, D - rate), rate);
    InPositive(q, gross);
  }

  /** An exact-output match never gives more than was asked for, and gives exactly that unless
      the orders run out, whichever side the fee is on. */
  lemma MatchWithinOutput(available: nat, q: Quote, swapAmount: nat, rate: nat, feeOnInput: bool)
    requires q.Valid() && rate < D
    requires MatchAmounts(available, q, swapAmount, false, rate, feeOnInput).Ok?
    ensures var m := MatchAmounts(available, q, swapAmount, false, rate, feeOnInput).value;
            && m.amountOut <= swapAmount
            && (m.amountOut < swapAmount ==> m.gross == available)
  {
    if 0 < available && 0 < swapAmount { OutputMatch(available, q, swapAmount, rate, feeOnInput); }
  }

  // ---- What a match charges and gives, exactly ----

  /** A fee on top of an amount is the least that pays the rate on the two together. */
  predicate LeastOnTop(fee: int, amount: nat, rate: nat) {
    (fee - 1) * (D - rate) < amount * rate <= fee * (D - rate)
  }

  /** A fee out of an amount is the least that pays the rate on it. */
  predicate LeastWithin(fee: int, amount: nat, rate: nat) { (fee - 1) * D < amount * rate <= fee * D }

  /** Tokens pay for units, at the rounding of the price that is worse for the taker. */
  predicate PaysFor(q: Quote, tokens: int, units: int) {
    if q.zeroForOne then units * q.ceilPrice <= tokens * Q64 else units * Q64 <= tokens * q.floorPrice
  }

  lemma TakerOutIff(q: Quote, tokens: nat, units: int)
    requires q.Valid()
    ensures units <= q.TakerOut(tokens) <==> PaysFor(q, tokens, units)
  {
    MulLe(0, tokens, q.floorPrice);
    if q.zeroForOne {
      FloorIff(tokens * Q64, q.ceilPrice, units);
    } else {
      FloorIff(tokens * q.floorPrice, Q64, units);
    }
  }

  lemma InIff(q: Quote, tokens: int, units: nat)
    requires q.Valid()
    ensures q.In(units) <= tokens <==> PaysFor(q, tokens, units)
  {
    MulLe(0, units, q.ceilPrice);
    if q.zeroForOne {
      CeilIff(units * q.ceilPrice, Q64, tokens);
    } else {
      CeilIff(units * Q64, q.floorPrice, tokens);
    }
  }

  /** An exact-input match. If all that the input, less a fee out of it, pays for is there, it is taken for all of the
      input; otherwise all there is is taken for the least input that pays for it, and a fee on top. A fee on the
      output is the least out of it that pays the rate. */
  lemma InputMatchIs(available: nat, q: Quote, swapAmount: nat, rate: nat, feeOnInput: bool)
    requires q.Valid() && rate < D && 0 < available && 0 < swapAmount
    requires MatchAmounts(available, q, swapAmount, true, rate, feeOnInput).Ok?
    ensures var m := MatchAmounts(available, q, swapAmount, true, rate, feeOnInput).value;
            && (if PaysFor(q, swapAmount - if feeOnInput then CeilDiv(Fee(swapAmount, rate), D) else 0, available + 1)
                then
                  && m.gross == available
                  && PaysFor(q, m.amountIn, available) && !PaysFor(q, m.amountIn - 1, available)
                  && (feeOnInput ==> LeastOnTop(m.fee, m.amountIn, rate))
                else
                  && m.amountIn + (if feeOnInput then m.fee else 0) == swapAmount
                  && PaysFor(q, m.amountIn, m.gross) && !PaysFor(q, m.amountIn, m.gross + 1)
                  && (feeOnInput ==> LeastWithin(m.fee, swapAmount, rate)))
            && m.amountOut == m.gross - (if feeOnInput then 0 else m.fee)
            && (!feeOnInput ==> LeastWithin(m.fee, m.gross, rate))
  {
    hide Quote.In, Quote.TakerOut, PaysFor, Quote.Num, Quote.Den, Quote.Out;
    var fee := if feeOnInput then CeilDiv(Fee(swapAmount, rate), D) else 0;
    FeeWithinFits(swapAmount, rate);
    var net := swapAmount - fee;
    TakerOutIff(q, net, available + 1);
    TakerOutIff(q, net, q.TakerOut(net));
    TakerOutIff(q, net, q.TakerOut(net) + 1);
    InIff(q, q.In(available), available);
    InIff(q, q.In(available) - 1, available);
  }

  /** The product a rate is taken of. */
  function Fee(amount: nat, rate: nat): nat {
    MulLe(0, amount, rate);
    amount * rate
  }

  lemma FeeWithinFits(amount: nat, rate: nat)
    requires rate < D
    ensures CeilDiv(Fee(amount, rate), D) <= amount
  {
    MulLe(rate, D, amount);
    CeilIff(Fee(amount, rate), D, amount);
  }

  /** An exact-output match: the request, or all there is, grossed up by the least that leaves it after a fee on the
      output; the least input that pays for the gross; and a fee that is the least that pays the rate, on top of that
      input or out of the gross. */
  lemma OutputMatchIs(available: nat, q: Quote, swapAmount: nat, rate: nat, feeOnInput: bool)
    requires q.Valid() && rate < D && 0 < available && 0 < swapAmount
    requires MatchAmounts(available, q, swapAmount, false, rate, feeOnInput).Ok?
    ensures var m := MatchAmounts(available, q, swapAmount, false, rate, feeOnInput).value;
            && PaysFor(q, m.amountIn, m.gross) && !PaysFor(q, m.amountIn - 1, m.gross)
            && (if feeOnInput then
                  && m.gross == m.amountOut == Min(swapAmount, available)
                  && LeastOnTop(m.fee, m.amountIn, rate)
                else
                  && LeastWithin(m.fee, m.gross, rate) && m.amountOut == m.gross - m.fee
                  && (m.gross == available || m.amountOut == Min(swapAmount, available))
                  && (m.gross - 1) * (D - rate) < Min(swapAmount, available) * D)
  {
    hide Quote.In, Quote.TakerOut, PaysFor, Quote.Num, Quote.Den, Quote.Out;
    var net := Min(swapAmount, available);
    GrossUpRoundTrip(net, rate);
    CeilIff(net * D, D - rate, CeilDiv(net * D, D - rate) - 1);
    var m := MatchAmounts(available, q, swapAmount, false, rate, feeOnInput).value;
    GrossBelow(m.gross, CeilDiv(net * D, D - rate), net, rate);
    InIff(q, q.In(m.gross), m.gross);
    InIff(q, q.In(m.gross) - 1, m.gross);
  }

  lemma GrossBelow(gross: nat, least: nat, net: nat, rate: nat)
    requires rate < D && gross <= least && (least - 1) * (D - rate) < net * D
    ensures (gross - 1) * (D - rate) < net * D
  {
    MulLe(gross - 1, least - 1, D - rate);
  }

  /** A match of amounts that fit 64 bits fails with the input specified exactly if the input net of its fee pays for
      more than 64 bits of units. */
  lemma InputMatchFailsIff(available: u64, q: Quote, swapAmount: u64, rate: nat, feeOnInput: bool)
    requires q.Valid() && rate < D && 0 < available && 0 < swapAmount
    ensures MatchAmounts(available, q, swapAmount, true, rate, feeOnInput).Err?
            <==> PaysFor(q, swapAmount - if feeOnInput then CeilDiv(Fee(swapAmount, rate), D) else 0, U64_MAX + 1)
  {
    hide Quote.In, Quote.TakerOut, PaysFor, Quote.Num, Quote.Den, Quote.Out;
    var fee := if feeOnInput then CeilDiv(Fee(swapAmount, rate), D) else 0;
    FeeWithinFits(swapAmount, rate);
    var net := swapAmount - fee;
    TakerOutIff(q, net, U64_MAX + 1);
    if q.TakerOut(net) > available {
      InWithinOffer(q, net, available);
      FeeForms(q.In(available), swapAmount, rate);
      FeeWithinFits(available, rate);
    } else {
      FeeWithinFits(q.TakerOut(net), rate);
    }
  }

  /** With the output specified it succeeds whenever some input pays for all there is and fits 64 bits with its fee,
      and the request grossed up does. */
  lemma OutputMatchSucceeds(available: u64, q: Quote, swapAmount: u64, rate: nat, feeOnInput: bool, input: nat)
    requires q.Valid() && rate < D && 0 < available && 0 < swapAmount
    requires PaysFor(q, input, available) && input * D <= U64_MAX * (D - rate)
    requires !feeOnInput ==> Min(swapAmount, available) * D <= U64_MAX * (D - rate)
    ensures MatchAmounts(available, q, swapAmount, false, rate, feeOnInput).Ok?
  {
    hide Quote.In, Quote.TakerOut, PaysFor, Quote.Num, Quote.Den, Quote.Out;
    var net := Min(swapAmount, available);
    GrossUpRoundTrip(net, rate);
    CeilIff(net * D, D - rate, U64_MAX);
    var gross := if feeOnInput then net else Min(CeilDiv(net * D, D - rate), available);
    InIff(q, input, available);
    FewerCostLess(q, gross, available);
    Distribute(input, D, rate);
    OnTopFits(q.In(gross), input, rate);
    FeeWithinFits(gross, rate);
  }

  lemma FewerCostLess(q: Quote, units: nat, more: nat)
    requires q.Valid() && units <= more
    ensures q.In(units) <= q.In(more)
  {
    InIff(q, q.In(more), more);
    InIff(q, q.In(more), units);
    MulLe(units, more, q.ceilPrice);
  }

  lemma OnTopFits(amount: nat, most: nat, rate: nat)
    requires rate < D && amount <= most && most * D <= U64_MAX * (D - rate)
    ensures 0 <= amount * rate && CeilDiv(amount * rate, D - rate) <= U64_MAX && amount <= U64_MAX
  {
    MulLe(0, amount, rate);
    MulLe(amount, most, D);
    MulLe(rate, D, amount);
    CeilIff(amount * rate, D - rate, U64_MAX);
    MulLe(D - rate, D, U64_MAX);
    MulCancelLe(amount, U64_MAX, D);
  }

  /** The swap loop relies on a match leaving nothing of the swap or nothing of the orders. That
      holds exactly unless an input-side fee rounds up to the whole input: then nothing is
      matched, nothing is taken, and the loop meets the same tick in the same state again. */
  lemma MatchExhaustsIff(available: nat, q: Quote, swapAmount: nat, baseInput: bool, rate: nat, feeOnInput: bool)
    requires q.Valid() && rate < D && 0 < available && 0 < swapAmount
    requires MatchAmounts(available, q, swapAmount, baseInput, rate, feeOnInput).Ok?
    ensures var m := MatchAmounts(available, q, swapAmount, baseInput, rate, feeOnInput).value;
            (Consumed(m, baseInput, feeOnInput) == swapAmount || m.gross == available)
            <==> !(baseInput && feeOnInput && swapAmount * (D - rate) < D)
  {
    if baseInput {
      WholeFeeIff(swapAmount, rate);
      InputMatch(available, q, swapAmount, rate, feeOnInput);
      hide MatchInput;
    } else {
      OutputMatch(available, q, swapAmount, rate, feeOnInput);
    }
  }

  lemma WholeFeeIff(amount: nat, rate: nat)
    requires rate < D && amount > 0
    ensures 0 <= amount * rate
    ensures amount <= CeilDiv(amount * rate, D) <==> amount * (D - rate) < D
  {
    MulLe(0, amount, rate);
    CeilIff(amount * rate, D, amount - 1);
    Distribute(amount, D, rate);
    Distribute(D, amount, 1);
  }

  /** One token left at a tick with orders and any input-side fee is such a case. */
  lemma StuckMatch(q: Quote, available: nat)
    requires q.Valid() && 0 < available <= U64_MAX
    ensures MatchAmounts(available, q, 1, true, 2500, true) == Ok(Match(0, 0, 1, 0))
  {
    NothingForNothing(q);
    CeilIff(2500, D, 1);
    CeilIff(2500, D, 0);
    hide Quote.TakerOut;
    assert FeeWithin(1, 2500) == Ok(1);
  }
}
