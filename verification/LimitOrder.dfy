/** Limit orders at one tick: the two accounts as objects the program updates in place, and the
    values those updates compute. */
module LimitOrder {
  import opened Types
  import opened Arith
  import opened FullMath
  import opened TickMath

  const FEE_RATE_DENOMINATOR: int := 1_000_000

  function SatAdd(a: nat, b: nat): nat { Min(a + b, U64_MAX) }

  // ---- The exchange rate at a tick ----

  /** token_0's price at the tick in Q64.64, rounded both ways, and the direction of the orders. */
  datatype Quote = Quote(floorPrice: nat, ceilPrice: nat, zeroForOne: bool) {
    predicate Valid() { 0 < floorPrice <= ceilPrice <= U128_MAX }

    /** The rate an order is paid at is Num() / Den(), in output tokens per unit of the order. */
    function Num(): nat { if zeroForOne then floorPrice else Q64 }
    function Den(): (d: nat) requires Valid() ensures d > 0 { if zeroForOne then Q64 else ceilPrice }

    /** The same prices for orders of a given direction. */
    function Facing(zeroForOne: bool): (q: Quote)
      ensures Valid() ==> q.Valid()
    {
      this.(zeroForOne := zeroForOne)
    }

    /** Output tokens for `x` filled units, rounded down. */
    function Out(x: nat): nat
      requires Valid()
    {
      MulLe(0, x, Num());
      x * Num() / Den()
    }

    /** Tokens a taker owes for `x` units, rounded up at the less favourable price. */
    function In(x: nat): nat
      requires Valid()
    {
      MulLe(0, x, ceilPrice);
      if zeroForOne then CeilDiv(x * ceilPrice, Q64) else CeilDiv(x * Q64, floorPrice)
    }

    /** Units a taker's `x` tokens buy, rounded down at the less favourable price. */
    function TakerOut(x: nat): nat
      requires Valid()
    {
      MulLe(0, x, floorPrice);
      if zeroForOne then x * Q64 / ceilPrice else x * floorPrice / Q64
    }
  }

  /** `get_price_at_tick` in both roundings: the square of the sqrt price fits 128 bits. */
  function QuoteAt(tick: int, zeroForOne: bool): (q: Quote)
    requires MIN_TICK <= tick <= MAX_TICK
    ensures q.Valid() && q.zeroForOne == zeroForOne
  {
    hide Ratio, Invert, SqrtPriceAtTick;
    var p := SqrtPriceAtTick(tick);
    SqrtPriceRange(tick);
    SquareFits(p);
    Quote(p * p / Q64, CeilDiv(p * p, Q64), zeroForOne)
  }

  lemma SquareFits(p: nat)
    requires MIN_SQRT_PRICE_X64 <= p <= MAX_SQRT_PRICE_X64
    ensures 0 <= p * p && 0 < p * p / Q64 <= CeilDiv(p * p, Q64) <= U128_MAX
  {
    var lo, hi := MIN_SQRT_PRICE_X64, MAX_SQRT_PRICE_X64;
    MulLe(lo, p, p);
    MulLe(lo, p, lo);
    MulLe(p, hi, p);
    MulLe(p, hi, hi);
    FloorIff(p * p, Q64, 1);
    FloorLeCeil(p * p, Q64);
    CeilIff(p * p, Q64, U128_MAX);
  }

  /** Tick 0 is par: both directions pay one for one. */
  lemma ParAtZero(zeroForOne: bool, x: nat)
    ensures QuoteAt(0, zeroForOne) == Quote(Q64, Q64, zeroForOne)
    ensures QuoteAt(0, zeroForOne).Out(x) == x && QuoteAt(0, zeroForOne).TakerOut(x) == x
  {
    RatioZero();
    CeilIff(Q64 * Q64, Q64, Q64);
    CeilIff(Q64 * Q64, Q64, Q64 - 1);
    FloorIff(x * Q64, Q64, x);
    FloorIff(x * Q64, Q64, x + 1);
  }

  /** The checked forms: a result above u64 aborts. */
  function Fits(x: nat): Result<int> { if x > U64_MAX then Err(Panic) else Ok(x) }

  /** `check_limit_order_amount`: the implied output lies in [1, u64::MAX - 2). */
  predicate AmountAllowed(q: Quote, amount: nat)
    requires q.Valid()
  {
    amount > 0 && 1 <= q.Out(amount) < U64_MAX - 2
  }

  /** The amount is worth at least one token at the order's price, and less than u64::MAX - 2. */
  lemma AmountAllowedIff(q: Quote, amount: nat)
    requires q.Valid()
    ensures AmountAllowed(q, amount) <==> q.Den() <= amount * q.Num() < (U64_MAX - 2) * q.Den()
  {
    MulLe(0, amount, q.Num());
    FloorIff(amount * q.Num(), q.Den(), 1);
    FloorIff(amount * q.Num(), q.Den(), U64_MAX - 2);
  }

  // ---- Values ----

  datatype Tick = Tick(phase: nat, orders: nat, remaining: nat, ratio: nat)

  datatype Order = Order(phase: nat, total: nat, filled: nat, base: nat, settled: nat, snapshot: nat)

  datatype Settlement = Settlement(order: Order, payout: nat)

  datatype Decreased = Decreased(order: Order, tick: Tick, payout: nat, amount: nat)

  /** What is left of a segment base at the tick's ratio, rounded down. */
  function Unfilled(base: nat, ratio: nat, snapshot: nat): nat
    requires snapshot > 0
  {
    MulLe(0, base, ratio);
    base * ratio / snapshot
  }

  /** The units credited to a segment: the base less its unfilled part rounded up. The source
      computes it as the filled part less one when the division is inexact. */
  function Credited(base: nat, ratio: nat, snapshot: nat): int
    requires snapshot > 0
  {
    MulLe(0, base, ratio);
    base - CeilDiv(base * ratio, snapshot)
  }

  /** `settle_filled_order`. */
  function Settle(o: Order, t: Tick, q: Quote): Result<Settlement>
    requires q.Valid()
  {
    if o.base == 0 || o.phase == t.phase then Ok(Settlement(o, 0))
    else if SatAdd(o.phase, 1) == t.phase then
      if o.snapshot == 0 then Err(Panic)
      else
        var left := Unfilled(o.base, t.ratio, o.snapshot);
        if left > U64_MAX then Err(Panic)
        else if o.base <= left then Ok(Settlement(o, 0))
        else
          CreditedRange(o.base, t.ratio, o.snapshot);
          var paid := q.Out(Credited(o.base, t.ratio, o.snapshot));
          if paid > U64_MAX then Err(Panic)
          else if o.total < left then Err(CalculateOverflow)
          else Ok(Settlement(o.(filled := o.total - left, settled := paid), Max(0, paid - o.settled)))
    else if SatAdd(o.phase, 2) <= t.phase then
      var paid := q.Out(o.base);
      if paid > U64_MAX then Err(Panic)
      else Ok(Settlement(o.(filled := o.total, base := 0, settled := 0), Max(0, paid - o.settled)))
    else Err(InvalidOrderPhase)
  }

  lemma CreditedRange(base: nat, ratio: nat, snapshot: nat)
    requires snapshot > 0
    ensures var left := Unfilled(base, ratio, snapshot);
            base - left - 1 <= Credited(base, ratio, snapshot) <= base - left
    ensures Unfilled(base, ratio, snapshot) < base ==> 0 <= Credited(base, ratio, snapshot)
  {
    MulLe(0, base, ratio);
    FloorLeCeil(base * ratio, snapshot);
  }

  /** The source's formulation of the credited units. */
  lemma CreditedIsFilledLessOneIfInexact(base: nat, ratio: nat, snapshot: nat)
    requires snapshot > 0
    ensures 0 <= base * ratio
    ensures Credited(base, ratio, snapshot)
            == base - Unfilled(base, ratio, snapshot) - (if base * ratio % snapshot == 0 then 0 else 1)
  {
    MulLe(0, base, ratio);
    DivRoundingUp(base * ratio, snapshot);
  }

  /** `increase_amount`. */
  function Increase(o: Order, t: Tick, amount: nat): Result<(Order, Tick)> {
    if o.phase != t.phase then Err(InvalidOrderPhase)
    else if o.total + amount > U64_MAX || o.base + amount > U64_MAX || t.orders + amount > U64_MAX
        then Err(CalculateOverflow)
    else Ok((o.(total := o.total + amount, base := o.base + amount), t.(orders := t.orders + amount)))
  }

  /** The amount a decrease takes out, and the tick it leaves. */
  function Withdraw(o: Order, t: Tick, amount: nat): Result<(nat, Tick)>
    requires o.filled <= o.total
  {
    var unfilled := o.total - o.filled;
    if o.phase == t.phase then
      var d := Min(amount, unfilled);
      if t.orders < d then Err(CalculateOverflow) else Ok((d, t.(orders := t.orders - d)))
    else if SatAdd(o.phase, 1) == t.phase then
      var d := Min(Min(amount, unfilled), t.remaining);
      Ok((d, t.(remaining := t.remaining - d)))
    else Err(OrderAlreadyFilled)
  }

  /** `decrease_amount`. */
  function Decrease(o: Order, t: Tick, q: Quote, amount: nat): Result<Decreased>
    requires q.Valid()
  {
    var s :- Settle(o, t, q);
    if s.order.total < s.order.filled then Err(CalculateOverflow)
    else if s.order.total == s.order.filled then Ok(Decreased(s.order, t, s.payout, 0))
    else
      var w :- Withdraw(s.order, t, amount);
      if w.0 == 0 then Ok(Decreased(s.order, w.1, s.payout, 0))
      else
        var total := s.order.total - w.0;
        var left := total - s.order.filled;
        var o' :=
          if SatAdd(s.order.phase, 1) == t.phase
              then s.order.(total := total, base := left, snapshot := t.ratio, settled := 0)
          else s.order.(total := total, base := total);
        if left > 0 && !AmountAllowed(q, left) then Err(InvalidLimitOrderAmount)
        else Ok(Decreased(o', w.1, s.payout, w.0))
  }

  /** The tick after `c` units were taken: the part-filled cohort first, then the new orders as
      the next cohort. */
  function Consume(t: Tick, c: nat): Tick
    requires c <= t.remaining + t.orders
  {
    var first := Min(t.remaining, c);
    var t1 := if first == 0 then t
        else t.(remaining := t.remaining - first, ratio := Scale(t.ratio, t.remaining - first, t.remaining));
    var rest := c - first;
    if rest == 0 then t1
    else Tick(SatAdd(t.phase, 1), 0, t.orders - rest, Scale(Q64, t.orders - rest, t.orders))
  }

  /** floor(ratio * part / whole). */
  function Scale(ratio: nat, part: nat, whole: nat): nat
    requires whole > 0
  {
    MulLe(0, ratio, part);
    ratio * part / whole
  }

  lemma ScaleFits(ratio: nat, part: nat, whole: nat)
    requires whole > 0 && part <= whole && ratio <= U128_MAX
    ensures MulDivFloor(ratio, part, whole, U128_MAX) == Some(Scale(ratio, part, whole))
  {
    MulLe(0, ratio, part);
    MulLe(part, whole, ratio);
    MulLe(ratio, U128_MAX, whole);
    Expand(U128_MAX, whole);
    FloorIff(ratio * part, whole, U128_MAX + 1);
    var v := MulDivFloor(ratio, part, whole, U128_MAX);
    FloorIff(ratio * part, whole, v.value);
    FloorIff(ratio * part, whole, v.value + 1);
    Expand(v.value, whole);
  }

  lemma NothingConsumed(t: Tick)
    ensures Consume(t, 0) == t
  {}

  // ---- Matching a taker against the queue ----

  datatype Match = Match(amountIn: nat, amountOut: nat, fee: nat, gross: nat)

  /** Fee on top of an input that excludes it. */
  function FeeOnTop(amountIn: nat, feeRate: nat): (r: Result<int>)
    ensures r.Ok? ==> 0 <= r.value <= U64_MAX
  {
    MulLe(0, amountIn, feeRate);
    if feeRate >= FEE_RATE_DENOMINATOR then Err(CalculateOverflow)
    else Fits(CeilDiv(amountIn * feeRate, FEE_RATE_DENOMINATOR - feeRate))
  }

  /** Fee included in an amount. */
  function FeeWithin(amount: nat, feeRate: nat): (r: Result<int>)
    ensures r.Ok? ==> 0 <= r.value <= amount
  {
    MulLe(0, amount, feeRate);
    var fee := CeilDiv(amount * feeRate, FEE_RATE_DENOMINATOR);
    if fee > amount then Err(Panic) else Ok(fee)
  }

  /** The input, gross output and input-side fee when the input is specified. */
  function MatchInput(available: nat, q: Quote, swapAmount: nat, feeRate: nat,
      feeOnInput: bool): Result<(nat, nat, nat)>
    requires q.Valid()
  {
    var fee :- if feeOnInput then FeeWithin(swapAmount, feeRate) else Ok(0);
    var units :- Fits(q.TakerOut(swapAmount - fee));
    if units <= available then Ok((swapAmount - fee, units, fee))
    else
      var amountIn :- Fits(q.In(available));
      var feeOnTop :- if feeOnInput then FeeOnTop(amountIn, feeRate) else Ok(0);
      Ok((amountIn, available, feeOnTop))
  }

  /** The same when the output is specified. */
  function MatchOutput(available: nat, q: Quote, swapAmount: nat, feeRate: nat,
      feeOnInput: bool): Result<(nat, nat, nat)>
    requires q.Valid()
  {
    var net := Min(swapAmount, available);
    var grossedUp :-
      if feeOnInput then Ok(net)
      else if feeRate >= FEE_RATE_DENOMINATOR then Err(CalculateOverflow)
      else Fits(CeilDiv(net * FEE_RATE_DENOMINATOR, FEE_RATE_DENOMINATOR - feeRate));
    var gross := Min(grossedUp, available);
    var amountIn :- Fits(q.In(gross));
    var fee :- if feeOnInput then FeeOnTop(amountIn, feeRate) else Ok(0);
    Ok((amountIn, gross, fee))
  }

  /** `match_limit_order`'s amounts; the queue loses `gross` units. */
  function MatchAmounts(available: nat, q: Quote, swapAmount: nat, baseInput: bool, feeRate: nat,
      feeOnInput: bool): Result<Match>
    requires q.Valid()
  {
    if available > U64_MAX then Err(CalculateOverflow)
    else if swapAmount == 0 || available == 0 then Ok(Match(0, 0, 0, 0))
    else
      var m :-
        if baseInput then MatchInput(available, q, swapAmount, feeRate, feeOnInput)
        else MatchOutput(available, q, swapAmount, feeRate, feeOnInput);
      if feeOnInput then Ok(Match(m.0, m.1, m.2, m.1))
      else
        var fee :- FeeWithin(m.1, feeRate);
        Ok(Match(m.0, m.1 - fee, fee, m.1))
  }

  /** A match never takes more units than there are, and the taker's tokens are worth at least
      what the orders will be paid for the units. */
  lemma MatchCoversOrders(available: nat, q: Quote, swapAmount: nat, baseInput: bool, feeRate: nat, feeOnInput: bool)
    requires q.Valid()
    requires MatchAmounts(available, q, swapAmount, baseInput, feeRate, feeOnInput).Ok?
    ensures var m := MatchAmounts(available, q, swapAmount, baseInput, feeRate, feeOnInput).value;
            && m.gross <= available
            && m.gross * q.Num() <= m.amountIn * q.Den()
  {
    hide Quote.In, Quote.TakerOut;
    var m := MatchAmounts(available, q, swapAmount, baseInput, feeRate, feeOnInput).value;
    InCovers(q, m.gross);
    TakerOutCovers(q, m.amountIn);
    MulLe(m.gross, Max(m.gross, q.TakerOut(m.amountIn)), q.Num());
  }

  lemma InCovers(q: Quote, x: nat)
    requires q.Valid()
    ensures x * q.Num() <= q.In(x) * q.Den()
  {
    if q.zeroForOne {
      CeilIff(x * q.ceilPrice, Q64, q.In(x));
      MulLe(q.floorPrice, q.ceilPrice, x);
    } else {
      MulLe(q.floorPrice, q.ceilPrice, q.In(x));
    }
  }

  lemma TakerOutCovers(q: Quote, x: nat)
    requires q.Valid()
    ensures q.TakerOut(x) * q.Num() <= x * q.Den()
  {
    var u := q.TakerOut(x);
    MulLe(0, x, q.floorPrice);
    if q.zeroForOne {
      FloorIff(x * Q64, q.ceilPrice, u);
      MulLe(q.floorPrice, q.ceilPrice, u);
    } else {
      FloorIff(x * q.floorPrice, Q64, u);
      MulLe(q.floorPrice, q.ceilPrice, x);
    }
  }

  // ---- Objects ----

  /** The limit-order part of a tick account. */
  class TickState {
    const tick: int
    var orderPhase: u64
    var ordersAmount: u64
    var partFilledOrdersRemaining: u64
    var unfilledRatioX64: u128

    function Value(): Tick
      reads this
    {
      Tick(orderPhase, ordersAmount, partFilledOrdersRemaining, unfilledRatioX64)
    }

    constructor (tick: int)
      ensures this.tick == tick && Value() == Tick(0, 0, 0, 0)
    {
      this.tick := tick;
      orderPhase, ordersAmount, partFilledOrdersRemaining, unfilledRatioX64 := 0, 0, 0, 0;
    }

    /** The taker swaps against the direction of the orders. Returns the amounts of `Match`
        without the internal gross. */
    method MatchLimitOrder(swapAmount: u64, swapDirectionZeroForOne: bool, isBaseInput: bool, feeRate: u32,
        isFeeOnInput: bool)
      returns (r: Result<(nat, nat, nat)>)
      requires MIN_TICK <= tick <= MAX_TICK
      modifies this
      ensures var m := MatchAmounts(old(partFilledOrdersRemaining + ordersAmount),
              QuoteAt(tick, !swapDirectionZeroForOne),
                                    swapAmount, isBaseInput, feeRate, isFeeOnInput);
              && (r.Ok? <==> m.Ok?)
              && (r.Ok? ==>
                    && r.value == (m.value.amountIn, m.value.amountOut, m.value.fee)
                    && m.value.gross <= old(partFilledOrdersRemaining + ordersAmount)
                    && Value() == Consume(old(Value()), m.value.gross))
    {
      hide Ratio, Invert, SqrtPriceAtTick, QuoteAt, Quote.In, Quote.TakerOut, Quote.Out, Consume, FeeOnTop, FeeWithin;
      var quote := QuoteAt(tick, !swapDirectionZeroForOne);
      var totalUnfilledAmount := ordersAmount + partFilledOrdersRemaining;
      if totalUnfilledAmount > U64_MAX { return Err(CalculateOverflow); }
      if swapAmount == 0 || totalUnfilledAmount == 0 {
        NothingConsumed(Value());
        return Ok((0, 0, 0));
      }
      var amountIn, amountOut, fee := swapAmount, 0, 0;
      if isBaseInput {
        if isFeeOnInput {
          fee :- FeeWithin(swapAmount, feeRate);
          amountIn := swapAmount - fee;
        }
        amountOut :- Fits(quote.TakerOut(amountIn));
        if amountOut > totalUnfilledAmount {
          amountOut := totalUnfilledAmount;
          amountIn :- Fits(quote.In(totalUnfilledAmount));
          if isFeeOnInput {
            fee :- FeeOnTop(amountIn, feeRate);
          }
        }
      } else {
        var netOutput := Min(swapAmount, totalUnfilledAmount);
        amountOut := netOutput;
        if !isFeeOnInput {
          if feeRate >= FEE_RATE_DENOMINATOR { return Err(CalculateOverflow); }
          var grossedUp :- Fits(CeilDiv(netOutput * FEE_RATE_DENOMINATOR, FEE_RATE_DENOMINATOR - feeRate));
          amountOut := Min(grossedUp, totalUnfilledAmount);
        }
        amountIn :- Fits(quote.In(amountOut));
        if isFeeOnInput {
          fee :- FeeOnTop(amountIn, feeRate);
        }
      }
      ConsumeOrders(amountOut);
      if !isFeeOnInput {
        fee :- FeeWithin(amountOut, feeRate);
        amountOut := amountOut - fee;
      }
      r := Ok((amountIn, amountOut, fee));
    }

    /** The consumption half of `match_limit_order`. */
    method ConsumeOrders(amountOut: u64)
      requires amountOut <= partFilledOrdersRemaining + ordersAmount
      modifies this
      ensures Value() == Consume(old(Value()), amountOut)
    {
      var consumeFromPartRemaining := 0;
      if partFilledOrdersRemaining > 0 {
        consumeFromPartRemaining := Min(partFilledOrdersRemaining, amountOut);
        if consumeFromPartRemaining > 0 {
          ScaleFits(unfilledRatioX64, partFilledOrdersRemaining - consumeFromPartRemaining, partFilledOrdersRemaining);
          unfilledRatioX64 := MulDivFloor(unfilledRatioX64, partFilledOrdersRemaining - consumeFromPartRemaining,
                                          partFilledOrdersRemaining, U128_MAX).value;
        }
        partFilledOrdersRemaining := partFilledOrdersRemaining - consumeFromPartRemaining;
      }
      var amountOutContinueToConsume := amountOut - consumeFromPartRemaining;
      if amountOutContinueToConsume > 0 {
        orderPhase := SatAdd(orderPhase, 1);
        ScaleFits(Q64, ordersAmount - amountOutContinueToConsume, ordersAmount);
        unfilledRatioX64 := MulDivFloor(Q64, ordersAmount - amountOutContinueToConsume, ordersAmount, U128_MAX).value;
        partFilledOrdersRemaining := ordersAmount - amountOutContinueToConsume;
        ordersAmount := 0;
      }
    }
  }

  /** An order account; `tickIndex` and the direction never change after it is opened. */
  class LimitOrderState {
    const tickIndex: int
    const zeroForOne: bool
    var orderPhase: u64
    var totalAmount: u64
    var filledAmount: u64
    var settleBase: u64
    var settledOutput: u64
    var unfilledRatioX64: u128

    function Value(): Order
      reads this
    {
      Order(orderPhase, totalAmount, filledAmount, settleBase, settledOutput, unfilledRatioX64)
    }

    constructor (tick: int, zeroForOne: bool, amount: u64, orderPhase: u64)
      ensures tickIndex == tick && this.zeroForOne == zeroForOne
      ensures Value() == Order(orderPhase, amount, 0, amount, 0, Q64)
    {
      this.tickIndex := tick;
      this.zeroForOne := zeroForOne;
      this.orderPhase := orderPhase;
      this.totalAmount := amount;
      this.filledAmount := 0;
      this.settleBase := amount;
      this.settledOutput := 0;
      this.unfilledRatioX64 := Q64;
    }

    method SettleFilledOrder(tickState: TickState) returns (r: Result<nat>)
      requires MIN_TICK <= tickState.tick <= MAX_TICK
      modifies this
      ensures var s := Settle(old(Value()), tickState.Value(), QuoteAt(tickState.tick, zeroForOne));
              && (r.Ok? <==> s.Ok?)
              && (r.Ok? ==> r.value == s.value.payout && Value() == s.value.order)
              && (r.Err? ==> unchanged(this))
    {
      hide Ratio, Invert, SqrtPriceAtTick, QuoteAt;
      var quote := QuoteAt(tickState.tick, zeroForOne);
      if settleBase == 0 { return Ok(0); }
      if orderPhase == tickState.orderPhase {
        return Ok(0);
      } else if SatAdd(orderPhase, 1) == tickState.orderPhase {
        if unfilledRatioX64 == 0 { return Err(Panic); }
        MulLe(0, settleBase, tickState.unfilledRatioX64);
        var numerator := settleBase * tickState.unfilledRatioX64;
        var ideal := numerator / unfilledRatioX64;
        var idealRemaining :- Fits(ideal);
        var isExact := numerator % unfilledRatioX64 == 0;
        var totalFilled := Max(0, settleBase - idealRemaining);
        if totalFilled == 0 { return Ok(0); }
        var effectiveFilled := if isExact then totalFilled else totalFilled - 1;
        CreditedIsFilledLessOneIfInexact(settleBase, tickState.unfilledRatioX64, unfilledRatioX64);
        var totalOutput :- Fits(quote.Out(effectiveFilled));
        var payout := Max(0, totalOutput - settledOutput);
        if totalAmount < idealRemaining { return Err(CalculateOverflow); }
        filledAmount := totalAmount - idealRemaining;
        settledOutput := totalOutput;
        r := Ok(payout);
      } else if SatAdd(orderPhase, 2) <= tickState.orderPhase {
        var totalOutput :- Fits(quote.Out(settleBase));
        var payout := Max(0, totalOutput - settledOutput);
        filledAmount := totalAmount;
        settleBase := 0;
        settledOutput := 0;
        r := Ok(payout);
      } else {
        return Err(InvalidOrderPhase);
      }
    }

    method IncreaseAmount(tickState: TickState, amount: u64) returns (r: Result<()>)
      modifies this, tickState
      ensures var i := Increase(old(Value()), old(tickState.Value()), amount);
              && (r.Ok? <==> i.Ok?)
              && (r.Ok? ==> Value() == i.value.0 && tickState.Value() == i.value.1)
    {
      if orderPhase != tickState.orderPhase { return Err(InvalidOrderPhase); }
      if totalAmount + amount > U64_MAX { return Err(CalculateOverflow); }
      totalAmount := totalAmount + amount;
      if settleBase + amount > U64_MAX { return Err(CalculateOverflow); }
      settleBase := settleBase + amount;
      if tickState.ordersAmount + amount > U64_MAX { return Err(CalculateOverflow); }
      tickState.ordersAmount := tickState.ordersAmount + amount;
      r := Ok(());
    }

    /** Returns the settled output and the amount really withdrawn. */
    method DecreaseAmount(tickState: TickState, amount: u64) returns (r: Result<(nat, nat)>)
      requires MIN_TICK <= tickState.tick <= MAX_TICK && tickIndex == tickState.tick
      modifies this, tickState
      ensures var d := Decrease(old(Value()), old(tickState.Value()), QuoteAt(tickState.tick, zeroForOne), amount);
              && (r.Ok? <==> d.Ok?)
              && (r.Ok? ==> r.value == (d.value.payout, d.value.amount)
                            && Value() == d.value.order && tickState.Value() == d.value.tick)
    {
      hide Ratio, Invert, SqrtPriceAtTick, QuoteAt, Settle, Quote.Out;
      var quote := QuoteAt(tickState.tick, zeroForOne);
      var settledOutputAmount :- SettleFilledOrder(tickState);
      if totalAmount < filledAmount { return Err(CalculateOverflow); }
      var unfilledAmount := totalAmount - filledAmount;
      if unfilledAmount == 0 { return Ok((settledOutputAmount, 0)); }
      var realDecreaseAmount := 0;
      if orderPhase == tickState.orderPhase {
        realDecreaseAmount := Min(amount, unfilledAmount);
        if tickState.ordersAmount < realDecreaseAmount { return Err(CalculateOverflow); }
        tickState.ordersAmount := tickState.ordersAmount - realDecreaseAmount;
      } else if SatAdd(orderPhase, 1) == tickState.orderPhase {
        realDecreaseAmount := Min(Min(amount, unfilledAmount), tickState.partFilledOrdersRemaining);
        tickState.partFilledOrdersRemaining := tickState.partFilledOrdersRemaining - realDecreaseAmount;
      } else {
        return Err(OrderAlreadyFilled);
      }
      if realDecreaseAmount == 0 { return Ok((settledOutputAmount, 0)); }
      totalAmount := totalAmount - realDecreaseAmount;
      if SatAdd(orderPhase, 1) == tickState.orderPhase {
        settleBase := totalAmount - filledAmount;
        unfilledRatioX64 := tickState.unfilledRatioX64;
        settledOutput := 0;
      } else {
        settleBase := totalAmount;
      }
      var remainingAmount := totalAmount - filledAmount;
      if remainingAmount > 0 && !AmountAllowed(quote, remainingAmount) { return Err(InvalidLimitOrderAmount); }
      r := Ok((settledOutputAmount, realDecreaseAmount));
    }
  }
}
