/** The pool as a state machine: positions, limit orders and the steps of the swap loop, over the
    index of initialized ticks. */
module Pool {
  import opened Types
  import opened Arith
  import opened LiquidityMath
  import opened TickMath
  import opened TickAtPrice
  import opened TickArray
  import opened LimitOrder
  import opened MatchTheorems
  import opened TickIndex
  import opened TickSearch
  import SwapMath
  import Budget = LiquidityBudget

  datatype Position = Position(lower: int, upper: int, liquidity: nat)

  /** An order account of a tick. */
  datatype OrderAccount = OrderAccount(zeroForOne: bool, order: Order)

  /** `orders` holds each tick's order accounts in the order they were opened. */
  datatype Pool = Pool(ix: Index, tick: int, price: u128, liquidity: u128, positions: seq<Position>,
      orders: map<int, seq<OrderAccount>>)

  function OrdersAt(p: Pool, t: int): seq<OrderAccount> { if t in p.orders then p.orders[t] else [] }

  function SetOrder(p: Pool, t: int, i: nat, order: Order): map<int, seq<OrderAccount>>
    requires i < |OrdersAt(p, t)|
  {
    p.orders[t := OrdersAt(p, t)[i := OrdersAt(p, t)[i].(order := order)]]
  }

  // ---- Positions ----

  /** The outcome of `modify_position`, before the callers book it. */
  datatype Modified = Modified(lower: Slot, upper: Slot, flippedLower: bool, flippedUpper: bool, liquidity: u128,
      amount0: int, amount1: int)

  predicate InRange(t: int) { MIN_TICK <= t <= MAX_TICK }

  function ModifyPosition(p: Pool, lower: int, upper: int, delta: i128): Result<Modified>
    requires InRange(lower) && InRange(upper)
  {
    hide Budget.DeltaAmountsSigned, AddDelta;
    var lo, up := SlotAt(p.ix, lower), SlotAt(p.ix, upper);
    if delta == 0 then Ok(Modified(lo, up, false, false, p.liquidity, 0, 0))
    else
      var lo1 :- Update(lo, delta, false);
      var up1 :- Update(up, delta, true);
      var amounts :- Budget.DeltaAmountsSigned(p.tick, p.price, lower, upper, delta);
      var liquidity :- if lower <= p.tick < upper then AddDelta(p.liquidity, delta) else Ok(p.liquidity);
      Ok(Modified(if delta < 0 && lo1.1 then Clear(lo1.0) else lo1.0, if delta < 0 && up1.1 then Clear(up1.0)
          else up1.0,
                  lo1.1, up1.1, liquidity, amounts.0, amounts.1))
  }

  /** Writes the two ticks back; the flipped ones enter or leave the index. */
  function BookTicks(ix: Index, lower: int, upper: int, m: Modified, add: bool): Result<Index>
    requires ix.spacing > 0
  {
    var written := SetSlot(SetSlot(ix, lower, m.lower), upper, m.upper);
    var first :- if !m.flippedLower then Ok(written) else if add then Mark(written, lower) else Unmark(written, lower);
    if !m.flippedUpper then Ok(first) else if add then Mark(first, upper) else Unmark(first, upper)
  }

  predicate ValidRange(spacing: nat, lower: int, upper: int)
    requires spacing > 0
  {
    lower < upper && Aligned(lower, spacing) && Aligned(upper, spacing)
  }

  /** `add_liquidity` for position `i`, or for a new one when `i` is their number. */
  function AddLiquidity(p: Pool, i: nat, lower: int, upper: int, liquidity: nat): Result<Pool>
    requires p.ix.spacing > 0 && i <= |p.positions|
    requires i < |p.positions| ==> lower == p.positions[i].lower && upper == p.positions[i].upper
  {
    if !ValidRange(p.ix.spacing, lower, upper) then Err(InvalidTickIndex)
    else if liquidity == 0 then Err(ZeroLiquidity)
    else if liquidity > I128_MAX then Err(CalculateOverflow)
    else
      var m :- ModifyPosition(p, lower, upper, liquidity);
      var ix :- BookTicks(p.ix, lower, upper, m, true);
      if m.amount0 == 0 && m.amount1 == 0 then Err(RequireViolated)
      else
        var before := if i < |p.positions| then p.positions[i].liquidity else 0;
        var grown := Position(lower, upper, before + liquidity);
        Ok(p.(ix := ix, liquidity := m.liquidity,
              positions := if i < |p.positions| then p.positions[i := grown] else p.positions + [grown]))
  }

  /** `burn_liquidity` for position `i`. */
  function BurnLiquidity(p: Pool, i: nat, liquidity: nat): Result<Pool>
    requires p.ix.spacing > 0 && i < |p.positions|
  {
    var pos := p.positions[i];
    if !ValidRange(p.ix.spacing, pos.lower, pos.upper) then Err(InvalidTickIndex)
    else if pos.liquidity < liquidity then Err(RequireViolated)
    else if liquidity > I128_MAX then Err(CalculateOverflow)
    else
      var m :- ModifyPosition(p, pos.lower, pos.upper, 0 - (liquidity as int));
      var ix :- BookTicks(p.ix, pos.lower, pos.upper, m, false);
      Ok(p.(ix := ix, liquidity := m.liquidity,
          positions := p.positions[i := pos.(liquidity := pos.liquidity - liquidity)]))
  }

  // ---- Limit orders ----

  /** `open_limit_order` on the pool's side. */
  function PlaceOrder(p: Pool, t: int, zeroForOne: bool, amount: nat): Result<Pool>
    requires p.ix.spacing > 0
  {
    hide QuoteAt, AmountAllowed;
    if !(MIN_TICK < t < MAX_TICK) then Err(InvalidTickIndex)
    else if Rem(t, p.ix.spacing) != 0 then Err(InvalidTickIndex)
    else if (if zeroForOne then t <= p.tick else t >= p.tick) then Err(InvalidTickIndex)
    else if !AmountAllowed(QuoteAt(t, zeroForOne), amount) then Err(InvalidLimitOrderAmount)
    else
      var s := SlotAt(p.ix, t);
      if s.queue.phase >= U64_MAX then Err(OrderPhaseSaturated)
      else if s.queue.orders + amount > U64_MAX then Err(CalculateOverflow)
      else
        var ix := SetSlot(p.ix, t, s.(queue := s.queue.(orders := s.queue.orders + amount)));
        var booked :- if s.Initialized() then Ok(ix) else Mark(ix, t);
        var account := OrderAccount(zeroForOne, Order(s.queue.phase, amount, 0, amount, 0, Q64));
        Ok(p.(ix := booked, orders := p.orders[t := OrdersAt(p, t) + [account]]))
  }

  /** `increase_limit_order` for the tick's order account `i`: neither the index nor the pool's tick is
      looked at. */
  function GrowOrder(p: Pool, t: int, i: nat, amount: nat): Result<Pool>
    requires p.ix.spacing > 0 && i < |OrdersAt(p, t)|
  {
    hide QuoteAt, AmountAllowed;
    var account := OrdersAt(p, t)[i];
    if amount == 0 then Err(ZeroAmountSpecified)
    else if !Aligned(t, p.ix.spacing) then Err(InvalidTickIndex)
    else
      var s := SlotAt(p.ix, t);
      var r :- Increase(account.order, s.queue, amount);
      if !AmountAllowed(QuoteAt(t, account.zeroForOne), r.0.total) then Err(InvalidLimitOrderAmount)
      else Ok(p.(ix := SetSlot(p.ix, t, s.(queue := r.1)), orders := SetOrder(p, t, i, r.0)))
  }

  /** `decrease_limit_order` for the tick's order account `i`. */
  function ShrinkOrder(p: Pool, t: int, i: nat, amount: nat): Result<Pool>
    requires p.ix.spacing > 0 && i < |OrdersAt(p, t)|
  {
    hide QuoteAt, Decrease;
    var account := OrdersAt(p, t)[i];
    if amount == 0 then Err(ZeroAmountSpecified)
    else if !Aligned(t, p.ix.spacing) then Err(InvalidTickIndex)
    else
      var s := SlotAt(p.ix, t);
      var d :- Decrease(account.order, s.queue, QuoteAt(t, account.zeroForOne), amount);
      var s' := s.(queue := d.tick);
      var ix := SetSlot(p.ix, t, s');
      var booked :- if s.Initialized() && !s'.Initialized() then Unmark(ix, t) else Ok(ix);
      Ok(p.(ix := booked, orders := SetOrder(p, t, i, d.order)))
  }

  /** `settle_limit_order` for the tick's order account `i`: refuses to pay nothing while something is
      unfilled. */
  function SettleOrder(p: Pool, t: int, i: nat): Result<Pool>
    requires p.ix.spacing > 0 && i < |OrdersAt(p, t)|
  {
    hide QuoteAt, Settle;
    var account := OrdersAt(p, t)[i];
    if !Aligned(t, p.ix.spacing) then Err(InvalidTickIndex)
    else
      var s :- Settle(account.order, SlotAt(p.ix, t).queue, QuoteAt(t, account.zeroForOne));
      if s.order.total < s.order.filled then Err(CalculateOverflow)
      else if s.order.total != s.order.filled && s.payout == 0 then Err(RequireViolated)
      else Ok(p.(orders := SetOrder(p, t, i, s.order)))
  }

  // ---- One pass of the swap loop ----

  datatype Swap = Swap(limit: nat, zeroForOne: bool, baseInput: bool, feeOnInput: bool)

  /** The next tick's price, or the limit when that comes first. */
  function Target(w: Swap, next: int): nat
    requires InRange(next)
  {
    var price := Budget.PriceOf(next);
    if (if w.zeroForOne then price < w.limit else price > w.limit) then w.limit else price
  }

  /** The price moves toward `bounded`, which a dynamic fee may put before the target. */
  function Move(p: Pool, w: Swap, remaining: nat, feeRate: nat, bounded: nat): Result<(nat, nat)>
    requires SwapMath.Directed(p.price, bounded, w.zeroForOne)
  {
    if p.price == bounded then Ok((bounded, remaining))
    else
      match SwapMath.Step(p.price, bounded, p.liquidity, remaining, feeRate, w.baseInput, w.zeroForOne, w.feeOnInput)
      case None => Err(CalculateOverflow)
      case Some(r) =>
        var consumed := if !w.baseInput then r.amountOut else if w.feeOnInput then r.amountIn + r.feeAmount
            else r.amountIn;
        if consumed > remaining then Err(CalculateOverflow) else Ok((r.sqrtPriceNext, remaining - consumed))
  }

  /** The next tick is reached: match its orders, and cross it unless some are left. */
  function Arrive(p: Pool, w: Swap, next: int, remaining: nat, feeRate: nat): Result<(Pool, nat)>
    requires p.ix.spacing > 0 && InRange(next)
  {
    hide QuoteAt, MatchAmounts, AddDelta, Budget.PriceOf, Consume;
    var s := SlotAt(p.ix, next);
    var available := s.queue.remaining + s.queue.orders;
    var quote := QuoteAt(next, !w.zeroForOne);
    var m :- MatchAmounts(available, quote, remaining, w.baseInput, feeRate, w.feeOnInput);
    MatchCoversOrders(available, quote, remaining, w.baseInput, feeRate, w.feeOnInput);
    var consumed := Consumed(m, w.baseInput, w.feeOnInput);
    if consumed > remaining then Err(CalculateOverflow)
    else
      var s' := s.(queue := Consume(s.queue, m.gross));
      var ix :- if s'.Initialized() then Ok(SetSlot(p.ix, next, s')) else Unmark(SetSlot(p.ix, next, s'), next);
      var liquidity :-
        if !(s'.HasLiquidity() && !s'.HasOrders()) then Ok(p.liquidity)
        else if !w.zeroForOne then AddDelta(p.liquidity, s'.net)
        else if s'.net < -I128_MAX then Err(Panic)
        else AddDelta(p.liquidity, 0 - (s'.net as int));
      Ok((Pool(ix, TickAfter(next, w.zeroForOne, s'.HasOrders()), Budget.PriceOf(next), liquidity, p.positions,
          p.orders), remaining - consumed))
  }

  /** One pass of the loop toward `next`, the tick its search found. */
  function SwapStep(p: Pool, w: Swap, remaining: nat, next: int, feeRate: nat, bounded: nat): Result<(Pool, nat)>
    requires p.ix.spacing > 0 && InRange(next)
  {
    hide Budget.PriceOf, Arrive, Move;
    var goal, target := Budget.PriceOf(next), Target(w, next);
    if remaining == 0 then Err(ZeroAmountSpecified)
    else if !(if w.zeroForOne then MIN_SQRT_PRICE_X64 < w.limit < p.price
        else p.price < w.limit < MAX_SQRT_PRICE_X64) then
      Err(SqrtPriceLimitOverflow)
    else if !(Ahead(next, p.tick, w.zeroForOne) && SwapMath.Directed(p.price, goal, w.zeroForOne)
        && SwapMath.Directed(p.price, target, w.zeroForOne)) then
      Err(RequireViolated)
    else if !(SwapMath.Directed(p.price, bounded, w.zeroForOne)
        && SwapMath.Directed(bounded, target, w.zeroForOne)) then
      Err(RequireViolated)
    else
      var moved :- Move(p, w, remaining, feeRate, bounded);
      if moved.0 == goal then Arrive(p, w, next, moved.1, feeRate)
      else if moved.0 == p.price then Ok((p, moved.1))
      else if !InPriceRange(moved.0) then Err(SqrtPriceX64)
      else Ok((p.(price := moved.0, tick := TickAt(moved.0)), moved.1))
  }

  // ---- Steps and runs ----

  datatype Step =
    | OpenPosition(lower: int, upper: int, liquidity: nat)
    | AddTo(i: nat, liquidity: nat)
    | BurnFrom(i: nat, liquidity: nat)
    | Place(tick: int, zeroForOne: bool, amount: nat)
    | Grow(tick: int, i: nat, amount: nat)
    | Shrink(tick: int, i: nat, amount: nat)
    | SettleAt(tick: int, i: nat)
    | SwapTo(swap: Swap, remaining: nat, next: int, feeRate: nat, bounded: nat)

  /** A failing instruction leaves the pool as it was. A swap pass goes to any initialized tick: which one is
      for the search to say. */
  function Apply(p: Pool, step: Step): Pool
    requires p.ix.spacing > 0
  {
    hide AddLiquidity, BurnLiquidity, PlaceOrder, GrowOrder, ShrinkOrder, SettleOrder, SwapStep;
    var r: Result<Pool> :=
      match step
      case OpenPosition(lower, upper, liquidity) => AddLiquidity(p, |p.positions|, lower, upper, liquidity)
      case AddTo(i, liquidity) =>
        if i >= |p.positions| then Err(RequireViolated)
            else AddLiquidity(p, i, p.positions[i].lower, p.positions[i].upper, liquidity)
      case BurnFrom(i, liquidity) => if i >= |p.positions| then Err(RequireViolated) else BurnLiquidity(p, i, liquidity)
      case Place(t, zeroForOne, amount) => PlaceOrder(p, t, zeroForOne, amount)
      case Grow(t, i, amount) => if i >= |OrdersAt(p, t)| then Err(RequireViolated) else GrowOrder(p, t, i, amount)
      case Shrink(t, i, amount) => if i >= |OrdersAt(p, t)| then Err(RequireViolated) else ShrinkOrder(p, t, i, amount)
      case SettleAt(t, i) => if i >= |OrdersAt(p, t)| then Err(RequireViolated) else SettleOrder(p, t, i)
      case SwapTo(w, remaining, next, feeRate, bounded) =>
        if !InRange(next) || !SlotAt(p.ix, next).Initialized() then Err(LiquidityInsufficient)
        else
          var s :- SwapStep(p, w, remaining, next, feeRate, bounded);
          Ok(s.0);
    if r.Ok? then r.value else p
  }

  /** A pass that goes through. */
  predicate Passes(p: Pool, step: Step)
    requires p.ix.spacing > 0
  {
    && step.SwapTo? && InRange(step.next) && SlotAt(p.ix, step.next).Initialized()
    && SwapStep(p, step.swap, step.remaining, step.next, step.feeRate, step.bounded).Ok?
  }

  /** A new pool at a price, `create_pool`. */
  function Created(spacing: nat, price: u128): Pool
    requires InPriceRange(price)
  {
    hide TickAt;
    Pool(Index(spacing, map[], map[], {}), TickAt(price), price, 0, [], map[])
  }
}
