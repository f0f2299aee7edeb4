/** Runs in which an upward swap passes orders without matching them: one token is left, its fee is the whole
    of it, and the orders wait at the first tick of an array. With a position that begins at that tick the
    pool's liquidity is wrong from there on. */
module SkippedOrders {
  import opened Types
  import opened Arith
  import opened TickMath
  import opened TickAtPrice
  import opened LimitOrder
  import opened MatchTheorems
  import opened TickArray
  import opened TickArrayBitMap
  import opened TickIndex
  import opened TickSearch
  import opened Pool
  import opened PoolInvariants
  import opened PoolRuns
  import opened LiquidityMath
  import opened Vault
  import SwapMath
  import TickInverse
  import Budget = LiquidityBudget
  import Queue = LimitOrderRun
  import QueueTheorems = LimitOrderTheorems

  const WAITING: Slot := Slot(0, 0, Tick(0, 1000, 0, 0))

  /** Orders at ticks 0 and 60, each the first of its array. */
  function TwoTicks(tick: int, price: u128): Pool {
    Pool(Index(1, map[0 := WAITING, 60 := WAITING], map[0 := 1, 60 := 1], {0, 60}), tick, price, 0, [],
         map[0 := [OrderAccount(true, PLACED)], 60 := [OrderAccount(true, PLACED)]])
  }

  // ---- The price of tick 60 ----

  lemma RatioAt60(n: nat)
    requires n == 60
    ensures Ratio(n) == 0xff3bb2486ca92553
  {
    hide RatioFrom;
    MagicFactors();
    Unfold(MAGIC, 0x10000000000000000, 60, 0);
    Unfold(MAGIC, 0x10000000000000000, 30, 1);
    Unfold(MAGIC, 0x10000000000000000, 15, 2);
    assert Truncate(0x10000000000000000, MAGIC[2]) == 0xfff2e50f5f657000;
    Unfold(MAGIC, 0xfff2e50f5f657000, 7, 3);
    assert Truncate(0xfff2e50f5f657000, MAGIC[3]) == 0xffd8b1315337bb94;
    Unfold(MAGIC, 0xffd8b1315337bb94, 3, 4);
    assert Truncate(0xffd8b1315337bb94, MAGIC[4]) == 0xffa4518118dbbc1c;
    Unfold(MAGIC, 0xffa4518118dbbc1c, 1, 5);
    assert Truncate(0xffa4518118dbbc1c, MAGIC[5]) == 0xff3bb2486ca92553;
    NoFactors(MAGIC, 0xff3bb2486ca92553, 6);
  }

  lemma PriceAt60(n: nat)
    requires n == 60
    ensures SqrtPriceAtTick(n) == 0x100c4e4b271f090d0
  {
    hide Ratio;
    RatioAt60(n);
    RatioAtLeastMin(n);
  }

  lemma LawfulAt60(n: nat)
    requires n == 60
    ensures AmountAllowed(QuoteAt(n, true), 1000)
  {
    hide Ratio, Invert, SqrtPriceAtTick;
    PriceAt60(n);
    var p := SqrtPriceAtTick(n);
    assert p * p / Q64 == 18557751677669994836;
    assert QuoteAt(n, true).floorPrice == 18557751677669994836;
    assert QuoteAt(n, true).Out(1000) == 1000 * 18557751677669994836 / Q64;
  }

  // ---- The run ----

  lemma PlaceAt60(tick: int, price: u128, t: int)
    requires tick < 0 && t == 60
    ensures PlaceOrder(Single(tick, price, Tick(0, 1000, 0, 0), map[0 := 1], {0}, PLACED), t, true, 1000)
            == Ok(TwoTicks(tick, price))
  {
    hide QuoteAt, AmountAllowed;
    LawfulAt60(t);
    RemZero(60, 1);
    assert ArrayStart(60, 1) == 60;
    var p, p' := Single(tick, price, Tick(0, 1000, 0, 0), map[0 := 1], {0}, PLACED), TwoTicks(tick, price);
    assert p.ix.slots[60 := WAITING] == p'.ix.slots;
    assert p.ix.counts[60 := 1] == p'.ix.counts && p.ix.bits + {60} == p'.ix.bits;
    assert OrdersAt(p, 60) + [OrderAccount(true, PLACED)] == [OrderAccount(true, PLACED)];
    assert p.orders[60 := [OrderAccount(true, PLACED)]] == p'.orders;
  }

  /** An upward exact-input swap with the fee on the input. */
  function UpTo(limit: nat): Swap { Swap(limit, false, true, true) }

  function Upward(): Swap { UpTo(MAX_SQRT_PRICE_X64 - 1) }

  /** Without liquidity the price goes to its target at no cost. */
  lemma NoLiquidityStep(current: nat, target: nat)
    requires 0 < current <= target
    ensures SwapMath.Step(current, target, 0, 1, 2500, true, false, true)
            == Some(SwapMath.SwapComputationResult(target, 0, 0, 0))
  {
    NothingInRange(current, target);
    hide In0, In1, Out0, Out1;
    assert SwapMath.Budget(1, 2500, true, true) == Some(0);
    CeilIff(0, 997500, 0);
  }

  lemma NothingInRange(lo: nat, hi: nat)
    requires 0 < lo <= hi
    ensures In1(lo, hi, 0) == 0 && Out0(lo, hi, 0) == 0
  {
    CeilIff(0, Q64, 0);
  }

  /** One token reaches a tick with orders, and matches nothing. */
  lemma ReachAndStop(p: Pool, next: int, price: nat, limit: nat)
    requires p.ix.spacing > 0 && MIN_TICK < next < MAX_TICK && p.liquidity == 0 && p.tick < next
    requires 0 < p.price < price == Budget.PriceOf(next) <= limit < MAX_SQRT_PRICE_X64
    requires SlotAt(p.ix, next).queue == Tick(0, 1000, 0, 0)
    ensures SwapStep(p, UpTo(limit), 1, next, 2500, price)
            == Ok((p.(ix := SetSlot(p.ix, next, SlotAt(p.ix, next)), tick := next - 1, price := price), 1))
  {
    hide Budget.PriceOf, SwapMath.Step, QuoteAt, MatchAmounts, Consume, SlotAt, Quote.Num, Quote.Den;
    NoLiquidityStep(p.price, price);
    assert Move(p, UpTo(limit), 1, 2500, price) == Ok((price, 1));
    StuckMatch(QuoteAt(next, true), 1000);
    NothingConsumed(Tick(0, 1000, 0, 0));
  }

  /** The bits of the two arrays leave only tick 60 beyond array 0. */
  lemma LooksPast(tick: int, price: u128, r: Option<int>)
    requires tick == -1
    requires Searched(TwoTicks(tick, price).ix, tick, 0, true, false, r)
    ensures r == Some(60)
  {
    assert ArrayStart(-1, 1) == -60 && ArrayStart(0, 1) == 0 && ArrayStart(60, 1) == 60;
    var ix := TwoTicks(tick, price).ix;
    hide ArrayStart;
    assert !AheadInOwnArray(ix, tick, 0, false);
    assert 60 in ix.bits && Beyond(0, 60, false);
    if r.Some? { assert InArray(ix, ArrayStart(r.value, 1), r.value); }
  }

  lemma PlaceBoth(t: int)
    requires t == -1
    ensures InPriceRange(SqrtPriceAtTick(t)) && SqrtPriceAtTick(t) <= U128_MAX
    ensures var p := Apply(Created(1, SqrtPriceAtTick(t)), Place(0, true, 1000));
            p.ix.spacing == 1 && Apply(p, Place(60, true, 1000)) == TwoTicks(t, SqrtPriceAtTick(t))
  {
    hide PlaceOrder, AddLiquidity, BurnLiquidity, GrowOrder, ShrinkOrder, SettleOrder, SwapStep, TickAt,
        SqrtPriceAtTick;
    TickInverse.TickRoundTrip(t);
    PlaceAtZero(SqrtPriceAtTick(t));
    PlaceAt60(t, SqrtPriceAtTick(t), 60);
  }

  lemma ReachZero(t: int)
    requires t == -1 && SqrtPriceAtTick(t) <= U128_MAX
    ensures IsNext(TwoTicks(t, SqrtPriceAtTick(t)).ix, t, false, 0)
    ensures SwapStep(TwoTicks(t, SqrtPriceAtTick(t)), Upward(), 1, 0, 2500, Budget.PriceOf(0))
            == Ok((TwoTicks(t, Budget.PriceOf(0)), 1))
  {
    hide SwapStep, SqrtPriceAtTick, Ratio, Invert, UpTo, IsNext;
    var p := TwoTicks(t, SqrtPriceAtTick(t));
    SqrtPriceRange(t);
    SqrtPriceIncreasing(t, 0);
    SqrtPriceIncreasing(0, MAX_TICK);
    SqrtPriceRange(MAX_TICK);
    NextAtZero(SqrtPriceAtTick(t));
    ReachAndStop(p, 0, Budget.PriceOf(0), MAX_SQRT_PRICE_X64 - 1);
    assert p.ix.slots[0 := WAITING] == p.ix.slots;
  }

  lemma ReachSixty(t: int)
    requires t == -1
    ensures SwapStep(TwoTicks(t, Budget.PriceOf(0)), Upward(), 1, 60, 2500, Budget.PriceOf(60))
            == Ok((TwoTicks(59, Budget.PriceOf(60)), 1))
  {
    hide SwapStep, SqrtPriceAtTick, Ratio, Invert, UpTo;
    var p := TwoTicks(t, Budget.PriceOf(0));
    SqrtPriceRange(0);
    SqrtPriceIncreasing(0, 60);
    SqrtPriceIncreasing(60, MAX_TICK);
    SqrtPriceRange(MAX_TICK);
    ReachAndStop(p, 60, Budget.PriceOf(60), MAX_SQRT_PRICE_X64 - 1);
    assert p.ix.slots[60 := WAITING] == p.ix.slots;
  }

  /** From a new pool just below tick 0, with orders placed at ticks 0 and 60: a swap of one token
      reaches tick 0 and leaves its orders. They are the nearest tick ahead, and the search returns
      tick 60; the pass to there leaves the pool's tick at 59, above orders that still sell token 0. */
  lemma SearchLooksPastOrders(t: int, r: Option<int>)
    requires t == -1
    ensures InPriceRange(SqrtPriceAtTick(t)) && SqrtPriceAtTick(t) <= U128_MAX
    ensures var p := Apply(Created(1, SqrtPriceAtTick(t)), Place(0, true, 1000));
            p.ix.spacing == 1 && Apply(p, Place(60, true, 1000)) == TwoTicks(t, SqrtPriceAtTick(t))
    ensures Apply(TwoTicks(t, SqrtPriceAtTick(t)), SwapTo(Upward(), 1, 0, 2500, Budget.PriceOf(0)))
            == TwoTicks(t, Budget.PriceOf(0))
    ensures IsNext(TwoTicks(t, Budget.PriceOf(0)).ix, t, false, 0)
    ensures Searched(TwoTicks(t, Budget.PriceOf(0)).ix, t, ArrayStart(0, 1), true, false, r) ==> r == Some(60)
    ensures SwapStep(TwoTicks(t, Budget.PriceOf(0)), Upward(), 1, 60, 2500, Budget.PriceOf(60))
            == Ok((TwoTicks(59, Budget.PriceOf(60)), 1))
  {
    hide SwapStep, SqrtPriceAtTick, Ratio, Invert, IsNext, Searched, Budget.PriceOf, PlaceOrder, AddLiquidity,
        BurnLiquidity, GrowOrder, ShrinkOrder, SettleOrder, TickAt;
    PlaceBoth(t);
    ReachZero(t);
    NextAtZero(Budget.PriceOf(0));
    assert ArrayStart(0, 1) == 0;
    if Searched(TwoTicks(t, Budget.PriceOf(0)).ix, t, ArrayStart(0, 1), true, false, r) {
      LooksPast(t, Budget.PriceOf(0), r);
    }
    ReachSixty(t);
  }

  lemma NextAtZero(price: u128)
    ensures IsNext(TwoTicks(-1, price).ix, -1, false, 0)
  {}

  // ---- With a position that begins at the tick ----

  const DEPTH: nat := 1_000_000

  /** The orders at tick 0, and a position from there to tick 60. */
  function Ranged(tick: int, price: u128): Pool {
    Pool(Index(1, map[0 := Slot(DEPTH, DEPTH, Tick(0, 1000, 0, 0)), 60 := Slot(-1_000_000, DEPTH, Tick(0, 0, 0, 0))],
               map[0 := 1, 60 := 1], {0, 60}),
         tick, price, 0, [Position(0, 60, DEPTH)], map[0 := [OrderAccount(true, PLACED)]])
  }

  /** The position costs some of token 0, and fits. */
  lemma RangeCosts(t: int, price: u128, top: int)
    requires t == -1 && top == 60 && Budget.PriceAtTick(t, price)
    ensures Budget.DeltaAmountsSigned(t, price, 0, top, DEPTH).Ok?
    ensures Budget.DeltaAmountsSigned(t, price, 0, top, DEPTH).value.0 > 0
  {
    hide Budget.PriceAtTick, SqrtPriceAtTick, Ratio, Invert, In0, In1, Out0, Out1, Budget.DeltaAmountsSigned;
    Budget.DeltaAmountsAre(t, price, 0, top, DEPTH);
    Budget.TickSideIsPriceSide(t, price, 0);
    PriceAt60(top);
    PriceAt0(0);
    In0Iff(Q64, 0x100c4e4b271f090d0, DEPTH, 0);
    In0Iff(Q64, 0x100c4e4b271f090d0, DEPTH, U64_MAX);
    In1Iff(Q64, Q64, DEPTH, 0);
  }

  lemma PriceAt0(t: int)
    requires t == 0
    ensures SqrtPriceAtTick(t) == Q64
  {
    hide Ratio;
    RatioZero();
  }

  lemma OpenRange(t: int, price: u128)
    requires t == -1 && Budget.PriceAtTick(t, price)
    ensures AddLiquidity(Single(t, price, Tick(0, 1000, 0, 0), map[0 := 1], {0}, PLACED), 0, 0, 60, DEPTH)
            == Ok(Ranged(t, price))
  {
    hide Budget.DeltaAmountsSigned, Budget.PriceAtTick, ModifyPosition, BookTicks, Ranged, Single;
    RangeCosts(t, price, 60);
    ModifyRange(t, price);
    BookRange(t, price);
    RangedIs(t, price);
    var p := Single(t, price, Tick(0, 1000, 0, 0), map[0 := 1], {0}, PLACED);
    assert p.positions + [Position(0, 60, DEPTH)] == [Position(0, 60, DEPTH)];
    var cost := Budget.DeltaAmountsSigned(t, price, 0, 60, DEPTH).value;
    assert BookTicks(p.ix, 0, 60, Modified(LOWER, UPPER, false, true, 0, cost.0, cost.1), true)
        == Ok(Ranged(t, price).ix);
  }

  lemma RangedIs(t: int, price: u128)
    ensures var p, p' := Single(t, price, Tick(0, 1000, 0, 0), map[0 := 1], {0}, PLACED), Ranged(t, price);
            p.ix.spacing == 1 && p.positions == []
                && p' == p.(ix := p'.ix, liquidity := 0, positions := [Position(0, 60, DEPTH)])
  {}

  const LOWER: Slot := Slot(DEPTH, DEPTH, Tick(0, 1000, 0, 0))
  const UPPER: Slot := Slot(-1_000_000, DEPTH, Tick(0, 0, 0, 0))

  lemma BookRange(t: int, price: u128)
    ensures forall cost: (int, int) ::
              BookTicks(Single(t, price, Tick(0, 1000, 0, 0), map[0 := 1], {0}, PLACED).ix, 0, 60,
                        Modified(LOWER, UPPER, false, true, 0, cost.0, cost.1), true)
              == Ok(Ranged(t, price).ix)
  {
    assert ArrayStart(60, 1) == 60;
    hide ArrayStart;
    var p, p' := Single(t, price, Tick(0, 1000, 0, 0), map[0 := 1], {0}, PLACED), Ranged(t, price);
    assert p.ix.slots[0 := LOWER][60 := UPPER] == p'.ix.slots;
    assert p.ix.counts[60 := 1] == p'.ix.counts && p.ix.bits + {60} == p'.ix.bits;
  }

  lemma ModifyRange(t: int, price: u128)
    requires t == -1 && Budget.DeltaAmountsSigned(t, price, 0, 60, DEPTH).Ok?
    ensures var cost := Budget.DeltaAmountsSigned(t, price, 0, 60, DEPTH).value;
            ModifyPosition(Single(t, price, Tick(0, 1000, 0, 0), map[0 := 1], {0}, PLACED), 0, 60, DEPTH)
            == Ok(Modified(LOWER, UPPER, false, true, 0, cost.0, cost.1))
  {
    hide Budget.DeltaAmountsSigned, Update;
    assert Update(Slot(0, 0, Tick(0, 1000, 0, 0)), DEPTH, false) == Ok((LOWER, false)) by { UpdateEnds(); }
    assert Update(EMPTY, DEPTH, true) == Ok((UPPER, true)) by { UpdateEnds(); }
  }

  lemma UpdateEnds()
    ensures Update(Slot(0, 0, Tick(0, 1000, 0, 0)), DEPTH, false) == Ok((LOWER, false))
    ensures Update(EMPTY, DEPTH, true) == Ok((UPPER, true))
  {
    UpdateFresh(Tick(0, 1000, 0, 0), DEPTH, false);
    UpdateFresh(Tick(0, 0, 0, 0), DEPTH, true);
    hide Update;
  }

  /** The first liquidity of a tick. */
  lemma UpdateFresh(queue: Tick, delta: i128, upper: bool)
    requires delta > 0 && queue.orders + queue.remaining <= U64_MAX
    ensures Update(Slot(0, 0, queue), delta, upper)
            == Ok((Slot(if upper then -delta else delta, delta, queue), queue.orders + queue.remaining == 0))
  {}

  /** Short of the tick the search returned, the price moves to the limit at no cost. */
  lemma MoveShort(p: Pool, next: int, stop: int)
    requires p.ix.spacing > 0 && MIN_TICK < stop < next < MAX_TICK && p.liquidity == 0 && p.tick < stop
             && 0 < p.price < Budget.PriceOf(stop)
    ensures SwapStep(p, UpTo(Budget.PriceOf(stop)), 1, next, 2500, Budget.PriceOf(stop))
            == Ok((p.(price := Budget.PriceOf(stop), tick := stop), 1))
  {
    hide Budget.PriceOf, SwapMath.Step, SqrtPriceAtTick, Ratio, Invert, TickAt, Arrive;
    NoLiquidityStep(p.price, Budget.PriceOf(stop));
    TickInverse.TickRoundTrip(stop);
    SqrtPriceIncreasing(stop, next);
    SqrtPriceIncreasing(stop, MAX_TICK);
    SqrtPriceRange(MAX_TICK);
    assert Move(p, UpTo(Budget.PriceOf(stop)), 1, 2500, Budget.PriceOf(stop)) == Ok((Budget.PriceOf(stop), 1));
  }

  /** Going on to tick 60 instead, the end of the position takes its liquidity from none. */
  lemma CrossFails(price: u128, t: int)
    requires t == -1 && 0 < price < Budget.PriceOf(60)
    ensures SwapStep(Ranged(t, price), Upward(), 1, 60, 2500, Budget.PriceOf(60)).Err?
  {
    hide Budget.PriceOf, SwapMath.Step, Arrive;
    var p := Ranged(t, price);
    NoLiquidityStep(price, Budget.PriceOf(60));
    assert Move(p, Upward(), 1, 2500, Budget.PriceOf(60)) == Ok((Budget.PriceOf(60), 1));
    hide Move;
    ArriveFails(p, 60);
  }

  lemma ArriveFails(p: Pool, next: int)
    requires p.ix.spacing > 0 && InRange(next) && p.liquidity == 0 && SlotAt(p.ix, next) == UPPER
    ensures Arrive(p, Upward(), next, 1, 2500).Err?
  {
    hide Budget.PriceOf, QuoteAt, MatchAmounts, Quote.Num, Quote.Den, Consume, SlotAt;
    NoOrdersMatch(QuoteAt(next, true));
    NothingConsumed(Tick(0, 0, 0, 0));
  }

  lemma NoOrdersMatch(q: Quote)
    requires q.Valid()
    ensures MatchAmounts(0, q, 1, true, 2500, true) == Ok(Match(0, 0, 0, 0))
  {}

  // ---- The run ----

  /** From a new pool just below tick 0: an order is placed at tick 0 and a position opened from there to tick
      60, then one token is swapped upwards with a limit at tick 30. */
  function LastToken(t: int): seq<Action>
    requires t == -1
  {
    var w := UpTo(Budget.PriceOf(30));
    [Do(Place(0, true, 1000)), Do(OpenPosition(0, 60, DEPTH)),
     Begin(w, 1, 0, false), Seek(0), Pass(2500, Budget.PriceOf(0)), Seek(60), Pass(2500, Budget.PriceOf(30))]
  }

  lemma PrepareRange(t: int)
    requires t == -1
    ensures InPriceRange(SqrtPriceAtTick(t)) && SqrtPriceAtTick(t) <= U128_MAX
            && Budget.PriceAtTick(t, SqrtPriceAtTick(t))
    ensures var p := Apply(Created(1, SqrtPriceAtTick(t)), Place(0, true, 1000));
            p.ix.spacing == 1 && Apply(p, OpenPosition(0, 60, DEPTH)) == Ranged(t, SqrtPriceAtTick(t))
  {
    hide PlaceOrder, AddLiquidity, BurnLiquidity, GrowOrder, ShrinkOrder, SettleOrder, SwapStep, TickAt,
        SqrtPriceAtTick;
    TickInverse.TickRoundTrip(t);
    SqrtPriceIncreasing(t, 0);
    PlaceAtZero(SqrtPriceAtTick(t));
    OpenRange(t, SqrtPriceAtTick(t));
  }

  /** The two searches of the swap. */
  lemma RangeSearches(t: int, price: u128)
    requires t == -1
    ensures Started(Ranged(t, price).ix, t, false, Some((false, 0)))
    ensures Searched(Ranged(t, price).ix, t, 0, false, false, Some(0))
    ensures Searched(Ranged(t, price).ix, t, 0, true, false, Some(60))
    ensures forall r :: Searched(Ranged(t, price).ix, t, 0, true, false, r) ==> r == Some(60)
  {
    assert ArrayStart(-1, 1) == -60 && ArrayStart(0, 1) == 0 && ArrayStart(60, 1) == 60;
    var ix := Ranged(t, price).ix;
    hide ArrayStart;
    assert !AheadInOwnArray(ix, t, 0, false);
    assert 60 in ix.bits && Beyond(0, 60, false);
    forall r | Searched(ix, t, 0, true, false, r)
      ensures r == Some(60)
    {
      if r.Some? { assert InArray(ix, ArrayStart(r.value, 1), r.value); }
    }
  }

  /** The passes of the swap: to tick 0, where it leaves the orders, and past them to its limit. */
  lemma RangePasses(t: int)
    requires t == -1 && SqrtPriceAtTick(t) <= U128_MAX
    ensures var w := UpTo(Budget.PriceOf(30));
            && SwapStep(Ranged(t, SqrtPriceAtTick(t)), w, 1, 0, 2500, Budget.PriceOf(0))
               == Ok((Ranged(t, Budget.PriceOf(0)), 1))
            && SwapStep(Ranged(t, Budget.PriceOf(0)), w, 1, 60, 2500, Budget.PriceOf(30))
               == Ok((Ranged(30, Budget.PriceOf(30)), 1))
    ensures SwapStep(Ranged(t, Budget.PriceOf(0)), Upward(), 1, 60, 2500, Budget.PriceOf(60)).Err?
    ensures Budget.PriceOf(0) < Budget.PriceOf(30) < Budget.PriceOf(60)
  {
    hide SwapStep, SqrtPriceAtTick, Ratio, Invert, UpTo;
    var p, q := Ranged(t, SqrtPriceAtTick(t)), Ranged(t, Budget.PriceOf(0));
    SqrtPriceRange(t);
    SqrtPriceIncreasing(t, 0);
    SqrtPriceIncreasing(0, 30);
    SqrtPriceIncreasing(30, 60);
    SqrtPriceIncreasing(60, MAX_TICK);
    SqrtPriceRange(MAX_TICK);
    ReachAndStop(p, 0, Budget.PriceOf(0), Budget.PriceOf(30));
    assert p.ix.slots[0 := SlotAt(p.ix, 0)] == p.ix.slots;
    MoveShort(q, 60, 30);
    CrossFails(Budget.PriceOf(0), t);
  }

  /** The run goes through. It is not sound: after the first pass the search goes on where it cannot, and with no
      liquidity the next pass moves the price instead of spending what is left on the fee. At its end
      the position is in range and the pool's liquidity does not know; had the swap gone on to the end of the
      position, crossing it would have taken the liquidity below zero. */
  lemma LastTokenBreaksLiquidity(t: int)
    requires t == -1
    ensures InPriceRange(SqrtPriceAtTick(t)) && SqrtPriceAtTick(t) <= U128_MAX
    ensures var end := Ranged(30, Budget.PriceOf(30));
            && Leads(NewSession(1, SqrtPriceAtTick(t)), LastToken(t), Session(end, Idle))
            && end.liquidity == 0 && Total(end.positions, Active(end.tick)) == DEPTH && !Inv(end)
    ensures var w, stopped := UpTo(Budget.PriceOf(30)), Ranged(t, Budget.PriceOf(0));
            !Continues(w, 0, stopped) && !Spends(stopped, w, 1, 60, Pass(2500, Budget.PriceOf(30)))
    ensures SwapStep(Ranged(t, Budget.PriceOf(0)), Upward(), 1, 60, 2500, Budget.PriceOf(60)).Err?
  {
    hide SwapStep, SqrtPriceAtTick, Ratio, Invert, Searched, Started, Budget.PriceOf, PlaceOrder, AddLiquidity,
        BurnLiquidity, GrowOrder, ShrinkOrder, SettleOrder, TickAt, Apply, Budget.PriceAtTick, Agrees;
    PrepareRange(t);
    RangePasses(t);
    RangeSearches(t, SqrtPriceAtTick(t));
    RangeSearches(t, Budget.PriceOf(0));
    assert ArrayStart(0, 1) == 0;
    var w := UpTo(Budget.PriceOf(30));
    var x0 := NewSession(1, SqrtPriceAtTick(t));
    var x1 := Session(Apply(x0.pool, Place(0, true, 1000)), Idle);
    var x2 := Session(Ranged(t, SqrtPriceAtTick(t)), Idle);
    var x3 := Session(x2.pool, Seeking(w, 1, 0, false, false));
    var x4 := Session(x2.pool, Toward(w, 1, 0, false));
    var x5 := Session(Ranged(t, Budget.PriceOf(0)), Seeking(w, 1, 0, true, true));
    var x6 := Session(x5.pool, Toward(w, 1, 60, true));
    var x7 := Session(Ranged(30, Budget.PriceOf(30)), Idle);
    var run := LastToken(t);
    assert run[6..] == [Pass(2500, Budget.PriceOf(30))];
    assert Can(x6, run[6]) && After(x6, run[6]) == x7;
    assert Can(x5, run[5]) && After(x5, run[5]) == x6;
    assert Can(x4, run[4]) && After(x4, run[4]) == x5;
    assert Can(x3, run[3]) && After(x3, run[3]) == x4;
    assert Can(x2, run[2]) && After(x2, run[2]) == x3;
    assert Can(x1, run[1]) && After(x1, run[1]) == x2;
    assert Can(x0, run[0]) && After(x0, run[0]) == x1;
    hide Can, After;
    SevenLead(run, x0, x1, x2, x3, x4, x5, x6, x7);
  }

  lemma SevenLead(run: seq<Action>, x0: Session, x1: Session, x2: Session, x3: Session, x4: Session, x5: Session,
      x6: Session, x7: Session)
    requires |run| == 7
    requires Can(x0, run[0]) && After(x0, run[0]) == x1 && Can(x1, run[1]) && After(x1, run[1]) == x2
    requires Can(x2, run[2]) && After(x2, run[2]) == x3 && Can(x3, run[3]) && After(x3, run[3]) == x4
    requires Can(x4, run[4]) && After(x4, run[4]) == x5 && Can(x5, run[5]) && After(x5, run[5]) == x6
    requires Can(x6, run[6]) && After(x6, run[6]) == x7
    ensures Leads(x0, run, x7)
  {
    hide Can, After;
    LeadStep(x6, run[6..], x7, x7);
    LeadStep(x5, run[5..], x6, x7);
    LeadStep(x4, run[4..], x5, x7);
    LeadStep(x3, run[3..], x4, x7);
    LeadStep(x2, run[2..], x3, x7);
    LeadStep(x1, run[1..], x2, x7);
    LeadStep(x0, run, x1, x7);
  }

  lemma LeadStep(x: Session, run: seq<Action>, next: Session, end: Session)
    requires run != [] && Can(x, run[0]) && After(x, run[0]) == next
    requires if |run| == 1 then next == end else Leads(next, run[1..], end)
    ensures Leads(x, run, end)
  {
    hide Can, After;
  }

  // ---- Orders that are passed are paid twice ----

  /** A downward exact-input swap with the fee on the input. */
  function Downward(): Swap { Swap(MIN_SQRT_PRICE_X64 + 1, true, true, true) }

  const SETTLED: Order := Order(0, 1000, 1000, 1000, 1000, Q64)

  /** Tick 0 matched from above; the order there not settled yet, or settled. */
  function Matched(price: u128, order: Order): Pool {
    Pool(Index(1, map[0 := Slot(0, 0, Tick(1, 0, 0, 0)), 60 := WAITING], map[0 := 0, 60 := 1], {60}), -1, price, 0, [],
         map[0 := [OrderAccount(true, order)], 60 := [OrderAccount(true, PLACED)]])
  }

  lemma NoLiquidityDown(current: nat, target: nat)
    requires 0 < target <= current
    ensures SwapMath.Step(current, target, 0, 1000, 0, true, true, true)
            == Some(SwapMath.SwapComputationResult(target, 0, 0, 0))
  {
    CeilIff(0, target, 0);
    CeilIff(0, current, 0);
    hide Out1;
    assert Out1(target, current, 0) == 0 && In0(target, current, 0) == 0 by { NothingDown(target, current); }
    hide In0;
    assert SwapMath.Budget(1000, 0, true, true) == Some(1000);
    CeilIff(0, SwapMath.FEE_RATE_DENOMINATOR, 0);
  }

  lemma NothingDown(lo: nat, hi: nat)
    requires 0 < lo <= hi
    ensures In0(lo, hi, 0) == 0 && Out1(lo, hi, 0) == 0
  {
    CeilIff(0, hi, 0);
    CeilIff(0, lo, 0);
  }

  /** On the way down the orders at tick 0, which sell token 0, are taken for orders that sell token 1. */
  lemma MatchFromAbove(price: u128)
    requires Budget.PriceOf(0) < price < MAX_SQRT_PRICE_X64 && MIN_SQRT_PRICE_X64 + 1 < Budget.PriceOf(0) <= U128_MAX
    ensures SwapStep(TwoTicks(59, price), Downward(), 1000, 0, 0, Budget.PriceOf(0))
            == Ok((Matched(Budget.PriceOf(0), PLACED), 0))
    ensures MatchAmounts(1000, QuoteAt(0, false), 1000, true, 0, true) == Ok(Match(1000, 1000, 0, 1000))
  {
    hide Budget.PriceOf, SwapMath.Step, QuoteAt, Arrive, Matched;
    NoLiquidityDown(price, Budget.PriceOf(0));
    assert Move(TwoTicks(59, price), Downward(), 1000, 0, Budget.PriceOf(0)) == Ok((Budget.PriceOf(0), 1000));
    hide Move;
    ArriveFromAbove(price);
  }

  lemma ArriveFromAbove(price: u128)
    requires Budget.PriceOf(0) <= U128_MAX
    ensures Arrive(TwoTicks(59, price), Downward(), 0, 1000, 0) == Ok((Matched(Budget.PriceOf(0), PLACED), 0))
    ensures MatchAmounts(1000, QuoteAt(0, false), 1000, true, 0, true) == Ok(Match(1000, 1000, 0, 1000))
  {
    hide Budget.PriceOf, QuoteAt, MatchAmounts, Consume, Quote.Num, Quote.Den, AddDelta, Unmark;
    var p, p' := TwoTicks(59, price), Matched(Budget.PriceOf(0), PLACED);
    QueueTheorems.AtPar(false, 1000);
    QueueTheorems.MatchAtPar(1000);
    AllTaken();
    UnmarkZero(p.ix, p'.ix);
  }

  lemma UnmarkZero(ix: Index, ix': Index)
    requires ix == TwoTicks(59, 1).ix && ix' == Matched(1, PLACED).ix
    ensures Unmark(SetSlot(ix, 0, Slot(0, 0, Tick(1, 0, 0, 0))), 0) == Ok(ix')
  {
    assert ArrayStart(0, 1) == 0;
    hide ArrayStart;
    assert ix.slots[0 := Slot(0, 0, Tick(1, 0, 0, 0))] == ix'.slots;
    assert ix.counts[0 := 0] == ix'.counts && ix.bits - {0} == ix'.bits;
  }

  lemma AllTaken()
    ensures Consume(Tick(0, 1000, 0, 0), 1000) == Tick(1, 0, 0, 0)
  {
    QueueTheorems.NothingScaled(1000);
    hide Scale;
  }

  lemma SettleWhole()
    ensures Settle(PLACED, Tick(1, 0, 0, 0), QuoteAt(0, true)) == Ok(Settlement(SETTLED, 1000))
  {
    hide QuoteAt, Quote.Out, Unfilled, Credited;
    QueueTheorems.AtPar(true, 1000);
    QueueTheorems.NothingScaled(1000);
  }

  lemma SettleMatched(price: u128)
    ensures SettleOrder(Matched(price, PLACED), 0, 0) == Ok(Matched(price, SETTLED))
    ensures Settle(PLACED, Tick(1, 0, 0, 0), QuoteAt(0, true)) == Ok(Settlement(SETTLED, 1000))
  {
    SettleWhole();
    hide QuoteAt, Settle, SetOrder;
    SettledOrders(price);
  }

  lemma SettledOrders(price: u128)
    ensures |OrdersAt(Matched(price, PLACED), 0)| == 1
    ensures SetOrder(Matched(price, PLACED), 0, 0, SETTLED) == Matched(price, SETTLED).orders
  {
    var p, p' := Matched(price, PLACED), Matched(price, SETTLED);
    assert OrdersAt(p, 0)[0 := OrderAccount(true, SETTLED)] == OrdersAt(p', 0);
  }

  /** Orders are placed at ticks 0 and 60; one token is swapped upwards as far as tick 60, past the orders at tick 0;
      a taker swaps 1000 down to tick 0; the owner of the order there settles. */
  function PaidTwice(t: int): seq<Action>
    requires t == -1
  {
    [Do(Place(0, true, 1000)), Do(Place(60, true, 1000)),
     Begin(UpTo(Budget.PriceOf(60)), 1, 0, false), Seek(0), Pass(2500, Budget.PriceOf(0)),
     Seek(60), Pass(2500, Budget.PriceOf(60)),
     Begin(Downward(), 1000, 0, true), Seek(0), Pass(0, Budget.PriceOf(0)),
     Do(SettleAt(0, 0))]
  }

  lemma TwoSearches(t: int, price: u128)
    requires t == -1
    ensures Started(TwoTicks(t, price).ix, t, false, Some((false, 0)))
    ensures Searched(TwoTicks(t, price).ix, t, 0, false, false, Some(0))
    ensures Searched(TwoTicks(t, price).ix, t, 0, true, false, Some(60))
  {
    assert ArrayStart(-1, 1) == -60 && ArrayStart(0, 1) == 0 && ArrayStart(60, 1) == 60;
    var ix := TwoTicks(t, price).ix;
    hide ArrayStart;
    assert !AheadInOwnArray(ix, t, 0, false);
    assert 60 in ix.bits && Beyond(0, 60, false);
  }

  lemma SearchesDown(price: u128)
    ensures Started(TwoTicks(59, price).ix, 59, true, Some((true, 0)))
    ensures Searched(TwoTicks(59, price).ix, 59, 0, true, true, Some(0))
  {
    assert ArrayStart(59, 1) == 0 && ArrayStart(0, 1) == 0 && ArrayStart(60, 1) == 60;
    var ix := TwoTicks(59, price).ix;
    hide ArrayStart;
    assert InArray(ix, 0, 0);
  }

  /** The two passes upwards move no tokens. */
  lemma UpwardPasses(t: int)
    requires t == -1 && SqrtPriceAtTick(t) <= U128_MAX
    ensures var w := UpTo(Budget.PriceOf(60));
            && SwapStep(TwoTicks(t, SqrtPriceAtTick(t)), w, 1, 0, 2500, Budget.PriceOf(0))
               == Ok((TwoTicks(t, Budget.PriceOf(0)), 1))
            && SwapStep(TwoTicks(t, Budget.PriceOf(0)), w, 1, 60, 2500, Budget.PriceOf(60))
               == Ok((TwoTicks(59, Budget.PriceOf(60)), 1))
    ensures 0 < SqrtPriceAtTick(t) < Budget.PriceOf(0) < Budget.PriceOf(60) < MAX_SQRT_PRICE_X64
    ensures MIN_SQRT_PRICE_X64 + 1 < Budget.PriceOf(0)
  {
    hide SwapStep, SqrtPriceAtTick, Ratio, Invert, UpTo;
    var p, q := TwoTicks(t, SqrtPriceAtTick(t)), TwoTicks(t, Budget.PriceOf(0));
    SqrtPriceRange(t);
    SqrtPriceIncreasing(t, 0);
    SqrtPriceIncreasing(0, 60);
    SqrtPriceIncreasing(60, MAX_TICK);
    SqrtPriceRange(MAX_TICK);
    PriceAt0(0);
    ReachAndStop(p, 0, Budget.PriceOf(0), Budget.PriceOf(60));
    assert p.ix.slots[0 := WAITING] == p.ix.slots;
    ReachAndStop(q, 60, Budget.PriceOf(60), Budget.PriceOf(60));
    assert q.ix.slots[60 := WAITING] == q.ix.slots;
  }

  // ---- What moves ----

  lemma PlaceMoves(p: Pool, tick: int)
    requires p.ix.spacing > 0 && PlaceOrder(p, tick, true, 1000).Ok?
    ensures ToVault(p, Place(tick, true, 1000)) == Queue.Tokens(1000, 0)
  {
    hide PlaceOrder;
  }

  lemma SettleMoves(price: u128)
    ensures ToVault(Matched(price, PLACED), SettleAt(0, 0)) == Queue.Tokens(0, -1000)
  {
    SettleMatched(price);
    hide SettleOrder, Settle, QuoteAt;
  }

  lemma PassMoves(p: Pool, step: Step)
    requires p.ix.spacing > 0 && Passes(p, step) && CurveTrade(p, step) == Trade(0, 0, 0)
    ensures step.SwapTo?
    ensures PassMatch(p, step).amountIn == 0 ==> ToVault(p, step) == NOTHING
    ensures PassMatch(p, step) == Match(1000, 1000, 0, 1000) && step.swap.zeroForOne
            ==> ToVault(p, step) == Queue.Tokens(1000, -1000)
  {
    hide *;
    PassParts(p, step);
    MatchTradeIs(PassMatch(p, step));
    ExchangeIs(step.swap, Trade(0, 0, 0));
    ExchangeIs(step.swap, MatchTradeOf(PassMatch(p, step)));
    TokensAdd(Exchange(step.swap, Trade(0, 0, 0)), Exchange(step.swap, MatchTradeOf(PassMatch(p, step))));
  }

  lemma TokensAdd(a: Queue.Tokens, b: Queue.Tokens)
    ensures a.Plus(b) == Queue.Tokens(a.token0 + b.token0, a.token1 + b.token1)
    ensures NOTHING == Queue.Tokens(0, 0)
  {}

  lemma UpwardMoves(p: Pool, next: int, limit: nat)
    requires p.ix.spacing > 0 && MIN_TICK < next < MAX_TICK && p.liquidity == 0 && p.tick < next
    requires 0 < p.price < Budget.PriceOf(next) <= limit < MAX_SQRT_PRICE_X64
    requires SlotAt(p.ix, next).queue == Tick(0, 1000, 0, 0)
    ensures Passes(p, SwapTo(UpTo(limit), 1, next, 2500, Budget.PriceOf(next)))
    ensures ToVault(p, SwapTo(UpTo(limit), 1, next, 2500, Budget.PriceOf(next))) == NOTHING
  {
    hide SwapStep, Budget.PriceOf, SlotAt, QuoteAt, MatchAmounts, ToVault, Quote.Num, Quote.Den;
    ReachAndStop(p, next, Budget.PriceOf(next), limit);
    var step := SwapTo(UpTo(limit), 1, next, 2500, Budget.PriceOf(next));
    UpwardTrades(p, next, limit);
    StuckMatch(QuoteAt(next, true), 1000);
    hide CurveTrade, PassMatch, Passes;
    PassMoves(p, step);
  }

  lemma UpwardTrades(p: Pool, next: int, limit: nat)
    requires p.ix.spacing > 0 && InRange(next) && p.liquidity == 0
    requires 0 < p.price < Budget.PriceOf(next)
    requires SlotAt(p.ix, next).queue == Tick(0, 1000, 0, 0)
    requires Passes(p, SwapTo(UpTo(limit), 1, next, 2500, Budget.PriceOf(next)))
    ensures var step := SwapTo(UpTo(limit), 1, next, 2500, Budget.PriceOf(next));
            CurveTrade(p, step) == Trade(0, 0, 0) && PassMatch(p, step).amountIn == 0
  {
    hide SwapMath.Step, Budget.PriceOf, SlotAt, QuoteAt, MatchAmounts, Quote.Num, Quote.Den, Arrive, Slot.Initialized;
    NoLiquidityStep(p.price, Budget.PriceOf(next));
    StuckMatch(QuoteAt(next, true), 1000);
  }

  lemma DownwardMoves(price: u128)
    requires Budget.PriceOf(0) < price < MAX_SQRT_PRICE_X64 && MIN_SQRT_PRICE_X64 + 1 < Budget.PriceOf(0) <= U128_MAX
    ensures var step := SwapTo(Downward(), 1000, 0, 0, Budget.PriceOf(0));
            Passes(TwoTicks(59, price), step) && ToVault(TwoTicks(59, price), step) == Queue.Tokens(1000, -1000)
  {
    hide SwapStep, Budget.PriceOf, QuoteAt, MatchAmounts, ToVault, Quote.Num, Quote.Den;
    MatchFromAbove(price);
    DownwardTrades(price);
    hide CurveTrade, PassMatch, Passes;
    PassMoves(TwoTicks(59, price), SwapTo(Downward(), 1000, 0, 0, Budget.PriceOf(0)));
  }

  lemma DownwardTrades(price: u128)
    requires 0 < Budget.PriceOf(0) < price
    requires Passes(TwoTicks(59, price), SwapTo(Downward(), 1000, 0, 0, Budget.PriceOf(0)))
    requires MatchAmounts(1000, QuoteAt(0, false), 1000, true, 0, true) == Ok(Match(1000, 1000, 0, 1000))
    ensures var p, step := TwoTicks(59, price), SwapTo(Downward(), 1000, 0, 0, Budget.PriceOf(0));
            CurveTrade(p, step) == Trade(0, 0, 0) && PassMatch(p, step) == Match(1000, 1000, 0, 1000)
  {
    hide SwapMath.Step, Budget.PriceOf, QuoteAt, MatchAmounts, Quote.Num, Quote.Den, Arrive, Slot.Initialized;
    NoLiquidityDown(price, Budget.PriceOf(0));
  }

  /** One action of a run, with what moves from it on and after it. */
  ghost predicate Link(x: Session, a: Action, y: Session, from: Queue.Tokens, later: Queue.Tokens) {
    Can(x, a) && After(x, a) == y && x.pool.ix.spacing > 0 && from == ActionShare(All, x, a).Plus(later)
  }

  lemma {:induction false} Chain(run: seq<Action>, xs: seq<Session>, left: seq<Queue.Tokens>)
    requires |xs| == |left| == |run| + 1 && left[|run|] == NOTHING
    requires forall i :: 0 <= i < |run| ==> Link(xs[i], run[i], xs[i + 1], left[i], left[i + 1])
    ensures Leads(xs[0], run, xs[|run|]) && Flow(All, xs[0], run) == left[0]
    decreases |run|
  {
    hide Can, After, ActionShare, Flow;
    if run == [] {
      NoFlow(All, xs[0], run);
    } else {
      assert Link(xs[0], run[0], xs[1], left[0], left[1]);
      forall i | 0 <= i < |run[1..]|
        ensures Link(xs[1..][i], run[1..][i], xs[1..][i + 1], left[1..][i], left[1..][i + 1])
      {
        assert Link(xs[i + 1], run[i + 1], xs[i + 2], left[i + 1], left[i + 2]);
      }
      Chain(run[1..], xs[1..], left[1..]);
      FlowStep(All, xs[0], run);
    }
  }

  lemma DoShare(x: Session, step: Step)
    requires x.pool.ix.spacing > 0
    ensures ActionShare(All, x, Do(step)) == ToVault(x.pool, step)
  {
    hide ToVault;
  }

  lemma PassShare(x: Session, feeRate: nat, bounded: nat)
    requires x.pool.ix.spacing > 0 && x.phase.Toward?
    ensures ActionShare(All, x, Pass(feeRate, bounded))
            == ToVault(x.pool, SwapTo(x.phase.w, x.phase.remaining, x.phase.next, feeRate, bounded))
  {
    hide ToVault;
  }

  lemma SearchShare(x: Session, a: Action)
    requires x.pool.ix.spacing > 0 && (a.Begin? || a.Seek?)
    ensures ActionShare(All, x, a) == NOTHING
  {}

  lemma LinkIs(x: Session, a: Action, y: Session, share: Queue.Tokens, from: Queue.Tokens, later: Queue.Tokens)
    requires Can(x, a) && After(x, a) == y && x.pool.ix.spacing > 0 && ActionShare(All, x, a) == share
    requires from.token0 == share.token0 + later.token0 && from.token1 == share.token1 + later.token1
    ensures Link(x, a, y, from, later)
  {
    hide Can, After, ActionShare;
  }

  /** The sessions of the run. */
  function Sessions(t: int): seq<Session>
    requires t == -1 && InPriceRange(SqrtPriceAtTick(t)) && SqrtPriceAtTick(t) <= U128_MAX
    requires Budget.PriceOf(0) <= U128_MAX && Budget.PriceOf(60) <= U128_MAX
  {
    hide SqrtPriceAtTick, Budget.PriceOf, TickAt, PlaceOrder, InPriceRange;
    var w, d, mid := UpTo(Budget.PriceOf(60)), Downward(), TwoTicks(t, Budget.PriceOf(0));
    var start, high := TwoTicks(t, SqrtPriceAtTick(t)), TwoTicks(59, Budget.PriceOf(60));
    [NewSession(1, SqrtPriceAtTick(t)),
     Session(Single(t, SqrtPriceAtTick(t), Tick(0, 1000, 0, 0), map[0 := 1], {0}, PLACED), Idle),
     Session(start, Idle), Session(start, Seeking(w, 1, 0, false, false)), Session(start, Toward(w, 1, 0, false)),
     Session(mid, Seeking(w, 1, 0, true, true)), Session(mid, Toward(w, 1, 60, true)),
     Session(high, Idle), Session(high, Seeking(d, 1000, 0, true, false)), Session(high, Toward(d, 1000, 0, false)),
     Session(Matched(Budget.PriceOf(0), PLACED), Idle), Session(Matched(Budget.PriceOf(0), SETTLED), Idle)]
  }

  /** The run goes through. Nobody ever brought any token 1, and 2000 of it have left: 1000 to the taker, for his
      1000 of token 0, and 1000 to the owner of the order whose 1000 of token 0 are still there. */
  lemma PassedOrdersPaidTwice(t: int)
    requires t == -1
    ensures InPriceRange(SqrtPriceAtTick(t)) && SqrtPriceAtTick(t) <= U128_MAX && Budget.PriceOf(0) <= U128_MAX
    ensures var x0, end := NewSession(1, SqrtPriceAtTick(t)), Session(Matched(Budget.PriceOf(0), SETTLED), Idle);
            && Leads(x0, PaidTwice(t), end) && Flow(All, x0, PaidTwice(t)) == Queue.Tokens(3000, -2000)
            && end.pool.positions == []
  {
    hide SqrtPriceAtTick, Ratio, Invert, Budget.PriceOf, TickAt, Leads, Flow, Sessions, Link, PaidTwice, Left,
        InPriceRange;
    PlaceBoth(t);
    UpwardPasses(t);
    RunAndSessions(t);
    AllLinks(t);
    Chain(PaidTwice(t), Sessions(t), Left());
  }

  /** What is still to move before each action, and after the last. */
  function Left(): seq<Queue.Tokens> {
    [Queue.Tokens(3000, -2000), Queue.Tokens(2000, -2000),
     Queue.Tokens(1000, -2000), Queue.Tokens(1000, -2000), Queue.Tokens(1000, -2000), Queue.Tokens(1000, -2000),
     Queue.Tokens(1000, -2000), Queue.Tokens(1000, -2000), Queue.Tokens(1000, -2000), Queue.Tokens(1000, -2000),
     Queue.Tokens(0, -1000), Queue.Tokens(0, 0)]
  }

  lemma AllLinks(t: int)
    requires t == -1 && InPriceRange(SqrtPriceAtTick(t)) && SqrtPriceAtTick(t) <= U128_MAX
    requires Budget.PriceOf(0) <= U128_MAX && Budget.PriceOf(60) <= U128_MAX
    ensures |PaidTwice(t)| == 11 && |Sessions(t)| == |Left()| == 12 && Left()[11] == NOTHING
    ensures Left()[0] == Queue.Tokens(3000, -2000)
    ensures forall i :: 0 <= i < 11 ==>
              Link(Sessions(t)[i], PaidTwice(t)[i], Sessions(t)[i + 1], Left()[i], Left()[i + 1])
  {
    hide SqrtPriceAtTick, Budget.PriceOf, TickAt, Sessions, Link, PaidTwice, InPriceRange;
    RunAndSessions(t);
    PlaceLinks(t);
    UpwardLinks(t);
    DownwardSearches(t);
    DownwardLinks(t);
    var run, xs := PaidTwice(t), Sessions(t);
    forall i | 0 <= i < 11
      ensures Link(xs[i], run[i], xs[i + 1], Left()[i], Left()[i + 1])
    {
      if 2 <= i < 7 { assert Link(xs[i], run[i], xs[i + 1], Queue.Tokens(1000, -2000), Queue.Tokens(1000, -2000)); }
    }
  }

  lemma RunAndSessions(t: int)
    requires t == -1 && InPriceRange(SqrtPriceAtTick(t)) && SqrtPriceAtTick(t) <= U128_MAX
    requires Budget.PriceOf(0) <= U128_MAX && Budget.PriceOf(60) <= U128_MAX
    ensures |PaidTwice(t)| == 11 && |Sessions(t)| == 12
    ensures Sessions(t)[0] == NewSession(1, SqrtPriceAtTick(t))
    ensures Sessions(t)[11] == Session(Matched(Budget.PriceOf(0), SETTLED), Idle)
  {
    hide SqrtPriceAtTick, Budget.PriceOf, TickAt, InPriceRange;
  }

  lemma PlaceLinks(t: int)
    requires t == -1 && InPriceRange(SqrtPriceAtTick(t)) && SqrtPriceAtTick(t) <= U128_MAX
    requires Budget.PriceOf(0) <= U128_MAX && Budget.PriceOf(60) <= U128_MAX
    ensures |PaidTwice(t)| == 11 && |Sessions(t)| == 12
    ensures var run, xs := PaidTwice(t), Sessions(t);
            && Link(xs[0], run[0], xs[1], Queue.Tokens(3000, -2000), Queue.Tokens(2000, -2000))
            && Link(xs[1], run[1], xs[2], Queue.Tokens(2000, -2000), Queue.Tokens(1000, -2000))
  {
    hide SqrtPriceAtTick, Budget.PriceOf, TickAt, InPriceRange, PlaceOrder, ToVault, Link, ActionShare, AddLiquidity,
        BurnLiquidity, GrowOrder, ShrinkOrder, SettleOrder, SwapStep;
    var price := SqrtPriceAtTick(t);
    TickInverse.TickRoundTrip(t);
    PlaceAtZero(price);
    PlaceAt60(t, price, 60);
    PlaceMoves(Created(1, price), 0);
    PlaceMoves(Single(t, price, Tick(0, 1000, 0, 0), map[0 := 1], {0}, PLACED), 60);
    var run, xs := PaidTwice(t), Sessions(t);
    DoShare(xs[0], Place(0, true, 1000));
    DoShare(xs[1], Place(60, true, 1000));
    LinkIs(xs[0], run[0], xs[1], Queue.Tokens(1000, 0), Queue.Tokens(3000, -2000), Queue.Tokens(2000, -2000));
    LinkIs(xs[1], run[1], xs[2], Queue.Tokens(1000, 0), Queue.Tokens(2000, -2000), Queue.Tokens(1000, -2000));
  }

  lemma UpwardLinks(t: int)
    requires t == -1 && InPriceRange(SqrtPriceAtTick(t)) && SqrtPriceAtTick(t) <= U128_MAX
    requires Budget.PriceOf(0) <= U128_MAX && Budget.PriceOf(60) <= U128_MAX
    ensures |PaidTwice(t)| == 11 && |Sessions(t)| == 12
    ensures var run, xs, left := PaidTwice(t), Sessions(t), Queue.Tokens(1000, -2000);
            forall i :: 2 <= i < 7 ==> Link(xs[i], run[i], xs[i + 1], left, left)
  {
    hide SqrtPriceAtTick, Ratio, Invert, Budget.PriceOf, TickAt, InPriceRange, ToVault, Link, ActionShare, SwapStep,
        Searched, Started;
    UpwardPasses(t);
    TwoSearches(t, SqrtPriceAtTick(t));
    TwoSearches(t, Budget.PriceOf(0));
    UpwardMoves(TwoTicks(t, SqrtPriceAtTick(t)), 0, Budget.PriceOf(60));
    UpwardMoves(TwoTicks(t, Budget.PriceOf(0)), 60, Budget.PriceOf(60));
    assert ArrayStart(0, 1) == 0;
    var run, xs, left := PaidTwice(t), Sessions(t), Queue.Tokens(1000, -2000);
    SearchShare(xs[2], run[2]);
    SearchShare(xs[3], run[3]);
    SearchShare(xs[5], run[5]);
    PassShare(xs[4], 2500, Budget.PriceOf(0));
    PassShare(xs[6], 2500, Budget.PriceOf(60));
    LinkIs(xs[2], run[2], xs[3], NOTHING, left, left);
    LinkIs(xs[3], run[3], xs[4], NOTHING, left, left);
    LinkIs(xs[4], run[4], xs[5], NOTHING, left, left);
    LinkIs(xs[5], run[5], xs[6], NOTHING, left, left);
    LinkIs(xs[6], run[6], xs[7], NOTHING, left, left);
  }

  lemma DownwardSearches(t: int)
    requires t == -1 && InPriceRange(SqrtPriceAtTick(t)) && SqrtPriceAtTick(t) <= U128_MAX
    requires Budget.PriceOf(0) <= U128_MAX && Budget.PriceOf(60) <= U128_MAX
    ensures |PaidTwice(t)| == 11 && |Sessions(t)| == 12
    ensures var run, xs, left := PaidTwice(t), Sessions(t), Queue.Tokens(1000, -2000);
            Link(xs[7], run[7], xs[8], left, left) && Link(xs[8], run[8], xs[9], left, left)
  {
    hide SqrtPriceAtTick, Budget.PriceOf, TickAt, InPriceRange, Link, ActionShare, Searched, Started, TwoTicks;
    SearchesDown(Budget.PriceOf(60));
    assert TwoTicks(59, Budget.PriceOf(60)).tick == 59 && TwoTicks(59, Budget.PriceOf(60)).ix.spacing == 1 by {
      HighIs(Budget.PriceOf(60));
    }
    var run, xs, left := PaidTwice(t), Sessions(t), Queue.Tokens(1000, -2000);
    SearchShare(xs[7], run[7]);
    SearchShare(xs[8], run[8]);
    LinkIs(xs[7], run[7], xs[8], NOTHING, left, left);
    LinkIs(xs[8], run[8], xs[9], NOTHING, left, left);
  }

  lemma HighIs(price: u128)
    ensures TwoTicks(59, price).tick == 59 && TwoTicks(59, price).ix.spacing == 1
  {}

  lemma DownwardLinks(t: int)
    requires t == -1 && InPriceRange(SqrtPriceAtTick(t)) && SqrtPriceAtTick(t) <= U128_MAX
    requires Budget.PriceOf(0) <= U128_MAX && Budget.PriceOf(60) <= U128_MAX
    ensures |PaidTwice(t)| == 11 && |Sessions(t)| == 12
    ensures var run, xs, left := PaidTwice(t), Sessions(t), Queue.Tokens(1000, -2000);
            && Link(xs[9], run[9], xs[10], left, Queue.Tokens(0, -1000))
            && Link(xs[10], run[10], xs[11], Queue.Tokens(0, -1000), Queue.Tokens(0, 0))
  {
    hide SqrtPriceAtTick, Ratio, Invert, Budget.PriceOf, TickAt, InPriceRange, ToVault, Link, ActionShare, SwapStep,
        SettleOrder, PlaceOrder, AddLiquidity, BurnLiquidity, GrowOrder, ShrinkOrder;
    UpwardPasses(t);
    MatchFromAbove(Budget.PriceOf(60));
    DownwardMoves(Budget.PriceOf(60));
    SettleMatched(Budget.PriceOf(0));
    SettleMoves(Budget.PriceOf(0));
    var run, xs, left := PaidTwice(t), Sessions(t), Queue.Tokens(1000, -2000);
    PassShare(xs[9], 0, Budget.PriceOf(0));
    DoShare(xs[10], SettleAt(0, 0));
    LinkIs(xs[9], run[9], xs[10], Queue.Tokens(1000, -1000), left, Queue.Tokens(0, -1000));
    LinkIs(xs[10], run[10], xs[11], Queue.Tokens(0, -1000), Queue.Tokens(0, -1000), Queue.Tokens(0, 0));
  }
}
