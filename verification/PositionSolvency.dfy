/** Over any run of the pool the liquidity providers' share of the vault holds, of each token, at least what burning
    every position at the current price returns: mints round up, burns and swaps round down, and between two
    initialized ticks a swap moves along the curve of exactly the positions in range. */
module PositionSolvency {
  import opened Types
  import opened Arith
  import opened LiquidityMath
  import opened TickMath
  import opened TickAtPrice
  import opened TickIndex
  import opened TickSearch
  import opened LimitOrder
  import opened Pool
  import opened PoolInvariants
  import opened PoolRuns
  import SwapMath
  import Curve = SwapTheorems
  import FeeInside
  import Budget = LiquidityBudget
  import Queue = LimitOrderRun

  // ---- What positions hold ----

  predicate Ranged(pos: Position) { InRange(pos.lower) && InRange(pos.upper) && pos.lower < pos.upper }

  predicate AllRanged(ps: seq<Position>) { forall i :: 0 <= i < |ps| ==> Ranged(ps[i]) }

  function Low(pos: Position): (a: nat)
    requires Ranged(pos)
    ensures 0 < a && a == SqrtPriceAtTick(pos.lower)
  {
    hide Ratio, Invert, SqrtPriceAtTick;
    SqrtPriceRange(pos.lower);
    Budget.PriceOf(pos.lower)
  }

  function High(pos: Position): (b: nat)
    requires Ranged(pos)
    ensures Low(pos) < b && b == SqrtPriceAtTick(pos.upper)
  {
    hide Ratio, Invert, SqrtPriceAtTick;
    SqrtPriceIncreasing(pos.lower, pos.upper);
    Budget.PriceOf(pos.upper)
  }

  /** The price within the position's range. */
  function Inner(pos: Position, price: nat): (c: nat)
    requires Ranged(pos)
    ensures Low(pos) <= c <= High(pos)
  {
    hide Low, High;
    Budget.Clamp(price, Low(pos), High(pos))
  }

  /** What the curve assigns to a token, by whether it is token 0. */
  function Reserve(price: nat, liquidity: nat, zero: bool): real
    requires price > 0
  {
    if zero then Curve.Reserve0(price, liquidity) else Curve.Reserve1(price, liquidity)
  }

  /** The exact amount of a token a position stands for at a price. */
  function Hold(pos: Position, price: nat, zero: bool): real
    requires Ranged(pos)
  {
    Reserve(Inner(pos, price), pos.liquidity, zero) - Reserve(if zero then High(pos) else Low(pos), pos.liquidity, zero)
  }

  function TotalHeld(ps: seq<Position>, price: nat, zero: bool): real
    requires AllRanged(ps)
  {
    if ps == [] then 0.0 else TotalHeld(ps[..|ps| - 1], price, zero) + Hold(ps[|ps| - 1], price, zero)
  }

  /** What burning a position returns, rounded down as the program does. */
  function BurnReturns(pos: Position, price: nat, zero: bool): nat
    requires Ranged(pos)
  {
    if zero then Out0(Inner(pos, price), High(pos), pos.liquidity) else Out1(Low(pos), Inner(pos, price), pos.liquidity)
  }

  function MintCosts(pos: Position, price: nat, zero: bool): nat
    requires Ranged(pos)
  {
    if zero then In0(Inner(pos, price), High(pos), pos.liquidity) else In1(Low(pos), Inner(pos, price), pos.liquidity)
  }

  function AllBurnsReturn(ps: seq<Position>, price: nat, zero: bool): nat
    requires AllRanged(ps)
  {
    if ps == [] then 0 else AllBurnsReturn(ps[..|ps| - 1], price, zero) + BurnReturns(ps[|ps| - 1], price, zero)
  }

  /** Minting costs at least, and burning returns at most, what the position stands for. */
  lemma HoldBetween(pos: Position, price: nat, zero: bool)
    requires Ranged(pos)
    ensures BurnReturns(pos, price, zero) as real <= Hold(pos, price, zero) <= MintCosts(pos, price, zero) as real
  {
    hide Low, High, Inner, Curve.Reserve0, Curve.Reserve1, In0, In1, Out0, Out1;
    var a, c, b := Low(pos), Inner(pos, price), High(pos);
    if zero {
      Curve.StepAmountsBounded(c, b, pos.liquidity, false);
      Curve.StepAmountsBounded(b, c, pos.liquidity, true);
    } else {
      Curve.StepAmountsBounded(a, c, pos.liquidity, false);
      Curve.StepAmountsBounded(c, a, pos.liquidity, true);
    }
  }

  lemma {:induction false} BurnsWithinHeld(ps: seq<Position>, price: nat, zero: bool)
    requires AllRanged(ps)
    ensures AllBurnsReturn(ps, price, zero) as real <= TotalHeld(ps, price, zero)
    decreases |ps|
  {
    hide Hold, BurnReturns, Ranged;
    if ps != [] {
      BurnsWithinHeld(ps[..|ps| - 1], price, zero);
      HoldBetween(ps[|ps| - 1], price, zero);
    }
  }

  lemma ReserveAdds(price: nat, l: nat, m: nat, zero: bool)
    requires price > 0
    ensures Reserve(price, l + m, zero) == Reserve(price, l, zero) + Reserve(price, m, zero)
  {
    Distribute(Q64, l, m);
    Distribute(price, l, m);
    if zero {
      Quotients((l * Q64) as real, (m * Q64) as real, price as real);
    } else {
      Quotients((l * price) as real, (m * price) as real, Q64 as real);
    }
  }

  lemma Quotients(x: real, y: real, d: real)
    requires d > 0.0
    ensures (x + y) / d == x / d + y / d
  {}

  lemma ReserveOfNone(price: nat, zero: bool)
    requires price > 0
    ensures Reserve(price, 0, zero) == 0.0
  {}

  // ---- Changing a position ----

  lemma {:induction false} HeldUpdate(ps: seq<Position>, i: nat, pos: Position, price: nat, zero: bool)
    requires AllRanged(ps) && i < |ps| && Ranged(pos)
    ensures AllRanged(ps[i := pos])
    ensures TotalHeld(ps[i := pos], price, zero)
            == TotalHeld(ps, price, zero) + Hold(pos, price, zero) - Hold(ps[i], price, zero)
    decreases |ps|
  {
    hide Hold, Ranged;
    var n := |ps| - 1;
    if i == n {
      assert ps[i := pos][..n] == ps[..n];
    } else {
      assert ps[i := pos][..n] == ps[..n][i := pos];
      HeldUpdate(ps[..n], i, pos, price, zero);
    }
  }

  lemma HeldAppend(ps: seq<Position>, pos: Position, price: nat, zero: bool)
    requires AllRanged(ps) && Ranged(pos)
    ensures AllRanged(ps + [pos])
            && TotalHeld(ps + [pos], price, zero) == TotalHeld(ps, price, zero) + Hold(pos, price, zero)
  {
    hide Hold, Ranged;
    assert (ps + [pos])[..|ps|] == ps;
  }

  /** The part of a position that a change adds or takes stands for the difference. */
  lemma HoldSplits(pos: Position, delta: nat, price: nat, zero: bool)
    requires Ranged(pos)
    ensures Hold(pos.(liquidity := pos.liquidity + delta), price, zero)
            == Hold(pos, price, zero) + Hold(pos.(liquidity := delta), price, zero)
  {
    hide *;
    var grown, part := pos.(liquidity := pos.liquidity + delta), pos.(liquidity := delta);
    var c, e := Inner(pos, price), if zero then High(pos) else Low(pos);
    HoldAt(pos, grown, price, zero);
    HoldAt(pos, pos, price, zero);
    HoldAt(pos, part, price, zero);
    ReserveAdds(c, pos.liquidity, delta, zero);
    ReserveAdds(e, pos.liquidity, delta, zero);
    Regroup(Reserve(c, pos.liquidity, zero), Reserve(c, delta, zero), Reserve(e, pos.liquidity, zero),
        Reserve(e, delta, zero));
  }

  lemma Regroup(a: real, b: real, c: real, d: real)
    ensures (a + b) - (c + d) == (a - c) + (b - d)
  {}

  lemma HoldAt(pos: Position, other: Position, price: nat, zero: bool)
    requires Ranged(pos) && other == pos.(liquidity := other.liquidity)
    ensures Hold(other, price, zero)
            == Reserve(Inner(pos, price), other.liquidity, zero)
                - Reserve(if zero then High(pos) else Low(pos), other.liquidity, zero)
  {
    hide Low, High, Inner, Reserve;
    SameRange(pos, other, price);
  }

  lemma SameRange(pos: Position, other: Position, price: nat)
    requires Ranged(pos) && other == pos.(liquidity := other.liquidity)
    ensures Low(other) == Low(pos) && High(other) == High(pos) && Inner(other, price) == Inner(pos, price)
  {}

  /** The amounts of a modification are those of the part it adds or takes. */
  lemma AmountsAre(p: Pool, pos: Position, delta: i128)
    requires Inv(p) && Ranged(pos) && -I128_MAX <= delta && ModifyPosition(p, pos.lower, pos.upper, delta).Ok?
    ensures var m := ModifyPosition(p, pos.lower, pos.upper, delta).value;
            var part := pos.(liquidity := if delta < 0 then 0 - (delta as int) else delta);
            && m.amount0 == (if delta < 0 then BurnReturns(part, p.price, true) else MintCosts(part, p.price, true))
            && m.amount1 == (if delta < 0 then BurnReturns(part, p.price, false) else MintCosts(part, p.price, false))
  {
    hide Inv, Ratio, Invert, SqrtPriceAtTick, In0, In1, Out0, Out1, Budget.PriceAtTick, Budget.DeltaAmountsSigned,
        Update;
    InvParts(p);
    var part := pos.(liquidity := if delta < 0 then 0 - (delta as int) else delta);
    SameRange(pos, part, p.price);
    if delta == 0 {
      NothingCosts(part, p.price);
    } else {
      Budget.DeltaAmountsAre(p.tick, p.price, pos.lower, pos.upper, delta);
    }
  }

  lemma NothingCosts(pos: Position, price: nat)
    requires Ranged(pos) && pos.liquidity == 0
    ensures MintCosts(pos, price, true) == 0 && MintCosts(pos, price, false) == 0
  {
    hide Low, High, Inner;
    In0Iff(Inner(pos, price), High(pos), 0, 0);
    In1Iff(Low(pos), Inner(pos, price), 0, 0);
  }

  // ---- Moving the price ----

  /** A price move the position is in range for throughout, or out of range on one side. */
  predicate Clear(pos: Position, tick: int, price: nat, price': nat)
    requires Ranged(pos)
  {
    pos.liquidity == 0 ||
    if tick < pos.lower then price <= Low(pos) && price' <= Low(pos)
    else if pos.upper <= tick then High(pos) <= price && High(pos) <= price'
    else Low(pos) <= price <= High(pos) && Low(pos) <= price' <= High(pos)
  }

  lemma HoldMoves(pos: Position, tick: int, price: nat, price': nat, zero: bool)
    requires Ranged(pos) && Clear(pos, tick, price, price') && 0 < price && 0 < price'
    ensures var l := if pos.lower <= tick < pos.upper then pos.liquidity else 0;
            Hold(pos, price', zero) - Hold(pos, price, zero) == Reserve(price', l, zero) - Reserve(price, l, zero)
  {
    hide Low, High, Inner, Reserve, Hold, Clear;
    ClearInner(pos, tick, price, price');
    ReserveOfNone(price, zero);
    ReserveOfNone(price', zero);
    ReserveOfNone(Inner(pos, price), zero);
    ReserveOfNone(Inner(pos, price'), zero);
    HoldAt(pos, pos, price, zero);
    HoldAt(pos, pos, price', zero);
  }

  lemma ClearInner(pos: Position, tick: int, price: nat, price': nat)
    requires Ranged(pos) && Clear(pos, tick, price, price')
    ensures pos.liquidity > 0 && pos.lower <= tick < pos.upper
            ==> Inner(pos, price) == price && Inner(pos, price') == price'
    ensures pos.liquidity > 0 && !(pos.lower <= tick < pos.upper) ==> Inner(pos, price) == Inner(pos, price')
  {
    hide Low, High;
  }

  lemma {:induction false} HeldMoves(ps: seq<Position>, tick: int, price: nat, price': nat, zero: bool)
    requires AllRanged(ps) && 0 < price && 0 < price'
    requires forall i :: 0 <= i < |ps| ==> Clear(ps[i], tick, price, price')
    ensures 0 <= Total(ps, Active(tick))
    ensures TotalHeld(ps, price', zero) - TotalHeld(ps, price, zero)
            == Reserve(price', Total(ps, Active(tick)), zero) - Reserve(price, Total(ps, Active(tick)), zero)
    decreases |ps|
  {
    hide Hold, Clear, Reserve, Ranged;
    TotalBounds(ps, tick);
    if ps == [] {
      ReserveOfNone(price, zero);
      ReserveOfNone(price', zero);
    } else {
      var n := |ps| - 1;
      TotalBounds(ps[..n], tick);
      HeldMoves(ps[..n], tick, price, price', zero);
      HoldMoves(ps[n], tick, price, price', zero);
      var l := if ps[n].lower <= tick < ps[n].upper then ps[n].liquidity else 0;
      ReserveAdds(price, Total(ps[..n], Active(tick)), l, zero);
      ReserveAdds(price', Total(ps[..n], Active(tick)), l, zero);
    }
  }

  /** On the way to the nearest initialized tick no position with liquidity begins or ends. */
  lemma PassClear(p: Pool, next: int, zeroForOne: bool, price': nat, i: nat)
    requires Inv(p) && InRange(next) && IsNext(p.ix, p.tick, zeroForOne, next) && AllRanged(p.positions)
             && i < |p.positions|
    requires if zeroForOne then Budget.PriceOf(next) <= price' <= p.price else p.price <= price' <= Budget.PriceOf(next)
    ensures Clear(p.positions[i], p.tick, p.price, price')
  {
    hide Inv, IsNext, TicksMatch, Ratio, Invert, SqrtPriceAtTick, Budget.PriceAtTick;
    var pos := p.positions[i];
    if pos.liquidity > 0 {
      InvParts(p);
      NoneBetween(p, next, zeroForOne);
      NextIs(p.ix, p.tick, zeroForOne, next);
      FeeInside.PositionCounts(p.positions, i, pos.lower);
      FeeInside.PositionCounts(p.positions, i, pos.upper);
      Budget.TickSideIsPriceSide(p.tick, p.price, pos.lower);
      Budget.TickSideIsPriceSide(p.tick, p.price, pos.upper);
      var below, above := pos.lower <= next, pos.upper <= next;
      if pos.lower <= next { SqrtPriceMonotone(pos.lower, next); } else { SqrtPriceMonotone(next, pos.lower); }
      if pos.upper <= next { SqrtPriceMonotone(pos.upper, next); } else { SqrtPriceMonotone(next, pos.upper); }
    }
  }

  // ---- The vault ----

  /** What a pass pays into the curve and takes out of it; a fee on the output stays out of the curve too. */
  function PassAmounts(p: Pool, step: Step): (r: (nat, nat))
    requires p.ix.spacing > 0 && Passes(p, step)
  {
    hide SwapMath.Step;
    var w := step.swap;
    if p.price == step.bounded then (0, 0)
    else
      match SwapMath.Step(p.price, step.bounded, p.liquidity, step.remaining, step.feeRate, w.baseInput, w.zeroForOne,
          w.feeOnInput)
      case None => (0, 0)
      case Some(r) => (r.amountIn, if w.feeOnInput then r.amountOut else r.amountOut + r.feeAmount)
  }

  /** The position a step changes, and by how much. */
  function Change(p: Pool, step: Step): Option<(Position, int)>
    requires p.ix.spacing > 0
  {
    hide AddLiquidity, BurnLiquidity;
    match step
    case OpenPosition(lower, upper, liquidity) =>
      if AddLiquidity(p, |p.positions|, lower, upper, liquidity).Ok? then Some((Position(lower, upper, 0), liquidity))
          else None
    case AddTo(i, liquidity) =>
      if i < |p.positions| && AddLiquidity(p, i, p.positions[i].lower, p.positions[i].upper, liquidity).Ok?
          then Some((p.positions[i], liquidity))
      else None
    case BurnFrom(i, liquidity) =>
      if i < |p.positions| && BurnLiquidity(p, i, liquidity).Ok? then Some((p.positions[i], 0 - (liquidity as int)))
          else None
    case _ => None
  }

  /** The amounts of `modify_position` go in for a mint and out for a burn; fees and the orders' share are kept
      apart. */
  function VaultAfter(p: Pool, step: Step, v: Queue.Tokens): Queue.Tokens
    requires p.ix.spacing > 0
  {
    hide ModifyPosition, Change;
    if Passes(p, step) then
      var (amountIn, out) := PassAmounts(p, step);
      v.AddIn(step.swap.zeroForOne, amountIn).AddOut(step.swap.zeroForOne, 0 - (out as int))
    else
      match Change(p, step)
      case None => v
      case Some((pos, delta)) =>
        if !(InRange(pos.lower) && InRange(pos.upper) && -I128_MAX <= delta <= I128_MAX) then v
        else
          match ModifyPosition(p, pos.lower, pos.upper, delta)
          case Err(_) => v
          case Ok(m) =>
            var sign := if delta < 0 then -1 else 1;
            Queue.Tokens(v.token0 + sign * m.amount0, v.token1 + sign * m.amount1)
  }

  /** The vault holds what the positions stand for. */
  predicate Covers(p: Pool, v: Queue.Tokens)
    requires AllRanged(p.positions)
  {
    forall zero :: TotalHeld(p.positions, p.price, zero) <= v.In(zero) as real
  }

  /** A pass pays in at least, and takes out at most, what the curve of the active liquidity says. */
  lemma PassAmountsBounded(p: Pool, step: Step)
    requires p.ix.spacing > 0 && Passes(p, step) && 0 < p.price
    ensures var p', (amountIn, out) := Apply(p, step), PassAmounts(p, step);
            && 0 < p'.price
            && Reserve(p'.price, p.liquidity, step.swap.zeroForOne)
               - Reserve(p.price, p.liquidity, step.swap.zeroForOne) <= amountIn as real
            && out as real <= Reserve(p.price, p.liquidity, !step.swap.zeroForOne)
               - Reserve(p'.price, p.liquidity, !step.swap.zeroForOne)
  {
    hide SwapMath.Step, Arrive, Budget.PriceOf, TickAt, InPriceRange, SwapMath.AmountIn, SwapMath.AmountOut,
        Curve.Reserve0, Curve.Reserve1;
    PassPrice(p, step);
    var w := step.swap;
    if p.price != step.bounded {
      StepWithinCurve(p.price, step.bounded, p.liquidity, step.remaining, step.feeRate, w.baseInput, w.zeroForOne,
          w.feeOnInput);
      Curve.StepAmountsBounded(p.price, Apply(p, step).price, p.liquidity, w.zeroForOne);
    }
  }

  /** The pool's price after a pass is the one its step of the curve ends at. */
  lemma PassPrice(p: Pool, step: Step)
    requires p.ix.spacing > 0 && Passes(p, step)
    ensures var w := step.swap;
            var r := SwapMath.Step(p.price, step.bounded, p.liquidity, step.remaining, step.feeRate, w.baseInput,
                w.zeroForOne, w.feeOnInput);
            if p.price == step.bounded then Apply(p, step).price == p.price
            else r.Some? && Apply(p, step).price == r.value.sqrtPriceNext
    ensures SwapMath.Directed(p.price, step.bounded, step.swap.zeroForOne)
  {
    hide SwapMath.Step, Arrive, Budget.PriceOf, TickAt, InPriceRange, Ahead;
    var w := step.swap;
    var moved := Move(p, w, step.remaining, step.feeRate, step.bounded).value;
    if moved.0 == Budget.PriceOf(step.next) { ArrivePrice(p, w, step.next, moved.1, step.feeRate); }
  }

  lemma StepWithinCurve(current: nat, target: nat, liquidity: nat, remaining: nat, feeRate: nat, baseInput: bool,
      zeroForOne: bool, feeOnInput: bool)
    requires SwapMath.Directed(current, target, zeroForOne)
    requires SwapMath.Step(current, target, liquidity, remaining, feeRate, baseInput, zeroForOne, feeOnInput).Some?
    ensures var r := SwapMath.Step(current, target, liquidity, remaining, feeRate, baseInput, zeroForOne,
            feeOnInput).value;
            && SwapMath.Directed(current, r.sqrtPriceNext, zeroForOne)
            && r.amountIn == SwapMath.AmountIn(current, r.sqrtPriceNext, liquidity, zeroForOne)
            && 0 <= r.amountOut && 0 <= r.feeAmount
            && (if feeOnInput then r.amountOut else r.amountOut + r.feeAmount)
               <= SwapMath.AmountOut(current, r.sqrtPriceNext, liquidity, zeroForOne)
  {
    hide SwapMath.NextPrice, SwapMath.AmountIn, SwapMath.AmountOut, SwapMath.Budget;
    var budget := SwapMath.Budget(remaining, feeRate, baseInput, feeOnInput).value;
    SwapMath.BudgetWithin(remaining, feeRate, baseInput, feeOnInput);
    SwapMath.NextPriceProperties(current, target, liquidity, budget, baseInput, zeroForOne);
  }

  lemma PassKeepsCovered(p: Pool, step: Step, v: Queue.Tokens)
    requires Inv(p) && p.ix.spacing > 0 && Passes(p, step) && Orderly(p, step) && AllRanged(p.positions) && Covers(p, v)
    ensures AllRanged(Apply(p, step).positions) && Covers(Apply(p, step), VaultAfter(p, step, v))
  {
    hide Inv, Apply, Passes, Orderly, IsNext, PassAmounts, TotalHeld, Reserve, Total, Ranged, Clear, Budget.PriceAtTick;
    InvParts(p);
    PositivePrice(p);
    PassIsSwap(p, step);
    FeeInside.PassKeepsPositions(p, step);
    PassAmountsBounded(p, step);
    var p' := Apply(p, step);
    OrderlyIs(p, step);
    if p' != p {
      forall i | 0 <= i < |p.positions|
        ensures Clear(p.positions[i], p.tick, p.price, p'.price)
      {
        PassGoesToward(p, step);
        PassClear(p, step.next, step.swap.zeroForOne, p'.price, i);
      }
    }
    forall zero
      ensures TotalHeld(p'.positions, p'.price, zero) <= VaultAfter(p, step, v).In(zero) as real
    {
      assert TotalHeld(p.positions, p.price, zero) <= v.In(zero) as real;
      if p' != p { HeldMoves(p.positions, p.tick, p.price, p'.price, zero); }
    }
  }

  lemma PassGoesToward(p: Pool, step: Step)
    requires p.ix.spacing > 0 && Passes(p, step)
    ensures var price, goal := Apply(p, step).price, Budget.PriceOf(step.next);
            if step.swap.zeroForOne then goal <= price <= p.price else p.price <= price <= goal
  {
    hide *;
    StillIs(p, step);
    PassGoes(p, step);
    StepGoesToward(p, step.swap, step.remaining, step.next, step.feeRate, step.bounded);
  }

  lemma PassGoes(p: Pool, step: Step)
    requires p.ix.spacing > 0 && Passes(p, step)
    ensures step.SwapTo? && InRange(step.next)
    ensures SwapStep(p, step.swap, step.remaining, step.next, step.feeRate, step.bounded).Ok?
  {
    hide SwapStep;
  }

  lemma StepGoesToward(p: Pool, w: Swap, remaining: nat, next: int, feeRate: nat, bounded: nat)
    requires p.ix.spacing > 0 && InRange(next) && SwapStep(p, w, remaining, next, feeRate, bounded).Ok?
    ensures var price, goal := SwapStep(p, w, remaining, next, feeRate, bounded).value.0.price, Budget.PriceOf(next);
            if w.zeroForOne then goal <= price <= p.price else p.price <= price <= goal
  {
    hide Arrive, Budget.PriceOf, TickAt, InPriceRange, Ahead, Move;
    MoveDirected(p, w, remaining, feeRate, bounded);
    var moved := Move(p, w, remaining, feeRate, bounded).value;
    if moved.0 == Budget.PriceOf(next) { ArrivePrice(p, w, next, moved.1, feeRate); }
  }

  /** What a change leaves of the positions. */
  lemma ChangedPositions(p: Pool, step: Step)
    requires p.ix.spacing > 0 && !Passes(p, step)
    ensures var p' := Apply(p, step);
            && p'.price == p.price
            && match Change(p, step)
               case None => p'.positions == p.positions
               case Some((pos, delta)) =>
                 && pos.liquidity + delta >= 0 && -I128_MAX <= delta <= I128_MAX
                    && ValidRange(p.ix.spacing, pos.lower, pos.upper)
                 && InRange(pos.lower) && InRange(pos.upper) && ModifyPosition(p, pos.lower, pos.upper, delta).Ok?
                 && var grown := pos.(liquidity := pos.liquidity + delta);
                    if step.OpenPosition? then pos.liquidity == 0 && p'.positions == p.positions + [grown]
                    else (step.AddTo? || step.BurnFrom?) && step.i < |p.positions| && p.positions[step.i] == pos
                         && p'.positions == p.positions[step.i := grown]
  {
    hide ModifyPosition, BookTicks, ValidRange, PlaceOrder, GrowOrder, ShrinkOrder, SettleOrder, SwapStep, OrdersAt,
        Slot.Initialized;
    NoPassKeepsPrice(p, step);
    match step {
      case OpenPosition(lower, upper, liquidity) =>
        if AddLiquidity(p, |p.positions|, lower, upper, liquidity).Ok? { RangeParts(p.ix.spacing, lower, upper); }
      case AddTo(i, liquidity) =>
        if i < |p.positions| && AddLiquidity(p, i, p.positions[i].lower, p.positions[i].upper, liquidity).Ok? {
          RangeParts(p.ix.spacing, p.positions[i].lower, p.positions[i].upper);
        }
      case BurnFrom(i, liquidity) =>
        if i < |p.positions| && BurnLiquidity(p, i, liquidity).Ok? {
          RangeParts(p.ix.spacing, p.positions[i].lower, p.positions[i].upper);
        }
      case _ => NoChange(p, step);
    }
  }

  lemma NoChange(p: Pool, step: Step)
    requires p.ix.spacing > 0 && !Passes(p, step) && !step.OpenPosition? && !step.AddTo? && !step.BurnFrom?
    ensures Apply(p, step).positions == p.positions
  {
    hide Mark, Unmark, QuoteAt, AmountAllowed, Decrease, Increase, Settle, Aligned, OrdersAt, SetOrder, SwapStep,
        Slot.Initialized;
  }

  lemma NoPassKeepsPrice(p: Pool, step: Step)
    requires p.ix.spacing > 0 && !Passes(p, step)
    ensures Apply(p, step).price == p.price
  {
    hide ModifyPosition, BookTicks, ValidRange, Mark, Unmark, QuoteAt, AmountAllowed, Decrease, Increase, Settle,
        Aligned, OrdersAt, SetOrder, SwapStep, Slot.Initialized;
  }

  lemma ChangeKeepsCovered(p: Pool, step: Step, v: Queue.Tokens)
    requires Inv(p) && p.ix.spacing > 0 && !Passes(p, step) && AllRanged(p.positions) && Covers(p, v)
    ensures AllRanged(Apply(p, step).positions) && Covers(Apply(p, step), VaultAfter(p, step, v))
  {
    hide Inv, Apply, Passes, Change, TotalHeld, Hold, MintCosts, BurnReturns, ModifyPosition;
    ChangedPositions(p, step);
    if Change(p, step).Some? {
      var (pos, delta) := Change(p, step).value;
      RangeParts(p.ix.spacing, pos.lower, pos.upper);
      AmountsAre(p, pos, delta);
      var grown := pos.(liquidity := pos.liquidity + delta);
      var part := pos.(liquidity := if delta < 0 then 0 - (delta as int) else delta);
      forall zero
        ensures AllRanged(Apply(p, step).positions)
        ensures TotalHeld(Apply(p, step).positions, p.price, zero) <= VaultAfter(p, step, v).In(zero) as real
      {
        assert TotalHeld(p.positions, p.price, zero) <= v.In(zero) as real;
        HoldBetween(part, p.price, zero);
        if delta < 0 {
          HoldSplits(grown, part.liquidity, p.price, zero);
        } else {
          HoldSplits(pos, part.liquidity, p.price, zero);
        }
        if step.OpenPosition? {
          HoldsNothing(pos, p.price, zero);
          HeldAppend(p.positions, grown, p.price, zero);
        } else {
          HeldUpdate(p.positions, step.i, grown, p.price, zero);
        }
      }
    }
  }

  lemma HoldsNothing(pos: Position, price: nat, zero: bool)
    requires Ranged(pos) && pos.liquidity == 0
    ensures Hold(pos, price, zero) == 0.0
  {
    hide Low, High, Inner, Reserve;
    ReserveOfNone(Inner(pos, price), zero);
    ReserveOfNone(if zero then High(pos) else Low(pos), zero);
  }

  // ---- Runs ----

  function VaultAfterAction(x: Session, a: Action, v: Queue.Tokens): Queue.Tokens
    requires x.pool.ix.spacing > 0
  {
    match StepOf(x, a)
    case None => v
    case Some(step) => VaultAfter(x.pool, step, v)
  }

  lemma ActionKeepsCovered(x: Session, a: Action, v: Queue.Tokens)
    requires SessionInv(x) && Can(x, a) && Sound(x, a) && AllRanged(x.pool.positions) && Covers(x.pool, v)
    ensures x.pool.ix.spacing > 0
    ensures AllRanged(After(x, a).pool.positions) && Covers(After(x, a).pool, VaultAfterAction(x, a, v))
  {
    hide Inv, Apply, Can, After, Sound, Orderly, VaultAfter, Passes, StepOf, Covers, Ranged;
    SessionParts(x);
    ActionIsStep(x, a);
    var step := StepOf(x, a);
    if step.Some? {
      ActionOrderly(x, a);
      if Passes(x.pool, step.value) {
        PassKeepsCovered(x.pool, step.value, v);
      } else {
        ChangeKeepsCovered(x.pool, step.value, v);
      }
    }
  }

  /** A run, and the liquidity providers' share of the vault it leads to. */
  ghost predicate Pays(x: Session, v: Queue.Tokens, actions: seq<Action>, x': Session, v': Queue.Tokens)
    decreases |actions|
  {
    if actions == [] then x == x' && v == v'
    else
      && Can(x, actions[0]) && Sound(x, actions[0]) && x.pool.ix.spacing > 0
      && Pays(After(x, actions[0]), VaultAfterAction(x, actions[0], v), actions[1..], x', v')
  }

  lemma {:induction false} RunKeepsCovered(x: Session, v: Queue.Tokens, actions: seq<Action>, x': Session,
      v': Queue.Tokens)
    requires SessionInv(x) && AllRanged(x.pool.positions) && Covers(x.pool, v) && Pays(x, v, actions, x', v')
    ensures SessionInv(x') && AllRanged(x'.pool.positions) && Covers(x'.pool, v')
    decreases |actions|
  {
    hide SessionInv, Can, After, Sound, VaultAfterAction, Covers, AllRanged;
    if actions != [] {
      ActionKeepsCovered(x, actions[0], v);
      ActionKeeps(x, actions[0]);
      RunKeepsCovered(After(x, actions[0]), VaultAfterAction(x, actions[0], v), actions[1..], x', v');
    }
  }

  /** After any run from a new pool the share holds, of each token, what burning every position returns. */
  lemma BurnsAreCovered(spacing: nat, price: u128, actions: seq<Action>, x: Session, v: Queue.Tokens, zero: bool)
    requires spacing > 0 && InPriceRange(price)
    requires Pays(NewSession(spacing, price), Queue.Tokens(0, 0), actions, x, v)
    ensures AllRanged(x.pool.positions) && AllBurnsReturn(x.pool.positions, x.pool.price, zero) <= v.In(zero)
  {
    hide Pays, TickAt, AllBurnsReturn, TotalHeld, SessionInv, AllRanged;
    var start := NewSession(spacing, price);
    NewSessionInv(spacing, price);
    NothingHeld(spacing, price);
    RunKeepsCovered(start, Queue.Tokens(0, 0), actions, x, v);
    BurnsWithinHeld(x.pool.positions, x.pool.price, zero);
  }

  lemma NothingHeld(spacing: nat, price: u128)
    requires spacing > 0 && InPriceRange(price)
    ensures AllRanged(NewSession(spacing, price).pool.positions)
            && Covers(NewSession(spacing, price).pool, Queue.Tokens(0, 0))
  {
    hide TickAt;
  }
}
