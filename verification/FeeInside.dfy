/** Fee growth inside a range of ticks over any run of the pool: through crossings, positions of others
    and ticks initialized meanwhile it rises exactly by what accrued while the pool's tick was inside. */
module FeeInside {
  import opened Types
  import opened Arith
  import opened TickMath
  import opened TickAtPrice
  import opened FeeGrowth
  import opened LimitOrder
  import opened TickIndex
  import opened TickSearch
  import opened Pool
  import opened PoolInvariants
  import opened PoolRuns
  import PoolOrders
  import Budget = LiquidityBudget

  /** One token's growth counters: the pool's, and each tick's growth on its other side. */
  datatype Counters = Counters(global: u128, outside: map<int, u128>)

  function OutsideAt(c: Counters, t: int): u128 { if t in c.outside then c.outside[t] else 0 }

  /** `get_fee_growth_inside`. */
  function Inside(tick: int, c: Counters, lower: int, upper: int): u128 {
    var below := if tick >= lower then OutsideAt(c, lower) else WrappingSub(c.global, OutsideAt(c, lower));
    var above := if tick < upper then OutsideAt(c, upper) else WrappingSub(c.global, OutsideAt(c, upper));
    WrappingSub(WrappingSub(c.global, below), above)
  }

  // ---- The steps ----

  /** `TickState::update` and `clear`: a tick's first liquidity takes over the pool's counter if the tick
      is at or below the pool's, and its last leaves nothing behind unless orders keep the tick. */
  function Touched(p: Pool, p': Pool, c: Counters, t: int): Counters {
    var started := if SlotAt(p.ix, t).gross == 0 && t <= p.tick then c.(outside := c.outside[t := c.global]) else c;
    if SlotAt(p.ix, t).gross > 0 && !SlotAt(p'.ix, t).Initialized() then started.(outside := started.outside[t := 0])
        else started
  }

  /** The pass reached `next` and crossed it. */
  predicate Crossed(p': Pool, next: int)
    requires InRange(next)
  {
    p'.price == Budget.PriceOf(next) && SlotAt(p'.ix, next).HasLiquidity() && !SlotAt(p'.ix, next).HasOrders()
  }

  /** The ticks of the position a step changes. */
  function TouchedTicks(p: Pool, step: Step): seq<int> {
    match step
    case OpenPosition(lower, upper, liquidity) => [lower, upper]
    case AddTo(i, liquidity) => if i < |p.positions| then [p.positions[i].lower, p.positions[i].upper] else []
    case BurnFrom(i, liquidity) =>
        if i < |p.positions| && liquidity > 0 then [p.positions[i].lower, p.positions[i].upper] else []
    case _ => []
  }

  /** The counters after a step; a pass's fees accrue before its tick is crossed. */
  function CountersAfter(p: Pool, step: Step, accrued: nat, c: Counters): Counters
    requires p.ix.spacing > 0
  {
    hide SwapStep;
    var p' := Apply(p, step);
    if Passes(p, step) then
      var accruing := c.(global := WrappingAdd(c.global, accrued));
      if Crossed(p', step.next) then
        accruing.(outside := accruing.outside[step.next := WrappingSub(accruing.global,
            OutsideAt(accruing, step.next))])
      else accruing
    else
      var ticks := TouchedTicks(p, step);
      if p' == p || ticks == [] then c else Touched(p, p', Touched(p, p', c, ticks[0]), ticks[1])
  }

  // ---- One step ----

  /** Accruing shows inside exactly while the pool's tick is inside. */
  lemma AccrueInside(tick: int, c: Counters, accrued: nat, lower: int, upper: int)
    requires lower < upper
    ensures Inside(tick, c.(global := WrappingAdd(c.global, accrued)), lower, upper)
            == WrappingAdd(Inside(tick, c, lower, upper), if lower <= tick < upper then accrued else 0)
  {
    hide WrappingAdd, OutsideAt;
    var global, inside := WrappingAdd(c.global, accrued), Inside(tick, c, lower, upper);
    var least := accrued % TWO128;
    WrappingAddLeast(c.global, accrued);
    WrappingAddLeast(inside, accrued);
    WrappingAddCases(c.global, least);
    WrappingAddCases(inside, least);
    WrappingAddCases(inside, 0);
    SameOutside(c, global, lower);
    SameOutside(c, global, upper);
    AccrueCases(c.global, least, global, OutsideAt(c, lower), OutsideAt(c, upper));
  }

  lemma WrappingAddLeast(a: u128, g: nat)
    ensures 0 <= g % TWO128 < TWO128 && WrappingAdd(a, g) == WrappingAdd(a, g % TWO128)
  {
    var q, r := g / TWO128, g % TWO128;
    assert g == TWO128 * q + r;
    var x := (a + r) / TWO128;
    assert a + r == TWO128 * x + (a + r) % TWO128;
    assert a + g == TWO128 * (q + x) + (a + r) % TWO128;
  }

  lemma SameOutside(c: Counters, global: u128, t: int)
    ensures OutsideAt(c.(global := global), t) == OutsideAt(c, t)
  {}

  /** Seen from inside, from below and from above. */
  lemma AccrueCases(g: u128, accrued: u128, g': u128, below: u128, above: u128)
    requires g' == if g + accrued < TWO128 then g + accrued else g + accrued - TWO128
    ensures var x, x' := WrappingSub(WrappingSub(g, below), above), WrappingSub(WrappingSub(g', below), above);
            x' == if x + accrued < TWO128 then x + accrued else x + accrued - TWO128
    ensures WrappingSub(WrappingSub(g', WrappingSub(g', below)), above)
            == WrappingSub(WrappingSub(g, WrappingSub(g, below)), above)
    ensures WrappingSub(WrappingSub(g', below), WrappingSub(g', above))
            == WrappingSub(WrappingSub(g, below), WrappingSub(g, above))
  {
    hide WrappingSub;
    Twice(g, below);
    Twice(g', below);
    AccrueSub(g, accrued, g', below);
    AccrueSub(g, accrued, g', above);
    AccrueSub(WrappingSub(g, below), accrued, WrappingSub(g', below), above);
    AccrueBoth(WrappingSub(g, below), WrappingSub(g', below), WrappingSub(g, above), WrappingSub(g', above), accrued);
  }

  /** What accrues carries through a difference. */
  lemma AccrueSub(g: u128, accrued: u128, g': u128, b: u128)
    requires g' == if g + accrued < TWO128 then g + accrued else g + accrued - TWO128
    ensures var x, x' := WrappingSub(g, b), WrappingSub(g', b);
            x' == if x + accrued < TWO128 then x + accrued else x + accrued - TWO128
  {}

  /** On both sides it cancels. */
  lemma AccrueBoth(x: u128, x': u128, y: u128, y': u128, accrued: u128)
    requires x' == if x + accrued < TWO128 then x + accrued else x + accrued - TWO128
    requires y' == if y + accrued < TWO128 then y + accrued else y + accrued - TWO128
    ensures WrappingSub(x', y') == WrappingSub(x, y)
  {}

  lemma WrappingAddCases(a: u128, b: u128)
    ensures WrappingAdd(a, b) == if a + b < TWO128 then a + b else a + b - TWO128
  {}

  /** A tick changing sides together with its counter leaves the growth inside where it was. */
  lemma CrossInside(tick: int, tick': int, c: Counters, c': Counters, lower: int, upper: int)
    requires lower < upper && c'.global == c.global
    requires forall t :: t == lower || t == upper ==>
               OutsideAt(c', t) == if (t > tick') != (t > tick) then WrappingSub(c.global, OutsideAt(c, t))
                   else OutsideAt(c, t)
    ensures Inside(tick', c', lower, upper) == Inside(tick, c, lower, upper)
  {
    Twice(c.global, OutsideAt(c, lower));
    Twice(c.global, OutsideAt(c, upper));
    hide WrappingSub, OutsideAt;
  }

  lemma Twice(a: u128, b: u128)
    ensures WrappingSub(a, WrappingSub(a, b)) == b
  {}

  /** A pass crosses exactly the tick with liquidity that it leaves without orders. */
  lemma SideChangesIffCrossed(p: Pool, step: Step, t: int)
    requires Inv(p) && p.ix.spacing > 0 && Passes(p, step) && Orderly(p, step) && SlotAt(p.ix, t).HasLiquidity()
    requires SlotAt(Apply(p, step).ix, t).HasLiquidity()
    ensures (t > Apply(p, step).tick) != (t > p.tick) <==> t == step.next && Crossed(Apply(p, step), step.next)
  {
    hide Inv, IsNext, Apply, Passes, Orderly, Arrive, SlotAt, Slot.HasOrders, Slot.HasLiquidity, Slot.Initialized,
        Budget.PriceOf, PoolOrders.Reaching;
    PoolOrders.PassIs(p, step);
    OrderlyIs(p, step);
    var p', next, zeroForOne := Apply(p, step), step.next, step.swap.zeroForOne;
    if IsNext(p.ix, p.tick, zeroForOne, next) {
      LiquidityInitializes(SlotAt(p.ix, t));
      if PoolOrders.Reaching(p, step).Some? {
        Arrived(p, p', step.swap, next, PoolOrders.Reaching(p, step).value, step.feeRate);
      } else {
        PoolOrders.ShortPass(p, step);
      }
      if t != next { PoolOrders.PassesOnlyEmpty(p, next, zeroForOne, p'.tick, t); }
    }
  }

  lemma LiquidityInitializes(s: Slot)
    ensures s.HasLiquidity() ==> s.Initialized()
  {}

  lemma Arrived(p: Pool, p': Pool, w: Swap, next: int, rest: nat, feeRate: nat)
    requires p.ix.spacing > 0 && InRange(next) && Arrive(p, w, next, rest, feeRate).Ok?
    requires Ahead(next, p.tick, w.zeroForOne) && p' == Arrive(p, w, next, rest, feeRate).value.0
    ensures p'.price == Budget.PriceOf(next)
    ensures p'.tick == if w.zeroForOne != SlotAt(p'.ix, next).HasOrders() then next - 1 else next
    ensures if w.zeroForOne then next <= p.tick else next > p.tick
  {
    hide Arrive, SlotAt, Slot.HasOrders, Budget.PriceOf;
    ArriveQueues(p, w, next, rest, feeRate);
  }

  /** A step that is no pass leaves the pool's tick and the counters of ticks with liquidity alone. */
  lemma NoPassKeepsTick(p: Pool, step: Step)
    requires p.ix.spacing > 0 && !Passes(p, step)
    ensures Apply(p, step).tick == p.tick
  {
    hide SwapStep, IsNext, ModifyPosition, BookTicks, ValidRange, Mark, Unmark, QuoteAt, AmountAllowed, Decrease,
        Increase, Settle, Aligned, InRange, OrdersAt, SetOrder;
  }

  lemma TouchedKeeps(p: Pool, p': Pool, c: Counters, t: int, u: int)
    requires SlotAt(p.ix, u).gross > 0 && SlotAt(p'.ix, u).gross > 0
    ensures OutsideAt(Touched(p, p', c, t), u) == OutsideAt(c, u) && Touched(p, p', c, t).global == c.global
  {
    hide SlotAt;
  }

  lemma InsideFrame(tick: int, c: Counters, c': Counters, lower: int, upper: int)
    requires c'.global == c.global && OutsideAt(c', lower) == OutsideAt(c, lower)
             && OutsideAt(c', upper) == OutsideAt(c, upper)
    ensures Inside(tick, c', lower, upper) == Inside(tick, c, lower, upper)
  {
    hide OutsideAt, WrappingSub;
  }

  /** What a step accrues inside. */
  function AccruedInside(p: Pool, step: Step, accrued: nat, lower: int, upper: int): nat
    requires p.ix.spacing > 0
  {
    hide SwapStep;
    if Passes(p, step) && lower <= p.tick < upper then accrued else 0
  }

  predicate BothLive(p: Pool, lower: int, upper: int)
  {
    SlotAt(p.ix, lower).HasLiquidity() && SlotAt(p.ix, upper).HasLiquidity()
  }

  /** One step moves the growth inside a range with liquidity at both ends by what accrues there. */
  lemma StepInside(p: Pool, step: Step, accrued: nat, c: Counters, lower: int, upper: int)
    requires Inv(p) && p.ix.spacing > 0 && Orderly(p, step)
    requires lower < upper && BothLive(p, lower, upper) && BothLive(Apply(p, step), lower, upper)
    ensures Inside(Apply(p, step).tick, CountersAfter(p, step, accrued, c), lower, upper)
            == WrappingAdd(Inside(p.tick, c, lower, upper), AccruedInside(p, step, accrued, lower, upper))
  {
    hide Inv, Apply, Passes, Orderly, Crossed, Inside, Touched, WrappingAdd, WrappingSub, SlotAt;
    var p', c' := Apply(p, step), CountersAfter(p, step, accrued, c);
    if Passes(p, step) {
      PassIsSwap(p, step);
      var accruing := c.(global := WrappingAdd(c.global, accrued));
      AccrueInside(p.tick, c, accrued, lower, upper);
      SideChangesIffCrossed(p, step, lower);
      SideChangesIffCrossed(p, step, upper);
      CrossInside(p.tick, p'.tick, accruing, c', lower, upper);
    } else {
      NoPassKeepsTick(p, step);
      var ticks := TouchedTicks(p, step);
      if p' != p && ticks != [] {
        var first := Touched(p, p', c, ticks[0]);
        TouchedKeeps(p, p', c, ticks[0], lower);
        TouchedKeeps(p, p', c, ticks[0], upper);
        TouchedKeeps(p, p', first, ticks[1], lower);
        TouchedKeeps(p, p', first, ticks[1], upper);
      }
      InsideFrame(p.tick, c, c', lower, upper);
      WrappingAddCases(Inside(p.tick, c, lower, upper), 0);
    }
  }

  // ---- A position ----

  /** Position `i` exists and holds some liquidity. */
  predicate Holding(p: Pool, i: nat) { i < |p.positions| && p.positions[i].liquidity > 0 }

  /** Then both its ticks are live. */
  lemma PositionKeepsLive(p: Pool, i: nat)
    requires Inv(p) && Holding(p, i)
    ensures BothLive(p, p.positions[i].lower, p.positions[i].upper) && p.positions[i].lower < p.positions[i].upper
  {
    hide Agrees, Total, Budget.PriceAtTick, SlotAt;
    PositionCounts(p.positions, i, p.positions[i].lower);
    PositionCounts(p.positions, i, p.positions[i].upper);
  }

  lemma {:induction false} PositionCounts(ps: seq<Position>, i: nat, t: int)
    requires i < |ps| && ps[i].liquidity > 0 && (t == ps[i].lower || t == ps[i].upper)
    ensures Total(ps, Gross(t)) > 0
    decreases |ps|
  {
    TotalBounds(ps[..|ps| - 1], t);
    if i < |ps| - 1 { PositionCounts(ps[..|ps| - 1], i, t); }
  }

  /** Positions stay where they are, each over its own range. */
  lemma PositionStays(p: Pool, step: Step, i: nat)
    requires p.ix.spacing > 0 && i < |p.positions|
    ensures var ps := Apply(p, step).positions;
            && i < |ps| && ps[i] == p.positions[i].(liquidity := ps[i].liquidity)
            && (!step.AddTo? && !step.BurnFrom? ==> ps[i] == p.positions[i])
            && ((step.AddTo? || step.BurnFrom?) && step.i != i ==> ps[i] == p.positions[i])
  {
    hide Arrive, Move, IsNext, ModifyPosition, BookTicks, ValidRange, Mark, Unmark, QuoteAt, AmountAllowed, Decrease,
        Increase, Settle, Aligned, InRange, OrdersAt, SetOrder, SwapStep;
    if step.SwapTo? && Passes(p, step) { PassKeepsPositions(p, step); }
  }

  lemma PassKeepsPositions(p: Pool, step: Step)
    requires p.ix.spacing > 0 && Passes(p, step)
    ensures Apply(p, step).positions == p.positions
  {
    hide SwapStep, Budget.PriceOf, Target, TickAfter, SlotAt;
    PassIndex(p, step.swap, step.remaining, step.next, step.feeRate, step.bounded);
  }

  /** The growth inside the range of position `i`. */
  function InsidePosition(p: Pool, c: Counters, i: nat): u128
    requires i < |p.positions|
  {
    Inside(p.tick, c, p.positions[i].lower, p.positions[i].upper)
  }

  function PositionAccrued(p: Pool, step: Step, accrued: nat, i: nat): nat
    requires p.ix.spacing > 0 && i < |p.positions|
  {
    AccruedInside(p, step, accrued, p.positions[i].lower, p.positions[i].upper)
  }

  /** A position over ticks without liquidity or growth of their own starts with none inside, whatever accrued so
      far and on whichever side of the pool's tick it lies. */
  lemma FreshRangeStartsEmpty(p: Pool, step: Step, accrued: nat, c: Counters)
    requires Inv(p) && Inv(Apply(p, step)) && p.ix.spacing > 0 && step.OpenPosition?
             && |Apply(p, step).positions| == |p.positions| + 1
    requires SlotAt(p.ix, step.lower).gross == 0 && SlotAt(p.ix, step.upper).gross == 0
    requires OutsideAt(c, step.lower) == 0 && OutsideAt(c, step.upper) == 0
    ensures Apply(p, step).positions[|p.positions|] == Position(step.lower, step.upper, step.liquidity)
    ensures InsidePosition(Apply(p, step), CountersAfter(p, step, accrued, c), |p.positions|) == 0
  {
    hide Inv, ModifyPosition, BookTicks, ValidRange, SlotAt;
    var p' := Apply(p, step);
    PositionKeepsLive(p', |p.positions|);
    LiquidityInitializes(SlotAt(p'.ix, step.lower));
    LiquidityInitializes(SlotAt(p'.ix, step.upper));
  }

  lemma StepInsidePosition(p: Pool, step: Step, accrued: nat, c: Counters, i: nat)
    requires Inv(p) && Inv(Apply(p, step)) && p.ix.spacing > 0 && Orderly(p, step) && Holding(p, i)
             && Holding(Apply(p, step), i)
    ensures InsidePosition(Apply(p, step), CountersAfter(p, step, accrued, c), i)
            == WrappingAdd(InsidePosition(p, c, i), PositionAccrued(p, step, accrued, i))
  {
    hide Inv, Apply, Orderly, CountersAfter, Inside, WrappingAdd, BothLive, AccruedInside;
    PositionKeepsLive(p, i);
    PositionKeepsLive(Apply(p, step), i);
    PositionStays(p, step, i);
    StepInside(p, step, accrued, c, p.positions[i].lower, p.positions[i].upper);
  }

  // ---- Runs ----

  /** An action, and the growth its fees make. */
  datatype Accrual = Accrual(action: Action, growth: nat)

  function ActionCounters(x: Session, a: Accrual, c: Counters): Counters
    requires x.pool.ix.spacing > 0
  {
    match StepOf(x, a.action)
    case None => c
    case Some(step) => CountersAfter(x.pool, step, a.growth, c)
  }

  function ActionAccrued(x: Session, a: Accrual, i: nat): nat
    requires x.pool.ix.spacing > 0 && i < |x.pool.positions|
  {
    match StepOf(x, a.action)
    case None => 0
    case Some(step) => PositionAccrued(x.pool, step, a.growth, i)
  }

  /** A run through which position `i` holds some liquidity, the counters it leads to, and what accrues
      meanwhile while the pool's tick is in the position's range. */
  ghost predicate RunsTo(x: Session, c: Counters, run: seq<Accrual>, i: nat, x': Session, c': Counters, accrued: nat)
    decreases |run|
  {
    Holding(x.pool, i) &&
    if run == [] then x' == x && c' == c && accrued == 0
    else
      && Can(x, run[0].action) && Sound(x, run[0].action)
      && var now := ActionAccrued(x, run[0], i);
         accrued >= now && RunsTo(After(x, run[0].action), ActionCounters(x, run[0], c), run[1..], i, x', c',
             accrued - now)
  }

  lemma ActionInside(x: Session, a: Accrual, c: Counters, i: nat)
    requires SessionInv(x) && Can(x, a.action) && Sound(x, a.action) && Holding(x.pool, i)
             && Holding(After(x, a.action).pool, i)
    ensures InsidePosition(After(x, a.action).pool, ActionCounters(x, a, c), i)
            == WrappingAdd(InsidePosition(x.pool, c, i), ActionAccrued(x, a, i))
  {
    hide Inv, Apply, Can, After, Sound, Orderly, CountersAfter, InsidePosition, PositionAccrued, WrappingAdd, Holding,
        StepOf;
    ActionIsStep(x, a.action);
    ActionKeeps(x, a.action);
    var step := StepOf(x, a.action);
    if step.Some? {
      ActionOrderly(x, a.action);
      StepInsidePosition(x.pool, step.value, a.growth, c, i);
    } else {
      HoldingIs(x.pool, i);
      WrappingAddNothing(InsidePosition(x.pool, c, i));
    }
  }

  lemma HoldingIs(p: Pool, i: nat)
    requires Holding(p, i)
    ensures i < |p.positions|
  {}

  /** Over any run the growth inside a position's range rises by exactly what accrued while the pool's tick was
      in it, as long as the position holds some liquidity. */
  lemma {:induction false} InsideRisesByAccrued(x: Session, c: Counters, run: seq<Accrual>, i: nat, x': Session,
      c': Counters, accrued: nat)
    requires SessionInv(x) && RunsTo(x, c, run, i, x', c', accrued)
    ensures Holding(x.pool, i) && Holding(x'.pool, i)
    ensures InsidePosition(x'.pool, c', i) == WrappingAdd(InsidePosition(x.pool, c, i), accrued)
    decreases |run|
  {
    hide SessionInv, Can, After, Sound, ActionCounters, InsidePosition, WrappingAdd, ActionAccrued;
    HoldingIs(x.pool, i);
    SessionParts(x);
    if run == [] {
      WrappingAddNothing(InsidePosition(x.pool, c, i));
    } else {
      var now := ActionAccrued(x, run[0], i);
      var y, d := After(x, run[0].action), ActionCounters(x, run[0], c);
      StartHolding(y, d, run[1..], i, x', c', accrued - now);
      ActionInside(x, run[0], c, i);
      ActionKeeps(x, run[0].action);
      InsideRisesByAccrued(y, d, run[1..], i, x', c', accrued - now);
      WrappingAddTwice(InsidePosition(x.pool, c, i), now, accrued - now);
    }
  }

  lemma WrappingAddNothing(a: u128)
    ensures WrappingAdd(a, 0) == a
  {}

  lemma StartHolding(x: Session, c: Counters, run: seq<Accrual>, i: nat, x': Session, c': Counters, accrued: nat)
    requires RunsTo(x, c, run, i, x', c', accrued)
    ensures Holding(x.pool, i)
  {
    hide Holding, Can, After, Sound;
  }

  /** So a checkpoint after the run credits a position the exact share of what accrued while the pool's
      tick was in its range, rounded down, as long as that is below u64::MAX. */
  lemma CheckpointCreditsAccrued(x: Session, c: Counters, run: seq<Accrual>, i: nat, x': Session, c': Counters,
      accrued: nat, total: u64, liquidity: u128)
    requires SessionInv(x) && RunsTo(x, c, run, i, x', c', accrued) && accrued < TWO128
    requires Holding(x.pool, i) && Holding(x'.pool, i)
    requires LatestTokenFees(total, InsidePosition(x.pool, c, i), InsidePosition(x'.pool, c', i), liquidity).Ok?
    ensures var credit := Credit(Period(accrued, liquidity));
            LatestTokenFees(total, InsidePosition(x.pool, c, i), InsidePosition(x'.pool, c', i), liquidity).value
            == total + if credit < U64_MAX then credit else 0
  {
    hide SessionInv, InsidePosition, RunsTo, WrappingAdd, WrappingSub, Credit;
    var start := Checkpoint(total, InsidePosition(x.pool, c, i));
    InsideRisesByAccrued(x, c, run, i, x', c', accrued);
    TotalFits(total, start.growthLast, InsidePosition(x'.pool, c', i), liquidity);
    PassCredits(start, Period(accrued, liquidity));
  }

  lemma TotalFits(total: u64, last: u128, latest: u128, liquidity: u128)
    requires LatestTokenFees(total, last, latest, liquidity).Ok?
    ensures LatestTokenFees(total, last, latest, liquidity).value <= U64_MAX
  {
    hide WrappingSub;
  }
}
