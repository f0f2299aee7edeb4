/** Every tick of a running pool runs a limit-order queue: what is proved of one tick's queue holds at
    every tick of every run of the pool. */
module PoolOrders {
  import opened Types
  import opened Arith
  import opened TickMath
  import opened TickAtPrice
  import opened LimitOrder
  import opened MatchTheorems
  import opened LiquidityMath
  import opened TickArray
  import opened TickIndex
  import opened TickSearch
  import opened Pool
  import opened PoolInvariants
  import opened PoolRuns
  import SwapMath
  import Budget = LiquidityBudget
  import Queue = LimitOrderRun
  import QueueInvariants = LimitOrderInvariants
  import QueueTheorems = LimitOrderTheorems

  /** The queue's state is the tick's part of the pool. */
  predicate Follows(p: Pool, t: int, s: Queue.State) {
    && s.index == t && s.tick == SlotAt(p.ix, t).queue && s.current == p.tick
    && |s.accounts| == |OrdersAt(p, t)|
    && forall i :: 0 <= i < |s.accounts| ==> SameAccount(s.accounts[i], OrdersAt(p, t)[i])
  }

  predicate SameAccount(a: Queue.Account, b: OrderAccount) { a.zeroForOne == b.zeroForOne && a.order == b.order }

  /** An increase on the side its order waits on. */
  predicate OnSide(p: Pool, step: Step) {
    step.Grow? && step.i < |OrdersAt(p, step.tick)| ==>
      OrdersAt(p, step.tick)[step.i].zeroForOne == (step.tick > p.tick)
  }

  /** The prices of a tick, in either direction. */
  function PricesAt(t: int): (q: Quote)
    requires InRange(t)
    ensures q.Valid()
  {
    QuoteAt(t, true)
  }

  lemma FacingIs(t: int, zeroForOne: bool)
    requires InRange(t)
    ensures PricesAt(t).Facing(zeroForOne) == QuoteAt(t, zeroForOne)
  {
    hide Ratio, Invert, SqrtPriceAtTick;
  }

  // ---- Steps of the pool as steps of one tick's queue ----

  /** What does not touch the tick leaves its queue alone. */
  lemma ElsewhereFollows(p: Pool, p': Pool, t: int, s: Queue.State)
    requires Follows(p, t, s)
    requires SlotAt(p'.ix, t).queue == SlotAt(p.ix, t).queue && p'.tick == p.tick && OrdersAt(p', t) == OrdersAt(p, t)
    ensures Follows(p', t, s)
  {}

  lemma ModifyKeepsQueues(p: Pool, lower: int, upper: int, delta: i128)
    requires InRange(lower) && InRange(upper) && ModifyPosition(p, lower, upper, delta).Ok?
    ensures var m := ModifyPosition(p, lower, upper, delta).value;
            m.lower.queue == SlotAt(p.ix, lower).queue && m.upper.queue == SlotAt(p.ix, upper).queue
  {
    hide Budget.DeltaAmountsSigned, AddDelta, SlotAt;
  }

  lemma BookKeepsQueues(ix: Index, lower: int, upper: int, m: Modified, add: bool, t: int)
    requires ix.spacing > 0 && BookTicks(ix, lower, upper, m, add).Ok? && lower != upper
    requires m.lower.queue == SlotAt(ix, lower).queue && m.upper.queue == SlotAt(ix, upper).queue
    ensures SlotAt(BookTicks(ix, lower, upper, m, add).value, t).queue == SlotAt(ix, t).queue
  {
    hide Mark, Unmark;
  }

  lemma AddFollows(p: Pool, i: nat, lower: int, upper: int, liquidity: nat, t: int, s: Queue.State)
    requires Follows(p, t, s) && p.ix.spacing > 0 && i <= |p.positions|
    requires i < |p.positions| ==> lower == p.positions[i].lower && upper == p.positions[i].upper
    requires AddLiquidity(p, i, lower, upper, liquidity).Ok?
    ensures Follows(AddLiquidity(p, i, lower, upper, liquidity).value, t, s)
  {
    hide ModifyPosition, BookTicks, SlotAt, OrdersAt, Follows, ValidRange;
    RangeParts(p.ix.spacing, lower, upper);
    var m := ModifyPosition(p, lower, upper, liquidity).value;
    ModifyKeepsQueues(p, lower, upper, liquidity);
    BookKeepsQueues(p.ix, lower, upper, m, true, t);
    SameOrders(p, AddLiquidity(p, i, lower, upper, liquidity).value, t);
    ElsewhereFollows(p, AddLiquidity(p, i, lower, upper, liquidity).value, t, s);
  }

  lemma BurnFollows(p: Pool, i: nat, liquidity: nat, t: int, s: Queue.State)
    requires Follows(p, t, s) && p.ix.spacing > 0 && i < |p.positions| && BurnLiquidity(p, i, liquidity).Ok?
    ensures Follows(BurnLiquidity(p, i, liquidity).value, t, s)
  {
    hide ModifyPosition, BookTicks, SlotAt, OrdersAt, Follows, ValidRange;
    var pos, delta := p.positions[i], 0 - (liquidity as int);
    RangeParts(p.ix.spacing, pos.lower, pos.upper);
    var m := ModifyPosition(p, pos.lower, pos.upper, delta).value;
    ModifyKeepsQueues(p, pos.lower, pos.upper, delta);
    BookKeepsQueues(p.ix, pos.lower, pos.upper, m, false, t);
    SameOrders(p, BurnLiquidity(p, i, liquidity).value, t);
    ElsewhereFollows(p, BurnLiquidity(p, i, liquidity).value, t, s);
  }

  lemma SameOrders(p: Pool, p': Pool, t: int)
    requires p'.orders == p.orders
    ensures OrdersAt(p', t) == OrdersAt(p, t)
  {}

  lemma PlaceFollows(p: Pool, u: int, zeroForOne: bool, amount: nat, t: int, s: Queue.State)
    requires Follows(p, t, s) && p.ix.spacing > 0 && InRange(t) && PlaceOrder(p, u, zeroForOne, amount).Ok?
             && p.ix.spacing > 0
    ensures var p' := PlaceOrder(p, u, zeroForOne, amount).value;
            if u == t then
              && Queue.DoOpen(s, PricesAt(t), zeroForOne, amount).Some?
              && Follows(p', t, Queue.DoOpen(s, PricesAt(t), zeroForOne, amount).value)
            else Follows(p', t, s)
  {
    hide QuoteAt, PricesAt, AmountAllowed, Mark, Rem;
    if u == t { FacingIs(t, zeroForOne); }
  }

  lemma GrowFollows(p: Pool, u: int, i: nat, amount: nat, t: int, s: Queue.State)
    requires Follows(p, t, s) && p.ix.spacing > 0 && InRange(t) && i < |OrdersAt(p, u)|
             && GrowOrder(p, u, i, amount).Ok?
    ensures var p' := GrowOrder(p, u, i, amount).value;
            if u == t then
              && Queue.DoIncrease(s, PricesAt(t), i, amount).Some?
              && Follows(p', t, Queue.DoIncrease(s, PricesAt(t), i, amount).value)
            else Follows(p', t, s)
  {
    hide QuoteAt, PricesAt, AmountAllowed, Increase;
    if u == t {
      FacingIs(t, s.accounts[i].zeroForOne);
      assert SameAccount(s.accounts[i], OrdersAt(p, t)[i]);
    }
  }

  lemma ShrinkFollows(p: Pool, u: int, i: nat, amount: nat, t: int, s: Queue.State)
    requires Follows(p, t, s) && p.ix.spacing > 0 && InRange(t) && i < |OrdersAt(p, u)|
             && ShrinkOrder(p, u, i, amount).Ok?
    ensures var p' := ShrinkOrder(p, u, i, amount).value;
            if u == t then
              && Queue.DoDecrease(s, PricesAt(t), i, amount).Some?
              && Follows(p', t, Queue.DoDecrease(s, PricesAt(t), i, amount).value)
            else Follows(p', t, s)
  {
    hide QuoteAt, PricesAt, Decrease, Settle, Unmark, Queue.SettleAccount;
    if u == t {
      var a := s.accounts[i];
      FacingIs(t, a.zeroForOne);
      assert SameAccount(a, OrdersAt(p, t)[i]);
      DecreaseSettles(a, s.tick, PricesAt(t).Facing(a.zeroForOne), amount);
    }
  }

  /** A decrease begins with a settle; taking nothing out it is one. */
  lemma DecreaseSettles(a: Queue.Account, t: Tick, q: Quote, amount: nat)
    requires q.Valid() && Decrease(a.order, t, q, amount).Ok?
    ensures Queue.SettleAccount(a, t, q).Ok?
    ensures Queue.SettleAccount(a, t, q).value.zeroForOne == a.zeroForOne
    ensures var d := Decrease(a.order, t, q, amount).value;
            d.amount == 0 ==> d.order == Queue.SettleAccount(a, t, q).value.order && d.tick == t
  {
    SettleShape(a.order, t, q);
    hide Settle, AmountAllowed;
  }

  /** A settle that leaves the base alone changes nothing in an untouched phase. */
  lemma SettleShape(o: Order, t: Tick, q: Quote)
    requires q.Valid() && Settle(o, t, q).Ok?
    ensures o.phase == t.phase || o.base == 0 ==> Settle(o, t, q).value.order == o && Settle(o, t, q).value.payout == 0
  {}

  lemma SettleFollows(p: Pool, u: int, i: nat, t: int, s: Queue.State)
    requires Follows(p, t, s) && p.ix.spacing > 0 && InRange(t) && i < |OrdersAt(p, u)| && SettleOrder(p, u, i).Ok?
    ensures var p' := SettleOrder(p, u, i).value;
            if u == t then
              && Queue.DoSettle(s, PricesAt(t), i).Some?
              && Follows(p', t, Queue.DoSettle(s, PricesAt(t), i).value)
            else Follows(p', t, s)
  {
    hide QuoteAt, PricesAt, Settle;
    if u == t {
      var a := s.accounts[i];
      FacingIs(t, a.zeroForOne);
      assert SameAccount(a, OrdersAt(p, t)[i]);
      SettleShape(a.order, s.tick, PricesAt(t).Facing(a.zeroForOne));
    }
  }

  // ---- Swap passes ----

  /** The pool's tick passes only ticks that are not initialized. */
  lemma PassesOnlyEmpty(p: Pool, next: int, zeroForOne: bool, tick': int, t: int)
    requires IsNext(p.ix, p.tick, zeroForOne, next) && t != next
    requires if zeroForOne then next - 1 <= tick' <= p.tick else p.tick <= tick' <= next
    ensures (t > tick') != (t > p.tick) ==> !SlotAt(p.ix, t).Initialized()
  {
    hide SlotAt;
    if (t > tick') != (t > p.tick) { assert Ahead(t, p.tick, zeroForOne) && Nearer(t, next, zeroForOne); }
  }

  /** What remains of the swap when a pass reaches the tick it goes to, if it does. */
  function Reaching(p: Pool, step: Step): Option<nat>
    requires p.ix.spacing > 0 && Passes(p, step)
  {
    hide Budget.PriceOf, Arrive, Move, Ahead;
    var moved := Move(p, step.swap, step.remaining, step.feeRate, step.bounded).value;
    if moved.0 == Budget.PriceOf(step.next) then Some(moved.1) else None
  }

  /** A pass arrives at the tick it goes to, or moves the pool's tick and price only. */
  lemma PassIs(p: Pool, step: Step)
    requires p.ix.spacing > 0 && Passes(p, step)
    ensures step.SwapTo? && InRange(step.next)
    ensures match Reaching(p, step)
            case Some(rest) =>
              && Ahead(step.next, p.tick, step.swap.zeroForOne)
              && Arrive(p, step.swap, step.next, rest, step.feeRate).Ok?
              && Apply(p, step) == Arrive(p, step.swap, step.next, rest, step.feeRate).value.0
            case None =>
              && Apply(p, step) == p.(price := Apply(p, step).price, tick := Apply(p, step).tick)
              && Apply(p, step).price != Budget.PriceOf(step.next)
  {
    hide Arrive, Move, Budget.PriceOf, TickAt, InPriceRange, SlotAt, Ahead;
    var w := step.swap;
    MoveDirected(p, w, step.remaining, step.feeRate, step.bounded);
  }

  /** The pool's tick passes a tick in an orderly run only when no orders are left there. */
  lemma PassKeepsSide(p: Pool, step: Step, t: int)
    requires Inv(p) && p.ix.spacing > 0 && Passes(p, step) && Orderly(p, step)
    ensures (t > Apply(p, step).tick) != (t > p.tick) ==> !SlotAt(Apply(p, step).ix, t).HasOrders()
  {
    hide Inv, Passes, Orderly, IsNext, Apply, Arrive, SlotAt, Slot.HasOrders, Slot.HasLiquidity, Budget.PriceOf,
        Reaching;
    PassIs(p, step);
    OrderlyIs(p, step);
    var p', next, zeroForOne := Apply(p, step), step.next, step.swap.zeroForOne;
    if IsNext(p.ix, p.tick, zeroForOne, next) {
      if Reaching(p, step).Some? {
        ArriveQueues(p, step.swap, next, Reaching(p, step).value, step.feeRate);
        SideOfArrival(p, next, zeroForOne, SlotAt(p'.ix, next).HasOrders());
      } else {
        ShortPass(p, step);
      }
      if t != next {
        PassesOnlyEmpty(p, next, zeroForOne, p'.tick, t);
        OrdersInitialize(SlotAt(p.ix, t));
      }
    }
  }

  lemma OrdersInitialize(s: Slot)
    ensures s.HasOrders() ==> s.Initialized()
  {}

  lemma SideOfArrival(p: Pool, next: int, zeroForOne: bool, left: bool)
    requires Ahead(next, p.tick, zeroForOne)
    ensures var tick' := TickAfter(next, zeroForOne, left);
            && (if zeroForOne then next - 1 <= tick' <= p.tick else p.tick <= tick' <= next)
            && (left ==> (next > tick') == (next > p.tick))
  {}

  lemma ShortPass(p: Pool, step: Step)
    requires Inv(p) && p.ix.spacing > 0 && Passes(p, step) && Reaching(p, step).None?
    ensures step.SwapTo? && InRange(step.next)
    ensures var tick', next := Apply(p, step).tick, step.next;
            if step.swap.zeroForOne then next <= tick' <= p.tick else p.tick <= tick' < next
  {
    hide Inv, Reaching, SwapStep, Budget.PriceOf, SlotAt, Slot.Initialized;
    PassIs(p, step);
    ShortTick(p, step.swap, step.remaining, step.next, step.feeRate, step.bounded);
  }

  // ---- A step of the pool is some steps of each tick's queue ----

  /** The steps of tick `t`'s queue that a step of the pool stands for: an instruction at the tick, a match when a
      pass reaches it, and every move of the pool's tick. */
  function StepsAt(p: Pool, step: Step, t: int): seq<Queue.Step>
    requires p.ix.spacing > 0
  {
    hide PlaceOrder, GrowOrder, ShrinkOrder, SettleOrder, SwapStep;
    match step
    case Place(u, zeroForOne, amount) =>
      if u == t && PlaceOrder(p, u, zeroForOne, amount).Ok? then [Queue.Open(zeroForOne, amount)] else []
    case Grow(u, i, amount) =>
      if u == t && i < |OrdersAt(p, u)| && GrowOrder(p, u, i, amount).Ok? then [Queue.IncreaseOrder(i, amount)] else []
    case Shrink(u, i, amount) =>
      if u == t && i < |OrdersAt(p, u)| && ShrinkOrder(p, u, i, amount).Ok? then [Queue.DecreaseOrder(i, amount)]
      else []
    case SettleAt(u, i) =>
      if u == t && i < |OrdersAt(p, u)| && SettleOrder(p, u, i).Ok? then [Queue.SettleOrder(i)] else []
    case SwapTo(w, _, next, feeRate, _) =>
      if !Passes(p, step) then []
      else
        MatchesAt(p, step, t) + [Queue.MoveTo(Apply(p, step).tick)]
    case _ => []
  }

  function MatchesAt(p: Pool, step: Step, t: int): seq<Queue.Step>
    requires p.ix.spacing > 0 && Passes(p, step)
  {
    hide Reaching;
    match Reaching(p, step)
    case None => []
    case Some(rest) =>
      if t != step.next then []
      else [Queue.MatchOrders(rest, step.swap.baseInput, step.feeRate, step.swap.feeOnInput)]
  }

  /** The queue of tick `t` after steps of its own is the pool's. */
  predicate Mirrors(p: Pool, t: int, current: int, steps: seq<Queue.Step>)
    requires InRange(t)
  {
    Follows(p, t, Queue.Run(t, current, PricesAt(t), steps))
  }

  /** The match of a pass, on the tick's own queue. */
  lemma MatchFollows(p: Pool, w: Swap, remaining: nat, feeRate: nat, t: int, s: Queue.State)
    requires Follows(p, t, s) && p.ix.spacing > 0 && InRange(t) && Ahead(t, p.tick, w.zeroForOne)
             && Arrive(p, w, t, remaining, feeRate).Ok?
    ensures var p' := Arrive(p, w, t, remaining, feeRate).value.0;
            && Queue.DoMatch(s, PricesAt(t), remaining, w.baseInput, feeRate, w.feeOnInput).Some?
            && var matched := Queue.DoMatch(s, PricesAt(t), remaining, w.baseInput, feeRate, w.feeOnInput).value;
               Follows(p', t, matched.(current := p'.tick)) && matched.Above() == s.Above()
  {
    hide Arrive, QuoteAt, PricesAt, MatchAmounts, Consume, Quote.Num, Quote.Den, SlotAt, OrdersAt;
    ArriveQueues(p, w, t, remaining, feeRate);
    FacingIs(t, !w.zeroForOne);
    SameOrders(p, Arrive(p, w, t, remaining, feeRate).value.0, t);
  }

  /** One step of the queue more. */
  lemma Snoc(t: int, current: int, steps: seq<Queue.Step>, step: Queue.Step)
    requires InRange(t)
    ensures var q := PricesAt(t);
            && Queue.Run(t, current, q, steps + [step]) == Queue.Apply(Queue.Run(t, current, q, steps), q, step)
            && (Queue.SidedRun(t, current, q, steps) && Queue.Sided(Queue.Run(t, current, q, steps), step)
                ==> Queue.SidedRun(t, current, q, steps + [step]))
  {
    hide *;
    QueueTheorems.RunSnoc(t, current, PricesAt(t), steps, step);
  }

  lemma MirrorsIs(p: Pool, t: int, current: int, steps: seq<Queue.Step>)
    requires InRange(t)
    ensures Mirrors(p, t, current, steps) <==> Follows(p, t, Queue.Run(t, current, PricesAt(t), steps))
  {}

  lemma FollowsAt(p: Pool, t: int, s: Queue.State)
    requires Follows(p, t, s)
    ensures s.index == t && s.current == p.tick && s.tick == SlotAt(p.ix, t).queue && |s.accounts| == |OrdersAt(p, t)|
    ensures forall i :: 0 <= i < |s.accounts| ==> s.accounts[i].zeroForOne == OrdersAt(p, t)[i].zeroForOne
  {
    hide OrdersAt, SlotAt;
  }

  /** A pass that reaches another tick, or none, moves the price past this one. */
  lemma MoveFollows(p: Pool, p': Pool, t: int, s: Queue.State)
    requires Follows(p, t, s) && SlotAt(p'.ix, t).queue == SlotAt(p.ix, t).queue && p'.orders == p.orders
    ensures Follows(p', t, s.(current := p'.tick))
  {
    hide SlotAt;
    SameOrders(p, p', t);
  }

  lemma PassMirrors(p: Pool, step: Step, t: int, current: int, steps: seq<Queue.Step>)
    requires InRange(t) && Mirrors(p, t, current, steps) && p.ix.spacing > 0 && Passes(p, step)
    ensures Mirrors(Apply(p, step), t, current, steps + StepsAt(p, step, t))
    ensures Inv(p) && Orderly(p, step) && Queue.SidedRun(t, current, PricesAt(t), steps)
            ==> Queue.SidedRun(t, current, PricesAt(t), steps + StepsAt(p, step, t))
  {
    hide Passes, Apply, Arrive, Ahead, PricesAt, Queue.Run, Queue.SidedRun, Queue.DoMatch, SlotAt, Follows, Mirrors,
        Inv, Slot.HasOrders, Reaching, Orderly;
    MirrorsIs(p, t, current, steps);
    PassIs(p, step);
    var s, p', w := Queue.Run(t, current, PricesAt(t), steps), Apply(p, step), step.swap;
    FollowsAt(p, t, s);
    var matches := MatchesAt(p, step, t);
    var s1 := if matches == [] then s else Queue.Apply(s, PricesAt(t), matches[0]);
    if matches != [] {
      MatchFollows(p, w, Reaching(p, step).value, step.feeRate, t, s);
      Snoc(t, current, steps, matches[0]);
      assert matches == [matches[0]];
    } else {
      OtherQueue(p, step, t);
      MoveFollows(p, p', t, s);
      assert steps + matches == steps;
    }
    var move := Queue.MoveTo(p'.tick);
    Snoc(t, current, steps + matches, move);
    assert steps + StepsAt(p, step, t) == steps + matches + [move];
    MirrorsIs(p', t, current, steps + matches + [move]);
    FollowsAt(p', t, s1.(current := p'.tick));
    if Inv(p) && Orderly(p, step) {
      PassKeepsSide(p, step, t);
      OrdersLeft(SlotAt(p'.ix, t));
    }
  }

  lemma OrdersLeft(s: Slot)
    ensures s.HasOrders() <==> s.queue.orders + s.queue.remaining > 0
  {}

  lemma OtherQueue(p: Pool, step: Step, t: int)
    requires p.ix.spacing > 0 && Passes(p, step) && MatchesAt(p, step, t) == []
    ensures SlotAt(Apply(p, step).ix, t).queue == SlotAt(p.ix, t).queue && Apply(p, step).orders == p.orders
  {
    hide Passes, Apply, Arrive, Ahead, SlotAt, Slot.HasOrders, Reaching, Budget.PriceOf;
    PassIs(p, step);
    if Reaching(p, step).Some? {
      ArriveQueues(p, step.swap, step.next, Reaching(p, step).value, step.feeRate);
    }
  }

  lemma OrderStepMirrors(p: Pool, step: Step, t: int, current: int, steps: seq<Queue.Step>)
    requires InRange(t) && Mirrors(p, t, current, steps) && p.ix.spacing > 0
    requires step.Place? || step.Grow? || step.Shrink? || step.SettleAt?
    ensures Mirrors(Apply(p, step), t, current, steps + StepsAt(p, step, t))
    ensures OnSide(p, step) && Queue.SidedRun(t, current, PricesAt(t), steps)
            ==> Queue.SidedRun(t, current, PricesAt(t), steps + StepsAt(p, step, t))
  {
    hide PlaceOrder, GrowOrder, ShrinkOrder, SettleOrder, AddLiquidity, BurnLiquidity, SwapStep, IsNext, OrdersAt,
        Follows, Mirrors, PricesAt, Queue.Run, Queue.SidedRun, Queue.DoOpen, Queue.DoIncrease, Queue.DoDecrease,
        Queue.DoSettle;
    MirrorsIs(p, t, current, steps);
    var s, p' := Queue.Run(t, current, PricesAt(t), steps), Apply(p, step);
    FollowsAt(p, t, s);
    match step {
      case Place(u, zeroForOne, amount) =>
        if PlaceOrder(p, u, zeroForOne, amount).Ok? { PlaceFollows(p, u, zeroForOne, amount, t, s); }
      case Grow(u, i, amount) =>
        if i < |OrdersAt(p, u)| && GrowOrder(p, u, i, amount).Ok? { GrowFollows(p, u, i, amount, t, s); }
      case Shrink(u, i, amount) =>
        if i < |OrdersAt(p, u)| && ShrinkOrder(p, u, i, amount).Ok? { ShrinkFollows(p, u, i, amount, t, s); }
      case SettleAt(u, i) =>
        if i < |OrdersAt(p, u)| && SettleOrder(p, u, i).Ok? { SettleFollows(p, u, i, t, s); }
    }
    var more := StepsAt(p, step, t);
    if more == [] {
      assert steps + more == steps;
      MirrorsIs(p', t, current, steps);
    } else {
      Snoc(t, current, steps, more[0]);
      assert more == [more[0]];
      MirrorsIs(p', t, current, steps + more);
    }
  }

  lemma PositionStepMirrors(p: Pool, step: Step, t: int, current: int, steps: seq<Queue.Step>)
    requires InRange(t) && Mirrors(p, t, current, steps) && p.ix.spacing > 0
    requires step.OpenPosition? || step.AddTo? || step.BurnFrom?
    ensures Mirrors(Apply(p, step), t, current, steps)
  {
    hide AddLiquidity, BurnLiquidity, PlaceOrder, GrowOrder, ShrinkOrder, SettleOrder, SwapStep, IsNext, OrdersAt,
        Follows, Mirrors, PricesAt, Queue.Run, Queue.SidedRun;
    MirrorsIs(p, t, current, steps);
    var s := Queue.Run(t, current, PricesAt(t), steps);
    match step {
      case OpenPosition(lower, upper, liquidity) =>
        if AddLiquidity(p, |p.positions|, lower, upper, liquidity).Ok? {
          AddFollows(p, |p.positions|, lower, upper, liquidity, t, s);
        }
      case AddTo(i, liquidity) =>
        if i < |p.positions| && AddLiquidity(p, i, p.positions[i].lower, p.positions[i].upper, liquidity).Ok? {
          AddFollows(p, i, p.positions[i].lower, p.positions[i].upper, liquidity, t, s);
        }
      case BurnFrom(i, liquidity) =>
        if i < |p.positions| && BurnLiquidity(p, i, liquidity).Ok? { BurnFollows(p, i, liquidity, t, s); }
    }
    MirrorsIs(Apply(p, step), t, current, steps);
  }

  /** Every step of the pool is, at every tick, the steps of the queue it stands for; in an orderly run they stay
      on their side. */
  lemma StepMirrors(p: Pool, step: Step, t: int, current: int, steps: seq<Queue.Step>)
    requires InRange(t) && Mirrors(p, t, current, steps) && p.ix.spacing > 0
    ensures Mirrors(Apply(p, step), t, current, steps + StepsAt(p, step, t))
    ensures Inv(p) && Orderly(p, step) && OnSide(p, step) && Queue.SidedRun(t, current, PricesAt(t), steps)
            ==> Queue.SidedRun(t, current, PricesAt(t), steps + StepsAt(p, step, t))
  {
    hide Mirrors, Inv, OnSide, Orderly, SwapStep, IsNext, AddLiquidity, BurnLiquidity, PlaceOrder, GrowOrder,
        ShrinkOrder, SettleOrder, OrdersAt, Slot.Initialized, Queue.SidedRun, PricesAt;
    if step.OpenPosition? || step.AddTo? || step.BurnFrom? {
      PositionStepMirrors(p, step, t, current, steps);
      assert steps + StepsAt(p, step, t) == steps;
    } else if step.SwapTo? {
      if Passes(p, step) {
        PassMirrors(p, step, t, current, steps);
      } else {
        assert steps + StepsAt(p, step, t) == steps;
      }
    } else {
      OrderStepMirrors(p, step, t, current, steps);
    }
  }

  // ---- Sessions ----

  /** The increases of a run are on the side their orders wait on. */
  ghost predicate OnSideRun(x: Session, actions: seq<Action>)
    decreases |actions|
  {
    actions != [] ==>
      && Can(x, actions[0])
      && (actions[0].Do? ==> OnSide(x.pool, actions[0].step))
      && OnSideRun(After(x, actions[0]), actions[1..])
  }

  function ActionSteps(x: Session, a: Action, t: int): seq<Queue.Step>
    requires x.pool.ix.spacing > 0
  {
    hide StepsAt;
    match StepOf(x, a)
    case None => []
    case Some(step) => StepsAt(x.pool, step, t)
  }

  /** The steps of tick `t`'s queue that a run of the pool stands for. */
  ghost function StepsOf(x: Session, actions: seq<Action>, t: int): seq<Queue.Step>
    decreases |actions|
  {
    if actions == [] || !Can(x, actions[0]) then []
    else
      ActionIsStep(x, actions[0]);
      ActionSteps(x, actions[0], t) + StepsOf(After(x, actions[0]), actions[1..], t)
  }

  lemma ActionMirrors(x: Session, a: Action, t: int, current: int, steps: seq<Queue.Step>)
    requires InRange(t) && Mirrors(x.pool, t, current, steps) && Can(x, a)
    ensures x.pool.ix.spacing > 0 && Mirrors(After(x, a).pool, t, current, steps + ActionSteps(x, a, t))
    ensures SessionInv(x) && Sound(x, a) && (a.Do? ==> OnSide(x.pool, a.step))
            && Queue.SidedRun(t, current, PricesAt(t), steps)
            ==> Queue.SidedRun(t, current, PricesAt(t), steps + ActionSteps(x, a, t))
  {
    hide Mirrors, Inv, OnSide, After, Can, Sound, Apply, Orderly, SessionInv, StepOf, Queue.SidedRun, PricesAt, StepsAt;
    ActionIsStep(x, a);
    var step := StepOf(x, a);
    if step.Some? {
      StepMirrors(x.pool, step.value, t, current, steps);
      if SessionInv(x) && Sound(x, a) && (a.Do? ==> OnSide(x.pool, a.step)) {
        SessionParts(x);
        PassIsOnSide(x, a);
        ActionOrderly(x, a);
      }
    } else {
      assert steps + ActionSteps(x, a, t) == steps;
    }
  }

  lemma PassIsOnSide(x: Session, a: Action)
    requires StepOf(x, a).Some? && (a.Do? ==> OnSide(x.pool, a.step))
    ensures OnSide(x.pool, StepOf(x, a).value)
  {
    hide OrdersAt;
  }

  lemma {:induction false} RunMirrors(x: Session, actions: seq<Action>, x': Session, t: int, current: int,
      before: seq<Queue.Step>)
    requires InRange(t) && Mirrors(x.pool, t, current, before) && Leads(x, actions, x')
    ensures Mirrors(x'.pool, t, current, before + StepsOf(x, actions, t))
    ensures SessionInv(x) && SoundRun(x, actions) && OnSideRun(x, actions)
            && Queue.SidedRun(t, current, PricesAt(t), before)
            ==> Queue.SidedRun(t, current, PricesAt(t), before + StepsOf(x, actions, t))
    decreases |actions|
  {
    hide Mirrors, SessionInv, After, Can, OnSide, Sound, Queue.SidedRun, PricesAt, ActionSteps;
    if actions == [] {
      assert before + StepsOf(x, actions, t) == before;
    } else {
      ActionIsStep(x, actions[0]);
      var now := ActionSteps(x, actions[0], t);
      ActionMirrors(x, actions[0], t, current, before);
      RunMirrors(After(x, actions[0]), actions[1..], x', t, current, before + now);
      if SessionInv(x) && SoundRun(x, actions) { ActionKeeps(x, actions[0]); }
      assert before + StepsOf(x, actions, t) == before + now + StepsOf(After(x, actions[0]), actions[1..], t);
    }
  }

  /** Any run of the pool from its creation. */
  ghost predicate PoolRun(spacing: nat, price: u128, actions: seq<Action>, x: Session) {
    spacing > 0 && InPriceRange(price) && Leads(NewSession(spacing, price), actions, x)
  }

  /** One whose increases are counted and on their side, and in which the fee takes what is left after a search
      that had to look past orders. */
  ghost predicate OrderlyRun(spacing: nat, price: u128, actions: seq<Action>, x: Session) {
    && PoolRun(spacing, price, actions, x)
    && SoundRun(NewSession(spacing, price), actions) && OnSideRun(NewSession(spacing, price), actions)
  }

  /** The queue of tick `t` after a run of the pool, with its ledger. */
  ghost function QueueAt(spacing: nat, price: u128, actions: seq<Action>, t: int): Queue.State
    requires InPriceRange(price) && InRange(t)
  {
    hide TickAt, PricesAt;
    Queue.Run(t, TickAt(price), PricesAt(t), StepsOf(NewSession(spacing, price), actions, t))
  }

  /** Every run of the pool is, at every tick, the run of that tick's queue its actions stand for. */
  lemma EveryTickRuns(spacing: nat, price: u128, actions: seq<Action>, x: Session, t: int)
    requires PoolRun(spacing, price, actions, x) && InRange(t)
    ensures InPriceRange(price) && Follows(x.pool, t, QueueAt(spacing, price, actions, t))
    ensures OrderlyRun(spacing, price, actions, x) ==>
              Queue.SidedRun(t, TickAt(price), PricesAt(t), StepsOf(NewSession(spacing, price), actions, t))
  {
    hide Leads, SoundRun, OnSideRun, Mirrors, Inv, TickAt, PricesAt, Follows, Queue.Run, Queue.SidedRun, StepsOf,
        SessionInv, NewSession;
    var x0 := NewSession(spacing, price);
    var steps := StepsOf(x0, actions, t);
    NewSessionInv(spacing, price);
    StartMirrors(spacing, price, t);
    RunMirrors(x0, actions, x, t, TickAt(price), []);
    assert [] + steps == steps;
    MirrorsIs(x.pool, t, TickAt(price), steps);
  }

  lemma StartMirrors(spacing: nat, price: u128, t: int)
    requires InPriceRange(price) && InRange(t)
    ensures Mirrors(NewSession(spacing, price).pool, t, TickAt(price), [])
    ensures Queue.SidedRun(t, TickAt(price), PricesAt(t), [])
  {
    hide TickAt, PricesAt;
  }

  /** So at every tick every order of a running pool can be settled, and a decrease takes out exactly
      what is asked for or all that settling leaves unfilled, in every run whatever its swaps look past. */
  lemma EveryOrderSettles(spacing: nat, price: u128, actions: seq<Action>, x: Session, t: int, i: nat, amount: nat)
    requires PoolRun(spacing, price, actions, x) && InRange(t) && i < |OrdersAt(x.pool, t)|
    ensures var p := x.pool;
            var a, queue, q := OrdersAt(p, t)[i], SlotAt(p.ix, t).queue, QuoteAt(t, OrdersAt(p, t)[i].zeroForOne);
            && Settle(a.order, queue, q).Ok?
            && var settled := Settle(a.order, queue, q).value.order;
               && settled.filled <= settled.total
               && (Decrease(a.order, queue, q, amount).Ok? ==>
                     Decrease(a.order, queue, q, amount).value.amount == Min(amount, settled.total - settled.filled))
  {
    hide PoolRun, Settle, Decrease, QuoteAt, PricesAt, Queue.Run, Queue.SidedRun, TickAt, SlotAt, OrdersAt, StepsOf;
    EveryTickRuns(spacing, price, actions, x, t);
    var p, s := x.pool, QueueAt(spacing, price, actions, t);
    var queueSteps := StepsOf(NewSession(spacing, price), actions, t);
    assert SameAccount(s.accounts[i], OrdersAt(p, t)[i]);
    FacingIs(t, s.accounts[i].zeroForOne);
    SettledLeavesFilled(t, TickAt(price), PricesAt(t), queueSteps, i);
    if Decrease(s.accounts[i].order, s.tick, PricesAt(t).Facing(s.accounts[i].zeroForOne), amount).Ok? {
      QueueTheorems.DecreaseTakesWhatIsUnfilled(t, TickAt(price), PricesAt(t), queueSteps, i, amount);
    }
  }

  lemma SettledLeavesFilled(t: int, current: int, q: Quote, steps: seq<Queue.Step>, i: nat)
    requires q.Valid() && i < |Queue.Run(t, current, q, steps).accounts|
    ensures var s := Queue.Run(t, current, q, steps);
            var settled := Settle(s.accounts[i].order, s.tick, q.Facing(s.accounts[i].zeroForOne));
            settled.Ok? && settled.value.order.filled <= settled.value.order.total
  {
    hide Settle, Queue.Run, Queue.Core;
    QueueInvariants.RunKeepsCore(t, current, q, steps);
    QueueTheorems.UnfilledWithinTick(Queue.Run(t, current, q, steps), q, i);
  }

  /** And at every tick, in each token, the tick's share of the vault, every token the run's instructions and
      matches brought to this queue less every token they took from it, covers what the queue has to give, as
      long as the rounding of the cohort being filled is within one unit. */
  lemma EveryTickSolvent(spacing: nat, price: u128, actions: seq<Action>, x: Session, t: int, zeroForOne: bool)
    requires OrderlyRun(spacing, price, actions, x) && InRange(t)
    ensures InPriceRange(price) && Follows(x.pool, t, QueueAt(spacing, price, actions, t))
    ensures var s := QueueAt(spacing, price, actions, t);
            QueueTheorems.Slack(s, !zeroForOne) <= Q64 ==> s.vault.In(zeroForOne) >= Queue.Held(s, zeroForOne)
  {
    hide PoolRun, PricesAt, Queue.Run, Queue.SidedRun, TickAt, Follows, Queue.Held, QueueTheorems.Slack, StepsOf,
        SoundRun, OnSideRun;
    EveryTickRuns(spacing, price, actions, x, t);
    QueueTheorems.VaultSolvency(t, TickAt(price), PricesAt(t), StepsOf(NewSession(spacing, price), actions, t),
        zeroForOne);
  }
}
