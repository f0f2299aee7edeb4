/** The one vault of a pool, in each token: every amount that instructions and swaps bring in or take out, against
    what the positions, the queues of all ticks and the fees together lay claim to. */
module Vault {
  import opened Types
  import opened Arith
  import opened TickMath
  import opened TickAtPrice
  import opened LimitOrder
  import opened MatchTheorems
  import opened TickIndex
  import opened TickSearch
  import opened Pool
  import opened PoolInvariants
  import opened PoolRuns
  import opened PoolOrders
  import opened PositionSolvency
  import SwapMath
  import Budget = LiquidityBudget
  import Queue = LimitOrderRun
  import QueueTheorems = LimitOrderTheorems

  const NOTHING: Queue.Tokens := Queue.Tokens(0, 0)

  // ---- What a trader pays and receives ----

  /** One call of `apply_swap_amounts`: the input without a fee on it, the output that is left after a fee on it,
      and the fee. */
  datatype Trade = Trade(input: nat, output: nat, fee: nat)

  /** The pass's trade with the curve. */
  function CurveTrade(p: Pool, step: Step): Trade
    requires p.ix.spacing > 0 && Passes(p, step)
  {
    hide SwapMath.Step, Arrive, Budget.PriceOf, TickAt, InPriceRange;
    var w := step.swap;
    if p.price == step.bounded then Trade(0, 0, 0)
    else
      match SwapMath.Step(p.price, step.bounded, p.liquidity, step.remaining, step.feeRate, w.baseInput, w.zeroForOne,
          w.feeOnInput)
      case None => Trade(0, 0, 0)
      case Some(r) => Trade(r.amountIn, r.amountOut, r.feeAmount)
  }

  /** The match of a pass that reaches its tick. */
  function PassMatch(p: Pool, step: Step): Match
    requires p.ix.spacing > 0 && Passes(p, step)
  {
    hide Passes, Reaching, MatchAt, MatchAmounts;
    PassIsSwap(p, step);
    match Reaching(p, step)
    case None => Match(0, 0, 0, 0)
    case Some(rest) =>
      match MatchAt(SlotAt(p.ix, step.next).queue, step.next, step.swap, rest, step.feeRate)
      case Err(_) => Match(0, 0, 0, 0)
      case Ok(m) => m
  }

  /** Its trade; a match that takes no input is none. */
  function MatchTrade(p: Pool, step: Step): Trade
    requires p.ix.spacing > 0 && Passes(p, step)
  {
    hide Passes;
    MatchTradeOf(PassMatch(p, step))
  }

  function MatchTradeOf(m: Match): Trade {
    if m.amountIn == 0 then Trade(0, 0, 0) else Trade(m.amountIn, m.amountOut, m.fee)
  }

  /** What the trader brings, less what he takes. */
  function Exchange(w: Swap, trade: Trade): Queue.Tokens {
    NOTHING.AddIn(w.zeroForOne, trade.input + if w.feeOnInput then trade.fee else 0)
      .AddOut(w.zeroForOne, 0 - trade.output)
  }

  lemma ExchangeIs(w: Swap, trade: Trade)
    ensures var input := trade.input + if w.feeOnInput then trade.fee else 0;
            Exchange(w, trade)
            == if w.zeroForOne then Queue.Tokens(input, 0 - trade.output) else Queue.Tokens(0 - trade.output, input)
  {}

  lemma MatchTradeIs(m: Match)
    ensures m.amountIn == 0 ==> MatchTradeOf(m) == Trade(0, 0, 0)
    ensures m.amountIn > 0 ==> MatchTradeOf(m) == Trade(m.amountIn, m.amountOut, m.fee)
  {}

  /** What of it is a fee. */
  function FeeOf(w: Swap, trade: Trade): Queue.Tokens {
    NOTHING.AddIn(if w.feeOnInput then w.zeroForOne else !w.zeroForOne, trade.fee)
  }

  // ---- The parts of the vault ----

  /** The orders' side of a match. */
  function Taken(w: Swap, m: Match): Queue.Tokens {
    NOTHING.AddIn(!w.zeroForOne, 0 - m.gross).AddOut(!w.zeroForOne, m.amountIn)
  }

  /** What a step brings to the queue of its tick, less what it takes from there. */
  function ToOrders(p: Pool, step: Step): Queue.Tokens
    requires p.ix.spacing > 0
  {
    hide Passes, PlaceOrder, GrowOrder, ShrinkOrder, SettleOrder, Decrease, Settle, QuoteAt;
    match step
    case Place(t, zeroForOne, amount) =>
      if PlaceOrder(p, t, zeroForOne, amount).Ok? then NOTHING.AddIn(zeroForOne, amount) else NOTHING
    case Grow(t, i, amount) =>
      if i < |OrdersAt(p, t)| && GrowOrder(p, t, i, amount).Ok? then
        NOTHING.AddIn(OrdersAt(p, t)[i].zeroForOne, amount)
      else NOTHING
    case Shrink(t, i, amount) =>
      if i < |OrdersAt(p, t)| && ShrinkOrder(p, t, i, amount).Ok? then ShrinkPays(p, t, i, amount) else NOTHING
    case SettleAt(t, i) =>
      if i < |OrdersAt(p, t)| && SettleOrder(p, t, i).Ok? then SettlePays(p, t, i) else NOTHING
    case SwapTo(w, _, _, _, _) =>
      if !Passes(p, step) then NOTHING
      else Taken(w, PassMatch(p, step))
    case _ => NOTHING
  }

  /** A decrease pays what is settled in one token, and gives back what is withdrawn in the other. */
  function ShrinkPays(p: Pool, t: int, i: nat, amount: nat): Queue.Tokens
    requires p.ix.spacing > 0 && i < |OrdersAt(p, t)| && ShrinkOrder(p, t, i, amount).Ok?
  {
    hide Decrease, QuoteAt, Unmark;
    var a := OrdersAt(p, t)[i];
    var d := Decrease(a.order, SlotAt(p.ix, t).queue, QuoteAt(t, a.zeroForOne), amount).value;
    NOTHING.AddIn(a.zeroForOne, 0 - d.amount).AddOut(a.zeroForOne, 0 - d.payout)
  }

  function SettlePays(p: Pool, t: int, i: nat): Queue.Tokens
    requires p.ix.spacing > 0 && i < |OrdersAt(p, t)| && SettleOrder(p, t, i).Ok?
  {
    hide Settle, QuoteAt;
    var a := OrdersAt(p, t)[i];
    NOTHING.AddOut(a.zeroForOne, 0 - Settle(a.order, SlotAt(p.ix, t).queue, QuoteAt(t, a.zeroForOne)).value.payout)
  }

  /** What a step charges in fees. */
  function ToFees(p: Pool, step: Step): Queue.Tokens
    requires p.ix.spacing > 0
  {
    hide Passes;
    if !Passes(p, step) then NOTHING
    else
      PassIsSwap(p, step);
      FeeOf(step.swap, CurveTrade(p, step)).Plus(FeeOf(step.swap, MatchTrade(p, step)))
  }

  /** Every token a step brings into the vault, less every token it takes out: the amounts of `modify_position`,
      what order instructions take and pay, and both sides of a trade. */
  function ToVault(p: Pool, step: Step): Queue.Tokens
    requires p.ix.spacing > 0
  {
    hide Passes;
    if Passes(p, step) then
      PassIsSwap(p, step);
      Exchange(step.swap, CurveTrade(p, step)).Plus(Exchange(step.swap, MatchTrade(p, step)))
    else if step.OpenPosition? || step.AddTo? || step.BurnFrom? then VaultAfter(p, step, NOTHING)
    else ToOrders(p, step)
  }

  /** The tick whose queue a step changes. */
  function TickOf(step: Step): int {
    match step
    case Place(t, _, _) => t
    case Grow(t, _, _) => t
    case Shrink(t, _, _) => t
    case SettleAt(t, _) => t
    case SwapTo(_, _, next, _, _) => next
    case _ => 0
  }

  // ---- A step ----

  /** What a trader pays goes to the curve, to the orders he takes, and to the fees, and to nothing else. */
  lemma StepSplits(p: Pool, step: Step)
    requires p.ix.spacing > 0
    ensures ToVault(p, step) == VaultAfter(p, step, NOTHING).Plus(ToOrders(p, step)).Plus(ToFees(p, step))
  {
    hide *;
    if Passes(p, step) {
      PassParts(p, step);
      CurveIs(p, step);
      MatchIs(p, step);
      TradesSplit(step.swap, CurveTrade(p, step), PassMatch(p, step));
    } else {
      OtherParts(p, step);
    }
  }

  /** The curve's side of a trade. */
  function CurveShare(w: Swap, c: Trade): Queue.Tokens {
    NOTHING.AddIn(w.zeroForOne, c.input)
      .AddOut(w.zeroForOne, 0 - if w.feeOnInput then c.output else c.output + c.fee)
  }

  lemma TradesSplit(w: Swap, c: Trade, m: Match)
    requires m.gross == (if w.feeOnInput then m.amountOut else m.amountOut + m.fee)
    requires m.amountIn == 0 ==> m.gross == 0
    ensures Exchange(w, c).Plus(Exchange(w, MatchTradeOf(m)))
            == CurveShare(w, c).Plus(Taken(w, m)).Plus(FeeOf(w, c).Plus(FeeOf(w, MatchTradeOf(m))))
  {}

  lemma PassParts(p: Pool, step: Step)
    requires p.ix.spacing > 0 && Passes(p, step)
    ensures step.SwapTo?
    ensures var w, c, m := step.swap, CurveTrade(p, step), PassMatch(p, step);
            && ToVault(p, step) == Exchange(w, c).Plus(Exchange(w, MatchTradeOf(m)))
            && ToFees(p, step) == FeeOf(w, c).Plus(FeeOf(w, MatchTradeOf(m)))
            && ToOrders(p, step) == Taken(w, m)
            && (PassAmounts(p, step) == (c.input, if w.feeOnInput then c.output else c.output + c.fee)
                ==> VaultAfter(p, step, NOTHING) == CurveShare(w, c))
  {
    hide Passes, CurveTrade, PassMatch, PassAmounts, Change, ModifyPosition;
    PassIsSwap(p, step);
  }

  lemma OtherParts(p: Pool, step: Step)
    requires p.ix.spacing > 0 && !Passes(p, step)
    ensures ToVault(p, step) == VaultAfter(p, step, NOTHING).Plus(ToOrders(p, step)).Plus(ToFees(p, step))
  {
    hide Passes, Change, ModifyPosition, PlaceOrder, GrowOrder, ShrinkOrder, SettleOrder, OrdersAt, ShrinkPays,
        SettlePays;
    NoChangeIs(p, step);
  }

  lemma CurveIs(p: Pool, step: Step)
    requires p.ix.spacing > 0 && Passes(p, step)
    ensures var trade, w := CurveTrade(p, step), step.swap;
            PassAmounts(p, step)
            == (trade.input, if w.feeOnInput then trade.output else trade.output + trade.fee)
  {
    hide SwapMath.Step, Arrive, Budget.PriceOf, TickAt, InPriceRange;
  }

  lemma MatchIs(p: Pool, step: Step)
    requires p.ix.spacing > 0 && Passes(p, step)
    ensures var m, w := PassMatch(p, step), step.swap;
            && m.gross == (if w.feeOnInput then m.amountOut else m.amountOut + m.fee)
            && (m.amountIn == 0 ==> m.gross == 0)
  {
    hide Passes, Reaching, QuoteAt, Quote.Num, Quote.Den;
    PassIsSwap(p, step);
    if Reaching(p, step).Some? {
      var queue, rest, w := SlotAt(p.ix, step.next).queue, Reaching(p, step).value, step.swap;
      var available, q := queue.remaining + queue.orders, QuoteAt(step.next, !w.zeroForOne);
      hide MatchAmounts;
      if MatchAt(queue, step.next, w, rest, step.feeRate).Ok? {
        GrossIs(available, q, rest, w.baseInput, step.feeRate, w.feeOnInput);
      }
    }
  }

  lemma GrossIs(available: nat, q: Quote, amount: nat, baseInput: bool, feeRate: nat, feeOnInput: bool)
    requires q.Valid() && MatchAmounts(available, q, amount, baseInput, feeRate, feeOnInput).Ok?
    ensures var m := MatchAmounts(available, q, amount, baseInput, feeRate, feeOnInput).value;
            && m.gross == (if feeOnInput then m.amountOut else m.amountOut + m.fee)
            && (m.amountIn == 0 ==> m.gross == 0)
  {
    hide MatchInput, MatchOutput, Quote.Num, Quote.Den;
    MatchCoversOrders(available, q, amount, baseInput, feeRate, feeOnInput);
    var m := MatchAmounts(available, q, amount, baseInput, feeRate, feeOnInput).value;
    if m.amountIn == 0 { NothingFree(m.gross, q); }
  }

  lemma NothingFree(gross: nat, q: Quote)
    requires q.Valid() && gross * q.Num() <= 0
    ensures gross == 0
  {
    if gross > 0 { MulLe(1, gross, q.Num()); }
  }

  lemma NoChangeIs(p: Pool, step: Step)
    requires p.ix.spacing > 0 && !Passes(p, step)
    ensures !step.OpenPosition? && !step.AddTo? && !step.BurnFrom? ==> Change(p, step) == None
  {
    hide Passes;
  }

  /** What a pass brings into the vault is what the swap's remaining amount falls by; when the output is specified,
      what it takes out is. */
  lemma RemainingIsTraded(p: Pool, step: Step)
    requires p.ix.spacing > 0 && Passes(p, step)
    ensures step.SwapTo? && InRange(step.next)
    ensures var w := step.swap;
            var rest := SwapStep(p, w, step.remaining, step.next, step.feeRate, step.bounded).value.1;
            if w.baseInput then ToVault(p, step).In(w.zeroForOne) == step.remaining - rest
            else ToVault(p, step).Out(w.zeroForOne) == rest - step.remaining
  {
    hide CurveTrade, PassMatch, SwapStep, VaultAfter, ToOrders, Slot.Initialized, Arrive, Reaching;
    PassIsSwap(p, step);
    MovedAmounts(p, step);
    PassParts(p, step);
  }

  /** What one side's consumption of the remaining amount is. */
  function Used(w: Swap, trade: Trade): nat {
    if !w.baseInput then trade.output else if w.feeOnInput then trade.input + trade.fee else trade.input
  }

  lemma MovedAmounts(p: Pool, step: Step)
    requires p.ix.spacing > 0 && Passes(p, step)
    ensures var w := step.swap;
            SwapStep(p, w, step.remaining, step.next, step.feeRate, step.bounded).value.1
            == step.remaining - Used(w, CurveTrade(p, step)) - Used(w, MatchTradeOf(PassMatch(p, step)))
  {
    hide SwapMath.Step, Arrive, Budget.PriceOf, TickAt, InPriceRange, Ahead, MatchAt, MatchAmounts, QuoteAt;
    var w := step.swap;
    var moved := Move(p, w, step.remaining, step.feeRate, step.bounded).value;
    if moved.0 == Budget.PriceOf(step.next) { ArriveQueues(p, w, step.next, moved.1, step.feeRate); }
  }

  // ---- The queue's own ledger books the same ----

  /** What tick `t`'s queue gets of a step. */
  function ToQueue(p: Pool, step: Step, t: int): Queue.Tokens
    requires p.ix.spacing > 0
  {
    hide ToOrders;
    if t == TickOf(step) then ToOrders(p, step) else NOTHING
  }

  lemma PlusNothing(v: Queue.Tokens)
    ensures v.Plus(NOTHING) == v
  {}

  lemma SettleBooks(a: Queue.Account, t: Tick, q: Quote)
    requires q.Valid() && Queue.SettleAccount(a, t, q).Ok?
    ensures Settle(a.order, t, q).Ok?
    ensures var b := Queue.SettleAccount(a, t, q).value;
            b.paid == a.paid + Settle(a.order, t, q).value.payout && b.zeroForOne == a.zeroForOne
  {
    if Settle(a.order, t, q).Ok? { SettleShape(a.order, t, q); }
    hide Settle;
  }

  lemma DecreaseBooks(s: Queue.State, q: Quote, i: nat, amount: nat)
    requires q.Valid() && i < |s.accounts| && Queue.DoDecrease(s, q, i, amount).Some?
    ensures var a := s.accounts[i];
            && Decrease(a.order, s.tick, q.Facing(a.zeroForOne), amount).Ok?
            && var d := Decrease(a.order, s.tick, q.Facing(a.zeroForOne), amount).value;
               Queue.DoDecrease(s, q, i, amount).value.vault
               == s.vault.Plus(NOTHING.AddIn(a.zeroForOne, 0 - d.amount).AddOut(a.zeroForOne, 0 - d.payout))
  {
    var a := s.accounts[i];
    DecreasePayout(a.order, s.tick, q.Facing(a.zeroForOne), amount);
    hide Decrease, Queue.SettleAccount, Settle, Queue.CloseSegment;
    SettleBooks(a, s.tick, q.Facing(a.zeroForOne));
  }

  lemma DecreasePayout(o: Order, t: Tick, q: Quote, amount: nat)
    requires q.Valid()
    ensures Decrease(o, t, q, amount).Ok? ==>
              Settle(o, t, q).Ok? && Decrease(o, t, q, amount).value.payout == Settle(o, t, q).value.payout
  {
    hide Settle, AmountAllowed;
  }

  lemma SettleOrderBooks(s: Queue.State, q: Quote, i: nat)
    requires q.Valid() && i < |s.accounts| && Queue.DoSettle(s, q, i).Some?
    ensures var a := s.accounts[i];
            && Settle(a.order, s.tick, q.Facing(a.zeroForOne)).Ok?
            && var payout := Settle(a.order, s.tick, q.Facing(a.zeroForOne)).value.payout;
               Queue.DoSettle(s, q, i).value.vault == s.vault.Plus(NOTHING.AddOut(a.zeroForOne, 0 - payout))
  {
    hide Queue.SettleAccount, Settle;
    SettleBooks(s.accounts[i], s.tick, q.Facing(s.accounts[i].zeroForOne));
  }

  /** An order instruction at the tick. */
  lemma OrderStepBooks(p: Pool, step: Step, t: int, s: Queue.State)
    requires InRange(t) && Follows(p, t, s) && p.ix.spacing > 0 && TickOf(step) == t
    requires step.Place? || step.Grow? || step.Shrink? || step.SettleAt?
    ensures if StepsAt(p, step, t) == [] then ToOrders(p, step) == NOTHING
            else Queue.Apply(s, PricesAt(t), StepsAt(p, step, t)[0]).vault == s.vault.Plus(ToOrders(p, step))
  {
    hide PlaceOrder, GrowOrder, ShrinkOrder, SettleOrder, PricesAt, Queue.DoDecrease, Queue.DoSettle, Queue.DoOpen,
        Queue.DoIncrease, Decrease, Settle, QuoteAt, SlotAt, OrdersAt;
    FollowsParts(p, t, s);
    match step {
      case Place(u, zeroForOne, amount) =>
        if PlaceOrder(p, u, zeroForOne, amount).Ok? {
          PlaceFollows(p, u, zeroForOne, amount, t, s);
          OpenBooks(s, PricesAt(t), zeroForOne, amount);
        }
      case Grow(u, i, amount) =>
        if i < |OrdersAt(p, u)| && GrowOrder(p, u, i, amount).Ok? {
          GrowFollows(p, u, i, amount, t, s);
          IncreaseBooks(s, PricesAt(t), i, amount);
        }
      case Shrink(u, i, amount) =>
        if i < |OrdersAt(p, u)| && ShrinkOrder(p, u, i, amount).Ok? {
          ShrinkFollows(p, u, i, amount, t, s);
          DecreaseBooks(s, PricesAt(t), i, amount);
          FacingIs(t, s.accounts[i].zeroForOne);
        }
      case SettleAt(u, i) =>
        if i < |OrdersAt(p, u)| && SettleOrder(p, u, i).Ok? {
          SettleFollows(p, u, i, t, s);
          SettleOrderBooks(s, PricesAt(t), i);
          FacingIs(t, s.accounts[i].zeroForOne);
        }
    }
  }

  lemma FollowsParts(p: Pool, t: int, s: Queue.State)
    requires Follows(p, t, s)
    ensures s.tick == SlotAt(p.ix, t).queue && |s.accounts| == |OrdersAt(p, t)| && s.index == t && s.current == p.tick
    ensures forall i :: 0 <= i < |s.accounts| ==>
              s.accounts[i].zeroForOne == OrdersAt(p, t)[i].zeroForOne && s.accounts[i].order == OrdersAt(p, t)[i].order
  {
    hide SlotAt, OrdersAt;
  }

  lemma OpenBooks(s: Queue.State, q: Quote, zeroForOne: bool, amount: nat)
    requires q.Valid() && Queue.DoOpen(s, q, zeroForOne, amount).Some?
    ensures Queue.DoOpen(s, q, zeroForOne, amount).value.vault == s.vault.Plus(NOTHING.AddIn(zeroForOne, amount))
  {
    hide AmountAllowed;
  }

  lemma IncreaseBooks(s: Queue.State, q: Quote, i: nat, amount: nat)
    requires q.Valid() && i < |s.accounts| && Queue.DoIncrease(s, q, i, amount).Some?
    ensures Queue.DoIncrease(s, q, i, amount).value.vault
            == s.vault.Plus(NOTHING.AddIn(s.accounts[i].zeroForOne, amount))
  {
    hide AmountAllowed;
  }

  /** The match of a pass that reaches the tick. */
  lemma MatchBooks(p: Pool, step: Step, t: int, s: Queue.State)
    requires InRange(t) && Follows(p, t, s) && p.ix.spacing > 0 && Passes(p, step) && TickOf(step) == t
    ensures if MatchesAt(p, step, t) == [] then Taken(step.swap, PassMatch(p, step)) == NOTHING
            else Queue.Apply(s, PricesAt(t), MatchesAt(p, step, t)[0]).vault
                 == s.vault.Plus(Taken(step.swap, PassMatch(p, step)))
  {
    hide Passes, Arrive, Apply, Reaching, PricesAt, QuoteAt, MatchAmounts, Consume, Quote.Num, Quote.Den, SlotAt,
        OrdersAt;
    PassIs(p, step);
    FollowsParts(p, t, s);
    var w := step.swap;
    if Reaching(p, step).Some? {
      MatchFollows(p, w, Reaching(p, step).value, step.feeRate, t, s);
      ArriveQueues(p, w, t, Reaching(p, step).value, step.feeRate);
      FacingIs(t, !w.zeroForOne);
    }
  }

  /** The steps that a step of the pool is at tick `t` bring `t`'s queue exactly its part. */
  lemma StepBooks(p: Pool, step: Step, t: int, current: int, steps: seq<Queue.Step>)
    requires InRange(t) && Mirrors(p, t, current, steps) && p.ix.spacing > 0
    ensures Queue.Run(t, current, PricesAt(t), steps + StepsAt(p, step, t)).vault
            == Queue.Run(t, current, PricesAt(t), steps).vault.Plus(ToQueue(p, step, t))
  {
    hide Passes, Apply, Arrive, PricesAt, Queue.Run, Queue.SidedRun, Queue.DoMatch, Queue.DoOpen, Queue.DoIncrease,
        Queue.DoDecrease, Queue.DoSettle, Follows, Mirrors, PassMatch, Reaching, PlaceOrder, GrowOrder, ShrinkOrder,
        SettleOrder, OrdersAt, ShrinkPays, SettlePays, Taken, MatchesAt;
    MirrorsIs(p, t, current, steps);
    var s, q := Queue.Run(t, current, PricesAt(t), steps), PricesAt(t);
    PlusNothing(s.vault);
    if step.SwapTo? && Passes(p, step) {
      PassIsSwap(p, step);
      var matches := MatchesAt(p, step, t);
      OtherTick(p, step, t);
      if t == step.next { MatchBooks(p, step, t, s); }
      if matches != [] {
        Snoc(t, current, steps, matches[0]);
        assert matches == [matches[0]];
      } else {
        assert steps + matches == steps;
      }
      var move := Queue.MoveTo(Apply(p, step).tick);
      Snoc(t, current, steps + matches, move);
      assert steps + StepsAt(p, step, t) == steps + matches + [move];
    } else if (step.Place? || step.Grow? || step.Shrink? || step.SettleAt?) && TickOf(step) == t {
      OrderStepBooks(p, step, t, s);
      var more := StepsAt(p, step, t);
      if more == [] {
        assert steps + more == steps;
      } else {
        Snoc(t, current, steps, more[0]);
        assert more == [more[0]];
      }
    } else {
      assert steps + StepsAt(p, step, t) == steps;
    }
  }

  lemma OtherTick(p: Pool, step: Step, t: int)
    requires p.ix.spacing > 0 && Passes(p, step)
    ensures |MatchesAt(p, step, t)| <= 1 && (t != step.next ==> MatchesAt(p, step, t) == [])
  {
    hide Passes, Reaching;
  }

  // ---- Runs ----

  /** Whose share of what moves: everyone's, the positions', the fees' or that of one tick's orders. */
  datatype Part = All | Positions | Fees | Orders(tick: int)

  function StepShare(part: Part, p: Pool, step: Step): Queue.Tokens
    requires p.ix.spacing > 0
  {
    hide ToVault, VaultAfter, ToFees, ToQueue;
    match part
    case All => ToVault(p, step)
    case Positions => VaultAfter(p, step, NOTHING)
    case Fees => ToFees(p, step)
    case Orders(t) => ToQueue(p, step, t)
  }

  function ActionShare(part: Part, x: Session, a: Action): Queue.Tokens
    requires x.pool.ix.spacing > 0
  {
    hide StepShare;
    match StepOf(x, a)
    case None => NOTHING
    case Some(step) => StepShare(part, x.pool, step)
  }

  /** What a run of the pool brings to a part, less what it takes from there. */
  ghost function Flow(part: Part, x: Session, actions: seq<Action>): Queue.Tokens
    decreases |actions|
  {
    if actions == [] || !Can(x, actions[0]) then NOTHING
    else
      ActionIsStep(x, actions[0]);
      ActionShare(part, x, actions[0]).Plus(Flow(part, After(x, actions[0]), actions[1..]))
  }

  /** What it brings to the orders of all ticks up to `n`. */
  ghost function FlowTo(n: int, x: Session, actions: seq<Action>): Queue.Tokens
    decreases n - MIN_TICK + 1
  {
    if n < MIN_TICK then NOTHING else FlowTo(n - 1, x, actions).Plus(Flow(Orders(n), x, actions))
  }

  function ShareTo(n: int, x: Session, a: Action): Queue.Tokens
    requires x.pool.ix.spacing > 0
    decreases n - MIN_TICK + 1
  {
    if n < MIN_TICK then NOTHING else ShareTo(n - 1, x, a).Plus(ActionShare(Orders(n), x, a))
  }

  lemma FlowStep(part: Part, x: Session, actions: seq<Action>)
    requires actions != [] && Can(x, actions[0])
    ensures x.pool.ix.spacing > 0
    ensures Flow(part, x, actions)
            == ActionShare(part, x, actions[0]).Plus(Flow(part, After(x, actions[0]), actions[1..]))
  {
    hide Can, After, ActionShare;
    ActionIsStep(x, actions[0]);
  }

  lemma NoFlow(part: Part, x: Session, actions: seq<Action>)
    requires actions == [] || !Can(x, actions[0])
    ensures Flow(part, x, actions) == NOTHING
  {
    hide Can;
  }

  lemma Shuffle(a: Queue.Tokens, b: Queue.Tokens, c: Queue.Tokens, d: Queue.Tokens)
    ensures a.Plus(b).Plus(c.Plus(d)) == a.Plus(c).Plus(b.Plus(d))
  {}

  lemma FlowToIs(n: int, x: Session, actions: seq<Action>)
    ensures FlowTo(n, x, actions)
            == if n < MIN_TICK then NOTHING else FlowTo(n - 1, x, actions).Plus(Flow(Orders(n), x, actions))
  {
    hide Flow;
  }

  lemma ShareToIs(n: int, x: Session, a: Action)
    requires x.pool.ix.spacing > 0
    ensures ShareTo(n, x, a)
            == if n < MIN_TICK then NOTHING else ShareTo(n - 1, x, a).Plus(ActionShare(Orders(n), x, a))
  {
    hide ActionShare;
  }

  lemma {:induction false} FlowToSplits(n: int, x: Session, actions: seq<Action>)
    requires actions != [] && Can(x, actions[0])
    ensures x.pool.ix.spacing > 0
    ensures FlowTo(n, x, actions) == ShareTo(n, x, actions[0]).Plus(FlowTo(n, After(x, actions[0]), actions[1..]))
    decreases n - MIN_TICK + 1
  {
    hide *;
    ActionIsStep(x, actions[0]);
    var y, rest := After(x, actions[0]), actions[1..];
    FlowToIs(n, x, actions);
    FlowToIs(n, y, rest);
    ShareToIs(n, x, actions[0]);
    if n >= MIN_TICK {
      FlowToSplits(n - 1, x, actions);
      FlowStep(Orders(n), x, actions);
      Shuffle(ShareTo(n - 1, x, actions[0]), FlowTo(n - 1, y, rest), ActionShare(Orders(n), x, actions[0]),
          Flow(Orders(n), y, rest));
    } else {
      PlusNothing(NOTHING);
    }
  }

  lemma ActionShareIs(part: Part, x: Session, a: Action)
    requires x.pool.ix.spacing > 0
    ensures match StepOf(x, a)
            case None => ActionShare(part, x, a) == NOTHING
            case Some(step) =>
              match part
              case All => ActionShare(part, x, a) == ToVault(x.pool, step)
              case Positions => ActionShare(part, x, a) == VaultAfter(x.pool, step, NOTHING)
              case Fees => ActionShare(part, x, a) == ToFees(x.pool, step)
              case Orders(t) => ActionShare(part, x, a) == if t == TickOf(step) then ToOrders(x.pool, step) else NOTHING
  {
    hide StepOf, ToVault, VaultAfter, ToOrders, ToFees, TickOf;
  }

  /** A step's part goes to its one tick. */
  lemma {:induction false} ShareIs(n: int, x: Session, a: Action)
    requires x.pool.ix.spacing > 0
    ensures ShareTo(n, x, a)
            == if StepOf(x, a).Some? && MIN_TICK <= TickOf(StepOf(x, a).value) <= n
               then ToOrders(x.pool, StepOf(x, a).value) else NOTHING
    decreases n - MIN_TICK + 1
  {
    hide *;
    ShareToIs(n, x, a);
    if n >= MIN_TICK {
      ShareIs(n - 1, x, a);
      ActionShareIs(Orders(n), x, a);
      PlusNothing(ShareTo(n - 1, x, a));
      NothingPlus(ActionShare(Orders(n), x, a));
    }
  }

  lemma TickInRange(p: Pool, step: Step)
    requires p.ix.spacing > 0
    ensures ToOrders(p, step) == NOTHING || MIN_TICK <= TickOf(step) <= MAX_TICK
  {
    hide SwapStep, QuoteAt, AmountAllowed, Decrease, Increase, Settle, Mark, Unmark, OrdersAt, SetOrder, ShrinkPays,
        SettlePays, PassMatch, Slot.Initialized;
  }

  /** Every token in the vault belongs to the positions, to the orders of some tick or to the fees. */
  lemma {:induction false} VaultIsParts(x: Session, actions: seq<Action>, top: int)
    requires top == MAX_TICK
    ensures Flow(All, x, actions)
            == Flow(Positions, x, actions).Plus(FlowTo(top, x, actions)).Plus(Flow(Fees, x, actions))
    decreases |actions|
  {
    hide *;
    if actions == [] || !Can(x, actions[0]) {
      NothingTo(top, x, actions);
      NoFlow(All, x, actions);
      NoFlow(Positions, x, actions);
      NoFlow(Fees, x, actions);
      PlusNothing(NOTHING);
    } else {
      var a, y, rest := actions[0], After(x, actions[0]), actions[1..];
      VaultIsParts(y, rest, top);
      FlowToSplits(top, x, actions);
      ActionSplits(x, a, top);
      FlowStep(All, x, actions);
      FlowStep(Positions, x, actions);
      FlowStep(Fees, x, actions);
      Shuffle(ActionShare(Positions, x, a), ShareTo(top, x, a), Flow(Positions, y, rest), FlowTo(top, y, rest));
      Shuffle(ActionShare(Positions, x, a).Plus(ShareTo(top, x, a)), ActionShare(Fees, x, a),
          Flow(Positions, y, rest).Plus(FlowTo(top, y, rest)), Flow(Fees, y, rest));
    }
  }

  lemma {:induction false} NothingTo(n: int, x: Session, actions: seq<Action>)
    requires actions == [] || !Can(x, actions[0])
    ensures FlowTo(n, x, actions) == NOTHING
    decreases n - MIN_TICK + 1
  {
    hide *;
    FlowToIs(n, x, actions);
    if n >= MIN_TICK {
      NothingTo(n - 1, x, actions);
      NoFlow(Orders(n), x, actions);
      PlusNothing(NOTHING);
    }
  }

  lemma ActionSplits(x: Session, a: Action, top: int)
    requires x.pool.ix.spacing > 0 && top == MAX_TICK
    ensures ActionShare(All, x, a)
            == ActionShare(Positions, x, a).Plus(ShareTo(top, x, a)).Plus(ActionShare(Fees, x, a))
  {
    hide *;
    ActionShareIs(All, x, a);
    ActionShareIs(Positions, x, a);
    ActionShareIs(Fees, x, a);
    ShareIs(top, x, a);
    if StepOf(x, a).Some? {
      StepSplits(x.pool, StepOf(x, a).value);
      TickInRange(x.pool, StepOf(x, a).value);
    } else {
      PlusNothing(NOTHING);
    }
  }

  /** The queue's own ledger after the run is what the run brought to it. */
  lemma {:induction false} QueueBooks(x: Session, actions: seq<Action>, x': Session, t: int, current: int,
      before: seq<Queue.Step>)
    requires InRange(t) && Mirrors(x.pool, t, current, before) && Leads(x, actions, x')
    ensures Queue.Run(t, current, PricesAt(t), before + StepsOf(x, actions, t)).vault
            == Queue.Run(t, current, PricesAt(t), before).vault.Plus(Flow(Orders(t), x, actions))
    decreases |actions|
  {
    hide Mirrors, After, Can, PricesAt, Queue.Run, ActionSteps, ActionShare;
    if actions == [] {
      assert before + StepsOf(x, actions, t) == before;
      PlusNothing(Queue.Run(t, current, PricesAt(t), before).vault);
    } else {
      ActionIsStep(x, actions[0]);
      var now := ActionSteps(x, actions[0], t);
      ActionMirrors(x, actions[0], t, current, before);
      ActionBooks(x, actions[0], t, current, before);
      QueueBooks(After(x, actions[0]), actions[1..], x', t, current, before + now);
      assert before + StepsOf(x, actions, t) == before + now + StepsOf(After(x, actions[0]), actions[1..], t);
    }
  }

  lemma ActionBooks(x: Session, a: Action, t: int, current: int, steps: seq<Queue.Step>)
    requires InRange(t) && Mirrors(x.pool, t, current, steps) && x.pool.ix.spacing > 0
    ensures Queue.Run(t, current, PricesAt(t), steps + ActionSteps(x, a, t)).vault
            == Queue.Run(t, current, PricesAt(t), steps).vault.Plus(ActionShare(Orders(t), x, a))
  {
    hide Mirrors, PricesAt, Queue.Run, StepOf, StepsAt, ToQueue;
    if StepOf(x, a).Some? {
      StepBooks(x.pool, StepOf(x, a).value, t, current, steps);
    } else {
      assert steps + ActionSteps(x, a, t) == steps;
      PlusNothing(Queue.Run(t, current, PricesAt(t), steps).vault);
    }
  }

  lemma SharesAdd(p: Pool, step: Step, v: Queue.Tokens)
    requires p.ix.spacing > 0
    ensures VaultAfter(p, step, v) == v.Plus(VaultAfter(p, step, NOTHING))
  {
    hide Passes, PassAmounts, Change, ModifyPosition;
  }

  /** The positions' share of the vault is what the run brought to them. */
  lemma {:induction false} PositionBooks(x: Session, v: Queue.Tokens, actions: seq<Action>, x': Session)
    requires Leads(x, actions, x') && SoundRun(x, actions)
    ensures Pays(x, v, actions, x', v.Plus(Flow(Positions, x, actions)))
    decreases |actions|
  {
    hide After, Can, Sound, ActionShare, VaultAfterAction;
    if actions == [] {
      PlusNothing(v);
    } else {
      ActionIsStep(x, actions[0]);
      var now := ActionShare(Positions, x, actions[0]);
      assert VaultAfterAction(x, actions[0], v) == v.Plus(now) by { ActionAdds(x, actions[0], v); }
      PositionBooks(After(x, actions[0]), v.Plus(now), actions[1..], x');
      PlusPlus(v, now, Flow(Positions, After(x, actions[0]), actions[1..]));
    }
  }

  lemma PlusPlus(a: Queue.Tokens, b: Queue.Tokens, c: Queue.Tokens)
    ensures a.Plus(b).Plus(c) == a.Plus(b.Plus(c))
  {}

  lemma ActionAdds(x: Session, a: Action, v: Queue.Tokens)
    requires x.pool.ix.spacing > 0
    ensures VaultAfterAction(x, a, v) == v.Plus(ActionShare(Positions, x, a))
  {
    hide VaultAfter, StepOf;
    PlusNothing(v);
    if StepOf(x, a).Some? { SharesAdd(x.pool, StepOf(x, a).value, v); }
  }

  // ---- One vault ----

  /** What the queues of all ticks up to `n` have to give. */
  ghost function HeldTo(n: int, spacing: nat, price: u128, actions: seq<Action>, zeroForOne: bool): nat
    requires InPriceRange(price) && n <= MAX_TICK
    decreases n - MIN_TICK + 1
  {
    hide InPriceRange, QueueAt;
    if n < MIN_TICK then 0
    else
      HeldTo(n - 1, spacing, price, actions, zeroForOne)
      + Queue.Held(QueueAt(spacing, price, actions, n), zeroForOne)
  }

  lemma HeldToIs(n: int, spacing: nat, price: u128, actions: seq<Action>, zeroForOne: bool)
    requires InPriceRange(price) && n <= MAX_TICK
    ensures MIN_TICK <= n ==> InRange(n)
    ensures HeldTo(n, spacing, price, actions, zeroForOne)
            == if n < MIN_TICK then 0
               else HeldTo(n - 1, spacing, price, actions, zeroForOne)
                    + Queue.Held(QueueAt(spacing, price, actions, n), zeroForOne)
  {
    hide InPriceRange, QueueAt, Queue.Held;
  }

  lemma {:induction false} QueuesCovered(n: int, spacing: nat, price: u128, actions: seq<Action>, x: Session,
      zero: bool)
    requires OrderlyRun(spacing, price, actions, x) && n <= MAX_TICK && InPriceRange(price)
    requires forall t :: InRange(t) ==> QueueTheorems.Slack(QueueAt(spacing, price, actions, t), !zero) <= Q64
    ensures HeldTo(n, spacing, price, actions, zero) <= FlowTo(n, NewSession(spacing, price), actions).In(zero)
    decreases n - MIN_TICK + 1
  {
    hide OrderlyRun, InPriceRange, QueueAt, Queue.Held, Flow, QueueTheorems.Slack, NewSession, FlowTo, HeldTo;
    HeldToIs(n, spacing, price, actions, zero);
    FlowToIs(n, NewSession(spacing, price), actions);
    if n >= MIN_TICK {
      QueuesCovered(n - 1, spacing, price, actions, x, zero);
      EveryTickSolvent(spacing, price, actions, x, n, zero);
      OrderlyIsRun(spacing, price, actions, x);
      QueueVault(spacing, price, actions, x, n);
    }
  }

  lemma OrderlyIsRun(spacing: nat, price: u128, actions: seq<Action>, x: Session)
    requires OrderlyRun(spacing, price, actions, x)
    ensures PoolRun(spacing, price, actions, x)
    ensures Leads(NewSession(spacing, price), actions, x) && SoundRun(NewSession(spacing, price), actions)
    ensures spacing > 0 && InPriceRange(price)
  {
    hide Leads, SoundRun, OnSideRun, NewSession;
  }

  lemma QueueVault(spacing: nat, price: u128, actions: seq<Action>, x: Session, t: int)
    requires PoolRun(spacing, price, actions, x) && InRange(t)
    ensures InPriceRange(price)
    ensures QueueAt(spacing, price, actions, t).vault == Flow(Orders(t), NewSession(spacing, price), actions)
  {
    hide Leads, TickAt, PricesAt, Flow, Mirrors, StepsOf, NewSession;
    StartMirrors(spacing, price, t);
    QueueBooks(NewSession(spacing, price), actions, x, t, TickAt(price), []);
    assert [] + StepsOf(NewSession(spacing, price), actions, t) == StepsOf(NewSession(spacing, price), actions, t);
  }

  /** After any orderly run from a new pool the vault, every token that came in less every token that left, covers
      at once, in each token, burning every position at the current price, all that the queues of all ticks have
      to give, and every fee charged; as long as the rounding of each cohort being filled is within one unit. */
  lemma OneVault(spacing: nat, price: u128, actions: seq<Action>, x: Session, zero: bool, top: int)
    requires OrderlyRun(spacing, price, actions, x) && InPriceRange(price) && top == MAX_TICK
    requires forall t :: InRange(t) ==> QueueTheorems.Slack(QueueAt(spacing, price, actions, t), !zero) <= Q64
    ensures AllRanged(x.pool.positions)
    ensures var x0 := NewSession(spacing, price);
            AllBurnsReturn(x.pool.positions, x.pool.price, zero)
            + HeldTo(top, spacing, price, actions, zero)
            + Flow(Fees, x0, actions).In(zero)
            <= Flow(All, x0, actions).In(zero)
  {
    hide OrderlyRun, InPriceRange, QueueAt, QueueTheorems.Slack, Flow, FlowTo, HeldTo, AllBurnsReturn, AllRanged, Pays,
        NewSession;
    var x0 := NewSession(spacing, price);
    OrderlyIsRun(spacing, price, actions, x);
    QueuesCovered(top, spacing, price, actions, x, zero);
    VaultIsParts(x0, actions, top);
    PositionBooks(x0, NOTHING, actions, x);
    NothingPlus(Flow(Positions, x0, actions));
    BurnsAreCovered(spacing, price, actions, x, Flow(Positions, x0, actions), zero);
  }

  lemma NothingPlus(v: Queue.Tokens)
    ensures NOTHING.Plus(v) == v
  {}
}
