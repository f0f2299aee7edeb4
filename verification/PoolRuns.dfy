/** Every run of the pool, swaps taken apart into their searches and passes: the tick a pass goes to is the one
    its search returned. */
module PoolRuns {
  import opened Types
  import opened Arith
  import opened LiquidityMath
  import opened TickMath
  import opened TickAtPrice
  import opened TickArray
  import opened TickArrayBitMap
  import opened LimitOrder
  import opened MatchTheorems
  import opened TickIndex
  import opened TickSearch
  import opened Pool
  import opened PoolInvariants
  import SwapMath
  import SwapTheorems
  import Budget = LiquidityBudget

  // ---- One pass ----

  /** What reaching a tick does to the index: its slot changes, and perhaps its array's bit. */
  lemma ArriveIndex(p: Pool, w: Swap, next: int, remaining: nat, feeRate: nat)
    requires p.ix.spacing > 0 && InRange(next) && Arrive(p, w, next, remaining, feeRate).Ok?
    ensures var (p', rest) := Arrive(p, w, next, remaining, feeRate).value;
            && p'.ix.spacing == p.ix.spacing && p'.positions == p.positions && rest <= remaining
            && (forall u :: u != next ==> SlotAt(p'.ix, u) == SlotAt(p.ix, u))
            && (p'.ix.bits == p.ix.bits || p'.ix.bits == FlipBit(p.ix, ArrayStart(next, p.ix.spacing)).bits)
            && p'.price == Budget.PriceOf(next)
               && p'.tick == TickAfter(next, w.zeroForOne, SlotAt(p'.ix, next).HasOrders())
  {
    hide QuoteAt, MatchAmounts, Consume, Consumed, Budget.PriceOf, AddDelta, ArrayStart, Slot.Initialized,
        Slot.HasOrders, Slot.HasLiquidity, Quote.Num, Quote.Den, CountAt, TickAfter;
    var s := SlotAt(p.ix, next);
    var available, quote := s.queue.remaining + s.queue.orders, QuoteAt(next, !w.zeroForOne);
    MatchCoversOrders(available, quote, remaining, w.baseInput, feeRate, w.feeOnInput);
  }

  /** The match of a taker against a tick's queue. */
  function MatchAt(queue: Tick, t: int, w: Swap, remaining: nat, feeRate: nat): (m: Result<Match>)
    requires InRange(t)
    ensures m.Ok? ==> m.value.gross <= queue.remaining + queue.orders
  {
    hide MatchAmounts, QuoteAt;
    var available, quote := queue.remaining + queue.orders, QuoteAt(t, !w.zeroForOne);
    var m := MatchAmounts(available, quote, remaining, w.baseInput, feeRate, w.feeOnInput);
    if m.Ok? then
      MatchCoversOrders(available, quote, remaining, w.baseInput, feeRate, w.feeOnInput);
      m
    else m
  }

  /** What an arrival does to the queues: the next tick's is matched, and the pool's tick moves. */
  lemma ArriveQueues(p: Pool, w: Swap, next: int, remaining: nat, feeRate: nat)
    requires p.ix.spacing > 0 && InRange(next) && Arrive(p, w, next, remaining, feeRate).Ok?
    ensures var (p', rest) := Arrive(p, w, next, remaining, feeRate).value;
            var queue := SlotAt(p.ix, next).queue;
            var m := MatchAt(queue, next, w, remaining, feeRate);
            && m.Ok?
            && rest == remaining - Consumed(m.value, w.baseInput, w.feeOnInput) <= remaining
            && SlotAt(p'.ix, next).queue == Consume(queue, m.value.gross)
            && (forall u :: u != next ==> SlotAt(p'.ix, u) == SlotAt(p.ix, u))
            && p'.orders == p.orders && p'.price == Budget.PriceOf(next)
               && p'.tick == TickAfter(next, w.zeroForOne, SlotAt(p'.ix, next).HasOrders())
  {
    hide QuoteAt, MatchAmounts, Consume, Consumed, Budget.PriceOf, AddDelta, ArrayStart, Slot.Initialized,
        Slot.HasOrders, Slot.HasLiquidity, Quote.Num, Quote.Den, CountAt, TickAfter;
  }

  /** What a pass that does not reach the tick does: it moves the price and the tick only. */
  lemma PassIndex(p: Pool, w: Swap, remaining: nat, next: int, feeRate: nat, bounded: nat)
    requires p.ix.spacing > 0 && InRange(next) && SwapStep(p, w, remaining, next, feeRate, bounded).Ok?
    ensures var (p', rest) := SwapStep(p, w, remaining, next, feeRate, bounded).value;
            && rest <= remaining
            && (p'.price != Budget.PriceOf(next) ==>
                  && p' == p.(price := p'.price, tick := p'.tick)
                  && (p' == p || (InPriceRange(p'.price) && p'.price != p.price && p'.tick == TickAt(p'.price)))
                  && SwapMath.Directed(p.price, p'.price, w.zeroForOne)
                     && SwapMath.Directed(p'.price, Target(w, next), w.zeroForOne))
            && (p'.price == Budget.PriceOf(next) ==>
                  && p'.ix.spacing == p.ix.spacing && p'.positions == p.positions
                  && (forall u :: u != next ==> SlotAt(p'.ix, u) == SlotAt(p.ix, u))
                  && (p'.ix.bits == p.ix.bits || p'.ix.bits == FlipBit(p.ix, ArrayStart(next, p.ix.spacing)).bits)
                  && p'.tick == TickAfter(next, w.zeroForOne, SlotAt(p'.ix, next).HasOrders()))
  {
    hide Arrive, Move, Budget.PriceOf, TickAt, InPriceRange, Ahead, Target, ArrayStart, TickAfter, FlipBit,
        Slot.HasOrders, SlotAt;
    MoveDirected(p, w, remaining, feeRate, bounded);
    MoveSpends(p, w, remaining, feeRate, bounded);
    var moved := Move(p, w, remaining, feeRate, bounded).value;
    if moved.0 == Budget.PriceOf(next) { ArriveIndex(p, w, next, moved.1, feeRate); }
  }

  lemma MoveSpends(p: Pool, w: Swap, remaining: nat, feeRate: nat, bounded: nat)
    requires SwapMath.Directed(p.price, bounded, w.zeroForOne) && Move(p, w, remaining, feeRate, bounded).Ok?
    ensures Move(p, w, remaining, feeRate, bounded).value.1 <= remaining
  {
    hide SwapMath.Step;
  }

  /** From `from` a price went toward `stop`, the way of the swap, and not past it. */
  predicate StopsBy(from: nat, to: nat, stop: nat, zeroForOne: bool) {
    if zeroForOne then stop <= to <= from else from <= to <= stop
  }

  /** No pass trades past the price limit, nor past the price of the tick it goes to, and one that is cut short by
      neither, nor by its bound, has used up what remained. */
  lemma PassStopsInTime(p: Pool, w: Swap, remaining: nat, next: int, feeRate: nat, bounded: nat)
    requires p.ix.spacing > 0 && InRange(next) && SwapStep(p, w, remaining, next, feeRate, bounded).Ok?
    ensures var (p', rest) := SwapStep(p, w, remaining, next, feeRate, bounded).value;
            && StopsBy(p.price, p'.price, w.limit, w.zeroForOne)
            && StopsBy(p.price, p'.price, Budget.PriceOf(next), w.zeroForOne)
            && StopsBy(p.price, p'.price, bounded, w.zeroForOne)
            && (p'.price != bounded && (w.feeOnInput || !w.baseInput) ==> rest == 0)
  {
    hide Arrive, Move, Budget.PriceOf, TickAt, InPriceRange, Ahead, ArrayStart, TickAfter, FlipBit, Slot.HasOrders,
        SlotAt;
    MoveDirected(p, w, remaining, feeRate, bounded);
    MoveSpendsAll(p, w, remaining, feeRate, bounded);
    var moved := Move(p, w, remaining, feeRate, bounded).value;
    if moved.0 == Budget.PriceOf(next) { ArriveIndex(p, w, next, moved.1, feeRate); }
  }

  lemma MoveSpendsAll(p: Pool, w: Swap, remaining: nat, feeRate: nat, bounded: nat)
    requires SwapMath.Directed(p.price, bounded, w.zeroForOne) && Move(p, w, remaining, feeRate, bounded).Ok?
    ensures var (price, rest) := Move(p, w, remaining, feeRate, bounded).value;
            price != bounded && (w.feeOnInput || !w.baseInput) ==> rest == 0
  {
    hide SwapMath.Step;
    if p.price != bounded {
      if !w.baseInput {
        SwapTheorems.ExactOutputAccounting(p.price, bounded, p.liquidity, remaining, feeRate, w.zeroForOne,
            w.feeOnInput);
      } else if w.feeOnInput {
        SwapTheorems.ExactInputFeeOnInputAccounting(p.price, bounded, p.liquidity, remaining, feeRate, w.zeroForOne);
      }
    }
  }

  /** A target is the limit or the price of the tick, whichever comes first. */
  lemma TargetComesFirst(w: Swap, next: int)
    requires InRange(next)
    ensures Target(w, next) == w.limit || Target(w, next) == Budget.PriceOf(next)
    ensures if w.zeroForOne then w.limit <= Target(w, next) && Budget.PriceOf(next) <= Target(w, next)
            else Target(w, next) <= w.limit && Target(w, next) <= Budget.PriceOf(next)
  {
    hide Budget.PriceOf;
  }

  /** A price that reached the next tick reached the target. */
  lemma ReachedTarget(p: Pool, w: Swap, remaining: nat, next: int, feeRate: nat, bounded: nat)
    requires p.ix.spacing > 0 && InRange(next) && SwapStep(p, w, remaining, next, feeRate, bounded).Ok?
    ensures SwapStep(p, w, remaining, next, feeRate, bounded).value.0.price == Budget.PriceOf(next)
            ==> Target(w, next) == Budget.PriceOf(next)
  {
    hide Arrive, Move, Budget.PriceOf, TickAt, InPriceRange, Ahead, ArrayStart, TickAfter, FlipBit, Slot.HasOrders,
        SlotAt;
    MoveDirected(p, w, remaining, feeRate, bounded);
    var moved := Move(p, w, remaining, feeRate, bounded).value;
    if moved.0 == Budget.PriceOf(next) { ArriveIndex(p, w, next, moved.1, feeRate); }
  }

  /** The fee rounds up to the whole of what remains. */
  predicate TakesAll(remaining: nat, feeRate: nat) {
    && feeRate <= SwapMath.FEE_RATE_DENOMINATOR
    && remaining * (SwapMath.FEE_RATE_DENOMINATOR - feeRate) < SwapMath.FEE_RATE_DENOMINATOR
  }

  /** Then an exact input moves nothing while there is liquidity: the fee takes it, and the swap ends. */
  lemma FeeTakesAll(p: Pool, w: Swap, remaining: nat, next: int, feeRate: nat, bounded: nat)
    requires p.ix.spacing > 0 && InRange(next) && SwapStep(p, w, remaining, next, feeRate, bounded).Ok?
    requires p.liquidity > 0 && p.price != bounded
    requires w.baseInput && w.feeOnInput && TakesAll(remaining, feeRate)
    ensures SwapStep(p, w, remaining, next, feeRate, bounded) == Ok((p, 0))
  {
    hide SwapMath.Step, Budget.PriceOf, TickAt, InPriceRange, Ahead, Arrive;
    WholeFeeStep(p.price, bounded, p.liquidity, remaining, feeRate, w.zeroForOne);
    assert Move(p, w, remaining, feeRate, bounded) == Ok((p.price, 0));
  }

  /** One token left is spent on the fee at any positive rate. */
  lemma LastTokenSpent(feeRate: nat)
    ensures TakesAll(1, feeRate) <==> 0 < feeRate <= SwapMath.FEE_RATE_DENOMINATOR
  {}

  /** Orders are left over only by a match whose fee took the whole input, so that a later pass at that rate or a
      higher one, with any liquidity, moves nothing. */
  lemma LeftOverTakesAll(p: Pool, w: Swap, next: int, remaining: nat, feeRate: nat, laterRate: nat)
    requires p.ix.spacing > 0 && InRange(next) && Arrive(p, w, next, remaining, feeRate).Ok?
    requires feeRate <= laterRate <= SwapMath.FEE_RATE_DENOMINATOR && feeRate < SwapMath.FEE_RATE_DENOMINATOR
    requires var (p', rest) := Arrive(p, w, next, remaining, feeRate).value;
             rest > 0 && SlotAt(p'.ix, next).HasOrders()
    ensures w.baseInput && w.feeOnInput && TakesAll(Arrive(p, w, next, remaining, feeRate).value.1, laterRate)
  {
    hide QuoteAt, MatchAmounts, Arrive, Consume, Consumed, TakesAll;
    var queue, quote := SlotAt(p.ix, next).queue, QuoteAt(next, !w.zeroForOne);
    var available := queue.remaining + queue.orders;
    var rest := Arrive(p, w, next, remaining, feeRate).value.1;
    ArriveQueues(p, w, next, remaining, feeRate);
    AllConsumed(queue);
    MatchExhaustsIff(available, quote, remaining, w.baseInput, feeRate, w.feeOnInput);
    StillTakesAll(remaining, feeRate, rest, laterRate);
  }

  lemma AllConsumed(t: Tick)
    ensures Consume(t, t.remaining + t.orders).orders == 0 && Consume(t, t.remaining + t.orders).remaining == 0
    ensures Consume(t, 0) == t
  {
    hide Scale;
  }

  lemma StillTakesAll(amount: nat, rate: nat, rest: nat, later: nat)
    requires rest <= amount && rate <= later <= SwapMath.FEE_RATE_DENOMINATOR
    requires amount * (SwapMath.FEE_RATE_DENOMINATOR - rate) < SwapMath.FEE_RATE_DENOMINATOR
    ensures TakesAll(rest, later)
  {
    MulLe(rest, amount, SwapMath.FEE_RATE_DENOMINATOR - rate);
    MulLe(SwapMath.FEE_RATE_DENOMINATOR - later, SwapMath.FEE_RATE_DENOMINATOR - rate, rest);
  }

  lemma WholeFeeStep(current: nat, target: nat, liquidity: nat, remaining: nat, feeRate: nat, zeroForOne: bool)
    requires SwapMath.Directed(current, target, zeroForOne) && current != target && liquidity > 0
             && feeRate <= SwapMath.FEE_RATE_DENOMINATOR
    requires remaining * (SwapMath.FEE_RATE_DENOMINATOR - feeRate) < SwapMath.FEE_RATE_DENOMINATOR
    requires SwapMath.Step(current, target, liquidity, remaining, feeRate, true, zeroForOne, true).Some?
    ensures var r := SwapMath.Step(current, target, liquidity, remaining, feeRate, true, zeroForOne, true).value;
            r.sqrtPriceNext == current && r.amountIn == 0 && r.feeAmount == remaining
  {
    NothingToSpend(remaining, feeRate);
    NothingMoves(current, target, liquidity, zeroForOne);
    hide SwapMath.Budget, SwapMath.NextPrice, SwapMath.AmountIn, SwapMath.GrossOut;
  }

  lemma NothingToSpend(remaining: nat, feeRate: nat)
    requires feeRate <= SwapMath.FEE_RATE_DENOMINATOR
    requires remaining * (SwapMath.FEE_RATE_DENOMINATOR - feeRate) < SwapMath.FEE_RATE_DENOMINATOR
    ensures SwapMath.Budget(remaining, feeRate, true, true) == Some(0)
  {
    var keep := SwapMath.FEE_RATE_DENOMINATOR - feeRate;
    MulLe(0, remaining, keep);
    FloorIff(remaining * keep, SwapMath.FEE_RATE_DENOMINATOR, 1);
  }

  lemma NothingMoves(current: nat, target: nat, liquidity: nat, zeroForOne: bool)
    requires SwapMath.Directed(current, target, zeroForOne) && liquidity > 0
    ensures SwapMath.NextPrice(current, target, liquidity, 0, true, zeroForOne) == current
    ensures SwapMath.AmountIn(current, current, liquidity, zeroForOne) == 0
  {
    var n := liquidity * Q64;
    CeilIff(n * current, n, current);
    CeilIff(n * current, n, current - 1);
    Expand(current, n);
    FloorIff(0, liquidity, 1);
    if zeroForOne { In0Iff(current, current, liquidity, 0); } else { In1Iff(current, current, liquidity, 0); }
  }

  // ---- Sessions ----

  /** A swap is between searches, or going toward the tick its search found; `past` tells that a search has had to
      look past orders. */
  datatype Phase =
    | Idle
    | Seeking(w: Swap, remaining: nat, at: int, seen: bool, past: bool)
    | Toward(w: Swap, remaining: nat, next: int, past: bool)

  datatype Session = Session(pool: Pool, phase: Phase)

  /** What happens to the pool: an instruction other than a swap, or a part of a swap. */
  datatype Action =
    | Do(step: Step)
    | Begin(w: Swap, amount: nat, at: int, seen: bool)
    | Seek(next: int)
    | Pass(feeRate: nat, bounded: nat)

  function NewSession(spacing: nat, price: u128): Session
    requires InPriceRange(price)
  {
    Session(Created(spacing, price), Idle)
  }

  /** The pool step of an action, if it has one. */
  function StepOf(x: Session, a: Action): Option<Step> {
    match a
    case Do(step) => Some(step)
    case Pass(feeRate, bounded) =>
        if x.phase.Toward? then Some(SwapTo(x.phase.w, x.phase.remaining, x.phase.next, feeRate, bounded)) else None
    case _ => None
  }

  /** An action the program can take here. The instructions of a run are those that go through. */
  ghost predicate Can(x: Session, a: Action) {
    x.pool.ix.spacing > 0 &&
    match a
    case Do(step) => x.phase.Idle? && !step.SwapTo?
    case Begin(w, amount, at, seen) =>
        x.phase.Idle? && amount > 0 && Started(x.pool.ix, x.pool.tick, w.zeroForOne, Some((seen, at)))
    case Seek(next) => x.phase.Seeking?
        && Searched(x.pool.ix, x.pool.tick, x.phase.at, x.phase.seen, x.phase.w.zeroForOne, Some(next))
    case Pass(_, _) => x.phase.Toward? && Passes(x.pool, StepOf(x, a).value)
  }

  /** The search goes on where it can: not after a swap upwards left orders at the first tick of an array. */
  predicate Continues(w: Swap, next: int, p: Pool)
    requires p.ix.spacing > 0
  {
    w.zeroForOne || !SlotAt(p.ix, next).HasOrders() || next != ArrayStart(next, p.ix.spacing)
  }

  /** The tick is reached, the limit is reached, or nothing remains; otherwise the swap goes on toward the tick. */
  function PhaseAfter(w: Swap, rest: nat, next: int, past: bool, p: Pool): Phase
    requires p.ix.spacing > 0 && InRange(next)
  {
    if rest != 0 && p.price != Target(w, next) then Toward(w, rest, next, past)
    else if rest == 0 || p.price == w.limit then Idle
    else Seeking(w, rest, ArrayStart(next, p.ix.spacing), true, past || !Continues(w, next, p))
  }

  ghost function After(x: Session, a: Action): Session
    requires Can(x, a)
  {
    hide Apply, SwapStep;
    match a
    case Do(step) => Session(Apply(x.pool, step), Idle)
    case Begin(w, amount, at, seen) => Session(x.pool, Seeking(w, amount, at, seen, false))
    case Seek(next) => Session(x.pool, Toward(x.phase.w, x.phase.remaining, next, x.phase.past))
    case Pass(feeRate, bounded) =>
      var r := SwapStep(x.pool, x.phase.w, x.phase.remaining, x.phase.next, feeRate, bounded).value;
      PassKeepsSpacing(x.pool, x.phase.w, x.phase.remaining, x.phase.next, feeRate, bounded);
      Session(r.0, PhaseAfter(x.phase.w, r.1, x.phase.next, x.phase.past, r.0))
  }

  lemma PassKeepsSpacing(p: Pool, w: Swap, remaining: nat, next: int, feeRate: nat, bounded: nat)
    requires p.ix.spacing > 0 && InRange(next) && SwapStep(p, w, remaining, next, feeRate, bounded).Ok?
    ensures SwapStep(p, w, remaining, next, feeRate, bounded).value.0.ix.spacing == p.ix.spacing
  {
    hide SwapStep, Budget.PriceOf, ArrayStart, FlipBit, TickAfter, Target;
    PassIndex(p, w, remaining, next, feeRate, bounded);
  }

  /** There is liquidity and the fee takes all that remains; a single token left is such a case at any positive
      rate, `LastTokenSpent`. Or the pass is bounded to where the price is already. */
  predicate Spends(p: Pool, w: Swap, remaining: nat, next: int, a: Action)
    requires InRange(next) && a.Pass?
  {
    if p.price == a.bounded then p.price != Budget.PriceOf(next)
    else p.liquidity > 0 && w.baseInput && w.feeOnInput && TakesAll(remaining, a.feeRate)
  }

  /** What the pool's books need of an action: an increase meets an initialized tick (exactly, `GrowKeepsInvIff`);
      and after a search that had to look past orders, which is no other than `Continues` says
      (`SearchContinuesIff`), the fee takes what is left. */
  ghost predicate Sound(x: Session, a: Action)
    requires Can(x, a)
  {
    && (a.Do? ==> Counted(x.pool, a.step))
    && (a.Pass? && x.phase.Toward? && x.phase.past && InRange(x.phase.next)
       ==> Spends(x.pool, x.phase.w, x.phase.remaining, x.phase.next, a))
  }

  ghost predicate Leads(x: Session, actions: seq<Action>, x': Session)
    decreases |actions|
  {
    if actions == [] then x == x' else Can(x, actions[0]) && Leads(After(x, actions[0]), actions[1..], x')
  }

  ghost predicate SoundRun(x: Session, actions: seq<Action>)
    decreases |actions|
  {
    actions != [] ==> Can(x, actions[0]) && Sound(x, actions[0]) && SoundRun(After(x, actions[0]), actions[1..])
  }

  /** One more action at the end of a run. */
  lemma {:induction false} LeadsSnoc(x: Session, actions: seq<Action>, y: Session, a: Action)
    requires Leads(x, actions, y) && Can(y, a)
    ensures Leads(x, actions + [a], After(y, a))
    ensures SoundRun(x, actions) && Sound(y, a) ==> SoundRun(x, actions + [a])
    decreases |actions|
  {
    hide Can, After, Sound;
    if actions == [] {
      assert [a][1..] == [];
    } else {
      LeadsSnoc(After(x, actions[0]), actions[1..], y, a);
      assert (actions + [a])[1..] == actions[1..] + [a];
    }
  }

  // ---- The invariant of a session ----

  /** The pool's invariant, and what the swap keeps: a search in order, or the nearest tick ahead. */
  ghost predicate SessionInv(x: Session) {
    && Inv(x.pool) && x.pool.ix.spacing > 0
    && match x.phase
       case Idle => true
       case Seeking(w, _, at, seen, past) => past || SearchInv(x.pool.ix, x.pool.tick, at, seen, w.zeroForOne)
       case Toward(w, _, next, past) => past || (InRange(next) && IsNext(x.pool.ix, x.pool.tick, w.zeroForOne, next))
  }

  lemma SessionParts(x: Session)
    requires SessionInv(x)
    ensures Inv(x.pool) && x.pool.ix.spacing > 0
  {
    hide Inv, SearchInv, IsNext;
  }

  /** An action changes the pool by its step. */
  lemma ActionIsStep(x: Session, a: Action)
    requires Can(x, a)
    ensures x.pool.ix.spacing > 0
    ensures match StepOf(x, a)
            case None => After(x, a).pool == x.pool
            case Some(step) => After(x, a).pool == Apply(x.pool, step)
  {
    hide Started, Searched, AddLiquidity, BurnLiquidity, PlaceOrder, GrowOrder, ShrinkOrder, SettleOrder, SwapStep,
        Slot.Initialized;
  }

  /** A pass goes toward the nearest tick, or moves nothing. */
  lemma ActionOrderly(x: Session, a: Action)
    requires SessionInv(x) && Can(x, a) && Sound(x, a) && StepOf(x, a).Some?
    ensures Orderly(x.pool, StepOf(x, a).value)
  {
    hide Inv, SearchInv, IsNext, Started, Searched, SwapStep, Slot.Initialized, Apply, Still, Spends;
    if a.Pass? && x.phase.past { SpendsStill(x, a); }
  }

  lemma SpendsStill(x: Session, a: Action)
    requires Can(x, a) && Sound(x, a) && a.Pass? && x.phase.past
    ensures x.pool.ix.spacing > 0 && StepOf(x, a).Some? && Passes(x.pool, StepOf(x, a).value)
    ensures Still(x.pool, StepOf(x, a).value)
    ensures After(x, a).pool == x.pool
    ensures After(x, a).phase.Idle? || After(x, a).phase.past
  {
    hide *;
    SoundIs(x, a);
    PassAfter(x, a);
    StepStill(x.pool, x.phase.w, x.phase.remaining, x.phase.next, a);
    StillIs(x.pool, StepOf(x, a).value);
  }

  /** What a pass leaves of the session. */
  lemma PassAfter(x: Session, a: Action)
    requires Can(x, a) && a.Pass?
    ensures x.pool.ix.spacing > 0 && x.phase.Toward? && InRange(x.phase.next)
    ensures SwapStep(x.pool, x.phase.w, x.phase.remaining, x.phase.next, a.feeRate, a.bounded).Ok?
    ensures var r := SwapStep(x.pool, x.phase.w, x.phase.remaining, x.phase.next, a.feeRate, a.bounded).value;
            && r.0.ix.spacing > 0
            && After(x, a) == Session(r.0, PhaseAfter(x.phase.w, r.1, x.phase.next, x.phase.past, r.0))
    ensures x.phase.past ==> After(x, a).phase.Idle? || After(x, a).phase.past
    ensures StepOf(x, a)
            == Some(SwapTo(x.phase.w, x.phase.remaining, x.phase.next, a.feeRate, a.bounded))
  {
    hide SwapStep, Budget.PriceOf, Slot.Initialized, Started, Searched, Continues, Target;
    PassKeepsSpacing(x.pool, x.phase.w, x.phase.remaining, x.phase.next, a.feeRate, a.bounded);
  }

  lemma SoundIs(x: Session, a: Action)
    requires Can(x, a) && Sound(x, a) && a.Pass? && x.phase.past
    ensures x.phase.Toward? && InRange(x.phase.next) && Passes(x.pool, StepOf(x, a).value)
    ensures Spends(x.pool, x.phase.w, x.phase.remaining, x.phase.next, a)
  {
    hide SwapStep, Budget.PriceOf, Spends, Slot.Initialized, Started, Searched, Counted;
  }

  lemma StillIs(p: Pool, step: Step)
    requires p.ix.spacing > 0 && Passes(p, step)
    ensures step.SwapTo? && InRange(step.next)
    ensures p.price != Budget.PriceOf(step.next) && Apply(p, step) == p ==> Still(p, step)
    ensures Apply(p, step)
            == SwapStep(p, step.swap, step.remaining, step.next, step.feeRate, step.bounded).value.0
  {
    hide SwapStep, Budget.PriceOf;
  }

  lemma StepStill(p: Pool, w: Swap, remaining: nat, next: int, a: Action)
    requires p.ix.spacing > 0 && InRange(next) && a.Pass? && Spends(p, w, remaining, next, a)
    requires SwapStep(p, w, remaining, next, a.feeRate, a.bounded).Ok?
    ensures SwapStep(p, w, remaining, next, a.feeRate, a.bounded).value.0 == p && p.price != Budget.PriceOf(next)
  {
    hide *;
    SpendsIs(p, w, remaining, next, a);
    if p.price == a.bounded {
      StuckStep(p, w, remaining, next, a.feeRate);
    } else {
      FeeTakesAll(p, w, remaining, next, a.feeRate, a.bounded);
      ShortOfNext(p, w, remaining, next, a.feeRate, a.bounded);
    }
  }

  lemma SpendsIs(p: Pool, w: Swap, remaining: nat, next: int, a: Action)
    requires InRange(next) && a.Pass? && Spends(p, w, remaining, next, a)
    ensures if p.price == a.bounded then p.price != Budget.PriceOf(next)
            else p.liquidity > 0 && w.baseInput && w.feeOnInput && TakesAll(remaining, a.feeRate)
  {
    hide Budget.PriceOf, TakesAll;
  }

  lemma StuckStep(p: Pool, w: Swap, remaining: nat, next: int, feeRate: nat)
    requires p.ix.spacing > 0 && InRange(next) && p.price != Budget.PriceOf(next)
    requires SwapStep(p, w, remaining, next, feeRate, p.price).Ok?
    ensures SwapStep(p, w, remaining, next, feeRate, p.price) == Ok((p, remaining))
  {
    hide Arrive, Budget.PriceOf, TickAt, InPriceRange, SwapMath.Step, Target, Ahead;
  }

  lemma ShortOfNext(p: Pool, w: Swap, remaining: nat, next: int, feeRate: nat, bounded: nat)
    requires p.ix.spacing > 0 && InRange(next) && p.price != bounded
    requires SwapStep(p, w, remaining, next, feeRate, bounded).Ok?
    ensures p.price != Budget.PriceOf(next)
  {
    hide Arrive, Move, Budget.PriceOf, TickAt, InPriceRange, Ahead;
  }

  lemma BeginKeeps(x: Session, a: Action)
    requires SessionInv(x) && Can(x, a) && a.Begin?
    ensures SessionInv(After(x, a))
  {
    hide Inv, SearchInv, IsNext, Started, Searched, Budget.PriceAtTick;
    InvParts(x.pool);
    PositivePrice(x.pool);
    StartedInOrder(x.pool.ix, x.pool.tick, a.w.zeroForOne, Some((a.seen, a.at)));
  }

  lemma SeekKeeps(x: Session, a: Action)
    requires SessionInv(x) && Can(x, a) && a.Seek?
    ensures SessionInv(After(x, a))
  {
    hide Inv, SearchInv, IsNext, Started, Searched, Agrees, Slot.Initialized;
    if x.phase.past { return; }
    InvParts(x.pool);
    SearchedIsNext(x.pool.ix, x.pool.tick, x.phase.at, x.phase.seen, x.phase.w.zeroForOne, Some(a.next));
    NextIs(x.pool.ix, x.pool.tick, x.phase.w.zeroForOne, a.next);
    InitializedInBits(x.pool.ix, a.next);
  }

  /** While the pool's tick stays short of the next one, the next one stays the next. */
  lemma NextStays(p: Pool, p': Pool, next: int, zeroForOne: bool)
    requires IsNext(p.ix, p.tick, zeroForOne, next) && p'.ix == p.ix
    requires if zeroForOne then next <= p'.tick <= p.tick else p.tick <= p'.tick < next
    ensures IsNext(p'.ix, p'.tick, zeroForOne, next)
  {}

  /** After a pass: the swap is done, still on its way to the same tick, or searching in order. */
  lemma PassKeeps(x: Session, a: Action)
    requires SessionInv(x) && Can(x, a) && a.Pass? && Sound(x, a)
    ensures SessionInv(After(x, a))
  {
    hide Inv, SearchInv, IsNext, SwapStep, Budget.PriceOf, Target, ArrayStart, TickAfter, FlipBit, Slot.Initialized,
        Slot.HasOrders, Agrees, Spends, Continues;
    if x.phase.past { SpendsStill(x, a); return; }
    var p, w, next := x.pool, x.phase.w, x.phase.next;
    var step := StepOf(x, a).value;
    SwapStepKeepsInv(p, w, x.phase.remaining, next, a.feeRate, a.bounded);
    PassIndex(p, w, x.phase.remaining, next, a.feeRate, a.bounded);
    ShortTick(p, w, x.phase.remaining, next, a.feeRate, a.bounded);
    ReachedTarget(p, w, x.phase.remaining, next, a.feeRate, a.bounded);
    var p' := After(x, a).pool;
    InvParts(p);
    InvParts(p');
    if After(x, a).phase.Toward? {
      NextStays(p, p', next, w.zeroForOne);
    } else if After(x, a).phase.Seeking? {
      TargetIs(w, next);
      ContinuesIs(w, next, p');
      InOrderIff(p.ix, p'.ix, p.tick, next, w.zeroForOne);
    }
  }

  lemma ContinuesIs(w: Swap, next: int, p: Pool)
    requires p.ix.spacing > 0
    ensures Continues(w, next, p)
            <==> w.zeroForOne || !SlotAt(p.ix, next).HasOrders() || next != ArrayStart(next, p.ix.spacing)
  {
    hide SlotAt, Slot.HasOrders, ArrayStart;
  }

  lemma TargetIs(w: Swap, next: int)
    requires InRange(next)
    ensures Target(w, next) == w.limit || Target(w, next) == Budget.PriceOf(next)
  {
    hide Budget.PriceOf;
  }

  lemma ActionKeeps(x: Session, a: Action)
    requires SessionInv(x) && Can(x, a) && Sound(x, a)
    ensures SessionInv(After(x, a))
  {
    match a
    case Do(step) => {
      hide Inv, Apply;
      StepKeepsInv(x.pool, step);
    }
    case Begin(_, _, _, _) => BeginKeeps(x, a);
    case Seek(_) => SeekKeeps(x, a);
    case Pass(_, _) => PassKeeps(x, a);
  }

  lemma {:induction false} RunKeepsInv(x: Session, actions: seq<Action>, x': Session)
    requires SessionInv(x) && Leads(x, actions, x') && SoundRun(x, actions)
    ensures SessionInv(x')
    decreases |actions|
  {
    hide SessionInv, Can, After, Sound;
    if actions != [] {
      ActionKeeps(x, actions[0]);
      RunKeepsInv(After(x, actions[0]), actions[1..], x');
    }
  }

  lemma NewSessionInv(spacing: nat, price: u128)
    requires spacing > 0 && InPriceRange(price)
    ensures SessionInv(NewSession(spacing, price))
  {
    hide Inv, TickAt;
    CreatedInv(spacing, price);
    SpacingPositive(Created(spacing, price));
  }

  /** After any run from a new pool, within a swap or between instructions: the pool's liquidity is the sum of
      the positions in range, and also the prefix sum of the ticks' net liquidity; a tick is counted iff it has
      liquidity or orders; a bit is set iff its array counts some tick. */
  lemma ActiveLiquidity(spacing: nat, price: u128, actions: seq<Action>, x: Session)
    requires spacing > 0 && InPriceRange(price)
    requires Leads(NewSession(spacing, price), actions, x) && SoundRun(NewSession(spacing, price), actions)
    ensures var p := x.pool;
            && p.liquidity as int == Total(p.positions, Active(p.tick)) == NetUpTo(p.ix, p.tick)
            && p.ix.spacing > 0
            && forall a :: CountAt(p.ix, a) == |InitTicks(p.ix, a)| && (a in p.ix.bits <==> InitTicks(p.ix, a) != {})
  {
    hide Leads, SoundRun, Inv, Total, NetUpTo, InitTicks;
    NewSessionInv(spacing, price);
    RunKeepsInv(NewSession(spacing, price), actions, x);
    LiquidityIsActive(x.pool);
  }
}
