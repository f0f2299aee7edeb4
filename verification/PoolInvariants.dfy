/** What every run of the pool keeps: the index agrees at its three levels, the pool's liquidity is
    that of the positions in range, and crossing a tick never underflows it. */
module PoolInvariants {
  import opened Types
  import opened Arith
  import opened LiquidityMath
  import opened TickMath
  import opened TickAtPrice
  import opened TickArray
  import opened LimitOrder
  import opened MatchTheorems
  import opened TickIndex
  import opened TickSearch
  import opened Pool
  import SwapMath
  import TickInverse
  import Budget = LiquidityBudget

  // ---- Totals over the positions ----

  /** The liquidity that touches a tick, its signed net, and what is active at a tick. */
  datatype Measure = Gross(t: int) | Net(t: int) | Active(t: int)

  function Of(m: Measure, p: Position): int {
    match m
    case Gross(t) => (if p.lower == t then p.liquidity else 0) + (if p.upper == t then p.liquidity else 0)
    case Net(t) => (if p.lower == t then p.liquidity else 0) - (if p.upper == t then p.liquidity else 0)
    case Active(t) => if p.lower <= t < p.upper then p.liquidity else 0
  }

  function Total(ps: seq<Position>, m: Measure): int {
    if ps == [] then 0 else Total(ps[..|ps| - 1], m) + Of(m, ps[|ps| - 1])
  }

  lemma {:induction false} TotalUpdate(ps: seq<Position>, i: nat, p: Position, m: Measure)
    requires i < |ps|
    ensures Total(ps[i := p], m) == Total(ps, m) + Of(m, p) - Of(m, ps[i])
    decreases |ps|
  {
    hide Of;
    var n := |ps| - 1;
    if i == n {
      assert ps[i := p][..n] == ps[..n];
    } else {
      assert ps[i := p][..n] == ps[..n][i := p];
      TotalUpdate(ps[..n], i, p, m);
    }
  }

  predicate Ordered(ps: seq<Position>) { forall i :: 0 <= i < |ps| ==> ps[i].lower < ps[i].upper }

  lemma {:induction false} TotalBounds(ps: seq<Position>, t: int)
    ensures 0 <= Total(ps, Active(t)) && 0 <= Total(ps, Gross(t))
    ensures -Total(ps, Gross(t)) <= Total(ps, Net(t)) <= Total(ps, Gross(t))
    decreases |ps|
  {
    if ps != [] { TotalBounds(ps[..|ps| - 1], t); }
  }

  /** Moving one tick up changes the active liquidity by the tick's net. */
  lemma {:induction false} ActiveStep(ps: seq<Position>, t: int)
    requires Ordered(ps)
    ensures Total(ps, Active(t)) == Total(ps, Active(t - 1)) + Total(ps, Net(t))
    decreases |ps|
  {
    if ps != [] { ActiveStep(ps[..|ps| - 1], t); }
  }

  /** It does not change where no position begins or ends. */
  lemma {:induction false} ActiveSame(ps: seq<Position>, a: int, b: int)
    requires Ordered(ps) && a <= b && forall t :: a < t <= b ==> Total(ps, Gross(t)) == 0
    ensures Total(ps, Active(a)) == Total(ps, Active(b))
    decreases b - a
  {
    if a < b {
      ActiveStep(ps, b);
      TotalBounds(ps, b);
      ActiveSame(ps, a, b - 1);
    }
  }

  /** The sum of net liquidity over the ticks up to `t`. */
  function NetUpTo(ix: Index, t: int): int
    decreases t - MIN_TICK + 1
  {
    if t < MIN_TICK then 0 else NetUpTo(ix, t - 1) + SlotAt(ix, t).net
  }

  // ---- The invariant ----

  ghost predicate TicksMatch(p: Pool) {
    forall t :: SlotAt(p.ix, t).gross as int == Total(p.positions, Gross(t))
        && SlotAt(p.ix, t).net as int == Total(p.positions, Net(t))
  }

  ghost predicate Inv(p: Pool) {
    && Agrees(p.ix)
    && Budget.PriceAtTick(p.tick, p.price)
    && (forall i :: 0 <= i < |p.positions| ==> ValidRange(p.ix.spacing, p.positions[i].lower, p.positions[i].upper))
    && TicksMatch(p)
    && p.liquidity as int == Total(p.positions, Active(p.tick))
  }

  lemma InvParts(p: Pool)
    requires Inv(p)
    ensures Agrees(p.ix) && p.ix.spacing > 0 && Budget.PriceAtTick(p.tick, p.price) && TicksMatch(p)
    ensures p.liquidity as int == Total(p.positions, Active(p.tick))
  {
    hide Agrees, Total, TicksMatch, Budget.PriceAtTick;
    AgreesSpacing(p.ix);
  }

  lemma RangeParts(spacing: nat, lower: int, upper: int)
    requires spacing > 0 && ValidRange(spacing, lower, upper)
    ensures lower < upper && InRange(lower) && InRange(upper)
  {}

  /** The tick of a price is the greatest whose own price does not exceed it. */
  predicate Inverted(price: nat)
    requires InPriceRange(price)
  {
    var t := TickAt(price);
    MIN_TICK <= t < MAX_TICK && SqrtPriceAtTick(t) <= price < SqrtPriceAtTick(t + 1)
  }

  lemma InvertedAt(price: nat)
    requires InPriceRange(price)
    ensures Inverted(price)
  {
    hide TickAt, SqrtPriceAtTick;
    TickInverse.TickAtInverts(price);
  }

  // ---- Positions ----

  /** How one position's change shows in every total. */
  lemma GrowTotals(ps: seq<Position>, i: nat, grown: Position, delta: int, m: Measure)
    requires i <= |ps|
    requires i < |ps| ==> grown == ps[i].(liquidity := grown.liquidity) && grown.liquidity == ps[i].liquidity + delta
    requires i == |ps| ==> grown.liquidity == delta
    ensures var ps' := if i < |ps| then ps[i := grown] else ps + [grown];
            Total(ps', m) == Total(ps, m) + match m
                                            case Gross(t) => (if grown.lower == t then delta else 0)
                                                + (if grown.upper == t then delta else 0)
                                            case Net(t) => (if grown.lower == t then delta else 0)
                                                - (if grown.upper == t then delta else 0)
                                            case Active(t) => if grown.lower <= t < grown.upper then delta else 0
  {
    if i < |ps| {
      TotalUpdate(ps, i, grown, m);
    } else {
      assert (ps + [grown])[..|ps|] == ps;
    }
  }

  /** What a successful modification leaves: totals moved by the change, at its two ticks only. */
  lemma ModifiedIs(p: Pool, lower: int, upper: int, delta: i128)
    requires InRange(lower) && InRange(upper) && ModifyPosition(p, lower, upper, delta).Ok?
    ensures var m := ModifyPosition(p, lower, upper, delta).value;
            var lo, up := SlotAt(p.ix, lower), SlotAt(p.ix, upper);
            && m.lower.queue == lo.queue && m.upper.queue == up.queue
            && m.lower.gross as int == (lo.gross as int) + delta && m.upper.gross as int == (up.gross as int) + delta
            && (m.lower.net as int == (lo.net as int) + delta || (m.lower.gross == 0 && m.lower.net == 0))
            && (m.upper.net as int == (up.net as int) - delta || (m.upper.gross == 0 && m.upper.net == 0))
            && (m.flippedLower <==> lo.Initialized() != m.lower.Initialized())
            && (m.flippedUpper <==> up.Initialized() != m.upper.Initialized())
            && m.liquidity as int == (p.liquidity as int) + if lower <= p.tick < upper then delta else 0
  {
    hide Budget.DeltaAmountsSigned;
    if delta != 0 {
      FlippedIffInitializedChanges(SlotAt(p.ix, lower), delta, false);
      FlippedIffInitializedChanges(SlotAt(p.ix, upper), delta, true);
    }
  }

  /** Writing one tick and booking it, when booking is due exactly if it flipped. */
  function BookOne(ix: Index, t: int, s: Slot, flipped: bool, add: bool): Result<Index>
    requires ix.spacing > 0
  {
    var written := SetSlot(ix, t, s);
    if !flipped then Ok(written) else if add then Mark(written, t) else Unmark(written, t)
  }

  lemma BookOneKeeps(ix: Index, t: int, s: Slot, flipped: bool, add: bool)
    requires Agrees(ix) && Aligned(t, ix.spacing)
    requires flipped <==> SlotAt(ix, t).Initialized() != s.Initialized()
    requires flipped ==> s.Initialized() == add
    ensures var r := BookOne(ix, t, s, flipped, add);
            r.Ok? && Agrees(r.value) && r.value.slots == ix.slots[t := s] && r.value.spacing == ix.spacing
  {
    hide Agrees, Mark, Unmark, Slot.Initialized;
    AgreesSpacing(ix);
    if !flipped { KeepSlot(ix, t, s); }
    else if add { MarkKeeps(ix, t, s); }
    else { UnmarkKeeps(ix, t, s); }
  }

  /** Writing another tick first makes no difference to the booking. */
  lemma BookCommutes(ix: Index, t: int, s: Slot, u: int, v: Slot, flipped: bool, add: bool)
    requires ix.spacing > 0
    ensures var r := BookOne(ix, t, s, flipped, add);
            var written := SetSlot(SetSlot(ix, t, s), u, v);
            var r' := if !flipped then Ok(written) else if add then Mark(written, t) else Unmark(written, t);
            if r.Ok? then r' == Ok(SetSlot(r.value, u, v)) else r'.Err?
  {
    hide ArrayStart;
  }

  /** Both ticks may sit in the same array: counts and bits come out right either way. */
  lemma BookTicksKeeps(ix: Index, lower: int, upper: int, m: Modified, add: bool)
    requires Agrees(ix) && ValidRange(ix.spacing, lower, upper)
    requires m.flippedLower <==> SlotAt(ix, lower).Initialized() != m.lower.Initialized()
    requires m.flippedUpper <==> SlotAt(ix, upper).Initialized() != m.upper.Initialized()
    requires (m.flippedLower ==> m.lower.Initialized() == add) && (m.flippedUpper ==> m.upper.Initialized() == add)
    ensures var r := BookTicks(ix, lower, upper, m, add);
            && r.Ok? && Agrees(r.value) && r.value.spacing == ix.spacing
            && r.value.slots == ix.slots[lower := m.lower][upper := m.upper]
  {
    hide Agrees, Mark, Unmark, Slot.Initialized, Aligned;
    AgreesSpacing(ix);
    BookOneKeeps(ix, lower, m.lower, m.flippedLower, add);
    BookCommutes(ix, lower, m.lower, upper, m.upper, m.flippedLower, add);
    var first := BookOne(ix, lower, m.lower, m.flippedLower, add).value;
    BookOneKeeps(first, upper, m.upper, m.flippedUpper, add);
  }

  /** Slots after both writes. */
  lemma TwoSlots(ix: Index, ix': Index, lower: int, upper: int, lo: Slot, up: Slot, t: int)
    requires lower != upper && ix'.slots == ix.slots[lower := lo][upper := up]
    ensures SlotAt(ix', t) == if t == lower then lo else if t == upper then up else SlotAt(ix, t)
  {}

  /** A modification of position `i` by `delta`, once booked, keeps the invariant. */
  lemma ModifyKeepsInv(p: Pool, i: nat, grown: Position, delta: i128, ix: Index)
    requires Inv(p) && i <= |p.positions| && ValidRange(p.ix.spacing, grown.lower, grown.upper)
    requires i < |p.positions| ==>
               && grown == p.positions[i].(liquidity := grown.liquidity)
               && grown.liquidity == p.positions[i].liquidity + delta
    requires i == |p.positions| ==> grown.liquidity == delta
    requires ModifyPosition(p, grown.lower, grown.upper, delta).Ok?
    requires var m := ModifyPosition(p, grown.lower, grown.upper, delta).value;
             Agrees(ix) && ix.spacing == p.ix.spacing
                 && ix.slots == p.ix.slots[grown.lower := m.lower][grown.upper := m.upper]
    ensures var m := ModifyPosition(p, grown.lower, grown.upper, delta).value;
            Inv(p.(ix := ix, liquidity := m.liquidity,
                   positions := if i < |p.positions| then p.positions[i := grown] else p.positions + [grown]))
  {
    hide Agrees, ModifyPosition, Budget.PriceAtTick, Slot.Initialized, Total, ValidRange;
    var lower, upper := grown.lower, grown.upper;
    AgreesSpacing(p.ix);
    RangeParts(p.ix.spacing, lower, upper);
    var m := ModifyPosition(p, lower, upper, delta).value;
    ModifiedIs(p, lower, upper, delta);
    var p' := p.(ix := ix, liquidity := m.liquidity,
                 positions := if i < |p.positions| then p.positions[i := grown] else p.positions + [grown]);
    forall t
      ensures SlotAt(ix, t).gross as int == Total(p'.positions, Gross(t))
              && SlotAt(ix, t).net as int == Total(p'.positions, Net(t))
    {
      TwoSlots(p.ix, ix, lower, upper, m.lower, m.upper, t);
      GrowTotals(p.positions, i, grown, delta, Gross(t));
      GrowTotals(p.positions, i, grown, delta, Net(t));
      TotalBounds(p'.positions, t);
    }
    GrowTotals(p.positions, i, grown, delta, Active(p.tick));
  }

  /** Booking a modification succeeds: its flips go the way of the change. */
  lemma ModificationBooks(p: Pool, lower: int, upper: int, delta: i128)
    requires Agrees(p.ix) && ValidRange(p.ix.spacing, lower, upper)
    requires InRange(lower) && InRange(upper) && ModifyPosition(p, lower, upper, delta).Ok?
    ensures var m := ModifyPosition(p, lower, upper, delta).value;
            var r := BookTicks(p.ix, lower, upper, m, delta > 0);
            && r.Ok? && Agrees(r.value) && r.value.spacing == p.ix.spacing
            && r.value.slots == p.ix.slots[lower := m.lower][upper := m.upper]
  {
    hide ModifyPosition, BookTicks, Agrees, ValidRange;
    AgreesSpacing(p.ix);
    ModifiedIs(p, lower, upper, delta);
    BookTicksKeeps(p.ix, lower, upper, ModifyPosition(p, lower, upper, delta).value, delta > 0);
  }

  lemma AddKeepsInv(p: Pool, i: nat, lower: int, upper: int, liquidity: nat)
    requires Inv(p) && i <= |p.positions|
    requires i < |p.positions| ==> lower == p.positions[i].lower && upper == p.positions[i].upper
    requires AddLiquidity(p, i, lower, upper, liquidity).Ok?
    ensures Inv(AddLiquidity(p, i, lower, upper, liquidity).value)
  {
    hide Inv, Agrees, ModifyPosition, BookTicks, ValidRange, InRange, Total, TicksMatch, Budget.PriceAtTick;
    InvParts(p);
    RangeParts(p.ix.spacing, lower, upper);
    ModificationBooks(p, lower, upper, liquidity);
    var m := ModifyPosition(p, lower, upper, liquidity).value;
    var before := if i < |p.positions| then p.positions[i].liquidity else 0;
    ModifyKeepsInv(p, i, Position(lower, upper, before + liquidity), liquidity,
        BookTicks(p.ix, lower, upper, m, true).value);
  }

  lemma BurnKeepsInv(p: Pool, i: nat, liquidity: nat)
    requires Inv(p) && i < |p.positions| && BurnLiquidity(p, i, liquidity).Ok?
    ensures Inv(BurnLiquidity(p, i, liquidity).value)
  {
    hide Inv, Agrees, ModifyPosition, BookTicks, ValidRange, InRange, Total, TicksMatch, Budget.PriceAtTick;
    InvParts(p);
    var pos, delta := p.positions[i], 0 - (liquidity as int);
    RangeParts(p.ix.spacing, pos.lower, pos.upper);
    ModificationBooks(p, pos.lower, pos.upper, delta);
    var m := ModifyPosition(p, pos.lower, pos.upper, delta).value;
    ModifyKeepsInv(p, i, pos.(liquidity := pos.liquidity - liquidity), delta,
        BookTicks(p.ix, pos.lower, pos.upper, m, false).value);
  }

  // ---- Limit orders ----

  /** A change of one tick's queue, booked when it flips the tick. */
  lemma QueueKeepsInv(p: Pool, t: int, queue: Tick, flipped: bool, add: bool)
    requires Inv(p) && Aligned(t, p.ix.spacing)
    requires var s := SlotAt(p.ix, t); var s' := s.(queue := queue);
             && (flipped <==> s.Initialized() != s'.Initialized())
             && (flipped ==> s'.Initialized() == add)
    ensures var r := BookOne(p.ix, t, SlotAt(p.ix, t).(queue := queue), flipped, add);
            r.Ok? && Inv(p.(ix := r.value))
  {
    assert p.ix.spacing > 0;
    hide Agrees, Slot.Initialized, Total, ValidRange, BookOne, Aligned, Budget.PriceAtTick;
    var s' := SlotAt(p.ix, t).(queue := queue);
    BookOneKeeps(p.ix, t, s', flipped, add);
    var ix := BookOne(p.ix, t, s', flipped, add).value;
    forall u
      ensures SlotAt(ix, u).gross == SlotAt(p.ix, u).gross && SlotAt(ix, u).net == SlotAt(p.ix, u).net
    {}
  }

  /** The order accounts are no part of the index. */
  lemma OrdersFrame(p: Pool, orders: map<int, seq<OrderAccount>>)
    ensures Inv(p.(orders := orders)) <==> Inv(p)
  {
    hide Agrees, TicksMatch, Total, Budget.PriceAtTick, Ordered;
    TicksMatchFrame(p, orders);
  }

  lemma TicksMatchFrame(p: Pool, orders: map<int, seq<OrderAccount>>)
    ensures TicksMatch(p.(orders := orders)) <==> TicksMatch(p)
  {
    hide Total, SlotAt;
  }

  lemma PlaceKeepsInv(p: Pool, t: int, zeroForOne: bool, amount: nat)
    requires Inv(p) && PlaceOrder(p, t, zeroForOne, amount).Ok?
    ensures Inv(PlaceOrder(p, t, zeroForOne, amount).value)
  {
    hide Inv, Agrees, QuoteAt, Quote.Out, Mark, Unmark, Slot.HasLiquidity, Total, TicksMatch, Budget.PriceAtTick, Rem,
        Quot;
    InvParts(p);
    RemZero(t, p.ix.spacing);
    QuotUnique(t, p.ix.spacing, t / p.ix.spacing, 0);
    var s := SlotAt(p.ix, t);
    QueueKeepsInv(p, t, s.queue.(orders := s.queue.orders + amount), !s.Initialized(), true);
    var p' := PlaceOrder(p, t, zeroForOne, amount).value;
    OrdersFrame(p.(ix := p'.ix), p'.orders);
  }

  lemma DecreaseOnlyShrinks(o: Order, t: Tick, q: Quote, amount: nat)
    requires q.Valid() && Decrease(o, t, q, amount).Ok?
    ensures var t' := Decrease(o, t, q, amount).value.tick; t'.orders <= t.orders && t'.remaining <= t.remaining
  {
    hide Settle, AmountAllowed;
  }

  lemma ShrinkKeepsInv(p: Pool, t: int, i: nat, amount: nat)
    requires Inv(p) && p.ix.spacing > 0 && i < |OrdersAt(p, t)| && ShrinkOrder(p, t, i, amount).Ok?
    ensures Inv(ShrinkOrder(p, t, i, amount).value)
  {
    hide Inv, Agrees, QuoteAt, Decrease, Mark, Unmark, OrdersAt;
    var s, account := SlotAt(p.ix, t), OrdersAt(p, t)[i];
    var q := QuoteAt(t, account.zeroForOne);
    var d := Decrease(account.order, s.queue, q, amount).value;
    DecreaseOnlyShrinks(account.order, s.queue, q, amount);
    QueueKeepsInv(p, t, d.tick, s.Initialized() && !s.(queue := d.tick).Initialized(), false);
    var p' := ShrinkOrder(p, t, i, amount).value;
    OrdersFrame(p.(ix := p'.ix), p'.orders);
  }

  /** Increasing an order keeps the agreement exactly when its tick is still initialized: an order
      emptied before and increased again comes back without its array counting it. */
  lemma GrowKeepsInvIff(p: Pool, t: int, i: nat, amount: nat)
    requires Inv(p) && p.ix.spacing > 0 && i < |OrdersAt(p, t)| && GrowOrder(p, t, i, amount).Ok?
    ensures Inv(GrowOrder(p, t, i, amount).value) <==> SlotAt(p.ix, t).Initialized()
  {
    hide Inv, Agrees, QuoteAt, AmountAllowed, Mark, Unmark, Slot.HasLiquidity, TicksMatch, Total, Budget.PriceAtTick,
        OrdersAt;
    InvParts(p);
    var s, p' := SlotAt(p.ix, t), GrowOrder(p, t, i, amount).value;
    var queue := s.queue.(orders := s.queue.orders + amount);
    OrdersFrame(p.(ix := p'.ix), p'.orders);
    if s.Initialized() {
      QueueKeepsInv(p, t, queue, false, true);
    } else {
      UncountedTick(p.ix, t, s.(queue := queue));
      if Inv(p') { InvParts(p'); }
    }
  }

  lemma SettleKeepsInv(p: Pool, t: int, i: nat)
    requires Inv(p) && p.ix.spacing > 0 && i < |OrdersAt(p, t)| && SettleOrder(p, t, i).Ok?
    ensures Inv(SettleOrder(p, t, i).value)
  {
    hide Inv, QuoteAt, Settle, OrdersAt;
    OrdersFrame(p, SettleOrder(p, t, i).value.orders);
  }

  lemma UncountedTick(ix: Index, t: int, s: Slot)
    requires ix.spacing > 0 && Agrees(ix) && !SlotAt(ix, t).Initialized() && s.Initialized()
    ensures !Agrees(SetSlot(ix, t, s))
  {
    hide ArrayStart, InitTicks, Slot.Initialized;
    var a := ArrayStart(t, ix.spacing);
    SetSlotTicks(ix, t, s, a);
    assert CountAt(SetSlot(ix, t, s), a) == CountAt(ix, a) == |InitTicks(ix, a)|;
  }

  // ---- The swap loop ----

  /** No position begins or ends strictly between the pool's tick and the next initialized one. */
  lemma NoneBetween(p: Pool, next: int, zeroForOne: bool)
    requires TicksMatch(p) && IsNext(p.ix, p.tick, zeroForOne, next)
    ensures forall t :: (if zeroForOne then next < t <= p.tick else p.tick < t < next) ==>
              Total(p.positions, Gross(t)) == 0
  {
    hide Total;
    forall t | if zeroForOne then next < t <= p.tick else p.tick < t < next
      ensures Total(p.positions, Gross(t)) == 0
    {
      assert !SlotAt(p.ix, t).Initialized();
    }
  }

  /** The net liquidity of the ticks above `a` up to `b`. */
  function NetBetween(ix: Index, a: int, b: int): int
    decreases b - a
  {
    if b <= a then 0 else NetBetween(ix, a, b - 1) + SlotAt(ix, b).net
  }

  lemma {:induction false} ActiveBetween(p: Pool, a: int, b: int)
    requires TicksMatch(p) && Ordered(p.positions) && a <= b
    ensures Total(p.positions, Active(b)) == Total(p.positions, Active(a)) + NetBetween(p.ix, a, b)
    decreases b - a
  {
    hide Total, SlotAt;
    if a < b {
      ActiveBetween(p, a, b - 1);
      ActiveStep(p.positions, b);
      assert SlotAt(p.ix, b).net as int == Total(p.positions, Net(b));
    }
  }

  lemma {:induction false} NothingBetween(p: Pool, a: int, b: int)
    requires TicksMatch(p) && forall t :: a < t <= b ==> Total(p.positions, Gross(t)) == 0
    ensures NetBetween(p.ix, a, b) == 0
    decreases b - a
  {
    hide Total, SlotAt;
    if a < b {
      NothingBetween(p, a, b - 1);
      TotalBounds(p.positions, b);
      assert SlotAt(p.ix, b).net as int == Total(p.positions, Net(b));
    }
  }

  /** The signed change of the active liquidity over the ticks a swap goes past before it reaches `next`. */
  function PastBefore(p: Pool, next: int, zeroForOne: bool): int {
    if zeroForOne then -NetBetween(p.ix, next, p.tick) else NetBetween(p.ix, p.tick, next - 1)
  }

  /** On the way to the nearest initialized tick there are none. */
  lemma NextIsPastNothing(p: Pool, next: int, zeroForOne: bool)
    requires TicksMatch(p) && IsNext(p.ix, p.tick, zeroForOne, next)
    ensures PastBefore(p, next, zeroForOne) == 0
  {
    hide IsNext, Total, TicksMatch, NetBetween;
    NoneBetween(p, next, zeroForOne);
    if zeroForOne { NothingBetween(p, next, p.tick); } else { NothingBetween(p, p.tick, next - 1); }
  }

  lemma InvOrdered(p: Pool)
    requires Inv(p)
    ensures Ordered(p.positions)
  {
    hide Agrees, Total, TicksMatch, Budget.PriceAtTick;
  }

  /** The active liquidity on the side of `next` where the pool's tick ends up: what is active now, with the
      tick's own net if it is crossed, and with that of the ticks gone past. */
  lemma CrossActive(p: Pool, next: int, zeroForOne: bool, ordersLeft: bool)
    requires Inv(p) && Ahead(next, p.tick, zeroForOne)
    ensures var net := SlotAt(p.ix, next).net as int;
            Total(p.positions, Active(TickAfter(next, zeroForOne, ordersLeft)))
            == (p.liquidity as int) + (if ordersLeft then 0 else if zeroForOne then -net else net)
                + PastBefore(p, next, zeroForOne)
  {
    hide Inv, Total, NetBetween, TicksMatch;
    InvParts(p);
    InvOrdered(p);
    NetIs(p, next);
    ActiveStep(p.positions, next);
    if zeroForOne { ActiveBetween(p, next, p.tick); } else { ActiveBetween(p, p.tick, next - 1); }
  }

  lemma NetIs(p: Pool, t: int)
    requires TicksMatch(p)
    ensures SlotAt(p.ix, t).net as int == Total(p.positions, Net(t))
  {
    hide Total, SlotAt;
  }

  /** Crossing takes the pool's liquidity below zero exactly when the ticks gone past before had taken in
      more than is active beyond; otherwise the update fails only if the result does not fit 128 bits. */
  lemma CrossingUnderflowsIff(p: Pool, next: int, zeroForOne: bool)
    requires Inv(p) && Ahead(next, p.tick, zeroForOne)
    ensures var net := SlotAt(p.ix, next).net as int;
            var after := (p.liquidity as int) + if zeroForOne then -net else net;
            && (after < 0
               <==> Total(p.positions, Active(TickAfter(next, zeroForOne, false))) < PastBefore(p, next, zeroForOne))
            && (net != -I128_MAX - 1 ==> (AddDelta(p.liquidity, if zeroForOne then -net else net).Ok?
               <==> 0 <= after <= U128_MAX))
  {
    hide Inv, PastBefore, Total;
    CrossActive(p, next, zeroForOne, false);
  }

  /** So at the nearest initialized tick it never does. */
  lemma CrossingNeverUnderflows(p: Pool, next: int, zeroForOne: bool)
    requires Inv(p) && IsNext(p.ix, p.tick, zeroForOne, next)
    ensures var net := SlotAt(p.ix, next).net as int;
            var after := (p.liquidity as int) + if zeroForOne then -net else net;
            && 0 <= after == Total(p.positions, Active(TickAfter(next, zeroForOne, false)))
            && (net != -I128_MAX - 1 ==> (AddDelta(p.liquidity, if zeroForOne then -net else net).Ok?
               <==> after <= U128_MAX))
  {
    hide Inv, PastBefore, IsNext, Total;
    InvParts(p);
    NextIs(p.ix, p.tick, zeroForOne, next);
    NextIsPastNothing(p, next, zeroForOne);
    CrossActive(p, next, zeroForOne, false);
    CrossingUnderflowsIff(p, next, zeroForOne);
    TotalBounds(p.positions, TickAfter(next, zeroForOne, false));
  }

  /** An arrival at an initialized tick, the nearest or not, keeps the invariant exactly if the ticks gone past
      on the way have no net liquidity together. */
  lemma ArriveKeepsInvIff(p: Pool, w: Swap, next: int, remaining: nat, feeRate: nat)
    requires Inv(p) && p.ix.spacing > 0 && MIN_TICK < next < MAX_TICK && SlotAt(p.ix, next).Initialized()
             && Ahead(next, p.tick, w.zeroForOne)
    requires Arrive(p, w, next, remaining, feeRate).Ok?
    ensures Inv(Arrive(p, w, next, remaining, feeRate).value.0) <==> PastBefore(p, next, w.zeroForOne) == 0
  {
    hide Inv, Agrees, Aligned, Total, TicksMatch, Budget.PriceAtTick, Budget.PriceOf, QuoteAt, MatchAmounts, Consume,
        Consumed, Unmark, Mark, AddDelta, TickAfter, SetSlot, SlotAt, Slot.Initialized, Slot.HasOrders, Quote.Num,
        Quote.Den, PastBefore;
    InvParts(p);
    var s := SlotAt(p.ix, next);
    var available, quote := s.queue.remaining + s.queue.orders, QuoteAt(next, !w.zeroForOne);
    var m := MatchAmounts(available, quote, remaining, w.baseInput, feeRate, w.feeOnInput).value;
    MatchCoversOrders(available, quote, remaining, w.baseInput, feeRate, w.feeOnInput);
    var queue := Consume(s.queue, m.gross);
    var s' := s.(queue := queue);
    InitializedInBits(p.ix, next);
    QueueKeepsInv(p, next, queue, !s'.Initialized(), false);
    CrossActive(p, next, w.zeroForOne, s'.HasOrders());
    var q := p.(ix := BookOne(p.ix, next, s', !s'.Initialized(), false).value);
    NoGrossNoNet(p, next);
    PriceAtReached(next, w.zeroForOne, s'.HasOrders());
    MoveToIff(q, Arrive(p, w, next, remaining, feeRate).value.0);
  }

  lemma NoGrossNoNet(p: Pool, t: int)
    requires TicksMatch(p)
    ensures SlotAt(p.ix, t).gross == 0 ==> SlotAt(p.ix, t).net == 0
  {
    hide Total, SlotAt;
    TotalBounds(p.positions, t);
  }

  lemma PriceAtReached(next: int, zeroForOne: bool, ordersLeft: bool)
    requires MIN_TICK < next < MAX_TICK
    ensures Budget.PriceAtTick(TickAfter(next, zeroForOne, ordersLeft), Budget.PriceOf(next))
  {
    hide Ratio, Invert, SqrtPriceAtTick;
    SqrtPriceIncreasing(next - 1, next);
    SqrtPriceIncreasing(next, next + 1);
  }

  /** Only the tick, the price and the liquidity change. */
  lemma MoveToIff(p: Pool, p': Pool)
    requires Inv(p) && p'.ix == p.ix && p'.positions == p.positions && Budget.PriceAtTick(p'.tick, p'.price)
    ensures Inv(p') <==> p'.liquidity as int == Total(p.positions, Active(p'.tick))
  {
    hide Agrees, Budget.PriceAtTick, Total;
  }

  /** The checks on the direction of a pass never fail: the next tick's price and the target lie in
      the direction of the swap. */
  lemma DirectionChecksPass(p: Pool, w: Swap, next: int)
    requires Inv(p) && InRange(next) && Ahead(next, p.tick, w.zeroForOne)
    requires if w.zeroForOne then MIN_SQRT_PRICE_X64 < w.limit < p.price else p.price < w.limit < MAX_SQRT_PRICE_X64
    ensures SwapMath.Directed(p.price, Budget.PriceOf(next), w.zeroForOne)
    ensures SwapMath.Directed(p.price, Target(w, next), w.zeroForOne)
  {
    hide Ratio, Invert, SqrtPriceAtTick, Budget.PriceAtTick, Agrees, Total;
    Budget.TickSideIsPriceSide(p.tick, p.price, next);
    SqrtPriceRange(next);
    PositivePrice(p);
  }

  lemma PositivePrice(p: Pool)
    requires Budget.PriceAtTick(p.tick, p.price)
    ensures MIN_SQRT_PRICE_X64 <= p.price <= MAX_SQRT_PRICE_X64 && MIN_TICK <= p.tick < MAX_TICK
  {
    hide Ratio, Invert, SqrtPriceAtTick;
    SqrtPriceRange(p.tick);
    SqrtPriceRange(p.tick + 1);
  }

  /** A pass that ends short of the tick it goes to leaves the pool's tick short of it too. */
  lemma TickWithin(p: Pool, next: int, zeroForOne: bool, price: nat)
    requires Budget.PriceAtTick(p.tick, p.price) && InRange(next) && Ahead(next, p.tick, zeroForOne)
    requires InPriceRange(price) && Inverted(price)
    requires if zeroForOne then Budget.PriceOf(next) < price < p.price else p.price < price < Budget.PriceOf(next)
    ensures var t := TickAt(price);
            Budget.PriceAtTick(t, price) && (if zeroForOne then next <= t <= p.tick else p.tick <= t < next)
  {
    hide TickAt, Ratio, Invert, SqrtPriceAtTick, InPriceRange;
    var t := TickAt(price);
    PositivePrice(p);
    if zeroForOne {
      if t < next { SqrtPriceMonotone(t + 1, next); }
      if p.tick < t { SqrtPriceMonotone(p.tick + 1, t); }
    } else {
      if next <= t { SqrtPriceMonotone(next, t); }
      if t < p.tick { SqrtPriceMonotone(t + 1, p.tick); }
    }
  }

  lemma SqrtPriceMonotone(a: int, b: int)
    requires MIN_TICK <= a <= b <= MAX_TICK
    ensures SqrtPriceAtTick(a) <= SqrtPriceAtTick(b)
  {
    hide Ratio, Invert, SqrtPriceAtTick;
    if a < b { SqrtPriceIncreasing(a, b); }
  }

  lemma MoveDirected(p: Pool, w: Swap, remaining: nat, feeRate: nat, bounded: nat)
    requires SwapMath.Directed(p.price, bounded, w.zeroForOne) && Move(p, w, remaining, feeRate, bounded).Ok?
    ensures var price := Move(p, w, remaining, feeRate, bounded).value.0;
            SwapMath.Directed(p.price, price, w.zeroForOne) && SwapMath.Directed(price, bounded, w.zeroForOne)
  {
    hide SwapMath.Step;
  }

  /** The signed change of the active liquidity over the ticks a pass goes past without crossing them. */
  function Past(p: Pool, p': Pool, next: int, zeroForOne: bool): int
    requires InRange(next)
  {
    if p'.price == Budget.PriceOf(next) then PastBefore(p, next, zeroForOne)
    else if zeroForOne then -NetBetween(p.ix, p'.tick, p.tick)
    else NetBetween(p.ix, p.tick, p'.tick)
  }

  /** A pass of the swap loop toward an initialized tick ahead, the nearest or not, keeps every invariant
      exactly if the ticks it goes past without crossing them have no net liquidity together. */
  lemma SwapStepKeepsInvIff(p: Pool, w: Swap, remaining: nat, next: int, feeRate: nat, bounded: nat)
    requires Inv(p) && p.ix.spacing > 0 && InRange(next) && SlotAt(p.ix, next).Initialized()
             && Ahead(next, p.tick, w.zeroForOne)
    requires SwapStep(p, w, remaining, next, feeRate, bounded).Ok?
    ensures var p' := SwapStep(p, w, remaining, next, feeRate, bounded).value.0;
            Inv(p') <==> Past(p, p', next, w.zeroForOne) == 0
  {
    hide Inv, Agrees, Arrive, Move, Budget.PriceAtTick, Budget.PriceOf, TickAt, Inverted, Total, TicksMatch,
        InPriceRange, Ahead, Ratio, Invert, SqrtPriceAtTick, PastBefore, NetBetween, SlotAt, Slot.Initialized;
    InvParts(p);
    MoveDirected(p, w, remaining, feeRate, bounded);
    SqrtPriceRange(next);
    PositivePrice(p);
    var moved := Move(p, w, remaining, feeRate, bounded).value;
    var p' := SwapStep(p, w, remaining, next, feeRate, bounded).value.0;
    if moved.0 == Budget.PriceOf(next) {
      InnerTick(p.tick, next, w.zeroForOne);
      ArriveKeepsInvIff(p, w, next, moved.1, feeRate);
      ArrivePrice(p, w, next, moved.1, feeRate);
    } else if moved.0 != p.price {
      InvertedAt(moved.0);
      TickWithin(p, next, w.zeroForOne, moved.0);
      AheadIs(next, p.tick, w.zeroForOne);
      InvOrdered(p);
      if w.zeroForOne { ActiveBetween(p, p'.tick, p.tick); } else { ActiveBetween(p, p.tick, p'.tick); }
      MoveToIff(p, p');
    } else {
      NetBetweenSame(p.ix, p.tick);
    }
  }

  lemma AheadIs(t: int, tick: int, zeroForOne: bool)
    ensures Ahead(t, tick, zeroForOne) <==> if zeroForOne then t <= tick else t > tick
  {}

  lemma NetBetweenSame(ix: Index, t: int)
    ensures NetBetween(ix, t, t) == 0
  {}

  lemma ArrivePrice(p: Pool, w: Swap, next: int, remaining: nat, feeRate: nat)
    requires p.ix.spacing > 0 && InRange(next) && Arrive(p, w, next, remaining, feeRate).Ok?
    ensures Arrive(p, w, next, remaining, feeRate).value.0.price == Budget.PriceOf(next)
  {
    hide QuoteAt, MatchAmounts, Consume, Consumed, Budget.PriceOf, AddDelta, Slot.Initialized, Quote.Num, Quote.Den,
        Mark, Unmark;
  }

  /** Toward the nearest initialized tick a pass goes past nothing, and keeps every invariant. */
  lemma SwapStepKeepsInv(p: Pool, w: Swap, remaining: nat, next: int, feeRate: nat, bounded: nat)
    requires Inv(p) && p.ix.spacing > 0 && InRange(next) && IsNext(p.ix, p.tick, w.zeroForOne, next)
    requires SwapStep(p, w, remaining, next, feeRate, bounded).Ok?
    ensures Inv(SwapStep(p, w, remaining, next, feeRate, bounded).value.0)
  {
    hide Inv, IsNext, Agrees, SwapStep, PastBefore, NetBetween, Total, TicksMatch, Budget.PriceAtTick, Budget.PriceOf;
    InvParts(p);
    NextIs(p.ix, p.tick, w.zeroForOne, next);
    var p' := SwapStep(p, w, remaining, next, feeRate, bounded).value.0;
    SwapStepKeepsInvIff(p, w, remaining, next, feeRate, bounded);
    NextIsPastNothing(p, next, w.zeroForOne);
    NoneBetween(p, next, w.zeroForOne);
    ShortTick(p, w, remaining, next, feeRate, bounded);
    if p'.price != Budget.PriceOf(next) {
      if w.zeroForOne { NothingBetween(p, p'.tick, p.tick); } else { NothingBetween(p, p.tick, p'.tick); }
    }
  }

  /** Short of the tick a pass goes to, only the price and the tick move, and the tick stays short of it. */
  lemma ShortTick(p: Pool, w: Swap, remaining: nat, next: int, feeRate: nat, bounded: nat)
    requires Inv(p) && p.ix.spacing > 0 && InRange(next) && SwapStep(p, w, remaining, next, feeRate, bounded).Ok?
    ensures Ahead(next, p.tick, w.zeroForOne)
    ensures var p' := SwapStep(p, w, remaining, next, feeRate, bounded).value.0;
            p'.price != Budget.PriceOf(next) ==>
              && p' == p.(price := p'.price, tick := p'.tick)
              && (if w.zeroForOne then next <= p'.tick <= p.tick else p.tick <= p'.tick < next)
  {
    hide Inv, Arrive, Move, Budget.PriceAtTick, Budget.PriceOf, TickAt, Inverted, InPriceRange, Ahead, Ratio, Invert,
        SqrtPriceAtTick;
    InvParts(p);
    MoveDirected(p, w, remaining, feeRate, bounded);
    AheadIs(next, p.tick, w.zeroForOne);
    var moved := Move(p, w, remaining, feeRate, bounded).value;
    if moved.0 == Budget.PriceOf(next) {
      ArrivePrice(p, w, next, moved.1, feeRate);
    } else if moved.0 != p.price {
      InvertedAt(moved.0);
      TickWithin(p, next, w.zeroForOne, moved.0);
    }
  }

  lemma InnerTick(tick: int, next: int, zeroForOne: bool)
    requires InRange(next) && Ahead(next, tick, zeroForOne) && MIN_TICK <= tick < MAX_TICK
    requires if zeroForOne then MIN_SQRT_PRICE_X64 < Budget.PriceOf(next) else Budget.PriceOf(next) < MAX_SQRT_PRICE_X64
    ensures MIN_TICK < next < MAX_TICK
  {
    hide Ratio, Invert, SqrtPriceAtTick;
    SqrtPriceRange(next);
  }

  // ---- Every step ----

  /** The one step the index does not survive: increasing an order at a tick with nothing left. */
  predicate Counted(p: Pool, step: Step) {
    step.Grow? ==> SlotAt(p.ix, step.tick).Initialized()
  }

  /** A swap pass that moves nothing: it ends where it starts, and not at the tick it goes to. */
  predicate Still(p: Pool, step: Step)
    requires p.ix.spacing > 0 && Passes(p, step)
  {
    hide Passes;
    PassIsSwap(p, step);
    p.price != Budget.PriceOf(step.next) && Apply(p, step) == p
  }

  lemma PassIsSwap(p: Pool, step: Step)
    requires p.ix.spacing > 0 && Passes(p, step)
    ensures step.SwapTo? && InRange(step.next)
  {
    hide SwapStep;
  }

  /** A swap pass to the nearest initialized tick, where the search ends while it is in order, or one that moves
      nothing. */
  ghost predicate Orderly(p: Pool, step: Step)
    requires p.ix.spacing > 0
  {
    hide Passes, Still;
    step.SwapTo? ==>
      || IsNext(p.ix, p.tick, step.swap.zeroForOne, step.next)
      || (Passes(p, step) && Still(p, step))
  }

  lemma OrderlyIs(p: Pool, step: Step)
    requires p.ix.spacing > 0 && Passes(p, step) && Orderly(p, step)
    ensures step.SwapTo? && InRange(step.next)
    ensures || IsNext(p.ix, p.tick, step.swap.zeroForOne, step.next)
            || (p.price != Budget.PriceOf(step.next) && Apply(p, step) == p)
  {
    hide Passes, IsNext, Apply, Budget.PriceOf;
    PassIsSwap(p, step);
  }

  lemma StepKeepsInv(p: Pool, step: Step)
    requires Inv(p) && p.ix.spacing > 0 && Counted(p, step) && Orderly(p, step)
    ensures Inv(Apply(p, step)) && Apply(p, step).ix.spacing > 0
  {
    hide Inv, AddLiquidity, BurnLiquidity, PlaceOrder, GrowOrder, ShrinkOrder, SettleOrder, SwapStep, IsNext, InRange,
        OrdersAt, Slot.Initialized;
    match step {
      case OpenPosition(lower, upper, liquidity) =>
        if AddLiquidity(p, |p.positions|, lower, upper, liquidity).Ok? {
          AddKeepsInv(p, |p.positions|, lower, upper, liquidity);
        }
      case AddTo(i, liquidity) =>
        if i < |p.positions| && AddLiquidity(p, i, p.positions[i].lower, p.positions[i].upper, liquidity).Ok? {
          AddKeepsInv(p, i, p.positions[i].lower, p.positions[i].upper, liquidity);
        }
      case BurnFrom(i, liquidity) =>
        if i < |p.positions| && BurnLiquidity(p, i, liquidity).Ok? { BurnKeepsInv(p, i, liquidity); }
      case Place(t, zeroForOne, amount) =>
        if PlaceOrder(p, t, zeroForOne, amount).Ok? { PlaceKeepsInv(p, t, zeroForOne, amount); }
      case Grow(t, i, amount) =>
        if i < |OrdersAt(p, t)| && GrowOrder(p, t, i, amount).Ok? { GrowKeepsInvIff(p, t, i, amount); }
      case Shrink(t, i, amount) =>
        if i < |OrdersAt(p, t)| && ShrinkOrder(p, t, i, amount).Ok? { ShrinkKeepsInv(p, t, i, amount); }
      case SettleAt(t, i) =>
        if i < |OrdersAt(p, t)| && SettleOrder(p, t, i).Ok? { SettleKeepsInv(p, t, i); }
      case SwapTo(w, remaining, next, feeRate, bounded) =>
        if Passes(p, step) && IsNext(p.ix, p.tick, w.zeroForOne, next) {
          SwapStepKeepsInv(p, w, remaining, next, feeRate, bounded);
        }
    }
    SpacingPositive(Apply(p, step));
  }

  lemma SpacingPositive(p: Pool)
    requires Inv(p)
    ensures p.ix.spacing > 0
  {}

  lemma CreatedInv(spacing: nat, price: u128)
    requires spacing > 0 && InPriceRange(price)
    ensures Inv(Created(spacing, price))
  {
    hide Ratio, Invert, SqrtPriceAtTick, TickAt;
    InvertedAt(price);
    var p := Created(spacing, price);
    forall a
      ensures InitTicks(p.ix, a) == {}
    {}
  }

  lemma {:induction false} PrefixSum(p: Pool, t: int)
    requires TicksMatch(p) && Ordered(p.positions)
    requires forall i :: 0 <= i < |p.positions| ==> MIN_TICK <= p.positions[i].lower
    ensures Total(p.positions, Active(Max(t, MIN_TICK - 1))) == NetUpTo(p.ix, t)
    decreases t - MIN_TICK + 1
  {
    if t < MIN_TICK {
      NothingActive(p.positions);
    } else {
      hide Total;
      PrefixSum(p, t - 1);
      ActiveStep(p.positions, t);
    }
  }

  lemma {:induction false} NothingActive(ps: seq<Position>)
    requires forall i :: 0 <= i < |ps| ==> MIN_TICK <= ps[i].lower
    ensures Total(ps, Active(MIN_TICK - 1)) == 0
    decreases |ps|
  {
    if ps != [] { NothingActive(ps[..|ps| - 1]); }
  }

  /** What the invariant says in full: the pool's liquidity is the sum of the positions in range, and also
      the prefix sum of the ticks' net liquidity; a tick is counted iff it has liquidity or orders; a bit is
      set iff its array counts some tick. */
  lemma LiquidityIsActive(p: Pool)
    requires Inv(p)
    ensures p.liquidity as int == Total(p.positions, Active(p.tick)) == NetUpTo(p.ix, p.tick)
    ensures p.ix.spacing > 0
    ensures forall a :: CountAt(p.ix, a) == |InitTicks(p.ix, a)| && (a in p.ix.bits <==> InitTicks(p.ix, a) != {})
  {
    hide Total, InitTicks, Budget.PriceAtTick, NetUpTo;
    PositivePrice(p);
    PrefixSum(p, p.tick);
  }

  // ---- The increase that breaks the index ----

  const EMPTIED: Order := Order(0, 0, 0, 0, 0, Q64)
  const PLACED: Order := Order(0, 1000, 0, 1000, 0, Q64)

  /** One tick of a pool with spacing 1. */
  function Single(tick: int, price: u128, queue: Tick, counts: map<int, nat>, bits: set<int>, order: Order): Pool {
    Pool(Index(1, map[0 := Slot(0, 0, queue)], counts, bits), tick, price, 0, [], map[0 := [OrderAccount(true, order)]])
  }

  /** An order of 1000 at tick 0 can be placed, whatever the direction. */
  lemma LawfulAtZero(zeroForOne: bool)
    ensures AmountAllowed(QuoteAt(0, zeroForOne), 1000)
  {
    hide QuoteAt, Quote.Out;
    ParAtZero(zeroForOne, 1000);
  }

  lemma PlaceAtZero(price: u128)
    requires InPriceRange(price) && TickAt(price) < 0
    ensures PlaceOrder(Created(1, price), 0, true, 1000)
            == Ok(Single(TickAt(price), price, Tick(0, 1000, 0, 0), map[0 := 1], {0}, PLACED))
  {
    hide QuoteAt, TickAt, AmountAllowed;
    LawfulAtZero(true);
    RemZero(0, 1);
    assert ArrayStart(0, 1) == 0;
    var p, p' := Created(1, price), Single(TickAt(price), price, Tick(0, 1000, 0, 0), map[0 := 1], {0}, PLACED);
    assert p.ix.slots[0 := Slot(0, 0, Tick(0, 1000, 0, 0))] == p'.ix.slots;
    assert p.ix.counts[0 := 1] == p'.ix.counts && p.ix.bits + {0} == p'.ix.bits;
    assert OrdersAt(p, 0) + [OrderAccount(true, PLACED)] == [OrderAccount(true, PLACED)];
    assert p.orders[0 := [OrderAccount(true, PLACED)]] == p'.orders;
  }

  lemma EmptyPlaced()
    ensures Decrease(PLACED, Tick(0, 1000, 0, 0), QuoteAt(0, true), 1000)
            == Ok(Decreased(EMPTIED, Tick(0, 0, 0, 0), 0, 1000))
  {
    hide QuoteAt, Settle, Decrease;
    SettlePlaced();
    EmptyFresh(PLACED, Tick(0, 1000, 0, 0), QuoteAt(0, true), 1000);
  }

  lemma EmptyFresh(o: Order, t: Tick, q: Quote, amount: nat)
    requires q.Valid() && 0 < amount && o == Order(0, amount, 0, amount, 0, Q64) && t == Tick(0, amount, 0, 0)
    requires Settle(o, t, q) == Ok(Settlement(o, 0))
    ensures Decrease(o, t, q, amount) == Ok(Decreased(o.(total := 0, base := 0), t.(orders := 0), 0, amount))
  {
    hide Settle, AmountAllowed;
  }

  lemma SettlePlaced()
    ensures Settle(PLACED, Tick(0, 1000, 0, 0), QuoteAt(0, true)) == Ok(Settlement(PLACED, 0))
  {
    hide QuoteAt, Quote.Out, Credited, Unfilled;
  }

  lemma IncreaseEmptied()
    ensures Increase(EMPTIED, Tick(0, 0, 0, 0), 1000) == Ok((PLACED, Tick(0, 1000, 0, 0)))
  {}

  lemma ShrinkAtZero(tick: int, price: u128)
    ensures ShrinkOrder(Single(tick, price, Tick(0, 1000, 0, 0), map[0 := 1], {0}, PLACED), 0, 0, 1000)
            == Ok(Single(tick, price, Tick(0, 0, 0, 0), map[0 := 0], {}, EMPTIED))
  {
    hide QuoteAt, Decrease;
    EmptyPlaced();
    assert ArrayStart(0, 1) == 0;
    var p, p' := Single(tick, price, Tick(0, 1000, 0, 0), map[0 := 1], {0}, PLACED),
        Single(tick, price, Tick(0, 0, 0, 0), map[0 := 0], {}, EMPTIED);
    assert p.ix.slots[0 := Slot(0, 0, Tick(0, 0, 0, 0))] == p'.ix.slots;
    assert p.ix.counts[0 := 0] == p'.ix.counts && p.ix.bits - {0} == p'.ix.bits;
    assert OrdersAt(p, 0)[0 := OrderAccount(true, EMPTIED)] == OrdersAt(p', 0);
    assert SetOrder(p, 0, 0, EMPTIED) == p'.orders;
  }

  lemma GrowAtZero(tick: int, price: u128)
    ensures GrowOrder(Single(tick, price, Tick(0, 0, 0, 0), map[0 := 0], {}, EMPTIED), 0, 0, 1000)
            == Ok(Single(tick, price, Tick(0, 1000, 0, 0), map[0 := 0], {}, PLACED))
  {
    hide QuoteAt, AmountAllowed, Increase;
    LawfulAtZero(true);
    IncreaseEmptied();
    var p, p' := Single(tick, price, Tick(0, 0, 0, 0), map[0 := 0], {}, EMPTIED),
        Single(tick, price, Tick(0, 1000, 0, 0), map[0 := 0], {}, PLACED);
    assert p.ix.slots[0 := Slot(0, 0, Tick(0, 1000, 0, 0))] == p'.ix.slots;
    assert OrdersAt(p, 0)[0 := OrderAccount(true, PLACED)] == OrdersAt(p', 0);
    assert SetOrder(p, 0, 0, PLACED) == p'.orders;
  }

  /** A new pool whose tick is below 0. Placing an order at tick 0, taking all of it out and putting it
      back through the same account: the tick has orders again, and neither its array's count nor the
      bitmap knows. */
  lemma EmptiedOrderBreaksIndex(price: u128)
    requires InPriceRange(price) && TickAt(price) < 0
    ensures var placed := Apply(Created(1, price), Place(0, true, 1000));
            && placed.ix.spacing == 1 && CountAt(placed.ix, 0) == 1 && placed.ix.bits == {0}
            && var emptied := Apply(placed, Shrink(0, 0, 1000));
               && emptied.ix.spacing == 1 && CountAt(emptied.ix, 0) == 0 && emptied.ix.bits == {}
               && var grown := Apply(emptied, Grow(0, 0, 1000));
                  && SlotAt(grown.ix, 0).HasOrders()
                  && CountAt(grown.ix, 0) == 0 && grown.ix.bits == {}
  {
    hide PlaceOrder, ShrinkOrder, GrowOrder, SettleOrder, AddLiquidity, BurnLiquidity, SwapStep, IsNext, TickAt;
    PlaceAtZero(price);
    ShrinkAtZero(TickAt(price), price);
    GrowAtZero(TickAt(price), price);
  }
}
