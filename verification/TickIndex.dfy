/** The three-level index of initialized ticks: tick slots, a count per tick array, a bit per array. */
module TickIndex {
  import opened Types
  import opened Arith
  import opened LiquidityMath
  import opened TickMath
  import opened TickArray
  import opened LimitOrder

  // ---- Tick slots ----

  /** A tick's liquidity and its limit-order queue. */
  datatype Slot = Slot(net: i128, gross: u128, queue: Tick) {
    predicate HasLiquidity() { gross > 0 }
    predicate HasOrders() { queue.orders > 0 || queue.remaining > 0 }
    predicate Initialized() { HasLiquidity() || HasOrders() }
  }

  const EMPTY: Slot := Slot(0, 0, Tick(0, 0, 0, 0))

  /** `TickState::update`: the new slot, and whether it flipped. */
  function Update(s: Slot, delta: i128, upper: bool): Result<(Slot, bool)> {
    var gross :- AddDelta(s.gross, delta);
    if s.queue.orders + s.queue.remaining > U64_MAX then Err(CalculateOverflow)
    else
      var flipped := (gross == 0) != (s.gross == 0) && s.queue.orders + s.queue.remaining == 0;
      var net: int := if upper then (s.net as int) - delta else (s.net as int) + delta;
      if net < -I128_MAX - 1 || net > I128_MAX then Err(CalculateOverflow)
      else Ok((s.(gross := gross, net := net), flipped))
  }

  function Clear(s: Slot): Slot { s.(net := 0, gross := 0) }

  /** An update flips a slot exactly when it changes whether the slot is initialized. */
  lemma FlippedIffInitializedChanges(s: Slot, delta: i128, upper: bool)
    requires Update(s, delta, upper).Ok?
    ensures var (s', flipped) := Update(s, delta, upper).value;
            && (flipped <==> s.Initialized() != s'.Initialized())
            && s'.queue == s.queue && s'.gross as int == (s.gross as int) + delta
            && s'.net as int == if upper then (s.net as int) - delta else (s.net as int) + delta
  {}

  // ---- The index ----

  datatype Index = Index(spacing: nat, slots: map<int, Slot>, counts: map<int, nat>, bits: set<int>)

  function SlotAt(ix: Index, t: int): Slot { if t in ix.slots then ix.slots[t] else EMPTY }

  function CountAt(ix: Index, a: int): nat { if a in ix.counts then ix.counts[a] else 0 }

  function SetSlot(ix: Index, t: int, s: Slot): Index { ix.(slots := ix.slots[t := s]) }

  function FlipBit(ix: Index, a: int): Index {
    ix.(bits := if a in ix.bits then ix.bits - {a} else ix.bits + {a})
  }

  /** A tick became initialized: its array counts it, and the first one sets the array's bit. */
  function Mark(ix: Index, t: int): (r: Result<Index>)
    requires ix.spacing > 0
    ensures r.Ok? ==> r.value.spacing == ix.spacing && r.value.slots == ix.slots
  {
    var a := ArrayStart(t, ix.spacing);
    var before := CountAt(ix, a);
    if before >= 255 then Err(CalculateOverflow)
    else
      var counted := ix.(counts := ix.counts[a := before + 1]);
      Ok(if before == 0 then FlipBit(counted, a) else counted)
  }

  /** A tick stopped being initialized. */
  function Unmark(ix: Index, t: int): (r: Result<Index>)
    requires ix.spacing > 0
    ensures r.Ok? ==> r.value.spacing == ix.spacing && r.value.slots == ix.slots
  {
    var a := ArrayStart(t, ix.spacing);
    var before := CountAt(ix, a);
    if before == 0 then Err(CalculateOverflow)
    else
      var counted := ix.(counts := ix.counts[a := before - 1]);
      Ok(if before == 1 then FlipBit(counted, a) else counted)
  }

  predicate Aligned(t: int, spacing: nat)
    requires spacing > 0
  {
    MIN_TICK <= t <= MAX_TICK && t % spacing == 0
  }

  /** The initialized ticks of an array. */
  function InitTicks(ix: Index, a: int): set<int>
    requires ix.spacing > 0
  {
    set t | t in ix.slots && ix.slots[t].Initialized() && ArrayStart(t, ix.spacing) == a
  }

  /** The agreement: every array counts its initialized ticks, and its bit says whether it has any. */
  ghost predicate Agrees(ix: Index) {
    && ix.spacing > 0
    && (forall t :: t in ix.slots ==> Aligned(t, ix.spacing))
    && (forall a :: CountAt(ix, a) == |InitTicks(ix, a)|)
    && (forall a :: a in ix.bits <==> CountAt(ix, a) != 0)
  }

  lemma AgreesSpacing(ix: Index)
    requires Agrees(ix)
    ensures ix.spacing > 0
  {
    hide CountAt, InitTicks, Aligned;
  }

  // ---- An array holds at most 60 initialized ticks, so its count fits ----

  function Offsets(a: int, spacing: nat, n: nat): (s: set<int>)
    ensures |s| <= n
  {
    if n == 0 then {} else Offsets(a, spacing, n - 1) + {a + (n - 1) * spacing}
  }

  lemma {:induction false} OffsetIn(a: int, spacing: nat, n: nat, j: nat)
    requires j < n
    ensures a + j * spacing in Offsets(a, spacing, n)
  {
    if j < n - 1 { OffsetIn(a, spacing, n - 1, j); }
  }

  lemma InitTicksBounded(ix: Index, a: int)
    requires Agrees(ix)
    ensures |InitTicks(ix, a)| <= TICK_ARRAY_SIZE
  {
    hide ArrayStart, Offsets;
    var s := InitTicks(ix, a);
    forall t | t in s
      ensures t in Offsets(a, ix.spacing, TICK_ARRAY_SIZE)
    {
      ArrayStartHolds(t, ix.spacing);
      OffsetOf(t, a, ix.spacing);
      OffsetIn(a, ix.spacing, TICK_ARRAY_SIZE, (t - a) / ix.spacing);
    }
    SubsetSize(s, Offsets(a, ix.spacing, TICK_ARRAY_SIZE));
  }

  lemma SubsetSize(s: set<int>, t: set<int>)
    requires s <= t
    ensures |s| <= |t|
  {
    assert t == s + (t - s);
  }

  /** An aligned tick's place in its array. */
  lemma OffsetOf(t: int, a: int, spacing: nat)
    requires spacing > 0 && t % spacing == 0 && a == t / TickCount(spacing) * TickCount(spacing)
    requires a <= t < a + TickCount(spacing)
    ensures 0 <= (t - a) / spacing < TICK_ARRAY_SIZE && t == a + (t - a) / spacing * spacing
  {
    var k, q := t / spacing, t / TickCount(spacing);
    assert t == spacing * k + t % spacing;
    Rotate(q, TICK_ARRAY_SIZE, spacing);
    assert a == q * TICK_ARRAY_SIZE * spacing;
    var j := k - q * TICK_ARRAY_SIZE;
    Distribute(spacing, k, q * TICK_ARRAY_SIZE);
    assert t - a == spacing * j;
    QuotUnique(t - a, spacing, j, 0);
    MulCancelLt(j, TICK_ARRAY_SIZE, spacing);
    MulCancelLt(-1, j, spacing);
  }

  // ---- Changing one slot ----

  lemma SetSlotTicks(ix: Index, t: int, s: Slot, a: int)
    requires ix.spacing > 0
    ensures var before, after := InitTicks(ix, a), InitTicks(SetSlot(ix, t, s), a);
            var was, now := SlotAt(ix, t).Initialized(), s.Initialized();
            if a != ArrayStart(t, ix.spacing) || was == now then after == before
            else if now then after == before + {t} && t !in before
            else after == before - {t} && t in before
  {
    hide ArrayStart;
  }

  lemma KeepSlot(ix: Index, t: int, s: Slot)
    requires Agrees(ix) && Aligned(t, ix.spacing) && SlotAt(ix, t).Initialized() == s.Initialized()
    ensures Agrees(SetSlot(ix, t, s))
  {
    hide ArrayStart, InitTicks;
    forall a
      ensures InitTicks(SetSlot(ix, t, s), a) == InitTicks(ix, a)
    {
      SetSlotTicks(ix, t, s, a);
    }
    assert forall a :: CountAt(SetSlot(ix, t, s), a) == CountAt(ix, a);
  }

  /** Marking succeeds and restores the agreement after a slot became initialized. */
  lemma MarkKeeps(ix: Index, t: int, s: Slot)
    requires Agrees(ix) && Aligned(t, ix.spacing) && !SlotAt(ix, t).Initialized() && s.Initialized()
    ensures Mark(SetSlot(ix, t, s), t).Ok? && Agrees(Mark(SetSlot(ix, t, s), t).value)
    ensures Mark(SetSlot(ix, t, s), t).value.slots == SetSlot(ix, t, s).slots
    ensures Mark(SetSlot(ix, t, s), t).value.spacing == ix.spacing
  {
    hide ArrayStart, InitTicks, Aligned;
    var a := ArrayStart(t, ix.spacing);
    InitTicksBounded(ix, a);
    var marked := Mark(SetSlot(ix, t, s), t).value;
    forall b
      ensures |InitTicks(marked, b)| == |InitTicks(ix, b)| + if b == a then 1 else 0
    {
      SetSlotTicks(ix, t, s, b);
      SameSlots(SetSlot(ix, t, s), marked, b);
    }
    hide Slot.Initialized;
    assert forall b :: CountAt(marked, b) == CountAt(ix, b) + if b == a then 1 else 0;
  }

  lemma UnmarkKeeps(ix: Index, t: int, s: Slot)
    requires Agrees(ix) && Aligned(t, ix.spacing) && SlotAt(ix, t).Initialized() && !s.Initialized()
    ensures Unmark(SetSlot(ix, t, s), t).Ok? && Agrees(Unmark(SetSlot(ix, t, s), t).value)
    ensures Unmark(SetSlot(ix, t, s), t).value.slots == SetSlot(ix, t, s).slots
    ensures Unmark(SetSlot(ix, t, s), t).value.spacing == ix.spacing
  {
    hide ArrayStart, InitTicks, Aligned;
    var a := ArrayStart(t, ix.spacing);
    SetSlotTicks(ix, t, s, a);
    assert |InitTicks(ix, a)| > 0 by { assert t in InitTicks(ix, a); }
    var unmarked := Unmark(SetSlot(ix, t, s), t).value;
    forall b
      ensures |InitTicks(unmarked, b)| == |InitTicks(ix, b)| - if b == a then 1 else 0
    {
      SetSlotTicks(ix, t, s, b);
      SameSlots(SetSlot(ix, t, s), unmarked, b);
    }
    hide Slot.Initialized;
    assert forall b :: CountAt(unmarked, b) == CountAt(ix, b) - if b == a then 1 else 0;
  }

  lemma SameSlots(ix: Index, ix': Index, a: int)
    requires ix.spacing > 0 && ix'.slots == ix.slots && ix'.spacing == ix.spacing
    ensures InitTicks(ix', a) == InitTicks(ix, a)
  {}

  // ---- The nearest initialized tick ----

  predicate Ahead(t: int, tick: int, zeroForOne: bool) { if zeroForOne then t <= tick else t > tick }

  predicate Nearer(t: int, u: int, zeroForOne: bool) { if zeroForOne then t > u else t < u }

  /** `t` is the initialized tick nearest to `tick` in the swap direction. */
  ghost predicate IsNext(ix: Index, tick: int, zeroForOne: bool, t: int) {
    && SlotAt(ix, t).Initialized() && Ahead(t, tick, zeroForOne)
    && forall u :: SlotAt(ix, u).Initialized() && Ahead(u, tick, zeroForOne) ==> !Nearer(u, t, zeroForOne)
  }

  ghost predicate NoneAhead(ix: Index, tick: int, zeroForOne: bool) {
    forall u :: SlotAt(ix, u).Initialized() ==> !Ahead(u, tick, zeroForOne)
  }

  lemma NextIs(ix: Index, tick: int, zeroForOne: bool, t: int)
    requires IsNext(ix, tick, zeroForOne, t)
    ensures SlotAt(ix, t).Initialized()
    ensures if zeroForOne then t <= tick else t > tick
  {}
}
