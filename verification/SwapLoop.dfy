/** The whole swap loop over the words of the bitmap: the searches, the passes and the index updates
    together keep the pool's invariant, and are the actions of a run. */
module SwapLoop {
  import opened Types
  import opened Arith
  import opened Bits
  import opened BigNum
  import opened TickMath
  import opened TickAtPrice
  import opened TickArray
  import opened TickArrayBitMap
  import opened LiquidityMath
  import opened LimitOrder
  import opened MatchTheorems
  import opened TickIndex
  import opened TickSearch
  import opened Pool
  import opened PoolInvariants
  import opened PoolRuns
  import SwapMath
  import Budget = LiquidityBudget

  /** Flipping an array's digit in the words flips the array in the set they stand for. */
  lemma FlipRepresents(words: seq<u64>, words': seq<u64>, ix: Index, a: int)
    requires ix.spacing > 0 && Represents(words, ix) && |words'| == WORDS
    requires a / TickCount(ix.spacing) * TickCount(ix.spacing) == a
    requires -MaxTickInBitmap(ix.spacing) <= a < MaxTickInBitmap(ix.spacing)
    requires forall k: nat :: Bit(Val(words'), k) == (Bit(Val(words), k) != (StartOf(k, ix.spacing) == a))
    ensures Represents(words', FlipBit(ix, a))
  {
    hide Bit, Val;
    CompressedIs(a, ix.spacing);
    forall b
      ensures IsSet(Val(words'), b, ix.spacing) == (IsSet(Val(words), b, ix.spacing) != (b == a))
    {
      var k := b / TickCount(ix.spacing) + 512;
      if 0 <= k < 1024 { assert Bit(Val(words'), k) == (Bit(Val(words), k) != (StartOf(k, ix.spacing) == a)); }
    }
  }

  predicate InBitmap(a: int, spacing: nat) { -MaxTickInBitmap(spacing) <= a < MaxTickInBitmap(spacing) }

  /** Brings the words in line with the index after a tick was reached. */
  method UpdateWords(bitMap: array<u64>, before: Index, after: Index, next: int) returns (words: array<u64>)
    requires before.spacing > 0 && after.spacing == before.spacing
    requires Represents(bitMap[..], before) && Agrees(before) && SlotAt(before, next).Initialized()
    requires after.bits == before.bits || after.bits == FlipBit(before, ArrayStart(next, before.spacing)).bits
    ensures Represents(words[..], after)
  {
    hide Val, Bit, ArrayStart, IsSet, IsValidStart, Agrees, Slot.Initialized;
    var a := ArrayStart(next, before.spacing);
    if after.bits == before.bits { return bitMap; }
    InitializedInBits(before, next);
    BitHoldsTick(before, a);
    AlignedStart(a, before.spacing);
    SetInRange(Val(bitMap[..]), a, before.spacing);
    var flipped := FlipTickArrayBit(bitMap, a, before.spacing);
    FlipRepresents(bitMap[..], flipped.value[..], before, a);
    return flipped.value;
  }

  /** A fee rate and a bounded price for one pass, as the dynamic fee yields them. */
  datatype Offer = Offer(feeRate: nat, bounded: nat)

  /** The pool after some passes toward `next`, which they have reached or not. */
  ghost predicate Nearing(p: Pool, p': Pool, w: Swap, next: int)
    requires p.ix.spacing > 0 && InRange(next)
  {
    && Inv(p') && p'.ix.spacing == p.ix.spacing && p'.positions == p.positions
    && (forall u :: u != next ==> SlotAt(p'.ix, u) == SlotAt(p.ix, u))
    && (if p'.price == Budget.PriceOf(next)
       && p'.tick == TickAfter(next, w.zeroForOne, SlotAt(p'.ix, next).HasOrders()) then
          p'.ix.bits == p.ix.bits || p'.ix.bits == FlipBit(p.ix, ArrayStart(next, p.ix.spacing)).bits
        else p'.ix == p.ix)
  }

  lemma StepNearing(p0: Pool, p: Pool, w: Swap, remaining: nat, next: int, offer: Offer)
    requires p0.ix.spacing > 0 && p.ix == p0.ix && p.positions == p0.positions && InRange(next)
    requires Inv(p) && IsNext(p.ix, p.tick, w.zeroForOne, next)
    requires SwapStep(p, w, remaining, next, offer.feeRate, offer.bounded).Ok?
    ensures var (p', rest) := SwapStep(p, w, remaining, next, offer.feeRate, offer.bounded).value;
            && Nearing(p0, p', w, next) && rest <= remaining
            && (p'.price == Budget.PriceOf(next)
               ==> p'.tick == TickAfter(next, w.zeroForOne, SlotAt(p'.ix, next).HasOrders()))
            && (p'.price != Budget.PriceOf(next) ==> p'.ix == p0.ix && IsNext(p'.ix, p'.tick, w.zeroForOne, next))
  {
    hide Inv, SwapStep, IsNext, Budget.PriceOf, ArrayStart, TickAfter, FlipBit, Slot.HasOrders, Target,
        SwapMath.Directed, InPriceRange, TickAt;
    PassIndex(p, w, remaining, next, offer.feeRate, offer.bounded);
    SwapStepKeepsInv(p, w, remaining, next, offer.feeRate, offer.bounded);
    ShortTick(p, w, remaining, next, offer.feeRate, offer.bounded);
    var p' := SwapStep(p, w, remaining, next, offer.feeRate, offer.bounded).value.0;
    if p'.price != Budget.PriceOf(next) { NextStays(p, p', next, w.zeroForOne); }
  }

  lemma NearingParts(p: Pool, p': Pool, w: Swap, next: int)
    requires p.ix.spacing > 0 && InRange(next) && Nearing(p, p', w, next)
    ensures Inv(p') && p'.positions == p.positions && p'.ix.spacing == p.ix.spacing
  {
    hide Inv, Budget.PriceOf, ArrayStart, TickAfter, FlipBit, SlotAt;
  }

  /** One pass is one action of the run, a sound one while no search had to look past orders. */
  lemma PassLeads(start: Session, actions: seq<Action>, p: Pool, w: Swap, remaining: nat, next: int, offer: Offer)
    requires Leads(start, actions, Session(p, Toward(w, remaining, next, false))) && p.ix.spacing > 0 && InRange(next)
    requires SlotAt(p.ix, next).Initialized() && SwapStep(p, w, remaining, next, offer.feeRate, offer.bounded).Ok?
    requires SoundRun(start, actions)
    ensures var (p', rest) := SwapStep(p, w, remaining, next, offer.feeRate, offer.bounded).value;
            var actions' := actions + [PoolRuns.Pass(offer.feeRate, offer.bounded)];
            && p'.ix.spacing == p.ix.spacing
            && Leads(start, actions', Session(p', PhaseAfter(w, rest, next, false, p')))
            && SoundRun(start, actions')
  {
    hide SwapStep, Leads, SoundRun, Target, ArrayStart, SlotAt, Slot.Initialized, Slot.HasOrders, Continues, Spends;
    var a := PoolRuns.Pass(offer.feeRate, offer.bounded);
    var x := Session(p, Toward(w, remaining, next, false));
    PassKeepsSpacing(p, w, remaining, next, offer.feeRate, offer.bounded);
    assert Can(x, a) && Sound(x, a);
    LeadsSnoc(start, actions, x, a);
  }

  /** The swap fails: no initialized tick is ahead to go to, or the pass at hand does. */
  ghost predicate Fails(x: Session, w: Swap, passes: seq<Offer>, used: nat) {
    x.pool.ix.spacing > 0 &&
    match x.phase
    case Toward(_, remaining, next, _) =>
      InRange(next) && used < |passes|
          && SwapStep(x.pool, w, remaining, next, passes[used].feeRate, passes[used].bounded).Err?
    case _ => NoneAhead(x.pool.ix, x.pool.tick, w.zeroForOne)
  }

  /** The inner loop: passes toward one tick until it or the limit is reached, nothing remains, or
      no further pass is offered; it fails only in a failing pass. */
  method PassesToward(p0: Pool, w: Swap, amount: nat, next: int, passes: seq<Offer>, from: nat, ghost start: Session,
      ghost before: seq<Action>)
    returns (r: Result<(Pool, nat)>, used: nat, ghost actions: seq<Action>, ghost end: Session)
    requires Inv(p0) && p0.ix.spacing > 0 && InRange(next) && IsNext(p0.ix, p0.tick, w.zeroForOne, next)
    requires from < |passes| && amount > 0
    requires Leads(start, before, Session(p0, Toward(w, amount, next, false))) && SoundRun(start, before)
    ensures from <= used <= |passes|
    ensures r.Ok? ==>
              var (p, remaining) := r.value;
              && Nearing(p0, p, w, next) && remaining <= amount && from < used
              && StopsBy(p0.price, p.price, w.limit, w.zeroForOne)
              && StopsBy(p0.price, p.price, Budget.PriceOf(next), w.zeroForOne)
              && (remaining == 0 || used == |passes|
                 || (p.price == Target(w, next) && (p.price == w.limit || p.price == Budget.PriceOf(next))))
              && (p.price == Budget.PriceOf(next)
                 ==> p.tick == TickAfter(next, w.zeroForOne, SlotAt(p.ix, next).HasOrders()))
              && p.ix.spacing > 0
              && (PhaseAfter(w, remaining, next, false, p).Seeking? ==> p.price == Budget.PriceOf(next))
    ensures r.Err? ==> end.phase.Toward? && Fails(end, w, passes, used)
    ensures r.Ok? ==> end == Session(r.value.0, PhaseAfter(w, r.value.1, next, false, r.value.0))
    ensures Leads(start, actions, end) && SoundRun(start, actions)
  {
    hide SwapStep, Inv, IsNext, Budget.PriceOf, Target, Nearing, Leads, SoundRun, Continues, PhaseAfter,
        Slot.Initialized;
    var p, remaining := p0, amount;
    used, actions := from, before;
    while true
      invariant from <= used < |passes| && 0 < remaining <= amount
      invariant Inv(p) && p.ix == p0.ix && p.positions == p0.positions && IsNext(p.ix, p.tick, w.zeroForOne, next)
      invariant StopsBy(p0.price, p.price, p.price, w.zeroForOne)
      invariant Leads(start, actions, Session(p, Toward(w, remaining, next, false))) && SoundRun(start, actions)
      decreases |passes| - used
    {
      NextIs(p.ix, p.tick, w.zeroForOne, next);
      end := Session(p, Toward(w, remaining, next, false));
      var offer := passes[used];
      var s: (Pool, nat) :- SwapStep(p, w, remaining, next, offer.feeRate, offer.bounded);
      StepNearing(p0, p, w, remaining, next, offer);
      ReachedTarget(p, w, remaining, next, offer.feeRate, offer.bounded);
      PassStopsInTime(p, w, remaining, next, offer.feeRate, offer.bounded);
      TargetComesFirst(w, next);
      NearingParts(p0, s.0, w, next);
      PassLeads(start, actions, p, w, remaining, next, offer);
      PhaseIs(w, s.1, next, s.0);
      used, actions := used + 1, actions + [PoolRuns.Pass(offer.feeRate, offer.bounded)];
      end := Session(s.0, PhaseAfter(w, s.1, next, false, s.0));
      if s.1 == 0 || s.0.price == Target(w, next) || used == |passes| { return Ok((s.0, s.1)), used, actions, end; }
      p, remaining := s.0, s.1;
    }
  }

  lemma PhaseIs(w: Swap, rest: nat, next: int, p: Pool)
    requires p.ix.spacing > 0 && InRange(next)
    ensures rest != 0 && p.price != Target(w, next)
            ==> PhaseAfter(w, rest, next, false, p) == Toward(w, rest, next, false)
    ensures rest == 0 ==> PhaseAfter(w, rest, next, false, p) == Idle
    ensures PhaseAfter(w, rest, next, false, p).Seeking?
            ==> p.price == Budget.PriceOf(next) && p.price != w.limit && rest > 0
    ensures rest != 0 && p.price == Target(w, next) && p.price != w.limit ==>
              PhaseAfter(w, rest, next, false, p)
              == Seeking(w, rest, ArrayStart(next, p.ix.spacing), true, !Continues(w, next, p))
  {
    hide Budget.PriceOf, ArrayStart, Continues;
  }

  /** A swap: search, pass toward the tick found, bring the words in line, search again. `lost`
      tells that the loop stops because orders are left at the first tick of an array while
      swapping upwards, where the next search would look past them; `used` counts the passes. What it does
      is a sound run, `actions`, from the pool to `end`. It fails only on a zero amount, with no initialized tick
      ahead, or in a failing pass. */
  method SwapLoop(p0: Pool, bitMap: array<u64>, w: Swap, amount: nat, passes: seq<Offer>)
    returns (r: Result<(Pool, nat)>, words: array<u64>, lost: bool, used: nat, ghost actions: seq<Action>,
        ghost end: Session)
    requires Inv(p0) && p0.ix.spacing > 0
    requires Represents(bitMap[..], p0.ix) && InBitmap(p0.tick, p0.ix.spacing)
    ensures r.Ok? ==>
              var (p, remaining) := r.value;
              && Inv(p) && p.ix.spacing == p0.ix.spacing && Represents(words[..], p.ix)
              && p.positions == p0.positions && remaining <= amount
              && (remaining == 0 || p.price == w.limit || lost || used >= |passes|)
              && (used > 0 ==> StopsBy(p0.price, p.price, w.limit, w.zeroForOne))
              && (lost ==>
                    && remaining > 0 && !w.zeroForOne && SlotAt(p.ix, p.tick + 1).HasOrders()
                    && ArrayStart(p.tick + 1, p.ix.spacing) == p.tick + 1)
    ensures r.Ok? ==> end.pool == r.value.0
    ensures r.Err? ==> amount == 0 || Fails(end, w, passes, used)
    ensures Leads(Session(p0, Idle), actions, end) && SoundRun(Session(p0, Idle), actions)
  {
    hide Inv, IsNext, NoneAhead, SearchInv, Searched, Started, InArray, IsValidStart, Represents, Agrees, ArrayStart,
        Budget.PriceOf, Nearing, Slot.HasOrders, Slot.Initialized, SlotAt, TickAfter, FlipBit, MaxTickInBitmap, Val,
        TicksMatch, Total, Budget.PriceAtTick, Leads, SoundRun, Continues, PhaseAfter, Can, After, Sound, Target,
        SwapStep, StopsBy;
    StaysPut(p0.price, w.zeroForOne);
    words, lost, used, actions, end := bitMap, false, 0, [], Session(p0, Idle);
    NothingLeads(end);
    if amount == 0 { return Err(ZeroAmountSpecified), words, lost, used, actions, end; }
    InvParts(p0);
    PositivePrice(p0);
    RepresentsWords(words[..], p0.ix);
    var started := StartSearch(p0.ix, words, p0.tick, w.zeroForOne);
    StartedInOrder(p0.ix, p0.tick, w.zeroForOne, if started.Ok? then Some(started.value) else None);
    if started.Err? { return Err(LiquidityInsufficient), words, lost, used, actions, end; }
    var p, remaining: nat, at, seen := p0, amount, started.value.1, started.value.0;
    BeginLeads(p0, w, amount, at, seen);
    actions, end := [Begin(w, amount, at, seen)], Session(p0, Seeking(w, amount, at, seen, false));
    while remaining != 0 && p.price != w.limit && used < |passes| && !lost
      invariant Inv(p) && p.ix.spacing == p0.ix.spacing && p.positions == p0.positions && remaining <= amount
      invariant Represents(words[..], p.ix) && InBitmap(at, p0.ix.spacing)
      invariant remaining != 0 && p.price != w.limit && used < |passes| && !lost ==>
                  && SearchInv(p.ix, p.tick, at, seen, w.zeroForOne)
                  && end.phase == Seeking(w, remaining, at, seen, false)
      invariant lost ==>
                  && remaining > 0 && !w.zeroForOne && SlotAt(p.ix, p.tick + 1).HasOrders()
                  && ArrayStart(p.tick + 1, p.ix.spacing) == p.tick + 1
      invariant StopsBy(p0.price, p.price, if used == 0 then p.price else w.limit, w.zeroForOne)
      invariant end.pool == p
      invariant Leads(Session(p0, Idle), actions, end) && SoundRun(Session(p0, Idle), actions)
      decreases |passes| - used
    {
      InvParts(p);
      RepresentsWords(words[..], p.ix);
      SearchInvParts(p.ix, p.tick, at, seen, w.zeroForOne);
      var found := FindNext(p.ix, words, p.tick, at, seen, w.zeroForOne);
      SearchedIsNext(p.ix, p.tick, at, seen, w.zeroForOne, if found.Ok? then Some(found.value.0) else None);
      if found.Err? { return Err(LiquidityInsufficient), words, lost, used, actions, end; }
      var next := found.value.0;
      SeekLeads(Session(p0, Idle), actions, p, w, remaining, at, seen, next);
      at, seen := found.value.1, true;
      NextInBitmap(p.ix, words[..], p.tick, w.zeroForOne, next);
      var passed;
      ghost var used0 := used;
      passed, used, actions, end :=
        PassesToward(p, w, remaining, next, passes, used, Session(p0, Idle), actions + [Seek(next)]);
      if passed.Err? { return Err(CalculateOverflow), words, lost, used, actions, end; }
      var (p', rest) := passed.value;
      AfterPasses(p, p', w, next);
      StopsAgain(p0.price, p.price, p'.price, if used0 == 0 then p.price else w.limit, w.limit, w.zeroForOne);
      PhaseIs(w, rest, next, p');
      words := UpdateWords(words, p.ix, p'.ix, next);
      var left := SlotAt(p'.ix, next).HasOrders();
      lost := rest > 0 && p'.price == Budget.PriceOf(next) && p'.price != w.limit && !w.zeroForOne && left
          && next == at;
      ContinuesIs(w, next, p');
      p, remaining := p', rest;
    }
    return Ok((p, remaining)), words, lost, used, actions, end;
  }

  lemma StaysPut(price: nat, zeroForOne: bool)
    ensures StopsBy(price, price, price, zeroForOne)
  {}

  lemma StopsAgain(from: nat, mid: nat, to: nat, before: nat, stop: nat, zeroForOne: bool)
    requires StopsBy(from, mid, before, zeroForOne) && StopsBy(mid, to, stop, zeroForOne)
    ensures StopsBy(from, to, stop, zeroForOne)
  {}

  lemma NothingLeads(x: Session)
    ensures Leads(x, [], x) && SoundRun(x, [])
  {}

  lemma BeginLeads(p: Pool, w: Swap, amount: nat, at: int, seen: bool)
    requires p.ix.spacing > 0 && amount > 0 && Started(p.ix, p.tick, w.zeroForOne, Some((seen, at)))
    ensures Leads(Session(p, Idle), [Begin(w, amount, at, seen)], Session(p, Seeking(w, amount, at, seen, false)))
    ensures SoundRun(Session(p, Idle), [Begin(w, amount, at, seen)])
  {
    hide Started;
    var x, a := Session(p, Idle), Begin(w, amount, at, seen);
    assert Can(x, a) && Sound(x, a) && After(x, a) == Session(p, Seeking(w, amount, at, seen, false));
    hide Can, After, Sound;
    assert [a][1..] == [];
  }

  lemma SeekLeads(start: Session, actions: seq<Action>, p: Pool, w: Swap, remaining: nat, at: int, seen: bool,
      next: int)
    requires Leads(start, actions, Session(p, Seeking(w, remaining, at, seen, false))) && SoundRun(start, actions)
             && p.ix.spacing > 0
    requires Searched(p.ix, p.tick, at, seen, w.zeroForOne, Some(next))
    ensures Leads(start, actions + [Seek(next)], Session(p, Toward(w, remaining, next, false)))
            && SoundRun(start, actions + [Seek(next)])
  {
    hide Searched, Leads, SoundRun;
    var x := Session(p, Seeking(w, remaining, at, seen, false));
    assert Can(x, Seek(next)) && Sound(x, Seek(next));
    LeadsSnoc(start, actions, x, Seek(next));
  }

  lemma SearchInvParts(ix: Index, tick: int, at: int, seen: bool, zeroForOne: bool)
    requires ix.spacing > 0 && SearchInv(ix, tick, at, seen, zeroForOne)
    ensures IsValidStart(at, ix.spacing) && (seen || exists u :: InArray(ix, at, u))
  {
    hide ArrayStart, IsValidStart, Slot.Initialized, SlotAt;
  }

  lemma RepresentsWords(words: seq<u64>, ix: Index)
    requires ix.spacing > 0 && Represents(words, ix)
    ensures |words| == WORDS
  {
    hide IsSet, Val;
  }

  lemma NextInBitmap(ix: Index, words: seq<u64>, tick: int, zeroForOne: bool, next: int)
    requires Agrees(ix) && Represents(words, ix) && IsNext(ix, tick, zeroForOne, next)
    ensures InRange(next) && SlotAt(ix, next).Initialized() && InBitmap(ArrayStart(next, ix.spacing), ix.spacing)
  {
    hide ArrayStart, Val, IsSet, Slot.Initialized;
    InitializedInBits(ix, next);
    SetInRange(Val(words), ArrayStart(next, ix.spacing), ix.spacing);
  }

  /** After the passes the search can go on, unless it is the excepted case or the swap is over. */
  lemma AfterPasses(p: Pool, p': Pool, w: Swap, next: int)
    requires Inv(p) && p.ix.spacing > 0 && InRange(next) && IsNext(p.ix, p.tick, w.zeroForOne, next)
             && Nearing(p, p', w, next)
    requires p'.price == Budget.PriceOf(next)
             ==> p'.tick == TickAfter(next, w.zeroForOne, SlotAt(p'.ix, next).HasOrders())
    ensures p'.ix.bits == p.ix.bits || p'.ix.bits == FlipBit(p.ix, ArrayStart(next, p.ix.spacing)).bits
    ensures Inv(p') && p'.ix.spacing == p.ix.spacing && p'.positions == p.positions && Agrees(p.ix)
    ensures var at, left := ArrayStart(next, p.ix.spacing), SlotAt(p'.ix, next).HasOrders();
            p'.price == Budget.PriceOf(next) ==>
              && p'.tick == TickAfter(next, w.zeroForOne, left)
              && (SearchInv(p'.ix, p'.tick, at, true, w.zeroForOne) <==> w.zeroForOne || !left || next != at)
              && (!w.zeroForOne && left ==> p'.tick + 1 == next)
  {
    hide Inv, Agrees, IsNext, SearchInv, Budget.PriceOf, ArrayStart, FlipBit, Slot.Initialized, Slot.HasOrders, Total,
        TicksMatch, Budget.PriceAtTick;
    InvParts(p);
    InOrderIff(p.ix, p'.ix, p.tick, next, w.zeroForOne);
  }
}
