/** Every step of a run of one tick's limit-order queue keeps what its accounts can claim within what the queue
    holds, in units. It keeps the ledger of the two tokens balanced exactly if increases are on the side their
    order waits on and the price passes the tick when its queue is empty. */
module LimitOrderInvariants {
  import opened Types
  import opened Arith
  import opened LimitOrder
  import opened LimitOrderRun

  // ---- Settling one account ----

  /** Settling never fails, credits exactly the units of the segment, and leaves the account's
      claim on its cohort where it was. */
  lemma SettleAccountInv(a: Account, t: Tick, q: Quote)
    requires q.Valid() && AccountInv(a, t, q) && t.phase <= U64_MAX
    ensures SettleAccount(a, t, q).Ok?
    ensures var b := SettleAccount(a, t, q).value;
            && AccountInv(b, t, q)
            && b.zeroForOne == a.zeroForOne
            && b.order == Settle(a.order, t, q).value.order
            && Of(Credit, b) == Of(Credit, a)
            && b.deposited == a.deposited && b.withdrawn == a.withdrawn && b.dust == a.dust && b.segments == a.segments
            && b.order.phase == a.order.phase
            && (b.order.phase + 1 >= t.phase ==> b.order.base == a.order.base && b.order.snapshot == a.order.snapshot)
            && (b.order.phase == t.phase ==> b == a)
            && (b.order.phase + 1 == t.phase ==>
                  && b.order.total - b.order.filled == Unfilled(a.order.base, t.ratio, a.order.snapshot)
                  && b.units == Credited(a.order.base, t.ratio, a.order.snapshot))
            && (b.order.phase + 2 <= t.phase ==> b.order.total == b.order.filled)
  {
    hide Quote.Out, Quote.Num, Quote.Den, Unfilled, Credited;
    var o := a.order;
    if o.phase == t.phase {
    } else if o.phase + 1 == t.phase {
      ClaimRange(o.base, t.ratio, o.snapshot);
      SettlePartFilled(a, t, q);
    } else if o.base > 0 {
      SettleFull(a, t, q);
    }
  }

  lemma OutMonotone(q: Quote, x: nat, y: nat)
    requires q.Valid() && x <= y
    ensures q.Out(x) <= q.Out(y)
    ensures q.Out(x) * q.Den() <= x * q.Num() <= (q.Out(x) + 1) * q.Den()
    ensures q.Out(0) == 0
  {
    MulLe(0, x, q.Num());
    MulLe(x, y, q.Num());
    FloorMono(x * q.Num(), y * q.Num(), q.Den());
    DivBounds(x * q.Num(), q.Den());
  }

  lemma SettlePartFilled(a: Account, t: Tick, q: Quote)
    requires q.Valid() && AccountInv(a, t, q) && a.order.phase + 1 == t.phase <= U64_MAX
    ensures var o := a.order;
            var left := Unfilled(o.base, t.ratio, o.snapshot);
            var units := Credited(o.base, t.ratio, o.snapshot);
            && left <= o.base && 0 <= units
            && Settle(o, t, q).Ok? && SettleAccount(a, t, q).Ok?
            && var s, b := Settle(o, t, q).value, SettleAccount(a, t, q).value;
               && s.order == o.(filled := s.order.filled, settled := s.order.settled)
               && s.order.total - s.order.filled == left && s.order.settled == q.Out(units)
               && s.payout == q.Out(units) - o.settled
               && b == a.(order := s.order, units := units, paid := a.paid + s.payout)
  {
    hide Quote.Out, Quote.Num, Quote.Den, Unfilled, Credited;
    var o := a.order;
    ClaimRange(o.base, t.ratio, o.snapshot);
    OutMonotone(q, a.units, Credited(o.base, t.ratio, o.snapshot));
    OutMonotone(q, Credited(o.base, t.ratio, o.snapshot), o.base);
  }

  /** At a ratio below the snapshot the unfilled part and the credited units split the base, up
      to one unit of dust. */
  lemma ClaimRange(base: nat, ratio: nat, snapshot: nat)
    requires 0 < snapshot && ratio <= snapshot
    ensures var left, units := Unfilled(base, ratio, snapshot), Credited(base, ratio, snapshot);
            && left <= base && 0 <= units
            && base - left - 1 <= units <= base - left
            && (left == base ==> units == 0)
            && (base == 0 ==> left == 0 && units == 0)
  {
    CreditedRange(base, ratio, snapshot);
    MulLe(0, base, ratio);
    MulLe(ratio, snapshot, base);
    FloorIff(base * ratio, snapshot, base + 1);
    CeilIff(base * ratio, snapshot, base);
  }

  lemma SettleFull(a: Account, t: Tick, q: Quote)
    requires q.Valid() && AccountInv(a, t, q) && a.order.phase + 2 <= t.phase <= U64_MAX && a.order.base > 0
    ensures var o := a.order;
            && Settle(o, t, q).Ok? && SettleAccount(a, t, q).Ok?
            && Settle(o, t, q).value.order == o.(filled := o.total, base := 0, settled := 0)
            && SettleAccount(a, t, q).value.paid == a.closedPaid + q.Out(o.base)
            && AccountInv(SettleAccount(a, t, q).value, t, q)
  {
    hide Quote.Out, Quote.Num, Quote.Den, Unfilled, Credited;
    OutMonotone(q, 0, 0);
    OutMonotone(q, a.units, a.order.base);
    OutMonotone(q, a.order.base, a.order.base);
    ClosePays(a.closedUnits, a.closedPaid, a.segments - 1, a.order.base, q.Out(a.order.base), q.Num(), q.Den());
  }

  /** Closing one more segment rounds down once more. */
  lemma ClosePays(units: int, paid: int, closed: int, more: int, out: int, num: int, den: int)
    requires paid * den <= units * num <= (paid + closed) * den
    requires out * den <= more * num <= (out + 1) * den && 0 < den
    ensures (paid + out) * den <= (units + more) * num <= (paid + out + closed + 1) * den
            <= (paid + out + closed + 2) * den
  {
    Distribute(num, units, more);
    Distribute(den, paid, out);
    Distribute(den, paid + closed, out + 1);
    MulLe(paid + out + closed + 1, paid + out + closed + 2, den);
  }

  // ---- Each step keeps the invariant ----

  /** Only the phase and the ratio of the tick matter to an account. */
  lemma AccountInvFrame(a: Account, t: Tick, t': Tick, q: Quote)
    requires q.Valid() && AccountInv(a, t, q) && t'.phase == t.phase && t'.ratio == t.ratio
    ensures AccountInv(a, t', q)
  {}

  lemma SoundFrame(a: Account, s: State, s': State, q: Quote)
    requires q.Valid() && Sound(a, s, q) && s'.tick.phase == s.tick.phase && s'.tick.ratio == s.tick.ratio
    ensures Sound(a, s', q)
  {
    hide AccountInv;
    AccountInvFrame(a, s.tick, s'.tick, q.Facing(a.zeroForOne));
  }

  lemma ReplaceAccount(s: State, q: Quote, i: nat, b: Account)
    requires Core(s, q) && i < |s.accounts| && AccountInv(b, s.tick, q.Facing(b.zeroForOne))
    requires var a := s.accounts[i];
             && b.zeroForOne == a.zeroForOne && b.order.phase == a.order.phase
             && Of(Credit, b) == Of(Credit, a)
             && (b.order.phase + 1 >= s.tick.phase
                ==> b.order.base == a.order.base && b.order.snapshot == a.order.snapshot)
    ensures Core(s.(accounts := s.accounts[i := b]), q)
  {
    hide AccountInv, Of, WeightOf, Sum, Weight;
    var s' := s.(accounts := s.accounts[i := b]);
    assert Sound(s.accounts[i], s, q);
    SameWeight(s.accounts[i], b);
    SumUpdate(s.accounts, i, b, s.tick.phase, Base);
    forall j | 0 <= j < |s'.accounts|
      ensures Sound(s'.accounts[j], s', q)
    {
      if j != i { SoundFrame(s.accounts[j], s, s', q); }
    }
    forall k | 0 <= k < |s.cohorts|
      ensures CohortInv(s', k)
    {
      assert CohortInv(s, k);
      SumUpdate(s.accounts, i, b, k, Credit);
    }
    if s.tick.phase > 0 {
      WeightUpdate(s.accounts, i, b, s.tick.phase - 1);
      SumUpdate(s.accounts, i, b, s.tick.phase - 1, Credit);
    }
  }

  /** The ledger is no part of the queue. */
  lemma CoreFrame(s: State, q: Quote, received: Tokens, vault: Tokens)
    requires Core(s, q)
    ensures Core(s.(received := received, vault := vault), q)
  {
    hide AccountInv, Sum, Weight, Of;
    var s' := s.(received := received, vault := vault);
    forall i | 0 <= i < |s'.accounts|
      ensures Sound(s'.accounts[i], s', q)
    {
      SoundFrame(s.accounts[i], s, s', q);
    }
    forall k | 0 <= k < |s'.cohorts|
      ensures CohortInv(s', k)
    {
      assert CohortInv(s, k);
    }
  }

  lemma {:induction false} PaidUpdate(accounts: seq<Account>, i: nat, b: Account, zeroForOne: bool)
    requires i < |accounts| && b.zeroForOne == accounts[i].zeroForOne
    ensures TotalPaid(accounts[i := b], zeroForOne)
            == TotalPaid(accounts, zeroForOne) + (if b.zeroForOne == zeroForOne then b.paid - accounts[i].paid else 0)
    decreases |accounts|
  {
    var n := |accounts| - 1;
    var updated := accounts[i := b];
    if i == n {
      assert updated[..n] == accounts[..n];
    } else {
      assert updated[..n] == accounts[..n][i := b];
      PaidUpdate(accounts[..n], i, b, zeroForOne);
    }
  }

  lemma SameWeight(a: Account, b: Account)
    ensures b.order.base == a.order.base ==> Of(Base, b) == Of(Base, a)
    ensures b.order.base == a.order.base && b.order.snapshot == a.order.snapshot
            ==> WeightOf(b.order) == WeightOf(a.order)
  {}

  lemma SettleKeepsCore(s: State, q: Quote, i: nat)
    requires Core(s, q) && i < |s.accounts|
    ensures SettleAccount(s.accounts[i], s.tick, q.Facing(s.accounts[i].zeroForOne)).Ok?
    ensures var a, b := s.accounts[i], SettleAccount(s.accounts[i], s.tick, q.Facing(s.accounts[i].zeroForOne)).value;
            && Core(Paying(s, i, b), q)
            && b.zeroForOne == a.zeroForOne && b.order.phase == a.order.phase && Of(Credit, b) == Of(Credit, a)
  {
    hide SettleAccount, AccountInv, Of, PartFilledInv, CohortInv, Sum;
    var a := s.accounts[i];
    assert Sound(a, s, q);
    SettleAccountInv(a, s.tick, q.Facing(a.zeroForOne));
    var b := SettleAccount(a, s.tick, q.Facing(a.zeroForOne)).value;
    ReplaceAccount(s, q, i, b);
    CoreFrame(s.(accounts := s.accounts[i := b]), q, s.received, Paying(s, i, b).vault);
  }

  lemma SettleKeepsInv(s: State, q: Quote, i: nat)
    requires Inv(s, q) && i < |s.accounts|
    ensures SettleAccount(s.accounts[i], s.tick, q.Facing(s.accounts[i].zeroForOne)).Ok?
    ensures Inv(Paying(s, i, SettleAccount(s.accounts[i], s.tick, q.Facing(s.accounts[i].zeroForOne)).value), q)
  {
    hide Core, SettleAccount, Directed, Ledger, Of;
    CoreValid(s, q);
    SettleKeepsCore(s, q, i);
    var b := SettleAccount(s.accounts[i], s.tick, q.Facing(s.accounts[i].zeroForOne)).value;
    PayingKeepsLedger(s, q, i, b);
    ReplaceDirected(s, Paying(s, i, b), i, b);
  }

  /** An account with no more to its name in the same phase stays one-way. */
  lemma ReplaceDirected(s: State, s': State, i: nat, b: Account)
    requires Directed(s) && i < |s.accounts| && s'.accounts == s.accounts[i := b]
    requires b.zeroForOne == s.accounts[i].zeroForOne && b.order.phase == s.accounts[i].order.phase
    requires Of(Credit, b) <= Of(Credit, s.accounts[i]) || s.accounts[i].zeroForOne == s.Direction(b.order.phase)
    requires Of(Credit, b) <= Of(Credit, s.accounts[i]) || b.order.phase <= s.tick.phase
    requires s'.tick.phase == s.tick.phase && s'.tick.remaining <= s.tick.remaining && s'.Above() == s.Above()
    requires |s'.cohorts| == |s.cohorts|
    requires forall k :: 0 <= k < |s.cohorts| ==> s'.cohorts[k].zeroForOne == s.cohorts[k].zeroForOne
    ensures Directed(s')
  {
    hide Of;
    forall j | 0 <= j < |s'.accounts|
      ensures OneWay(s', s'.accounts[j])
    {
      assert OneWay(s, s.accounts[j]);
    }
  }

  lemma PayingKeepsLedger(s: State, q: Quote, i: nat, b: Account)
    requires q.Valid() && Ledger(s, q) && i < |s.accounts| && b.zeroForOne == s.accounts[i].zeroForOne
    ensures Ledger(Paying(s, i, b), q)
  {
    hide TotalPaid, Consumed, Quote.Num, Quote.Den;
    var s' := Paying(s, i, b);
    forall d
      ensures Balanced(s', d) && Received(s', q, d)
    {
      assert Balanced(s, d) && Received(s, q, d);
      PaidUpdate(s.accounts, i, b, !d);
    }
  }

  lemma OpenKeepsInv(s: State, q: Quote, zeroForOne: bool, amount: nat)
    requires Inv(s, q) && DoOpen(s, q, zeroForOne, amount).Some?
    ensures Inv(DoOpen(s, q, zeroForOne, amount).value, q)
  {
    hide Core, Directed, TotalPaid, Consumed, Quote.Num, Quote.Den, AmountAllowed;
    CoreValid(s, q);
    OpenKeepsCore(s, q, zeroForOne, amount);
    OpenKeepsDirected(s, q, zeroForOne, amount);
    var s' := DoOpen(s, q, zeroForOne, amount).value;
    forall d
      ensures Balanced(s', d) && Received(s', q, d)
    {
      assert Balanced(s, d) && Received(s, q, d);
      PaidAppend(s.accounts, s'.accounts[|s.accounts|], !d);
    }
  }

  lemma OpenKeepsDirected(s: State, q: Quote, zeroForOne: bool, amount: nat)
    requires q.Valid() && Directed(s) && DoOpen(s, q, zeroForOne, amount).Some?
    ensures Directed(DoOpen(s, q, zeroForOne, amount).value)
  {
    hide AmountAllowed, Of;
    var s' := DoOpen(s, q, zeroForOne, amount).value;
    forall i | 0 <= i < |s'.accounts|
      ensures OneWay(s', s'.accounts[i])
    {
      if i < |s.accounts| { assert OneWay(s, s.accounts[i]); }
    }
  }

  lemma PaidAppend(accounts: seq<Account>, b: Account, zeroForOne: bool)
    ensures TotalPaid(accounts + [b], zeroForOne) == TotalPaid(accounts, zeroForOne)
            + if b.zeroForOne == zeroForOne then b.paid else 0
  {
    assert (accounts + [b])[..|accounts|] == accounts;
  }

  lemma OpenKeepsCore(s: State, q: Quote, zeroForOne: bool, amount: nat)
    requires Core(s, q) && DoOpen(s, q, zeroForOne, amount).Some?
    ensures Core(DoOpen(s, q, zeroForOne, amount).value, q)
  {
    hide Quote.Out, Quote.Num, Quote.Den, PartFilledInv, CohortInv;
    var s' := DoOpen(s, q, zeroForOne, amount).value;
    var b := s'.accounts[|s.accounts|];
    OutMonotone(q.Facing(zeroForOne), 0, 0);
    assert Sound(b, s', q);
    hide AccountInv, WeightOf;
    forall i | 0 <= i < |s'.accounts|
      ensures Sound(s'.accounts[i], s', q)
    {
      if i < |s.accounts| { SoundFrame(s.accounts[i], s, s', q); }
    }
    assert s'.accounts[..|s.accounts|] == s.accounts;
    forall k | 0 <= k < |s.cohorts|
      ensures CohortInv(s', k)
    {
      assert CohortInv(s, k);
      AppendKeepsCohort(s, s', k);
    }
    if s.tick.phase > 0 { AppendKeepsPartFilled(s, s'); }
  }

  lemma AppendKeepsCohort(s: State, s': State, k: nat)
    requires k < |s.cohorts| == s.tick.phase && CohortInv(s, k) && s'.cohorts == s.cohorts
    requires s'.tick.phase == s.tick.phase && s'.tick.remaining == s.tick.remaining
    requires s'.accounts != [] && s'.accounts[..|s'.accounts| - 1] == s.accounts
             && s'.accounts[|s'.accounts| - 1].order.phase == s.tick.phase
    ensures CohortInv(s', k)
  {}

  lemma AppendKeepsPartFilled(s: State, s': State)
    requires 0 < s.tick.phase == |s.cohorts| && PartFilledInv(s) && s'.cohorts == s.cohorts
    requires s'.tick == s.tick.(orders := s'.tick.orders)
    requires s'.accounts != [] && s'.accounts[..|s'.accounts| - 1] == s.accounts
             && s'.accounts[|s'.accounts| - 1].order.phase == s.tick.phase
    ensures PartFilledInv(s')
  {
    hide Of, WeightOf;
    var k := s.tick.phase - 1;
    assert Weight(s'.accounts, k) == Weight(s.accounts, k) && Sum(s'.accounts, k, Credit) == Sum(s.accounts, k, Credit);
    hide Weight, Sum;
  }

  lemma IncreaseKeepsCore(s: State, q: Quote, i: nat, amount: nat)
    requires Core(s, q) && i < |s.accounts| && DoIncrease(s, q, i, amount).Some?
    ensures Core(DoIncrease(s, q, i, amount).value, q)
  {
    hide Quote.Out, Quote.Num, Quote.Den, Sum, Weight, WeightOf;
    var s' := DoIncrease(s, q, i, amount).value;
    var a, b := s.accounts[i], s'.accounts[i];
    assert Sound(a, s, q);
    assert Sound(b, s', q);
    SumUpdate(s.accounts, i, b, s.tick.phase, Base);
    hide AccountInv;
    forall j | 0 <= j < |s'.accounts|
      ensures Sound(s'.accounts[j], s', q)
    {
      if j != i { SoundFrame(s.accounts[j], s, s', q); }
    }
    forall k | 0 <= k < |s.cohorts|
      ensures CohortInv(s', k)
    {
      assert CohortInv(s, k);
      SumUpdate(s.accounts, i, b, k, Credit);
    }
    if s.tick.phase > 0 {
      WeightUpdate(s.accounts, i, b, s.tick.phase - 1);
      SumUpdate(s.accounts, i, b, s.tick.phase - 1, Credit);
    }
  }

  /** Increasing puts tokens of the order's direction into the vault and units of the side's direction
      into the queue: the two go together exactly on the side the order was opened on. */
  lemma IncreaseBalancedIff(s: State, q: Quote, i: nat, amount: nat, zeroForOne: bool)
    requires q.Valid() && Balanced(s, zeroForOne) && i < |s.accounts| && DoIncrease(s, q, i, amount).Some?
    ensures Balanced(DoIncrease(s, q, i, amount).value, zeroForOne) <==> s.accounts[i].zeroForOne == s.Above()
  {
    hide TotalPaid, AmountAllowed;
    var s' := DoIncrease(s, q, i, amount).value;
    PaidUpdate(s.accounts, i, s'.accounts[i], !zeroForOne);
  }

  /** The invariant survives an increase exactly when it meets the guard of `open_limit_order`. */
  lemma IncreaseKeepsInvIff(s: State, q: Quote, i: nat, amount: nat)
    requires Inv(s, q) && i < |s.accounts| && DoIncrease(s, q, i, amount).Some?
    ensures Inv(DoIncrease(s, q, i, amount).value, q) <==> s.accounts[i].zeroForOne == s.Above()
  {
    hide Core, Directed, Balanced, TotalPaid, Consumed, Quote.Num, Quote.Den, Increase, AmountAllowed, Of;
    CoreValid(s, q);
    var s' := DoIncrease(s, q, i, amount).value;
    forall d
      ensures Balanced(s', d) <==> s.accounts[i].zeroForOne == s.Above()
      ensures Received(s', q, d)
    {
      assert Balanced(s, d) && Received(s, q, d);
      IncreaseBalancedIff(s, q, i, amount, d);
    }
    if s.accounts[i].zeroForOne == s.Above() {
      IncreaseKeepsCore(s, q, i, amount);
      CohortsArePhases(s, q);
      IncreasePhase(s, q, i, amount);
      ReplaceDirected(s, s', i, s'.accounts[i]);
    } else {
      assert !Balanced(s', true);
    }
  }

  /** Only an order of the tick's phase is increased. */
  lemma IncreasePhase(s: State, q: Quote, i: nat, amount: nat)
    requires q.Valid() && i < |s.accounts| && DoIncrease(s, q, i, amount).Some?
    ensures var s' := DoIncrease(s, q, i, amount).value;
            && s.accounts[i].order.phase == s.tick.phase == s'.tick.phase == s'.accounts[i].order.phase
            && s'.tick.remaining == s.tick.remaining && s'.cohorts == s.cohorts && s'.current == s.current
            && s'.index == s.index && s'.accounts == s.accounts[i := s'.accounts[i]]
            && s'.accounts[i].zeroForOne == s.accounts[i].zeroForOne
  {
    hide AmountAllowed;
  }

  lemma CohortsArePhases(s: State, q: Quote)
    requires Core(s, q)
    ensures |s.cohorts| == s.tick.phase
  {}

  lemma CoreValid(s: State, q: Quote)
    requires Core(s, q)
    ensures q.Valid()
  {}

  // ---- The price passing the tick ----

  /** The units do not depend on where the price is. */
  lemma MoveKeepsCore(s: State, q: Quote, current: int)
    requires Core(s, q)
    ensures Core(s.(current := current), q)
  {
    hide Sum, Weight, AccountInv;
    var s' := s.(current := current);
    forall i | 0 <= i < |s'.accounts|
      ensures Sound(s'.accounts[i], s', q)
    {
      assert Sound(s.accounts[i], s, q);
    }
    forall k | 0 <= k < |s'.cohorts|
      ensures CohortInv(s', k)
    {
      assert CohortInv(s, k);
    }
  }

  /** The invariant survives a move of the price exactly when it passes an empty queue. */
  lemma MoveKeepsInvIff(s: State, q: Quote, current: int)
    requires Inv(s, q)
    ensures Inv(s.(current := current), q) <==> PassesEmpty(s, current)
  {
    hide Core, Directed, TotalPaid, Consumed, Quote.Num, Quote.Den;
    CoreValid(s, q);
    MoveKeepsCore(s, q, current);
    if PassesEmpty(s, current) {
      MoveKeepsDirected(s, q, current);
      var s' := s.(current := current);
      forall d
        ensures Balanced(s', d) && Received(s', q, d)
      {
        assert Balanced(s, d) && Received(s, q, d);
      }
    } else {
      PassedOrdersBreak(s, q, current);
    }
  }

  lemma MoveKeepsDirected(s: State, q: Quote, current: int)
    requires Core(s, q) && Directed(s) && PassesEmpty(s, current)
    ensures Directed(s.(current := current))
  {
    hide Core, Of;
    var s' := s.(current := current);
    forall i | 0 <= i < |s'.accounts|
      ensures OneWay(s', s'.accounts[i])
    {
      assert OneWay(s, s.accounts[i]);
      if s'.Above() != s.Above() { NothingWaiting(s, q, i); }
    }
  }

  /** A queue that is passed with orders left gives the other token than its orders put in. */
  lemma PassedOrdersBreak(s: State, q: Quote, current: int)
    requires Inv(s, q) && !PassesEmpty(s, current)
    ensures !Inv(s.(current := current), q)
  {
    hide Core, OneWay, TotalPaid, Consumed, Quote.Num, Quote.Den;
    CoreValid(s, q);
    if s.tick.remaining == 0 {
      assert Balanced(s, true) && !Balanced(s.(current := current), true);
    }
  }

  /** With no orders waiting, no account of the phase has any. */
  lemma NothingWaiting(s: State, q: Quote, i: nat)
    requires Core(s, q) && s.tick.orders == 0 && i < |s.accounts|
    ensures s.accounts[i].order.phase == s.tick.phase ==> Of(Credit, s.accounts[i]) == 0
  {
    hide Sum, CohortInv, PartFilledInv;
    assert Sound(s.accounts[i], s, q);
    SumPoint(s.accounts, i, Base);
  }

  // ---- Matching ----

  /** The state after `c` units are taken, before the takers' tokens are booked. */
  function ConsumeState(s: State, c: nat): State
    requires c <= s.tick.remaining + s.tick.orders
  {
    s.(tick := Consume(s.tick, c), cohorts := Book(s.cohorts, s.tick, s.Above(), c))
  }

  /** A part-filled account stays consistent when the ratio falls. */
  lemma RatioFalls(a: Account, t: Tick, t': Tick, q: Quote)
    requires q.Valid() && AccountInv(a, t, q) && t'.phase == t.phase && t'.ratio <= t.ratio
    ensures AccountInv(a, t', q)
  {
    hide Quote.Out, Quote.Num, Quote.Den;
    if a.order.phase + 1 == t.phase {
      UnfilledMonotone(a.order.base, t'.ratio, t.ratio, a.order.snapshot);
      hide Unfilled, Credited;
    }
  }

  lemma UnfilledMonotone(base: nat, ratio': nat, ratio: nat, snapshot: nat)
    requires 0 < snapshot && ratio' <= ratio
    ensures Unfilled(base, ratio', snapshot) <= Unfilled(base, ratio, snapshot)
    ensures Credited(base, ratio, snapshot) <= Credited(base, ratio', snapshot)
  {
    MulLe(0, base, ratio');
    MulLe(ratio', ratio, base);
    FloorMono(base * ratio', base * ratio, snapshot);
    CeilIff(base * ratio', snapshot, CeilDiv(base * ratio, snapshot));
  }

  /** A tick's new orders become its part-filled cohort, its part-filled cohort is complete. */
  lemma PhaseAdvances(a: Account, t: Tick, t': Tick, q: Quote)
    requires q.Valid() && AccountInv(a, t, q) && t'.phase == t.phase + 1 && t'.ratio <= Q64
    ensures AccountInv(a, t', q)
  {
    hide Quote.Out, Quote.Num, Quote.Den, Unfilled, Credited;
    if a.order.phase == t.phase {
      ClaimRange(a.order.base, t'.ratio, a.order.snapshot);
    }
  }

  /** The truncated ratio after a match: the claims stay within what is left, and at most one
      unit of ratio is lost on the cohort's weight. */
  lemma DrainRatio(ratio: nat, r: nat, r': nat, w: real)
    requires r' < r && 0.0 <= w && ratio as real * w <= r as real
    ensures Scale(ratio, r', r) <= ratio
    ensures var scaled := Scale(ratio, r', r) as real;
            && scaled * w <= r' as real
            && r' as real - scaled * w <= r as real - ratio as real * w + w
  {
    MulLe(0, ratio, r');
    MulLe(r', r, ratio);
    var scaled := Scale(ratio, r', r);
    DivBounds(ratio * r', r);
    FloorIff(ratio * r', r, ratio + 1);
    Expand(scaled, r);
    ScaledClaims(ratio, r, r', scaled, w);
  }

  lemma ScaledClaims(ratio: nat, r: nat, r': nat, scaled: nat, w: real)
    requires 0 < r && r' < r && 0.0 <= w && ratio as real * w <= r as real
    requires scaled * r <= ratio * r' < (scaled + 1) * r
    ensures scaled as real * w <= r' as real
    ensures r' as real - scaled as real * w <= r as real - ratio as real * w + w
  {
    ProductCast(scaled, r);
    ProductCast(ratio, r');
    ProductCast(scaled + 1, r);
    RealClaims(ratio as real, r as real, r' as real, scaled as real, w);
  }

  lemma ProductCast(x: int, y: int)
    ensures (x * y) as real == x as real * y as real
  {}

  lemma RealClaims(p: real, r: real, r': real, scaled: real, w: real)
    requires 0.0 < r && 0.0 <= r' <= r && 0.0 <= w && p * w <= r
    requires scaled * r <= p * r' <= (scaled + 1.0) * r
    ensures scaled * w <= r'
    ensures r' - scaled * w <= r - p * w + w
  {
    RealBound(scaled, p, r, r', w);
    // (p - scaled - 1) * w * r <= p * w * (r - r') <= r * (r - r')
    var lost, g := p - (scaled + 1.0), r - r';
    LostProducts(p, scaled, r, r', w);
    assert lost * r <= p * g;
    RealBound(lost, p, r, g, w);
  }

  lemma LostProducts(p: real, scaled: real, r: real, r': real, w: real)
    ensures (p - (scaled + 1.0)) * r == p * r - (scaled + 1.0) * r
    ensures p * (r - r') == p * r - p * r'
    ensures (p - (scaled + 1.0)) * w == p * w - scaled * w - w
  {
    RealDistribute(r, p, scaled + 1.0);
    RealDistribute(p, r, r');
    RealDistribute(w, p, scaled + 1.0);
    RealDistribute(w, scaled, 1.0);
  }

  lemma RealBound(lost: real, p: real, r: real, g: real, w: real)
    requires 0.0 < r && 0.0 <= g && 0.0 <= w && p * w <= r && lost * r <= p * g
    ensures lost * w <= g
  {
    RealMulLe(lost * r, p * g, w);
    RealSwap(lost, r, w);
    RealSwap(p, g, w);
    CancelChain(lost * w, p * w, r, g);
  }

  lemma CancelChain(x: real, y: real, r: real, g: real)
    requires 0.0 < r && 0.0 <= g && y <= r && x * r <= y * g
    ensures x <= g
  {
    RealMulLe(y, r, g);
    RealDistribute(r, g, 0.0);
    RealCancelLe(x, g, r);
  }

  lemma RealSwap(x: real, y: real, z: real)
    ensures (x * y) * z == (x * z) * y
  {}

  lemma RealDistribute(x: real, y: real, z: real)
    ensures x * (y - z) == x * y - x * z
    ensures x * (y + z) == x * y + x * z
    ensures (y - z) * x == y * x - z * x
    ensures (y + z) * x == y * x + z * x
    ensures x * y == y * x
  {}

  lemma RealMulLe(x: real, y: real, z: real)
    requires x <= y && 0.0 <= z
    ensures x * z <= y * z
  {}

  lemma RealCancelLe(x: real, y: real, z: real)
    requires 0.0 < z && x * z <= y * z
    ensures x <= y
  {}

  lemma DrainKeepsCore(s: State, q: Quote, c: nat)
    requires Core(s, q) && 0 < c <= s.tick.remaining
    ensures Core(ConsumeState(s, c), q)
  {
    hide AccountInv, Sum, Weight, Scale, Of, PartFilledInv;
    var s' := ConsumeState(s, c);
    DrainKeepsPartFilled(s, c);
    forall i | 0 <= i < |s'.accounts|
      ensures Sound(s'.accounts[i], s', q)
    {
      var a := s.accounts[i];
      assert Sound(a, s, q);
      RatioFalls(a, s.tick, s'.tick, q.Facing(a.zeroForOne));
    }
    forall j | 0 <= j < |s'.cohorts|
      ensures CohortInv(s', j)
    {
      assert CohortInv(s, j);
    }
  }

  lemma DrainKeepsPartFilled(s: State, c: nat)
    requires 0 < s.tick.phase == |s.cohorts| && PartFilledInv(s) && 0 < c <= s.tick.remaining
    ensures PartFilledInv(ConsumeState(s, c)) && ConsumeState(s, c).tick.ratio <= s.tick.ratio
  {
    hide Sum, Weight, Scale;
    var k := s.tick.phase - 1;
    WeightNonNegative(s.accounts, k);
    DrainRatio(s.tick.ratio, s.tick.remaining, s.tick.remaining - c, Weight(s.accounts, k));
    MoreMatches(s.cohorts[k].matches, s.cohorts[k].size as real / Q64 as real);
  }

  lemma MoreMatches(n: nat, x: real)
    ensures (n + 1) as real * x == n as real * x + x
  {}

  lemma {:induction false} FreshCohort(accounts: seq<Account>, t: Tick, q: Quote, k: nat)
    requires q.Valid() && k == t.phase
    requires forall i :: 0 <= i < |accounts| ==> AccountInv(accounts[i], t, q.Facing(accounts[i].zeroForOne))
    ensures Sum(accounts, k, Credit) == Sum(accounts, k, Base)
    ensures Weight(accounts, k) == Sum(accounts, k, Base) as real / Q64 as real
    decreases |accounts|
  {
    if accounts != [] {
      hide AccountInv, Of, WeightOf;
      FreshAccount(accounts[|accounts| - 1], t, q.Facing(accounts[|accounts| - 1].zeroForOne));
      FreshCohort(accounts[..|accounts| - 1], t, q, k);
    }
  }

  lemma FreshAccount(a: Account, t: Tick, q: Quote)
    requires q.Valid() && AccountInv(a, t, q)
    ensures a.order.phase == t.phase ==>
              Of(Credit, a) == Of(Base, a) && WeightOf(a.order) == Of(Base, a) as real / Q64 as real
  {}

  /** The first match of a cohort of `size` units with `left` unfilled. */
  lemma FirstRatio(size: nat, left: nat)
    requires 0 < size && left <= size
    ensures Scale(Q64, left, size) <= Q64
    ensures var scaled, w := Scale(Q64, left, size) as real, size as real / Q64 as real;
            scaled * w <= left as real && left as real - scaled * w < w
  {
    var scaled := Scale(Q64, left, size);
    DivBounds(Q64 * left, size);
    MulLe(left, size, Q64);
    FloorIff(Q64 * left, size, Q64 + 1);
    assert (scaled * size) as real == scaled as real * size as real;
    assert scaled as real * (size as real / Q64 as real) == (scaled * size) as real / Q64 as real;
  }

  lemma AdvanceKeepsCore(s: State, q: Quote, c: nat)
    requires Core(s, q) && s.tick.remaining == 0 && 0 < c <= s.tick.orders
    ensures Core(ConsumeState(s, c), q)
  {
    hide Scale, Sum, Weight, Of, AccountInv, PartFilledInv;
    var s' := ConsumeState(s, c);
    var k := s.tick.phase;
    FirstRatio(s.tick.orders, s.tick.orders - c);
    forall i | 0 <= i < |s'.accounts|
      ensures AccountInv(s.accounts[i], s.tick, q.Facing(s.accounts[i].zeroForOne))
      ensures s.accounts[i].order.phase < k + 1
      ensures Sound(s'.accounts[i], s', q)
    {
      AdvanceKeepsSound(s, q, c, i);
    }
    FreshCohort(s.accounts, s.tick, q, k);
    SumEmptyCohort(s'.accounts, k + 1, Base);
    AdvancePartFilled(s, c);
    forall j | 0 <= j < |s'.cohorts|
      ensures CohortInv(s', j)
    {
      if j < k { assert CohortInv(s, j); }
    }
  }

  lemma AdvanceKeepsSound(s: State, q: Quote, c: nat, i: nat)
    requires Core(s, q) && s.tick.remaining == 0 && 0 < c <= s.tick.orders && i < |s.accounts|
    ensures AccountInv(s.accounts[i], s.tick, q.Facing(s.accounts[i].zeroForOne))
    ensures s.accounts[i].order.phase < s.tick.phase + 1
    ensures Sound(s.accounts[i], ConsumeState(s, c), q)
  {
    hide Scale, Sum, Weight, Of, AccountInv, PartFilledInv, CohortInv;
    var a, s' := s.accounts[i], ConsumeState(s, c);
    assert Sound(a, s, q);
    AccountFacts(s, q, i);
    FirstRatio(s.tick.orders, s.tick.orders - c);
    PhaseAdvances(a, s.tick, s'.tick, q.Facing(a.zeroForOne));
  }

  /** The new cohort holds what is left of the orders, in the weight of all of them. */
  lemma AdvancePartFilled(s: State, c: nat)
    requires s.tick.phase == |s.cohorts| < U64_MAX && s.tick.remaining == 0 && 0 < c <= s.tick.orders
    requires Sum(s.accounts, s.tick.phase, Credit) == s.tick.orders
    requires Weight(s.accounts, s.tick.phase) == s.tick.orders as real / Q64 as real
    ensures PartFilledInv(ConsumeState(s, c))
  {
    hide Scale, Sum, Weight;
    FirstRatio(s.tick.orders, s.tick.orders - c);
  }

  lemma ConsumeComposes(s: State, c: nat)
    requires s.tick.remaining < c <= s.tick.remaining + s.tick.orders
    requires s.tick.remaining > 0
    ensures var s1 := ConsumeState(s, s.tick.remaining);
            && s1.tick.remaining == 0 && s1.tick.orders == s.tick.orders
            && ConsumeState(s, c) == ConsumeState(s1, c - s.tick.remaining)
  {
    hide Scale;
  }

  lemma ConsumeKeepsCore(s: State, q: Quote, c: nat)
    requires Core(s, q) && c <= s.tick.remaining + s.tick.orders
    ensures Core(ConsumeState(s, c), q)
  {
    hide Core, Consume, Book;
    if c == 0 {
      assert ConsumeState(s, 0) == s by { NothingConsumed(s.tick); NothingBooked(s.cohorts, s.tick, s.Above()); }
    } else if c <= s.tick.remaining {
      DrainKeepsCore(s, q, c);
    } else if s.tick.remaining == 0 {
      AdvanceKeepsCore(s, q, c);
    } else {
      DrainKeepsCore(s, q, s.tick.remaining);
      ConsumeComposes(s, c);
      AdvanceKeepsCore(ConsumeState(s, s.tick.remaining), q, c - s.tick.remaining);
    }
  }

  lemma NothingBooked(cohorts: seq<Cohort>, t: Tick, zeroForOne: bool)
    ensures Book(cohorts, t, zeroForOne, 0) == cohorts
  {}

  lemma BookAddsUp(cohorts: seq<Cohort>, t: Tick, zeroForOne: bool, c: nat, d: bool)
    requires c <= t.remaining + t.orders
             && (t.remaining > 0 ==> cohorts != [] && cohorts[|cohorts| - 1].zeroForOne == zeroForOne)
    ensures Consumed(Book(cohorts, t, zeroForOne, c), d) == Consumed(cohorts, d) + if d == zeroForOne then c else 0
  {
    var first := Min(t.remaining, c);
    if first > 0 {
      var last := |cohorts| - 1;
      var booked := cohorts[last := cohorts[last].(consumed := cohorts[last].consumed + first,
          matches := cohorts[last].matches + 1)];
      assert booked[..last] == cohorts[..last];
      assert Consumed(booked, d) == Consumed(cohorts, d) + if d == zeroForOne then first else 0;
      assert (booked + [Cohort(zeroForOne, t.orders, c - first, 0, 1)])[..|booked|] == booked;
    } else {
      assert (cohorts + [Cohort(zeroForOne, t.orders, c - first, 0, 1)])[..|cohorts|] == cohorts;
    }
  }

  /** A match keeps the units, in whichever direction it goes. */
  lemma MatchKeepsCore(s: State, q: Quote, swapAmount: nat, baseInput: bool, feeRate: nat, feeOnInput: bool)
    requires Core(s, q) && DoMatch(s, q, swapAmount, baseInput, feeRate, feeOnInput).Some?
    ensures Core(DoMatch(s, q, swapAmount, baseInput, feeRate, feeOnInput).value, q)
  {
    hide MatchAmounts, Consume, Book, Quote.Out, Quote.Num, Quote.Den, Core, Sum;
    CoreValid(s, q);
    var available, facing := s.tick.remaining + s.tick.orders, q.Facing(s.Above());
    var m := MatchAmounts(available, facing, swapAmount, baseInput, feeRate, feeOnInput).value;
    MatchCoversOrders(available, facing, swapAmount, baseInput, feeRate, feeOnInput);
    ConsumeKeepsCore(s, q, m.gross);
    CoreFrame(ConsumeState(s, m.gross), q, Taking(s, m.gross, m.amountIn).received,
        Taking(s, m.gross, m.amountIn).vault);
  }

  lemma MatchKeepsInv(s: State, q: Quote, swapAmount: nat, baseInput: bool, feeRate: nat, feeOnInput: bool)
    requires Inv(s, q) && DoMatch(s, q, swapAmount, baseInput, feeRate, feeOnInput).Some?
    ensures Inv(DoMatch(s, q, swapAmount, baseInput, feeRate, feeOnInput).value, q)
  {
    hide MatchAmounts, Consume, Book, Quote.Out, Quote.Num, Quote.Den, Core, Directed, Ledger, Sum;
    CoreValid(s, q);
    CohortsArePhases(s, q);
    var available, facing := s.tick.remaining + s.tick.orders, q.Facing(s.Above());
    var m := MatchAmounts(available, facing, swapAmount, baseInput, feeRate, feeOnInput).value;
    MatchCoversOrders(available, facing, swapAmount, baseInput, feeRate, feeOnInput);
    MatchKeepsCore(s, q, swapAmount, baseInput, feeRate, feeOnInput);
    TakingKeepsDirected(s, q, m.gross, m.amountIn);
    TakingKeepsLedger(s, q, m.gross, m.amountIn);
  }

  lemma TakingKeepsDirected(s: State, q: Quote, gross: nat, amountIn: nat)
    requires Core(s, q) && Directed(s) && gross <= s.tick.remaining + s.tick.orders
    ensures Directed(Taking(s, gross, amountIn))
  {
    hide Core, Of, Scale;
    PhasesLeft(s, q);
    var s' := Taking(s, gross, amountIn);
    BookDirections(s, gross);
    forall i | 0 <= i < |s'.accounts|
      ensures OneWay(s', s'.accounts[i])
    {
      assert OneWay(s, s.accounts[i]);
    }
  }

  lemma PhasesLeft(s: State, q: Quote)
    requires Core(s, q)
    ensures s.tick.phase == U64_MAX ==> s.tick.orders == 0
    ensures s.tick.phase == |s.cohorts| <= U64_MAX && (s.tick.phase == 0 ==> s.tick.remaining == 0)
  {
    hide Sound, Sum, CohortInv, PartFilledInv;
  }

  /** Booking leaves the directions of the phases alone; the next phase goes the way the price is. */
  lemma BookDirections(s: State, c: nat)
    requires c <= s.tick.remaining + s.tick.orders && s.tick.phase == |s.cohorts| <= U64_MAX
    requires (s.tick.phase == U64_MAX ==> s.tick.orders == 0) && (s.tick.phase == 0 ==> s.tick.remaining == 0)
    ensures var s' := ConsumeState(s, c);
            && s'.tick.phase == |s'.cohorts| >= s.tick.phase
            && (forall k: nat :: k <= s.tick.phase ==> s'.Direction(k) == s.Direction(k))
            && (s'.tick.remaining > 0 ==>
                  if s'.tick.phase == s.tick.phase then s.tick.remaining > 0
                  else s'.cohorts[|s'.cohorts| - 1].zeroForOne == s.Above())
  {
    hide Scale;
  }

  lemma TakingKeepsLedger(s: State, q: Quote, gross: nat, amountIn: nat)
    requires Inv(s, q) && gross <= s.tick.remaining + s.tick.orders
    requires gross * q.Facing(s.Above()).Num() <= amountIn * q.Facing(s.Above()).Den()
    ensures Ledger(Taking(s, gross, amountIn), q)
  {
    hide Core, OneWay, Balanced, Received, Quote.Num, Quote.Den, Consume, Book;
    CoreValid(s, q);
    forall d
      ensures Balanced(Taking(s, gross, amountIn), d) && Received(Taking(s, gross, amountIn), q, d)
    {
      TakingBalanced(s, gross, amountIn, d);
      TakingReceived(s, q, gross, amountIn, d);
    }
  }

  lemma TakingBalanced(s: State, gross: nat, amountIn: nat, d: bool)
    requires Balanced(s, d) && gross <= s.tick.remaining + s.tick.orders
    requires s.tick.remaining > 0 ==> s.cohorts != [] && s.cohorts[|s.cohorts| - 1].zeroForOne == s.Above()
    ensures Balanced(Taking(s, gross, amountIn), d)
  {
    hide Held, TotalPaid, Consume, Book;
    TakingHeld(s, gross, d);
    assert Held(Taking(s, gross, amountIn), d)
           == Held(s.(tick := Consume(s.tick, gross), cohorts := Book(s.cohorts, s.tick, s.Above(), gross)), d)
               by { HeldFrame(s, gross, amountIn, d); }
  }

  lemma HeldFrame(s: State, gross: nat, amountIn: nat, d: bool)
    requires gross <= s.tick.remaining + s.tick.orders
    ensures Held(Taking(s, gross, amountIn), d)
            == Held(s.(tick := Consume(s.tick, gross), cohorts := Book(s.cohorts, s.tick, s.Above(), gross)), d)
  {
    hide Consume, Book;
  }

  lemma TakingReceived(s: State, q: Quote, gross: nat, amountIn: nat, d: bool)
    requires q.Valid() && Received(s, q, d) && gross <= s.tick.remaining + s.tick.orders
    requires s.tick.remaining > 0 ==> s.cohorts != [] && s.cohorts[|s.cohorts| - 1].zeroForOne == s.Above()
    requires gross * q.Facing(s.Above()).Num() <= amountIn * q.Facing(s.Above()).Den()
    ensures Received(Taking(s, gross, amountIn), q, d)
  {
    hide Consumed, Quote.Num, Quote.Den, Consume, Book;
    BookAddsUp(s.cohorts, s.tick, s.Above(), gross, d);
    if d == s.Above() {
      AddCovered(Consumed(s.cohorts, d), gross, q.Facing(d).Num(), s.received.Out(d), amountIn, q.Facing(d).Den());
    }
  }

  lemma AddCovered(consumed: int, gross: int, num: int, received: int, amountIn: int, den: int)
    requires consumed * num <= received * den && gross * num <= amountIn * den
    ensures (consumed + gross) * num <= (received + amountIn) * den
  {
    Distribute(num, consumed, gross);
    Distribute(den, received, amountIn);
  }

  /** A match takes from what the queue holds in its direction. */
  lemma TakingHeld(s: State, gross: nat, d: bool)
    requires gross <= s.tick.remaining + s.tick.orders
    requires s.tick.remaining > 0 ==> s.cohorts != [] && s.cohorts[|s.cohorts| - 1].zeroForOne == s.Above()
    ensures Held(s.(tick := Consume(s.tick, gross), cohorts := Book(s.cohorts, s.tick, s.Above(), gross)), d)
            == Held(s, d) - if d == s.Above() then gross else 0
  {
    hide Scale;
  }

  // ---- Decreasing ----

  /** What is withdrawn is taken from what the queue holds in the order's direction. */
  lemma WithdrawingKeepsLedger(s: State, q: Quote, i: nat, b: Account, t: Tick, amount: nat)
    requires q.Valid() && Ledger(s, q) && i < |s.accounts|
    requires b.zeroForOne == s.accounts[i].zeroForOne && b.paid == s.accounts[i].paid
    requires forall d :: Held(Withdrawing(s, i, b, t, amount), d) == Held(s, d) - if d == b.zeroForOne then amount
             else 0
    ensures Ledger(Withdrawing(s, i, b, t, amount), q)
  {
    hide TotalPaid, Consumed, Quote.Num, Quote.Den, Held;
    var s' := Withdrawing(s, i, b, t, amount);
    var k := s.accounts[i].order.phase;
    forall d
      ensures Balanced(s', d) && Received(s', q, d)
    {
      assert Balanced(s, d) && Received(s, q, d);
      PaidUpdate(s.accounts, i, b, !d);
      if k < |s.cohorts| { ConsumedUnchanged(s.cohorts, k, s'.cohorts[k], d); }
    }
  }

  /** An unmatched order gives back what it holds. */
  lemma DecreaseFreshKeepsCore(s: State, q: Quote, i: nat, d: Decreased)
    requires Core(s, q) && i < |s.accounts| && s.accounts[i].order.phase == s.tick.phase
    requires var o := s.accounts[i].order;
             && d.amount <= Min(o.base, s.tick.orders)
             && d.order == o.(total := o.total - d.amount, base := o.base - d.amount)
             && d.tick == s.tick.(orders := s.tick.orders - d.amount)
    ensures Core(Withdrawing(s, i, CloseSegment(s.accounts[i], d), d.tick, d.amount), q)
  {
    hide Quote.Out, Quote.Num, Quote.Den, Sum, Weight, WeightOf;
    var s' := Withdrawing(s, i, CloseSegment(s.accounts[i], d), d.tick, d.amount);
    var a, b := s.accounts[i], s'.accounts[i];
    assert Sound(a, s, q);
    assert Sound(b, s', q) by { OutMonotone(q.Facing(a.zeroForOne), b.order.base, a.order.base); }
    SumUpdate(s.accounts, i, b, s.tick.phase, Base);
    hide AccountInv;
    forall j | 0 <= j < |s'.accounts|
      ensures Sound(s'.accounts[j], s', q)
    {
      if j != i { SoundFrame(s.accounts[j], s, s', q); }
    }
    forall k | 0 <= k < |s.cohorts|
      ensures CohortInv(s', k)
    {
      assert CohortInv(s, k);
      SumUpdate(s.accounts, i, b, k, Credit);
    }
    if s.tick.phase > 0 {
      WeightUpdate(s.accounts, i, b, s.tick.phase - 1);
      SumUpdate(s.accounts, i, b, s.tick.phase - 1, Credit);
    }
  }

  /** What an unmatched order's decrease takes, and what it leaves. */
  lemma DecreaseFreshShape(s: State, q: Quote, i: nat, amount: nat)
    requires Core(s, q) && i < |s.accounts| && s.accounts[i].order.phase == s.tick.phase
    requires DoDecrease(s, q, i, amount).Some?
    requires Decrease(s.accounts[i].order, s.tick, q.Facing(s.accounts[i].zeroForOne), amount).value.amount > 0
    ensures var a := s.accounts[i];
            var d := Decrease(a.order, s.tick, q.Facing(a.zeroForOne), amount).value;
            && d.amount <= Min(a.order.base, s.tick.orders)
            && d.order == a.order.(total := a.order.total - d.amount, base := a.order.base - d.amount)
            && d.tick == s.tick.(orders := s.tick.orders - d.amount)
            && DoDecrease(s, q, i, amount).value == Withdrawing(s, i, CloseSegment(a, d), d.tick, d.amount)
            && CloseSegment(a, d) == a.(order := d.order, withdrawn := a.withdrawn + d.amount)
            && Of(Credit, a) > 0 && Of(Credit, CloseSegment(a, d)) <= Of(Credit, a)
  {
    hide Quote.Out, Quote.Num, Quote.Den, Sum, CohortInv, PartFilledInv, AmountAllowed;
    var a := s.accounts[i];
    assert Sound(a, s, q);
    assert Paying(s, i, a) == s;
    SumPoint(s.accounts, i, Base);
  }

  lemma DecreaseFreshKeepsInv(s: State, q: Quote, i: nat, amount: nat)
    requires Inv(s, q) && i < |s.accounts| && s.accounts[i].order.phase == s.tick.phase
    requires DoDecrease(s, q, i, amount).Some?
    requires Decrease(s.accounts[i].order, s.tick, q.Facing(s.accounts[i].zeroForOne), amount).value.amount > 0
    ensures Inv(DoDecrease(s, q, i, amount).value, q)
  {
    hide Core, Directed, Ledger, Decrease, DoDecrease, CloseSegment, Of;
    CoreValid(s, q);
    CohortsArePhases(s, q);
    var a := s.accounts[i];
    DecreaseGoes(s, q, i, amount);
    var d := Decrease(a.order, s.tick, q.Facing(a.zeroForOne), amount).value;
    DecreaseFreshShape(s, q, i, amount);
    DecreaseFreshKeepsCore(s, q, i, d);
    OneWayAt(s, i);
    WithdrawingKeepsLedger(s, q, i, CloseSegment(a, d), d.tick, d.amount);
    ReplaceDirected(s, DoDecrease(s, q, i, amount).value, i, CloseSegment(a, d));
  }

  lemma OneWayAt(s: State, i: nat)
    requires Directed(s) && i < |s.accounts|
    ensures OneWay(s, s.accounts[i])
    ensures s.tick.remaining > 0 ==> s.cohorts != [] && s.cohorts[|s.cohorts| - 1].zeroForOne == s.Above()
  {}

  /** The order's exact claim base * ratio / snapshot lies between its floor and its ceiling, and
      is part of the cohort's. */
  lemma ClaimWithinCohort(s: State, q: Quote, i: nat)
    requires Core(s, q) && i < |s.accounts| && s.accounts[i].order.phase + 1 == s.tick.phase
    ensures var o := s.accounts[i].order;
            && o.snapshot > 0
            && var claim := s.tick.ratio as real * WeightOf(o);
               && Unfilled(o.base, s.tick.ratio, o.snapshot) as real <= claim
               && claim <= (o.base - Credited(o.base, s.tick.ratio, o.snapshot)) as real
               && claim <= s.tick.ratio as real * Weight(s.accounts, s.tick.phase - 1) <= s.tick.remaining as real
               && Unfilled(o.base, s.tick.ratio, o.snapshot) <= s.tick.remaining
  {
    hide Weight, Core, AccountInv, Unfilled, Credited, WeightOf, Of;
    var o := s.accounts[i].order;
    AccountFacts(s, q, i);
    PartFilledCovers(s, q);
    WeightPoint(s.accounts, i);
    ExactClaim(o.base, s.tick.ratio, o.snapshot);
    WeightIs(o);
    Chain(Unfilled(o.base, s.tick.ratio, o.snapshot), s.tick.ratio as real, WeightOf(o),
        Weight(s.accounts, s.tick.phase - 1), s.tick.remaining);
  }

  lemma PartFilledCovers(s: State, q: Quote)
    requires Core(s, q) && s.tick.phase > 0
    ensures s.tick.ratio as real * Weight(s.accounts, s.tick.phase - 1) <= s.tick.remaining as real
  {
    hide Weight, Sum, Sound, CohortInv;
  }

  lemma WeightIs(o: Order)
    requires o.snapshot > 0
    ensures WeightOf(o) == o.base as real / o.snapshot as real
  {}

  lemma Chain(left: nat, ratio: real, w: real, total: real, remaining: nat)
    requires left as real <= ratio * w && w <= total && 0.0 <= ratio && ratio * total <= remaining as real
    ensures ratio * w <= ratio * total && left <= remaining
  {
    RealMulLe(w, total, ratio);
  }

  lemma ExactClaim(base: nat, ratio: nat, snapshot: nat)
    requires 0 < snapshot
    ensures var claim := ratio as real * (base as real / snapshot as real);
            Unfilled(base, ratio, snapshot) as real <= claim <= (base - Credited(base, ratio, snapshot)) as real
  {
    MulLe(0, base, ratio);
    var lo, hi := Unfilled(base, ratio, snapshot), base - Credited(base, ratio, snapshot);
    DivBounds(base * ratio, snapshot);
    assert (lo * snapshot) as real == lo as real * snapshot as real;
    assert (hi * snapshot) as real == hi as real * snapshot as real;
    assert (base * ratio) as real == base as real * ratio as real;
    RealQuotient(base as real, ratio as real, snapshot as real, lo as real, hi as real);
  }

  lemma RealQuotient(b: real, p: real, d: real, lo: real, hi: real)
    requires 0.0 < d && lo * d <= b * p <= hi * d
    ensures lo <= p * (b / d) <= hi
  {
    var x := b / d;
    assert x * d == b;
    RealAssoc3(p, x, d);
    assert (p * x) * d == p * b;
    RealCancelLe(lo, p * x, d);
    RealCancelLe(p * x, hi, d);
  }

  lemma RealAssoc3(x: real, y: real, z: real)
    ensures (x * y) * z == x * (y * z)
  {}

  /** What a decrease does to the account it closes a segment of. */
  lemma DecreaseShape(a: Account, t: Tick, q: Quote, amount: nat)
    requires q.Valid() && AccountInv(a, t, q) && a.order.phase + 1 == t.phase <= U64_MAX
    requires Decrease(a.order, t, q, amount).Ok? && Decrease(a.order, t, q, amount).value.amount > 0
    ensures SettleAccount(a, t, q).Ok?
    ensures var d, settled := Decrease(a.order, t, q, amount).value, SettleAccount(a, t, q).value;
            var left := Unfilled(a.order.base, t.ratio, a.order.snapshot);
            && AccountInv(settled, t, q)
            && d.amount == Min(Min(amount, left), t.remaining)
            && d.tick == t.(remaining := t.remaining - d.amount)
            && d.order == settled.order.(total := settled.order.total - d.amount, base := left - d.amount,
               snapshot := t.ratio, settled := 0)
            && settled == a.(order := settled.order, units := Credited(a.order.base, t.ratio, a.order.snapshot),
               paid := settled.paid)
            && settled.order == a.order.(filled := settled.order.filled, settled := settled.order.settled)
            && settled.order.total - settled.order.filled == left
  {
    hide Quote.Out, Quote.Num, Quote.Den, Unfilled, Credited, AccountInv, AmountAllowed;
    SettleAccountInv(a, t, q);
    SettlePartFilled(a, t, q);
  }

  lemma CloseSegmentInv(a: Account, t: Tick, q: Quote, amount: nat)
    requires q.Valid() && AccountInv(a, t, q) && a.order.phase + 1 == t.phase <= U64_MAX
    requires Decrease(a.order, t, q, amount).Ok? && Decrease(a.order, t, q, amount).value.amount > 0
    ensures SettleAccount(a, t, q).Ok?
    ensures var d := Decrease(a.order, t, q, amount).value;
            var b := CloseSegment(SettleAccount(a, t, q).value, d);
            var left, units := Unfilled(a.order.base, t.ratio, a.order.snapshot),
                Credited(a.order.base, t.ratio, a.order.snapshot);
            && AccountInv(b, d.tick, q)
            && d.amount == Min(Min(amount, left), t.remaining)
            && d.tick == t.(remaining := t.remaining - d.amount)
            && b.order.phase == a.order.phase && b.order.base == left - d.amount && b.order.snapshot == t.ratio > 0
            && Of(Credit, b) == Of(Credit, a) - d.amount - (a.order.base - units - left)
  {
    hide Quote.Out, Quote.Num, Quote.Den, Unfilled, Credited, Decrease, SettleAccount;
    DecreaseShape(a, t, q, amount);
    var d, settled := Decrease(a.order, t, q, amount).value, SettleAccount(a, t, q).value;
    var left, units := Unfilled(a.order.base, t.ratio, a.order.snapshot),
        Credited(a.order.base, t.ratio, a.order.snapshot);
    ClaimRange(a.order.base, t.ratio, a.order.snapshot);
    SomethingLeft(a.order.base, t.ratio, a.order.snapshot);
    OutMonotone(q, 0, left - d.amount);
    OutMonotone(q, left - d.amount, a.order.base);
    OutMonotone(q, units, units);
    AtSnapshot(left - d.amount, t.ratio);
    ClosePays(a.closedUnits, a.closedPaid, a.segments - 1, units, q.Out(units), q.Num(), q.Den());
  }

  lemma SomethingLeft(base: nat, ratio: nat, snapshot: nat)
    requires 0 < snapshot && Unfilled(base, ratio, snapshot) > 0
    ensures ratio > 0
  {
    MulLe(0, base, ratio);
    FloorIff(base * ratio, snapshot, 1);
  }

  lemma AtSnapshot(base: nat, ratio: nat)
    requires 0 < ratio
    ensures Unfilled(base, ratio, ratio) == base && Credited(base, ratio, ratio) == 0
  {
    MulLe(0, base, ratio);
    DivBounds(base * ratio, ratio);
    FloorIff(base * ratio, ratio, base);
    FloorIff(base * ratio, ratio, base + 1);
    CeilIff(base * ratio, ratio, base);
    CeilIff(base * ratio, ratio, base - 1);
    Expand(base, ratio);
  }

  /** The weight after a segment closes with `left` units restarting at the current ratio. */
  lemma CloseWeight(ratio: nat, w: real, weight: real, claim: real, left: nat, d: nat, dust: nat)
    requires 0 < ratio && claim == ratio as real * weight && d <= left
    requires left as real <= claim <= left as real + dust as real
    ensures var w' := w + ((left - d) as real / ratio as real - weight);
            && w' <= w
            && ratio as real * w' <= ratio as real * w - d as real
            && ratio as real * w - d as real - ratio as real * w' <= dust as real
  {
    var p, x := ratio as real, (left - d) as real / ratio as real;
    assert p * x == (left - d) as real;
    RealDistribute(p, x, weight);
    RealDistribute(p, w, x - weight);
    RealDistribute(p, x, 0.0);
    RealDistribute(p, weight, 0.0);
    RealCancelLe(x, weight, p);
  }

  /** An account restarting at the current ratio after `d` of its `left` units are withdrawn. */
  predicate Restarts(s: State, i: nat, b: Account, left: nat, d: nat, dust: nat)
    requires i < |s.accounts|
  {
    var a := s.accounts[i];
    && a.order.snapshot > 0
    && b.zeroForOne == a.zeroForOne && b.order.phase == a.order.phase && a.order.phase + 1 == s.tick.phase
       && a.order.phase < |s.cohorts|
    && b.order.base == left - d && b.order.snapshot == s.tick.ratio > 0
    && d <= left && d <= s.tick.remaining
    && Of(Credit, b) == Of(Credit, a) - d - dust
    && left as real <= s.tick.ratio as real * WeightOf(a.order) <= left as real + dust as real
  }

  /** The tick and the cohort both give up the withdrawn units. */
  function Restarted(s: State, i: nat, b: Account, d: nat): State
    requires i < |s.accounts| && b.order.phase < |s.cohorts| && d <= s.tick.remaining
  {
    var k := b.order.phase;
    s.(tick := s.tick.(remaining := s.tick.remaining - d), accounts := s.accounts[i := b],
       cohorts := s.cohorts[k := s.cohorts[k].(withdrawn := s.cohorts[k].withdrawn + d)])
  }

  lemma RestartKeepsPartFilled(s: State, i: nat, b: Account, left: nat, d: nat, dust: nat)
    requires i < |s.accounts| && Restarts(s, i, b, left, d, dust)
    requires s.tick.phase == |s.cohorts| && PartFilledInv(s)
    ensures PartFilledInv(Restarted(s, i, b, d))
  {
    hide Sum, Weight, Of;
    var a, k := s.accounts[i], s.tick.phase - 1;
    CloseWeight(s.tick.ratio, Weight(s.accounts, k), WeightOf(a.order), s.tick.ratio as real * WeightOf(a.order), left,
        d, dust);
    SumUpdate(s.accounts, i, b, k, Credit);
    WeightUpdate(s.accounts, i, b, k);
  }

  lemma RestartKeepsCore(s: State, q: Quote, i: nat, b: Account, left: nat, d: nat, dust: nat)
    requires Core(s, q) && i < |s.accounts| && Restarts(s, i, b, left, d, dust)
    requires AccountInv(b, s.tick.(remaining := s.tick.remaining - d), q.Facing(b.zeroForOne))
    ensures Core(Restarted(s, i, b, d), q)
  {
    hide Sum, Of, AccountInv, PartFilledInv, WeightOf;
    var s' := Restarted(s, i, b, d);
    RestartKeepsPartFilled(s, i, b, left, d, dust);
    SumUpdate(s.accounts, i, b, s.tick.phase, Base);
    forall j | 0 <= j < |s'.accounts|
      ensures Sound(s'.accounts[j], s', q)
    {
      assert Sound(s.accounts[j], s, q);
      if j != i { SoundFrame(s.accounts[j], s, s', q); }
    }
    forall j | 0 <= j < |s'.cohorts|
      ensures CohortInv(s', j)
    {
      assert CohortInv(s, j);
      SumUpdate(s.accounts, i, b, j, Credit);
    }
  }

  lemma {:induction false} ConsumedUnchanged(cohorts: seq<Cohort>, k: nat, c: Cohort, zeroForOne: bool)
    requires k < |cohorts| && c.consumed == cohorts[k].consumed && c.zeroForOne == cohorts[k].zeroForOne
    ensures Consumed(cohorts[k := c], zeroForOne) == Consumed(cohorts, zeroForOne)
    decreases |cohorts|
  {
    var n := |cohorts| - 1;
    if k == n {
      assert cohorts[k := c][..n] == cohorts[..n];
    } else {
      assert cohorts[k := c][..n] == cohorts[..n][k := c];
      ConsumedUnchanged(cohorts[..n], k, c, zeroForOne);
    }
  }

  lemma IntoRestart(s: State, i: nat, b: Account, left: nat, units: nat, d: nat)
    requires i < |s.accounts| && s.tick.phase == |s.cohorts|
    requires var a := s.accounts[i];
             && a.order.snapshot > 0 && left + units <= a.order.base
             && b.zeroForOne == a.zeroForOne && b.order.phase == a.order.phase && a.order.phase + 1 == s.tick.phase
             && b.order.base == left - d && b.order.snapshot == s.tick.ratio > 0
             && d <= left && d <= s.tick.remaining
             && Of(Credit, b) == Of(Credit, a) - d - (a.order.base - units - left)
             && left as real <= s.tick.ratio as real * WeightOf(a.order) <= (a.order.base - units) as real
    ensures Restarts(s, i, b, left, d, s.accounts[i].order.base - units - left)
  {
    hide WeightOf, Of;
  }

  lemma AccountFacts(s: State, q: Quote, i: nat)
    requires Core(s, q) && i < |s.accounts|
    ensures var a := s.accounts[i];
            && AccountInv(a, s.tick, q.Facing(a.zeroForOne)) && s.tick.phase == |s.cohorts| <= U64_MAX
            && 0 < a.order.snapshot && (a.order.phase + 1 == s.tick.phase ==> s.tick.ratio <= a.order.snapshot)
            && a.order.phase <= s.tick.phase && (s.tick.phase == a.order.phase ==> a.order.base <= s.tick.orders)
  {
    hide Sum, Weight, CohortInv, PartFilledInv, Unfilled, Credited, Quote.Out, Quote.Num, Quote.Den;
    assert Sound(s.accounts[i], s, q);
    SumPoint(s.accounts, i, Base);
  }

  lemma ClosingRestarts(s: State, q: Quote, i: nat, amount: nat)
    requires Core(s, q) && i < |s.accounts| && s.accounts[i].order.phase + 1 == s.tick.phase
    requires var a := s.accounts[i];
             Decrease(a.order, s.tick, q.Facing(a.zeroForOne), amount).Ok?
                 && Decrease(a.order, s.tick, q.Facing(a.zeroForOne), amount).value.amount > 0
    ensures var a := s.accounts[i];
            && a.order.snapshot > 0 && SettleAccount(a, s.tick, q.Facing(a.zeroForOne)).Ok?
            && var d := Decrease(a.order, s.tick, q.Facing(a.zeroForOne), amount).value;
               var left, units := Unfilled(a.order.base, s.tick.ratio, a.order.snapshot),
                   Credited(a.order.base, s.tick.ratio, a.order.snapshot);
               var b := CloseSegment(SettleAccount(a, s.tick, q.Facing(a.zeroForOne)).value, d);
               && left + units <= a.order.base
               && Restarts(s, i, b, left, d.amount, a.order.base - units - left)
               && d.tick == s.tick.(remaining := s.tick.remaining - d.amount)
               && AccountInv(b, d.tick, q.Facing(a.zeroForOne))
               && Of(Credit, a) > 0
  {
    var a := s.accounts[i];
    hide *;
    AccountFacts(s, q, i);
    ClaimRange(a.order.base, s.tick.ratio, a.order.snapshot);
    CloseSegmentInv(a, s.tick, q.Facing(a.zeroForOne), amount);
    assert a.order.snapshot > 0 && SettleAccount(a, s.tick, q.Facing(a.zeroForOne)).Ok?;
    ClaimWithinCohort(s, q, i);
    BaseIsCredit(a);
    var d, settled := Decrease(a.order, s.tick, q.Facing(a.zeroForOne), amount).value,
        SettleAccount(a, s.tick, q.Facing(a.zeroForOne)).value;
    var left, units := Unfilled(a.order.base, s.tick.ratio, a.order.snapshot),
        Credited(a.order.base, s.tick.ratio, a.order.snapshot);
    assert CloseSegment(settled, d).zeroForOne == a.zeroForOne
        by { ClosingKeepsDirection(a, s.tick, q.Facing(a.zeroForOne), d); }
    IntoRestart(s, i, CloseSegment(settled, d), left, units, d.amount);
  }

  lemma BaseIsCredit(a: Account)
    ensures a.order.base <= Of(Credit, a)
  {}

  lemma ClosingKeepsDirection(a: Account, t: Tick, q: Quote, d: Decreased)
    requires q.Valid() && SettleAccount(a, t, q).Ok?
    ensures var settled := SettleAccount(a, t, q).value;
            && settled.zeroForOne == a.zeroForOne && CloseSegment(settled, d).zeroForOne == a.zeroForOne
            && CloseSegment(settled, d).paid == settled.paid
  {
    hide Settle, Quote.Out;
  }

  /** A part-filled order restarts from what it did not withdraw, and pays its dust once. */
  lemma DecreasePartFilledKeepsCore(s: State, q: Quote, i: nat, amount: nat)
    requires Core(s, q) && i < |s.accounts| && s.accounts[i].order.phase + 1 == s.tick.phase
    requires DoDecrease(s, q, i, amount).Some?
    requires Decrease(s.accounts[i].order, s.tick, q.Facing(s.accounts[i].zeroForOne), amount).value.amount > 0
    ensures var a := s.accounts[i];
            && SettleAccount(a, s.tick, q.Facing(a.zeroForOne)).Ok?
            && var d := Decrease(a.order, s.tick, q.Facing(a.zeroForOne), amount).value;
               var settled := SettleAccount(a, s.tick, q.Facing(a.zeroForOne)).value;
               var b, s' := CloseSegment(settled, d), DoDecrease(s, q, i, amount).value;
               && s' == Withdrawing(Paying(s, i, settled), i, b, d.tick, d.amount)
               && d.tick == s.tick.(remaining := s.tick.remaining - d.amount) && d.amount <= s.tick.remaining
               && settled.zeroForOne == b.zeroForOne == a.zeroForOne && b.paid == settled.paid
               && settled.order.phase == b.order.phase == a.order.phase
               && Of(Credit, b) <= Of(Credit, a) && Of(Credit, a) > 0
               && Core(s', q)
  {
    hide Quote.Out, Quote.Num, Quote.Den, Sum, Weight, WeightOf, Unfilled, Credited, Decrease, SettleAccount, Of,
        CloseSegment, PartFilledInv, CohortInv, AccountInv, Core;
    CoreValid(s, q);
    var a := s.accounts[i];
    var facing := q.Facing(a.zeroForOne);
    AccountFacts(s, q, i);
    ClosingRestarts(s, q, i, amount);
    var left, units := Unfilled(a.order.base, s.tick.ratio, a.order.snapshot),
        Credited(a.order.base, s.tick.ratio, a.order.snapshot);
    var d, settled := Decrease(a.order, s.tick, facing, amount).value, SettleAccount(a, s.tick, facing).value;
    var b := CloseSegment(settled, d);
    SettleAccountInv(a, s.tick, facing);
    ClosingKeepsDirection(a, s.tick, facing, d);
    RestartKeepsCore(s, q, i, b, left, d.amount, a.order.base - units - left);
    var s' := Withdrawing(Paying(s, i, settled), i, b, d.tick, d.amount);
    assert Paying(s, i, settled).accounts[i := b] == s.accounts[i := b];
    assert s' == Restarted(s, i, b, d.amount).(received := s'.received, vault := s'.vault);
    CoreFrame(Restarted(s, i, b, d.amount), q, s'.received, s'.vault);
  }

  lemma DecreasePartFilledKeepsInv(s: State, q: Quote, i: nat, amount: nat)
    requires Inv(s, q) && i < |s.accounts| && s.accounts[i].order.phase + 1 == s.tick.phase
    requires DoDecrease(s, q, i, amount).Some?
    requires Decrease(s.accounts[i].order, s.tick, q.Facing(s.accounts[i].zeroForOne), amount).value.amount > 0
    ensures Inv(DoDecrease(s, q, i, amount).value, q)
  {
    hide Core, Directed, Ledger, Decrease, DoDecrease, SettleAccount, CloseSegment, Of;
    CoreValid(s, q);
    CohortsArePhases(s, q);
    var a := s.accounts[i];
    DecreasePartFilledKeepsCore(s, q, i, amount);
    DecreaseGoes(s, q, i, amount);
    var d := Decrease(a.order, s.tick, q.Facing(a.zeroForOne), amount).value;
    var settled := SettleAccount(a, s.tick, q.Facing(a.zeroForOne)).value;
    var b, paid := CloseSegment(settled, d), Paying(s, i, settled);
    OneWayAt(s, i);
    PayingKeepsLedger(s, q, i, settled);
    WithdrawingKeepsLedger(paid, q, i, b, d.tick, d.amount);
    assert paid.accounts[i := b] == s.accounts[i := b];
    ReplaceDirected(s, DoDecrease(s, q, i, amount).value, i, b);
  }

  /** A complete order only settles. */
  lemma CompleteOnlySettles(a: Account, t: Tick, q: Quote, amount: nat)
    requires q.Valid() && AccountInv(a, t, q) && a.order.phase + 2 <= t.phase <= U64_MAX
    ensures Decrease(a.order, t, q, amount).Ok? && Decrease(a.order, t, q, amount).value.amount == 0
  {
    hide Quote.Out, Quote.Num, Quote.Den, SettleAccount, Settle, AccountInv;
    SettleAccountInv(a, t, q);
    SettleOk(a, t, q);
  }

  lemma SettleOk(a: Account, t: Tick, q: Quote)
    requires q.Valid()
    ensures SettleAccount(a, t, q).Ok? <==> Settle(a.order, t, q).Ok?
  {
    hide Settle;
  }

  /** A decrease that takes nothing out settles. */
  lemma DecreaseNothing(s: State, q: Quote, i: nat, amount: nat)
    requires q.Valid() && i < |s.accounts| && DoDecrease(s, q, i, amount).Some?
    requires Decrease(s.accounts[i].order, s.tick, q.Facing(s.accounts[i].zeroForOne), amount).value.amount == 0
    ensures SettleAccount(s.accounts[i], s.tick, q.Facing(s.accounts[i].zeroForOne)).Ok?
    ensures DoDecrease(s, q, i, amount).value
            == Paying(s, i, SettleAccount(s.accounts[i], s.tick, q.Facing(s.accounts[i].zeroForOne)).value)
  {
    hide Decrease, SettleAccount;
  }

  lemma DecreaseGoes(s: State, q: Quote, i: nat, amount: nat)
    requires q.Valid() && i < |s.accounts| && DoDecrease(s, q, i, amount).Some?
    ensures Decrease(s.accounts[i].order, s.tick, q.Facing(s.accounts[i].zeroForOne), amount).Ok?
  {
    hide Decrease, SettleAccount;
  }

  lemma DecreaseKeepsCore(s: State, q: Quote, i: nat, amount: nat)
    requires Core(s, q) && i < |s.accounts| && DoDecrease(s, q, i, amount).Some?
    ensures Core(DoDecrease(s, q, i, amount).value, q)
  {
    hide DoDecrease, Decrease, SettleAccount, CloseSegment, Core, AccountInv;
    CoreValid(s, q);
    var a := s.accounts[i];
    AccountFacts(s, q, i);
    DecreaseGoes(s, q, i, amount);
    var d := Decrease(a.order, s.tick, q.Facing(a.zeroForOne), amount).value;
    if d.amount == 0 {
      DecreaseNothing(s, q, i, amount);
      SettleKeepsCore(s, q, i);
    } else if a.order.phase == s.tick.phase {
      DecreaseFreshShape(s, q, i, amount);
      DecreaseFreshKeepsCore(s, q, i, d);
    } else if a.order.phase + 1 == s.tick.phase {
      DecreasePartFilledKeepsCore(s, q, i, amount);
    } else {
      CompleteOnlySettles(a, s.tick, q.Facing(a.zeroForOne), amount);
      assert false;
    }
  }

  lemma DecreaseKeepsInv(s: State, q: Quote, i: nat, amount: nat)
    requires Inv(s, q) && i < |s.accounts| && DoDecrease(s, q, i, amount).Some?
    ensures Inv(DoDecrease(s, q, i, amount).value, q)
  {
    hide DoDecrease, Decrease, SettleAccount, CloseSegment, Core, Directed, Ledger, AccountInv;
    CoreValid(s, q);
    var a := s.accounts[i];
    AccountFacts(s, q, i);
    DecreaseGoes(s, q, i, amount);
    if Decrease(a.order, s.tick, q.Facing(a.zeroForOne), amount).value.amount == 0 {
      DecreaseNothing(s, q, i, amount);
      SettleKeepsInv(s, q, i);
    } else if a.order.phase == s.tick.phase {
      DecreaseFreshKeepsInv(s, q, i, amount);
    } else if a.order.phase + 1 == s.tick.phase {
      DecreasePartFilledKeepsInv(s, q, i, amount);
    } else {
      CompleteOnlySettles(a, s.tick, q.Facing(a.zeroForOne), amount);
      assert false;
    }
  }

  // ---- Every run ----

  /** Every step keeps the units, whatever the side of orders and price. */
  lemma StepKeepsCore(s: State, q: Quote, step: Step)
    requires Core(s, q)
    ensures q.Valid() && Core(Apply(s, q, step), q)
  {
    hide Core, DoOpen, DoIncrease, DoDecrease, DoMatch, SettleAccount;
    CoreValid(s, q);
    match step
    case Open(zeroForOne, amount) =>
      if DoOpen(s, q, zeroForOne, amount).Some? { OpenKeepsCore(s, q, zeroForOne, amount); }
    case IncreaseOrder(i, amount) =>
      if i < |s.accounts| && DoIncrease(s, q, i, amount).Some? { IncreaseKeepsCore(s, q, i, amount); }
    case DecreaseOrder(i, amount) =>
      if i < |s.accounts| && DoDecrease(s, q, i, amount).Some? { DecreaseKeepsCore(s, q, i, amount); }
    case SettleOrder(i) =>
      if i < |s.accounts| { SettleKeepsCore(s, q, i); }
    case MatchOrders(swapAmount, baseInput, feeRate, feeOnInput) =>
      if DoMatch(s, q, swapAmount, baseInput, feeRate, feeOnInput).Some? {
        MatchKeepsCore(s, q, swapAmount, baseInput, feeRate, feeOnInput);
      }
    case MoveTo(current) => MoveKeepsCore(s, q, current);
  }

  lemma {:induction false} RunKeepsCore(index: int, current: int, q: Quote, steps: seq<Step>)
    requires q.Valid()
    ensures Core(Run(index, current, q, steps), q)
    decreases |steps|
  {
    hide Core, Apply;
    if steps == [] {
      InitialInv(index, current, q);
    } else {
      RunKeepsCore(index, current, q, steps[..|steps| - 1]);
      StepKeepsCore(Run(index, current, q, steps[..|steps| - 1]), q, steps[|steps| - 1]);
    }
  }

  lemma StepKeepsInv(s: State, q: Quote, step: Step)
    requires q.Valid() && Inv(s, q) && Sided(s, step)
    ensures Inv(Apply(s, q, step), q)
  {
    hide Inv, DoOpen, DoIncrease, DoDecrease, DoMatch, PassesEmpty, SettleAccount;
    match step
    case Open(zeroForOne, amount) =>
      if DoOpen(s, q, zeroForOne, amount).Some? { OpenKeepsInv(s, q, zeroForOne, amount); }
    case IncreaseOrder(i, amount) =>
      if i < |s.accounts| && DoIncrease(s, q, i, amount).Some? { IncreaseKeepsInvIff(s, q, i, amount); }
    case DecreaseOrder(i, amount) =>
      if i < |s.accounts| && DoDecrease(s, q, i, amount).Some? { DecreaseKeepsInv(s, q, i, amount); }
    case SettleOrder(i) =>
      if i < |s.accounts| { SettleKeepsInv(s, q, i); }
    case MatchOrders(swapAmount, baseInput, feeRate, feeOnInput) =>
      if DoMatch(s, q, swapAmount, baseInput, feeRate, feeOnInput).Some? {
        MatchKeepsInv(s, q, swapAmount, baseInput, feeRate, feeOnInput);
      }
    case MoveTo(current) => MoveKeepsInvIff(s, q, current);
  }

  lemma InitialInv(index: int, current: int, q: Quote)
    requires q.Valid()
    ensures Core(Initial(index, current), q) && Inv(Initial(index, current), q)
  {
    var s := Initial(index, current);
    forall d
      ensures Balanced(s, d) && Received(s, q, d)
    {}
  }

  lemma {:induction false} RunKeepsInv(index: int, current: int, q: Quote, steps: seq<Step>)
    requires q.Valid() && SidedRun(index, current, q, steps)
    ensures Inv(Run(index, current, q, steps), q)
    decreases |steps|
  {
    hide Inv, Apply, Sided;
    if steps == [] {
      InitialInv(index, current, q);
    } else {
      RunKeepsInv(index, current, q, steps[..|steps| - 1]);
      StepKeepsInv(Run(index, current, q, steps[..|steps| - 1]), q, steps[|steps| - 1]);
    }
  }
}
