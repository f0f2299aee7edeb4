/** What all positions together are credited over any run of the pool is within the fees collected for liquidity:
    each pass's growth times the pool's liquidity is within its fees, and the pool's liquidity is that of the
    positions in range. */
module FeeShares {
  import opened Types
  import opened Arith
  import opened FullMath
  import opened TickMath
  import opened TickAtPrice
  import opened TickIndex
  import opened TickSearch
  import opened Pool
  import opened PoolInvariants
  import opened PoolRuns
  import opened FeeGrowth
  import opened FeeInside

  /** A position's counter at its last checkpoint, what has accrued inside its range since, and all it was
      credited. */
  datatype Share = Share(last: u128, pending: nat, credited: nat)

  /** A session with one token's counters, the shares of its positions and the fees collected for liquidity; what
      rounding may have lost of them, in units of 2^-64, and whether no single credit has reached u64::MAX. */
  datatype Books = Books(x: Session, c: Counters, shares: seq<Share>, fees: nat, dust: nat, whole: bool)

  /** An action, and the fees for liquidity its pass collects, charge by charge. */
  datatype Charge = Charge(action: Action, fees: seq<nat>)

  /** With no liquidity the fees go to the protocol. */
  function GrowthOf(p: Pool, fees: seq<nat>): nat { if p.liquidity == 0 then 0 else Growth(fees, p.liquidity) }

  function Collected(p: Pool, fees: seq<nat>): nat { if p.liquidity == 0 then 0 else Sum(fees) }

  /** The units a checkpoint credits; a position with liquidity keeps both its ticks live, so `update` leaves their
      counters as they were. */
  function CreditNow(s: Share, inside: u128, liquidity: nat): nat {
    MulLe(0, WrappingSub(inside, s.last), liquidity);
    ToUnderflowU64(WrappingSub(inside, s.last) * liquidity / Q64)
  }

  function Accruing(p: Pool, step: Step, growth: nat, shares: seq<Share>): seq<Share>
    requires p.ix.spacing > 0 && |shares| == |p.positions|
  {
    seq(|shares|, i requires 0 <= i < |shares| =>
        shares[i].(pending := shares[i].pending + PositionAccrued(p, step, growth, i)))
  }

  /** The position's own instruction goes through. */
  predicate Changes(p: Pool, step: Step, i: nat)
    requires p.ix.spacing > 0
  {
    hide AddLiquidity, BurnLiquidity;
    match step
    case AddTo(j, liquidity) =>
      i == j < |p.positions| && AddLiquidity(p, j, p.positions[j].lower, p.positions[j].upper, liquidity).Ok?
    case BurnFrom(j, liquidity) => i == j < |p.positions| && BurnLiquidity(p, j, liquidity).Ok?
    case _ => false
  }

  /** The shares after a step: a pass accrues to all, a position's instruction is a checkpoint, a new position
      starts one. */
  function SharesAfter(p: Pool, p': Pool, step: Step, growth: nat, c: Counters, c': Counters,
      shares: seq<Share>): (shares': seq<Share>)
    requires p.ix.spacing > 0 && |shares| == |p.positions| <= |p'.positions|
    ensures |shares'| == |p'.positions|
  {
    hide Changes;
    var accrued := Accruing(p, step, growth, shares);
    seq(|p'.positions|, i requires 0 <= i < |p'.positions| =>
      if i >= |p.positions| then Share(InsidePosition(p', c', i), 0, 0)
      else if Changes(p, step, i) then
        Share(InsidePosition(p', c', i), 0,
            shares[i].credited + CreditNow(shares[i], InsidePosition(p, c, i), p.positions[i].liquidity))
      else accrued[i])
  }

  /** A charge loses less than the liquidity, a checkpoint less than one unit. */
  function Dust(p: Pool, step: Step, fees: seq<nat>): nat
    requires p.ix.spacing > 0
  {
    hide Passes, Changes;
    if Passes(p, step) then ChargeDust(p, fees)
    else if (step.AddTo? || step.BurnFrom?) && Changes(p, step, step.i) then Q64 - 1
    else 0
  }

  function ChargeDust(p: Pool, fees: seq<nat>): nat {
    if p.liquidity == 0 then 0
    else
      MulLe(0, |fees|, p.liquidity - 1);
      |fees| * (p.liquidity - 1)
  }

  /** What is pending is below u64::MAX units. */
  predicate Fits(s: Share, liquidity: nat) { s.pending * liquidity < U64_MAX * Q64 }

  /** If the step is a checkpoint it does not lose its credit. */
  predicate CreditFits(p: Pool, step: Step, shares: seq<Share>)
    requires p.ix.spacing > 0 && |shares| == |p.positions|
  {
    hide Changes;
    (step.AddTo? || step.BurnFrom?) && step.i < |shares| && Changes(p, step, step.i) ==>
      Fits(shares[step.i], p.positions[step.i].liquidity)
  }

  ghost function BooksAfter(b: Books, a: Charge): Books
    requires Can(b.x, a.action) && |b.shares| == |b.x.pool.positions|
  {
    hide Can, Apply, Passes, StepOf, CountersAfter;
    CanSpacing(b.x, a.action);
    var p, growth := b.x.pool, GrowthOf(b.x.pool, a.fees);
    match StepOf(b.x, a.action)
    case None => b.(x := After(b.x, a.action))
    case Some(step) =>
      MorePositions(p, step);
      var c' := CountersAfter(p, step, growth, b.c);
      Books(After(b.x, a.action), c', SharesAfter(p, Apply(p, step), step, growth, b.c, c', b.shares),
            b.fees + (if Passes(p, step) then Collected(p, a.fees) else 0), b.dust + Dust(p, step, a.fees),
            b.whole && CreditFits(p, step, b.shares))
  }

  lemma CanSpacing(x: Session, a: Action)
    requires Can(x, a)
    ensures x.pool.ix.spacing > 0
  {
    hide Passes, Started, Searched;
  }

  lemma MorePositions(p: Pool, step: Step)
    requires p.ix.spacing > 0
    ensures |p.positions| <= |Apply(p, step).positions|
  {
    hide Apply;
    if |p.positions| > 0 { PositionStays(p, step, |p.positions| - 1); }
  }

  // ---- What is owed ----

  /** Everything credited and everything pending, in units of 2^-64. */
  function Owed(shares: seq<Share>, ps: seq<Position>): nat
    requires |shares| == |ps|
  {
    if shares == [] then 0
    else
      var n := |shares| - 1;
      Owed(shares[..n], ps[..n]) + OwedTo(shares[n], ps[n].liquidity)
  }

  function OwedTo(s: Share, liquidity: nat): nat {
    MulLe(0, s.pending, liquidity);
    s.credited * Q64 + s.pending * liquidity
  }

  function TotalCredited(shares: seq<Share>): nat {
    if shares == [] then 0 else TotalCredited(shares[..|shares| - 1]) + shares[|shares| - 1].credited
  }

  lemma {:induction false} CreditedWithinOwed(shares: seq<Share>, ps: seq<Position>)
    requires |shares| == |ps|
    ensures TotalCredited(shares) * Q64 <= Owed(shares, ps)
    decreases |shares|
  {
    if shares != [] {
      var n := |shares| - 1;
      CreditedWithinOwed(shares[..n], ps[..n]);
      MulLe(0, shares[n].pending, ps[n].liquidity);
    }
  }

  /** A pass adds its growth times the active liquidity. */
  lemma {:induction false} AccruingOwes(shares: seq<Share>, shares': seq<Share>, ps: seq<Position>, tick: int,
      growth: nat)
    requires |shares| == |shares'| == |ps|
    requires forall i :: 0 <= i < |ps| ==>
               shares'[i] == shares[i].(pending := shares[i].pending
                   + if ps[i].lower <= tick < ps[i].upper then growth else 0)
    ensures 0 <= Total(ps, Active(tick)) && Owed(shares', ps) == Owed(shares, ps) + growth * Total(ps, Active(tick))
    decreases |shares|
  {
    hide OwedTo;
    TotalBounds(ps, tick);
    if shares != [] {
      var n := |shares| - 1;
      AccruingOwes(shares[..n], shares'[..n], ps[..n], tick, growth);
      AccrueOne(shares[n], growth, ps[n].liquidity);
      Distribute(growth, Total(ps[..n], Active(tick)),
          if ps[n].lower <= tick < ps[n].upper then ps[n].liquidity else 0);
    }
  }

  lemma AccrueOne(s: Share, growth: nat, liquidity: nat)
    ensures OwedTo(s.(pending := s.pending + growth), liquidity) == OwedTo(s, liquidity) + growth * liquidity
  {
    Distribute(liquidity, s.pending, growth);
  }

  /** Nobody is owed more when each is owed at most what he was. */
  lemma {:induction false} OwedMonotone(shares: seq<Share>, ps: seq<Position>, shares': seq<Share>, ps': seq<Position>)
    requires |shares| == |ps| <= |shares'| == |ps'|
    requires forall i :: 0 <= i < |shares| ==>
               OwedTo(shares'[i], ps'[i].liquidity) <= OwedTo(shares[i], ps[i].liquidity)
    requires forall i :: |shares| <= i < |shares'| ==> OwedTo(shares'[i], ps'[i].liquidity) == 0
    ensures Owed(shares', ps') <= Owed(shares, ps)
    decreases |shares'|
  {
    hide OwedTo;
    if shares' != [] {
      var n := |shares'| - 1;
      if |shares| == |shares'| {
        OwedMonotone(shares[..n], ps[..n], shares'[..n], ps'[..n]);
      } else {
        OwedMonotone(shares, ps, shares'[..n], ps'[..n]);
      }
    }
  }

  /** Together they are owed at most `slack` less when only one is owed less, by that at most. */
  lemma {:induction false} OwedAtLeast(shares: seq<Share>, ps: seq<Position>, shares': seq<Share>, ps': seq<Position>,
      k: nat, slack: nat)
    requires |shares| == |ps| <= |shares'| == |ps'|
    requires forall i :: 0 <= i < |shares| ==>
               OwedTo(shares[i], ps[i].liquidity)
               <= OwedTo(shares'[i], ps'[i].liquidity) + if i == k then slack else 0
    ensures Owed(shares, ps) <= Owed(shares', ps') + if k < |shares| then slack else 0
    decreases |shares'|
  {
    hide OwedTo;
    if shares' != [] {
      var n := |shares'| - 1;
      if |shares| == |shares'| {
        OwedAtLeast(shares[..n], ps[..n], shares'[..n], ps'[..n], k, slack);
      } else {
        OwedAtLeast(shares, ps, shares'[..n], ps'[..n], k, slack);
      }
    }
  }

  // ---- The invariant ----

  /** The counter inside a position's range is what it was at the checkpoint plus what is pending. */
  predicate InStep(p: Pool, c: Counters, i: nat, s: Share)
    requires i < |p.positions|
  {
    Holding(p, i) ==> InsidePosition(p, c, i) == WrappingAdd(s.last, s.pending)
  }

  ghost predicate BooksInv(b: Books) {
    && SessionInv(b.x) && |b.shares| == |b.x.pool.positions|
    && (forall i :: 0 <= i < |b.shares| ==> InStep(b.x.pool, b.c, i, b.shares[i]))
    && Owed(b.shares, b.x.pool.positions) <= b.fees * Q64
    && (b.whole ==> b.fees * Q64 <= Owed(b.shares, b.x.pool.positions) + b.dust)
  }

  /** A checkpoint turns what is pending into units, rounded down, and never credits more. */
  lemma CheckpointOwes(s: Share, inside: u128, liquidity: nat, last: u128, liquidity': nat)
    requires inside == WrappingAdd(s.last, s.pending) || liquidity == 0
    ensures OwedTo(Share(last, 0, s.credited + CreditNow(s, inside, liquidity)), liquidity') <= OwedTo(s, liquidity)
  {
    var grown := WrappingSub(inside, s.last);
    MulLe(0, grown, liquidity);
    MulLe(0, s.pending, liquidity);
    DivBounds(grown * liquidity, Q64);
    if liquidity != 0 {
      PendingGrown(s.last, s.pending);
      MulLe(grown, s.pending, liquidity);
    }
  }

  /** Nor less by a unit, as long as the credit stays below u64::MAX. */
  lemma CheckpointOwesLeast(s: Share, inside: u128, liquidity: nat, last: u128, liquidity': nat)
    requires inside == WrappingAdd(s.last, s.pending) || liquidity == 0
    requires Fits(s, liquidity)
    ensures OwedTo(s, liquidity)
            <= OwedTo(Share(last, 0, s.credited + CreditNow(s, inside, liquidity)), liquidity') + (Q64 - 1)
  {
    var grown := WrappingSub(inside, s.last);
    MulLe(0, s.pending, liquidity);
    if liquidity != 0 {
      MulLe(1, liquidity, s.pending);
      WrappingSubUndoesAdd(s.last, s.pending);
      assert grown == s.pending;
      DivBounds(grown * liquidity, Q64);
      FloorIff(grown * liquidity, Q64, U64_MAX);
    }
  }

  lemma PendingGrown(last: u128, pending: nat)
    ensures WrappingSub(WrappingAdd(last, pending), last) <= pending
  {
    WrappingAddLeast(last, pending);
    WrappingSubUndoesAdd(last, pending % TWO128);
    hide WrappingAdd, WrappingSub;
    assert pending % TWO128 <= pending by { LeastBelow(pending); }
  }

  lemma LeastBelow(g: nat)
    ensures g % TWO128 <= g
  {}

  /** Every position's counter stays in step. */
  lemma StaysInStep(p: Pool, step: Step, growth: nat, c: Counters, i: nat, s: Share)
    requires Inv(p) && Inv(Apply(p, step)) && p.ix.spacing > 0 && Orderly(p, step) && i < |p.positions|
             && InStep(p, c, i, s)
    requires !Changes(p, step, i)
    ensures i < |Apply(p, step).positions|
    ensures InStep(Apply(p, step), CountersAfter(p, step, growth, c), i,
            s.(pending := s.pending + PositionAccrued(p, step, growth, i)))
  {
    hide Inv, Apply, Orderly, CountersAfter, InsidePosition, PositionAccrued, WrappingAdd, Changes;
    PositionStays(p, step, i);
    UnchangedHolding(p, step, i);
    if Holding(Apply(p, step), i) {
      StepInsidePosition(p, step, growth, c, i);
      WrappingAddTwice(s.last, s.pending, PositionAccrued(p, step, growth, i));
    }
  }

  lemma UnchangedHolding(p: Pool, step: Step, i: nat)
    requires p.ix.spacing > 0 && i < |p.positions| && !Changes(p, step, i)
    ensures i < |Apply(p, step).positions| && Apply(p, step).positions[i] == p.positions[i]
  {
    hide AddLiquidity, BurnLiquidity, PlaceOrder, GrowOrder, ShrinkOrder, SettleOrder, SwapStep, OrdersAt,
        Slot.Initialized;
    PositionStays(p, step, i);
  }

  lemma ChangesIsNoPass(p: Pool, step: Step, i: nat)
    requires p.ix.spacing > 0 && Changes(p, step, i)
    ensures !Passes(p, step) && i < |p.positions|
  {
    hide AddLiquidity, BurnLiquidity, SwapStep;
  }

  /** A pass: everybody's range accrues its growth, and the fees cover it. */
  lemma PassKeepsOwed(p: Pool, step: Step, fees: seq<nat>, shares: seq<Share>, total: nat)
    requires Inv(p) && p.ix.spacing > 0 && Passes(p, step) && |shares| == |p.positions|
             && Owed(shares, p.positions) <= total * Q64
    ensures Owed(Accruing(p, step, GrowthOf(p, fees), shares), p.positions) <= (total + Collected(p, fees)) * Q64
  {
    hide *;
    PassOwes(p, step, GrowthOf(p, fees), shares);
    GrowthCovered(p, fees);
    FeesCover(Owed(shares, p.positions), GrowthOf(p, fees) * p.liquidity, total, Collected(p, fees));
  }

  lemma PassOwes(p: Pool, step: Step, growth: nat, shares: seq<Share>)
    requires Inv(p) && p.ix.spacing > 0 && Passes(p, step) && |shares| == |p.positions|
    ensures Owed(Accruing(p, step, growth, shares), p.positions) == Owed(shares, p.positions) + growth * p.liquidity
  {
    hide Inv, Passes, Owed, Total;
    InvParts(p);
    AccruingOwes(shares, Accruing(p, step, growth, shares), p.positions, p.tick, growth);
  }

  lemma GrowthCovered(p: Pool, fees: seq<nat>)
    ensures GrowthOf(p, fees) * p.liquidity <= Collected(p, fees) * Q64
            <= GrowthOf(p, fees) * p.liquidity + ChargeDust(p, fees)
  {
    hide Sum, Growth;
    if p.liquidity > 0 { GrowthWithinFees(fees, p.liquidity); }
  }

  lemma FeesCover(owed: int, earned: int, total: int, collected: int)
    requires owed <= total * Q64 && earned <= collected * Q64
    ensures owed + earned <= (total + collected) * Q64
  {}

  lemma StepKeepsBooks(p: Pool, step: Step, fees: seq<nat>, c: Counters, shares: seq<Share>, total: nat)
    requires Inv(p) && Inv(Apply(p, step)) && p.ix.spacing > 0 && Orderly(p, step) && |shares| == |p.positions|
    requires forall i :: 0 <= i < |shares| ==> InStep(p, c, i, shares[i])
    requires Owed(shares, p.positions) <= total * Q64 && |p.positions| <= |Apply(p, step).positions|
    ensures var p', growth := Apply(p, step), GrowthOf(p, fees);
            var c' := CountersAfter(p, step, growth, c);
            var shares' := SharesAfter(p, p', step, growth, c, c', shares);
            && |shares'| == |p'.positions|
            && (forall i :: 0 <= i < |shares'| ==> InStep(p', c', i, shares'[i]))
            && Owed(shares', p'.positions) <= (total + if Passes(p, step) then Collected(p, fees) else 0) * Q64
  {
    hide Inv, Apply, Orderly, CountersAfter, InsidePosition, PositionAccrued, WrappingAdd, Changes, Passes, Owed,
        OwedTo, GrowthOf, Collected, CreditNow;
    var p', growth := Apply(p, step), GrowthOf(p, fees);
    var c' := CountersAfter(p, step, growth, c);
    var shares' := SharesAfter(p, p', step, growth, c, c', shares);
    forall i | 0 <= i < |shares'|
      ensures InStep(p', c', i, shares'[i])
    {
      if i < |p.positions| && !Changes(p, step, i) {
        StaysInStep(p, step, growth, c, i, shares[i]);
      } else {
        FreshInStep(p', c', i, shares'[i]);
      }
    }
    if Passes(p, step) {
      PassSharesAre(p, step, growth, c, c', shares);
      PassKeepsOwed(p, step, fees, shares, total);
    } else {
      forall i | 0 <= i < |shares|
        ensures OwedTo(shares'[i], p'.positions[i].liquidity) <= OwedTo(shares[i], p.positions[i].liquidity)
      {
        NoPassOwes(p, step, growth, c, c', shares, i);
      }
      forall i | |shares| <= i < |shares'|
        ensures OwedTo(shares'[i], p'.positions[i].liquidity) == 0
      {
        NothingOwed(shares'[i], p'.positions[i].liquidity);
      }
      OwedMonotone(shares, p.positions, shares', p'.positions);
    }
  }

  lemma FreshInStep(p: Pool, c: Counters, i: nat, s: Share)
    requires i < |p.positions| && s.last == InsidePosition(p, c, i) && s.pending == 0
    ensures InStep(p, c, i, s)
  {
    hide InsidePosition;
    WrappingAddNothing(s.last);
  }

  lemma NothingOwed(s: Share, liquidity: nat)
    requires s.pending == 0 && s.credited == 0
    ensures OwedTo(s, liquidity) == 0
  {}

  lemma PassSharesAre(p: Pool, step: Step, growth: nat, c: Counters, c': Counters, shares: seq<Share>)
    requires p.ix.spacing > 0 && Passes(p, step) && |shares| == |p.positions|
    ensures Apply(p, step).positions == p.positions
    ensures SharesAfter(p, Apply(p, step), step, growth, c, c', shares) == Accruing(p, step, growth, shares)
  {
    hide Apply, Passes, InsidePosition, PositionAccrued, CreditNow, Changes;
    PassKeepsPositions(p, step);
    forall i: nat
      ensures !Changes(p, step, i)
    {
      if Changes(p, step, i) { ChangesIsNoPass(p, step, i); }
    }
  }

  lemma NoPassOwes(p: Pool, step: Step, growth: nat, c: Counters, c': Counters, shares: seq<Share>, i: nat)
    requires p.ix.spacing > 0 && !Passes(p, step) && |shares| == |p.positions| <= |Apply(p, step).positions|
             && i < |shares|
    requires InStep(p, c, i, shares[i])
    ensures var p' := Apply(p, step);
            OwedTo(SharesAfter(p, p', step, growth, c, c', shares)[i], p'.positions[i].liquidity)
                <= OwedTo(shares[i], p.positions[i].liquidity)
  {
    hide Apply, Passes, InsidePosition, CreditNow, Changes, WrappingAdd, OwedTo;
    if Changes(p, step, i) {
      CheckpointOwes(shares[i], InsidePosition(p, c, i), p.positions[i].liquidity,
                     InsidePosition(Apply(p, step), c', i), Apply(p, step).positions[i].liquidity);
    } else {
      UnchangedHolding(p, step, i);
      NothingAccrues(p, step, growth, i);
    }
  }

  lemma NothingAccrues(p: Pool, step: Step, growth: nat, i: nat)
    requires p.ix.spacing > 0 && i < |p.positions| && !Passes(p, step)
    ensures PositionAccrued(p, step, growth, i) == 0
  {
    hide Passes;
  }

  // ---- What rounding loses ----

  /** A step takes no more from what is owed than its dust, as long as its credit fits. */
  lemma StepLosesLittle(p: Pool, step: Step, fees: seq<nat>, c: Counters, shares: seq<Share>, total: nat, dust: nat)
    requires Inv(p) && p.ix.spacing > 0 && |shares| == |p.positions| <= |Apply(p, step).positions|
    requires forall i :: 0 <= i < |shares| ==> InStep(p, c, i, shares[i])
    requires total * Q64 <= Owed(shares, p.positions) + dust && CreditFits(p, step, shares)
    ensures var p', growth := Apply(p, step), GrowthOf(p, fees);
            var shares' := SharesAfter(p, p', step, growth, c, CountersAfter(p, step, growth, c), shares);
            (total + if Passes(p, step) then Collected(p, fees) else 0) * Q64
                <= Owed(shares', p'.positions) + dust + Dust(p, step, fees)
  {
    hide Inv, Apply, CountersAfter, InsidePosition, PositionAccrued, WrappingAdd, Changes, Passes, Owed, OwedTo,
        GrowthOf, Collected, CreditNow, ChargeDust, CreditFits, InStep, SharesAfter, Accruing;
    var p', growth := Apply(p, step), GrowthOf(p, fees);
    var c' := CountersAfter(p, step, growth, c);
    var shares' := SharesAfter(p, p', step, growth, c, c', shares);
    if Passes(p, step) {
      PassSharesAre(p, step, growth, c, c', shares);
      PassOwes(p, step, growth, shares);
      GrowthCovered(p, fees);
    } else {
      var k := if step.AddTo? || step.BurnFrom? then step.i else 0;
      forall i | 0 <= i < |shares|
        ensures OwedTo(shares[i], p.positions[i].liquidity)
                <= OwedTo(shares'[i], p'.positions[i].liquidity) + if i == k then Dust(p, step, fees) else 0
      {
        NoPassOwesLeast(p, step, fees, growth, c, c', shares, i);
      }
      OwedAtLeast(shares, p.positions, shares', p'.positions, k, Dust(p, step, fees));
    }
  }

  lemma NoPassOwesLeast(p: Pool, step: Step, fees: seq<nat>, growth: nat, c: Counters, c': Counters,
      shares: seq<Share>, i: nat)
    requires p.ix.spacing > 0 && !Passes(p, step) && |shares| == |p.positions| <= |Apply(p, step).positions|
             && i < |shares|
    requires InStep(p, c, i, shares[i]) && CreditFits(p, step, shares)
    ensures var p', mine := Apply(p, step), (step.AddTo? || step.BurnFrom?) && step.i == i;
            OwedTo(shares[i], p.positions[i].liquidity)
                <= OwedTo(SharesAfter(p, p', step, growth, c, c', shares)[i], p'.positions[i].liquidity)
                    + if mine then Dust(p, step, fees) else 0
  {
    hide Apply, Passes, InsidePosition, CreditNow, Changes, WrappingAdd, OwedTo, Fits, ChargeDust;
    if Changes(p, step, i) {
      ChangesOnlyOne(p, step, i);
      CheckpointOwesLeast(shares[i], InsidePosition(p, c, i), p.positions[i].liquidity,
                          InsidePosition(Apply(p, step), c', i), Apply(p, step).positions[i].liquidity);
    } else {
      UnchangedHolding(p, step, i);
      NothingAccrues(p, step, growth, i);
    }
  }

  lemma ChangesOnlyOne(p: Pool, step: Step, i: nat)
    requires p.ix.spacing > 0 && Changes(p, step, i)
    ensures (step.AddTo? || step.BurnFrom?) && step.i == i
  {
    hide AddLiquidity, BurnLiquidity;
  }

  lemma ActionKeepsBooks(b: Books, a: Charge)
    requires BooksInv(b) && Can(b.x, a.action) && Sound(b.x, a.action)
    ensures BooksInv(BooksAfter(b, a))
  {
    hide Inv, Apply, Can, After, Sound, Orderly, CountersAfter, InStep, Owed, Passes, StepOf, SharesAfter, GrowthOf,
        Collected;
    SessionParts(b.x);
    ActionIsStep(b.x, a.action);
    ActionKeeps(b.x, a.action);
    SessionParts(After(b.x, a.action));
    var step := StepOf(b.x, a.action);
    if step.Some? {
      ActionOrderly(b.x, a.action);
      MorePositions(b.x.pool, step.value);
      StepKeepsBooks(b.x.pool, step.value, a.fees, b.c, b.shares, b.fees);
      if BooksAfter(b, a).whole {
        StepLosesLittle(b.x.pool, step.value, a.fees, b.c, b.shares, b.fees, b.dust);
      }
    }
  }

  // ---- Runs ----

  /** A run with its fees, and the books it leads to. */
  ghost predicate Keeps(b: Books, run: seq<Charge>, b': Books)
    decreases |run|
  {
    if run == [] then b == b'
    else
      && Can(b.x, run[0].action) && Sound(b.x, run[0].action) && |b.shares| == |b.x.pool.positions|
      && Keeps(BooksAfter(b, run[0]), run[1..], b')
  }

  lemma {:induction false} RunKeepsBooks(b: Books, run: seq<Charge>, b': Books)
    requires BooksInv(b) && Keeps(b, run, b')
    ensures BooksInv(b')
    decreases |run|
  {
    hide BooksInv, BooksAfter, Can, Sound;
    if run != [] {
      ActionKeepsBooks(b, run[0]);
      RunKeepsBooks(BooksAfter(b, run[0]), run[1..], b');
    }
  }

  /** Over any run from a new pool all positions together are credited at most the fees collected for liquidity,
      however they are opened, changed and checkpointed; and what they are credited and have pending falls short of
      the fees by no more than the dust, as long as no credit is lost. */
  lemma CreditsWithinFees(spacing: nat, price: u128, global: u128, run: seq<Charge>, b: Books)
    requires spacing > 0 && InPriceRange(price)
    requires Keeps(Books(NewSession(spacing, price), Counters(global, map[]), [], 0, 0, true), run, b)
    ensures TotalCredited(b.shares) <= b.fees && |b.shares| == |b.x.pool.positions|
    ensures b.whole ==> b.fees * Q64 <= Owed(b.shares, b.x.pool.positions) + b.dust
  {
    hide Keeps, TickAt, Owed, TotalCredited, SessionInv;
    var start := Books(NewSession(spacing, price), Counters(global, map[]), [], 0, 0, true);
    NewSessionInv(spacing, price);
    assert BooksInv(start) by { NothingYet(); }
    RunKeepsBooks(start, run, b);
    CreditedWithinOwed(b.shares, b.x.pool.positions);
    MulCancelLe(TotalCredited(b.shares), b.fees, Q64);
  }

  lemma NothingYet()
    ensures Owed([], []) == 0
  {}
}
