/** Fee accrual: growth counters that wrap, checkpoints that round down. */
module FeeGrowth {
  import opened Types
  import opened Arith
  import opened FullMath

  const TWO128: int := U128_MAX + 1

  function WrappingAdd(a: u128, b: nat): u128 { (a + b) % TWO128 }

  function WrappingSub(a: u128, b: u128): u128 { if a >= b then a - b else a - b + TWO128 }

  lemma WrappingAddTwice(a: u128, g: nat, h: nat)
    ensures WrappingAdd(WrappingAdd(a, g), h) == WrappingAdd(a, g + h)
  {
    var q, r := (a + g) / TWO128, (a + g) % TWO128;
    var x := (r + h) / TWO128;
    assert a + g == TWO128 * q + r && r + h == TWO128 * x + (r + h) % TWO128;
    assert a + g + h == TWO128 * (q + x) + (r + h) % TWO128;
  }

  /** The counter's difference is the growth since, though the counter may have wrapped. */
  lemma WrappingSubUndoesAdd(a: u128, g: nat)
    requires g < TWO128
    ensures WrappingSub(WrappingAdd(a, g), a) == g
  {
    if a + g < TWO128 { assert (a + g) % TWO128 == a + g; } else { assert (a + g) % TWO128 == a + g - TWO128; }
  }

  /** `calculate_latest_token_fees`. */
  function LatestTokenFees(lastTotal: u64, growthLast: u128, growthLatest: u128, liquidity: u128): Result<nat> {
    match MulDivFloor(WrappingSub(growthLatest, growthLast), liquidity, Q64, U128_MAX)
    case None => Err(CalculateOverflow)
    case Some(fees) =>
      var delta := ToUnderflowU64(fees);
      if lastTotal + delta > U64_MAX then Err(CalculateOverflow) else Ok(lastTotal + delta)
  }

  /** What has accrued between two checkpoints: growth per unit of liquidity, and the position's
      liquidity meanwhile. */
  datatype Period = Period(growth: nat, liquidity: u128)

  /** Exact fees of a period in Q64.64. */
  function Exact(p: Period): nat {
    MulLe(0, p.growth, p.liquidity);
    p.growth * p.liquidity
  }

  function Credit(p: Period): nat {
    FloorIff(Exact(p), Q64, 0);
    Exact(p) / Q64
  }

  datatype Checkpoint = Checkpoint(total: u64, growthLast: u128)

  /** One checkpoint after a period. */
  function Pass(c: Checkpoint, p: Period): Result<Checkpoint> {
    var latest := WrappingAdd(c.growthLast, p.growth);
    match LatestTokenFees(c.total, c.growthLast, latest, p.liquidity)
    case Err(e) => Err(e)
    case Ok(total) => if total > U64_MAX then Err(Panic) else Ok(Checkpoint(total, latest))
  }

  function PassAll(c: Checkpoint, periods: seq<Period>): Result<Checkpoint> {
    if periods == [] then Ok(c)
    else
      var before :- PassAll(c, periods[..|periods| - 1]);
      Pass(before, periods[|periods| - 1])
  }

  function TotalExact(periods: seq<Period>): nat {
    if periods == [] then 0 else TotalExact(periods[..|periods| - 1]) + Exact(periods[|periods| - 1])
  }

  /** A checkpoint credits the period's fees rounded down, or nothing from u64::MAX up; wrapping
      of the counter plays no part. */
  lemma PassCredits(c: Checkpoint, p: Period)
    requires p.growth < TWO128 && Pass(c, p).Ok?
    ensures Pass(c, p).value.total == c.total + if Credit(p) < U64_MAX then Credit(p) else 0
  {
    WrappingSubUndoesAdd(c.growthLast, p.growth);
    hide WrappingAdd, WrappingSub;
    var fees := MulDivFloor(p.growth, p.liquidity, Q64, U128_MAX);
    FloorIff(Exact(p), Q64, fees.value);
    FloorIff(Exact(p), Q64, fees.value + 1);
    Expand(fees.value, Q64);
  }

  /** Any number of checkpoints credit at most what accrued, and less by under one unit each as
      long as no single credit reaches u64::MAX. */
  lemma {:induction false} CheckpointsCredit(c: Checkpoint, periods: seq<Period>)
    requires forall i :: 0 <= i < |periods| ==> periods[i].growth < TWO128
    requires PassAll(c, periods).Ok?
    ensures var credited := PassAll(c, periods).value.total - c.total;
            && 0 <= credited && credited * Q64 <= TotalExact(periods)
            && ((forall i :: 0 <= i < |periods| ==> Credit(periods[i]) < U64_MAX) ==>
                  && TotalExact(periods) <= (credited + |periods|) * Q64
                  && (periods != [] ==> TotalExact(periods) < (credited + |periods|) * Q64))
    decreases |periods|
  {
    hide Pass, Exact;
    if periods != [] {
      var rest, last := periods[..|periods| - 1], periods[|periods| - 1];
      CheckpointsCredit(c, rest);
      PassCredits(PassAll(c, rest).value, last);
      DivBounds(Exact(last), Q64);
    }
  }

  /** A checkpoint credits a period's fees in full exactly when they stay below u64::MAX; from there up
      they are lost entirely. */
  lemma LargeCreditIsLostIff(c: Checkpoint, p: Period)
    requires p.growth < TWO128 && Pass(c, p).Ok?
    ensures Pass(c, p).value.total == c.total + Credit(p) <==> Credit(p) < U64_MAX
    ensures Credit(p) >= U64_MAX ==> Pass(c, p).value.total == c.total
  {
    hide Pass;
    PassCredits(c, p);
  }

  /** Half the counter's range at a liquidity of two earns 2^64 units, and the checkpoint credits none. */
  lemma LargeCredit(c: Checkpoint, p: Period)
    requires c == Checkpoint(7, 0) && p == Period(TWO128 / 2, 2)
    ensures Credit(p) == Q64 && Pass(c, p) == Ok(Checkpoint(7, TWO128 / 2))
  {
    FloorIff(Exact(p), Q64, Q64);
    FloorIff(Exact(p), Q64, Q64 + 1);
  }

  // ---- The pool's side ----

  function Sum(xs: seq<nat>): nat {
    if xs == [] then 0 else Sum(xs[..|xs| - 1]) + xs[|xs| - 1]
  }

  /** The growth a sequence of fees adds at a fixed active liquidity. */
  function Growth(fees: seq<nat>, liquidity: nat): nat
    requires liquidity > 0
  {
    if fees == [] then 0 else Growth(fees[..|fees| - 1], liquidity) + fees[|fees| - 1] * Q64 / liquidity
  }

  /** Each charge loses less than one unit of growth, that is less than the liquidity. */
  lemma {:induction false} GrowthWithinFees(fees: seq<nat>, liquidity: nat)
    requires liquidity > 0
    ensures Growth(fees, liquidity) * liquidity <= Sum(fees) * Q64
            <= Growth(fees, liquidity) * liquidity + |fees| * (liquidity - 1)
    decreases |fees|
  {
    if fees != [] {
      var rest, last := fees[..|fees| - 1], fees[|fees| - 1];
      GrowthWithinFees(rest, liquidity);
      DivBounds(last * Q64, liquidity);
      Distribute(liquidity, Growth(rest, liquidity), last * Q64 / liquidity);
    }
  }

  function Credits(growth: nat, shares: seq<nat>): nat {
    if shares == [] then 0
    else
      MulLe(0, growth, shares[|shares| - 1]);
      Credits(growth, shares[..|shares| - 1]) + growth * shares[|shares| - 1] / Q64
  }

  lemma {:induction false} CreditsWithinGrowth(growth: nat, shares: seq<nat>)
    ensures Credits(growth, shares) * Q64 <= growth * Sum(shares)
            <= Credits(growth, shares) * Q64 + |shares| * (Q64 - 1)
    decreases |shares|
  {
    if shares != [] {
      var rest, last := shares[..|shares| - 1], shares[|shares| - 1];
      CreditsWithinGrowth(growth, rest);
      MulLe(0, growth, last);
      DivBounds(growth * last, Q64);
      Distribute(growth, Sum(rest), last);
    }
  }

  /** What the positions that share the active liquidity are credited never exceeds the fees that
      were collected for them, and is less only by the roundings: under one unit a position, and under the liquidity
      in units of 2^-64 a charge. */
  lemma CreditsWithinFees(fees: seq<nat>, shares: seq<nat>)
    requires Sum(shares) > 0
    ensures var credited := Credits(Growth(fees, Sum(shares)), shares);
            && credited <= Sum(fees)
            && Sum(fees) * Q64 <= credited * Q64 + |shares| * (Q64 - 1) + |fees| * (Sum(shares) - 1)
  {
    hide Credits, Growth, Sum;
    var growth := Growth(fees, Sum(shares));
    CreditsWithinGrowth(growth, shares);
    GrowthWithinFees(fees, Sum(shares));
    MulCancelLe(Credits(growth, shares), Sum(fees), Q64);
  }
}
