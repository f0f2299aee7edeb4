/** The pool account and its tick arrays as one object the instructions update in place. */
module PoolAccount {
  import opened Types
  import opened Arith
  import opened Bits
  import opened BigNum
  import opened LiquidityMath
  import opened TickMath
  import opened TickArray
  import opened TickArrayBitMap
  import opened TickIndex
  import opened Pool
  import PoolModel = Pool
  import opened PoolInvariants
  import Budget = LiquidityBudget

  /** The arrays whose digits are set. */
  ghost function BitsOf(words: seq<u64>, spacing: nat): set<int> {
    set k: nat | k < 1024 && Bit(Val(words), k) :: StartOf(k, spacing)
  }

  /** The default bitmap covers the array; for others an extension account would be needed. */
  predicate InDefaultBitmap(start: int, spacing: nat) { -MaxTickInBitmap(spacing) <= start < MaxTickInBitmap(spacing) }

  lemma FlipBits(words: seq<u64>, words': seq<u64>, spacing: nat, start: int)
    requires spacing > 0 && InDefaultBitmap(start, spacing) && start / TickCount(spacing) * TickCount(spacing) == start
    requires forall k: nat :: Bit(Val(words'), k) == (Bit(Val(words), k) != (StartOf(k, spacing) == start))
    ensures var bits := BitsOf(words, spacing);
            BitsOf(words', spacing) == if start in bits then bits - {start} else bits + {start}
  {
    hide Bit, Val;
    CompressedIs(start, spacing);
    var offset := start / TickCount(spacing) + 512;
    var bits, bits' := BitsOf(words, spacing), BitsOf(words', spacing);
    assert StartOf(offset, spacing) == start;
    forall j: nat, k: nat | j != k
      ensures StartOf(j, spacing) != StartOf(k, spacing)
    {
      StartOrder(j, k, spacing);
      StartOrder(k, j, spacing);
    }
    forall k: nat | k < 1024
      ensures StartOf(k, spacing) in bits <==> Bit(Val(words), k)
      ensures StartOf(k, spacing) in bits' <==> Bit(Val(words'), k)
    {}
  }

  class PoolState {
    const tickSpacing: nat
    var tickCurrent: int
    var sqrtPriceX64: u128
    var liquidity: u128
    var tickArrayBitmap: array<u64>
    /** The tick slots of all tick arrays, and the arrays' counts. */
    var ticks: map<int, Slot>
    var initializedTickCounts: map<int, nat>
    /** The position accounts. */
    var positions: seq<Position>
    /** The order accounts of each tick. */
    var orders: map<int, seq<OrderAccount>>

    ghost predicate Valid()
      reads this
    {
      tickSpacing > 0 && tickArrayBitmap.Length == WORDS
    }

    ghost function IndexValue(): Index
      reads this, tickArrayBitmap
    {
      Index(tickSpacing, ticks, initializedTickCounts, BitsOf(tickArrayBitmap[..], tickSpacing))
    }

    ghost function Value(): Pool
      reads this, tickArrayBitmap
    {
      Pool(IndexValue(), tickCurrent, sqrtPriceX64, liquidity, positions, orders)
    }

    function TickState(tick: int): Slot
      reads this
    {
      if tick in ticks then ticks[tick] else EMPTY
    }

    /** `flip_tick_array_bit`, with no extension account. */
    method FlipTickArrayBit(start: int) returns (r: Result<()>)
      requires Valid()
      modifies this`tickArrayBitmap
      ensures Valid()
      ensures r.Ok? <==> InDefaultBitmap(start, tickSpacing) && IsValidStart(start, tickSpacing)
      ensures r.Ok? ==> IndexValue() == FlipBit(old(IndexValue()), start)
      ensures r.Err? ==> unchanged(this)
    {
      hide Bit, Val, BitsOf, IsValidStart;
      if !InDefaultBitmap(start, tickSpacing) { return Err(RequireViolated); }
      ghost var before := tickArrayBitmap[..];
      var flipped :- TickArrayBitMap.FlipTickArrayBit(tickArrayBitmap, start, tickSpacing);
      NeighbourAligned(start, tickSpacing, true);
      FlipBits(before, flipped[..], tickSpacing, start);
      tickArrayBitmap := flipped;
      r := Ok(());
    }

    /** A tick became initialized: `update_initialized_tick_count`, and the first sets the bit. */
    method MarkTick(tick: int) returns (r: Result<()>)
      requires Valid()
      modifies this`initializedTickCounts, this`tickArrayBitmap
      ensures Valid()
      ensures r.Ok? ==> Mark(old(IndexValue()), tick) == Ok(IndexValue())
      ensures r.Err? ==> Mark(old(IndexValue()), tick).Err? || !Covered(ArrayStart(tick, tickSpacing))
    {
      hide BitsOf, ArrayStart, IsValidStart;
      var start := ArrayStart(tick, tickSpacing);
      var before := if start in initializedTickCounts then initializedTickCounts[start] else 0;
      if before >= 255 { return Err(CalculateOverflow); }
      initializedTickCounts := initializedTickCounts[start := before + 1];
      if before == 0 {
        var flipped :- FlipTickArrayBit(start);
      }
      r := Ok(());
    }

    /** A tick stopped being initialized; the last one clears the bit. */
    method UnmarkTick(tick: int) returns (r: Result<()>)
      requires Valid()
      modifies this`initializedTickCounts, this`tickArrayBitmap
      ensures Valid()
      ensures r.Ok? ==> Unmark(old(IndexValue()), tick) == Ok(IndexValue())
      ensures r.Err? ==> Unmark(old(IndexValue()), tick).Err? || !Covered(ArrayStart(tick, tickSpacing))
    {
      hide BitsOf, ArrayStart, IsValidStart;
      var start := ArrayStart(tick, tickSpacing);
      var before := if start in initializedTickCounts then initializedTickCounts[start] else 0;
      if before == 0 { return Err(CalculateOverflow); }
      initializedTickCounts := initializedTickCounts[start := before - 1];
      if initializedTickCounts[start] == 0 {
        var flipped :- FlipTickArrayBit(start);
      }
      r := Ok(());
    }

    /** The array's bit can be flipped without an extension account. */
    predicate Covered(start: int)
      requires tickSpacing > 0
    {
      InDefaultBitmap(start, tickSpacing) && IsValidStart(start, tickSpacing)
    }

    /** `modify_position`: works on copies of the two ticks, and moves the pool's liquidity. */
    method ModifyPosition(lower: int, upper: int, delta: i128) returns (r: Result<Modified>)
      requires Valid() && InRange(lower) && InRange(upper)
      modifies this`liquidity
      ensures Valid()
      ensures var m := PoolModel.ModifyPosition(old(Value()), lower, upper, delta);
              && (r.Ok? <==> m.Ok?)
              && (r.Ok? ==> r.value == m.value && liquidity == m.value.liquidity)
    {
      hide Budget.DeltaAmountsSigned, AddDelta, BitsOf, Update;
      var tickLowerState, tickUpperState := TickState(lower), TickState(upper);
      var flippedLower, flippedUpper := false, false;
      if delta != 0 {
        var lo :- Update(tickLowerState, delta, false);
        tickLowerState, flippedLower := lo.0, lo.1;
        var up :- Update(tickUpperState, delta, true);
        tickUpperState, flippedUpper := up.0, up.1;
      }
      if delta < 0 {
        if flippedLower { tickLowerState := Clear(tickLowerState); }
        if flippedUpper { tickUpperState := Clear(tickUpperState); }
      }
      var amount0, amount1 := 0, 0;
      if delta != 0 {
        var amounts :- Budget.DeltaAmountsSigned(tickCurrent, sqrtPriceX64, lower, upper, delta);
        amount0, amount1 := amounts.0, amounts.1;
        if tickCurrent >= lower && tickCurrent < upper {
          liquidity :- AddDelta(liquidity, delta);
        }
      }
      r := Ok(Modified(tickLowerState, tickUpperState, flippedLower, flippedUpper, liquidity, amount0, amount1));
    }

    /** The liquidity, flip and slippage-free part of `add_liquidity`, for position `i` or for a new
        one when `i` is their number. */
    method AddLiquidity(i: nat, lower: int, upper: int, amount: nat) returns (r: Result<(int, int)>)
      requires Valid() && i <= |positions|
      requires i < |positions| ==> lower == positions[i].lower && upper == positions[i].upper
      modifies this
      ensures Valid()
      ensures r.Ok? ==> PoolModel.AddLiquidity(old(Value()), i, lower, upper, amount) == Ok(Value())
      ensures r.Err? ==> PoolModel.AddLiquidity(old(Value()), i, lower, upper, amount).Err?
                         || !Covered(ArrayStart(lower, tickSpacing)) || !Covered(ArrayStart(upper, tickSpacing))
    {
      hide BitsOf, ArrayStart, IsValidStart, PoolModel.ModifyPosition, Mark, Aligned;
      if !ValidRange(tickSpacing, lower, upper) { return Err(InvalidTickIndex); }
      if amount == 0 { return Err(ZeroLiquidity); }
      if amount > I128_MAX { return Err(CalculateOverflow); }
      RangeParts(tickSpacing, lower, upper);
      var result :- ModifyPosition(lower, upper, amount);
      ticks := ticks[lower := result.lower];
      ticks := ticks[upper := result.upper];
      if result.flippedLower {
        var marked :- MarkTick(lower);
      }
      if result.flippedUpper {
        var marked :- MarkTick(upper);
      }
      if result.amount0 == 0 && result.amount1 == 0 { return Err(RequireViolated); }
      var before := if i < |positions| then positions[i].liquidity else 0;
      var grown := Position(lower, upper, before + amount);
      positions := if i < |positions| then positions[i := grown] else positions + [grown];
      r := Ok((result.amount0, result.amount1));
    }

    /** `burn_liquidity` for position `i`. */
    method BurnLiquidity(i: nat, amount: nat) returns (r: Result<(int, int)>)
      requires Valid() && i < |positions|
      modifies this
      ensures Valid()
      ensures r.Ok? ==> PoolModel.BurnLiquidity(old(Value()), i, amount) == Ok(Value())
      ensures r.Err? ==> PoolModel.BurnLiquidity(old(Value()), i, amount).Err?
                         || !Covered(ArrayStart(old(positions[i].lower), tickSpacing))
                            || !Covered(ArrayStart(old(positions[i].upper), tickSpacing))
    {
      hide BitsOf, ArrayStart, IsValidStart, PoolModel.ModifyPosition, Unmark, Aligned;
      var position := positions[i];
      if !ValidRange(tickSpacing, position.lower, position.upper) { return Err(InvalidTickIndex); }
      if position.liquidity < amount { return Err(RequireViolated); }
      if amount > I128_MAX { return Err(CalculateOverflow); }
      RangeParts(tickSpacing, position.lower, position.upper);
      var result :- ModifyPosition(position.lower, position.upper, 0 - (amount as int));
      ticks := ticks[position.lower := result.lower];
      ticks := ticks[position.upper := result.upper];
      if result.flippedLower {
        var unmarked :- UnmarkTick(position.lower);
      }
      if result.flippedUpper {
        var unmarked :- UnmarkTick(position.upper);
      }
      positions := positions[i := position.(liquidity := position.liquidity - amount)];
      r := Ok((result.amount0, result.amount1));
    }
  }
}
