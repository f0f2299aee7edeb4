/** Liquidity from a token budget, and the budget and the deposit it is safe against. */
module LiquidityBudget {
  import opened Types
  import opened Arith
  import opened FullMath
  import opened LiquidityMath
  import opened TickMath

  // ---- Liquidity a budget buys ----

  function LiquidityFromAmount0(a: u128, b: u128, amount: u64): Result<nat> {
    if amount == 0 then Ok(0)
    else
      var lo, hi := Min(a, b), Max(a, b);
      match MulDivFloor(lo, hi, Q64, U128_MAX)
      case None => Err(CalculateOverflow)
      case Some(intermediate) =>
        match MulDivFloor(amount, intermediate, hi - lo, U128_MAX)
        case None => Err(CalculateOverflow)
        case Some(liquidity) => Ok(liquidity)
  }

  function LiquidityFromAmount1(a: u128, b: u128, amount: u64): Result<nat> {
    if amount == 0 then Ok(0)
    else
      match MulDivFloor(amount, Q64, Max(a, b) - Min(a, b), U128_MAX)
      case None => Err(CalculateOverflow)
      case Some(liquidity) => Ok(liquidity)
  }

  function LiquidityFromAmounts(price: u128, a: u128, b: u128, amount0: u64, amount1: u64): Result<nat> {
    var lo, hi := Min(a, b), Max(a, b);
    if price <= lo then LiquidityFromAmount0(lo, hi, amount0)
    else if price < hi then
      var l0 :- LiquidityFromAmount0(price, hi, amount0);
      var l1 :- LiquidityFromAmount1(lo, price, amount1);
      Ok(Min(l0, l1))
    else LiquidityFromAmount1(lo, hi, amount1)
  }

  function LiquidityFromSingleAmount0(price: u128, a: u128, b: u128, amount0: u64): Result<nat> {
    var lo, hi := Min(a, b), Max(a, b);
    if price <= lo then LiquidityFromAmount0(lo, hi, amount0)
    else if price < hi then LiquidityFromAmount0(price, hi, amount0)
    else Ok(0)
  }

  function LiquidityFromSingleAmount1(price: u128, a: u128, b: u128, amount1: u64): Result<nat> {
    var lo, hi := Min(a, b), Max(a, b);
    if price <= lo then Ok(0)
    else if price < hi then LiquidityFromAmount1(lo, price, amount1)
    else LiquidityFromAmount1(lo, hi, amount1)
  }

  /** The token 0 liquidity costs at most the budget, and falls short of the most the budget
      could buy by at most one for each time the budget covers the price range, plus one. */
  lemma Amount0BuysWithinBudget(lo: u128, hi: u128, amount: u64, more: nat)
    requires 0 < lo < hi && amount > 0 && LiquidityFromAmount0(lo, hi, amount).Ok?
    ensures var l := LiquidityFromAmount0(lo, hi, amount).value;
            && In0(lo, hi, l) <= amount
            && (In0(lo, hi, more) <= amount ==> more <= l + amount / (hi - lo) + 1)
  {
    hide In0;
    var l := LiquidityFromAmount0(lo, hi, amount).value;
    var intermediate := MulDivFloor(lo, hi, Q64, U128_MAX).value;
    hide LiquidityFromAmount0, MulDivFloor;
    In0Iff(lo, hi, l, amount);
    In0Iff(lo, hi, more, amount);
    FloorTwice(l, hi - lo, amount, intermediate, lo * hi);
    Rotate(amount, lo, hi);
    if In0(lo, hi, more) <= amount { FloorTwiceLoses(l, hi - lo, amount, intermediate, lo * hi, more); }
  }

  lemma FloorTwice(l: nat, d: nat, amount: nat, intermediate: nat, product: nat)
    requires intermediate * Q64 <= product && l * d <= amount * intermediate
    ensures l * Q64 * d <= amount * product
  {
    Rotate(l, Q64, d);
    Rotate(amount, intermediate, Q64);
    MulLe(l * d, amount * intermediate, Q64);
    MulLe(intermediate * Q64, product, amount);
  }

  lemma FloorTwiceLoses(l: nat, d: nat, amount: nat, intermediate: nat, product: nat, more: nat)
    requires 0 < d && product < intermediate * Q64 + Q64
    requires amount * intermediate < l * d + d && more * Q64 * d <= amount * product
    ensures more <= l + amount / d + 1
  {
    Rotate(more, Q64, d);
    MulLe(product, intermediate * Q64 + Q64, amount);
    Distribute(amount, intermediate * Q64, Q64);
    Rotate(amount, intermediate, Q64);
    MulLe(0, amount, intermediate);
    Distribute(Q64, amount * intermediate, amount);
    MulCancelLe(more * d, amount * intermediate + amount, Q64);
    DivBounds(amount, d);
    AddQuotients(l, amount / d, d);
    MulCancelLt(more, l + amount / d + 2, d);
  }

  lemma AddQuotients(l: nat, e: nat, d: nat)
    ensures (l + e + 2) * d == l * d + e * d + d + d
  {}

  /** The token 1 liquidity is exactly the most the budget buys. */
  lemma Amount1BuysTheMost(lo: u128, hi: u128, amount: u64, more: nat)
    requires lo < hi && amount > 0 && LiquidityFromAmount1(lo, hi, amount).Ok?
    ensures In1(lo, hi, more) <= amount <==> more <= LiquidityFromAmount1(lo, hi, amount).value
  {
    var l := LiquidityFromAmount1(lo, hi, amount).value;
    In1Iff(lo, hi, more, amount);
    FloorUnique(amount * Q64, hi - lo, l);
    FloorIff(amount * Q64, hi - lo, more);
  }

  // ---- What liquidity costs and what burning it returns ----

  function DeltaAmount0Signed(a: u128, b: u128, delta: i128): Result<int> {
    var magnitude: int := if delta < 0 then 0 - (delta as int) else delta;
    if delta < -I128_MAX then Err(CalculateOverflow)
    else GetDeltaAmount0Unsigned(a, b, magnitude, delta >= 0)
  }

  function DeltaAmount1Signed(a: u128, b: u128, delta: i128): Result<int> {
    var magnitude: int := if delta < 0 then 0 - (delta as int) else delta;
    if delta < -I128_MAX then Err(CalculateOverflow)
    else GetDeltaAmount1Unsigned(a, b, magnitude, delta >= 0)
  }

  function PriceOf(tick: int): (p: u128)
    requires MIN_TICK <= tick <= MAX_TICK
    ensures p == SqrtPriceAtTick(tick)
  {
    hide Ratio, Invert, SqrtPriceAtTick;
    SqrtPriceRange(tick);
    SqrtPriceAtTick(tick)
  }

  /** `get_delta_amounts_signed`, for ticks in range. */
  function DeltaAmountsSigned(tick: int, price: u128, lower: int, upper: int, delta: i128): Result<(int, int)>
    requires MIN_TICK <= lower <= MAX_TICK && MIN_TICK <= upper <= MAX_TICK
  {
    hide PriceOf;
    var a, b := PriceOf(lower), PriceOf(upper);
    if tick < lower then
      var amount0 :- DeltaAmount0Signed(a, b, delta);
      Ok((amount0, 0))
    else if tick < upper then
      var amount0 :- DeltaAmount0Signed(price, b, delta);
      var amount1 :- DeltaAmount1Signed(a, price, delta);
      Ok((amount0, amount1))
    else
      var amount1 :- DeltaAmount1Signed(a, b, delta);
      Ok((0, amount1))
  }

  /** The price of a pool whose current tick is `tick`; the upper bound is attained right after an
      initialized tick was crossed downwards. */
  predicate PriceAtTick(tick: int, price: nat) {
    && MIN_TICK <= tick < MAX_TICK
    && SqrtPriceAtTick(tick) <= price <= SqrtPriceAtTick(tick + 1)
  }

  lemma TickSideIsPriceSide(tick: int, price: nat, bound: int)
    requires PriceAtTick(tick, price) && MIN_TICK <= bound <= MAX_TICK
    ensures tick < bound ==> price <= SqrtPriceAtTick(bound)
    ensures bound <= tick ==> SqrtPriceAtTick(bound) <= price
  {
    hide Ratio, Invert, SqrtPriceAtTick;
    if tick + 1 < bound { SqrtPriceIncreasing(tick + 1, bound); }
    if bound < tick { SqrtPriceIncreasing(bound, tick); }
  }

  /** The range of each token that a position with prices `a` to `b` spans at `price`. */
  function Clamp(price: nat, a: nat, b: nat): nat { Max(a, Min(price, b)) }

  /** Whatever the branch on ticks, the amounts are those of the two parts of the range the price
      divides, rounded up for a mint and down for a burn. */
  lemma DeltaAmountsAre(tick: int, price: u128, lower: int, upper: int, delta: i128)
    requires MIN_TICK <= lower < upper <= MAX_TICK && PriceAtTick(tick, price)
    requires -I128_MAX <= delta
    ensures var a, b := SqrtPriceAtTick(lower), SqrtPriceAtTick(upper);
            && 0 < a < b <= U128_MAX
            && var p := Clamp(price, a, b);
               var l: nat := if delta < 0 then 0 - (delta as int) else delta;
               var amount0 := if delta < 0 then Out0(p, b, l) else In0(p, b, l);
               var amount1 := if delta < 0 then Out1(a, p, l) else In1(a, p, l);
               && (amount0 <= U64_MAX && amount1 <= U64_MAX ==>
                     DeltaAmountsSigned(tick, price, lower, upper, delta) == Ok((amount0, amount1)))
               && (DeltaAmountsSigned(tick, price, lower, upper, delta).Ok?
                  ==> amount0 <= U64_MAX && amount1 <= U64_MAX)
  {
    hide Ratio, Invert, SqrtPriceAtTick, In0, Out0, In1, Out1;
    var a, b := SqrtPriceAtTick(lower), SqrtPriceAtTick(upper);
    SqrtPriceRange(lower);
    SqrtPriceRange(upper);
    SqrtPriceIncreasing(lower, upper);
    TickSideIsPriceSide(tick, price, lower);
    TickSideIsPriceSide(tick, price, upper);
    var l: nat := if delta < 0 then 0 - (delta as int) else delta;
    EmptyRange(a, l);
    EmptyRange(b, l);
  }

  lemma EmptyRange(p: nat, l: nat)
    requires p > 0
    ensures In0(p, p, l) == 0 && Out0(p, p, l) == 0 && In1(p, p, l) == 0 && Out1(p, p, l) == 0
  {
    In0Iff(p, p, l, 0);
    Out0Iff(p, p, l, 1);
    In1Iff(p, p, l, 0);
    Out1Iff(p, p, l, 1);
  }

  // ---- A budget covers its liquidity ----

  lemma CostMonotone(lo: nat, hi: nat, l: nat, most: nat)
    requires 0 < lo <= hi && l <= most
    ensures In0(lo, hi, l) <= In0(lo, hi, most) && In1(lo, hi, l) <= In1(lo, hi, most)
  {
    In0Iff(lo, hi, most, In0(lo, hi, most));
    In0Iff(lo, hi, l, In0(lo, hi, most));
    In1Iff(lo, hi, most, In1(lo, hi, most));
    In1Iff(lo, hi, l, In1(lo, hi, most));
    MulLe(l, most, Q64 * (hi - lo));
    Rotate(l, Q64, hi - lo);
    Rotate(most, Q64, hi - lo);
    MulLe(l, most, hi - lo);
  }

  lemma Amount0Covers(lo: u128, hi: u128, amount: u64)
    requires 0 < lo < hi && LiquidityFromAmount0(lo, hi, amount).Ok?
    ensures In0(lo, hi, LiquidityFromAmount0(lo, hi, amount).value) <= amount
  {
    if amount == 0 { In0Iff(lo, hi, 0, 0); } else { Amount0BuysWithinBudget(lo, hi, amount, 0); }
  }

  lemma Amount1Covers(lo: u128, hi: u128, amount: u64)
    requires lo < hi && LiquidityFromAmount1(lo, hi, amount).Ok?
    ensures In1(lo, hi, LiquidityFromAmount1(lo, hi, amount).value) <= amount
  {
    if amount == 0 { In1Iff(lo, hi, 0, 0); }
    else { Amount1BuysTheMost(lo, hi, amount, LiquidityFromAmount1(lo, hi, amount).value); }
  }

  lemma BudgetCoversRange(price: u128, a: u128, b: u128, amount0: u64, amount1: u64)
    requires 0 < a < b && LiquidityFromAmounts(price, a, b, amount0, amount1).Ok?
    ensures var l, p := LiquidityFromAmounts(price, a, b, amount0, amount1).value, Clamp(price, a, b);
            In0(p, b, l) <= amount0 && In1(a, p, l) <= amount1
  {
    hide In0, In1, LiquidityFromAmount0, LiquidityFromAmount1;
    var l := LiquidityFromAmounts(price, a, b, amount0, amount1).value;
    if price <= a {
      EmptyRange(a, l);
      Amount0Covers(a, b, amount0);
    } else if price < b {
      Amount0Covers(price, b, amount0);
      Amount1Covers(a, price, amount1);
      CostMonotone(price, b, l, LiquidityFromAmount0(price, b, amount0).value);
      CostMonotone(a, price, l, LiquidityFromAmount1(a, price, amount1).value);
    } else {
      EmptyRange(b, l);
      Amount1Covers(a, b, amount1);
    }
  }

  lemma SingleCoversRange(price: u128, a: u128, b: u128, amount: u64)
    requires 0 < a < b
    ensures var l, p := LiquidityFromSingleAmount0(price, a, b, amount), Clamp(price, a, b);
            l.Ok? ==> In0(p, b, l.value) <= amount
    ensures var l, p := LiquidityFromSingleAmount1(price, a, b, amount), Clamp(price, a, b);
            l.Ok? ==> In1(a, p, l.value) <= amount
  {
    hide In0, In1, LiquidityFromAmount0, LiquidityFromAmount1;
    var l0, l1 := LiquidityFromSingleAmount0(price, a, b, amount), LiquidityFromSingleAmount1(price, a, b, amount);
    if l0.Ok? {
      if price < b { Amount0Covers(Max(a, price), b, amount); } else { EmptyRange(b, l0.value); }
    }
    if l1.Ok? {
      if a < price { Amount1Covers(a, Min(price, b), amount); } else { EmptyRange(a, l1.value); }
    }
  }

  /** In every position of the price, what minting the liquidity bought with a budget costs,
      rounded up, is within the budget on both sides. */
  lemma BudgetCovers(tick: int, price: u128, lower: int, upper: int, amount0: u64, amount1: u64)
    requires MIN_TICK <= lower < upper <= MAX_TICK && PriceAtTick(tick, price)
    requires var l := LiquidityFromAmounts(price, PriceOf(lower), PriceOf(upper), amount0, amount1);
             l.Ok? && l.value <= I128_MAX
    ensures var l := LiquidityFromAmounts(price, PriceOf(lower), PriceOf(upper), amount0, amount1).value;
            && DeltaAmountsSigned(tick, price, lower, upper, l).Ok?
            && var cost := DeltaAmountsSigned(tick, price, lower, upper, l).value;
               cost.0 <= amount0 && cost.1 <= amount1
  {
    hide Ratio, Invert, SqrtPriceAtTick, PriceOf, In0, Out0, In1, Out1, LiquidityFromAmounts, DeltaAmountsSigned,
        PriceAtTick;
    SqrtPriceRange(lower);
    SqrtPriceRange(upper);
    var a, b := PriceOf(lower), PriceOf(upper);
    DeltaAmountsAre(tick, price, lower, upper, LiquidityFromAmounts(price, a, b, amount0, amount1).value);
    BudgetCoversRange(price, a, b, amount0, amount1);
  }

  /** The single-sided forms cover their own side. */
  lemma SingleBudgetCovers(tick: int, price: u128, lower: int, upper: int, amount: u64, l: nat)
    requires MIN_TICK <= lower < upper <= MAX_TICK && PriceAtTick(tick, price)
    requires l <= I128_MAX && DeltaAmountsSigned(tick, price, lower, upper, l).Ok?
    ensures var cost := DeltaAmountsSigned(tick, price, lower, upper, l).value;
            && (LiquidityFromSingleAmount0(price, PriceOf(lower), PriceOf(upper), amount) == Ok(l) ==> cost.0 <= amount)
            && (LiquidityFromSingleAmount1(price, PriceOf(lower), PriceOf(upper), amount) == Ok(l) ==> cost.1 <= amount)
  {
    hide Ratio, Invert, SqrtPriceAtTick, PriceOf, In0, Out0, In1, Out1, LiquidityFromSingleAmount0,
        LiquidityFromSingleAmount1, DeltaAmountsSigned, PriceAtTick;
    SqrtPriceRange(lower);
    SqrtPriceRange(upper);
    DeltaAmountsAre(tick, price, lower, upper, l);
    SingleCoversRange(price, PriceOf(lower), PriceOf(upper), amount);
  }

  // ---- And buys what it can ----

  lemma Amount0Buys(lo: u128, hi: u128, amount: u64, more: nat)
    requires 0 < lo < hi && LiquidityFromAmount0(lo, hi, amount).Ok? && In0(lo, hi, more) <= amount
    ensures more <= LiquidityFromAmount0(lo, hi, amount).value + amount / (hi - lo) + 1
  {
    hide In0;
    if amount == 0 {
      In0Iff(lo, hi, more, 0);
      if more > 0 { MulLe(1, more * Q64, hi - lo); }
    } else {
      Amount0BuysWithinBudget(lo, hi, amount, more);
    }
  }

  lemma Amount1Buys(lo: u128, hi: u128, amount: u64, more: nat)
    requires lo < hi && LiquidityFromAmount1(lo, hi, amount).Ok? && In1(lo, hi, more) <= amount
    ensures more <= LiquidityFromAmount1(lo, hi, amount).value
  {
    hide In1;
    if amount == 0 {
      In1Iff(lo, hi, more, 0);
      if more > 0 { MulLe(1, more, hi - lo); }
    } else {
      Amount1BuysTheMost(lo, hi, amount, more);
    }
  }

  /** What rounding twice on the token 0 side may cost: one for each time the budget covers the range, plus one. */
  function Shortfall(p: nat, b: nat, amount0: nat): nat { if p < b then amount0 / (b - p) + 1 else 0 }

  /** No liquidity whose cost both budgets cover exceeds what they buy by more than the shortfall of token 0. */
  lemma BudgetBuysTheMost(price: u128, a: u128, b: u128, amount0: u64, amount1: u64, more: nat)
    requires 0 < a < b && LiquidityFromAmounts(price, a, b, amount0, amount1).Ok?
    requires var p := Clamp(price, a, b); In0(p, b, more) <= amount0 && In1(a, p, more) <= amount1
    ensures more <= LiquidityFromAmounts(price, a, b, amount0, amount1).value
                + Shortfall(Clamp(price, a, b), b, amount0)
  {
    hide In0, In1, LiquidityFromAmount0, LiquidityFromAmount1;
    if price <= a {
      Amount0Buys(a, b, amount0, more);
    } else if price < b {
      Amount0Buys(price, b, amount0, more);
      Amount1Buys(a, price, amount1, more);
    } else {
      Amount1Buys(a, b, amount1, more);
    }
  }

  /** Nor do the single-sided forms buy less of their own side. */
  lemma SingleBuysTheMost(price: u128, a: u128, b: u128, amount: u64, more: nat)
    requires 0 < a < b
    ensures var l, p := LiquidityFromSingleAmount0(price, a, b, amount), Clamp(price, a, b);
            l.Ok? && p < b && In0(p, b, more) <= amount ==> more <= l.value + Shortfall(p, b, amount)
    ensures var l, p := LiquidityFromSingleAmount1(price, a, b, amount), Clamp(price, a, b);
            l.Ok? && a < p && In1(a, p, more) <= amount ==> more <= l.value
  {
    hide In0, In1, LiquidityFromAmount0, LiquidityFromAmount1;
    var l0, l1 := LiquidityFromSingleAmount0(price, a, b, amount), LiquidityFromSingleAmount1(price, a, b, amount);
    var p := Clamp(price, a, b);
    if l0.Ok? && p < b && In0(p, b, more) <= amount { Amount0Buys(p, b, amount, more); }
    if l1.Ok? && a < p && In1(a, p, more) <= amount { Amount1Buys(a, p, amount, more); }
  }

  // ---- Burning in pieces ----

  function Sum(pieces: seq<nat>): nat {
    if pieces == [] then 0 else Sum(pieces[..|pieces| - 1]) + pieces[|pieces| - 1]
  }

  /** Both tokens returned by burning the pieces one after another at one price. */
  function BurnAll(tick: int, price: u128, lower: int, upper: int, pieces: seq<nat>): Result<(int, int)>
    requires MIN_TICK <= lower <= MAX_TICK && MIN_TICK <= upper <= MAX_TICK
  {
    hide DeltaAmountsSigned, Ratio, Invert, SqrtPriceAtTick;
    if pieces == [] then Ok((0, 0))
    else if pieces[|pieces| - 1] > I128_MAX then Err(CalculateOverflow)
    else
      var before :- BurnAll(tick, price, lower, upper, pieces[..|pieces| - 1]);
      var piece: int := pieces[|pieces| - 1];
      var last :- DeltaAmountsSigned(tick, price, lower, upper, -piece);
      Ok((before.0 + last.0, before.1 + last.1))
  }

  lemma OutSuperadditive(lo: nat, hi: nat, x: nat, y: nat)
    requires 0 < lo <= hi
    ensures Out0(lo, hi, x) + Out0(lo, hi, y) <= Out0(lo, hi, x + y)
    ensures Out1(lo, hi, x) + Out1(lo, hi, y) <= Out1(lo, hi, x + y)
  {
    var u, v := Out0(lo, hi, x), Out0(lo, hi, y);
    Out0Iff(lo, hi, x, u);
    Out0Iff(lo, hi, y, v);
    Out0Iff(lo, hi, x + y, u + v);
    hide Out0;
    Distribute(Q64, x, y);
    Distribute(hi - lo, x * Q64, y * Q64);
    Distribute(lo, u, v);
    Distribute(hi, u * lo, v * lo);
    Superadditive1(lo, hi, x, y);
  }

  lemma Superadditive1(lo: nat, hi: nat, x: nat, y: nat)
    requires 0 < lo <= hi
    ensures Out1(lo, hi, x) + Out1(lo, hi, y) <= Out1(lo, hi, x + y)
  {
    MulLe(0, x, hi - lo);
    MulLe(0, y, hi - lo);
    Distribute(hi - lo, x, y);
    FloorSuperadditive(x * (hi - lo), y * (hi - lo), Q64);
  }

  lemma BurnBelowMint(lo: nat, hi: nat, l: nat, total: nat)
    requires 0 < lo <= hi && l <= total
    ensures Out0(lo, hi, l) <= In0(lo, hi, total) && Out1(lo, hi, l) <= In1(lo, hi, total)
  {
    CostMonotone(lo, hi, l, total);
    hide In0, Out0, In1, Out1;
    var k: int := Out0(lo, hi, l);
    Out0Iff(lo, hi, l, k);
    In0Iff(lo, hi, l, k - 1);
    MulLt(k - 1, k, lo);
    MulLt((k - 1) * lo, k * lo, hi);
    var n: int := Out1(lo, hi, l);
    Out1Iff(lo, hi, l, n);
    In1Iff(lo, hi, l, n - 1);
  }

  lemma {:induction false} PiecesBelowWhole(tick: int, price: u128, lower: int, upper: int, pieces: seq<nat>)
    requires MIN_TICK <= lower < upper <= MAX_TICK && PriceAtTick(tick, price) && Sum(pieces) <= I128_MAX
    requires var a, b := SqrtPriceAtTick(lower), SqrtPriceAtTick(upper);
             && 0 < a <= b
             && var p := Clamp(price, a, b); Out0(p, b, Sum(pieces)) <= U64_MAX && Out1(a, p, Sum(pieces)) <= U64_MAX
    ensures var a, b := SqrtPriceAtTick(lower), SqrtPriceAtTick(upper);
            var p := Clamp(price, a, b);
            var burned := BurnAll(tick, price, lower, upper, pieces);
            && burned.Ok?
            && burned.value.0 <= Out0(p, b, Sum(pieces))
            && burned.value.1 <= Out1(a, p, Sum(pieces))
    decreases |pieces|
  {
    hide Ratio, Invert, SqrtPriceAtTick, In0, Out0, In1, Out1, DeltaAmountsSigned, PriceAtTick;
    if pieces != [] {
      var last: int, rest := pieces[|pieces| - 1], pieces[..|pieces| - 1];
      var a, b := SqrtPriceAtTick(lower), SqrtPriceAtTick(upper);
      var p := Clamp(price, a, b);
      OutSuperadditive(p, b, Sum(rest), last);
      OutSuperadditive(a, p, Sum(rest), last);
      DeltaAmountsAre(tick, price, lower, upper, 0 - last);
      EmptyRange(a, 0);
      PiecesBelowWhole(tick, price, lower, upper, rest);
      NothingBurned(p, b);
      NothingBurned(a, p);
    }
  }

  lemma NothingBurned(lo: nat, hi: nat)
    requires 0 < lo <= hi
    ensures In0(lo, hi, 0) == 0 && In1(lo, hi, 0) == 0 && Out0(lo, hi, 0) == 0 && Out1(lo, hi, 0) == 0
  {
    In0Iff(lo, hi, 0, 0);
    In1Iff(lo, hi, 0, 0);
    Out0Iff(lo, hi, 0, 1);
    Out1Iff(lo, hi, 0, 1);
  }

  /** Liquidity minted for some deposit and burned in any pieces at the same price: no burn
      fails, and together they return at most the deposit on each side. */
  lemma BurningReturnsAtMostTheDeposit(tick: int, price: u128, lower: int, upper: int, liquidity: nat, pieces: seq<nat>)
    requires MIN_TICK <= lower < upper <= MAX_TICK && PriceAtTick(tick, price)
    requires Sum(pieces) <= liquidity <= I128_MAX && DeltaAmountsSigned(tick, price, lower, upper, liquidity).Ok?
    ensures var deposit := DeltaAmountsSigned(tick, price, lower, upper, liquidity).value;
            var burned := BurnAll(tick, price, lower, upper, pieces);
            burned.Ok? && burned.value.0 <= deposit.0 && burned.value.1 <= deposit.1
  {
    hide Ratio, Invert, SqrtPriceAtTick, In0, Out0, In1, Out1, DeltaAmountsSigned, PriceAtTick, BurnAll;
    var a, b := SqrtPriceAtTick(lower), SqrtPriceAtTick(upper);
    DeltaAmountsAre(tick, price, lower, upper, liquidity);
    var p := Clamp(price, a, b);
    BurnBelowMint(p, b, Sum(pieces), liquidity);
    BurnBelowMint(a, p, Sum(pieces), liquidity);
    PiecesBelowWhole(tick, price, lower, upper, pieces);
  }
}
