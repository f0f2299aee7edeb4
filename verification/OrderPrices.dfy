/** At every tick limit orders trade at that tick's price: the square of its square-root price, rounded to either
    side, which is 1.0001 to the power of the tick. */
module OrderPrices {
  import opened Types
  import opened Arith
  import opened TickMath
  import opened Powers
  import opened TickBase
  import opened PriceAccuracy
  import opened LimitOrder

  /** The two roundings enclose the square of the sqrt price, and differ by at most one. */
  lemma QuoteEncloses(tick: int, zeroForOne: bool)
    requires MIN_TICK <= tick <= MAX_TICK
    ensures var q, p := QuoteAt(tick, zeroForOne), SqrtPriceAtTick(tick);
            && q.floorPrice * Q64 <= p * p < (q.floorPrice + 1) * Q64
            && (q.ceilPrice - 1) * Q64 < p * p <= q.ceilPrice * Q64
            && q.floorPrice <= q.ceilPrice <= q.floorPrice + 1
  {
    hide Ratio, Invert, SqrtPriceAtTick;
    var p := SqrtPriceAtTick(tick);
    SqrtPriceRange(tick);
    SquareFits(p);
    DivBounds(p * p, Q64);
    CeilIff(p * p, Q64, p * p / Q64 + 1);
  }

  /** The powers of 1.0001 whose quotient is the price: the one of a negative tick goes below. */
  function Above(tick: int): real { if tick > 0 then Pow(BASE, tick) else 1.0 }

  function Below(tick: int): real { if tick < 0 then Pow(BASE, -tick) else 1.0 }

  /** What a tick's price may differ by from the power. */
  function Factor(): real { Pow(1.0 + LAMBDA, 20) }

  lemma PowersPositive(tick: int)
    ensures Above(tick) > 0.0 && Below(tick) > 0.0 && Factor() > 0.0 && Q64 as real > 0.0
  {
    PowPositive(BASE, if tick > 0 then tick else 0);
    PowPositive(BASE, if tick < 0 then -tick else 0);
    PowPositive(1.0 + LAMBDA, 20);
  }

  lemma SquareFollowsPower(tick: int)
    requires MIN_TICK <= tick <= MAX_TICK
    ensures var square := (SqrtPriceAtTick(tick) * SqrtPriceAtTick(tick)) as real;
            Follows(square, square, Q128, Above(tick), Below(tick), Factor())
  {
    hide Ratio, Invert, SqrtPriceAtTick;
    PriceClose(tick);
  }

  /** `low / one` does not exceed `a / b`, nor does that exceed `high / one`, up to the factor `f`. */
  predicate Follows(low: real, high: real, one: real, a: real, b: real, f: real) {
    low * b <= one * a * f && one * a <= high * b * f
  }

  /** Both roundings of the price are 1.0001 to the tick, within the factor and one unit of 2^-64. */
  lemma QuoteFollowsPower(tick: int, zeroForOne: bool)
    requires MIN_TICK <= tick <= MAX_TICK
    ensures var q, one, a, b := QuoteAt(tick, zeroForOne), Q64 as real, Above(tick), Below(tick);
            && Follows(q.floorPrice as real, (q.floorPrice + 1) as real, one, a, b, Factor())
            && Follows((q.ceilPrice - 1) as real, q.ceilPrice as real, one, a, b, Factor())
  {
    hide *;
    QuoteEncloses(tick, zeroForOne);
    SquareFollowsPower(tick);
    PowersPositive(tick);
    var low: int, high: int := QuoteAt(tick, zeroForOne).floorPrice, QuoteAt(tick, zeroForOne).ceilPrice;
    var square: int := SqrtPriceAtTick(tick) * SqrtPriceAtTick(tick);
    Scaled(low, low + 1, square, Above(tick), Below(tick), Factor());
    Scaled(high - 1, high, square, Above(tick), Below(tick), Factor());
  }

  lemma Scaled(x: int, y: int, square: int, a: real, b: real, f: real)
    requires x * Q64 <= square <= y * Q64 && 0.0 < b && 0.0 < f
    requires Follows(square as real, square as real, Q128, a, b, f)
    ensures Follows(x as real, y as real, Q64 as real, a, b, f)
  {
    ScaleDown(x, square, a, b, f);
    ScaleUp(y, square, a, b, f);
  }

  lemma ScaleDown(x: int, square: int, a: real, b: real, f: real)
    requires x * Q64 <= square && 0.0 < b && square as real * b <= Q128 * a * f
    ensures x as real * b <= Q64 as real * a * f
  {
  }

  lemma ScaleUp(x: int, square: int, a: real, b: real, f: real)
    requires square <= x * Q64 && 0.0 < b && 0.0 < f && Q128 * a <= square as real * b * f
    ensures Q64 as real * a <= x as real * b * f
  {
  }

  /** `paid` is `n / d` rounded down. */
  predicate Floors(paid: real, n: real, d: real) { paid * d <= n <= (paid + 1.0) * d }

  /** `paid` tokens are `units` times `a / b`, but for the factor, one token and the rounding of the price. */
  predicate PaysToken1(paid: real, units: real, one: real, a: real, b: real, f: real) {
    paid * b <= units * a * f && one * (units * a) <= ((paid + 1.0) * one + units) * (b * f)
  }

  /** `paid` tokens are `units` over `a / b`, but for the factor, one token and the rounding of the price. */
  predicate PaysToken0(paid: real, units: real, one: real, a: real, b: real, f: real) {
    paid * a <= units * b * f && one * (units * b) <= (paid + 1.0) * (one * a * f + b)
  }

  /** So `x` filled units are paid the price of the tick in the other token: of token 0 the price times `x` in token 1,
      of token 1 `x` over the price in token 0. */
  lemma OrdersPayThePrice(tick: int, zeroForOne: bool, x: nat)
    requires MIN_TICK <= tick <= MAX_TICK
    ensures var paid, units, one := QuoteAt(tick, zeroForOne).Out(x) as real, x as real, Q64 as real;
            var a, b, f := Above(tick), Below(tick), Factor();
            if zeroForOne then PaysToken1(paid, units, one, a, b, f) else PaysToken0(paid, units, one, a, b, f)
  {
    hide *;
    var q, one, a, b, f := QuoteAt(tick, zeroForOne), Q64 as real, Above(tick), Below(tick), Factor();
    PowersPositive(tick);
    OutIs(q, x);
    QuoteFollowsPower(tick, zeroForOne);
    if zeroForOne {
      SellsToken0(x as real, q.Out(x) as real, q.floorPrice as real, one, a, b, f);
    } else {
      SellsToken1(x as real, q.Out(x) as real, q.ceilPrice as real, one, a, b, f);
    }
  }

  lemma OutIs(q: Quote, x: nat)
    requires q.Valid()
    ensures var paid, units, one := q.Out(x) as real, x as real, Q64 as real;
            if q.zeroForOne then Floors(paid, units * q.floorPrice as real, one)
            else Floors(paid, units * one, q.ceilPrice as real)
  {
    MulLe(0, x, q.floorPrice);
    var n, d := x * q.Num(), q.Den();
    DivBounds(n, d);
    Casts(x, q.Num(), q.Out(x), d);
  }

  lemma Casts(x: nat, n: nat, r: nat, d: nat)
    requires r * d <= x * n < r * d + d
    ensures Floors(r as real, x as real * n as real, d as real)
  {
    assert (r * d) as real == r as real * d as real && (x * n) as real == x as real * n as real;
  }

  lemma SellsToken0(x: real, paid: real, price: real, one: real, a: real, b: real, f: real)
    requires 0.0 <= x && 0.0 < one && 0.0 < b && 0.0 < f
    requires Floors(paid, x * price, one) && Follows(price, price + 1.0, one, a, b, f)
    ensures PaysToken1(paid, x, one, a, b, f)
  {
    PaysAtMost(x, paid, price, one, a, b, f);
    Regroup4(price + 1.0, b, f);
    PaysAtLeast(x, paid, price, one, one * a, b * f);
    Regroup3(x, one, a);
  }

  lemma PaysAtLeast(x: real, paid: real, price: real, one: real, y: real, g: real)
    requires 0.0 <= x && 0.0 <= g && x * price <= (paid + 1.0) * one && y <= (price + 1.0) * g
    ensures x * y <= ((paid + 1.0) * one + x) * g
  {
    Scale(y, (price + 1.0) * g, x);
    Rotate3(x, price + 1.0, g);
    assert x * (price + 1.0) == x * price + x;
    Scale(x * price + x, (paid + 1.0) * one + x, g);
  }

  lemma PaysAtMost(x: real, paid: real, price: real, one: real, a: real, b: real, f: real)
    requires 0.0 <= x && 0.0 < one && 0.0 < b && paid * one <= x * price && price * b <= one * a * f
    ensures paid * b <= x * a * f
  {
    Scale(paid * one, x * price, b);
    Scale(price * b, one * a * f, x);
    Rotate3(paid, one, b);
    Rotate3(x, price, b);
    Rotate4(one, a, f, x);
    Cancel(paid * b, x * a * f, one);
  }

  lemma SellsToken1(x: real, paid: real, price: real, one: real, a: real, b: real, f: real)
    requires 0.0 <= x && 0.0 <= paid && 0.0 < one && 0.0 < b && 0.0 < f
    requires Floors(paid, x * one, price) && Follows(price - 1.0, price, one, a, b, f)
    ensures PaysToken0(paid, x, one, a, b, f)
  {
    OwesAtMost(x, paid, price, one, a, b, f);
    OwesAtLeast(x, paid, price, one, b, one * a * f);
  }

  lemma OwesAtLeast(x: real, paid: real, price: real, one: real, b: real, y: real)
    requires 0.0 <= paid && 0.0 < b && x * one <= (paid + 1.0) * price && (price - 1.0) * b <= y
    ensures one * (x * b) <= (paid + 1.0) * (y + b)
  {
    assert price * b <= y + b by { assert (price - 1.0) * b == price * b - b; }
    Scale(price * b, y + b, paid + 1.0);
    Scale(x * one, (paid + 1.0) * price, b);
    Rotate3(x, one, b);
    Rotate3(paid + 1.0, price, b);
  }

  lemma OwesAtMost(x: real, paid: real, price: real, one: real, a: real, b: real, f: real)
    requires 0.0 <= paid && 0.0 < one && 0.0 < b && 0.0 < f && paid * price <= x * one && one * a <= price * b * f
    ensures paid * a <= x * b * f
  {
    var g := b * f;
    Scale(one * a, price * b * f, paid);
    Scale(paid * price, x * one, g);
    Regroup1(paid, price, b, f, g);
    Regroup2(x, one, b, f, g);
    Regroup3(paid, one, a);
    Cancel(paid * a, x * b * f, one);
  }

  // ---- What the two roundings cost an owner ----

  const TWO128: int := 0x1_0000_0000_0000_0000_0000_0000_0000_0000

  /** At the unrounded price, the square of the sqrt price over 2^128, `x` units are worth under `n` tokens more than
      `paid`. */
  predicate ShortBy(x: nat, square: nat, zeroForOne: bool, paid: nat, n: nat) {
    if zeroForOne then x * square < (paid + n) * TWO128 else x * TWO128 < (paid + n) * square
  }

  /** An order of token 0 that fits 64 bits is paid less than two tokens short. */
  lemma Token0LosesLittle(tick: int, x: u64)
    requires MIN_TICK <= tick <= MAX_TICK
    ensures var p := SqrtPriceAtTick(tick); p * p >= 0 && ShortBy(x, p * p, true, QuoteAt(tick, true).Out(x), 2)
  {
    hide Ratio, Invert, SqrtPriceAtTick, QuoteAt;
    QuoteEncloses(tick, true);
    SqrtPriceRange(tick);
    var p, q := SqrtPriceAtTick(tick), QuoteAt(tick, true);
    MulLe(0, p, p);
    MulLe(0, x, q.floorPrice);
    DivBounds(x * q.floorPrice, Q64);
    TwoFloors(x, p * p, q.floorPrice, q.Out(x));
  }

  lemma TwoFloors(x: u64, square: nat, price: nat, paid: nat)
    requires square < (price + 1) * Q64 && x * price < paid * Q64 + Q64
    ensures x * square < (paid + 2) * TWO128
  {
    if x > 0 { MulLt(square, (price + 1) * Q64, x); }
    Rotate(x, price + 1, Q64);
    Distribute(x, price, 1);
    MulLe(x * price + x, paid * Q64 + Q64 + Q64, Q64);
  }

  /** One of token 1 is, exactly if the rounding of the price, over what is paid and two tokens more, is within what
      the division leaves; in particular while what is paid stays two below the price in units of 2^-64. */
  lemma Token1LosesLittleIff(tick: int, x: nat)
    requires MIN_TICK <= tick <= MAX_TICK
    ensures var p, q := SqrtPriceAtTick(tick), QuoteAt(tick, false);
            var paid, c := q.Out(x), q.ceilPrice;
            && p * p >= 0 && c > 0
            && (ShortBy(x, p * p, false, paid, 2)
                <==> (paid + 2) * (c * Q64 - p * p) < (2 * c - x * Q64 % c) * Q64)
            && (paid + 2 <= c ==> ShortBy(x, p * p, false, paid, 2))
  {
    hide Ratio, Invert, SqrtPriceAtTick, QuoteAt;
    QuoteEncloses(tick, false);
    SqrtPriceRange(tick);
    var p, q := SqrtPriceAtTick(tick), QuoteAt(tick, false);
    MulLe(0, p, p);
    DivBounds(x * Q64, q.ceilPrice);
    ShortIff(x, p * p, q.ceilPrice, q.Out(x), x * Q64 % q.ceilPrice);
    if q.Out(x) + 2 <= q.ceilPrice {
      SlackFits(q.Out(x) + 2, q.ceilPrice, q.ceilPrice * Q64 - p * p, x * Q64 % q.ceilPrice);
    }
  }

  lemma ShortIff(x: nat, square: nat, c: nat, paid: nat, r: nat)
    requires x * Q64 == paid * c + r
    ensures x * TWO128 < (paid + 2) * square <==> (paid + 2) * (c * Q64 - square) < (2 * c - r) * Q64
  {
    Distribute(paid + 2, c * Q64, square);
    Rotate(paid + 2, c, Q64);
    Distribute(c, paid, 2);
    assert x * TWO128 == (paid * c + r) * Q64;
  }

  lemma SlackFits(n: nat, c: nat, slack: int, r: nat)
    requires n <= c && slack < Q64 && r < c
    ensures n * slack < (2 * c - r) * Q64
  {
    MulLe(slack, Q64 - 1, n);
    MulLe(n, c, Q64 - 1);
    MulLt(c, 2 * c - r, Q64);
  }

  /** One unit of token 1 at the lowest tick an order can have is paid 2^63 tokens, about half of what it is worth. */
  lemma LowestTickPaysHalf(tick: int)
    requires tick == MIN_TICK + 1
    ensures var p, q := SqrtPriceAtTick(tick), QuoteAt(tick, false);
            && AmountAllowed(q, 1) && q.Out(1) == Q64 / 2
            && p * p >= 0 && !ShortBy(1, p * p, false, q.Out(1), Q64 / 2 - Q64 / 1000)
  {
    hide Ratio, Invert, SqrtPriceAtTick, QuoteAt;
    LowestPrice(tick);
    QuoteEncloses(tick, false);
    var p, q := SqrtPriceAtTick(tick), QuoteAt(tick, false);
    MulLe(4295048016, p, p);
    MulLe(4295048016, p, 4295048016);
    MulLe(p, 4295262790, p);
    MulLe(p, 4295262790, 4295262790);
    assert q.ceilPrice == 2;
  }

  lemma LowestPrice(tick: int)
    requires tick == MIN_TICK + 1
    ensures 4295048016 <= SqrtPriceAtTick(tick) <= 4295262790
  {
    hide Ratio, Invert;
    TickStep(-tick);
    RatioAtMaxTick();
    RatioAtLeastMin(-tick);
  }

  lemma Scale(x: real, y: real, z: real)
    requires x <= y && 0.0 <= z
    ensures x * z <= y * z && z * x <= z * y
  {}

  lemma Cancel(x: real, y: real, z: real)
    requires 0.0 < z && x * z <= y * z
    ensures x <= y
  {}

  lemma Rotate3(x: real, y: real, z: real)
    ensures (x * y) * z == (x * z) * y == x * (y * z) == (y * z) * x
  {}

  lemma Rotate4(x: real, a: real, f: real, y: real)
    ensures y * (x * a * f) == (y * a * f) * x == (x * a * f) * y
  {}

  lemma Regroup1(x: real, y: real, b: real, f: real, g: real)
    requires g == b * f
    ensures x * (y * b * f) == (x * y) * g
  {}

  lemma Regroup2(y: real, one: real, b: real, f: real, g: real)
    requires g == b * f
    ensures (y * one) * g == (y * b * f) * one
  {}

  lemma Regroup3(x: real, one: real, a: real)
    ensures x * (one * a) == (x * a) * one == one * (x * a)
  {}

  lemma Regroup4(y: real, b: real, f: real)
    ensures y * b * f == y * (b * f)
  {}
}
