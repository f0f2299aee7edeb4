/** `get_tick_at_sqrt_price` inverts `get_sqrt_price_at_tick`: the tick found is the greatest whose price
    does not exceed the given one. */
module TickInverse {
  import opened Types
  import opened Arith
  import opened TickMath
  import opened TickAtPrice
  import opened Powers
  import opened TickBase
  import opened LogBounds
  import opened PriceAccuracy

  /** 2^16 and its half, and 64 * 2^16. */
  const H: nat := 65536
  const HALF: nat := 32768
  const ONE: nat := 4194304

  function Below(tick: int): nat { if tick < 0 then -tick else 0 }

  function Above(tick: int): nat { if tick > 0 then tick else 0 }

  // ---- The price of a tick, raised to the power 2^16 ----

  /** a * b is c * d up to the factor e. */
  predicate Bounded(a: real, b: real, c: real, d: real, e: real) { a * b <= (c * d) * e }

  lemma {:induction false} RaiseBounded(a: real, b: real, c: real, d: real, e: real, m: nat)
    requires Bounded(a, b, c, d, e) && 0.0 <= a && 0.0 <= b
    ensures Bounded(Pow(a, m), Pow(b, m), Pow(c, m), Pow(d, m), Pow(e, m))
  {
    hide Pow;
    ProductLe(0.0, 0.0, a, b);
    RaiseNamed(a * b, (c * d) * e, m, Pow(a, m) * Pow(b, m), (Pow(c, m) * Pow(d, m)) * Pow(e, m)) by {
      PowOfProduct(a, b, a * b, m);
      RaiseThree(c, d, e, c * d, (c * d) * e, m);
    }
  }

  lemma {:induction false} RaiseNamed(left: real, right: real, m: nat, left': real, right': real)
    requires 0.0 <= left <= right && left' == Pow(left, m) && right' == Pow(right, m)
    ensures left' <= right'
  {
    PowMono(left, right, m);
  }

  lemma {:induction false} RaiseThree(c: real, d: real, e: real, middle: real, right: real, m: nat)
    requires middle == c * d && right == middle * e
    ensures Pow(right, m) == (Pow(c, m) * Pow(d, m)) * Pow(e, m)
  {
    hide Pow;
    PowOfProduct(c, d, middle, m);
    PowOfProduct(middle, e, right, m);
  }

  lemma FactorsWithinSlack(k: nat)
    requires k == 20
    ensures Pow(1.0 + LAMBDA, k) <= 1.0 + SLACK
  {
    hide Pow;
    PowNearOne(LAMBDA, k);
  }

  lemma PriceBounded(tick: int)
    requires MIN_TICK <= tick <= MAX_TICK
    ensures Bounded(Square(SqrtPriceAtTick(tick)), Pow(BASE, Below(tick)), Q128, Pow(BASE, Above(tick)), 1.0 + SLACK)
    ensures Bounded(Q128, Pow(BASE, Above(tick)), Square(SqrtPriceAtTick(tick)), Pow(BASE, Below(tick)), 1.0 + SLACK)
  {
    hide PriceFits, SqrtPriceAtTick;
    PriceClose(tick);
    FitsBounded(SqrtPriceAtTick(tick), Below(tick), Above(tick), 20);
  }

  lemma {:induction false} FitsBounded(price: nat, below: nat, above: nat, k: nat)
    requires PriceFits(price, below, above) && k == 20
    ensures Bounded(Square(price), Pow(BASE, below), Q128, Pow(BASE, above), 1.0 + SLACK)
    ensures Bounded(Q128, Pow(BASE, above), Square(price), Pow(BASE, below), 1.0 + SLACK)
  {
    hide Pow, Square, Bounded, Close;
    PowPositive(BASE, below);
    PowPositive(BASE, above);
    FactorsWithinSlack(k);
    SquareNonNegative(price);
    hide PriceFits;
    FitsParts(price, below, above, k, Square(price), Pow(BASE, below), Q128, Pow(BASE, above));
  }

  lemma {:induction false} FitsParts(price: nat, below: nat, above: nat, k: nat, a: real, b: real, c: real, d: real)
    requires PriceFits(price, below, above) && k == 20
    requires a == Square(price) && b == Pow(BASE, below) && c == Q128 && d == Pow(BASE, above)
    requires 0.0 <= a && 0.0 <= b && 0.0 <= d && Pow(1.0 + LAMBDA, k) <= 1.0 + SLACK
    ensures Bounded(a, b, c, d, 1.0 + SLACK) && Bounded(c, d, a, b, 1.0 + SLACK)
  {
    hide Pow, Square, Close, BASE, Bounded;
    assert a * b == Square(price) * Pow(BASE, below);
    assert c * d == Q128 * Pow(BASE, above);
    CloseBounded(a, b, c, d, k);
  }

  lemma {:induction false} CloseBounded(a: real, b: real, c: real, d: real, k: nat)
    requires Close(a * b, c * d, k) && 0.0 <= a && 0.0 <= b && 0.0 <= c && 0.0 <= d
             && Pow(1.0 + LAMBDA, k) <= 1.0 + SLACK
    ensures Bounded(a, b, c, d, 1.0 + SLACK) && Bounded(c, d, a, b, 1.0 + SLACK)
  {
    hide Pow;
    ProductLe(0.0, 0.0, a, b);
    ProductLe(0.0, 0.0, c, d);
    ClosePower(a * b, c * d, k, Pow(1.0 + LAMBDA, k), 1.0 + SLACK);
  }

  lemma {:induction false} ClosePower(x: real, y: real, k: nat, p: real, s: real)
    requires Close(x, y, k) && 0.0 <= x && 0.0 <= y && p == Pow(1.0 + LAMBDA, k) && p <= s
    ensures x <= y * s && y <= x * s
  {
    hide Pow, Close;
    CloseParts(x, y, k, p);
    Within(x, y, p, s);
    Within(y, x, p, s);
  }

  lemma Within(x: real, y: real, p: real, s: real)
    requires x <= y * p && p <= s && 0.0 <= y
    ensures x <= y * s
  {
    ScaleLe(p, s, y);
  }

  /** The same bound on 2^16-th powers. */
  lemma PriceRaised(tick: int, m: nat, e: nat)
    requires MIN_TICK <= tick <= MAX_TICK && m == HALF && e == 128
    ensures var q := Pow(SqrtPriceAtTick(tick) as real, 2 * m);
            && Bounded(q, Pow(BASE, Below(tick) * m), Pow(2.0, ONE), Pow(BASE, Above(tick) * m), Pow(1.0 + SLACK, m))
            && Bounded(Pow(2.0, ONE), Pow(BASE, Above(tick) * m), q, Pow(BASE, Below(tick) * m), Pow(1.0 + SLACK, m))
  {
    hide Pow, Bounded, SqrtPriceAtTick, Square, SLACK;
    var price := SqrtPriceAtTick(tick);
    var a, b, c, d := Square(price), Pow(BASE, Below(tick)), Q128, Pow(BASE, Above(tick));
    PriceBounded(tick);
    SquareNonNegative(price);
    PowPositive(BASE, Below(tick));
    PowPositive(BASE, Above(tick));
    RaiseBounded(a, b, c, d, 1.0 + SLACK, m);
    RaiseBounded(c, d, a, b, 1.0 + SLACK, m);
    PowPow(BASE, Below(tick), m);
    PowPow(BASE, Above(tick), m);
    SquareRaised(price, m);
    OneRaised(m, e);
  }

  lemma SquareRaised(price: nat, m: nat)
    ensures Pow(Square(price), m) == Pow(price as real, 2 * m)
  {
    hide Pow;
    PowSquare(price as real);
    PowPow(price as real, 2, m);
  }

  lemma OneRaised(m: nat, e: nat)
    requires m == HALF && e == 128
    ensures Pow(Q128, m) == Pow(2.0, ONE)
  {
    hide Pow;
    PowPow(2.0, e, m);
    TwoTo128(e, 16);
  }

  lemma TwoTo128(e: nat, s: nat)
    requires e == 128 && s == 16
    ensures Pow(2.0, e) == Q128
  {
    TwoTo16(s);
    hide Pow;
    PowAdd(2.0, s, s);
    PowAdd(2.0, s + s, s + s);
    PowAdd(2.0, s + s + (s + s), s + s + (s + s));
  }

  lemma TwoTo16(s: nat)
    requires s == 16
    ensures Pow(2.0, s) == 65536.0
  {
    assert Pow(2.0, 4) == 16.0;
    PowAdd(2.0, 4, 4);
    PowAdd(2.0, 8, 8);
  }

  // ---- Comparing a price with the price of a tick ----

  lemma {:induction false} PriceBelow(p: nat, tick: int, m: nat, h: nat)
    requires 0 < p && MIN_TICK <= tick <= MAX_TICK && p <= SqrtPriceAtTick(tick) && m == HALF && h == 2 * m
    ensures Compared(LogFloor(p), Below(tick) * m, ONE, Above(tick) * m, m)
  {
    hide Pow, Bounded, SqrtPriceAtTick, LogFloor, Between, Compared, SLACK;
    var price := SqrtPriceAtTick(tick);
    LogBetween(p, h);
    PriceRaised(tick, m, 128);
    PowMono(p as real, price as real, h);
    PowPositive(BASE, Below(tick) * m);
    CompareBelow(Pow(p as real, h), Pow(price as real, h), LogFloor(p), Below(tick) * m, Above(tick) * m, m);
  }

  lemma {:induction false} CompareBelow(x: real, y: real, log: nat, b: nat, d: nat, m: nat)
    requires Between(x, Pow(2.0, log), Pow(2.0, log + 1), 1.0 + SLACK) && 0.0 <= x <= y && 0.0 < Pow(BASE, b)
    requires Bounded(y, Pow(BASE, b), Pow(2.0, ONE), Pow(BASE, d), Pow(1.0 + SLACK, m))
    ensures Compared(log, b, ONE, d, m)
  {
    hide Pow, SLACK, BASE;
    ScaleLe(Pow(2.0, log), y, Pow(BASE, b));
  }

  lemma {:induction false} PriceAbove(p: nat, tick: int, m: nat, h: nat)
    requires 0 < p && MIN_TICK <= tick <= MAX_TICK && SqrtPriceAtTick(tick) <= p && m == HALF && h == 2 * m
    ensures Compared(ONE, Above(tick) * m, LogFloor(p) + 1, Below(tick) * m, m + 1)
  {
    hide Pow, Bounded, SqrtPriceAtTick, LogFloor, Between, Compared, SLACK;
    var price := SqrtPriceAtTick(tick);
    LogBetween(p, h);
    PriceRaised(tick, m, 128);
    PowMono(price as real, p as real, h);
    PowPositive(BASE, Below(tick) * m);
    SlackPositive(m);
    CompareAbove(Pow(p as real, h), Pow(price as real, h), LogFloor(p), Below(tick) * m, Above(tick) * m, m);
  }

  lemma {:induction false} SlackPositive(m: nat)
    ensures Pow(1.0 + SLACK, m) > 0.0
    ensures Pow(1.0 + SLACK, m + 1) == (1.0 + SLACK) * Pow(1.0 + SLACK, m)
  {
    PowPositive(1.0 + SLACK, m);
  }

  lemma {:induction false} CompareAbove(x: real, y: real, log: nat, b: nat, d: nat, m: nat)
    requires Between(x, Pow(2.0, log), Pow(2.0, log + 1), 1.0 + SLACK) && y <= x && 0.0 < Pow(BASE, b)
    requires Bounded(Pow(2.0, ONE), Pow(BASE, d), y, Pow(BASE, b), Pow(1.0 + SLACK, m)) && 0.0 < Pow(1.0 + SLACK, m)
    requires Pow(1.0 + SLACK, m + 1) == (1.0 + SLACK) * Pow(1.0 + SLACK, m)
    ensures Compared(ONE, d, log + 1, b, m + 1)
  {
    hide Pow, SLACK, BASE;
    AboveChain(Pow(2.0, ONE) * Pow(BASE, d), y, Pow(2.0, log + 1), Pow(BASE, b), 1.0 + SLACK, Pow(1.0 + SLACK, m),
        Pow(1.0 + SLACK, m + 1));
  }

  lemma AboveChain(left: real, y: real, top: real, b: real, s: real, sm: real, sm': real)
    requires left <= (y * b) * sm && y <= top * s && 0.0 < b && 0.0 < sm && sm' == s * sm
    ensures left <= (top * b) * sm'
  {
    ScaleLe(y, top * s, b);
    ScaleLe(y * b, (top * s) * b, sm);
    Assoc(top, s, b);
    Assoc(top * b, s, sm);
  }

  // ---- The estimates ----

  /** A price below a tick's gets a lower estimate below that tick. */
  lemma LowEstimate(p: nat, tick: int)
    requires 0 < p && MIN_TICK <= tick <= MAX_TICK && p < SqrtPriceAtTick(tick)
    ensures TickLow(p) < tick
  {
    hide SqrtPriceAtTick, LogFloor, Compared, Log2X32;
    var m, b, d := HALF, Below(tick) * HALF, Above(tick) * HALF;
    PriceBelow(p, tick, m, H);
    CompareExponents(LogFloor(p), b, ONE, d, m);
    Log2IsLogFloor(p);
    LowArithmetic(LogFloor(p), tick, b, d);
  }

  lemma LowArithmetic(log: nat, tick: int, b: nat, d: nat)
    requires MIN_TICK <= tick <= MAX_TICK && b == Below(tick) * HALF && d == Above(tick) * HALF
    requires log * 0x400_0000_0000 + LOG * b <= ONE * 0x400_0000_0000 + (LOG + 1) * d + HALF * 524288
    ensures (0x1_0000 * (log - 0x40_0000) * LOG_FACTOR - MARGIN_LOW) / Q64 < tick
  {
    assert d <= MAX_TICK * HALF;
    assert (log - ONE) * 0x400_0000_0000 <= LOG * HALF * tick + MAX_TICK * HALF + HALF * 524288;
  }

  /** A price at or above a tick's gets an upper estimate at or above that tick. */
  lemma HighEstimate(p: nat, tick: int)
    requires 0 < p && MIN_TICK <= tick <= MAX_TICK && SqrtPriceAtTick(tick) <= p
    ensures tick <= TickHigh(p)
  {
    hide SqrtPriceAtTick, LogFloor, Compared, Log2X32;
    var m, b, d := HALF, Below(tick) * HALF, Above(tick) * HALF;
    PriceAbove(p, tick, m, H);
    CompareExponents(ONE, d, LogFloor(p) + 1, b, m + 1);
    Log2IsLogFloor(p);
    HighArithmetic(LogFloor(p), tick, b, d);
  }

  lemma HighArithmetic(log: nat, tick: int, b: nat, d: nat)
    requires MIN_TICK <= tick <= MAX_TICK && b == Below(tick) * HALF && d == Above(tick) * HALF
    requires ONE * 0x400_0000_0000 + LOG * d <= (log + 1) * 0x400_0000_0000 + (LOG + 1) * b + (HALF + 1) * 524288
    ensures tick <= (0x1_0000 * (log - 0x40_0000) * LOG_FACTOR + MARGIN_HIGH) / Q64
  {
    assert b <= MAX_TICK * HALF;
    assert LOG * HALF * tick <= (log + 1 - ONE) * 0x400_0000_0000 + MAX_TICK * HALF + (HALF + 1) * 524288;
  }

  // ---- The inverse ----

  /** The tick found is the greatest whose price does not exceed the given price. */
  lemma TickAtInverts(p: nat)
    requires InPriceRange(p)
    ensures MIN_TICK <= TickAt(p) < MAX_TICK
    ensures SqrtPriceAtTick(TickAt(p)) <= p < SqrtPriceAtTick(TickAt(p) + 1)
  {
    hide SqrtPriceAtTick, TickLow, TickHigh;
    var low, high := TickLow(p), TickHigh(p);
    EstimatesInRange(p);
    TickBoundsMonotone(p, p);
    SqrtPriceRange(MIN_TICK);
    if MIN_TICK <= low && p < SqrtPriceAtTick(low) {
      LowEstimate(p, low);
      assert false;
    }
    if high < MAX_TICK && SqrtPriceAtTick(high + 1) <= p {
      HighEstimate(p, high + 1);
      assert false;
    }
  }

  /** It is the only tick whose step the price falls in. */
  lemma TickAtIff(p: nat, tick: int)
    requires InPriceRange(p) && MIN_TICK <= tick < MAX_TICK
    ensures TickAt(p) == tick <==> SqrtPriceAtTick(tick) <= p < SqrtPriceAtTick(tick + 1)
  {
    hide SqrtPriceAtTick, TickAt;
    TickAtInverts(p);
    var found := TickAt(p);
    if found + 1 < tick { SqrtPriceIncreasing(found + 1, tick); }
    if tick + 1 < found { SqrtPriceIncreasing(tick + 1, found); }
  }

  /** Tick to price and back is the identity. */
  lemma TickRoundTrip(tick: int)
    requires MIN_TICK <= tick < MAX_TICK
    ensures InPriceRange(SqrtPriceAtTick(tick)) && TickAt(SqrtPriceAtTick(tick)) == tick
  {
    hide SqrtPriceAtTick, TickAt;
    SqrtPriceRange(tick);
    SqrtPriceIncreasing(tick, MAX_TICK);
    SqrtPriceStep(tick);
    TickAtIff(SqrtPriceAtTick(tick), tick);
  }
}
