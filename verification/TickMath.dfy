/** `get_sqrt_price_at_tick`: the 19-factor truncated product and its inversion. */
module TickMath {
  import opened Types
  import opened Arith
  import opened Bits

  const MIN_TICK: int := -443636
  const MAX_TICK: int := 443636
  const MIN_SQRT_PRICE_X64: int := 4295048016
  const MAX_SQRT_PRICE_X64: int := 79226673521066979257578248091

  /** 2^64 / 1.0001^(2^(i - 1)), for each bit i of the tick's magnitude. */
  const MAGIC: seq<nat> := [
    0xfffcb933bd6fb800, 0xfff97272373d4000, 0xfff2e50f5f657000, 0xffe5caca7e10f000,
    0xffcb9843d60f7000, 0xff973b41fa98e800, 0xff2ea16466c9b000, 0xfe5dee046a9a3800,
    0xfcbe86c7900bb000, 0xf987a7253ac65800, 0xf3392b0822bb6000, 0xe7159475a2caf000,
    0xd097f3bdfd2f2000, 0xa9f746462d9f8000, 0x70d869a156f31c00, 0x31be135f97ed3200,
    0x9aa508b5b85a500, 0x5d6af8dedc582c, 0x2216e584f5fa
  ]

  // ---- The product over an arbitrary table of factors below one ----

  predicate Factors(m: seq<nat>) {
    |m| == 19 && forall i :: 0 <= i < 19 ==> 0 < m[i] <= Q64
  }

  /** x * m in Q64.64, truncated. */
  function Truncate(x: nat, m: nat): (r: nat)
    requires m <= Q64
    ensures r <= x
  {
    TruncateBounds(x, m);
    x * m / Q64
  }

  lemma TruncateBounds(x: nat, m: nat)
    requires m <= Q64
    ensures 0 <= x * m
    ensures x * m - Q64 < (x * m / Q64) * Q64 <= x * m
    ensures x * m / Q64 <= x
  {
    MulLe(0, x, m);
    MulLe(m, Q64, x);
    FloorIff(x * m, Q64, x + 1);
    DivBounds(x * m, Q64);
  }

  /** The running product after the factors of the set bits of `n`, bit `i` first. */
  function RatioFrom(m: seq<nat>, x: nat, n: nat, i: nat): (r: nat)
    requires Factors(m) && i <= 19
    ensures r <= x
    decreases 19 - i
  {
    if i == 19 then x
    else RatioFrom(m, if n % 2 == 1 then Truncate(x, m[i]) else x, n / 2, i + 1)
  }

  lemma Unfold(m: seq<nat>, x: nat, n: nat, i: nat)
    requires Factors(m) && i < 19
    ensures RatioFrom(m, x, n, i) == RatioFrom(m, if n % 2 == 1 then Truncate(x, m[i]) else x, n / 2, i + 1)
  {}

  lemma RatioDone(m: seq<nat>, x: nat, n: nat)
    requires Factors(m)
    ensures RatioFrom(m, x, n, 19) == x
  {}

  /** `x`, up to `e` units of accumulated truncation, exceeds `y` by at least one part in 20001
      and at most one part in 20000. The true tick step is one part in 20000.49998. */
  predicate TickApart(x: nat, y: nat, e: nat) {
    20001 * (x + e) >= 20002 * y && 20000 * x <= 20001 * (y + e)
  }

  /** A common factor keeps two products a tick apart, at one more unit of truncation. */
  lemma FactorKeepsApart(x: nat, y: nat, e: nat, m: nat)
    requires TickApart(x, y, e) && m <= Q64
    ensures TickApart(Truncate(x, m), Truncate(y, m), e + 1)
  {
    var xm, ym, em := x * m, y * m, e * m;
    assert 20001 * (xm + em) >= 20002 * ym by {
      MulLe(20002 * y, 20001 * (x + e), m);
    }
    assert 20000 * xm <= 20001 * (ym + em) by {
      MulLe(20000 * x, 20001 * (y + e), m);
    }
    MulLe(m, Q64, e);
    TruncateBounds(x, m);
    TruncateBounds(y, m);
    ApartAfterDivision(xm, ym, em, e, Truncate(x, m), Truncate(y, m));
  }

  lemma ApartAfterDivision(xm: int, ym: int, em: int, e: nat, x': nat, y': nat)
    requires 20001 * (xm + em) >= 20002 * ym && 20000 * xm <= 20001 * (ym + em)
    requires em <= e * Q64
    requires xm - Q64 < x' * Q64 <= xm && ym - Q64 < y' * Q64 <= ym
    ensures TickApart(x', y', e + 1)
  {}

  lemma {:induction false} CommonFactorsKeepApart(m: seq<nat>, x: nat, y: nat, e: nat, n: nat, i: nat)
    requires Factors(m) && i <= 19 && TickApart(x, y, e)
    ensures TickApart(RatioFrom(m, x, n, i), RatioFrom(m, y, n, i), e + 19 - i)
    decreases 19 - i
  {
    if i < 19 {
      if n % 2 == 1 {
        FactorKeepsApart(x, y, e, m[i]);
        CommonFactorsKeepApart(m, Truncate(x, m[i]), Truncate(y, m[i]), e + 1, n / 2, i + 1);
      } else {
        CommonFactorsKeepApart(m, x, y, e + 1, n / 2, i + 1);
      }
    }
  }

  /** The product of the factors 0 .. i-1. */
  function LowOnes(m: seq<nat>, i: nat): nat
    requires Factors(m) && i <= 19
  {
    if i == 0 then Q64 else Truncate(LowOnes(m, i - 1), m[i - 1])
  }

  /** A table of tick factors: the carry out of `i` trailing ones replaces their product by
      factor `i` alone, and that is a tick further. */
  predicate TickTable(m: seq<nat>) {
    Factors(m) && forall i :: 0 <= i < 19 ==> TickApart(LowOnes(m, i), m[i], 0)
  }

  /** Successive magnitudes differ by a tick whatever the carry pattern. */
  lemma {:induction false} SuccessorApart(m: seq<nat>, n: nat, i: nat)
    requires TickTable(m) && i < 19 && n + 1 < Pow2(19 - i)
    ensures TickApart(RatioFrom(m, LowOnes(m, i), n, i), RatioFrom(m, Q64, n + 1, i), 19)
    decreases 19 - i
  {
    hide *;
    if n % 2 == 0 {
      NoCarry(m, n, i);
    } else {
      Carry(m, n, i);
      SuccessorApart(m, n / 2, i + 1);
    }
  }

  /** A carry moves on to the next digit. */
  lemma Carry(m: seq<nat>, n: nat, i: nat)
    requires TickTable(m) && i < 19 && n % 2 == 1 && n + 1 < Pow2(19 - i)
    ensures i < 18 && n / 2 + 1 < Pow2(18 - i)
    ensures RatioFrom(m, LowOnes(m, i), n, i) == RatioFrom(m, LowOnes(m, i + 1), n / 2, i + 1)
    ensures RatioFrom(m, Q64, n + 1, i) == RatioFrom(m, Q64, n / 2 + 1, i + 1)
  {
    hide RatioFrom, Truncate, TickApart;
    Halve(n);
    Unfold(m, LowOnes(m, i), n, i);
    Unfold(m, Q64, n + 1, i);
  }

  lemma Halve(n: nat)
    ensures n % 2 == 1 ==> (n + 1) / 2 == n / 2 + 1 && (n + 1) % 2 == 0
    ensures n % 2 == 0 ==> (n + 1) / 2 == n / 2 && (n + 1) % 2 == 1
  {}

  lemma NoCarry(m: seq<nat>, n: nat, i: nat)
    requires TickTable(m) && i < 19 && n % 2 == 0
    ensures TickApart(RatioFrom(m, LowOnes(m, i), n, i), RatioFrom(m, Q64, n + 1, i), 19)
  {
    Halve(n);
    Unfold(m, LowOnes(m, i), n, i);
    Unfold(m, Q64, n + 1, i);
    assert Truncate(Q64, m[i]) == m[i];
    assert TickApart(LowOnes(m, i), m[i], 0);
    CommonFactorsKeepApart(m, LowOnes(m, i), m[i], i, n / 2, i + 1);
  }

  // ---- The published table ----

  lemma MagicFactors()
    ensures Factors(MAGIC)
    ensures forall i :: 0 <= i < 19 ==> MAGIC[i] < Q64
  {}

  /** The low products of the published table, evaluated. */
  lemma MagicLowOnes()
    ensures Factors(MAGIC)
    ensures LowOnes(MAGIC, 0) == 0x10000000000000000
    ensures LowOnes(MAGIC, 1) == 0xfffcb933bd6fb800
    ensures LowOnes(MAGIC, 2) == 0xfff62bbb6d459859
    ensures LowOnes(MAGIC, 3) == 0xffe9114b9cf29d9a
    ensures LowOnes(MAGIC, 4) == 0xffcede6f1d8c0483
    ensures LowOnes(MAGIC, 5) == 0xff9a80c1ada77220
    ensures LowOnes(MAGIC, 6) == 0xff31e58d5a5419c2
    ensures LowOnes(MAGIC, 7) == 0xfe612f8183b280e0
    ensures LowOnes(MAGIC, 8) == 0xfcc1c2f3805495f4
    ensures LowOnes(MAGIC, 9) == 0xf98ad8c8d7ef0a9a
    ensures LowOnes(MAGIC, 10) == 0xf33c480189b8868b
    ensures LowOnes(MAGIC, 11) == 0xe71889a8590c5dc9
    ensures LowOnes(MAGIC, 12) == 0xd09a9f3e93ea6d30
    ensures LowOnes(MAGIC, 13) == 0xa9f973345bb6e56f
    ensures LowOnes(MAGIC, 14) == 0x70d9db648610cc7e
    ensures LowOnes(MAGIC, 15) == 0x31beb65d91cc07af
    ensures LowOnes(MAGIC, 16) == 0x9aa7036fd2e7648
    ensures LowOnes(MAGIC, 17) == 0x5d6c2af97b81a7
    ensures LowOnes(MAGIC, 18) == 0x221755388b03
  {
    MagicFactors();
  }

  lemma MagicIsTickTable()
    ensures TickTable(MAGIC)
  {
    MagicLowOnes();
    forall i | 0 <= i < 19
      ensures TickApart(LowOnes(MAGIC, i), MAGIC[i], 0)
    {
      assert i < 10 || i == 10 || i == 11 || i == 12 || i == 13 || i == 14 || i == 15 || i == 16 || i == 17 || i == 18;
      assert i >= 10 || i == 0 || i == 1 || i == 2 || i == 3 || i == 4 || i == 5 || i == 6 || i == 7 || i == 8
          || i == 9;
    }
  }

  function Ratio(n: nat): (r: nat)
    ensures r <= Q64
  {
    MagicFactors();
    RatioFrom(MAGIC, Q64, n, 0)
  }

  lemma TickStep(n: nat)
    requires n + 1 <= MAX_TICK
    ensures TickApart(Ratio(n), Ratio(n + 1), 19)
  {
    assert Pow2(5) == 32;
    assert Pow2(10) == 1024;
    assert Pow2(15) == 32768;
    assert Pow2(19) == 524288;
    MagicIsTickTable();
    SuccessorApart(MAGIC, n, 0);
  }

  /** The smallest ratio, evaluated factor by factor. */
  lemma RatioAtMaxTick()
    ensures Ratio(MAX_TICK) == MIN_SQRT_PRICE_X64
  {
    hide RatioFrom;
    MagicFactors();
    RatioAtMaxTickHigh();
    Unfold(MAGIC, 0x10000000000000000, 443636, 0);
    Unfold(MAGIC, 0x10000000000000000, 221818, 1);
    Unfold(MAGIC, 0x10000000000000000, 110909, 2);
    assert Truncate(0x10000000000000000, MAGIC[2]) == 0xfff2e50f5f657000;
    Unfold(MAGIC, 0xfff2e50f5f657000, 55454, 3);
    Unfold(MAGIC, 0xfff2e50f5f657000, 27727, 4);
    assert Truncate(0xfff2e50f5f657000, MAGIC[4]) == 0xffbe8001fdce3e5a;
    Unfold(MAGIC, 0xffbe8001fdce3e5a, 13863, 5);
    assert Truncate(0xffbe8001fdce3e5a, MAGIC[5]) == 0xff55d6124e34e4a4;
    Unfold(MAGIC, 0xff55d6124e34e4a4, 6931, 6);
    assert Truncate(0xff55d6124e34e4a4, MAGIC[6]) == 0xfe8502a1d2df3cd1;
    Unfold(MAGIC, 0xfe8502a1d2df3cd1, 3465, 7);
    assert Truncate(0xfe8502a1d2df3cd1, MAGIC[7]) == 0xfce55b929085fcca;
    Unfold(MAGIC, 0xfce55b929085fcca, 1732, 8);
    Unfold(MAGIC, 0xfce55b929085fcca, 866, 9);
    Unfold(MAGIC, 0xfce55b929085fcca, 433, 10);
    assert Truncate(0xfce55b929085fcca, MAGIC[10]) == 0xf0462f8012ad682d;
  }

  lemma RatioAtMaxTickHigh()
    ensures Factors(MAGIC)
    ensures RatioFrom(MAGIC, 0xf0462f8012ad682d, 216, 11) == MIN_SQRT_PRICE_X64
  {
    hide RatioFrom;
    MagicFactors();
    RatioDone(MAGIC, MIN_SQRT_PRICE_X64, 0);
    Unfold(MAGIC, 0xf0462f8012ad682d, 216, 11);
    Unfold(MAGIC, 0xf0462f8012ad682d, 108, 12);
    Unfold(MAGIC, 0xf0462f8012ad682d, 54, 13);
    Unfold(MAGIC, 0xf0462f8012ad682d, 27, 14);
    assert Truncate(0xf0462f8012ad682d, MAGIC[14]) == 0x69e9d3245376c7f4;
    Unfold(MAGIC, 0x69e9d3245376c7f4, 13, 15);
    assert Truncate(0x69e9d3245376c7f4, MAGIC[15]) == 0x149464f8903bc8cd;
    Unfold(MAGIC, 0x149464f8903bc8cd, 6, 16);
    Unfold(MAGIC, 0x149464f8903bc8cd, 3, 17);
    assert Truncate(0x149464f8903bc8cd, MAGIC[17]) == 0x7828221c78869;
    Unfold(MAGIC, 0x7828221c78869, 1, 18);
    assert Truncate(0x7828221c78869, MAGIC[18]) == 0x100013b50;
  }

  /** Downward from the largest tick: every ratio is large enough for the tick step to beat
      the truncation. */
  lemma {:induction false} RatioAtLeastMin(n: nat)
    requires n <= MAX_TICK
    ensures Ratio(n) >= MIN_SQRT_PRICE_X64
    ensures n < MAX_TICK ==> Ratio(n) > Ratio(n + 1) >= MIN_SQRT_PRICE_X64
    decreases MAX_TICK - n
  {
    if n == MAX_TICK {
      RatioAtMaxTick();
    } else {
      RatioAtLeastMin(n + 1);
      TickStep(n);
    }
  }

  function Invert(r: nat): nat
    requires r > 0
  {
    U128_MAX / r
  }

  function SqrtPriceAtTick(tick: int): nat
    requires MIN_TICK <= tick <= MAX_TICK
  {
    if tick <= 0 then Ratio(-tick)
    else
      RatioAtLeastMin(tick);
      Invert(Ratio(tick))
  }

  // ---- Strict monotonicity ----

  /** Inverting a smaller ratio gives a strictly larger price. */
  lemma InversionStrict(r: nat, s: nat)
    requires 0 < s < r <= Q64
    ensures Invert(r) < Invert(s)
  {
    var q := U128_MAX / r;
    DivBounds(U128_MAX, r);
    FloorIff(U128_MAX, s, q + 1);
    FloorIff(U128_MAX, r, Q64 - 1);
    MulLe(r, Q64, Q64 - 1);
    MulLe(s, r - 1, q + 1);
    Distribute(q + 1, r, 1);
    Expand(q, r);
  }

  /** The first positive tick is already above 1.0. */
  lemma FirstTickAboveOne(r: nat)
    requires 0 < r < Q64
    ensures Q64 < Invert(r) || r == Q64 - 1
  {
    FloorIff(U128_MAX, r, Q64 + 1);
    if r <= Q64 - 2 { MulLe(r, Q64 - 2, Q64 + 1); }
  }

  /** `get_sqrt_price_at_tick` is strictly increasing over its whole range. */
  lemma SqrtPriceStep(tick: int)
    requires MIN_TICK <= tick < MAX_TICK
    ensures SqrtPriceAtTick(tick) < SqrtPriceAtTick(tick + 1)
  {
    hide RatioFrom;
    if tick < 0 {
      RatioAtLeastMin(-tick - 1);
    } else if tick == 0 {
      RatioZero();
      RatioAtLeastMin(0);
      TickStep(0);
      FirstTickAboveOne(Ratio(1));
    } else {
      RatioAtLeastMin(tick);
      InversionStrict(Ratio(tick), Ratio(tick + 1));
    }
  }

  lemma RatioZero()
    ensures Ratio(0) == Q64
  {
    MagicFactors();
    NoFactors(MAGIC, Q64, 0);
  }

  lemma {:induction false} NoFactors(m: seq<nat>, x: nat, i: nat)
    requires Factors(m) && i <= 19
    ensures RatioFrom(m, x, 0, i) == x
    decreases 19 - i
  {
    if i < 19 { NoFactors(m, x, i + 1); }
  }

  lemma {:induction false} SqrtPriceIncreasing(a: int, b: int)
    requires MIN_TICK <= a < b <= MAX_TICK
    ensures SqrtPriceAtTick(a) < SqrtPriceAtTick(b)
    decreases b - a
  {
    hide *;
    SqrtPriceStep(b - 1);
    if a < b - 1 {
      SqrtPriceIncreasing(a, b - 1);
    }
  }

  /** Both ends hit the published constants, and every price lies between them. */
  lemma SqrtPriceRange(tick: int)
    requires MIN_TICK <= tick <= MAX_TICK
    ensures SqrtPriceAtTick(MIN_TICK) == MIN_SQRT_PRICE_X64
    ensures SqrtPriceAtTick(MAX_TICK) == MAX_SQRT_PRICE_X64
    ensures MIN_SQRT_PRICE_X64 <= SqrtPriceAtTick(tick) <= MAX_SQRT_PRICE_X64
  {
    hide RatioFrom;
    RatioAtMaxTick();
    if MIN_TICK < tick { SqrtPriceIncreasing(MIN_TICK, tick); }
    if tick < MAX_TICK { SqrtPriceIncreasing(tick, MAX_TICK); }
  }

  // ---- The program ----

  /** One masked multiplication of the source: no 128-bit overflow, then a shift by 64. */
  function ApplyFactor(ratio: nat, absTick: nat, mask: nat, factor: nat): (r: nat)
    requires ratio <= Q64 && 0 < mask && factor < Q64
    ensures r <= Q64
  {
    NoOverflow(ratio, factor);
    if absTick / mask % 2 == 1 then Truncate(ratio, factor) else ratio
  }

  lemma NoOverflow(ratio: nat, factor: nat)
    requires ratio <= Q64 && factor < Q64
    ensures 0 <= ratio * factor <= U128_MAX
  {
    MulLe(ratio, Q64, factor);
    MulLe(0, ratio, factor);
  }

  /** The product so far, and the bits from `mask` = 2^i up still to come. */
  ghost predicate Partial(ratio: nat, absTick: nat, mask: nat, i: nat) {
    && 0 < mask && i <= 19 && ratio <= Q64
    && Factors(MAGIC)
    && RatioFrom(MAGIC, ratio, absTick / mask, i) == Ratio(absTick)
  }

  /** One source step consumes one bit of the magnitude. */
  lemma ApplyFactorIsStep(ratio: nat, absTick: nat, mask: nat, i: nat, factor: nat)
    requires Partial(ratio, absTick, mask, i)
    requires i < 19 && MAGIC[i] == factor < Q64
    ensures Partial(ApplyFactor(ratio, absTick, mask, factor), absTick, 2 * mask, i + 1)
  {
    hide RatioFrom, MAGIC, Truncate, Ratio;
    NestedHalves(absTick, mask);
    Unfold(MAGIC, ratio, absTick / mask, i);
  }

  lemma NestedHalves(n: nat, d: nat)
    requires d > 0
    ensures n / d / 2 == n / (2 * d)
  {
    var q := n / d / 2;
    FloorFloorIff(n, d, 2, q);
    FloorFloorIff(n, d, 2, q + 1);
    FloorIff(n, 2 * d, q);
    FloorIff(n, 2 * d, q + 1);
    assert q * 2 * d == q * (2 * d);
    assert (q + 1) * 2 * d == (q + 1) * (2 * d);
  }

  method NextFactor(ratio: nat, absTick: nat, mask: nat, i: nat) returns (r: nat)
    requires Partial(ratio, absTick, mask, i)
    requires i < 19
    ensures Partial(r, absTick, 2 * mask, i + 1)
  {
    hide Partial, Ratio, RatioFrom, MAGIC;
    MagicFactors();
    ApplyFactorIsStep(ratio, absTick, mask, i, MAGIC[i]);
    PartialBounded(ratio, absTick, mask, i);
    r := ApplyFactor(ratio, absTick, mask, MAGIC[i]);
  }

  lemma PartialBounded(ratio: nat, absTick: nat, mask: nat, i: nat)
    requires Partial(ratio, absTick, mask, i)
    ensures ratio <= Q64 && 0 < mask
  {}

  lemma StartRatio(absTick: nat)
    ensures Partial(0x1_0000_0000_0000_0000, absTick, 1, 0)
  {
    hide RatioFrom, MAGIC;
    MagicFactors();
    assert absTick / 1 == absTick;
  }

  lemma FinalRatio(ratio: nat, absTick: nat)
    requires absTick <= MAX_TICK && Partial(ratio, absTick, 0x8_0000, 19)
    ensures ratio == Ratio(absTick)
  {
    RatioDone(MAGIC, ratio, absTick / 0x8_0000);
  }

  /** The 19 masked multiplications. */
  method MultiplyFactors(absTick: nat) returns (ratio: nat)
    requires absTick <= MAX_TICK
    ensures ratio == Ratio(absTick)
  {
    hide *;
    StartRatio(absTick);
    ratio := 0x1_0000_0000_0000_0000;

    ratio := NextFactor(ratio, absTick, 0x1, 0);
    ratio := NextFactor(ratio, absTick, 0x2, 1);
    ratio := NextFactor(ratio, absTick, 0x4, 2);
    ratio := NextFactor(ratio, absTick, 0x8, 3);
    ratio := NextFactor(ratio, absTick, 0x10, 4);
    ratio := NextFactor(ratio, absTick, 0x20, 5);
    ratio := NextFactor(ratio, absTick, 0x40, 6);
    ratio := NextFactor(ratio, absTick, 0x80, 7);
    ratio := NextFactor(ratio, absTick, 0x100, 8);
    ratio := NextFactor(ratio, absTick, 0x200, 9);
    ratio := NextFactor(ratio, absTick, 0x400, 10);
    ratio := NextFactor(ratio, absTick, 0x800, 11);
    ratio := NextFactor(ratio, absTick, 0x1000, 12);
    ratio := NextFactor(ratio, absTick, 0x2000, 13);
    ratio := NextFactor(ratio, absTick, 0x4000, 14);
    ratio := NextFactor(ratio, absTick, 0x8000, 15);
    ratio := NextFactor(ratio, absTick, 0x10000, 16);
    ratio := NextFactor(ratio, absTick, 0x20000, 17);
    ratio := NextFactor(ratio, absTick, 0x40000, 18);
    FinalRatio(ratio, absTick);
  }

  method GetSqrtPriceAtTick(tick: int) returns (r: Result<u128>)
    ensures r.Ok? <==> MIN_TICK <= tick <= MAX_TICK
    ensures r.Err? ==> r.error == TickUpperOverflow
    ensures r.Ok? ==> r.value == SqrtPriceAtTick(tick)
  {
    if !(MIN_TICK <= tick <= MAX_TICK) { return Err(TickUpperOverflow); }
    hide Ratio;
    var absTick: nat := if tick < 0 then -tick else tick;
    var ratio := MultiplyFactors(absTick);
    RatioAtLeastMin(absTick);
    if tick > 0 {
      ratio := Invert(ratio);
    }
    SqrtPriceRange(tick);
    r := Ok(ratio);
  }
}
