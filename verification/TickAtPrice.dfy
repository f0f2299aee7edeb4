/** `get_tick_at_sqrt_price`: a 16-bit binary logarithm by repeated squaring, a change of base,
    and a choice between two neighbouring ticks. */
module TickAtPrice {
  import opened Types
  import opened Arith
  import opened Bits
  import opened TickMath

  const BIT_PRECISION: int := 16
  const TWO32: int := 0x1_0000_0000
  const TWO63: int := 0x8000_0000_0000_0000
  const TWO127: int := 0x8000_0000_0000_0000_0000_0000_0000_0000

  /** 2^32 / log2(sqrt(1.0001)), and the error margins below and above. */
  const LOG_FACTOR: int := 59543866431248
  const MARGIN_LOW: int := 184467440737095516
  const MARGIN_HIGH: int := 15793534762490258745

  // ---- Mantissa ----

  predicate Mantissa(r: int) { TWO63 <= r < 2 * TWO63 }

  lemma Pow2At63()
    ensures Pow2(63) == TWO63
  {
    hide Pow2;
    Pow2Small();
    Pow2Add(8, 8);
    Pow2Add(16, 16);
    Pow2Add(16, 15);
    Pow2Add(32, 31);
  }

  /** The price shifted so that its leading bit is bit 63. */
  function Norm(p: nat): (r: nat)
    requires p > 0
    ensures Mantissa(r)
  {
    var msb := Msb(p);
    NormRange(p);
    if msb >= 64 then p / Pow2(msb - 63) else p * Pow2(63 - msb)
  }

  lemma NormRange(p: nat)
    requires p > 0
    ensures Msb(p) >= 64 ==> Mantissa(p / Pow2(Msb(p) - 63))
    ensures Msb(p) < 64 ==> Mantissa(p * Pow2(63 - Msb(p)))
  {
    hide Msb, Pow2;
    var msb := Msb(p);
    MsbBounds(p);
    Pow2At63();
    if msb >= 64 {
      Pow2Add(63, msb - 63);
      ShiftDown(p, Pow2(msb), Pow2(msb - 63));
    } else {
      Pow2Add(msb, 63 - msb);
      ShiftUp(p, Pow2(msb), Pow2(63 - msb));
    }
  }

  lemma ShiftDown(p: nat, top: nat, s: nat)
    requires top <= p < 2 * top && s > 0 && top == TWO63 * s
    ensures Mantissa(p / s)
  {
    FloorIff(p, s, TWO63);
    FloorIff(p, s, 2 * TWO63);
  }

  lemma ShiftUp(p: nat, top: nat, s: nat)
    requires top <= p < 2 * top && s > 0 && top * s == TWO63
    ensures Mantissa(p * s)
  {
    MulLe(top, p, s);
    MulLt(p, 2 * top, s);
  }

  lemma NormMonotone(p: nat, q: nat)
    requires 0 < p <= q && Msb(p) == Msb(q)
    ensures Norm(p) <= Norm(q)
  {
    if Msb(p) >= 64 {
      FloorMono(p, q, Pow2(Msb(p) - 63));
    } else {
      MulLe(p, q, Pow2(63 - Msb(p)));
    }
  }

  // ---- Fraction bits by squaring ----

  /** Bit 127 of the square: whether the squared mantissa is two or more. */
  function LogBit(r: nat): nat { if r * r >= TWO127 then 1 else 0 }

  /** The squared mantissa, renormalised. */
  function LogNext(r: nat): (n: nat)
    requires Mantissa(r)
    ensures Mantissa(n)
  {
    SquareRange(r);
    if r * r >= TWO127 then r * r / Q64 else r * r / TWO63
  }

  lemma SquareRange(r: nat)
    requires Mantissa(r)
    ensures TWO63 * TWO63 <= r * r <= U128_MAX
    ensures r * r >= TWO127 ==> Mantissa(r * r / Q64)
    ensures r * r < TWO127 ==> Mantissa(r * r / TWO63)
  {
    MulLe(TWO63, r, TWO63);
    MulLe(TWO63, r, r);
    MulLe(r, 2 * TWO63 - 1, r);
    MulLe(r, 2 * TWO63 - 1, 2 * TWO63 - 1);
  }

  /** The first `k` fraction bits of log2 of the mantissa, as an integer. */
  function Frac(r: nat, k: nat): nat
    requires Mantissa(r)
    decreases k
  {
    hide LogBit, LogNext;
    if k == 0 then 0 else (if LogBit(r) == 1 then Pow2(k - 1) else 0) + Frac(LogNext(r), k - 1)
  }

  lemma {:induction false} FracBound(r: nat, k: nat)
    requires Mantissa(r)
    ensures Frac(r, k) < Pow2(k)
    decreases k
  {
    hide LogBit, LogNext;
    if k > 0 { FracBound(LogNext(r), k - 1); }
  }

  lemma LogStepMonotone(r: nat, s: nat)
    requires Mantissa(r) && Mantissa(s) && r <= s
    ensures LogBit(r) <= LogBit(s)
    ensures LogBit(r) == LogBit(s) ==> LogNext(r) <= LogNext(s)
  {
    MulLe(r, s, r);
    MulLe(r, s, s);
    if LogBit(r) == LogBit(s) {
      if LogBit(r) == 1 { FloorMono(r * r, s * s, Q64); } else { FloorMono(r * r, s * s, TWO63); }
    }
  }

  lemma LogBits(r: nat)
    ensures LogBit(r) == 0 || LogBit(r) == 1
  {}

  /** The bit string is lexicographically monotone in the mantissa. */
  lemma {:induction false} FracMonotone(r: nat, s: nat, k: nat)
    requires Mantissa(r) && Mantissa(s) && r <= s
    ensures Frac(r, k) <= Frac(s, k)
    decreases k
  {
    if k > 0 {
      hide LogBit, LogNext;
      LogStepMonotone(r, s);
      LogBits(r);
      LogBits(s);
      FracBound(LogNext(r), k - 1);
      if LogBit(r) == LogBit(s) {
        FracMonotone(LogNext(r), LogNext(s), k - 1);
      }
    }
  }

  // ---- The tick estimates ----

  function Log2X32(p: nat): int
    requires p > 0
  {
    (Msb(p) - 64) * TWO32 + Frac(Norm(p), 16) * 0x1_0000
  }

  lemma Log2Monotone(p: nat, q: nat)
    requires 0 < p <= q
    ensures Log2X32(p) <= Log2X32(q)
  {
    hide Frac, Norm, Msb;
    assert Pow2(16) == 0x1_0000 by { assert Pow2(8) == 0x100; Pow2Add(8, 8); }
    MsbMonotone(p, q);
    FracBound(Norm(p), 16);
    FracBound(Norm(q), 16);
    if Msb(p) == Msb(q) {
      NormMonotone(p, q);
      FracMonotone(Norm(p), Norm(q), 16);
    }
  }

  function TickLow(p: nat): int
    requires p > 0
  {
    (Log2X32(p) * LOG_FACTOR - MARGIN_LOW) / Q64
  }

  function TickHigh(p: nat): int
    requires p > 0
  {
    (Log2X32(p) * LOG_FACTOR + MARGIN_HIGH) / Q64
  }

  lemma TickBoundsMonotone(p: nat, q: nat)
    requires 0 < p <= q
    ensures TickLow(p) <= TickLow(q) && TickHigh(p) <= TickHigh(q)
    ensures TickLow(p) <= TickHigh(p) <= TickLow(p) + 1
  {
    hide Log2X32;
    Log2Monotone(p, q);
  }

  predicate InPriceRange(p: nat) { MIN_SQRT_PRICE_X64 <= p < MAX_SQRT_PRICE_X64 }

  /** The result of `get_tick_at_sqrt_price`. */
  function TickAt(p: nat): int
    requires InPriceRange(p)
  {
    hide Ratio, Invert, Log2X32;
    EstimatesInRange(p);
    if TickLow(p) == TickHigh(p) then TickLow(p)
    else if SqrtPriceAtTick(TickHigh(p)) <= p then TickHigh(p)
    else TickLow(p)
  }

  lemma FracUnfold(r: nat, k: nat, b: nat, n: nat)
    requires Mantissa(r) && k > 0 && LogBit(r) == b && LogNext(r) == n
    ensures Frac(r, k) == (if b == 1 then Pow2(k - 1) else 0) + Frac(n, k - 1)
  {}

  /** The logarithm of the lowest price, one squaring at a time. */
  lemma FracAtMin()
    ensures Frac(0x80009da800000000, 16) == 1
  {
    hide Frac, Pow2;
    Pow2Small();
    FracAtMinLow();
    FracUnfold(0x80009da800000000, 16, 0, 0x80013b50c22efc80);
    FracUnfold(0x80013b50c22efc80, 15, 0, 0x800276a48d1da7b3);
    FracUnfold(0x800276a48d1da7b3, 14, 0, 0x8004ed553d57f00c);
    FracUnfold(0x8004ed553d57f00c, 13, 0, 0x8009dadb08119584);
    FracUnfold(0x8009dadb08119584, 12, 0, 0x8013b6784d23d7ca);
    FracUnfold(0x8013b6784d23d7ca, 11, 0, 0x80276ff9ca1d22a6);
    FracUnfold(0x80276ff9ca1d22a6, 10, 0, 0x804eec1a3266910d);
    FracUnfold(0x804eec1a3266910d, 9, 0, 0x809e08ddd83b2e51);
  }

  lemma FracAtMinLow()
    ensures Frac(0x809e08ddd83b2e51, 8) == 1
  {
    hide Frac, Pow2;
    Pow2Small();
    FracZero(0xdb538df60accb9d6);
    FracUnfold(0x809e08ddd83b2e51, 8, 0, 0x813cd4d994c16a41);
    FracUnfold(0x813cd4d994c16a41, 7, 0, 0x827cb9ef7dc37e1a);
    FracUnfold(0x827cb9ef7dc37e1a, 6, 0, 0x8505d337c590ca8a);
    FracUnfold(0x8505d337c590ca8a, 5, 0, 0x8a3e1b33c3764bdc);
    FracUnfold(0x8a3e1b33c3764bdc, 4, 0, 0x954e08c9fd645990);
    FracUnfold(0x954e08c9fd645990, 3, 0, 0xae27dc08f8b4f13c);
    FracUnfold(0xae27dc08f8b4f13c, 2, 0, 0xecf46aa1f3e255ad);
    FracUnfold(0xecf46aa1f3e255ad, 1, 1, 0xdb538df60accb9d6);
  }

  lemma EstimatesAtMin()
    ensures TickLow(MIN_SQRT_PRICE_X64) == -443637 && TickHigh(MIN_SQRT_PRICE_X64) == -443636
  {
    hide Frac, Msb, Pow2;
    FracAtMin();
    MsbAtMin();
    assert Log2X32(MIN_SQRT_PRICE_X64) == -137438887936;
  }

  lemma MsbAtMin()
    ensures Msb(MIN_SQRT_PRICE_X64) == 32 && Norm(MIN_SQRT_PRICE_X64) == 0x80009da800000000
  {
    Pow2Small();
    Pow2Add(8, 8);
    Pow2Add(16, 16);
    Pow2Add(16, 15);
    hide Pow2;
    MsbUnique(MIN_SQRT_PRICE_X64, 32);
  }

  /** The logarithm of the highest price, one squaring at a time. */
  lemma FracAtMax()
    ensures Frac(0xfffec4b1845c1aa9, 16) == 65534
  {
    hide Frac, Pow2;
    Pow2Small();
    FracAtMaxLow();
    FracUnfold(0xfffec4b1845c1aa9, 16, 1, 0xfffd89648d1271a6);
    FracUnfold(0xfffd89648d1271a6, 15, 1, 0xfffb12cf2b865b59);
    FracUnfold(0xfffb12cf2b865b59, 14, 1, 0xfff625b69c56cd38);
    FracUnfold(0xfff625b69c56cd38, 13, 1, 0xffec4bce4bf7af1b);
    FracUnfold(0xffec4bce4bf7af1b, 12, 1, 0xffd89920d6260644);
    FracUnfold(0xffd89920d6260644, 11, 1, 0xffb138522da164d5);
    FracUnfold(0xffb138522da164d5, 10, 1, 0xff6288e2a4eeae65);
    FracUnfold(0xff6288e2a4eeae65, 9, 1, 0xfec572a09b4b5e0f);
  }

  lemma FracAtMaxLow()
    ensures Frac(0xfec572a09b4b5e0f, 8) == 254
  {
    hide Frac, Pow2;
    Pow2Small();
    FracZero(0x956725110b44064e);
    FracUnfold(0xfec572a09b4b5e0f, 8, 1, 0xfd8c67c052abffb6);
    FracUnfold(0xfd8c67c052abffb6, 7, 1, 0xfb1ed213c7ceb68f);
    FracUnfold(0xfb1ed213c7ceb68f, 6, 1, 0xf65573a8b2d6a3c5);
    FracUnfold(0xf65573a8b2d6a3c5, 5, 1, 0xed0856ce39fc451f);
    FracUnfold(0xed0856ce39fc451f, 4, 1, 0xdb7870ff61afecd6);
    FracUnfold(0xdb7870ff61afecd6, 3, 1, 0xbc2749ff126f0861);
    FracUnfold(0xbc2749ff126f0861, 2, 1, 0x8a49bab6442e28cc);
    FracUnfold(0x8a49bab6442e28cc, 1, 0, 0x956725110b44064e);
  }

  lemma EstimatesAtMax()
    ensures TickLow(MAX_SQRT_PRICE_X64 - 1) == 443635 && TickHigh(MAX_SQRT_PRICE_X64 - 1) == 443636
  {
    hide Frac, Msb, Pow2;
    FracAtMax();
    MsbAtMax();
    assert Log2X32(MAX_SQRT_PRICE_X64 - 1) == 137438822400;
  }

  lemma MsbAtMax()
    ensures Msb(MAX_SQRT_PRICE_X64 - 1) == 95 && Norm(MAX_SQRT_PRICE_X64 - 1) == 0xfffec4b1845c1aa9
  {
    Pow2Small();
    Pow2Add(8, 8);
    Pow2Add(16, 16);
    Pow2Add(16, 15);
    Pow2Add(32, 32);
    Pow2Add(64, 31);
    hide Pow2;
    MsbUnique(MAX_SQRT_PRICE_X64 - 1, 95);
  }

  lemma FracZero(r: nat)
    requires Mantissa(r)
    ensures Frac(r, 0) == 0
  {}

  /** The upper estimate is always a valid tick, so the price lookup never fails. */
  lemma EstimatesInRange(p: nat)
    requires InPriceRange(p)
    ensures MIN_TICK <= TickHigh(p) <= MAX_TICK
    ensures MIN_TICK - 1 <= TickLow(p) <= MAX_TICK - 1
  {
    hide TickLow, TickHigh;
    EstimatesAtMin();
    EstimatesAtMax();
    TickBoundsMonotone(MIN_SQRT_PRICE_X64, p);
    TickBoundsMonotone(p, MAX_SQRT_PRICE_X64 - 1);
  }

  // ---- Monotonicity and range ----

  lemma TickAtMonotone(p: nat, q: nat)
    requires InPriceRange(p) && InPriceRange(q) && p <= q
    ensures TickAt(p) <= TickAt(q)
  {
    hide TickLow, TickHigh, SqrtPriceAtTick;
    TickBoundsMonotone(p, q);
    TickBoundsMonotone(q, q);
    EstimatesInRange(p);
    EstimatesInRange(q);
    // p takes its upper estimate and q rejects its own: q's must then be strictly larger.
    if TickAt(p) == TickHigh(p) && TickLow(p) != TickHigh(p) && TickHigh(p) == TickHigh(q)
        && TickLow(q) != TickHigh(q) {
      assert SqrtPriceAtTick(TickHigh(q)) <= q;
    }
  }

  lemma TickAtEnds()
    ensures InPriceRange(MIN_SQRT_PRICE_X64) && TickAt(MIN_SQRT_PRICE_X64) == MIN_TICK
    ensures InPriceRange(MAX_SQRT_PRICE_X64 - 1) && TickAt(MAX_SQRT_PRICE_X64 - 1) == MAX_TICK - 1
  {
    hide TickLow, TickHigh, SqrtPriceAtTick;
    EstimatesAtMin();
    EstimatesAtMax();
    SqrtPriceRange(MIN_TICK);
  }

  /** The tick is monotone in the price and lands in [MIN_TICK, MAX_TICK - 1]. */
  lemma TickAtRange(p: nat)
    requires InPriceRange(p)
    ensures MIN_TICK <= TickAt(p) <= MAX_TICK - 1
  {
    hide TickAt;
    TickAtEnds();
    TickAtMonotone(MIN_SQRT_PRICE_X64, p);
    TickAtMonotone(p, MAX_SQRT_PRICE_X64 - 1);
  }

  // ---- The program ----

  method GetTickAtSqrtPrice(sqrtPrice: u128) returns (res: Result<int>)
    ensures res.Ok? <==> InPriceRange(sqrtPrice)
    ensures res.Err? ==> res.error == SqrtPriceX64
    ensures res.Ok? ==> res.value == TickAt(sqrtPrice)
  {
    if !(sqrtPrice >= MIN_SQRT_PRICE_X64 && sqrtPrice < MAX_SQRT_PRICE_X64) { return Err(SqrtPriceX64); }
    hide Msb, Norm, TickLow, TickHigh, SqrtPriceAtTick, Pow2;
    var msb := Msb(sqrtPrice);
    NormRange(sqrtPrice);
    var r := Norm(sqrtPrice);
    var log2pFractionX64 := FractionLoop(r);
    var log2pX32 := (msb - 64) * TWO32 + log2pFractionX64 / TWO32;
    var logSqrt10001X64 := log2pX32 * LOG_FACTOR;
    var tickLow := (logSqrt10001X64 - MARGIN_LOW) / Q64;
    var tickHigh := (logSqrt10001X64 + MARGIN_HIGH) / Q64;
    EstimatesAre(sqrtPrice, tickLow, tickHigh);
    EstimatesInRange(sqrtPrice);
    if tickLow == tickHigh {
      res := Ok(tickLow);
    } else {
      var priceHigh := GetSqrtPriceAtTick(tickHigh);
      if priceHigh.value <= sqrtPrice { res := Ok(tickHigh); } else { res := Ok(tickLow); }
    }
  }

  lemma EstimatesAre(p: nat, low: int, high: int)
    requires p > 0
    requires var log := ((Msb(p) - 64) * TWO32 + Frac(Norm(p), 16) * 0x1_0000_0000_0000 / TWO32) * LOG_FACTOR;
             low == (log - MARGIN_LOW) / Q64 && high == (log + MARGIN_HIGH) / Q64
    ensures low == TickLow(p) && high == TickHigh(p)
  {
    hide Msb, Norm, Frac;
    ShiftFraction(Frac(Norm(p), 16));
  }

  lemma ShiftFraction(f: nat)
    ensures f * 0x1_0000_0000_0000 / TWO32 == f * 0x1_0000
  {}

  lemma Pow2Halve(i: nat)
    requires i < 16
    ensures i < 15 ==> Pow2(15 - i) == 2 * Pow2(14 - i)
    ensures i == 15 ==> Pow2(15 - i) == 1
  {}

  /** The squaring loop: `bit` walks down from 2^63, sixteen times. */
  method FractionLoop(mantissa: nat) returns (log2pFractionX64: nat)
    requires Mantissa(mantissa)
    ensures log2pFractionX64 == Frac(mantissa, 16) * 0x1_0000_0000_0000
  {
    hide Frac, Pow2;
    Pow2Small();
    var r, bit, precision := mantissa, TWO63, 0;
    log2pFractionX64 := 0;
    while bit > 0 && precision < BIT_PRECISION
      invariant 0 <= precision <= 16 && Mantissa(r)
      invariant bit > 0 && precision < 16 ==> bit == Pow2(15 - precision) * 0x1_0000_0000_0000
      invariant precision < 16 ==> bit > 0
      invariant log2pFractionX64 + Frac(r, 16 - precision) * 0x1_0000_0000_0000
                == Frac(mantissa, 16) * 0x1_0000_0000_0000
      decreases 16 - precision
    {
      SquareRange(r);
      Pow2Halve(precision);
      FracUnfold(r, 16 - precision, LogBit(r), LogNext(r));
      var square := r * r;
      var isRMoreThanTwo := square / TWO127;
      assert isRMoreThanTwo == LogBit(r);
      r := if isRMoreThanTwo == 1 then square / Q64 else square / TWO63;
      log2pFractionX64 := log2pFractionX64 + bit * isRMoreThanTwo;
      bit := bit / 2;
      precision := precision + 1;
    }
    FracZero(r);
  }
}
