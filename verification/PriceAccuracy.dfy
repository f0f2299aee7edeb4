/** How far the truncated product of `get_sqrt_price_at_tick` is from the exact power 1.0001^(tick / 2). */
module PriceAccuracy {
  import opened Types
  import opened Arith
  import opened Bits
  import opened TickMath
  import opened Powers
  import opened TickBase

  /** The error allowed for one multiplication, 2^-30. */
  const LAMBDA: real := 1.0 / 1073741824.0
  const Q128: real := 340282366920938463463374607431768211456.0

  /** The error of one factor of the table above, 2^-37, and below, 2^-36. */
  const FINE: real := 1.0 / 137438953472.0
  const COARSE: real := 1.0 / 68719476736.0

  // ---- Closeness ----

  /** Equal up to `k` factor errors, either way. */
  predicate Close(a: real, b: real, k: nat) {
    a <= b * Pow(1.0 + LAMBDA, k) && b <= a * Pow(1.0 + LAMBDA, k)
  }

  lemma CloseParts(a: real, b: real, k: nat, p: real)
    requires p == Pow(1.0 + LAMBDA, k)
    ensures Close(a, b, k) <==> a <= b * p && b <= a * p
  {}

  lemma LambdaPowers(k: nat)
    ensures Pow(1.0 + LAMBDA, k) >= 1.0
    ensures Pow(1.0 + LAMBDA, k + 1) == (1.0 + LAMBDA) * Pow(1.0 + LAMBDA, k)
    ensures Pow(1.0 + LAMBDA, 1) == 1.0 + LAMBDA && Pow(1.0 + LAMBDA, 0) == 1.0
  {
    PowAtOne(1.0 + LAMBDA);
    PowAtLeastOne(1.0 + LAMBDA, k);
  }

  lemma CloseMore(a: real, b: real, k: nat)
    requires Close(a, b, k) && 0.0 <= a && 0.0 <= b
    ensures Close(a, b, k + 1)
  {
    LambdaPowers(k);
    var p, q := Pow(1.0 + LAMBDA, k), Pow(1.0 + LAMBDA, k + 1);
    CloseParts(a, b, k, p);
    CloseParts(a, b, k + 1, q);
    hide Pow, Close;
    GrowProduct(p, 1.0 + LAMBDA);
    ScaleLe(p, q, a);
    ScaleLe(p, q, b);
  }

  /** One factor `f` more, one error more. */
  lemma CloseChain(a: real, b: real, c: real, f: real, bf: real, cf: real, k: nat)
    requires bf == b * f && cf == c * f && 0.0 <= f
    requires Close(a, bf, 1) && Close(b, c, k)
    ensures Close(a, cf, k + 1)
  {
    LambdaPowers(k);
    var e, p := 1.0 + LAMBDA, Pow(1.0 + LAMBDA, k);
    var q := Pow(1.0 + LAMBDA, k + 1);
    CloseParts(a, bf, 1, e);
    CloseParts(b, c, k, p);
    CloseParts(a, cf, k + 1, q);
    hide Pow, Close, LAMBDA;
    ChainUp(a, b, c, f, bf, cf, e, p, q);
    ChainDown(a, b, c, f, bf, cf, e, p, q);
  }

  lemma ChainUp(a: real, b: real, c: real, f: real, bf: real, cf: real, e: real, p: real, q: real)
    requires bf == b * f && cf == c * f && 0.0 <= f && q == e * p && 0.0 <= e && a <= bf * e && b <= c * p
    ensures a <= cf * q
  {
    ScaleLe(b, c * p, f);
    Assoc(c, p, f);
    assert bf <= cf * p;
    ScaleLe(bf, cf * p, e);
    Assoc(cf, p, e);
    assert p * e == q;
  }

  lemma ChainDown(a: real, b: real, c: real, f: real, bf: real, cf: real, e: real, p: real, q: real)
    requires bf == b * f && cf == c * f && 0.0 <= f && q == e * p && 0.0 <= p && bf <= a * e && c <= b * p
    ensures cf <= a * q
  {
    ScaleLe(c, b * p, f);
    Assoc(b, p, f);
    assert cf <= bf * p;
    ScaleLe(bf, a * e, p);
    Assoc(a, e, p);
  }

  // ---- One factor of the table ----

  const TWO187: int := 0x80000000000000000000000000000000000000000000000
  const TWO224: int := 0x100000000000000000000000000000000000000000000000000000000
  const TWO260: int := 0x100000000000000000000000000000000000000000000000000000000000000000

  /** m^2 times a number between lo and hi, times `two`, is 2^224 up to one part in 2^36. */
  predicate FactorFits(m: nat, lo: nat, hi: nat, two: nat) {
    m * m * hi * two <= TWO224 + TWO187 && TWO260 <= m * m * lo * two * 0x10_0000_0001
  }

  /** 2^EXPONENT[i]. */
  const SHIFT: seq<nat> := [1, 1, 1, 1, 1, 1, 1, 1, 1, 1, 1, 1, 1, 2, 4, 16, 512, 262144, 137438953472]

  predicate Fits(i: nat) {
    i < 19 && i < |MAGIC| && i < |LOW| && i < |HIGH| && i < |SHIFT| && FactorFits(MAGIC[i], LOW[i], HIGH[i], SHIFT[i])
  }

  lemma TableFits(i: nat)
    requires i < 19
    ensures Fits(i)
  {
    hide Fits;
    if i < 3 { Fits0(i); } else if i < 6 { Fits3(i); } else if i < 9 { Fits6(i); } else if i < 12 { Fits9(i); }
        else if i < 15 { Fits12(i); } else if i < 17 { Fits15(i); } else { Fits17(i); }
  }

  lemma Fits0(i: nat)
    requires 0 <= i < 3
    ensures Fits(i)
  {
    assert i == 0 || i == 1 || i == 2;
  }

  lemma Fits3(i: nat)
    requires 3 <= i < 6
    ensures Fits(i)
  {
    assert i == 3 || i == 4 || i == 5;
  }

  lemma Fits6(i: nat)
    requires 6 <= i < 9
    ensures Fits(i)
  {
    assert i == 6 || i == 7 || i == 8;
  }

  lemma Fits9(i: nat)
    requires 9 <= i < 12
    ensures Fits(i)
  {
    assert i == 9 || i == 10 || i == 11;
  }

  lemma Fits12(i: nat)
    requires 12 <= i < 15
    ensures Fits(i)
  {
    assert i == 12 || i == 13 || i == 14;
  }

  lemma Fits15(i: nat)
    requires 15 <= i < 17
    ensures Fits(i)
  {
    assert i == 15 || i == 16;
  }

  lemma Fits17(i: nat)
    requires 17 <= i < 19
    ensures Fits(i)
  {
    assert i == 17 || i == 18;
  }

  lemma ShiftIsPower(i: nat)
    requires i < 19
    ensures |SHIFT| == 19 && |EXPONENT| == 43 && SHIFT[i] as real == Pow(2.0, EXPONENT[i])
  {
    hide Pow;
    assert |EXPONENT| == 43 && |SHIFT| == 19;
    TwoIsTwoAt(i, EXPONENT[i]);
  }

  lemma TwoIsTwoAt(i: nat, e: nat)
    requires i < 19 && |EXPONENT| == 43 && |SHIFT| == 19 && e == EXPONENT[i]
    ensures SHIFT[i] as real == Pow(2.0, e)
  {
    TwoIsTwo(e);
    hide Pow;
    if i < 13 {
      assert i == 0 || i == 1 || i == 2 || i == 3 || i == 4 || i == 5 || i == 6 || i == 7 || i == 8 || i == 9
          || i == 10 || i == 11 || i == 12;
    } else {
      assert i == 13 || i == 14 || i == 15 || i == 16 || i == 17 || i == 18;
      PowersAt(e);
    }
  }

  lemma PowersAt(e: nat)
    ensures e == 1 ==> Pow2(e) == 2
    ensures e == 2 ==> Pow2(e) == 4
    ensures e == 4 ==> Pow2(e) == 16
    ensures e == 9 ==> Pow2(e) == 512
    ensures e == 18 ==> Pow2(e) == 262144
    ensures e == 37 ==> Pow2(e) == 137438953472
  {
    hide Pow2;
    Pow2Small();
    Pow2Add(9, 9);
    Pow2Add(18, 9);
    Pow2Add(27, 10);
  }

  /** The square w of a factor times the power x of the base it inverts is 2^128. */
  predicate Accurate(w: real, x: real) {
    w * x <= Q128 * (1.0 + FINE) && Q128 <= (w * x) * (1.0 + COARSE)
  }

  function Square(m: nat): real { m as real * m as real }

  lemma FactorAccurate(i: nat)
    requires i < 19
    ensures |MAGIC| == 19 && Accurate(Square(MAGIC[i]), Pow(BASE, Pow2(i)))
  {
    hide Pow, Pow2, Accurate, Square, FactorFits, Bounds;
    TableFits(i);
    BaseBounds(i);
    ShiftIsPower(i);
    FactorAccurateWith(MAGIC[i], LOW[i], HIGH[i], SHIFT[i], EXPONENT[i], Pow(BASE, Pow2(i)));
  }

  lemma FactorAccurateWith(m: nat, lo: nat, hi: nat, two: nat, e: nat, x: real)
    requires FactorFits(m, lo, hi, two) && two as real == Pow(2.0, e) && Bounds(x, lo, hi, e)
    ensures Accurate(Square(m), x)
  {
    hide Pow;
    var w, l, h, t, c := Square(m), lo as real, hi as real, two as real, Scale();
    FitsReal(m, lo, hi, two);
    assert l * t <= x * c <= h * t;
    ScaleLe(0.0, m as real, m as real);
    AccurateScaled(w, l, h, t, x, c);
  }

  lemma FitsReal(m: nat, lo: nat, hi: nat, two: nat)
    requires FactorFits(m, lo, hi, two)
    ensures (Square(m) * hi as real) * two as real <= (Q128 * (1.0 + FINE)) * Scale()
    ensures Q128 * Scale() <= ((Square(m) * lo as real) * two as real) * (1.0 + COARSE)
  {
    ProductReal(m, hi, two);
    ProductReal(m, lo, two);
    var low := m * m * lo * two;
    assert (low * 0x10_0000_0001) as real == low as real * 68719476737.0;
    assert low as real == (Square(m) * lo as real) * two as real;
  }

  lemma ProductReal(m: nat, x: nat, two: nat)
    ensures (m * m * x * two) as real == (Square(m) * x as real) * two as real
  {
    assert (m * m) as real == Square(m);
    var w := m * m;
    WideReal(w, x, two);
  }

  lemma WideReal(w: nat, x: nat, two: nat)
    ensures (w * x * two) as real == (w as real * x as real) * two as real
  {
    assert (w * x) as real == w as real * x as real;
  }

  lemma AccurateScaled(w: real, l: real, h: real, t: real, x: real, c: real)
    requires c == Scale() && 0.0 <= w && l * t <= x * c <= h * t
    requires (w * h) * t <= (Q128 * (1.0 + FINE)) * c && Q128 * c <= ((w * l) * t) * (1.0 + COARSE)
    ensures Accurate(w, x)
  {
    Assoc(w, h, t);
    Assoc(w, l, t);
    Assoc(w, x, c);
    ScaleLe(l * t, x * c, w);
    ScaleLe(x * c, h * t, w);
    assert (w * l) * t <= (w * x) * c <= (w * h) * t;
    CancelLe(w * x, Q128 * (1.0 + FINE), c);
    ScaleLe((w * l) * t, (w * x) * c, 1.0 + COARSE);
    Assoc(w * x, c, 1.0 + COARSE);
    CancelLe(Q128, (w * x) * (1.0 + COARSE), c);
  }

  // ---- One truncated multiplication ----

  const TWO32: int := 0x1_0000_0000

  /** One more unit than 2^32 or more is at most this much more. */
  const STEP32: real := 1.0 + 1.0 / 4294967296.0

  predicate Truncated(v: real, u: real, w: real) {
    v * Q128 <= u * w && u * w <= (v * Q128) * (STEP32 * STEP32)
  }

  lemma TruncateClose(x: nat, m: nat)
    requires m <= Q64 && Truncate(x, m) >= TWO32
    ensures Truncated(Square(Truncate(x, m)), Square(x), Square(m))
  {
    TruncateBounds(x, m);
    TruncateReal(x, m, Truncate(x, m), x * m);
  }

  lemma TruncateReal(x: nat, m: nat, y: nat, xm: nat)
    requires xm == x * m && xm - Q64 < y * Q64 <= xm && y >= TWO32
    ensures Truncated(Square(y), Square(x), Square(m))
  {
    var q, a := Q64 as real, y as real;
    assert xm as real == x as real * m as real;
    assert a * q <= xm as real;
    assert q <= (a * q) * (1.0 / 4294967296.0);
    assert xm as real <= (a * q) * STEP32;
    SquaresTruncated(x as real, m as real, a, q, xm as real);
  }

  lemma SquaresTruncated(x: real, m: real, y: real, q: real, z: real)
    requires q == 18446744073709551616.0 && z == x * m && 0.0 <= y && y * q <= z <= (y * q) * STEP32
    ensures Truncated(y * y, x * x, m * m)
  {
    var yq := y * q;
    ScaleLe2(yq, z, yq, z);
    ScaleLe2(z, yq * STEP32, z, yq * STEP32);
    SquareParts(y, q);
    SquareParts(x, m);
    SquareParts(yq, STEP32);
    assert q * q == Q128;
  }

  lemma FactorKeepsClose(u: real, v: real, w: real, x: real, vx: real)
    requires Truncated(v, u, w) && Accurate(w, x) && 0.0 <= u && 0.0 <= v && 0.0 <= x && vx == v * x
    ensures Close(u, vx, 1)
  {
    LambdaPowers(0);
    CloseParts(u, vx, 1, 1.0 + LAMBDA);
    hide Pow, Close;
    ProductLe(0.0, 0.0, v, x);
    AccurateAbove(u, v, w, x, vx);
    AccurateBelow(u, v, w, x, vx);
    ScaleLe(1.0 + FINE, 1.0 + LAMBDA, u);
    ScaleLe((STEP32 * STEP32) * (1.0 + COARSE), 1.0 + LAMBDA, vx);
  }

  lemma AccurateAbove(u: real, v: real, w: real, x: real, vx: real)
    requires v * Q128 <= u * w && w * x <= Q128 * (1.0 + FINE) && 0.0 <= u && 0.0 <= x && vx == v * x
    ensures vx <= u * (1.0 + FINE)
  {
    ScaleLe(v * Q128, u * w, x);
    Assoc(v, Q128, x);
    Assoc(u, w, x);
    ScaleLe(w * x, Q128 * (1.0 + FINE), u);
    Assoc(u, Q128, 1.0 + FINE);
    assert vx * Q128 <= (u * (1.0 + FINE)) * Q128;
    CancelLe(vx, u * (1.0 + FINE), Q128);
  }

  lemma AccurateBelow(u: real, v: real, w: real, x: real, vx: real)
    requires u * w <= (v * Q128) * (STEP32 * STEP32) && Q128 <= (w * x) * (1.0 + COARSE) && 0.0 <= u && 0.0 <= x
             && vx == v * x
    ensures u <= vx * ((STEP32 * STEP32) * (1.0 + COARSE))
  {
    BelowWith(u, v, w, x, vx, Q128, STEP32 * STEP32, 1.0 + COARSE);
  }

  lemma BelowWith(u: real, v: real, w: real, x: real, vx: real, q: real, s: real, c: real)
    requires 0.0 < q && 0.0 <= c && u * w <= (v * q) * s && q <= (w * x) * c && 0.0 <= u && 0.0 <= x && vx == v * x
    ensures u <= vx * (s * c)
  {
    ScaleLe(q, (w * x) * c, u);
    Assoc(u, w * x, c);
    Assoc(u, w, x);
    ScaleLe(u * w, (v * q) * s, x);
    BelowSides(v, q, s, x, vx);
    ScaleLe((u * w) * x, (vx * s) * q, c);
    Assoc(vx * s, q, c);
    Assoc(vx, s, c);
    CancelLe(u, vx * (s * c), q);
  }

  lemma BelowSides(v: real, q: real, s: real, x: real, vx: real)
    requires vx == v * x
    ensures ((v * q) * s) * x == (vx * s) * q
  {
    Assoc(v * q, s, x);
    Assoc(v, q, x);
    Assoc(vx, q, s);
  }

  // ---- The whole product ----

  lemma {:induction false} NextPower(n: nat, i: nat)
    ensures 0 <= n * Pow2(i) && 0 <= n / 2 * Pow2(i + 1)
    ensures n % 2 == 0 ==> Pow(BASE, n * Pow2(i)) == Pow(BASE, n / 2 * Pow2(i + 1))
    ensures n % 2 == 1 ==> Pow(BASE, n * Pow2(i)) == Pow(BASE, n / 2 * Pow2(i + 1)) * Pow(BASE, Pow2(i))
  {
    assert Pow2(i + 1) == 2 * Pow2(i);
    hide Pow, Pow2;
    HalvedExponent(n, Pow2(i), Pow2(i + 1), n / 2 * Pow2(i + 1));
  }

  lemma {:induction false} HalvedExponent(n: nat, p: nat, p': nat, e: int)
    requires p' == 2 * p && e == n / 2 * p'
    ensures 0 <= e && n * p == e + (if n % 2 == 1 then p else 0)
    ensures n % 2 == 1 ==> Pow(BASE, e + p) == Pow(BASE, e) * Pow(BASE, p)
  {
    hide Pow;
    var h := n / 2;
    MulLe(0, h, p');
    Rotate(h, 2, p);
    Distribute(p, 2 * h, 1);
    assert n == 2 * h + n % 2;
    PowAdd(BASE, e, p);
  }

  /** r^2 times the power is x^2, up to `k` errors. */
  predicate Inverts(x: nat, r: nat, power: real, k: nat) {
    Close(Square(x), Square(r) * power, k)
  }

  lemma InvertsIs(x: nat, r: nat, power: real, k: nat, square: real)
    requires square == Square(r) * power
    ensures Inverts(x, r, power, k) <==> Close(Square(x), square, k)
  {
    hide Close, Square;
  }

  /** The squared product of the factors of the set bits of `n`, from bit `i` up, times
      1.0001^(n 2^i), is the square of the start. */
  lemma {:induction false} ProductClose(x: nat, n: nat, i: nat)
    requires i <= 19 && n < Pow2(19 - i) && Factors(MAGIC) && RatioFrom(MAGIC, x, n, i) >= TWO32
    ensures 0 <= n * Pow2(i) && Inverts(x, RatioFrom(MAGIC, x, n, i), Pow(BASE, n * Pow2(i)), 19 - i)
    decreases 19 - i
  {
    hide RatioFrom, MAGIC, Pow, Pow2, Inverts, Truncate;
    if i == 19 {
      ProductDone(x, n);
    } else {
      HalfBelow(n, 19 - i);
      Unfold(MAGIC, x, n, i);
      NextPower(n, i);
      var r := RatioFrom(MAGIC, x, n, i);
      if n % 2 == 1 {
        ProductClose(Truncate(x, MAGIC[i]), n / 2, i + 1);
        ProductOdd(x, Truncate(x, MAGIC[i]), r, MAGIC[i], i, Pow(BASE, n / 2 * Pow2(i + 1)), Pow(BASE, n * Pow2(i)));
      } else {
        ProductClose(x, n / 2, i + 1);
        ProductEven(x, r, 18 - i, n * Pow2(i));
      }
    }
  }

  lemma HalfBelow(n: nat, k: nat)
    requires n < Pow2(k) && k > 0
    ensures n / 2 < Pow2(k - 1)
  {}

  lemma ProductDone(x: nat, n: nat)
    requires n < Pow2(0) && Factors(MAGIC)
    ensures 0 <= n * Pow2(19) && Inverts(x, RatioFrom(MAGIC, x, n, 19), Pow(BASE, n * Pow2(19)), 0)
  {
    assert n == 0;
    assert n * Pow2(19) == 0;
    RatioDone(MAGIC, x, n);
    LambdaPowers(0);
  }

  lemma SquareNonNegative(m: nat)
    ensures 0.0 <= Square(m)
  {
    ScaleLe(0.0, m as real, m as real);
  }

  lemma ProductEven(x: nat, r: nat, k: nat, e: nat)
    requires Inverts(x, r, Pow(BASE, e), k)
    ensures Inverts(x, r, Pow(BASE, e), k + 1)
  {
    hide Close, Square, Pow, Inverts;
    PowPositive(BASE, e);
    var square := Square(r) * Pow(BASE, e);
    SquareNonNegative(x);
    SquareNonNegative(r);
    ProductLe(0.0, 0.0, Square(r), Pow(BASE, e));
    InvertsIs(x, r, Pow(BASE, e), k, square);
    InvertsIs(x, r, Pow(BASE, e), k + 1, square);
    CloseMore(Square(x), square, k);
  }

  lemma ProductOdd(x: nat, y: nat, r: nat, m: nat, i: nat, rest: real, power: real)
    requires i < 19 && Factors(MAGIC) && m == MAGIC[i] && y == Truncate(x, m) && TWO32 <= r <= y
    requires Inverts(y, r, rest, 18 - i) && power == rest * Pow(BASE, Pow2(i))
    ensures Inverts(x, r, power, 19 - i)
  {
    hide Close, Square, MAGIC, Pow, Pow2, Truncate, Truncated, Accurate, Inverts;
    var f := Pow(BASE, Pow2(i));
    PowPositive(BASE, Pow2(i));
    FactorAccurate(i);
    TruncateClose(x, m);
    SquareNonNegative(x);
    SquareNonNegative(y);
    FactorKeepsClose(Square(x), Square(y), Square(m), f, Square(y) * f);
    Assoc(Square(r), rest, f);
    var shorter, longer := Square(r) * rest, Square(r) * power;
    InvertsIs(y, r, rest, 18 - i, shorter);
    InvertsIs(x, r, power, 19 - i, longer);
    CloseChain(Square(x), Square(y), shorter, f, Square(y) * f, longer, 18 - i);
  }

  // ---- The price ----

  /** r^2 * 1.0001^n is 2^128. */
  lemma RatioClose(n: nat)
    requires n <= MAX_TICK
    ensures Inverts(Q64, Ratio(n), Pow(BASE, n), 19)
  {
    hide Pow, Inverts, Pow2;
    RatioAtLeastMin(n);
    BitsOfTick(n, 19);
    MagicFactors();
    ProductClose(Q64, n, 0);
  }

  lemma BitsOfTick(n: nat, k: nat)
    requires n <= MAX_TICK && k == 19
    ensures n < Pow2(k) && n * Pow2(0) == n
  {
    hide Pow2;
    Pow2Small();
    Pow2Add(10, 9);
  }

  /** The exact price squared is 2^128 * 1.0001^tick; the power goes to the side that keeps its exponent positive. */
  predicate PriceFits(price: nat, below: nat, above: nat) {
    Close(Square(price) * Pow(BASE, below), Q128 * Pow(BASE, above), 20)
  }

  lemma PriceClose(tick: int)
    requires MIN_TICK <= tick <= MAX_TICK
    ensures PriceFits(SqrtPriceAtTick(tick), if tick < 0 then -tick else 0, if tick > 0 then tick else 0)
  {
    hide PriceFits, Pow, Inverts, Ratio;
    if tick <= 0 {
      RatioClose(-tick);
      RatioFits(Ratio(-tick), -tick);
    } else {
      RatioClose(tick);
      RatioAtLeastMin(tick);
      InverseFits(Ratio(tick), tick);
    }
  }

  lemma SquareOfOne(x: nat)
    requires x == Q64
    ensures Square(x) == Q128
  {}

  lemma CloseSymmetric(a: real, b: real, k: nat)
    requires Close(a, b, k)
    ensures Close(b, a, k)
  {}

  lemma RatioFits(r: nat, n: nat)
    requires Inverts(Q64, r, Pow(BASE, n), 19)
    ensures PriceFits(r, n, 0)
  {
    assert Pow(BASE, 0) == 1.0;
    hide Pow, Close, Square, Inverts;
    var square := Square(r) * Pow(BASE, n);
    SquareOfOne(Q64);
    SquareNonNegative(r);
    PowPositive(BASE, n);
    ProductLe(0.0, 0.0, Square(r), Pow(BASE, n));
    InvertsIs(Q64, r, Pow(BASE, n), 19, square);
    CloseMore(Q128, square, 19);
    CloseSymmetric(Q128, square, 20);
    assert Q128 * Pow(BASE, 0) == Q128;
  }

  lemma InverseFits(r: nat, n: nat)
    requires TWO32 <= r <= Q64 && Inverts(Q64, r, Pow(BASE, n), 19)
    ensures PriceFits(Invert(r), 0, n)
  {
    assert Pow(BASE, 0) == 1.0;
    hide Pow, Close, Square, Inverts, Invert;
    var square, w, p := Square(r) * Pow(BASE, n), Square(r), Invert(r);
    SquareOfOne(Q64);
    InvertsIs(Q64, r, Pow(BASE, n), 19, square);
    InverseSquare(r, p);
    SquarePositive(r);
    var f := Q128 / w;
    assert f * w == Q128;
    var direct, moved := Q128 * f, square * f;
    InverseClose(Square(p), w, f, direct);
    assert moved == Q128 * Pow(BASE, n) by {
      Assoc(w, Pow(BASE, n), f);
      assert moved == (w * f) * Pow(BASE, n);
    }
    CloseChain(Square(p), Q128, square, f, direct, moved, 19);
    assert Square(p) * Pow(BASE, 0) == Square(p);
  }

  lemma SquarePositive(r: nat)
    requires r > 0
    ensures Square(r) > 0.0
  {
    assert r as real * r as real > 0.0;
  }

  predicate InversePair(v: real, w: real) {
    v * w <= Q128 * Q128 && Q128 * Q128 <= (v * w) * (STEP32 * STEP32)
  }

  lemma InverseSquare(r: nat, p: nat)
    requires TWO32 <= r <= Q64 && p == Invert(r)
    ensures InversePair(Square(p), Square(r))
  {
    DivBounds(U128_MAX, r);
    FloorIff(U128_MAX, r, TWO32);
    var pr := p * r;
    MulLe(TWO32, p, r);
    InverseReal(pr, r, p);
  }

  lemma InverseReal(pr: nat, r: nat, p: nat)
    requires pr == p * r && pr <= U128_MAX < pr + r && TWO32 * r <= pr
    ensures InversePair(Square(p), Square(r))
  {
    var z := pr as real;
    assert z == p as real * r as real;
    assert z <= Q128 <= z + r as real;
    assert Q128 <= z * STEP32;
    ScaleLe2(z, Q128, z, Q128);
    ScaleLe2(Q128, z * STEP32, Q128, z * STEP32);
    SquareParts(z, STEP32);
    SquareParts(p as real, r as real);
  }

  lemma InverseClose(v: real, w: real, f: real, direct: real)
    requires InversePair(v, w) && w > 0.0 && f * w == Q128 && direct == Q128 * f && 0.0 <= v
    ensures 0.0 <= f && Close(v, direct, 1)
  {
    LambdaPowers(0);
    CloseParts(v, direct, 1, 1.0 + LAMBDA);
    hide Pow, Close;
    InverseSides(v, w, f, direct, Q128, STEP32 * STEP32);
    GrowProduct(direct, 1.0 + LAMBDA);
    ScaleLe(STEP32 * STEP32, 1.0 + LAMBDA, v);
  }

  lemma InverseSides(v: real, w: real, f: real, direct: real, q: real, s: real)
    requires 0.0 < w && 0.0 < q && v * w <= q * q <= (v * w) * s && f * w == q && direct == q * f
    ensures 0.0 <= f && 0.0 <= direct && v <= direct <= v * s
  {
    if f < 0.0 {
      ScaleLt(f, 0.0, w);
      assert false;
    }
    ProductLe(0.0, 0.0, q, f);
    Assoc(q, f, w);
    CancelLe(v, direct, w);
    Assoc(v, w, s);
    CancelLe(direct, v * s, w);
  }
}
