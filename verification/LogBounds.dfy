/** What the logarithm loop computes: powers of two that enclose a power of the price. */
module LogBounds {
  import opened Types
  import opened Arith
  import opened Bits
  import opened Powers
  import opened TickAtPrice
  import opened TickBase

  /** One unit of a 63-bit mantissa. */
  const UNIT: real := 1.0 / 9223372036854775808.0

  function Scaled(r: nat): real { r as real * UNIT }

  /** y * y is twice^bit times y', up to one unit. */
  predicate Step(y: real, y': real, u: real) {
    u * y' <= y * y <= (u * y') * (1.0 + UNIT)
  }

  lemma LogStep(r: nat)
    requires Mantissa(r)
    ensures 1.0 <= Scaled(LogNext(r)) <= 2.0
    ensures Step(Scaled(r), Scaled(LogNext(r)), if LogBit(r) == 1 then 2.0 else 1.0)
  {
    SquareRange(r);
    var n := LogNext(r);
    if r * r >= TWO127 {
      DivBounds(r * r, Q64);
      StepReal(r, n, r * r, 2 * TWO63, 2.0);
    } else {
      DivBounds(r * r, TWO63);
      StepReal(r, n, r * r, TWO63, 1.0);
    }
  }

  lemma StepReal(r: nat, n: nat, square: nat, d: nat, u: real)
    requires square == r * r && n * d <= square < n * d + d && TWO63 <= n
    requires (d == 2 * TWO63 && u == 2.0) || (d == TWO63 && u == 1.0)
    ensures Step(Scaled(r), Scaled(n), u)
  {
    var a, b := r as real, n as real;
    assert square as real == a * a;
    assert (n * d) as real == b * d as real && (n * d + d) as real == b * d as real + d as real;
    assert d as real * (UNIT * UNIT) == u * UNIT;
    assert 1.0 <= b * UNIT;
    StepScaled(a, b, d as real, u, UNIT);
  }

  lemma StepScaled(a: real, b: real, d: real, u: real, e: real)
    requires 0.0 < e && 0.0 < u && 0.0 <= b && b * d <= a * a <= b * d + d && d * (e * e) == u * e && 1.0 <= b * e
    ensures u * (b * e) <= (a * e) * (a * e) <= (u * (b * e)) * (1.0 + e)
  {
    ScaleLe2(0.0, e, 0.0, e);
    ScaleLe(b * d, a * a, e * e);
    ScaleLe(a * a, b * d + d, e * e);
    SquareParts(a, e);
    ScaleParts(b, d, e, u);
    ScaleLe(1.0, b * e, u * e);
    ScaleTail(b, e, u);
  }

  lemma ScaleParts(b: real, d: real, e: real, u: real)
    requires d * (e * e) == u * e
    ensures (b * d) * (e * e) == u * (b * e)
    ensures (b * d + d) * (e * e) == u * (b * e) + u * e
  {
    Assoc(b, d, e * e);
    Assoc(b, u, e);
    Assoc(u, b, e);
    assert (b * d + d) * (e * e) == (b * d) * (e * e) + d * (e * e);
    assert b * (u * e) == u * (b * e);
  }

  lemma ScaleTail(b: real, e: real, u: real)
    requires 1.0 * (u * e) <= (b * e) * (u * e)
    ensures u * (b * e) + u * e <= (u * (b * e)) * (1.0 + e)
  {
    var t := b * e;
    TailIdentity(t, e, u);
  }

  lemma TailIdentity(t: real, e: real, u: real)
    ensures (u * t) * (1.0 + e) == u * t + t * (u * e)
  {
    Assoc(u, t, e);
    Assoc(t, u, e);
  }

  // ---- Enclosing a power between two powers of two ----

  /** x^h is 2^n at least, and twice that at most, up to `m` units. */
  predicate Encloses(x: real, n: nat, h: nat, m: nat) {
    Pow(2.0, n) <= Pow(x, h) <= Pow(2.0, n + 1) * Pow(1.0 + UNIT, m)
  }

  /** `z` is u times y, up to one unit. */
  predicate Near(z: real, u: real, y: real) {
    u * y <= z <= (u * y) * (1.0 + UNIT)
  }

  /** Multiplying by `u`, a power of two once raised to `h`, moves the exponent. */
  lemma EncloseScaled(z: real, u: real, y: real, d: nat, n: nat, h: nat, m: nat)
    requires Near(z, u, y) && 0.0 <= u && 0.0 <= y && Pow(u, h) == Pow(2.0, d) && Encloses(y, n, h, m)
    ensures Encloses(z, d + n, h, m + h)
  {
    hide Pow, Near, Encloses, UNIT;
    PowPositive(2.0, d);
    PowPositive(2.0, n);
    UnitPower(h);
    hide SameProduct, Between, NearProduct;
    NearPower(z, u, y, h, Pow(2.0, d), Pow(y, h), Pow(1.0 + UNIT, h), Pow(z, h));
    EnclosesParts(y, n, h, m, Pow(y, h), Pow(2.0, n), Pow(2.0, n + 1), Pow(1.0 + UNIT, m));
    SumOfExponents(d, n, h, m);
    assert d + (n + 1) == d + n + 1;
    ScaleChain(Pow(2.0, d), Pow(2.0, n), Pow(2.0, n + 1), Pow(y, h), Pow(1.0 + UNIT, m), Pow(1.0 + UNIT, h),
               Pow(2.0, d + n), Pow(2.0, d + n + 1), Pow(1.0 + UNIT, m + h), Pow(z, h));
    EnclosesParts(z, d + n, h, m + h, Pow(z, h), Pow(2.0, d + n), Pow(2.0, d + n + 1), Pow(1.0 + UNIT, m + h));
  }

  predicate Between(power: real, low: real, high: real, slack: real) { low <= power <= high * slack }

  predicate NearProduct(z: real, x: real, y: real, e: real) { x * y <= z <= (x * y) * e }

  predicate SameProduct(x: real, y: real, z: real) { z == x * y }

  lemma SumOfExponents(d: nat, n: nat, h: nat, m: nat)
    ensures SameProduct(Pow(2.0, d), Pow(2.0, n), Pow(2.0, d + n))
    ensures SameProduct(Pow(2.0, d), Pow(2.0, n + 1), Pow(2.0, d + n + 1))
    ensures SameProduct(Pow(1.0 + UNIT, m), Pow(1.0 + UNIT, h), Pow(1.0 + UNIT, m + h))
  {
    hide Pow;
    TwoPowers(d, n);
    TwoPowers(d, n + 1);
    PowAdd(1.0 + UNIT, m, h);
  }

  lemma UnitPower(h: nat)
    ensures Pow(1.0 + UNIT, h) > 0.0
  {
    PowPositive(1.0 + UNIT, h);
  }

  lemma EnclosesParts(x: real, n: nat, h: nat, m: nat, power: real, low: real, high: real, slack: real)
    requires power == Pow(x, h) && low == Pow(2.0, n) && high == Pow(2.0, n + 1) && slack == Pow(1.0 + UNIT, m)
    ensures Encloses(x, n, h, m) <==> Between(power, low, high, slack)
  {}

  lemma NearPower(z: real, u: real, y: real, h: nat, uh: real, yh: real, eh: real, zh: real)
    requires Near(z, u, y) && 0.0 <= u && 0.0 <= y && uh == Pow(u, h) && yh == Pow(y, h) && eh == Pow(1.0 + UNIT, h)
             && zh == Pow(z, h)
    ensures NearProduct(zh, uh, yh, eh)
  {
    hide Pow;
    NearParts(z, u, y, u * y, 1.0 + UNIT, (u * y) * (1.0 + UNIT), h);
  }

  lemma NearParts(z: real, u: real, y: real, w: real, e: real, v: real, h: nat)
    requires w == u * y && v == w * e && w <= z <= v && 0.0 <= u && 0.0 <= y
    ensures Pow(u, h) * Pow(y, h) <= Pow(z, h) <= (Pow(u, h) * Pow(y, h)) * Pow(e, h)
  {
    hide Pow;
    ProductLe(0.0, 0.0, u, y);
    PowOfProduct(u, y, w, h);
    PowOfProduct(w, e, v, h);
    PowMono(w, z, h);
    PowMono(z, v, h);
  }

  lemma ScaleChain(d: real, n: real, n': real, y: real, m: real, h: real, low: real, high: real, slack: real,
      power: real)
    requires 0.0 < d && 0.0 < n && 0.0 < h && Between(y, n, n', m) && NearProduct(power, d, y, h)
    requires SameProduct(d, n, low) && SameProduct(d, n', high) && SameProduct(m, h, slack)
    ensures Between(power, low, high, slack)
  {
    ProductLe(d, n, d, y);
    ProductLe(d, y, d, n' * m);
    ProductLe(d * y, h, d * (n' * m), h);
    Assoc(d, n', m);
    Assoc(high, m, h);
    assert d * (n' * m) == high * m;
  }

  /** Squaring the argument halves the power. */
  lemma EncloseSquare(y: real, z: real, n: nat, h: nat, m: nat)
    requires z == y * y && Encloses(z, n, h, m)
    ensures Encloses(y, n, 2 * h, m)
  {
    PowPow(y, 2, h);
    PowSquare(y);
    hide Pow;
  }

  lemma PowSquare(y: real)
    ensures Pow(y, 2) == y * y
  {
    PowAdd(y, 1, 1);
    PowAtOne(y);
  }

  lemma BitPower(u: real, bit: bool, h: nat)
    requires u == if bit then 2.0 else 1.0
    ensures Pow(u, h) == Pow(2.0, if bit then h else 0)
  {
    PowOne(h);
  }

  lemma EncloseBase(r: nat)
    requires Mantissa(r)
    ensures Encloses(Scaled(r), 0, 1, 1)
  {
    PowAtOne(Scaled(r));
    PowAtOne(2.0);
    PowAtOne(1.0 + UNIT);
    assert Pow(2.0, 0) == 1.0;
    hide Pow;
    assert 1.0 <= Scaled(r) <= 2.0;
  }

  /** The `k` fraction bits of the squaring loop enclose the 2^k-th power of the mantissa. */
  lemma {:induction false} FractionEncloses(r: nat, k: nat)
    requires Mantissa(r)
    ensures Encloses(Scaled(r), Frac(r, k), Pow2(k), Pow2(k))
    decreases k
  {
    hide Encloses, LogNext, LogBit, Step, Scaled, Pow;
    if k == 0 {
      EncloseBase(r);
    } else {
      var bit, next, h := LogBit(r) == 1, LogNext(r), Pow2(k - 1);
      FractionEncloses(next, k - 1);
      LogStep(r);
      var y, y', u := Scaled(r), Scaled(next), if bit then 2.0 else 1.0;
      var z := y * y;
      StepNear(y, y', u, z);
      BitPower(u, bit, h);
      EncloseScaled(z, u, y', if bit then h else 0, Frac(next, k - 1), h, h);
      EncloseSquare(y, z, Frac(r, k), h, h + h);
    }
  }

  lemma StepNear(y: real, y': real, u: real, z: real)
    requires Step(y, y', u) && z == y * y
    ensures Near(z, u, y')
  {}

  // ---- The whole price ----

  /** The price is 2^msb times its mantissa, up to one unit. */
  lemma NormNear(p: nat)
    requires p > 0
    ensures Near(p as real, Pow(2.0, Msb(p)), Scaled(Norm(p)))
  {
    hide Pow, Msb, Pow2, Near, Scaled, UNIT;
    var msb := Msb(p);
    MsbBounds(p);
    Pow2At63();
    TwoIsTwo(msb);
    if msb >= 64 {
      Pow2Add(63, msb - 63);
      NormDown(p, Pow2(msb), Pow2(msb - 63), Norm(p));
    } else {
      Pow2Add(msb, 63 - msb);
      NormUp(p, Pow2(msb), Pow2(63 - msb), Norm(p));
    }
  }

  lemma NormDown(p: nat, top: nat, s: nat, n: nat)
    requires s > 0 && top == TWO63 * s && n == p / s && Mantissa(n)
    ensures Near(p as real, top as real, Scaled(n))
  {
    DivBounds(p, s);
    MulLe(TWO63, n, s);
    var shifted := n * s;
    NormReal(p, top, s, n, shifted);
  }

  lemma NormReal(p: nat, top: nat, s: nat, n: nat, shifted: nat)
    requires shifted == n * s && top == TWO63 * s && shifted <= p < shifted + s && top <= shifted
    ensures Near(p as real, top as real, Scaled(n))
  {
    var a, b := n as real, s as real;
    assert shifted as real == a * b;
    assert top as real == 9223372036854775808.0 * b;
    Assoc(9223372036854775808.0, b, a * UNIT);
    Assoc(b, a, UNIT);
    assert top as real * (a * UNIT) == shifted as real;
    assert b <= shifted as real * UNIT;
  }

  lemma NormUp(p: nat, top: nat, s: nat, n: nat)
    requires top * s == TWO63 && n == p * s
    ensures Near(p as real, top as real, Scaled(n))
  {
    var a, b, t := p as real, s as real, top as real;
    assert n as real == a * b && t * b == 9223372036854775808.0;
    Assoc(a, b, UNIT);
    UnitFactor(a, b, t, n as real * UNIT);
    ScaleLe(0.0, UNIT, a);
  }

  lemma UnitFactor(a: real, b: real, t: real, y: real)
    requires t * b == 9223372036854775808.0 && y == a * (b * UNIT)
    ensures t * y == a
  {
    Assoc(t, b, UNIT);
    Assoc(t, a, b * UNIT);
    Assoc(a, t, b * UNIT);
    assert t * (b * UNIT) == 1.0;
  }

  /** The 16-bit binary logarithm the program computes, as an integer: floor(2^16 * log2(p)) up to rounding. */
  function LogFloor(p: nat): nat
    requires p > 0
  {
    0x1_0000 * Msb(p) + Frac(Norm(p), 16)
  }

  lemma Log2IsLogFloor(p: nat)
    requires p > 0
    ensures Log2X32(p) == 0x1_0000 * (LogFloor(p) - 0x40_0000)
  {
    hide Msb, Frac, Norm;
  }

  lemma LogEncloses(p: nat)
    requires p > 0
    ensures Encloses(p as real, LogFloor(p), 0x1_0000, 0x2_0000)
  {
    hide Encloses, LogFloor, Pow2;
    Pow2At16(16);
    LogEnclosesWith(p, 16, 0x1_0000);
  }

  lemma Pow2At16(k: nat)
    requires k == 16
    ensures Pow2(k) == 0x1_0000
  {
    hide Pow2;
    Pow2Small();
    Pow2Add(8, 8);
  }

  lemma LogEnclosesWith(p: nat, k: nat, h: nat)
    requires p > 0 && k == 16 && h == Pow2(k) == 0x1_0000
    ensures Encloses(p as real, LogFloor(p), h, h + h)
  {
    hide Pow, Near, Encloses, Pow2, Scaled, Msb, Norm, Frac;
    var y, msb := Scaled(Norm(p)), Msb(p);
    NormNear(p);
    FractionEncloses(Norm(p), k);
    PowPositive(2.0, msb);
    PowPow(2.0, msb, h);
    ScaledPositive(Norm(p));
    EncloseScaled(p as real, Pow(2.0, msb), y, msb * h, Frac(Norm(p), k), h, h);
  }

  lemma ScaledPositive(r: nat)
    ensures Scaled(r) >= 0.0
  {}

  lemma UnitsWithinSlack(m: nat)
    requires m == 0x2_0000
    ensures Pow(1.0 + UNIT, m) <= 1.0 + SLACK
  {
    hide Pow;
    PowNearOne(UNIT, m);
  }

  /** The price to the power 2^16 lies between 2^b and 2^(b + 1), for the computed logarithm b. */
  lemma LogBetween(p: nat, h: nat)
    requires p > 0 && h == 0x1_0000
    ensures Between(Pow(p as real, h), Pow(2.0, LogFloor(p)), Pow(2.0, LogFloor(p) + 1), 1.0 + SLACK)
  {
    hide Pow, Encloses, LogFloor, UNIT, SLACK;
    var m := h + h;
    LogEncloses(p);
    UnitsWithinSlack(m);
    var b := LogFloor(p);
    PowPositive(2.0, b + 1);
    hide Between;
    EnclosesParts(p as real, b, h, m, Pow(p as real, h), Pow(2.0, b), Pow(2.0, b + 1), Pow(1.0 + UNIT, m));
    BetweenMore(Pow(p as real, h), Pow(2.0, b), Pow(2.0, b + 1), Pow(1.0 + UNIT, m), 1.0 + SLACK);
  }

  lemma BetweenMore(power: real, low: real, high: real, slack: real, slack': real)
    requires Between(power, low, high, slack) && slack <= slack' && 0.0 <= high
    ensures Between(power, low, high, slack')
  {
    ScaleLe(slack, slack', high);
  }
}
