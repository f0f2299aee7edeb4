/** Powers of the tick base 1.0001 by repeated squaring, each between two multiples of a power of
    two, and the comparison of its powers with powers of two they make possible. */
module TickBase {
  import opened Bits
  import opened Powers

  const BASE: real := 1.0001
  const TWO96: int := 0x1_0000_0000_0000_0000_0000_0000

  /** 1.0001^(2^i) * 2^96 lies between LOW[i] and HIGH[i], times 2^EXPONENT[i]. */
  const LOW: seq<nat> := [
    0x100068db8bac710cb295e9e1b, 0x1000d1b9c68abe5f76b30fb75, 0x1001a37e4a234cb0830516e50,
    0x100347278ab0e92ada25ab45c, 0x10068efb00a525480a5d7fdba, 0x100d20a63b4173839df9daa93,
    0x101a4c11c742dd7729738df39, 0x1034c35c31f64cfa6dc0d6d98, 0x106a34b78c8aaffbf81bed508,
    0x10d72a6a46ccd8bce9ae77073, 0x11b9a258e63928596dc757d0b, 0x13a2e2bda04f8379f3cd17616,
    0x181954be69e0da8fe77f29cff, 0x1226132ae8c2d014840127ebf, 0x149605bbae7e4d6c71859adbb,
    0x1a7c8d00b551684ff4d313096, 0x15ec49e8596fbe4bc422bb68c, 0x1e09e38786791233e2e550f48,
    0x1c328dac6a2ba80a0b7f142c1, 0x18d8c7cae7d3371621eab6893, 0x134ae83e6e5f1ff134db8d1fd,
    0x17434645b2b250254d9b14fdb, 0x10e942730f0e237fe14459352, 0x11dfcd86892b3a66cd5178d8b,
    0x13f7cf3939b757484a79a3f71, 0x18eb8a406bc2ee0685cb3df0c, 0x13681519891f473384128d4f9,
    0x1789d72f0d74106b2b2e9ceec, 0x11507713cd3a935dcaed02164, 0x12bc91b450576831fcc3e680b,
    0x15f0f63af100d0c2920b1bd3e, 0x1e16b3446e35887013eb94b77, 0x1c4aa03ab9020cba84ef39856,
    0x1903466ef5a6e5989ba07fdbd, 0x138d1e632fa9c983e5751a10d, 0x17e404d35f11a8b40c6b3423d,
    0x11d61fb49d6e6a1a1509bf84c, 0x13e234f02cd1c3f5c2e9b451d, 0x18b5bbd29a8b8fdc19ee0a0f5,
    0x1314a1d4f4b07ae40448a51df, 0x16c11af4be5fabd3502aed292, 0x102e125dc4b0f38249f6fb26c, 0x105ca96539a20092e002266ce
  ]
  const HIGH: seq<nat> := [
    0x100068db8bac710cb295e9e1c, 0x1000d1b9c68abe5f76b30fb78, 0x1001a37e4a234cb0830516e57,
    0x100347278ab0e92ada25ab46b, 0x10068efb00a525480a5d7fdd9, 0x100d20a63b4173839df9daad2,
    0x101a4c11c742dd7729738dfb9, 0x1034c35c31f64cfa6dc0d6e9b, 0x106a34b78c8aaffbf81bed716,
    0x10d72a6a46ccd8bce9ae774ab, 0x11b9a258e63928596dc7585ee, 0x13a2e2bda04f8379f3cd189c8,
    0x181954be69e0da8fe77f2cd57, 0x1226132ae8c2d01484012c790, 0x149605bbae7e4d6c7185a52ed,
    0x1a7c8d00b551684ff4d32d9ae, 0x15ec49e8596fbe4bc422e7641, 0x1e09e38786791233e2e5c97b4,
    0x1c328dac6a2ba80a0b7ff6734, 0x18d8c7cae7d3371621ec4550c, 0x134ae83e6e5f1ff134ddf8663,
    0x17434645b2b250254da0ea6b7, 0x10e942730f0e237fe14cd48a5, 0x11dfcd86892b3a66cd6366d1a,
    0x13f7cf3939b757484aa1b33e3, 0x18eb8a406bc2ee06862f3b1f2, 0x13681519891f473384ae490bc,
    0x1789d72f0d74106b2ca864f11, 0x11507713cd3a935dcd18c8330, 0x12bc91b4505768320176c18b8,
    0x15f0f63af100d0c29d0c495b7, 0x1e16b3446e358870321a22469, 0x1c4aa03ab9020cbabdb1551e5,
    0x1903466ef5a6e598fffcea4c8, 0x138d1e632fa9c984825a0b814, 0x17e404d35f11a8b58bda88a20,
    0x11d61fb49d6e6a1c51922f139, 0x13e234f02cd1c3fabf67c0184, 0x18b5bbd29a8b8fe87e974db95,
    0x1314a1d4f4b07af7280ac105a, 0x16c11af4be5fac00f67481d4b, 0x102e125dc4b0f3c3358ee7a2a, 0x105ca96539a201162d11b3f94
  ]
  const EXPONENT: seq<nat> := [
    0, 0, 0, 0, 0, 0, 0, 0, 0, 0, 0, 0, 0, 1, 2, 4, 9, 18, 37, 75, 151, 302, 605, 1210, 2420, 4840, 9681, 19362,
    38725, 77450, 154900, 309800, 619601, 1239203, 2478407, 4956814, 9913629, 19827258, 39654516, 79309033, 158618066,
    317236133, 634472266
  ]

  /** One squaring of the bounds. */
  predicate Squares(lo: nat, hi: nat, e: nat, lo': nat, hi': nat, e': nat) {
    var unit := if e' == 2 * e then TWO96 else 2 * TWO96;
    2 * e <= e' <= 2 * e + 1 && lo' * unit <= lo * lo && hi * hi <= hi' * unit
  }

  lemma TableSquares(i: nat)
    requires i < 42
    ensures |LOW| == |HIGH| == |EXPONENT| == 43
    ensures Squares(LOW[i], HIGH[i], EXPONENT[i], LOW[i + 1], HIGH[i + 1], EXPONENT[i + 1])
  {
    hide Squares;
    if i < 21 { SquaresTo21(i); } else { SquaresTo42(i); }
  }

  lemma SquaresTo21(i: nat)
    requires i < 21
    ensures Squares(LOW[i], HIGH[i], EXPONENT[i], LOW[i + 1], HIGH[i + 1], EXPONENT[i + 1])
  {
    hide Squares;
    if i < 3 { Squares0(i); } else if i < 6 { Squares3(i); } else if i < 9 { Squares6(i); }
        else if i < 12 { Squares9(i); }
    else if i < 15 { Squares12(i); } else if i < 18 { Squares15(i); } else { Squares18(i); }
  }

  lemma SquaresTo42(i: nat)
    requires 21 <= i < 42
    ensures Squares(LOW[i], HIGH[i], EXPONENT[i], LOW[i + 1], HIGH[i + 1], EXPONENT[i + 1])
  {
    hide Squares;
    if i < 24 { Squares21(i); } else if i < 27 { Squares24(i); } else if i < 30 { Squares27(i); }
        else if i < 33 { Squares30(i); }
    else if i < 36 { Squares33(i); } else if i < 39 { Squares36(i); } else { Squares39(i); }
  }

  lemma Squares0(i: nat)
    requires 0 <= i < 3
    ensures Squares(LOW[i], HIGH[i], EXPONENT[i], LOW[i + 1], HIGH[i + 1], EXPONENT[i + 1])
  {
    assert i == 0 || i == 1 || i == 2;
  }

  lemma Squares3(i: nat)
    requires 3 <= i < 6
    ensures Squares(LOW[i], HIGH[i], EXPONENT[i], LOW[i + 1], HIGH[i + 1], EXPONENT[i + 1])
  {
    assert i == 3 || i == 4 || i == 5;
  }

  lemma Squares6(i: nat)
    requires 6 <= i < 9
    ensures Squares(LOW[i], HIGH[i], EXPONENT[i], LOW[i + 1], HIGH[i + 1], EXPONENT[i + 1])
  {
    assert i == 6 || i == 7 || i == 8;
  }

  lemma Squares9(i: nat)
    requires 9 <= i < 12
    ensures Squares(LOW[i], HIGH[i], EXPONENT[i], LOW[i + 1], HIGH[i + 1], EXPONENT[i + 1])
  {
    assert i == 9 || i == 10 || i == 11;
  }

  lemma Squares12(i: nat)
    requires 12 <= i < 15
    ensures Squares(LOW[i], HIGH[i], EXPONENT[i], LOW[i + 1], HIGH[i + 1], EXPONENT[i + 1])
  {
    assert i == 12 || i == 13 || i == 14;
  }

  lemma Squares15(i: nat)
    requires 15 <= i < 18
    ensures Squares(LOW[i], HIGH[i], EXPONENT[i], LOW[i + 1], HIGH[i + 1], EXPONENT[i + 1])
  {
    assert i == 15 || i == 16 || i == 17;
  }

  lemma Squares18(i: nat)
    requires 18 <= i < 21
    ensures Squares(LOW[i], HIGH[i], EXPONENT[i], LOW[i + 1], HIGH[i + 1], EXPONENT[i + 1])
  {
    assert i == 18 || i == 19 || i == 20;
  }

  lemma Squares21(i: nat)
    requires 21 <= i < 24
    ensures Squares(LOW[i], HIGH[i], EXPONENT[i], LOW[i + 1], HIGH[i + 1], EXPONENT[i + 1])
  {
    assert i == 21 || i == 22 || i == 23;
  }

  lemma Squares24(i: nat)
    requires 24 <= i < 27
    ensures Squares(LOW[i], HIGH[i], EXPONENT[i], LOW[i + 1], HIGH[i + 1], EXPONENT[i + 1])
  {
    assert i == 24 || i == 25 || i == 26;
  }

  lemma Squares27(i: nat)
    requires 27 <= i < 30
    ensures Squares(LOW[i], HIGH[i], EXPONENT[i], LOW[i + 1], HIGH[i + 1], EXPONENT[i + 1])
  {
    assert i == 27 || i == 28 || i == 29;
  }

  lemma Squares30(i: nat)
    requires 30 <= i < 33
    ensures Squares(LOW[i], HIGH[i], EXPONENT[i], LOW[i + 1], HIGH[i + 1], EXPONENT[i + 1])
  {
    assert i == 30 || i == 31 || i == 32;
  }

  lemma Squares33(i: nat)
    requires 33 <= i < 36
    ensures Squares(LOW[i], HIGH[i], EXPONENT[i], LOW[i + 1], HIGH[i + 1], EXPONENT[i + 1])
  {
    assert i == 33 || i == 34 || i == 35;
  }

  lemma Squares36(i: nat)
    requires 36 <= i < 39
    ensures Squares(LOW[i], HIGH[i], EXPONENT[i], LOW[i + 1], HIGH[i + 1], EXPONENT[i + 1])
  {
    assert i == 36 || i == 37 || i == 38;
  }

  lemma Squares39(i: nat)
    requires 39 <= i < 42
    ensures Squares(LOW[i], HIGH[i], EXPONENT[i], LOW[i + 1], HIGH[i + 1], EXPONENT[i + 1])
  {
    assert i == 39 || i == 40 || i == 41;
  }

  // ---- The bounds hold ----

  function Scale(): (c: real)
    ensures c > 0.0
  {
    TWO96 as real
  }

  predicate Bounds(x: real, lo: nat, hi: nat, e: nat) {
    lo as real * Pow(2.0, e) <= x * Scale() <= hi as real * Pow(2.0, e)
  }

  lemma SquareLow(x: real, l: real, p: real, l': real, c: real, unit: real, q: real)
    requires 0.0 < c && 0.0 <= l && 0.0 <= p && 0.0 <= unit && l * p <= x * c && l' * (c * unit) <= l * l
    requires q == (p * p) * unit
    ensures l' * q <= (x * x) * c
  {
    var u, v := l * p, x * c;
    ScaleLe(0.0, l, p);
    ScaleLe2(u, v, u, v);
    ScaleLe(l' * (c * unit), l * l, p * p);
    ScaleLe2(0.0, p, 0.0, p);
    SquareParts(l, p);
    SquareParts(x, c);
    Regroup(l', c, unit, p * p);
    Assoc(x * x, c, c);
    CancelLe(l' * ((p * p) * unit), (x * x) * c, c);
  }

  lemma SquareHigh(x: real, h: real, p: real, h': real, c: real, unit: real, q: real)
    requires 0.0 < c && 0.0 <= x && 0.0 <= p && x * c <= h * p && h * h <= h' * (c * unit)
    requires q == (p * p) * unit
    ensures (x * x) * c <= h' * q
  {
    ScaleLe(0.0, x, c);
    ScaleLe2(x * c, h * p, x * c, h * p);
    SquareParts(h, p);
    SquareParts(x, c);
    SquareHighBound((x * x) * (c * c), h * h, p * p, h' * (c * unit), p);
    Regroup(h', c, unit, p * p);
    Assoc(x * x, c, c);
    CancelLe((x * x) * c, h' * ((p * p) * unit), c);
  }

  lemma SquareHighBound(left: real, hh: real, pp: real, bound: real, p: real)
    requires 0.0 <= p && pp == p * p && left <= hh * pp && hh <= bound
    ensures left <= bound * pp
  {
    ScaleLe2(0.0, p, 0.0, p);
    ScaleLe(hh, bound, pp);
  }

  lemma SquareParts(x: real, y: real)
    ensures (x * y) * (x * y) == (x * x) * (y * y)
  {
    Assoc(x, y, x * y);
    Assoc(x, x * y, y);
    Assoc(x, x, y);
    Assoc(x * x, y, y);
  }

  lemma Regroup(l: real, c: real, unit: real, q: real)
    ensures (l * (c * unit)) * q == (l * (q * unit)) * c
  {
    Assoc(l, c * unit, q);
    Assoc(c, unit, q);
    Assoc(l, q * unit, c);
  }

  predicate Within(x: real, c: real, lo: real, hi: real, p: real) { lo * p <= x * c <= hi * p }

  predicate Doubled(q: real, p: real, unit: real) { q == (p * p) * unit }

  predicate Stepped(lo: real, hi: real, lo': real, hi': real, c: real, unit: real) {
    lo' * (c * unit) <= lo * lo && hi * hi <= hi' * (c * unit)
  }

  predicate Squared(y: real, x: real) { y == x * x }

  lemma SquareBounds(x: real, y: real, lo: nat, hi: nat, e: nat, lo': nat, hi': nat, e': nat)
    requires 0.0 <= x && Squared(y, x) && Bounds(x, lo, hi, e) && Squares(lo, hi, e, lo', hi', e')
    ensures Bounds(y, lo', hi', e')
  {
    var unit := if e' == 2 * e then 1.0 else 2.0;
    PowPositive(2.0, e);
    SquareBoundsWith(x, y, lo, hi, e, lo', hi', e', unit);
  }

  lemma SquareBoundsWith(x: real, y: real, lo: nat, hi: nat, e: nat, lo': nat, hi': nat, e': nat, unit: real)
    requires 0.0 <= x && Squared(y, x) && Bounds(x, lo, hi, e) && Squares(lo, hi, e, lo', hi', e') && Pow(2.0, e) > 0.0
    requires unit == if e' == 2 * e then 1.0 else 2.0
    ensures Bounds(y, lo', hi', e')
  {
    hide Pow, Scale, Bounds, Squares, Squared, Within, Doubled, Stepped;
    var c, p, q := Scale(), Pow(2.0, e), Pow(2.0, e');
    SquaresReal(lo, hi, e, lo', hi', e', c, unit);
    TwiceExponent(e, e', unit);
    BoundsAre(x, lo, hi, e, c, p);
    SquareBoth(x, y, lo as real, hi as real, p, lo' as real, hi' as real, q, c, unit);
    BoundsAre(y, lo', hi', e', c, q);
  }

  lemma BoundsAre(x: real, lo: nat, hi: nat, e: nat, c: real, p: real)
    requires c == Scale() && p == Pow(2.0, e)
    ensures Bounds(x, lo, hi, e) <==> Within(x, c, lo as real, hi as real, p)
  {}

  lemma SquareBoth(x: real, y: real, lo: real, hi: real, p: real, lo': real, hi': real, q: real, c: real, unit: real)
    requires 0.0 < c && 0.0 <= x && 0.0 <= p && 0.0 <= unit && 0.0 <= lo
    requires Squared(y, x) && Within(x, c, lo, hi, p) && Doubled(q, p, unit) && Stepped(lo, hi, lo', hi', c, unit)
    ensures Within(y, c, lo', hi', q)
  {
    SquareLow(x, lo, p, lo', c, unit, q);
    SquareHigh(x, hi, p, hi', c, unit, q);
  }

  lemma SquaresReal(lo: nat, hi: nat, e: nat, lo': nat, hi': nat, e': nat, c: real, unit: real)
    requires Squares(lo, hi, e, lo', hi', e') && c == Scale() && unit == if e' == 2 * e then 1.0 else 2.0
    ensures 2 * e <= e' <= 2 * e + 1
    ensures Stepped(lo as real, hi as real, lo' as real, hi' as real, c, unit)
  {
    StepCast(lo', lo, if e' == 2 * e then 1 else 2, c, unit);
    StepCast(hi', hi, if e' == 2 * e then 1 else 2, c, unit);
  }

  /** Both sides of one squaring, as reals. */
  lemma StepCast(l': nat, l: nat, n: nat, c: real, unit: real)
    requires c == TWO96 as real && unit == n as real
    ensures (l' * (n * TWO96)) as real == l' as real * (c * unit)
    ensures (l * l) as real == l as real * l as real
  {
    var m := n * TWO96;
    assert m as real == c * unit;
    CastProduct(l', m);
    CastProduct(l, l);
  }

  lemma CastProduct(a: int, b: int)
    ensures (a * b) as real == a as real * b as real
  {}

  lemma TwiceExponent(e: nat, e': nat, unit: real)
    requires 2 * e <= e' <= 2 * e + 1 && unit == if e' == 2 * e then 1.0 else 2.0
    ensures Doubled(Pow(2.0, e'), Pow(2.0, e), unit)
  {
    hide Pow;
    PowAdd(2.0, e, e);
    if e' == 2 * e + 1 {
      PowAdd(2.0, 2 * e, 1);
      PowAtOne(2.0);
    }
  }

  lemma {:induction false} TwoIsTwo(k: nat)
    ensures Pow2(k) as real == Pow(2.0, k)
  {
    if k > 0 { TwoIsTwo(k - 1); }
  }

  lemma PowAtOne(x: real)
    ensures Pow(x, 1) == x
  {
    assert Pow(x, 1) == x * Pow(x, 0);
  }

  lemma DoubleBounds(i: nat, lo: nat, hi: nat, e: nat, lo': nat, hi': nat, e': nat)
    requires Bounds(Pow(BASE, Pow2(i)), lo, hi, e) && Squares(lo, hi, e, lo', hi', e')
    ensures Bounds(Pow(BASE, Pow2(i + 1)), lo', hi', e')
  {
    hide Pow, Bounds, Squares;
    var n := Pow2(i);
    assert Pow2(i + 1) == n + n;
    hide Pow2;
    PowAdd(BASE, n, n);
    PowPositive(BASE, n);
    SquareBounds(Pow(BASE, n), Pow(BASE, n + n), lo, hi, e, lo', hi', e');
  }

  ghost predicate TableBounds(i: nat) {
    i < |LOW| && i < |HIGH| && i < |EXPONENT| && Bounds(Pow(BASE, Pow2(i)), LOW[i], HIGH[i], EXPONENT[i])
  }

  lemma FirstBounds(i: nat)
    requires i == 0
    ensures TableBounds(i)
  {
    assert |LOW| == 43 && |HIGH| == 43 && |EXPONENT| == 43;
    PowAtOne(BASE);
    assert Pow2(i) == 1 && EXPONENT[i] == 0;
    assert Pow(2.0, EXPONENT[i]) == 1.0 && Pow(BASE, Pow2(i)) == BASE;
    assert LOW[i] == LOW[0] && HIGH[i] == HIGH[0];
    assert LOW[0] as real <= BASE * TWO96 as real;
    assert BASE * TWO96 as real <= HIGH[0] as real;
    assert Bounds(Pow(BASE, Pow2(i)), LOW[i], HIGH[i], EXPONENT[i]);
  }

  lemma NextBounds(i: nat)
    requires i < 42 && TableBounds(i)
    ensures TableBounds(i + 1)
  {
    hide Pow, Pow2, Bounds, Squares;
    TableSquares(i);
    DoubleBounds(i, LOW[i], HIGH[i], EXPONENT[i], LOW[i + 1], HIGH[i + 1], EXPONENT[i + 1]);
  }

  lemma {:induction false} BaseBounds(i: nat)
    requires i <= 42
    ensures TableBounds(i)
  {
    hide TableBounds;
    if i == 0 {
      FirstBounds(i);
    } else {
      BaseBounds(i - 1);
      NextBounds(i - 1);
    }
  }

  // ---- Comparing powers of the base with powers of two ----

  /** floor(2^42 * log2(1.0001)). */
  const LOG: int := 634472266

  /** The slack allowed for rounding, 2^-24. */
  const SLACK: real := 1.0 / 16777216.0

  predicate AtTop(x: real) { Pow(2.0, LOG) <= x <= Pow(2.0, LOG + 1) }

  /** 2^LOG <= 1.0001^(2^42) <= 2^(LOG + 1). */
  lemma BaseAtTop(k: nat)
    requires k == 42
    ensures AtTop(Pow(BASE, Pow2(k)))
  {
    BaseBounds(k);
    assert EXPONENT[k] == LOG && TWO96 <= LOW[k] && HIGH[k] <= 2 * TWO96;
    TopBounds(Pow(BASE, Pow2(k)), LOW[k], HIGH[k], EXPONENT[k], LOG);
  }

  lemma TopBounds(x: real, lo: nat, hi: nat, e: nat, log: nat)
    requires Bounds(x, lo, hi, e) && e == log && TWO96 <= lo && hi <= 2 * TWO96
    ensures Pow(2.0, log) <= x <= Pow(2.0, log + 1)
  {
    var p, c := Pow(2.0, e), TWO96 as real;
    assert Pow(2.0, log + 1) == 2.0 * p;
    PowPositive(2.0, e);
    hide Pow;
    ScaleLe(c, lo as real, p);
    CancelLe(p, x, c);
    CancelTop(x, p, c, hi as real, 2.0);
  }

  lemma CancelTop(x: real, p: real, c: real, hi: real, t: real)
    requires 0.0 < c && 0.0 <= p && x * c <= hi * p && hi <= t * c
    ensures x <= t * p
  {
    ScaleLe(hi, t * c, p);
    Assoc(t, c, p);
    CancelLe(x, t * p, c);
  }

  lemma Pow2At42(k: nat)
    requires k == 42
    ensures Pow2(k) == 0x400_0000_0000
  {
    hide Pow2;
    Pow2Small();
    Pow2Add(10, 10);
    Pow2Add(20, 20);
    Pow2Add(40, 2);
  }

  lemma SlackDoubles(m: nat)
    requires m == 8388608
    ensures 0.0 <= Pow(1.0 + SLACK, m) <= 2.0
  {
    hide Pow;
    PowNearOne(SLACK, m);
  }

  /** Products are compared factor by factor. */
  lemma ProductLe(a: real, b: real, c: real, d: real)
    requires 0.0 <= a <= c && 0.0 <= b <= d
    ensures 0.0 <= a * b <= c * d
  {
    ScaleLe2(a, c, b, d);
  }

  /** A product of powers of two is the power of the sum. */
  lemma TwoPowers(a: nat, b: nat)
    ensures Pow(2.0, a) * Pow(2.0, b) == Pow(2.0, a + b)
  {
    PowAdd(2.0, a, b);
  }

  /** 1.0001^b raised to n = 2^42 lies between 2^(LOG * b) and 2^((LOG + 1) * b). */
  lemma RaiseBase(b: nat, n: nat, k: nat)
    requires k == 42 && n == Pow2(k)
    ensures 0 <= LOG * b && 0 <= (LOG + 1) * b
    ensures Pow(2.0, LOG * b) <= Pow(Pow(BASE, b), n) <= Pow(2.0, (LOG + 1) * b)
  {
    hide Pow, Pow2;
    BaseAtTop(k);
    PowPow(BASE, b, n);
    PowPow(BASE, n, b);
    assert b * n == n * b;
    PowPow(2.0, LOG, b);
    PowPow(2.0, LOG + 1, b);
    PowPositive(2.0, LOG);
    PowPositive(BASE, n);
    PowMono(Pow(2.0, LOG), Pow(BASE, n), b);
    PowMono(Pow(BASE, n), Pow(2.0, LOG + 1), b);
  }

  lemma RaiseSlack(q: nat, n: nat, m: nat)
    requires n == 0x400_0000_0000 && m == 8388608
    ensures 0.0 <= Pow(Pow(1.0 + SLACK, q), n) <= Pow(2.0, q * 524288)
  {
    hide Pow;
    SlackDoubles(m);
    PowPow(1.0 + SLACK, q, n);
    PowPow(1.0 + SLACK, m, q * 524288);
    assert q * n == m * (q * 524288);
    PowMono(Pow(1.0 + SLACK, m), 2.0, q * 524288);
  }

  predicate Compared(a: nat, b: nat, c: nat, d: nat, q: nat) {
    Pow(2.0, a) * Pow(BASE, b) <= (Pow(2.0, c) * Pow(BASE, d)) * Pow(1.0 + SLACK, q)
  }

  /** An inequality between powers of two and of the base, up to some slack, is one between their
      exponents: everything raised to 2^42 becomes a power of two. */
  lemma CompareExponents(a: nat, b: nat, c: nat, d: nat, q: nat)
    requires Compared(a, b, c, d, q)
    ensures a * 0x400_0000_0000 + LOG * b <= c * 0x400_0000_0000 + (LOG + 1) * d + q * 524288
  {
    CompareWith(a, b, c, d, q, 0x400_0000_0000, 42, 8388608) by { Pow2At42(42); }
  }

  lemma CompareWith(a: nat, b: nat, c: nat, d: nat, q: nat, n: nat, k: nat, m: nat)
    requires Compared(a, b, c, d, q) && k == 42 && n == Pow2(k) == 0x400_0000_0000 && m == 8388608
    ensures a * n + LOG * b <= c * n + (LOG + 1) * d + q * 524288
  {
    var left, middle := Pow(2.0, a) * Pow(BASE, b), Pow(2.0, c) * Pow(BASE, d);
    var right := middle * Pow(1.0 + SLACK, q);
    hide Pow, Pow2;
    RaiseLeft(a, b, n, k, left);
    RaiseRight(c, d, q, n, k, m, middle, right);
    PowMono(left, right, n);
    PowTwoOrder(a * n + LOG * b, c * n + (LOG + 1) * d + q * 524288);
  }

  /** The power of a product, for the product under a name of its own. */
  lemma PowOfProduct(x: real, y: real, z: real, n: nat)
    requires z == x * y
    ensures Pow(z, n) == Pow(x, n) * Pow(y, n)
  {
    PowMul(x, y, n);
  }

  lemma RaiseLeft(a: nat, b: nat, n: nat, k: nat, left: real)
    requires k == 42 && n == Pow2(k) && left == Pow(2.0, a) * Pow(BASE, b)
    ensures 0 <= a * n && 0 <= LOG * b && 0.0 <= left
    ensures Pow(2.0, a * n + LOG * b) <= Pow(left, n)
  {
    hide Pow, Pow2;
    RaiseBase(b, n, k);
    PowOfProduct(Pow(2.0, a), Pow(BASE, b), left, n);
    PowPow(2.0, a, n);
    PowPositive(2.0, a);
    PowPositive(BASE, b);
    ProductLe(0.0, 0.0, Pow(2.0, a), Pow(BASE, b));
    PowPositive(2.0, a * n);
    PowPositive(2.0, LOG * b);
    TwoPowers(a * n, LOG * b);
    LowChain(Pow(2.0, a * n + LOG * b), Pow(left, n), Pow(2.0, a * n), Pow(2.0, LOG * b), Pow(Pow(BASE, b), n));
  }

  lemma LowChain(total: real, whole: real, p: real, l: real, r: real)
    requires total == p * l && whole == p * r && 0.0 <= p && 0.0 <= l <= r
    ensures total <= whole
  {
    ProductLe(p, l, p, r);
  }

  lemma RaiseRight(c: nat, d: nat, q: nat, n: nat, k: nat, m: nat, middle: real, right: real)
    requires k == 42 && n == Pow2(k) == 0x400_0000_0000 && m == 8388608
    requires middle == Pow(2.0, c) * Pow(BASE, d) && right == middle * Pow(1.0 + SLACK, q)
    ensures 0 <= c * n && 0 <= (LOG + 1) * d
    ensures Pow(right, n) <= Pow(2.0, c * n + (LOG + 1) * d + q * 524288)
  {
    hide Pow, Pow2;
    RaiseBase(d, n, k);
    RaiseSlack(q, n, m);
    PowOfProduct(middle, Pow(1.0 + SLACK, q), right, n);
    PowOfProduct(Pow(2.0, c), Pow(BASE, d), middle, n);
    PowPow(2.0, c, n);
    PowPositive(2.0, c * n);
    PowPositive(2.0, LOG * d);
    TwoPowers(c * n, (LOG + 1) * d);
    TwoPowers(c * n + (LOG + 1) * d, q * 524288);
    HighChain(Pow(right, n), Pow(2.0, c * n), Pow(Pow(BASE, d), n), Pow(Pow(1.0 + SLACK, q), n),
              Pow(2.0, (LOG + 1) * d), Pow(2.0, c * n + (LOG + 1) * d), Pow(2.0, q * 524288),
                  Pow(2.0, c * n + (LOG + 1) * d + q * 524288));
  }

  lemma HighChain(whole: real, p: real, base: real, slack: real, baseTop: real, middle: real, slackTop: real,
      total: real)
    requires whole == (p * base) * slack && middle == p * baseTop && total == middle * slackTop
    requires 0.0 <= p && 0.0 <= base <= baseTop && 0.0 <= slack <= slackTop
    ensures whole <= total
  {
    ProductLe(p, base, p, baseTop);
    ProductLe(p * base, slack, middle, slackTop);
  }
}
