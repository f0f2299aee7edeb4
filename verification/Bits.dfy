/** Powers of two and the binary digits of natural numbers. */
module Bits {
  import opened Arith

  function Pow2(k: nat): (r: nat)
    ensures r > 0
  {
    if k == 0 then 1 else 2 * Pow2(k - 1)
  }

  lemma {:induction false} Pow2Mono(a: nat, b: nat)
    requires a <= b
    ensures Pow2(a) <= Pow2(b)
    ensures a < b ==> 2 * Pow2(a) <= Pow2(b)
    decreases b
  {
    if a < b { Pow2Mono(a, b - 1); }
  }

  lemma {:induction false} Pow2Add(a: nat, b: nat)
    ensures Pow2(a + b) == Pow2(a) * Pow2(b)
    decreases b
  {
    if b > 0 {
      Pow2Add(a, b - 1);
      assert Pow2(a + b) == 2 * Pow2(a + b - 1);
      Rotate(Pow2(a), 2, Pow2(b - 1));
    }
  }

  lemma Pow2Small()
    ensures Pow2(0) == 1 && Pow2(1) == 2 && Pow2(2) == 4 && Pow2(3) == 8 && Pow2(4) == 16 && Pow2(5) == 32
    ensures Pow2(6) == 64 && Pow2(7) == 128 && Pow2(8) == 256 && Pow2(9) == 512 && Pow2(10) == 1024
    ensures Pow2(11) == 2048 && Pow2(12) == 4096 && Pow2(13) == 8192 && Pow2(14) == 16384 && Pow2(15) == 32768
  {}

  // ---- Most significant bit ----

  function Msb(p: nat): nat
    requires p > 0
  {
    if p == 1 then 0 else 1 + Msb(p / 2)
  }

  lemma {:induction false} MsbBounds(p: nat)
    requires p > 0
    ensures Pow2(Msb(p)) <= p < 2 * Pow2(Msb(p))
  {
    if p > 1 { MsbBounds(p / 2); }
  }

  lemma MsbUnique(p: nat, k: nat)
    requires Pow2(k) <= p < 2 * Pow2(k)
    ensures Msb(p) == k
  {
    MsbBounds(p);
    if Msb(p) < k { Pow2Mono(Msb(p), k); }
    if k < Msb(p) { Pow2Mono(k, Msb(p)); }
  }

  lemma MsbMonotone(p: nat, q: nat)
    requires 0 < p <= q
    ensures Msb(p) <= Msb(q)
  {
    MsbBounds(p);
    MsbBounds(q);
    if Msb(q) < Msb(p) { Pow2Mono(Msb(q), Msb(p)); }
  }

  // ---- Least significant bit ----

  function Lsb(p: nat): nat
    requires p > 0
  {
    if p % 2 == 1 then 0 else 1 + Lsb(p / 2)
  }

  // ---- Digits ----

  /** v >> s. */
  function Shr(v: nat, s: nat): nat {
    hide Pow2;
    FloorIff(v, Pow2(s), 0);
    v / Pow2(s)
  }

  predicate Bit(v: nat, k: nat) { Shr(v, k) % 2 == 1 }

  lemma BitZero(v: nat)
    ensures Bit(v, 0) <==> v % 2 == 1
  {
    assert Pow2(0) == 1;
  }

  /** Digit k + 1 is digit k of the half. */
  lemma BitHalf(v: nat, k: nat)
    ensures Bit(v, k + 1) == Bit(v / 2, k)
  {
    FloorFloor(v, 2, Pow2(k));
  }

  lemma FloorFloor(a: nat, b: nat, c: nat)
    requires b > 0 && c > 0
    ensures b * c > 0 && a / (b * c) == (a / b) / c
  {
    MulLt(0, b, c);
    var x, y := a / (b * c), a / b / c;
    FloorIff(a, b * c, x);
    FloorIff(a, b * c, y);
    FloorFloorIff(a, b, c, x);
    FloorFloorIff(a, b, c, y);
    Rotate(x, b, c);
    Rotate(x, c, b);
    Rotate(y, b, c);
    Rotate(y, c, b);
  }

  /** The most significant bit is set and nothing above it is. */
  lemma {:induction false} MsbIsHighest(p: nat, k: nat)
    requires p > 0 && k >= Msb(p)
    ensures Bit(p, k) <==> k == Msb(p)
  {
    if k == 0 {
      BitZero(p);
    } else {
      BitHalf(p, k - 1);
      if p == 1 { NoBits(k - 1); } else { MsbIsHighest(p / 2, k - 1); }
    }
  }

  lemma NoBits(k: nat)
    ensures !Bit(0, k)
  {
    FloorIff(0, Pow2(k), 1);
  }

  /** The least significant bit is set and nothing below it is. */
  lemma {:induction false} LsbIsLowest(p: nat, k: nat)
    requires p > 0 && k <= Lsb(p)
    ensures Bit(p, k) <==> k == Lsb(p)
    decreases p
  {
    BitZero(p);
    if k > 0 {
      BitHalf(p, k - 1);
      LsbIsLowest(p / 2, k - 1);
    }
  }

  /** Numbers are equal when their digits are. */
  lemma {:induction false} BitsDetermine(v: nat, w: nat)
    requires forall k: nat :: Bit(v, k) == Bit(w, k)
    ensures v == w
    decreases v + w
  {
    if v + w > 0 {
      BitZero(v);
      BitZero(w);
      assert Bit(v, 0) == Bit(w, 0);
      forall k: nat
        ensures Bit(v / 2, k) == Bit(w / 2, k)
      {
        BitHalf(v, k);
        BitHalf(w, k);
        assert Bit(v, k + 1) == Bit(w, k + 1);
      }
      BitsDetermine(v / 2, w / 2);
    }
  }

  /** Taking the low `n` digits. */
  lemma {:induction false} BitMod(v: nat, n: nat, k: nat)
    ensures Bit(v % Pow2(n), k) <==> k < n && Bit(v, k)
  {
    var m := v % Pow2(n);
    if n == 0 {
      assert m == 0;
      NoBits(k);
    } else {
      ModHalf(v, Pow2(n - 1));
      BitZero(v);
      BitZero(m);
      if k > 0 {
        BitHalf(v, k - 1);
        BitHalf(m, k - 1);
        BitMod(v / 2, n - 1, k - 1);
      }
    }
  }

  lemma ModHalf(v: nat, p: nat)
    requires p > 0
    ensures (v % (2 * p)) % 2 == v % 2 && (v % (2 * p)) / 2 == (v / 2) % p
  {
    var h, b := v / 2, v % 2;
    DivBounds(h, p);
    var q, r := h / p, h % p;
    assert v == 2 * (q * p + r) + b;
    assert v == q * (2 * p) + (2 * r + b);
    DivUnique(v, 2 * p, q, 2 * r + b);
  }

  lemma DivUnique(v: nat, d: nat, q: nat, r: nat)
    requires r < d && v == q * d + r
    ensures v / d == q && v % d == r
  {
    FloorIff(v, d, q);
    FloorIff(v, d, q + 1);
    Expand(q, d);
    DivBounds(v, d);
  }

  /** Multiplying by a power of two moves the digits up. */
  lemma BitUp(v: nat, s: nat, k: nat)
    ensures Bit(v * Pow2(s), k) <==> s <= k && Bit(v, k - s)
  {
    if s <= k {
      Pow2Add(s, k - s);
      FloorFloor(v * Pow2(s), Pow2(s), Pow2(k - s));
      DivUnique(v * Pow2(s), Pow2(s), v, 0);
    } else {
      Pow2Add(k, s - k);
      Rotate(v, Pow2(k), Pow2(s - k));
      var w := v * Pow2(s - k);
      MulLe(0, v, Pow2(s - k));
      assert v * Pow2(s) == w * Pow2(k);
      DivUnique(v * Pow2(s), Pow2(k), w, 0);
      assert Pow2(s - k) == 2 * Pow2(s - k - 1);
      Rotate(v, 2, Pow2(s - k - 1));
      MulLe(0, v, Pow2(s - k - 1));
      DivUnique(w, 2, v * Pow2(s - k - 1), 0);
    }
  }

  /** Dividing by a power of two moves them down. */
  lemma BitDown(v: nat, s: nat, k: nat)
    ensures Bit(Shr(v, s), k) == Bit(v, k + s)
  {
    Pow2Add(k, s);
    SwapFactors(v, Pow2(k), Pow2(s));
  }

  lemma SwapFactors(v: nat, p: nat, d: nat)
    requires p > 0 && d > 0
    ensures p * d > 0 && v / (p * d) == v / d / p
  {
    FloorFloor(v, d, p);
    assert p * d == d * p;
  }

  // ---- Digit-wise operations ----

  function And(v: nat, w: nat): nat {
    if v == 0 || w == 0 then 0 else 2 * And(v / 2, w / 2) + (if v % 2 == 1 && w % 2 == 1 then 1 else 0)
  }

  function Xor(v: nat, w: nat): nat
    decreases v + w
  {
    if v + w == 0 then 0 else 2 * Xor(v / 2, w / 2) + (v + w) % 2
  }

  lemma Halves(x: nat, b: nat)
    requires b < 2
    ensures (2 * x + b) / 2 == x && (2 * x + b) % 2 == b
  {}

  lemma AndHalves(v: nat, w: nat)
    ensures And(v, w) / 2 == And(v / 2, w / 2)
    ensures And(v, w) % 2 == 1 <==> v % 2 == 1 && w % 2 == 1
  {
    if v > 0 && w > 0 { Halves(And(v / 2, w / 2), if v % 2 == 1 && w % 2 == 1 then 1 else 0); }
  }

  lemma XorHalves(v: nat, w: nat)
    ensures Xor(v, w) / 2 == Xor(v / 2, w / 2)
    ensures Xor(v, w) % 2 == 1 <==> (v % 2 == 1) != (w % 2 == 1)
  {
    Parity(v, w);
    if v + w > 0 { Halves(Xor(v / 2, w / 2), (v + w) % 2); }
  }

  lemma Parity(v: nat, w: nat)
    ensures (v + w) % 2 == 1 <==> (v % 2 == 1) != (w % 2 == 1)
  {}

  lemma {:induction false} AndBit(v: nat, w: nat, k: nat)
    ensures Bit(And(v, w), k) <==> Bit(v, k) && Bit(w, k)
    decreases k
  {
    hide Bit, And;
    AndHalves(v, w);
    BitZero(v);
    BitZero(w);
    BitZero(And(v, w));
    if k > 0 {
      BitHalf(v, k - 1);
      BitHalf(w, k - 1);
      BitHalf(And(v, w), k - 1);
      AndBit(v / 2, w / 2, k - 1);
    }
  }

  lemma {:induction false} XorBit(v: nat, w: nat, k: nat)
    ensures Bit(Xor(v, w), k) <==> Bit(v, k) != Bit(w, k)
    decreases k
  {
    hide Bit, Xor;
    XorHalves(v, w);
    BitZero(v);
    BitZero(w);
    BitZero(Xor(v, w));
    if k > 0 {
      BitHalf(v, k - 1);
      BitHalf(w, k - 1);
      BitHalf(Xor(v, w), k - 1);
      XorBit(v / 2, w / 2, k - 1);
    }
  }
}
