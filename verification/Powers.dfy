/** Real powers with natural exponents. */
module Powers {

  function Pow(x: real, n: nat): real {
    if n == 0 then 1.0 else x * Pow(x, n - 1)
  }

  lemma Assoc(x: real, y: real, z: real)
    ensures (x * y) * z == x * (y * z)
    ensures (x * y) * z == (x * z) * y
  {}

  lemma ScaleLe(x: real, y: real, z: real)
    requires x <= y && 0.0 <= z
    ensures x * z <= y * z && z * x <= z * y
  {}

  lemma ScaleLe2(x: real, y: real, u: real, v: real)
    requires 0.0 <= x <= y && 0.0 <= u <= v
    ensures 0.0 <= x * u <= y * v
  {
    ScaleLe(x, y, u);
    ScaleLe(u, v, y);
  }

  lemma {:induction false} PowPositive(x: real, n: nat)
    requires x > 0.0
    ensures Pow(x, n) > 0.0
  {
    if n > 0 { PowPositive(x, n - 1); }
  }

  lemma {:induction false} PowOne(n: nat)
    ensures Pow(1.0, n) == 1.0
  {
    if n > 0 { PowOne(n - 1); }
  }

  lemma {:induction false} PowAdd(x: real, a: nat, b: nat)
    ensures Pow(x, a + b) == Pow(x, a) * Pow(x, b)
    decreases b
  {
    if b > 0 {
      PowAdd(x, a, b - 1);
      assert Pow(x, a + b) == x * Pow(x, a + (b - 1));
      Assoc(Pow(x, a), x, Pow(x, b - 1));
    }
  }

  lemma {:induction false} PowMul(x: real, y: real, n: nat)
    ensures Pow(x * y, n) == Pow(x, n) * Pow(y, n)
  {
    if n > 0 {
      PowMul(x, y, n - 1);
      var p, q := Pow(x, n - 1), Pow(y, n - 1);
      Assoc(x * y, p, q);
      Assoc(x, y, p);
      Assoc(x * p, y, q);
    }
  }

  lemma {:induction false} PowPow(x: real, a: nat, b: nat)
    ensures a * b >= 0 && Pow(Pow(x, a), b) == Pow(x, a * b)
    decreases b
  {
    if b > 0 {
      PowPow(x, a, b - 1);
      assert a * b == a * (b - 1) + a;
      PowAdd(x, a * (b - 1), a);
    }
  }

  lemma {:induction false} PowMono(x: real, y: real, n: nat)
    requires 0.0 <= x <= y
    ensures 0.0 <= Pow(x, n) <= Pow(y, n)
  {
    if n > 0 {
      PowMono(x, y, n - 1);
      ScaleLe2(x, y, Pow(x, n - 1), Pow(y, n - 1));
    }
  }

  lemma PowAtLeastOne(x: real, n: nat)
    requires x >= 1.0
    ensures Pow(x, n) >= 1.0
  {
    PowOne(n);
    PowMono(1.0, x, n);
  }

  lemma {:induction false} PowGrows(x: real, a: nat, b: nat)
    requires x >= 1.0 && a <= b
    ensures Pow(x, a) <= Pow(x, b)
    decreases b
  {
    if a < b {
      PowGrows(x, a, b - 1);
      PowAtLeastOne(x, b - 1);
      GrowProduct(Pow(x, b - 1), x);
    }
  }

  lemma GrowProduct(p: real, q: real)
    requires 0.0 <= p && 1.0 <= q
    ensures p <= p * q
  {
    ScaleLe(1.0, q, p);
  }

  /** Powers of two are ordered as their exponents. */
  lemma PowTwoOrder(a: nat, b: nat)
    requires Pow(2.0, a) <= Pow(2.0, b)
    ensures a <= b
  {
    if b < a {
      PowGrows(2.0, b + 1, a);
      PowPositive(2.0, b);
    }
  }

  // ---- Near one ----

  lemma {:induction false} Bernoulli(d: real, n: nat)
    requires 0.0 <= d <= 1.0
    ensures Pow(1.0 - d, n) >= 1.0 - n as real * d
  {
    if n > 0 {
      Bernoulli(d, n - 1);
      var m, rest := (n - 1) as real, Pow(1.0 - d, n - 1);
      Shrink(m, d, rest);
    }
  }

  lemma Shrink(m: real, d: real, rest: real)
    requires 0.0 <= m && 0.0 <= d <= 1.0 && rest >= 1.0 - m * d
    ensures (1.0 - d) * rest >= 1.0 - (m + 1.0) * d
  {
    var keep := 1.0 - d;
    ScaleLe(1.0 - m * d, rest, keep);
    ShrinkIdentity(m, d);
    ScaleLe(0.0, m, d);
    ScaleLe(0.0, m * d, d);
    assert keep * rest >= keep * (1.0 - m * d);
    assert (m * d) * d >= 0.0;
  }

  lemma ShrinkIdentity(m: real, d: real)
    ensures (1.0 - d) * (1.0 - m * d) == 1.0 - (m + 1.0) * d + (m * d) * d
  {}

  /** (1 + d)^n stays within 1 + 2nd while nd is at most a half. */
  lemma PowNearOne(d: real, n: nat)
    requires 0.0 <= d <= 1.0 && n as real * d <= 0.5
    ensures 1.0 <= Pow(1.0 + d, n) <= 1.0 + 2.0 * (n as real * d)
  {
    hide Pow;
    var x, y, z := Pow(1.0 + d, n), Pow(1.0 - d, n), n as real * d;
    Bernoulli(d, n);
    Conjugates(d, n);
    PowAtLeastOne(1.0 + d, n);
    ScaleLe(0.0, n as real, d);
    ScaleLe(1.0 - z, y, x);
    assert (1.0 - z) * x == x * (1.0 - z) && y * x == x * y;
    InvertBound(x, z);
  }

  lemma Conjugates(d: real, n: nat)
    requires 0.0 <= d <= 1.0
    ensures Pow(1.0 + d, n) * Pow(1.0 - d, n) <= 1.0
  {
    hide Pow;
    SquaresDiffer(d);
    ProductOfPowers(1.0 + d, 1.0 - d, n);
  }

  lemma ProductOfPowers(x: real, y: real, n: nat)
    requires 0.0 <= x * y <= 1.0
    ensures Pow(x, n) * Pow(y, n) <= 1.0
  {
    hide Pow;
    PowMul(x, y, n);
    PowMono(x * y, 1.0, n);
    PowOne(n);
  }

  lemma SquaresDiffer(d: real)
    requires 0.0 <= d <= 1.0
    ensures 0.0 <= (1.0 + d) * (1.0 - d) <= 1.0
  {
    ScaleLe(0.0, d, d);
    ScaleLe(d, 1.0, d);
    assert 0.0 <= d * d;
    assert d * d <= 1.0 * d;
  }

  lemma ScaleLt(x: real, y: real, z: real)
    requires x < y && 0.0 < z
    ensures x * z < y * z
  {}

  lemma CancelLe(x: real, y: real, z: real)
    requires 0.0 < z && x * z <= y * z
    ensures x <= y
  {
    if y < x { ScaleLt(y, x, z); }
  }

  lemma InvertBound(x: real, z: real)
    requires 0.0 <= z <= 0.5 && x * (1.0 - z) <= 1.0
    ensures x <= 1.0 + 2.0 * z
  {
    InvertIdentity(z);
    CancelLe(x, 1.0 + 2.0 * z, 1.0 - z);
  }

  lemma InvertIdentity(z: real)
    requires 0.0 <= z <= 0.5
    ensures (1.0 + 2.0 * z) * (1.0 - z) >= 1.0
  {
    ScaleLe(z, 0.5, z);
    assert z * z <= 0.5 * z;
    assert (1.0 + 2.0 * z) * (1.0 - z) == 1.0 + z - 2.0 * (z * z);
  }
}
