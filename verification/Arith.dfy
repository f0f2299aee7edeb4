/** Rounding division on natural numbers.

    Both roundings are used through their Galois connections: a floor is bounded below
    by `k` exactly when the dividend is, and a ceiling is bounded above by `k` exactly
    when the dividend is. Nested roundings collapse by chaining the connections. */
module Arith {

  /** ceil(a / d), in the form `mul_div_ceil` computes it. */
  function CeilDiv(a: nat, d: nat): (r: nat)
    requires d > 0
    ensures (r - 1) * d < a <= r * d
  {
    var r := (a + d - 1) / d;
    DivBounds(a + d - 1, d);
    Expand(r, d);
    r
  }

  lemma Expand(r: int, d: int)
    ensures (r + 1) * d == r * d + d
    ensures (r - 1) * d == r * d - d
  {}

  lemma DivBounds(a: nat, d: nat)
    requires d > 0
    ensures (a / d) * d <= a < (a / d) * d + d
    ensures a % d == a - (a / d) * d
  {
    assert a == d * (a / d) + a % d;
  }

  lemma MulLe(x: int, y: int, z: int)
    requires x <= y && 0 <= z
    ensures x * z <= y * z
    ensures z * x <= z * y
  {}

  lemma MulLt(x: int, y: int, z: int)
    requires x < y && 0 < z
    ensures x * z < y * z
  {}

  lemma Distribute(x: int, y: int, z: int)
    ensures x * (y + z) == x * y + x * z
    ensures x * (y - z) == x * y - x * z
    ensures (y + z) * x == x * y + x * z
    ensures (y - z) * x == x * y - x * z
  {}

  lemma Rotate(x: int, y: int, z: int)
    ensures x * y * z == x * (y * z)
    ensures x * y * z == y * x * z
    ensures x * y * z == x * z * y
  {}

  lemma MulCancelLe(x: int, y: int, z: int)
    requires x * z <= y * z && 0 < z
    ensures x <= y
  {
    if y < x { MulLt(y, x, z); }
  }

  lemma MulCancelLt(x: int, y: int, z: int)
    requires x * z < y * z && 0 <= z
    ensures x < y
  {
    if y <= x { MulLe(y, x, z); }
  }

  /** The floor connection. */
  lemma FloorIff(a: nat, d: nat, k: int)
    requires d > 0
    ensures k <= a / d <==> k * d <= a
  {
    DivBounds(a, d);
    if k <= a / d {
      MulLe(k, a / d, d);
    } else {
      MulLe(a / d + 1, k, d);
      Expand(a / d, d);
    }
  }

  /** The ceiling connection. */
  lemma CeilIff(a: nat, d: nat, k: int)
    requires d > 0
    ensures CeilDiv(a, d) <= k <==> a <= k * d
  {
    var r := CeilDiv(a, d);
    if r <= k {
      MulLe(r, k, d);
    } else {
      MulLe(k, r - 1, d);
    }
  }

  lemma FloorFloorIff(a: nat, b: nat, c: nat, k: int)
    requires b > 0 && c > 0
    ensures k <= (a / b) / c <==> k * c * b <= a
  {
    FloorIff(a / b, c, k);
    FloorIff(a, b, k * c);
  }

  lemma CeilCeilIff(a: nat, b: nat, c: nat, k: int)
    requires b > 0 && c > 0
    ensures CeilDiv(CeilDiv(a, b), c) <= k <==> a <= k * c * b
  {
    CeilIff(CeilDiv(a, b), c, k);
    CeilIff(a, b, k * c);
  }

  /** `div_rounding_up`: quotient plus one when there is a remainder. */
  lemma DivRoundingUp(x: nat, y: nat)
    requires y > 0
    ensures x / y + (if x % y > 0 then 1 else 0) == CeilDiv(x, y)
  {
    DivBounds(x, y);
    var r := x / y + (if x % y > 0 then 1 else 0);
    CeilIff(x, y, r);
    CeilIff(x, y, r - 1);
    Expand(x / y, y);
    Expand(r, y);
  }

  lemma FloorMono(a: nat, b: nat, d: nat)
    requires d > 0 && a <= b
    ensures a / d <= b / d
  {
    FloorIff(a, d, a / d);
    FloorIff(b, d, a / d);
  }

  lemma FloorLeCeil(a: nat, d: nat)
    requires d > 0
    ensures a / d <= CeilDiv(a, d) <= a / d + 1
  {
    DivRoundingUp(a, d);
  }

  /** Splitting an amount before a floor never gains. */
  lemma FloorSuperadditive(a: nat, b: nat, d: nat)
    requires d > 0
    ensures a / d + b / d <= (a + b) / d
  {
    DivBounds(a, d);
    DivBounds(b, d);
    var k := a / d + b / d;
    assert k * d == (a / d) * d + (b / d) * d;
    FloorIff(a + b, d, k);
  }

  /** For a conserved dividend, the ceiling share and the floor share add up. */
  lemma CeilFloorComplement(n: nat, f: nat, d: nat)
    requires d > 0 && f <= d
    ensures n * f >= 0 && n * (d - f) >= 0
    ensures n - CeilDiv(n * f, d) == n * (d - f) / d
  {
    MulLe(0, n, f);
    MulLe(0, n, d - f);
    var c := CeilDiv(n * f, d);
    var g := n * (d - f) / d;
    assert n * (d - f) == n * d - n * f;
    MulLe(f, d, n);
    CeilIff(n * f, d, n);
    DivBounds(n * (d - f), d);
    // g is the largest with g*d <= n*d - n*f; n - g the least with n*f <= (n-g)*d
    assert (n - g) * d == n * d - g * d;
    CeilIff(n * f, d, n - g);
    assert (n - c) * d == n * d - c * d;
    FloorIff(n * (d - f), d, n - c);
  }
}
