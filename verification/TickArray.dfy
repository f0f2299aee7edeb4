/** Where ticks sit in tick arrays: `tick_array.rs` arithmetic on 32-bit signed indices. */
module TickArray {
  import opened Types
  import opened Arith
  import opened TickMath

  const TICK_ARRAY_SIZE: int := 60

  /** The source's integer division and remainder, which truncate toward zero. */
  function Quot(a: int, b: int): int
    requires b > 0
  {
    if a >= 0 then a / b else -(-a / b)
  }

  function Rem(a: int, b: int): int
    requires b > 0
  {
    if a >= 0 then a % b else -(-a % b)
  }

  function TickCount(spacing: nat): nat { TICK_ARRAY_SIZE * spacing }

  /** `get_array_start_index`. */
  function ArrayStart(tick: int, spacing: nat): int
    requires spacing > 0
  {
    var n := TickCount(spacing);
    var start := Quot(tick, n);
    (if tick < 0 && Rem(tick, n) != 0 then start - 1 else start) * n
  }

  /** Rounded toward minus infinity, whatever the sign: the array holds the tick. */
  lemma ArrayStartHolds(tick: int, spacing: nat)
    requires spacing > 0
    ensures ArrayStart(tick, spacing) == tick / TickCount(spacing) * TickCount(spacing)
    ensures ArrayStart(tick, spacing) <= tick < ArrayStart(tick, spacing) + TickCount(spacing)
  {
    FloorOf(tick, TickCount(spacing));
  }

  lemma FloorOf(a: int, n: nat)
    requires n > 0
    ensures a / n * n <= a < a / n * n + n
    ensures a / n == if a < 0 && Rem(a, n) != 0 then Quot(a, n) - 1 else Quot(a, n)
  {
    if a < 0 {
      var q, r := -a / n, -a % n;
      assert -a == n * q + r;
      if r == 0 { QuotUnique(a, n, -q, 0); } else { QuotUnique(a, n, -q - 1, n - r); }
    } else {
      DivBounds(a, n);
    }
  }

  lemma QuotUnique(a: int, n: nat, q: int, r: nat)
    requires r < n && a == n * q + r
    ensures a / n == q && a / n * n == a - r
  {
    var x := a / n;
    assert a == n * x + a % n;
    if x < q { MulLe(x + 1, q, n); Expand(x, n); }
    if q < x { MulLe(q + 1, x, n); Expand(q, n); }
  }

  /** A multiple of the array width is the start of its own array, and of no other. */
  lemma StartOfMultiple(k: int, spacing: nat, tick: int)
    requires spacing > 0
    requires k * TickCount(spacing) <= tick < k * TickCount(spacing) + TickCount(spacing)
    ensures ArrayStart(tick, spacing) == k * TickCount(spacing) && tick / TickCount(spacing) == k
  {
    ArrayStartHolds(tick, spacing);
    QuotUnique(tick, TickCount(spacing), k, tick - k * TickCount(spacing));
  }

  predicate OutOfBoundary(tick: int) { tick < MIN_TICK || tick > MAX_TICK }

  /** `check_is_valid_start_index`. */
  predicate IsValidStart(start: int, spacing: nat)
    requires spacing > 0
  {
    if OutOfBoundary(start) then start <= MAX_TICK && start == ArrayStart(MIN_TICK, spacing)
    else Rem(start, TickCount(spacing)) == 0
  }

  /** Valid start indices are exactly the starts of the arrays that hold a tick in range. */
  lemma ValidStartsHoldTicks(start: int, spacing: nat)
    requires spacing > 0
    ensures IsValidStart(start, spacing)
            <==> exists t :: MIN_TICK <= t <= MAX_TICK && ArrayStart(t, spacing) == start
  {
    var n := TickCount(spacing);
    hide ArrayStart;
    ArrayStartHolds(MIN_TICK, spacing);
    if IsValidStart(start, spacing) {
      if OutOfBoundary(start) {
        assert ArrayStart(MIN_TICK, spacing) == start;
      } else {
        RemZero(start, n);
        StartOfMultiple(start / n, spacing, start);
        assert ArrayStart(start, spacing) == start;
      }
    }
    if t :| MIN_TICK <= t <= MAX_TICK && ArrayStart(t, spacing) == start {
      ArrayStartHolds(t, spacing);
      RemZero(start, n);
      StartOfMultiple(t / n, spacing, start);
      if start < MIN_TICK { StartOfMultiple(t / n, spacing, MIN_TICK); }
    }
  }

  lemma RemZero(a: int, n: nat)
    requires n > 0
    ensures Rem(a, n) == 0 <==> a / n * n == a
    ensures Rem(a, n) == 0 ==> Quot(a, n) == a / n
    ensures (exists k :: a == k * n) ==> Rem(a, n) == 0
  {
    hide Quot, Rem;
    QuotRem(a, n, Quot(a, n), Rem(a, n));
    if Rem(a, n) == 0 { QuotUnique(a, n, Quot(a, n), 0); }
    if k :| a == k * n { RemOfMultiple(a, n, k); }
  }

  /** Truncating division: the remainder has the dividend's sign. */
  lemma QuotRem(a: int, n: nat, q: int, r: int)
    requires n > 0 && q == Quot(a, n) && r == Rem(a, n)
    ensures a == n * q + r && 0 - (n as int) < r < n
  {
    if a < 0 {
      var x := -a / n;
      DivBounds(-a, n);
      MulNeg(x, n);
    } else {
      DivBounds(a, n);
    }
  }

  lemma RemOfMultiple(a: int, n: nat, k: int)
    requires n > 0 && a == k * n
    ensures Rem(a, n) == 0
  {
    var q, r := Quot(a, n), Rem(a, n);
    hide Quot, Rem;
    QuotRem(a, n, q, r);
    Distribute(n, k, q);
    if k > q {
      MulLe(1, k - q, n);
      assert false;
    }
    if k < q {
      MulLe(1, q - k, n);
      Distribute(n, q, k);
      assert false;
    }
  }

  lemma MulNeg(x: int, y: int)
    ensures -x * y == -(x * y)
  {}
}
