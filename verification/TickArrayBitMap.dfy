/** The 1024-bit index of tick arrays: digit k stands for the array that starts at
    (k - 512) arrays from zero. The searches refine a linear scan of the digits. */
module TickArrayBitMap {
  import opened Types
  import opened Arith
  import opened Bits
  import opened BigNum
  import opened TickMath
  import opened TickArray

  const TICK_ARRAY_BITMAP_SIZE: int := 512

  function MaxTickInBitmap(spacing: nat): int { TickCount(spacing) * TICK_ARRAY_BITMAP_SIZE }

  /** The start index of array `k`. */
  function StartOf(k: int, spacing: nat): int { (k - 512) * TickCount(spacing) }

  // ---- The specification: scanning digit by digit ----

  function ScanDown(v: nat, pos: int): (r: Option<nat>)
    decreases pos + 1
  {
    if pos < 0 then None else if Bit(v, pos) then Some(pos) else ScanDown(v, pos - 1)
  }

  function ScanUp(v: nat, pos: nat): (r: Option<nat>)
    decreases 1024 - pos
  {
    if pos >= 1024 then None else if Bit(v, pos) then Some(pos) else ScanUp(v, pos + 1)
  }

  lemma {:induction false} ScanDownIs(v: nat, pos: int, r: Option<nat>)
    requires match r
             case Some(j) => j <= pos && Bit(v, j) && forall i: nat :: j < i <= pos ==> !Bit(v, i)
             case None => forall i: nat :: i <= pos ==> !Bit(v, i)
    ensures ScanDown(v, pos) == r
    decreases pos + 1
  {
    hide Bit;
    if pos >= 0 && !Bit(v, pos) { ScanDownIs(v, pos - 1, r); }
  }

  lemma {:induction false} ScanUpIs(v: nat, pos: nat, r: Option<nat>)
    requires match r
             case Some(j) => pos <= j < 1024 && Bit(v, j) && forall i: nat :: pos <= i < j ==> !Bit(v, i)
             case None => forall i: nat :: pos <= i < 1024 ==> !Bit(v, i)
    ensures ScanUp(v, pos) == r
    decreases 1024 - pos
  {
    hide Bit;
    if pos < 1024 && !Bit(v, pos) { ScanUpIs(v, pos + 1, r); }
  }

  /** The scan finds the nearest set digit, or none if there is none. */
  lemma {:induction false} ScanDownFinds(v: nat, pos: int)
    ensures match ScanDown(v, pos)
            case Some(j) => j <= pos && Bit(v, j) && forall i: nat :: j < i <= pos ==> !Bit(v, i)
            case None => forall i: nat :: i <= pos ==> !Bit(v, i)
    decreases pos + 1
  {
    hide Bit;
    if pos >= 0 && !Bit(v, pos) { ScanDownFinds(v, pos - 1); }
  }

  lemma {:induction false} ScanUpFinds(v: nat, pos: nat)
    ensures match ScanUp(v, pos)
            case Some(j) => pos <= j < 1024 && Bit(v, j) && forall i: nat :: pos <= i < j ==> !Bit(v, i)
            case None => forall i: nat :: pos <= i < 1024 ==> !Bit(v, i)
    decreases 1024 - pos
  {
    hide Bit;
    if pos < 1024 && !Bit(v, pos) { ScanUpFinds(v, pos + 1); }
  }

  /** The neighbour of an array in the search direction. */
  function Neighbour(last: int, spacing: nat, zeroForOne: bool): int {
    if zeroForOne then last - TickCount(spacing) else last + TickCount(spacing)
  }

  predicate NeighbourInRange(last: int, spacing: nat, zeroForOne: bool) {
    -MaxTickInBitmap(spacing) <= Neighbour(last, spacing, zeroForOne) < MaxTickInBitmap(spacing)
  }

  /** `next_initialized_tick_array_start_index`. */
  function NextStart(v: nat, last: int, spacing: nat, zeroForOne: bool): Result<(bool, int)>
    requires spacing > 0
  {
    hide IsValidStart, Bit;
    if !IsValidStart(last, spacing) then Err(InvalidTickArrayBoundary)
    else if !NeighbourInRange(last, spacing, zeroForOne) then Ok((false, last))
    else
      var pos := Neighbour(last, spacing, zeroForOne) / TickCount(spacing) + 512;
      if zeroForOne then
        match ScanDown(v, pos)
        case Some(j) => Ok((true, StartOf(j, spacing)))
        case None => Ok((false, -MaxTickInBitmap(spacing)))
      else
        match ScanUp(v, Max(0, pos))
        case Some(j) => Ok((true, StartOf(j, spacing)))
        case None => Ok((false, MaxTickInBitmap(spacing) - TickCount(spacing)))
  }

  // ---- The searches ----

  lemma DownSearch(v: nat, pos: nat, w: nat)
    requires pos < 1024 && w == v * Pow2(1023 - pos) % Pow2(1024)
    ensures w == 0 ==> ScanDown(v, pos) == None
    ensures w > 0 ==> 1023 - pos <= Msb(w) <= 1023 && ScanDown(v, pos) == Some(Msb(w) - (1023 - pos))
  {
    hide Bit, Pow2, Msb;
    var s := 1023 - pos;
    forall k: nat
      ensures Bit(w, k) <==> s <= k < 1024 && Bit(v, k - s)
    {
      MulLe(0, v, Pow2(s));
      BitMod(v * Pow2(s), 1024, k);
      BitUp(v, s, k);
    }
    if w == 0 {
      forall j: nat | j <= pos
        ensures !Bit(v, j)
      {
        NoBits(j + s);
        assert Bit(w, j + s) <==> Bit(v, j + s - s);
      }
      ScanDownIs(v, pos, None);
    } else {
      var m := Msb(w);
      MsbIsHighest(w, m);
      forall j: nat | m - s < j <= pos
        ensures !Bit(v, j)
      {
        MsbIsHighest(w, j + s);
        assert Bit(w, j + s) <==> Bit(v, j + s - s);
      }
      ScanDownIs(v, pos, Some(m - s));
    }
  }

  lemma UpSearch(v: nat, pos: nat, w: nat)
    requires pos < 1024 && w == Shr(v, pos) && v < Pow2(1024)
    ensures w == 0 ==> ScanUp(v, pos) == None
    ensures w > 0 ==> pos + Lsb(w) < 1024 && ScanUp(v, pos) == Some(pos + Lsb(w))
  {
    hide Bit, Pow2, Lsb, Shr;
    forall k: nat
      ensures Bit(w, k) <==> Bit(v, k + pos)
    {
      BitDown(v, pos, k);
    }
    if w == 0 {
      forall j: nat | pos <= j
        ensures !Bit(v, j)
      {
        NoBits(j - pos);
        assert Bit(w, j - pos) <==> Bit(v, j - pos + pos);
      }
      ScanUpIs(v, pos, None);
    } else {
      var m := Lsb(w);
      LsbIsLowest(w, m);
      if m + pos >= 1024 { NoBitAbove(v, m + pos); }
      forall j: nat | pos <= j < m + pos
        ensures !Bit(v, j)
      {
        LsbIsLowest(w, j - pos);
        assert Bit(w, j - pos) <==> Bit(v, j - pos + pos);
      }
      ScanUpIs(v, pos, Some(pos + m));
    }
  }

  lemma NoBitAbove(v: nat, k: nat)
    requires v < Pow2(1024) && k >= 1024
    ensures !Bit(v, k)
  {
    hide Pow2;
    Pow2Mono(1024, k);
    FloorIff(v, Pow2(k), 1);
  }

  lemma CompressedIs(next: int, spacing: nat)
    requires spacing > 0 && next / TickCount(spacing) * TickCount(spacing) == next
    requires -MaxTickInBitmap(spacing) <= next < MaxTickInBitmap(spacing)
    ensures Rem(next, TickCount(spacing)) == 0 && Quot(next, TickCount(spacing)) == next / TickCount(spacing)
    ensures 0 <= next / TickCount(spacing) + 512 < 1024
  {
    var n, k := TickCount(spacing), next / TickCount(spacing);
    RemZero(next, n);
    MulCancelLe(-512, k, n);
    MulCancelLt(k, 512, n);
  }

  lemma NeighbourAligned(last: int, spacing: nat, zeroForOne: bool)
    requires spacing > 0 && IsValidStart(last, spacing)
    ensures var next := Neighbour(last, spacing, zeroForOne);
            next / TickCount(spacing) * TickCount(spacing) == next
    ensures last / TickCount(spacing) * TickCount(spacing) == last
  {
    hide ArrayStart, Rem;
    var n := TickCount(spacing);
    RemZero(last, n);
    ArrayStartHolds(MIN_TICK, spacing);
    if OutOfBoundary(last) { QuotUnique(last, n, MIN_TICK / n, 0); }
    AlignedNeighbour(last, spacing, zeroForOne);
  }

  lemma AlignedNeighbour(last: int, spacing: nat, zeroForOne: bool)
    requires spacing > 0 && last / TickCount(spacing) * TickCount(spacing) == last
    ensures var next := Neighbour(last, spacing, zeroForOne);
            next / TickCount(spacing) * TickCount(spacing) == next
  {
    var n := TickCount(spacing);
    var k := last / n;
    Expand(k, n);
    QuotUnique(Neighbour(last, spacing, zeroForOne), n, if zeroForOne then k - 1 else k + 1, 0);
  }

  method NextInitializedTickArrayStartIndex(bitMap: array<u64>, last: int, spacing: nat, zeroForOne: bool)
    returns (r: Result<(bool, int)>)
    requires bitMap.Length == WORDS && spacing > 0
    ensures r == NextStart(Val(bitMap[..]), last, spacing, zeroForOne)
  {
    hide Val, Bit, Pow2, Msb, Lsb, Shr, ScanDown, ScanUp, IsValidStart, ArrayStart;
    if !IsValidStart(last, spacing) { return Err(InvalidTickArrayBoundary); }
    var tickBoundary := MaxTickInBitmap(spacing);
    var next := if zeroForOne then last - TickCount(spacing) else last + TickCount(spacing);
    if next < -tickBoundary || next >= tickBoundary { return Ok((false, last)); }
    var multiplier := TickCount(spacing);
    NeighbourAligned(last, spacing, zeroForOne);
    CompressedIs(next, spacing);
    var compressed := Quot(next, multiplier) + 512;
    if next < 0 && Rem(next, multiplier) != 0 { compressed := compressed - 1; }
    var bitPos := compressed;
    ValBound(bitMap[..]);
    if zeroForOne {
      var offsetBitMap := ShiftLeft(bitMap, 1024 - bitPos - 1);
      var zero := IsZero(offsetBitMap);
      DownSearch(Val(bitMap[..]), bitPos, Val(offsetBitMap[..]));
      if zero { return Ok((false, -tickBoundary)); }
      var nextBit := LeadingZeros(offsetBitMap);
      return Ok((true, (bitPos - nextBit - 512) * multiplier));
    } else {
      var offsetBitMap := ShiftRight(bitMap, bitPos);
      var zero := IsZero(offsetBitMap);
      UpSearch(Val(bitMap[..]), bitPos, Val(offsetBitMap[..]));
      if zero { return Ok((false, tickBoundary - TickCount(spacing))); }
      var nextBit := TrailingZeros(offsetBitMap);
      return Ok((true, (bitPos + nextBit - 512) * multiplier));
    }
  }

  // ---- What the search means for start indices ----

  /** Array `start` is set. */
  predicate IsSet(v: nat, start: int, spacing: nat)
    requires spacing > 0
  {
    var k := start / TickCount(spacing) + 512;
    && 0 <= k < 1024 && start == StartOf(k, spacing) && Bit(v, k)
  }

  predicate Beyond(last: int, start: int, zeroForOne: bool) { if zeroForOne then start < last else start > last }

  /** From an aligned start whose neighbour the bitmap covers, the search returns the nearest set
      array strictly in its direction, and reports none exactly when there is none. */
  lemma NextStartIsNearest(v: nat, last: int, spacing: nat, zeroForOne: bool)
    requires spacing > 0 && IsValidStart(last, spacing) && NeighbourInRange(last, spacing, zeroForOne)
    ensures NextStart(v, last, spacing, zeroForOne).Ok?
    ensures var (found, start) := NextStart(v, last, spacing, zeroForOne).value;
            && (found <==> exists a :: IsSet(v, a, spacing) && Beyond(last, a, zeroForOne))
            && (found ==> IsSet(v, start, spacing) && Beyond(last, start, zeroForOne))
            && (found ==>
                  forall a :: IsSet(v, a, spacing) && Beyond(last, a, zeroForOne) ==>
                    a == start || Beyond(start, a, zeroForOne))
  {
    hide Bit, IsValidStart;
    NeighbourAligned(last, spacing, zeroForOne);
    var next := Neighbour(last, spacing, zeroForOne);
    CompressedIs(next, spacing);
    var pos := next / TickCount(spacing) + 512;
    if zeroForOne { ScanDownFinds(v, pos); } else { ScanUpFinds(v, pos); }
    var (found, start) := NextStart(v, last, spacing, zeroForOne).value;
    if found {
      var j := (if zeroForOne then ScanDown(v, pos) else ScanUp(v, pos)).value;
      SetAt(v, j, spacing);
      StartOrder(pos, j, spacing);
      StartOrder(j, pos, spacing);
    }
    hide ScanDown, ScanUp;
    forall a | IsSet(v, a, spacing) && Beyond(last, a, zeroForOne)
      ensures found && (a == start || Beyond(start, a, zeroForOne))
    {
      var k := a / TickCount(spacing) + 512;
      StartBeyond(last, next, k, spacing, zeroForOne);
      if found {
        StartOrder(start / TickCount(spacing) + 512, k, spacing);
        StartOrder(k, start / TickCount(spacing) + 512, spacing);
      }
    }
  }

  lemma SetAt(v: nat, j: nat, spacing: nat)
    requires spacing > 0 && j < 1024 && Bit(v, j)
    ensures IsSet(v, StartOf(j, spacing), spacing) && StartOf(j, spacing) / TickCount(spacing) + 512 == j
  {
    QuotUnique(StartOf(j, spacing), TickCount(spacing), j - 512, 0);
  }

  lemma StartOrder(j: int, k: int, spacing: nat)
    requires spacing > 0
    ensures j < k <==> StartOf(j, spacing) < StartOf(k, spacing)
  {
    var n := TickCount(spacing);
    if j < k { MulLt(j - 512, k - 512, n); } else { MulLe(k - 512, j - 512, n); }
  }

  lemma StartBeyond(last: int, next: int, k: int, spacing: nat, zeroForOne: bool)
    requires spacing > 0 && next == Neighbour(last, spacing, zeroForOne)
    requires next / TickCount(spacing) * TickCount(spacing) == next
    requires Beyond(last, StartOf(k, spacing), zeroForOne)
    ensures var pos := next / TickCount(spacing) + 512; if zeroForOne then k <= pos else pos <= k
    ensures StartOf(next / TickCount(spacing) + 512, spacing) == next
  {
    var n, pos := TickCount(spacing), next / TickCount(spacing) + 512;
    Expand(pos - 512, n);
    if zeroForOne { StartOrder(pos + 1, k, spacing); StartOrder(k, pos + 1, spacing); }
    else { StartOrder(k, pos - 1, spacing); StartOrder(pos - 1, k, spacing); }
  }

  // ---- Enumeration ----

  /** Set digits belong to arrays that hold ticks; `flip` refuses all others. */
  ghost predicate ValidBits(v: nat, spacing: nat)
    requires spacing > 0
  {
    forall a :: IsSet(v, a, spacing) ==> IsValidStart(a, spacing)
  }

  /** Repeating the search from each array it finds. */
  ghost function Enumerate(v: nat, last: int, spacing: nat, zeroForOne: bool): seq<int>
    requires spacing > 0 && ValidBits(v, spacing) && IsValidStart(last, spacing)
    decreases if zeroForOne then Max(0, last + MaxTickInBitmap(spacing) + 1)
        else Max(0, MaxTickInBitmap(spacing) - last + 1)
  {
    hide NextStart, IsValidStart;
    if !NeighbourInRange(last, spacing, zeroForOne) then []
    else
      NextStartIsNearest(v, last, spacing, zeroForOne);
      var (found, start) := NextStart(v, last, spacing, zeroForOne).value;
      if !found then []
      else
        SetInRange(v, start, spacing);
        [start] + Enumerate(v, start, spacing, zeroForOne)
  }

  lemma SetInRange(v: nat, a: int, spacing: nat)
    requires spacing > 0 && IsSet(v, a, spacing)
    ensures -MaxTickInBitmap(spacing) <= a <= MaxTickInBitmap(spacing) - TickCount(spacing)
  {
    var k, n := a / TickCount(spacing) + 512, TickCount(spacing);
    MulLe(-512, k - 512, n);
    MulLe(k - 512, 511, n);
  }

  /** It lists every set array beyond the first start exactly once, in order. */
  lemma {:induction false} EnumerateIsComplete(v: nat, last: int, spacing: nat, zeroForOne: bool)
    requires spacing > 0 && ValidBits(v, spacing) && IsValidStart(last, spacing)
    requires if zeroForOne then last <= MaxTickInBitmap(spacing)
             else last >= -MaxTickInBitmap(spacing) - TickCount(spacing)
    ensures var list := Enumerate(v, last, spacing, zeroForOne);
            && (forall a :: a in list <==> IsSet(v, a, spacing) && Beyond(last, a, zeroForOne))
            && (forall i, j :: 0 <= i < j < |list| ==> Beyond(list[i], list[j], zeroForOne))
    decreases if zeroForOne then Max(0, last + MaxTickInBitmap(spacing) + 1)
        else Max(0, MaxTickInBitmap(spacing) - last + 1)
  {
    hide NextStart, IsValidStart, IsSet;
    forall a | IsSet(v, a, spacing)
      ensures -MaxTickInBitmap(spacing) <= a <= MaxTickInBitmap(spacing) - TickCount(spacing)
    {
      SetInRange(v, a, spacing);
    }
    if NeighbourInRange(last, spacing, zeroForOne) {
      NextStartIsNearest(v, last, spacing, zeroForOne);
      var (found, start) := NextStart(v, last, spacing, zeroForOne).value;
      if found {
        EnumerateIsComplete(v, start, spacing, zeroForOne);
        var rest := Enumerate(v, start, spacing, zeroForOne);
        assert Enumerate(v, last, spacing, zeroForOne) == [start] + rest;
      }
    } else {
      NeighbourAligned(last, spacing, zeroForOne);
      BeyondNeighbour(v, last, spacing, zeroForOne);
    }
  }

  lemma BeyondNeighbour(v: nat, last: int, spacing: nat, zeroForOne: bool)
    requires spacing > 0 && last / TickCount(spacing) * TickCount(spacing) == last
             && !NeighbourInRange(last, spacing, zeroForOne)
    requires if zeroForOne then last <= MaxTickInBitmap(spacing)
             else last >= -MaxTickInBitmap(spacing) - TickCount(spacing)
    ensures forall a :: IsSet(v, a, spacing) ==> !Beyond(last, a, zeroForOne)
  {
    hide Bit;
    forall a | IsSet(v, a, spacing)
      ensures !Beyond(last, a, zeroForOne)
    {
      SetInRange(v, a, spacing);
      if Beyond(last, a, zeroForOne) {
        AlignedNeighbour(last, spacing, zeroForOne);
        var k, next := a / TickCount(spacing) + 512, Neighbour(last, spacing, zeroForOne);
        StartBeyond(last, next, k, spacing, zeroForOne);
        StartOrder(k, next / TickCount(spacing) + 512, spacing);
        StartOrder(next / TickCount(spacing) + 512, k, spacing);
      }
    }
  }

  // ---- The current array, flips and windows ----

  lemma OneIsBit(words: seq<u64>, pos: nat, k: nat)
    requires |words| == WORDS && pos < 1024
    requires Val(words) == 1 * Pow2(pos) % Pow2(1024)
    ensures Bit(Val(words), k) <==> k == pos
  {
    hide Pow2, Bit;
    Pow2Mono(pos, 1024);
    DivUnique(Pow2(pos), Pow2(1024), 0, Pow2(pos));
    MsbUnique(Pow2(pos), pos);
    BitUp(1, pos, k);
    if k >= pos { BitOfOne(k - pos); }
  }

  lemma BitOfOne(k: nat)
    ensures Bit(1, k) <==> k == 0
  {
    BitZero(1);
    if k > 0 {
      BitHalf(1, k - 1);
      NoBits(k - 1);
    }
  }

  method One() returns (words: array<u64>)
    ensures fresh(words) && words.Length == WORDS && Val(words[..]) == 1
  {
    words := new u64[WORDS](i => if i == 0 then 1 else 0);
    ZeroWords(words[1..]);
    assert words[..][1..] == words[1..];
  }

  /** The caller keeps the tick within the bitmap, as `is_overflow_default_tickarray_bitmap` checks. */
  method CheckCurrentTickArrayIsInitialized(bitMap: array<u64>, tick: int, spacing: nat)
      returns (r: Result<(bool, int)>)
    requires bitMap.Length == WORDS && spacing > 0
    requires -MaxTickInBitmap(spacing) <= tick < MaxTickInBitmap(spacing)
    ensures r == if OutOfBoundary(tick) then Err(InvalidTickIndex)
                 else Ok((IsSet(Val(bitMap[..]), ArrayStart(tick, spacing), spacing), ArrayStart(tick, spacing)))
  {
    hide Val, Bit, Pow2, ArrayStart;
    if OutOfBoundary(tick) { return Err(InvalidTickIndex); }
    var multiplier := TickCount(spacing);
    var compressed := Quot(tick, multiplier) + 512;
    if tick < 0 && Rem(tick, multiplier) != 0 { compressed := compressed - 1; }
    FloorOf(tick, multiplier);
    ArrayStartHolds(tick, spacing);
    MulCancelLt(-513, compressed - 512, multiplier);
    MulCancelLt(compressed - 512, 512, multiplier);
    var one := One();
    var mask := ShiftLeft(one, compressed);
    var masked := BitAnd(bitMap, mask);
    var zero := IsZero(masked);
    forall k: nat
      ensures Bit(Val(mask[..]), k) <==> k == compressed
    {
      OneIsBit(mask[..], compressed, k);
    }
    assert Bit(Val(mask[..]), compressed);
    assert Bit(Val(masked[..]), compressed) <==> Bit(Val(bitMap[..]), compressed);
    SomeBit(Val(masked[..]));
    if zero { NoBits(compressed); }
    QuotUnique(ArrayStart(tick, spacing), multiplier, compressed - 512, 0);
    return Ok((!zero, (compressed - 512) * multiplier));
  }

  lemma SomeBit(v: nat)
    ensures v > 0 ==> exists k: nat :: Bit(v, k)
  {
    if v > 0 { MsbIsHighest(v, Msb(v)); }
  }

  /** `flip_tick_array_bit_default`: toggles exactly the array's digit. */
  method FlipTickArrayBit(bitMap: array<u64>, start: int, spacing: nat) returns (r: Result<array<u64>>)
    requires bitMap.Length == WORDS && spacing > 0
    requires -MaxTickInBitmap(spacing) <= start < MaxTickInBitmap(spacing)
    ensures r.Err? <==> !IsValidStart(start, spacing)
    ensures r.Ok? ==>
              && fresh(r.value) && r.value.Length == WORDS
              && forall k: nat ::
                   Bit(Val(r.value[..]), k) == (Bit(Val(bitMap[..]), k) != (StartOf(k, spacing) == start))
  {
    hide Val, Bit, Pow2, IsValidStart;
    if !IsValidStart(start, spacing) { return Err(InvalidTickIndex); }
    NeighbourAligned(start, spacing, true);
    CompressedIs(start, spacing);
    var offset := Quot(start, TickCount(spacing)) + TICK_ARRAY_BITMAP_SIZE;
    var one := One();
    var mask := ShiftLeft(one, offset);
    var flipped := BitXor(bitMap, mask);
    forall k: nat
      ensures Bit(Val(mask[..]), k) <==> StartOf(k, spacing) == start
    {
      OneIsBit(mask[..], offset, k);
      StartOrder(k, offset, spacing);
      StartOrder(offset, k, spacing);
    }
    return Ok(flipped);
  }

  /** `get_bitmap_tick_boundary`. */
  function BitmapTickBoundary(start: int, spacing: nat): (int, int)
    requires spacing > 0
  {
    var n := MaxTickInBitmap(spacing);
    var abs := if start < 0 then -start else start;
    var m := if start < 0 && Rem(abs, n) != 0 then Quot(abs, n) + 1 else Quot(abs, n);
    if start < 0 then (-(n * m), -(n * m) + n) else (n * m, n * m + n)
  }

  /** The window of one bitmap's width that holds the start index, the same rounding on both sides of zero. */
  lemma BoundaryIsWindow(start: int, spacing: nat)
    requires spacing > 0
    ensures var n, (lo, hi) := MaxTickInBitmap(spacing), BitmapTickBoundary(start, spacing);
            lo <= start < hi && hi == lo + n && lo == start / n * n
  {
    WindowOf(start, MaxTickInBitmap(spacing));
  }

  lemma WindowOf(start: int, n: nat)
    requires n > 0
    ensures start / n * n <= start < start / n * n + n
    ensures var abs := if start < 0 then -start else start;
            var m := if start < 0 && Rem(abs, n) != 0 then Quot(abs, n) + 1 else Quot(abs, n);
            start / n * n == if start < 0 then -(n * m) else n * m
  {
    FloorOf(start, n);
    var abs := if start < 0 then -start else start;
    var m := if start < 0 && Rem(abs, n) != 0 then Quot(abs, n) + 1 else Quot(abs, n);
    MulNeg(m, n);
    assert start / n == if start < 0 then -m else m;
  }
}
