/** The swap's search for the next initialized tick: within the current array, then through the
    bitmap. It finds the nearest initialized tick of the whole pool. */
module TickSearch {
  import opened Types
  import opened Arith
  import opened Bits
  import opened BigNum
  import opened TickMath
  import opened TickArray
  import opened TickArrayBitMap
  import opened TickIndex

  /** An initialized tick of the array that starts at `a`. */
  predicate InArray(ix: Index, a: int, t: int)
    requires ix.spacing > 0
  {
    SlotAt(ix, t).Initialized() && ArrayStart(t, ix.spacing) == a
  }

  /** The bitmap words stand for the set of arrays. */
  ghost predicate Represents(words: seq<u64>, ix: Index)
    requires ix.spacing > 0
  {
    |words| == WORDS && forall a :: a in ix.bits <==> IsSet(Val(words), a, ix.spacing)
  }

  lemma InitializedInBits(ix: Index, t: int)
    requires Agrees(ix) && SlotAt(ix, t).Initialized()
    ensures Aligned(t, ix.spacing) && ArrayStart(t, ix.spacing) in ix.bits
  {
    hide ArrayStart;
    assert t in InitTicks(ix, ArrayStart(t, ix.spacing));
  }

  lemma BitHoldsTick(ix: Index, a: int)
    requires Agrees(ix) && a in ix.bits
    ensures exists t :: InArray(ix, a, t)
    ensures IsValidStart(a, ix.spacing)
  {
    hide ArrayStart, IsValidStart;
    var s := InitTicks(ix, a);
    assert s != {};
    var t :| t in s;
    assert InArray(ix, a, t);
    InitializedInBits(ix, t);
    ValidStartsHoldTicks(a, ix.spacing);
  }

  // ---- Within an array ----

  /** The place of a tick of array `a`, as an offset. */
  lemma PlaceOf(ix: Index, a: int, t: int)
    requires Agrees(ix) && InArray(ix, a, t)
    ensures 0 <= (t - a) / ix.spacing < TICK_ARRAY_SIZE && t == a + (t - a) / ix.spacing * ix.spacing
  {
    InitializedInBits(ix, t);
    ArrayStartHolds(t, ix.spacing);
    OffsetOf(t, a, ix.spacing);
  }

  lemma PlaceIn(spacing: nat, a: int, i: int)
    requires spacing > 0 && a / TickCount(spacing) * TickCount(spacing) == a && 0 <= i < TICK_ARRAY_SIZE
    ensures ArrayStart(a + i * spacing, spacing) == a
  {
    MulLe(0, i, spacing);
    MulLe(i + 1, TICK_ARRAY_SIZE, spacing);
    Expand(i, spacing);
    StartOfMultiple(a / TickCount(spacing), spacing, a + i * spacing);
  }

  lemma PlacesInOrder(spacing: nat, i: int, j: int)
    requires spacing > 0
    ensures i < j <==> i * spacing < j * spacing
  {
    if i < j { MulLt(i, j, spacing); } else { MulLe(j, i, spacing); }
  }

  /** The nearest initialized tick of one array. */
  ghost predicate IsNextInArray(ix: Index, a: int, tick: int, zeroForOne: bool, t: int)
    requires ix.spacing > 0
  {
    && InArray(ix, a, t) && Ahead(t, tick, zeroForOne)
    && forall u :: InArray(ix, a, u) && Ahead(u, tick, zeroForOne) ==> !Nearer(u, t, zeroForOne)
  }

  function Place(a: int, i: int, spacing: nat): int { a + i * spacing }

  /** Offset `i` lies in the range scanned from `first`. */
  predicate Scanned(i: int, first: int, zeroForOne: bool) {
    0 <= i < TICK_ARRAY_SIZE && if zeroForOne then i <= first else first <= i
  }

  lemma ScannedIsPlace(i: int, first: int, zeroForOne: bool)
    requires Scanned(i, first, zeroForOne)
    ensures 0 <= i < TICK_ARRAY_SIZE
  {}

  predicate SetPlace(ix: Index, a: int, i: int) { SlotAt(ix, Place(a, i, ix.spacing)).Initialized() }

  /** A scan over the places from `first` in the search direction, as the source's two ranges. */
  method ScanPlaces(ix: Index, a: int, first: int, zeroForOne: bool) returns (r: Option<int>)
    requires if zeroForOne then -1 <= first < TICK_ARRAY_SIZE else 0 <= first <= TICK_ARRAY_SIZE
    ensures r.Some? ==> Scanned(r.value, first, zeroForOne) && SetPlace(ix, a, r.value)
    ensures r.Some? ==> forall j ::
            Scanned(j, first, zeroForOne) && SetPlace(ix, a, j) ==> Scanned(j, r.value, zeroForOne)
    ensures r.None? ==> forall j :: Scanned(j, first, zeroForOne) ==> !SetPlace(ix, a, j)
  {
    hide SetPlace;
    var i := first;
    while 0 <= i < TICK_ARRAY_SIZE
      invariant -1 <= i <= TICK_ARRAY_SIZE && if zeroForOne then i <= first else first <= i
      invariant forall j :: Scanned(j, first, zeroForOne) && SetPlace(ix, a, j) ==> Scanned(j, i, zeroForOne)
      decreases if zeroForOne then i + 1 else TICK_ARRAY_SIZE - i
    {
      if SetPlace(ix, a, i) { return Some(i); }
      i := if zeroForOne then i - 1 else i + 1;
    }
    return None;
  }

  /** An initialized tick of the array is a set place, ahead of `tick` as its offset is scanned. */
  lemma TickIsPlace(ix: Index, a: int, u: int, i: int, first: int, zeroForOne: bool)
    requires Agrees(ix) && InArray(ix, a, u)
    ensures var j := (u - a) / ix.spacing;
            && u == Place(a, j, ix.spacing) && 0 <= j < TICK_ARRAY_SIZE && SetPlace(ix, a, j)
            && (Scanned(j, first, zeroForOne) <==> !Nearer(u, Place(a, first, ix.spacing), zeroForOne))
            && (Scanned(j, i, zeroForOne) <==> !Nearer(u, Place(a, i, ix.spacing), zeroForOne))
  {
    PlaceOf(ix, a, u);
    var j := (u - a) / ix.spacing;
    PlacesInOrder(ix.spacing, j, first);
    PlacesInOrder(ix.spacing, first, j);
    PlacesInOrder(ix.spacing, j, i);
    PlacesInOrder(ix.spacing, i, j);
  }

  lemma PlaceIsTick(ix: Index, a: int, i: int)
    requires ix.spacing > 0 && a / TickCount(ix.spacing) * TickCount(ix.spacing) == a
    requires 0 <= i < TICK_ARRAY_SIZE && SetPlace(ix, a, i)
    ensures InArray(ix, a, Place(a, i, ix.spacing))
  {
    PlaceIn(ix.spacing, a, i);
  }

  /** `next_initialized_tick`. */
  method NextInitializedTick(ix: Index, a: int, tick: int, zeroForOne: bool) returns (r: Option<int>)
    requires Agrees(ix) && a / TickCount(ix.spacing) * TickCount(ix.spacing) == a
    ensures r.Some? ==> ArrayStart(tick, ix.spacing) == a && IsNextInArray(ix, a, tick, zeroForOne, r.value)
    ensures r.None? && ArrayStart(tick, ix.spacing) == a ==> forall u ::
            InArray(ix, a, u) ==> !Ahead(u, tick, zeroForOne)
  {
    assert ix.spacing > 0;
    hide ArrayStart, Agrees, InArray, SetPlace, Scanned, Place, Nearer;
    if ArrayStart(tick, ix.spacing) != a { return None; }
    ArrayStartHolds(tick, ix.spacing);
    var offset := (tick - a) / ix.spacing;
    OffsetBounds(tick, a, ix.spacing);
    var first := if zeroForOne then offset else offset + 1;
    var found := ScanPlaces(ix, a, first, zeroForOne);
    var i := if found.Some? then found.value else first;
    forall u | InArray(ix, a, u)
      ensures var j := (u - a) / ix.spacing;
              && SetPlace(ix, a, j) && (Scanned(j, first, zeroForOne) <==> Ahead(u, tick, zeroForOne))
              && (Scanned(j, i, zeroForOne) <==> !Nearer(u, Place(a, i, ix.spacing), zeroForOne))
    {
      TickIsPlace(ix, a, u, i, first, zeroForOne);
      PlaceAhead(tick, a, ix.spacing, (u - a) / ix.spacing, first, zeroForOne);
    }
    if found.Some? {
      ScannedIsPlace(i, first, zeroForOne);
      PlaceIsTick(ix, a, i);
      PlaceAhead(tick, a, ix.spacing, i, first, zeroForOne);
      return Some(Place(a, i, ix.spacing));
    }
    return None;
  }

  lemma PlaceAhead(tick: int, a: int, spacing: nat, j: int, first: int, zeroForOne: bool)
    requires spacing > 0 && a <= tick && 0 <= j < TICK_ARRAY_SIZE
    requires first == (tick - a) / spacing + if zeroForOne then 0 else 1
    ensures Ahead(Place(a, j, spacing), tick, zeroForOne) <==> Scanned(j, first, zeroForOne)
  {
    FloorIff(tick - a, spacing, j);
  }

  lemma OffsetBounds(tick: int, a: int, spacing: nat)
    requires spacing > 0 && a <= tick < a + TickCount(spacing)
    ensures 0 <= (tick - a) / spacing < TICK_ARRAY_SIZE
  {
    FloorIff(tick - a, spacing, 0);
    FloorIff(tick - a, spacing, TICK_ARRAY_SIZE);
  }

  /** `first_initialized_tick`. */
  method FirstInitializedTick(ix: Index, a: int, zeroForOne: bool) returns (r: Option<int>)
    requires Agrees(ix) && a / TickCount(ix.spacing) * TickCount(ix.spacing) == a
    ensures r.Some? ==> InArray(ix, a, r.value) && forall u :: InArray(ix, a, u) ==> !Nearer(u, r.value, zeroForOne)
    ensures r.None? ==> forall u :: !InArray(ix, a, u)
  {
    assert ix.spacing > 0;
    hide ArrayStart, Agrees, InArray, SetPlace, Place, Nearer;
    var first := if zeroForOne then TICK_ARRAY_SIZE - 1 else 0;
    var found := ScanPlaces(ix, a, first, zeroForOne);
    var i := if found.Some? then found.value else first;
    forall u | InArray(ix, a, u)
      ensures var j := (u - a) / ix.spacing;
              && SetPlace(ix, a, j) && Scanned(j, first, zeroForOne)
              && (Scanned(j, i, zeroForOne) <==> !Nearer(u, Place(a, i, ix.spacing), zeroForOne))
    {
      TickIsPlace(ix, a, u, i, first, zeroForOne);
    }
    if found.Some? {
      PlaceIsTick(ix, a, i);
      return Some(Place(a, i, ix.spacing));
    }
    return None;
  }

  // ---- Across arrays ----

  /** What the search keeps between ticks: the array it stands in, and whether it already accounts
      for the array of the pool's tick. */
  ghost predicate SearchInv(ix: Index, tick: int, at: int, seen: bool, zeroForOne: bool)
    requires ix.spacing > 0
  {
    && IsValidStart(at, ix.spacing)
    && (forall u :: SlotAt(ix, u).Initialized() && Ahead(u, tick, zeroForOne) ==>
          ArrayStart(u, ix.spacing) == at || Beyond(at, ArrayStart(u, ix.spacing), zeroForOne))
    && (seen ==> if zeroForOne then at <= tick + 1 else tick < at + TickCount(ix.spacing))
    && (if ArrayStart(tick, ix.spacing) == at then seen
        else if seen then forall u :: InArray(ix, at, u) ==> !Ahead(u, tick, zeroForOne)
        else (forall u :: InArray(ix, at, u) ==> Ahead(u, tick, zeroForOne)) && exists u :: InArray(ix, at, u))
  }

  /** Ticks of farther arrays are farther. */
  lemma FartherArray(t: int, u: int, spacing: nat, zeroForOne: bool)
    requires spacing > 0
    requires Beyond(ArrayStart(t, spacing), ArrayStart(u, spacing), zeroForOne)
    ensures Nearer(t, u, zeroForOne)
  {
    ArrayStartHolds(t, spacing);
    ArrayStartHolds(u, spacing);
    var n, i, j := TickCount(spacing), t / TickCount(spacing), u / TickCount(spacing);
    hide ArrayStart;
    if zeroForOne {
      MulCancelLt(j, i, n);
      MulLe(j + 1, i, n);
      Expand(j, n);
    } else {
      MulCancelLt(i, j, n);
      MulLe(i + 1, j, n);
      Expand(i, n);
    }
  }

  lemma AlignedStart(a: int, spacing: nat)
    requires spacing > 0 && IsValidStart(a, spacing)
    ensures a / TickCount(spacing) * TickCount(spacing) == a
  {
    NeighbourAligned(a, spacing, true);
  }

  /** The nearest tick of an array with none ahead before it is the nearest of all. */
  lemma NextOfArray(ix: Index, tick: int, at: int, t: int, zeroForOne: bool)
    requires ix.spacing > 0 && InArray(ix, at, t) && Ahead(t, tick, zeroForOne)
    requires forall u :: InArray(ix, at, u) && Ahead(u, tick, zeroForOne) ==> !Nearer(u, t, zeroForOne)
    requires forall u :: SlotAt(ix, u).Initialized() && Ahead(u, tick, zeroForOne) ==>
               ArrayStart(u, ix.spacing) == at || Beyond(at, ArrayStart(u, ix.spacing), zeroForOne)
    ensures IsNext(ix, tick, zeroForOne, t)
  {
    hide ArrayStart;
    forall u | SlotAt(ix, u).Initialized() && Ahead(u, tick, zeroForOne)
      ensures !Nearer(u, t, zeroForOne)
    {
      if ArrayStart(u, ix.spacing) != at { FartherArray(t, u, ix.spacing, zeroForOne); }
    }
  }

  /** The nearest set array beyond `last`. */
  predicate NearestBeyond(ix: Index, last: int, a: int, zeroForOne: bool) {
    a in ix.bits && Beyond(last, a, zeroForOne) && forall b ::
        b in ix.bits && Beyond(last, b, zeroForOne) ==> b == a || Beyond(a, b, zeroForOne)
  }

  /** Where a swap's search starts: at the array of the pool's tick if its bit is set, otherwise at the
      nearest set array beyond it, and nowhere if there is none. */
  predicate Started(ix: Index, tick: int, zeroForOne: bool, r: Option<(bool, int)>)
    requires ix.spacing > 0
  {
    var start := ArrayStart(tick, ix.spacing);
    if start in ix.bits then r == Some((true, start))
    else if r.Some? then !r.value.0 && NearestBeyond(ix, start, r.value.1, zeroForOne)
    else forall a :: a in ix.bits ==> !Beyond(start, a, zeroForOne)
  }

  method StartSearch(ix: Index, bitMap: array<u64>, tick: int, zeroForOne: bool) returns (r: Result<(bool, int)>)
    requires Agrees(ix) && bitMap.Length == WORDS && Represents(bitMap[..], ix)
    requires MIN_TICK <= tick <= MAX_TICK && -MaxTickInBitmap(ix.spacing) <= tick < MaxTickInBitmap(ix.spacing)
    ensures Started(ix, tick, zeroForOne, if r.Ok? then Some(r.value) else None)
    ensures r.Ok? ==> -MaxTickInBitmap(ix.spacing) <= r.value.1 < MaxTickInBitmap(ix.spacing)
  {
    var spacing := ix.spacing;
    assert spacing > 0;
    hide Val, ArrayStart, Agrees, IsSet, IsValidStart, Slot.Initialized, InArray;
    var current := CheckCurrentTickArrayIsInitialized(bitMap, tick, spacing);
    var start := ArrayStart(tick, spacing);
    FromOwnArray(ix, tick, zeroForOne);
    StartInBitmap(tick, spacing);
    if current.value.0 { return Ok((true, current.value.1)); }
    var next :- NextArray(ix, bitMap, start, zeroForOne);
    SetInRange(Val(bitMap[..]), next, spacing);
    return Ok((false, next));
  }

  /** What the search keeps is in order when it starts; where it does not start nothing lies ahead. */
  lemma StartedInOrder(ix: Index, tick: int, zeroForOne: bool, r: Option<(bool, int)>)
    requires Agrees(ix) && MIN_TICK <= tick <= MAX_TICK && Started(ix, tick, zeroForOne, r)
    ensures r.Some? ==> SearchInv(ix, tick, r.value.1, r.value.0, zeroForOne)
    ensures r.None? ==> NoneAhead(ix, tick, zeroForOne)
  {
    hide ArrayStart, Agrees, IsValidStart, Slot.Initialized, InArray, Ahead, Beyond;
    AgreesSpacing(ix);
    var start := ArrayStart(tick, ix.spacing);
    FromOwnArray(ix, tick, zeroForOne);
    if start in ix.bits {
      StartsInOwnArray(ix, tick, zeroForOne);
    } else if r.Some? {
      FromNextArray(ix, tick, r.value.1, zeroForOne);
    } else {
      forall u | SlotAt(ix, u).Initialized()
        ensures !Ahead(u, tick, zeroForOne)
      {
        assert ArrayStart(u, ix.spacing) in ix.bits && ArrayStart(u, ix.spacing) != start;
      }
    }
  }

  lemma StartsInOwnArray(ix: Index, tick: int, zeroForOne: bool)
    requires Agrees(ix) && MIN_TICK <= tick <= MAX_TICK
    ensures SearchInv(ix, tick, ArrayStart(tick, ix.spacing), true, zeroForOne)
  {
    hide IsValidStart, Agrees, Slot.Initialized;
    AgreesSpacing(ix);
    FromOwnArray(ix, tick, zeroForOne);
    ArrayStartHolds(tick, ix.spacing);
    hide ArrayStart;
  }

  lemma StartInBitmap(tick: int, spacing: nat)
    requires spacing > 0 && -MaxTickInBitmap(spacing) <= tick < MaxTickInBitmap(spacing)
    ensures -MaxTickInBitmap(spacing) <= ArrayStart(tick, spacing) < MaxTickInBitmap(spacing)
  {
    ArrayStartHolds(tick, spacing);
    var n, k := TickCount(spacing), tick / TickCount(spacing);
    hide ArrayStart;
    if k < -512 { MulLe(k + 1, -512, n); Expand(k, n); }
    MulLe(-512, Max(k, -512), n);
  }

  /** Initialized ticks ahead are in the tick's own array or in set arrays beyond it. */
  lemma FromOwnArray(ix: Index, tick: int, zeroForOne: bool)
    requires Agrees(ix) && MIN_TICK <= tick <= MAX_TICK
    ensures IsValidStart(ArrayStart(tick, ix.spacing), ix.spacing)
    ensures forall u :: SlotAt(ix, u).Initialized() ==> ArrayStart(u, ix.spacing) in ix.bits
    ensures forall u :: SlotAt(ix, u).Initialized() && Ahead(u, tick, zeroForOne) ==>
              ArrayStart(u, ix.spacing) == ArrayStart(tick, ix.spacing)
                  || Beyond(ArrayStart(tick, ix.spacing), ArrayStart(u, ix.spacing), zeroForOne)
  {
    hide ArrayStart, IsValidStart;
    var start := ArrayStart(tick, ix.spacing);
    ValidStartsHoldTicks(start, ix.spacing);
    forall u | SlotAt(ix, u).Initialized()
      ensures ArrayStart(u, ix.spacing) in ix.bits
      ensures Ahead(u, tick, zeroForOne)
              ==> ArrayStart(u, ix.spacing) == start || Beyond(start, ArrayStart(u, ix.spacing), zeroForOne)
    {
      InitializedInBits(ix, u);
      if Beyond(ArrayStart(u, ix.spacing), start, zeroForOne) { FartherArray(u, tick, ix.spacing, zeroForOne); }
    }
  }

  /** When the tick's own array has none, the nearest set array beyond it lies wholly ahead. */
  lemma FromNextArray(ix: Index, tick: int, next: int, zeroForOne: bool)
    requires Agrees(ix) && MIN_TICK <= tick <= MAX_TICK
    requires var start := ArrayStart(tick, ix.spacing);
             && start !in ix.bits && next in ix.bits && Beyond(start, next, zeroForOne)
             && forall a :: a in ix.bits && Beyond(start, a, zeroForOne) ==> a == next || Beyond(next, a, zeroForOne)
    ensures SearchInv(ix, tick, next, false, zeroForOne)
  {
    hide ArrayStart, IsValidStart, Agrees;
    AgreesSpacing(ix);
    FromOwnArray(ix, tick, zeroForOne);
    BitHoldsTick(ix, next);
    forall u | InArray(ix, next, u)
      ensures Ahead(u, tick, zeroForOne)
    {
      FartherArray(tick, u, ix.spacing, zeroForOne);
    }
  }

  /** The nearest set array beyond `last`. */
  method NextArray(ix: Index, bitMap: array<u64>, last: int, zeroForOne: bool) returns (r: Result<int>)
    requires Agrees(ix) && bitMap.Length == WORDS && Represents(bitMap[..], ix)
    requires IsValidStart(last, ix.spacing)
    requires -MaxTickInBitmap(ix.spacing) <= last < MaxTickInBitmap(ix.spacing)
    ensures r.Ok? ==> r.value in ix.bits && Beyond(last, r.value, zeroForOne)
                      && forall a :: a in ix.bits && Beyond(last, a, zeroForOne) ==>
                           a == r.value || Beyond(r.value, a, zeroForOne)
    ensures r.Err? ==> forall a :: a in ix.bits ==> !Beyond(last, a, zeroForOne)
  {
    assert ix.spacing > 0;
    hide Val, Agrees, IsSet, IsValidStart, NextStart;
    var search := NextInitializedTickArrayStartIndex(bitMap, last, ix.spacing, zeroForOne);
    ghost var v := Val(bitMap[..]);
    AlignedStart(last, ix.spacing);
    if NeighbourInRange(last, ix.spacing, zeroForOne) {
      NextStartIsNearest(v, last, ix.spacing, zeroForOne);
    } else {
      OutOfRangeFindsNothing(v, last, ix.spacing, zeroForOne);
      BeyondNeighbour(v, last, ix.spacing, zeroForOne);
    }
    if !search.value.0 { return Err(LiquidityInsufficient); }
    return Ok(search.value.1);
  }

  lemma OutOfRangeFindsNothing(v: nat, last: int, spacing: nat, zeroForOne: bool)
    requires spacing > 0 && IsValidStart(last, spacing) && !NeighbourInRange(last, spacing, zeroForOne)
    ensures NextStart(v, last, spacing, zeroForOne) == Ok((false, last))
  {
    hide IsValidStart, Bit;
  }

  lemma BeyondIsAhead(tick: int, at: int, t: int, spacing: nat, zeroForOne: bool)
    requires spacing > 0 && IsValidStart(at, spacing) && Beyond(at, ArrayStart(t, spacing), zeroForOne)
    requires if zeroForOne then at <= tick + 1 else tick < at + TickCount(spacing)
    ensures Ahead(t, tick, zeroForOne)
  {
    AlignedStart(at, spacing);
    StartOfMultiple(at / TickCount(spacing), spacing, at);
    FartherArray(if zeroForOne then at else at + TickCount(spacing) - 1, t, spacing, zeroForOne) by {
      StartOfMultiple(at / TickCount(spacing), spacing, at + TickCount(spacing) - 1);
    }
  }

  /** The first initialized tick of an array in the search direction. */
  ghost predicate IsFirst(ix: Index, a: int, zeroForOne: bool, t: int)
    requires ix.spacing > 0
  {
    InArray(ix, a, t) && forall u :: InArray(ix, a, u) ==> !Nearer(u, t, zeroForOne)
  }

  ghost predicate AheadInOwnArray(ix: Index, tick: int, at: int, zeroForOne: bool)
    requires ix.spacing > 0
  {
    ArrayStart(tick, ix.spacing) == at && exists u :: InArray(ix, at, u) && Ahead(u, tick, zeroForOne)
  }

  /** What one search of the loop finds: in the array at hand when that is the pool tick's own and has
      a tick ahead; the first tick of the array at hand when the search has not been there; otherwise
      the first tick of the next set array. */
  ghost predicate Searched(ix: Index, tick: int, at: int, seen: bool, zeroForOne: bool, r: Option<int>)
    requires ix.spacing > 0
  {
    if AheadInOwnArray(ix, tick, at, zeroForOne) then r.Some? && IsNextInArray(ix, at, tick, zeroForOne, r.value)
    else if !seen then r.Some? && IsFirst(ix, at, zeroForOne, r.value)
    else if r.None? then forall a :: a in ix.bits ==> !Beyond(at, a, zeroForOne)
    else
      NearestBeyond(ix, at, ArrayStart(r.value, ix.spacing), zeroForOne)
          && IsFirst(ix, ArrayStart(r.value, ix.spacing), zeroForOne, r.value)
  }

  /** The nearest initialized tick of the whole pool in the swap's direction, or none if there is none. */
  ghost predicate FindsNext(ix: Index, tick: int, zeroForOne: bool, r: Option<int>) {
    match r
    case Some(t) => IsNext(ix, tick, zeroForOne, t)
    case None => NoneAhead(ix, tick, zeroForOne)
  }

  /** One search of the swap loop, from any state whose array at hand has a tick unless it has been seen. */
  method FindNext(ix: Index, bitMap: array<u64>, tick: int, at: int, seen: bool, zeroForOne: bool)
    returns (r: Result<(int, int, bool)>)
    requires Agrees(ix) && bitMap.Length == WORDS && Represents(bitMap[..], ix)
    requires IsValidStart(at, ix.spacing) && (seen || exists u :: InArray(ix, at, u))
    requires -MaxTickInBitmap(ix.spacing) <= at < MaxTickInBitmap(ix.spacing)
    ensures Searched(ix, tick, at, seen, zeroForOne, if r.Ok? then Some(r.value.0) else None)
    ensures r.Ok? ==> r.value.1 == ArrayStart(r.value.0, ix.spacing) && r.value.2
  {
    var spacing := ix.spacing;
    assert spacing > 0;
    hide Val, ArrayStart, Agrees, IsSet, IsValidStart, Slot.Initialized;
    AlignedStart(at, spacing);
    var inArray := NextInitializedTick(ix, at, tick, zeroForOne);
    if inArray.Some? { return Ok((inArray.value, at, true)); }
    if !seen {
      var first := FirstInitializedTick(ix, at, zeroForOne);
      return Ok((first.value, at, true));
    }
    var next :- NextArray(ix, bitMap, at, zeroForOne);
    BitHoldsTick(ix, next);
    AlignedStart(next, spacing);
    var first := FirstInitializedTick(ix, next, zeroForOne);
    return Ok((first.value, next, true));
  }

  /** Where what the search keeps is in order, it finds the nearest initialized tick of the whole pool. */
  lemma SearchedIsNext(ix: Index, tick: int, at: int, seen: bool, zeroForOne: bool, r: Option<int>)
    requires Agrees(ix) && SearchInv(ix, tick, at, seen, zeroForOne) && Searched(ix, tick, at, seen, zeroForOne, r)
    ensures FindsNext(ix, tick, zeroForOne, r)
  {
    hide ArrayStart, Agrees, IsValidStart, Slot.Initialized, IsNext, NoneAhead;
    AgreesSpacing(ix);
    if AheadInOwnArray(ix, tick, at, zeroForOne) || !seen {
      NextOfArray(ix, tick, at, r.value, zeroForOne);
    } else {
      forall u | SlotAt(ix, u).Initialized() && Ahead(u, tick, zeroForOne)
        ensures ArrayStart(u, ix.spacing) in ix.bits && Beyond(at, ArrayStart(u, ix.spacing), zeroForOne)
      {
        InitializedInBits(ix, u);
      }
      if r.Some? {
        BeyondIsAhead(tick, at, r.value, ix.spacing, zeroForOne);
        NextOfArray(ix, tick, ArrayStart(r.value, ix.spacing), r.value, zeroForOne);
      } else {
        assert NoneAhead(ix, tick, zeroForOne) by { NoneIs(ix, tick, zeroForOne); }
      }
    }
  }

  lemma NoneIs(ix: Index, tick: int, zeroForOne: bool)
    requires forall u :: !(SlotAt(ix, u).Initialized() && Ahead(u, tick, zeroForOne))
    ensures NoneAhead(ix, tick, zeroForOne)
  {}

  /** After a tick is reached, the pool's tick by the source's rule: on the near side of the tick
      while it still has orders, on the far side otherwise. */
  function TickAfter(t: int, zeroForOne: bool, ordersLeft: bool): int {
    if zeroForOne != ordersLeft then t - 1 else t
  }

  /** What the search keeps is in order after a tick was reached, unless a swap upwards left orders at
      the first tick of an array: there the pool's tick falls into the array before. */
  lemma InOrderIff(ix: Index, ix': Index, tick: int, t: int, zeroForOne: bool)
    requires Agrees(ix) && ix'.spacing == ix.spacing && IsNext(ix, tick, zeroForOne, t)
    requires forall u :: u != t ==> SlotAt(ix', u).Initialized() == SlotAt(ix, u).Initialized()
    ensures var at, left := ArrayStart(t, ix.spacing), SlotAt(ix', t).HasOrders();
            SearchInv(ix', TickAfter(t, zeroForOne, left), at, true, zeroForOne) <==> zeroForOne || !left || t != at
  {
    hide ArrayStart, IsValidStart, Agrees;
    AgreesSpacing(ix);
    var at, left := ArrayStart(t, ix.spacing), SlotAt(ix', t).HasOrders();
    var tick' := TickAfter(t, zeroForOne, left);
    ReachedArray(ix, t);
    forall u | SlotAt(ix', u).Initialized() && Ahead(u, tick', zeroForOne)
      ensures ArrayStart(u, ix.spacing) == at || Beyond(at, ArrayStart(u, ix.spacing), zeroForOne)
    {
      if Beyond(ArrayStart(u, ix.spacing), at, zeroForOne) { FartherArray(u, t, ix.spacing, zeroForOne); }
    }
    forall u | InArray(ix', at, u)
      ensures at <= u
    {
      ArrayStartHolds(u, ix.spacing);
    }
    if !zeroForOne && left && t == at { assert InArray(ix', at, t) && Ahead(t, tick', zeroForOne); }
  }

  /** After a tick is reached the next search finds the nearest initialized tick, or none if there is
      none, with one exception: swapping upwards with orders left at the first tick of an array it
      returns a tick beyond those orders, or fails, though they lie ahead. */
  lemma SearchContinuesIff(ix: Index, ix': Index, tick: int, t: int, zeroForOne: bool, r: Option<int>)
    requires Agrees(ix) && Agrees(ix') && ix'.spacing == ix.spacing && IsNext(ix, tick, zeroForOne, t)
    requires forall u :: u != t ==> SlotAt(ix', u).Initialized() == SlotAt(ix, u).Initialized()
    requires ix'.spacing > 0
    requires Searched(ix', TickAfter(t, zeroForOne, SlotAt(ix', t).HasOrders()), ArrayStart(t, ix'.spacing), true,
             zeroForOne, r)
    ensures var left := SlotAt(ix', t).HasOrders();
            var tick' := TickAfter(t, zeroForOne, left);
            && (FindsNext(ix', tick', zeroForOne, r) <==> zeroForOne || !left || t != ArrayStart(t, ix.spacing))
            && (!FindsNext(ix', tick', zeroForOne, r) ==> Ahead(t, tick', zeroForOne) && (r.Some? ==> t < r.value))
  {
    hide ArrayStart, IsValidStart, Agrees, Slot.Initialized, Slot.HasOrders, SearchInv;
    var at, left := ArrayStart(t, ix.spacing), SlotAt(ix', t).HasOrders();
    var tick' := TickAfter(t, zeroForOne, left);
    InOrderIff(ix, ix', tick, t, zeroForOne);
    if zeroForOne || !left || t != at {
      SearchedIsNext(ix', tick', at, true, zeroForOne, r);
    } else {
      OrdersInitialize(SlotAt(ix', t));
      NextIs(ix, tick, zeroForOne, t);
      ReachedArray(ix, t);
      if r.Some? { FartherArray(t, r.value, ix.spacing, zeroForOne); }
    }
  }

  lemma OrdersInitialize(s: Slot)
    requires s.HasOrders()
    ensures s.Initialized()
  {}

  lemma ReachedArray(ix: Index, t: int)
    requires Agrees(ix) && SlotAt(ix, t).Initialized()
    ensures var at := ArrayStart(t, ix.spacing);
            && IsValidStart(at, ix.spacing) && at <= t < at + TickCount(ix.spacing)
            && (ArrayStart(t - 1, ix.spacing) == at <==> t != at)
  {
    assert ix.spacing > 0;
    hide ArrayStart, IsValidStart, Agrees, InArray, Slot.Initialized, Aligned;
    InitializedInBits(ix, t);
    BitHoldsTick(ix, ArrayStart(t, ix.spacing));
    Predecessor(t, ix.spacing);
  }

  lemma Predecessor(t: int, spacing: nat)
    requires spacing > 0
    ensures var at := ArrayStart(t, spacing);
            at <= t < at + TickCount(spacing) && (ArrayStart(t - 1, spacing) == at <==> t != at)
  {
    var at := ArrayStart(t, spacing);
    ArrayStartHolds(t, spacing);
    ArrayStartHolds(t - 1, spacing);
    hide ArrayStart;
    if t != at { StartOfMultiple(t / TickCount(spacing), spacing, t - 1); }
  }
}
