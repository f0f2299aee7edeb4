/** The oracle's ring of observations and the time-weighted tick read from it. */
module Oracle {
  import opened Types
  import opened Arith
  import opened TickMath
  import opened TickArray

  const OBSERVATION_NUM: int := 100
  const UPDATE_DURATION: int := 15
  const I64_MAX: int := 0x7fff_ffff_ffff_ffff

  datatype Observation = Observation(timestamp: u32, cumulative: int)

  const DEFAULT: Observation := Observation(0, 0)

  // ---- 64-bit signed arithmetic ----

  function SatMul64(a: int, b: int): int { Max(-I64_MAX - 1, Min(a * b, I64_MAX)) }

  /** Reduction to the signed 64-bit range. */
  function Wrap64(a: int): int {
    var m := 2 * I64_MAX + 2;
    var r := a % m;
    if r > I64_MAX then r - m else r
  }

  lemma WrapInRange(a: int)
    requires -I64_MAX - 1 <= a <= I64_MAX
    ensures Wrap64(a) == a
  {
    var m := 2 * I64_MAX + 2;
    if a >= 0 { assert a % m == a; } else { assert (a + m) % m == a + m && a % m == (a + m) % m; }
  }

  // ---- The history the ring abbreviates ----

  /** An accepted observation, with the tick that was current since the one before. */
  datatype Entry = Entry(timestamp: u32, cumulative: int, tick: int)

  function Last(h: seq<Entry>): Entry
    requires h != []
  {
    h[|h| - 1]
  }

  /** What `update` accepts: the first call, and any at least 15 seconds after the last accepted. */
  function Accept(h: seq<Entry>, timestamp: u32, tick: int): seq<Entry> {
    if h == [] then [Entry(timestamp, 0, tick)]
    else if timestamp < Last(h).timestamp + UPDATE_DURATION then h
    else h + [Entry(timestamp, Last(h).cumulative + tick * (timestamp - Last(h).timestamp), tick)]
  }

  predicate TickInRange(tick: int) { MIN_TICK <= tick <= MAX_TICK }

  predicate Follows(before: Entry, e: Entry) {
    && e.timestamp >= before.timestamp + UPDATE_DURATION
    && e.cumulative == before.cumulative + e.tick * (e.timestamp - before.timestamp)
  }

  /** Consecutive entries are spaced, and the cumulative grows by tick times time. */
  predicate Spaced(h: seq<Entry>) {
    && (forall i :: 0 <= i < |h| ==> TickInRange(h[i].tick))
    && (h != [] ==> h[0].cumulative == 0)
    && (forall i :: 0 < i < |h| ==> Follows(h[i - 1], h[i]))
  }

  lemma AcceptKeepsSpaced(h: seq<Entry>, timestamp: u32, tick: int)
    requires Spaced(h) && TickInRange(tick)
    ensures Spaced(Accept(h, timestamp, tick))
    ensures h == [] || Last(h).timestamp + UPDATE_DURATION <= timestamp <==> |Accept(h, timestamp, tick)| == |h| + 1
    ensures var h' := Accept(h, timestamp, tick);
            h <= h' && (h' != h ==> Last(h').timestamp == timestamp && Last(h').tick == tick)
  {
    var h' := Accept(h, timestamp, tick);
    if h != [] && h' != h { assert Follows(Last(h), Last(h')); }
    hide Follows;
  }

  lemma {:induction false} Increasing(h: seq<Entry>, a: nat, b: nat)
    requires Spaced(h) && a <= b < |h|
    ensures h[a].timestamp + UPDATE_DURATION * (b - a) <= h[b].timestamp
    decreases b
  {
    if a < b { Increasing(h, a, b - 1); }
  }

  /** Between two entries the cumulative moves by a multiple of the elapsed time that lies between
      the least and the greatest tick recorded in between. */
  lemma {:induction false} CumulativeBetween(h: seq<Entry>, a: nat, b: nat, lo: int, hi: int)
    requires Spaced(h) && a <= b < |h|
    requires forall j :: a < j <= b ==> lo <= h[j].tick <= hi
    ensures var dt := h[b].timestamp - h[a].timestamp;
            0 <= dt && lo * dt <= h[b].cumulative - h[a].cumulative <= hi * dt
    decreases b
  {
    if a < b {
      assert Follows(h[b - 1], h[b]);
      CumulativeBetween(h, a, b - 1, lo, hi);
      hide Spaced;
      AddInterval(lo, hi, h[b].tick, h[b - 1].timestamp - h[a].timestamp, h[b].timestamp - h[b - 1].timestamp);
    }
  }

  lemma AddInterval(lo: int, hi: int, tick: int, before: nat, step: nat)
    requires lo <= tick <= hi
    ensures lo * (before + step) <= lo * before + tick * step
    ensures hi * before + tick * step <= hi * (before + step)
  {
    MulLe(lo, tick, step);
    MulLe(tick, hi, step);
  }

  /** So the cumulative never comes near the 64-bit range: neither the saturating product nor the
      wrapping sum of `update` does anything. */
  lemma CumulativeFits(h: seq<Entry>, i: nat)
    requires Spaced(h) && i < |h|
    ensures -MAX_TICK * U32_MAX <= h[i].cumulative <= MAX_TICK * U32_MAX
  {
    CumulativeBetween(h, 0, i, MIN_TICK, MAX_TICK);
    var dt := h[i].timestamp - h[0].timestamp;
    MulLe(dt, U32_MAX, MAX_TICK);
  }

  lemma UpdateDoesNotWrap(h: seq<Entry>, timestamp: u32, tick: int)
    requires Spaced(h) && h != [] && TickInRange(tick) && Last(h).timestamp <= timestamp
    ensures var dt := timestamp - Last(h).timestamp;
            Wrap64(Last(h).cumulative + SatMul64(tick, dt)) == Last(h).cumulative + tick * dt
  {
    var dt := timestamp - Last(h).timestamp;
    CumulativeFits(h, |h| - 1);
    MulLe(MIN_TICK, tick, dt);
    MulLe(tick, MAX_TICK, dt);
    MulLe(dt, U32_MAX, MAX_TICK);
    WrapInRange(Last(h).cumulative + tick * dt);
  }

  // ---- The ring ----

  /** Entry `i` of the history as the ring stores it. */
  function Stored(h: seq<Entry>, i: nat): Observation
    requires i < |h|
  {
    Observation(h[i].timestamp, h[i].cumulative)
  }

  /** The ring holds exactly the last 100 entries, each at its number modulo 100. */
  predicate Holds(observations: seq<Observation>, index: nat, initialized: bool, h: seq<Entry>) {
    && |observations| == OBSERVATION_NUM
    && (initialized <==> h != [])
    && index == (if h == [] then 0 else (|h| - 1) % OBSERVATION_NUM)
    && (forall i :: 0 <= i < |h| && |h| - OBSERVATION_NUM <= i ==> observations[i % OBSERVATION_NUM] == Stored(h, i))
    && (forall k :: |h| <= k < OBSERVATION_NUM ==> observations[k] == DEFAULT)
  }

  class ObservationState {
    var initialized: bool
    var observationIndex: nat
    const observations: array<Observation>
    ghost var history: seq<Entry>

    ghost predicate Valid()
      reads this, observations
    {
      Spaced(history) && observations.Length == OBSERVATION_NUM
          && Holds(observations[..], observationIndex, initialized, history)
    }

    constructor ()
      ensures Valid() && history == [] && fresh(observations)
    {
      initialized := false;
      observationIndex := 0;
      observations := new Observation[OBSERVATION_NUM](_ => DEFAULT);
      history := [];
    }

    method Update(blockTimestamp: u32, tick: int)
      requires Valid() && TickInRange(tick)
      modifies this`initialized, this`observationIndex, this`history, observations
      ensures Valid() && history == Accept(old(history), blockTimestamp, tick)
    {
      hide Follows, SatMul64, Wrap64, Spaced;
      ghost var h, ring := history, observations[..];
      AcceptKeepsSpaced(h, blockTimestamp, tick);
      if !initialized {
        initialized := true;
        observations[observationIndex] := observations[observationIndex].(timestamp := blockTimestamp);
        observations[observationIndex] := observations[observationIndex].(cumulative := 0);
      } else {
        assert ring[(|h| - 1) % OBSERVATION_NUM] == Stored(h, |h| - 1);
        var lastObservation := observations[observationIndex];
        var deltaTime := Max(0, blockTimestamp - lastObservation.timestamp);
        if deltaTime < UPDATE_DURATION { return; }
        var deltaTickCumulative := SatMul64(tick, deltaTime);
        var nextObservationIndex := if observationIndex == OBSERVATION_NUM - 1 then 0 else observationIndex + 1;
        UpdateDoesNotWrap(h, blockTimestamp, tick);
        RingAdvances(ring, observationIndex, h, Last(Accept(h, blockTimestamp, tick)));
        observations[nextObservationIndex] :=
            Observation(blockTimestamp, Wrap64(lastObservation.cumulative + deltaTickCumulative));
        observationIndex := nextObservationIndex;
        assert observations[..] == ring[nextObservationIndex := Stored(Accept(h, blockTimestamp, tick), |h|)];
      }
      history := Accept(h, blockTimestamp, tick);
    }
  }

  /** Overwriting the slot after the newest keeps the last hundred entries. */
  lemma RingAdvances(ring: seq<Observation>, index: nat, h: seq<Entry>, e: Entry)
    requires h != [] && Holds(ring, index, true, h)
    ensures var next := if index == OBSERVATION_NUM - 1 then 0 else index + 1;
            && next < OBSERVATION_NUM
            && Holds(ring[next := Observation(e.timestamp, e.cumulative)], next, true, h + [e])
  {
    NextSlot(|h| - 1);
    forall i | 0 <= i < |h| && |h| + 1 - OBSERVATION_NUM <= i
      ensures i % OBSERVATION_NUM != |h| % OBSERVATION_NUM && ring[i % OBSERVATION_NUM] == Stored(h, i)
    {
      DistinctSlots(i, |h|);
    }
  }

  lemma NextSlot(i: nat)
    ensures (i + 1) % OBSERVATION_NUM == if i % OBSERVATION_NUM == OBSERVATION_NUM - 1 then 0
            else i % OBSERVATION_NUM + 1
  {}

  lemma DistinctSlots(i: nat, j: nat)
    requires i < j < i + OBSERVATION_NUM
    ensures i % OBSERVATION_NUM != j % OBSERVATION_NUM
  {}

  // ---- Reading ----

  /** The source's signed division, as `Quot`, then the cast to 32 bits. */
  function Cast32(a: int): int {
    var m := 0x1_0000_0000;
    var r := a % m;
    if r > 0x7fff_ffff then r - m else r
  }

  function Clamp(a: int): int { Max(-443636, Min(a, 443636)) }

  /** Entry `i` is the newest the ring still holds that is not after the target; a zero timestamp
      reads as no observation. */
  predicate NewestAtOrBefore(h: seq<Entry>, target: nat, i: nat) {
    && i < |h| && |h| - OBSERVATION_NUM <= i
    && h[i].timestamp != 0 && h[i].timestamp <= target
    && forall j :: i < j < |h| ==> !(h[j].timestamp != 0 && h[j].timestamp <= target)
  }

  lemma HeldEntry(h: seq<Entry>, target: nat, i: nat)
    requires NewestAtOrBefore(h, target, i)
    ensures i < |h| && |h| - OBSERVATION_NUM <= i
  {}

  predicate NoneAtOrBefore(h: seq<Entry>, target: nat) {
    forall j :: 0 <= j < |h| && |h| - OBSERVATION_NUM <= j ==> !(h[j].timestamp != 0 && h[j].timestamp <= target)
  }

  /** `find_observation_at_or_before`: the ring walked backwards from the newest. */
  method FindObservationAtOrBefore(oracle: ObservationState, target: u32) returns (r: Option<nat>)
    requires oracle.Valid()
    ensures r.Some? ==> exists i: nat :: NewestAtOrBefore(oracle.history, target, i) && r.value == i % OBSERVATION_NUM
    ensures r.None? ==> NoneAtOrBefore(oracle.history, target)
  {
    hide Follows;
    var currentIdx := oracle.observationIndex;
    ghost var h := oracle.history;
    for i := 0 to OBSERVATION_NUM
      invariant forall j :: 0 <= j < |h| && |h| - i <= j ==> !(h[j].timestamp != 0 && h[j].timestamp <= target)
    {
      var idx := (currentIdx + OBSERVATION_NUM - i) % OBSERVATION_NUM;
      BackSlot(|h|, i);
      var found := oracle.observations[idx].timestamp != 0 && oracle.observations[idx].timestamp <= target;
      if |h| - 1 - i >= 0 {
        assert oracle.observations[..][(|h| - 1 - i) % OBSERVATION_NUM] == Stored(h, |h| - 1 - i);
      } else {
        assert oracle.observations[..][idx] == DEFAULT;
      }
      if found {
        assert NewestAtOrBefore(h, target, |h| - 1 - i);
        return Some(idx);
      }
    }
    return None;
  }

  lemma BackSlot(n: nat, i: nat)
    requires i < OBSERVATION_NUM
    ensures var current := if n == 0 then 0 else (n - 1) % OBSERVATION_NUM;
            var idx := (current + OBSERVATION_NUM - i) % OBSERVATION_NUM;
            if i < n then idx == (n - 1 - i) % OBSERVATION_NUM
                else n <= OBSERVATION_NUM && (n > 0 ==> n <= idx < OBSERVATION_NUM)
  {}

  /** The tick average between two entries. */
  function Average(h: seq<Entry>, a: nat, b: nat): int
    requires a < |h| && b < |h| && h[a].timestamp < h[b].timestamp
  {
    Quot(h[b].cumulative - h[a].cumulative, h[b].timestamp - h[a].timestamp)
  }

  /** Every tick recorded after entry `a` up to entry `b` lies between the bounds. */
  predicate TicksWithin(h: seq<Entry>, a: nat, b: nat, lo: int, hi: int)
    requires b < |h|
  {
    forall j :: a < j <= b ==> lo <= h[j].tick <= hi
  }

  /** It lies between the least and the greatest tick recorded in between, so the clamp and the
      casts change nothing. */
  lemma AverageBetween(h: seq<Entry>, a: nat, b: nat, lo: int, hi: int)
    requires Spaced(h) && a < b < |h| && TicksWithin(h, a, b, lo, hi)
    ensures h[a].timestamp < h[b].timestamp && lo <= Average(h, a, b) <= hi
  {
    Increasing(h, a, b);
    CumulativeBetween(h, a, b, lo, hi);
    QuotBetween(h[b].cumulative - h[a].cumulative, h[b].timestamp - h[a].timestamp, lo, hi);
  }

  lemma QuotBetween(x: int, d: nat, lo: int, hi: int)
    requires d > 0 && lo * d <= x <= hi * d
    ensures lo <= Quot(x, d) <= hi
  {
    if x >= 0 {
      FloorIff(x, d, lo);
      FloorIff(x, d, hi + 1);
      Expand(hi, d);
    } else {
      MulNeg(lo, d);
      MulNeg(hi, d);
      FloorIff(-x, d, -hi);
      FloorIff(-x, d, 1 - lo);
      Expand(-lo, d);
    }
  }

  lemma ReadingDoesNotWrap(h: seq<Entry>, a: nat, b: nat)
    requires Spaced(h) && a < b < |h|
    ensures h[a].timestamp < h[b].timestamp
    ensures Wrap64(h[b].cumulative - h[a].cumulative) == h[b].cumulative - h[a].cumulative
    ensures Clamp(Cast32(Average(h, a, b))) == Average(h, a, b)
  {
    CumulativeFits(h, a);
    CumulativeFits(h, b);
    WrapInRange(h[b].cumulative - h[a].cumulative);
    AverageBetween(h, a, b, MIN_TICK, MAX_TICK);
    var avg := Average(h, a, b);
    if avg < 0 { assert (avg + 0x1_0000_0000) % 0x1_0000_0000 == avg + 0x1_0000_0000; }
  }

  /** A reading: the average up to the second newest entry, no older than two windows, from the
      newest entry that is at least a window old. */
  predicate Reading(h: seq<Entry>, window: nat, now: nat, a: nat, value: int) {
    && a + 2 < |h| && NewestAtOrBefore(h, Max(0, now - window), a)
    && h[a].timestamp < h[|h| - 2].timestamp < now <= h[|h| - 2].timestamp + 2 * window
    && value == Average(h, a, |h| - 2)
  }

  /** Any tick bounds that hold over the interval of a reading hold of the reading. */
  lemma ReadingBetween(h: seq<Entry>, window: nat, now: nat, a: nat, value: int, lo: int, hi: int)
    requires Spaced(h) && Reading(h, window, now, a, value) && TicksWithin(h, a, |h| - 2, lo, hi)
    ensures lo <= value <= hi
  {
    AverageBetween(h, a, |h| - 2, lo, hi);
  }

  /** The ticks recorded after entry `a` up to entry `b`, each over the time it was current. */
  function Weighted(h: seq<Entry>, a: nat, b: nat): int
    requires a <= b < |h|
  {
    if a == b then 0 else Weighted(h, a, b - 1) + h[b].tick * (h[b].timestamp - h[b - 1].timestamp)
  }

  lemma {:induction false} CumulativeIsWeighted(h: seq<Entry>, a: nat, b: nat)
    requires Spaced(h) && a <= b < |h|
    ensures h[b].cumulative - h[a].cumulative == Weighted(h, a, b)
    decreases b
  {
    if a < b {
      assert Follows(h[b - 1], h[b]);
      CumulativeIsWeighted(h, a, b - 1);
    }
  }

  /** A reading is the time-weighted average of the ticks over its interval, rounded toward zero. */
  lemma ReadingIsAverage(h: seq<Entry>, window: nat, now: nat, a: nat, value: int)
    requires Spaced(h) && Reading(h, window, now, a, value)
    ensures var total, time := Weighted(h, a, |h| - 2), h[|h| - 2].timestamp - h[a].timestamp;
            && 0 < time
            && if total >= 0 then value * time <= total < (value + 1) * time
               else (value - 1) * time < total <= value * time
  {
    var total, time: nat := Weighted(h, a, |h| - 2), h[|h| - 2].timestamp - h[a].timestamp;
    CumulativeIsWeighted(h, a, |h| - 2);
    DivBounds(if total >= 0 then total else -total, time);
    Expand(value, time);
    MulNeg(-value, time);
  }

  /** The value computed from entries `a` and the second newest, given that time passed between. */
  lemma IsReading(h: seq<Entry>, window: nat, now: nat, a: nat)
    requires Spaced(h) && |h| >= 2 && NewestAtOrBefore(h, Max(0, now - window), a)
    requires h[a].timestamp < h[|h| - 2].timestamp < now <= h[|h| - 2].timestamp + 2 * window
    ensures a + 2 < |h|
    ensures Wrap64(h[|h| - 2].cumulative - h[a].cumulative) == h[|h| - 2].cumulative - h[a].cumulative
    ensures Reading(h, window, now, a, Clamp(Cast32(Average(h, a, |h| - 2))))
  {
    hide Wrap64, Cast32, Clamp, Average, Follows;
    if a + 2 >= |h| {
      Increasing(h, |h| - 2, a);
      assert false;
    }
    ReadingDoesNotWrap(h, a, |h| - 2);
  }

  ghost predicate NoReading(h: seq<Entry>, window: nat, now: nat) {
    forall a: nat, value :: !Reading(h, window, now, a, value)
  }

  /** The tests that give up are exact. */
  lemma NoReadingIf(h: seq<Entry>, window: nat, now: nat)
    ensures NoneAtOrBefore(h, Max(0, now - window)) ==> NoReading(h, window, now)
    ensures |h| >= 2 && !(h[|h| - 2].timestamp < now <= h[|h| - 2].timestamp + 2 * window) ==> NoReading(h, window, now)
    ensures |h| >= 2 ==> forall a: nat ::
            NewestAtOrBefore(h, Max(0, now - window), a) && h[|h| - 2].timestamp <= h[a].timestamp
            ==> NoReading(h, window, now)
    ensures |h| >= 2 && h[|h| - 2].timestamp == 0 ==> NoReading(h, window, now)
  {
    hide Average;
  }

  /** `observe_twap`; `None` stands for no reading, and for an aborting 32-bit product. */
  method ObserveTwap(oracle: ObservationState, windowSeconds: u32, now: u32) returns (r: Option<int>)
    requires oracle.Valid()
    ensures r.Some? ==> exists a: nat :: Reading(oracle.history, windowSeconds, now, a, r.value)
    ensures r.None? ==>
              || oracle.observationIndex < 2 || windowSeconds * 2 > U32_MAX
              || NoReading(oracle.history, windowSeconds, now)
  {
    hide Spaced, Wrap64, Cast32, Clamp, NewestAtOrBefore, NoneAtOrBefore, Quot, Reading, NoReading;
    ghost var h := oracle.history;
    NoReadingIf(h, windowSeconds, now);
    if oracle.observationIndex == 0 { return None; }
    if oracle.observationIndex < 2 { return None; }
    var latest := oracle.observations[(oracle.observationIndex - 1) % OBSERVATION_NUM];
    BackSlot(|h|, 1);
    assert latest == oracle.observations[..][(|h| - 2) % OBSERVATION_NUM] == Stored(h, |h| - 2);
    if latest.timestamp == 0 { return None; }
    var elapsed := Max(0, now - latest.timestamp);
    if windowSeconds * 2 > U32_MAX { return None; }
    if elapsed == 0 || elapsed > windowSeconds * 2 { return None; }
    var olderIdx := FindObservationAtOrBefore(oracle, Max(0, now - windowSeconds));
    if olderIdx.None? { return None; }
    ghost var a: nat :| NewestAtOrBefore(h, Max(0, now - windowSeconds), a) && olderIdx.value == a % OBSERVATION_NUM;
    var older := oracle.observations[olderIdx.value];
    HeldEntry(h, Max(0, now - windowSeconds), a);
    assert older == oracle.observations[..][a % OBSERVATION_NUM] == Stored(h, a);
    var timeDelta := Max(0, latest.timestamp - older.timestamp);
    if timeDelta == 0 { return None; }
    IsReading(h, windowSeconds, now, a);
    var tickCumulativeDelta := Wrap64(latest.cumulative - older.cumulative);
    var avgTick := Cast32(Quot(tickCumulativeDelta, timeDelta));
    return Some(Clamp(avgTick));
  }
}
