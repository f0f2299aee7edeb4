/** Funding of a pool reward: every start, extension and rate change is paid for when it is made. */
module Rewards {
  import opened Types
  import opened Arith
  import opened FullMath
  import opened LiquidityMath

  const MIN_REWARD_PERIOD: int := 7 * 24 * 60 * 60
  const MAX_REWARD_PERIOD: int := 90 * 24 * 60 * 60
  const INCREASE_EMISSIONS_PERIOD: int := 72 * 60 * 60

  datatype Reward = Reward(openTime: u64, endTime: u64, lastUpdateTime: u64, rate: u128, totalEmitted: u64)

  /** ceil(time * rate / 2^64), as a token amount. */
  function FundingUp(time: u64, rate: u128): (r: Result<int>)
    ensures r.Ok? ==> 0 <= r.value && (r.value - 1) * Q64 < time * rate <= r.value * Q64
  {
    MulLe(0, time, rate);
    var amount := CeilDiv(time * rate, Q64);
    if amount > U64_MAX then Err(Panic) else Ok(amount)
  }

  /** floor(time * rate / 2^64). */
  function FundingDown(time: u64, rate: u128): (r: Result<int>)
    ensures r.Ok? ==> 0 <= r.value && r.value * Q64 <= time * rate < r.value * Q64 + Q64
  {
    MulLe(0, time, rate);
    DivBounds(time * rate, Q64);
    var amount := time * rate / Q64;
    if amount > U64_MAX then Err(Panic) else Ok(amount)
  }

  /** The widened products and their quotients never overflow, so `mul_div` never returns `None`. */
  lemma FundingFits(time: u64, rate: u128)
    ensures MulDivCeil(time, rate, Q64, U256_MAX).Some? && MulDivFloor(time, rate, Q64, U256_MAX).Some?
    ensures FundingUp(time, rate).Ok? ==> MulDivCeil(time, rate, Q64, U256_MAX).value == FundingUp(time, rate).value
    ensures FundingDown(time, rate).Ok?
            ==> MulDivFloor(time, rate, Q64, U256_MAX).value == FundingDown(time, rate).value
  {
    MulLe(0, time, rate);
    MulLe(time, U64_MAX, rate);
    MulLe(rate, U128_MAX, U64_MAX);
    CeilUnique(time * rate, Q64, MulDivCeil(time, rate, Q64, U256_MAX).value);
    FloorUnique(time * rate, Q64, MulDivFloor(time, rate, Q64, U256_MAX).value);
  }

  /** The reward accrues: it has begun, some time has passed and there is liquidity to earn it. */
  predicate Accrues(r: Reward, now: u64, liquidity: u128) {
    r.totalEmitted != U64_MAX && now > r.openTime && liquidity != 0 && Min(now, r.endTime) > r.lastUpdateTime
  }

  /** The growth per unit of liquidity an accrual adds: of the emission, rounded down, or of what the total
      still has room for. */
  function GrowthDelta(r: Reward, now: u64, liquidity: u128): nat
    requires Accrues(r, now, liquidity)
  {
    hide CeilDiv;
    var time: nat := Min(now, r.endTime) - r.lastUpdateTime;
    MulLe(0, time, r.rate);
    Per(if r.totalEmitted + CeilDiv(time * r.rate, Q64) > U64_MAX then (U64_MAX - r.totalEmitted) * Q64
        else time * r.rate, liquidity)
  }

  function Per(amount: nat, liquidity: nat): nat
    requires liquidity > 0
  {
    FloorIff(amount, liquidity, 0);
    amount / liquidity
  }

  /** What `update_reward_infos` does to one reward but for its growth. */
  function Accrue(r: Reward, now: u64, liquidity: u128): Result<Reward> {
    if r.totalEmitted == U64_MAX || now <= r.openTime then Ok(r)
    else
      var latest := Min(now, r.endTime);
      if liquidity == 0 then Ok(r.(lastUpdateTime := latest))
      else if latest <= r.lastUpdateTime then Ok(r)
      else
        var emitted :- FundingUp(latest - r.lastUpdateTime, r.rate);
        if GrowthDelta(r, now, liquidity) > U128_MAX then Err(Panic)
        else Ok(r.(lastUpdateTime := latest, totalEmitted := Min(r.totalEmitted + emitted, U64_MAX)))
  }

  /** A new cycle, funded in full. */
  function StartCycle(r: Reward, rate: u128, openTime: u64, endTime: u64): Result<(Reward, int)>
    requires openTime <= endTime
  {
    var amount :- FundingUp(endTime - openTime, rate);
    Ok((r.(openTime := openTime, lastUpdateTime := openTime, endTime := endTime, rate := rate), amount))
  }

  /** A change while the cycle runs: the dearer remaining time and the extension, each rounded down. */
  function ChangeCycle(r: Reward, now: u64, rate: u128, extend: u64, endTime: u64): Result<(Reward, int)>
    requires now <= r.endTime
  {
    var dearer :- FundingDown(r.endTime - now, Max(0, rate - r.rate));
    var longer :- FundingDown(extend, rate);
    if dearer + longer > U64_MAX then Err(CalculateOverflow)
    else Ok((r.(rate := rate, endTime := endTime), dearer + longer))
  }

  function NormalUpdate(r: Reward, now: u64, rate: u128, openTime: u64, endTime: u64): Result<(Reward, int)> {
    if r.lastUpdateTime == r.endTime then
      if endTime < openTime then Err(CalculateOverflow)
      else if endTime - openTime < MIN_REWARD_PERIOD || endTime - openTime > MAX_REWARD_PERIOD
          then Err(InvalidRewardPeriod)
      else StartCycle(r, rate, openTime, endTime)
    else if r.endTime < now || endTime < r.endTime then Err(CalculateOverflow)
    else
      var extend := endTime - r.endTime;
      if extend < MIN_REWARD_PERIOD || extend > MAX_REWARD_PERIOD then Err(NotApproveUpdateRewardEmissions)
      else if rate < r.rate && INCREASE_EMISSIONS_PERIOD <= r.endTime - now then Err(RequireViolated)
      else ChangeCycle(r, now, rate, extend, endTime)
  }

  function AdminUpdate(r: Reward, now: u64, rate: u128, openTime: u64, endTime: u64): Result<(Reward, int)> {
    if r.lastUpdateTime == r.endTime || r.openTime > now then
      if endTime < openTime then Err(CalculateOverflow)
      else if endTime == openTime then Err(InvalidRewardPeriod)
      else StartCycle(r, rate, openTime, endTime)
    else if r.endTime < now then Err(CalculateOverflow)
    else ChangeCycle(r, now, rate, Max(0, endTime - r.endTime), endTime)
  }

  /** `set_reward_params` for an initialized reward: the new reward and the amount to transfer. */
  function SetParams(r: Reward, admin: bool, now: u64, liquidity: u128, rate: u128, openTime: u64,
      endTime: u64): Result<(Reward, int)> {
    if endTime <= openTime || rate == 0 || openTime <= now then Err(RequireViolated)
    else
      var accrued :- Accrue(r, now, liquidity);
      if !admin && now <= accrued.openTime then Err(NotApproved)
      else
        var u :- if admin then AdminUpdate(accrued, now, rate, openTime, endTime)
            else NormalUpdate(accrued, now, rate, openTime, endTime);
        if accrued.totalEmitted + u.1 > U64_MAX then Err(MaxTokenOverflow) else Ok(u)
  }

  /** `initialize_reward`, with `InitializeRewardParam::check`. */
  function InitReward(now: u64, rate: u128, openTime: u64, endTime: u64): Result<(Reward, int)> {
    if openTime >= endTime || openTime < now || rate == 0 then Err(InvalidRewardPeriod)
    else if endTime - openTime < MIN_REWARD_PERIOD || endTime - openTime > MAX_REWARD_PERIOD
        then Err(InvalidRewardPeriod)
    else
      var amount :- FundingUp(endTime - openTime, rate);
      Ok((Reward(openTime, endTime, openTime, rate, 0), amount))
  }

  // ---- Objects ----

  class RewardInfo {
    var openTime: u64
    var endTime: u64
    var lastUpdateTime: u64
    var emissionsPerSecondX64: u128
    var rewardTotalEmitted: u64

    function Value(): Reward
      reads this
    {
      Reward(openTime, endTime, lastUpdateTime, emissionsPerSecondX64, rewardTotalEmitted)
    }

    constructor (reward: Reward)
      ensures Value() == reward
    {
      openTime, endTime, lastUpdateTime := reward.openTime, reward.endTime, reward.lastUpdateTime;
      emissionsPerSecondX64, rewardTotalEmitted := reward.rate, reward.totalEmitted;
    }

    method Normal(now: u64, rate: u128, newOpenTime: u64, newEndTime: u64) returns (r: Result<int>)
      modifies this
      ensures var u := NormalUpdate(old(Value()), now, rate, newOpenTime, newEndTime);
              && (r.Ok? <==> u.Ok?)
              && (r.Ok? ==> r.value == u.value.1 && Value() == u.value.0)
    {
      hide FundingUp, FundingDown;
      var rewardAmount := 0;
      if lastUpdateTime == endTime {
        if newEndTime < newOpenTime { return Err(CalculateOverflow); }
        var timeDelta := newEndTime - newOpenTime;
        if timeDelta < MIN_REWARD_PERIOD || timeDelta > MAX_REWARD_PERIOD { return Err(InvalidRewardPeriod); }
        rewardAmount :- FundingUp(timeDelta, rate);
        openTime := newOpenTime;
        lastUpdateTime := newOpenTime;
        endTime := newEndTime;
        emissionsPerSecondX64 := rate;
      } else {
        if endTime < now { return Err(CalculateOverflow); }
        var leftRewardTime := endTime - now;
        if newEndTime < endTime { return Err(CalculateOverflow); }
        var extendPeriod := newEndTime - endTime;
        if extendPeriod < MIN_REWARD_PERIOD || extendPeriod > MAX_REWARD_PERIOD {
          return Err(NotApproveUpdateRewardEmissions);
        }
        if rate < emissionsPerSecondX64 {
          if !(INCREASE_EMISSIONS_PERIOD > leftRewardTime) { return Err(RequireViolated); }
        }
        var emissionDiffX64 := Max(0, rate - emissionsPerSecondX64);
        rewardAmount :- FundingDown(leftRewardTime, emissionDiffX64);
        emissionsPerSecondX64 := rate;
        if extendPeriod > 0 {
          var rewardAmountDiff :- FundingDown(extendPeriod, emissionsPerSecondX64);
          if rewardAmount + rewardAmountDiff > U64_MAX { return Err(CalculateOverflow); }
          rewardAmount := rewardAmount + rewardAmountDiff;
          endTime := newEndTime;
        }
      }
      r := Ok(rewardAmount);
    }

    method Admin(now: u64, rate: u128, newOpenTime: u64, newEndTime: u64) returns (r: Result<int>)
      modifies this
      ensures var u := AdminUpdate(old(Value()), now, rate, newOpenTime, newEndTime);
              && (r.Ok? <==> u.Ok?)
              && (r.Ok? ==> r.value == u.value.1 && Value() == u.value.0)
    {
      hide FundingUp, FundingDown;
      var rewardAmount := 0;
      if lastUpdateTime == endTime || openTime > now {
        if newEndTime < newOpenTime { return Err(CalculateOverflow); }
        var timeDelta := newEndTime - newOpenTime;
        if timeDelta == 0 { return Err(InvalidRewardPeriod); }
        rewardAmount :- FundingUp(timeDelta, rate);
        openTime := newOpenTime;
        lastUpdateTime := newOpenTime;
        endTime := newEndTime;
        emissionsPerSecondX64 := rate;
      } else {
        if endTime < now { return Err(CalculateOverflow); }
        var leftRewardTime := endTime - now;
        var extendPeriod := Max(0, newEndTime - endTime);
        var emissionDiffX64 := Max(0, rate - emissionsPerSecondX64);
        rewardAmount :- FundingDown(leftRewardTime, emissionDiffX64);
        emissionsPerSecondX64 := rate;
        var rewardAmountDiff :- FundingDown(extendPeriod, emissionsPerSecondX64);
        if rewardAmount + rewardAmountDiff > U64_MAX { return Err(CalculateOverflow); }
        rewardAmount := rewardAmount + rewardAmountDiff;
        endTime := newEndTime;
      }
      r := Ok(rewardAmount);
    }
  }

  // ---- Every run of one reward ----

  /** The reward with its ledger: the time of the last instruction, the tokens deposited, the
      emission scheduled up to that time in Q64.64, how often a running cycle was changed, what the
      growth credits the active liquidity with in Q64.64, how often it accrued, what was emitted while there
      was no liquidity, and what rounding may have kept from the growth. */
  datatype Ledger = Ledger(reward: Reward, now: u64, deposits: nat, emitted: nat, changes: nat, credited: nat,
      accruals: nat, idle: nat, dust: nat)

  /** The growth of an accrual over the liquidity that earns it. */
  function Credit(r: Reward, now: u64, liquidity: u128): nat {
    hide GrowthDelta;
    if Accrues(r, now, liquidity) then
      MulLe(0, GrowthDelta(r, now, liquidity), liquidity);
      GrowthDelta(r, now, liquidity) * liquidity
    else 0
  }

  function Booked(l: Ledger, r: Reward, now: u64, liquidity: u128): Ledger {
    l.(credited := l.credited + Credit(r, now, liquidity),
       accruals := l.accruals + (if Accrues(r, now, liquidity) then 1 else 0),
       idle := l.idle + (if liquidity == 0 then Unaccrued(r, now) else 0),
       dust := l.dust + (if Accrues(r, now, liquidity) then liquidity - 1 else 0))
  }

  /** Seconds of the cycle between two times. */
  function Running(r: Reward, from: u64, to: u64): nat {
    Max(0, Min(to, r.endTime) - Max(from, r.openTime))
  }

  /** Emission of the cycle that has passed and is not accrued yet. */
  function Unaccrued(r: Reward, now: u64): nat {
    MulLe(0, r.rate, Running(r, r.lastUpdateTime, now));
    r.rate * Running(r, r.lastUpdateTime, now)
  }

  /** Still to be emitted after `now`. */
  function Scheduled(r: Reward, now: u64): nat {
    MulLe(0, r.rate, Running(r, now, U64_MAX));
    r.rate * Running(r, now, U64_MAX)
  }

  datatype Step =
    | Touch(now: u64, liquidity: u128)
    | Set(admin: bool, now: u64, liquidity: u128, rate: u128, openTime: u64, endTime: u64)

  /** Time passes at the current rate. */
  function Pass(l: Ledger, now: u64): Ledger
    requires l.now <= now
  {
    MulLe(0, l.reward.rate, Running(l.reward, l.now, now));
    l.(now := now, emitted := l.emitted + l.reward.rate * Running(l.reward, l.now, now))
  }

  /** An update changes a running cycle when it does not start a new one. */
  predicate ChangesCycle(accrued: Reward, admin: bool, now: u64) {
    accrued.lastUpdateTime != accrued.endTime && !(admin && accrued.openTime > now)
  }

  /** The clock does not run backwards; a failing instruction changes nothing. */
  function Apply(l: Ledger, step: Step): Ledger {
    hide Accrue, SetParams, Pass, Booked;
    if step.now < l.now then l
    else
      var p := Pass(l, step.now);
      match step
      case Touch(now, liquidity) =>
        (match Accrue(l.reward, now, liquidity)
         case Err(_) => p
         case Ok(r) => Booked(p.(reward := r), l.reward, now, liquidity))
      case Set(admin, now, liquidity, rate, openTime, endTime) =>
        (match SetParams(l.reward, admin, now, liquidity, rate, openTime, endTime)
         case Err(_) => p
         case Ok(u) =>
           match Accrue(l.reward, now, liquidity)
           case Err(_) => p
           case Ok(accrued) =>
             Booked(p.(reward := u.0, deposits := l.deposits + Max(0, u.1),
                       changes := l.changes + if ChangesCycle(accrued, admin, now) then 1 else 0),
                    l.reward, now, liquidity))
  }

  /** Deposits cover what has been and what will be emitted, but for less than two token units per
      change of a running cycle. */
  predicate Funded(l: Ledger) {
    && l.emitted + Scheduled(l.reward, l.now) <= (l.deposits + 2 * l.changes) * Q64
    && (l.changes > 0 ==> l.emitted + Scheduled(l.reward, l.now) < (l.deposits + 2 * l.changes) * Q64)
  }

  predicate Timed(l: Ledger) {
    var r := l.reward;
    && r.openTime < r.endTime && r.openTime <= r.lastUpdateTime <= r.endTime
    && r.lastUpdateTime <= Max(r.openTime, l.now)
  }

  lemma AccrueKeepsSchedule(r: Reward, now: u64, liquidity: u128)
    requires Accrue(r, now, liquidity).Ok?
    ensures var a := Accrue(r, now, liquidity).value;
            && a.openTime == r.openTime && a.endTime == r.endTime && a.rate == r.rate
            && a.totalEmitted >= r.totalEmitted
            && (a.lastUpdateTime == r.lastUpdateTime || (r.openTime < now && a.lastUpdateTime == Min(now, r.endTime)))
            && Scheduled(a, now) == Scheduled(r, now)
  {
    hide FundingUp, GrowthDelta;
  }

  /** Time only moves emission from scheduled to emitted. */
  lemma PassKeeps(l: Ledger, now: u64)
    requires Timed(l) && Funded(l) && l.now <= now
    ensures Timed(Pass(l, now)) && Funded(Pass(l, now))
  {
    Distribute(l.reward.rate, Running(l.reward, l.now, now), Running(l.reward, now, U64_MAX));
    assert Running(l.reward, l.now, now) + Running(l.reward, now, U64_MAX) == Running(l.reward, l.now, U64_MAX);
  }

  lemma StartFunds(r: Reward, now: u64, rate: u128, openTime: u64, endTime: u64)
    requires now < openTime < endTime && StartCycle(r, rate, openTime, endTime).Ok?
    ensures var (r', amount) := StartCycle(r, rate, openTime, endTime).value;
            && 0 <= amount && Scheduled(r', now) <= amount * Q64 < Scheduled(r', now) + Q64
            && r'.openTime == r'.lastUpdateTime == openTime && r'.endTime == endTime && r'.rate == rate
  {}

  lemma ChangeIs(r: Reward, now: u64, rate: u128, extend: u64, endTime: u64)
    requires now <= r.endTime && ChangeCycle(r, now, rate, extend, endTime).Ok?
    ensures FundingDown(r.endTime - now, Max(0, rate - r.rate)).Ok? && FundingDown(extend, rate).Ok?
    ensures ChangeCycle(r, now, rate, extend, endTime).value
            == (r.(rate := rate, endTime := endTime),
                FundingDown(r.endTime - now, Max(0, rate - r.rate)).value + FundingDown(extend, rate).value)
  {
    hide FundingDown;
  }

  lemma ScheduledIs(r: Reward, now: u64)
    requires r.openTime <= now <= r.endTime
    ensures Scheduled(r, now) == r.rate * (r.endTime - now)
  {}

  /** A reward starts with the rate and the times asked for, and its whole cycle deposited, rounded up. */
  lemma InitFunds(now: u64, rate: u128, openTime: u64, endTime: u64)
    requires InitReward(now, rate, openTime, endTime).Ok?
    ensures var (r, amount) := InitReward(now, rate, openTime, endTime).value;
            && r == Reward(openTime, endTime, openTime, rate, 0)
            && Scheduled(r, now) <= amount * Q64 < Scheduled(r, now) + Q64
  {
    hide FundingUp;
    var (r, amount) := InitReward(now, rate, openTime, endTime).value;
    assert Running(r, now, U64_MAX) == endTime - openTime;
  }

  /** A change costs at least what it adds to the schedule, less two token units, and no more than that unless it
      lowers the rate or brings the end forward, which earns nothing back. */
  lemma ChangeFunds(r: Reward, now: u64, rate: u128, extend: u64, endTime: u64)
    requires r.openTime <= now <= r.endTime && now < endTime && extend == Max(0, endTime - r.endTime)
    requires ChangeCycle(r, now, rate, extend, endTime).Ok?
    ensures var (r', amount) := ChangeCycle(r, now, rate, extend, endTime).value;
            && 0 <= amount && Scheduled(r', now) < Scheduled(r, now) + amount * Q64 + 2 * Q64
            && (rate >= r.rate && endTime >= r.endTime ==> amount * Q64 <= Scheduled(r', now) - Scheduled(r, now))
            && (rate <= r.rate && endTime <= r.endTime ==> amount == 0)
  {
    var left, diff := r.endTime - now, Max(0, rate - r.rate);
    var (r', amount) := ChangeCycle(r, now, rate, extend, endTime).value;
    var dearer, longer := FundingDown(left, diff).value, FundingDown(extend, rate).value;
    ChangeIs(r, now, rate, extend, endTime);
    ScheduledIs(r, now);
    ScheduledIs(r', now);
    hide FundingDown, ChangeCycle, Scheduled;
    MulLe(endTime - now, left + extend, rate);
    Distribute(rate, left, extend);
    MulLe(rate, r.rate + diff, left);
    Distribute(left, r.rate, diff);
  }

  /** A successful update sets the rate and the times asked for, and what it adds to the schedule is deposited:
      rounded up for a new cycle, less two token units if it changed a running one. */
  lemma SetFunds(r: Reward, admin: bool, now: u64, liquidity: u128, rate: u128, openTime: u64, endTime: u64)
    requires r.openTime < r.endTime && r.openTime <= r.lastUpdateTime <= r.endTime
             && r.lastUpdateTime <= Max(r.openTime, now)
    requires SetParams(r, admin, now, liquidity, rate, openTime, endTime).Ok?
    ensures Accrue(r, now, liquidity).Ok?
    ensures var (r', amount) := SetParams(r, admin, now, liquidity, rate, openTime, endTime).value;
            && 0 <= amount
            && r'.openTime < r'.endTime && r'.openTime <= r'.lastUpdateTime <= r'.endTime
               && r'.lastUpdateTime <= Max(r'.openTime, now)
            && r'.rate == rate && r'.endTime == endTime
            && if ChangesCycle(Accrue(r, now, liquidity).value, admin, now) then
                 && r'.openTime == r.openTime
                 && Scheduled(r', now) < Scheduled(r, now) + amount * Q64 + 2 * Q64
                 && (rate >= r.rate && endTime >= r.endTime ==>
                       amount * Q64 <= Scheduled(r', now) - Scheduled(r, now))
                 && (rate <= r.rate && endTime <= r.endTime ==> amount == 0)
               else
                 && r'.openTime == openTime
                 && Scheduled(r', now) <= amount * Q64 < Scheduled(r', now) + Q64
  {
    hide Accrue, ChangeCycle, StartCycle, Scheduled, FundingUp, FundingDown;
    AccrueKeepsSchedule(r, now, liquidity);
    var a := Accrue(r, now, liquidity).value;
    if ChangesCycle(a, admin, now) {
      var extend := Max(0, endTime - a.endTime);
      ChangeFunds(a, now, rate, extend, endTime);
      ChangeIs(a, now, rate, extend, endTime);
    } else {
      StartFunds(a, now, rate, openTime, endTime);
    }
  }

  lemma StepKeepsFunded(l: Ledger, step: Step)
    requires Timed(l) && Funded(l)
    ensures Timed(Apply(l, step)) && Funded(Apply(l, step))
  {
    hide Accrue, SetParams, Scheduled, Pass, ChangesCycle, Credit, Accrues;
    if step.now >= l.now {
      PassKeeps(l, step.now);
      PassIs(l, step.now);
      match step {
        case Touch(now, liquidity) =>
          if Accrue(l.reward, now, liquidity).Ok? { AccrueKeepsSchedule(l.reward, now, liquidity); }
        case Set(admin, now, liquidity, rate, openTime, endTime) =>
          if SetParams(l.reward, admin, now, liquidity, rate, openTime, endTime).Ok? {
            SetFunds(l.reward, admin, now, liquidity, rate, openTime, endTime);
          }
      }
    }
  }

  lemma PassIs(l: Ledger, now: u64)
    requires l.now <= now
    ensures var p := Pass(l, now);
            p.reward == l.reward && p.now == now && p.deposits == l.deposits && p.changes == l.changes
                && p.emitted >= l.emitted
  {
    MulLe(0, l.reward.rate, Running(l.reward, l.now, now));
  }

  function Started(now: u64, rate: u128, openTime: u64, endTime: u64): Ledger
    requires InitReward(now, rate, openTime, endTime).Ok?
  {
    var u := InitReward(now, rate, openTime, endTime).value;
    Ledger(u.0, now, Max(0, u.1), 0, 0, 0, 0, 0, 0)
  }

  function Run(l: Ledger, steps: seq<Step>): Ledger {
    if steps == [] then l else Apply(Run(l, steps[..|steps| - 1]), steps[|steps| - 1])
  }

  lemma {:induction false} RunKeepsFunded(l: Ledger, steps: seq<Step>)
    requires Timed(l) && Funded(l)
    ensures Timed(Run(l, steps)) && Funded(Run(l, steps))
    decreases |steps|
  {
    hide Timed, Funded, Apply;
    if steps != [] {
      RunKeepsFunded(l, steps[..|steps| - 1]);
      StepKeepsFunded(Run(l, steps[..|steps| - 1]), steps[|steps| - 1]);
    }
  }

  /** After any sequence of cycle starts, extensions and rate changes, by the funder or an
      administrator: the deposits cover everything emitted and still scheduled, but for less than
      two token units for each change of a running cycle, and outright if there was none. */
  lemma DepositsCoverEmission(now: u64, rate: u128, openTime: u64, endTime: u64, steps: seq<Step>)
    requires InitReward(now, rate, openTime, endTime).Ok?
    ensures var l := Run(Started(now, rate, openTime, endTime), steps);
            && (l.changes == 0 ==> l.emitted + Scheduled(l.reward, l.now) <= l.deposits * Q64)
            && (l.changes > 0 ==> l.emitted + Scheduled(l.reward, l.now) < (l.deposits + 2 * l.changes) * Q64)
  {
    hide Run, Apply;
    var l := Started(now, rate, openTime, endTime);
    InitFunds(now, rate, openTime, endTime);
    hide Scheduled;
    RunKeepsFunded(l, steps);
  }

  // ---- What accrual credits ----

  /** The growth credits no more than the total counts and no more than has been emitted, the total counts at
      most one unit more per accrual, and what is not accrued yet is still to come. While the total has room the
      growth credits all that was emitted while there was liquidity, but for the dust. */
  predicate Credited(l: Ledger) {
    && l.credited <= l.reward.totalEmitted * Q64
    && l.credited <= l.emitted && l.reward.totalEmitted * Q64 <= l.emitted + l.accruals * Q64
    && (l.reward.totalEmitted != U64_MAX ==>
          && l.credited + Unaccrued(l.reward, l.now) <= l.emitted
          && l.reward.totalEmitted * Q64 + Unaccrued(l.reward, l.now) <= l.emitted + l.accruals * Q64
          && l.emitted <= l.credited + l.idle + l.dust + Unaccrued(l.reward, l.now))
  }

  lemma PassKeepsCredited(l: Ledger, now: u64)
    requires Timed(l) && Credited(l) && l.now <= now
    ensures Credited(Pass(l, now))
  {
    var r := l.reward;
    MulLe(0, r.rate, Running(r, l.now, now));
    Distribute(r.rate, Running(r, r.lastUpdateTime, l.now), Running(r, l.now, now));
    assert Running(r, r.lastUpdateTime, l.now) + Running(r, l.now, now) == Running(r, r.lastUpdateTime, now);
  }

  /** What an accrual is to credit: the emission since the last, or what the total has room for. */
  function Due(r: Reward, now: u64): nat {
    MulLe(r.totalEmitted, U64_MAX, Q64);
    Min(Unaccrued(r, now), (U64_MAX - r.totalEmitted) * Q64)
  }

  /** One accrual credits what is due, rounded down to growth, and the total takes it in rounded up. */
  lemma AccrueCredits(r: Reward, now: u64, liquidity: u128)
    requires r.openTime < r.endTime && r.openTime <= r.lastUpdateTime <= r.endTime && Accrue(r, now, liquidity).Ok?
    ensures var a := Accrue(r, now, liquidity).value;
            && r.totalEmitted <= a.totalEmitted
            && Credit(r, now, liquidity) <= (a.totalEmitted - r.totalEmitted) * Q64
            && Credit(r, now, liquidity) <= Unaccrued(r, now)
            && (a.totalEmitted - r.totalEmitted) * Q64
               <= (if Accrues(r, now, liquidity) then Unaccrued(r, now) + Q64 else 0)
            && (r.totalEmitted != U64_MAX ==> Unaccrued(a, now) == 0)
            && (Accrues(r, now, liquidity) ==>
                  && Credit(r, now, liquidity) <= Due(r, now) < Credit(r, now, liquidity) + liquidity
                  && Due(r, now) <= (a.totalEmitted - r.totalEmitted) * Q64 < Due(r, now) + Q64)
            && (!Accrues(r, now, liquidity) ==>
                  && Credit(r, now, liquidity) == 0
                  && (r.totalEmitted == U64_MAX || liquidity == 0 || Unaccrued(r, now) == 0))
  {
    if Accrues(r, now, liquidity) {
      var time := Min(now, r.endTime) - r.lastUpdateTime;
      UnaccruedIs(r, now, time);
      hide Unaccrued;
      GrowthCredits(r, now, liquidity, time);
      hide GrowthDelta, Credit;
      TotalTakesIn(r, now, liquidity, time);
      NothingRunning(Accrue(r, now, liquidity).value, now);
    } else {
      hide GrowthDelta;
      NothingAccrues(r, now, liquidity);
    }
  }

  lemma UnaccruedIs(r: Reward, now: u64, time: nat)
    requires r.openTime <= r.lastUpdateTime && now > r.openTime && time == Min(now, r.endTime) - r.lastUpdateTime
    ensures Unaccrued(r, now) == time * r.rate
  {
    assert Running(r, r.lastUpdateTime, now) == time;
  }

  /** Without an accrual nothing is due, unless the total is full or there is no liquidity. */
  lemma NothingAccrues(r: Reward, now: u64, liquidity: u128)
    requires r.openTime < r.endTime && r.openTime <= r.lastUpdateTime <= r.endTime
    requires !Accrues(r, now, liquidity) && Accrue(r, now, liquidity).Ok?
    ensures var a := Accrue(r, now, liquidity).value;
            && a.totalEmitted == r.totalEmitted && 0 <= Unaccrued(r, now)
            && (r.totalEmitted == U64_MAX || liquidity == 0 || Unaccrued(r, now) == 0)
            && (r.totalEmitted != U64_MAX ==> Unaccrued(a, now) == 0)
  {
    hide GrowthDelta, FundingUp;
    var a := Accrue(r, now, liquidity).value;
    UnaccruedNat(r, now);
    if now <= r.openTime || Min(now, r.endTime) <= r.lastUpdateTime { NothingRunning(r, now); }
    if now <= a.lastUpdateTime || a.endTime <= a.lastUpdateTime { NothingRunning(a, now); }
  }

  lemma GrowthCredits(r: Reward, now: u64, liquidity: u128, time: nat)
    requires Accrues(r, now, liquidity) && time == Min(now, r.endTime) - r.lastUpdateTime
    ensures 0 <= time * r.rate
    ensures var emitted := CeilDiv(time * r.rate, Q64);
            && Credit(r, now, liquidity) <= time * r.rate
            && Credit(r, now, liquidity) <= (Min(r.totalEmitted + emitted, U64_MAX) - r.totalEmitted) * Q64
            && Min(time * r.rate, (U64_MAX - r.totalEmitted) * Q64) < Credit(r, now, liquidity) + liquidity
  {
    MulLe(0, time, r.rate);
    var exact, room := time * r.rate, (U64_MAX - r.totalEmitted) * Q64;
    DivBounds(exact, liquidity);
    DivBounds(room, liquidity);
    hide CeilDiv;
    CeilIff(exact, Q64, U64_MAX - r.totalEmitted);
    CeilIff(exact, Q64, CeilDiv(exact, Q64));
  }

  lemma TotalTakesIn(r: Reward, now: u64, liquidity: u128, time: nat)
    requires Accrues(r, now, liquidity) && time == Min(now, r.endTime) - r.lastUpdateTime
             && Accrue(r, now, liquidity).Ok?
    ensures 0 <= time * r.rate
    ensures var a := Accrue(r, now, liquidity).value;
            && a.totalEmitted == Min(r.totalEmitted + CeilDiv(time * r.rate, Q64), U64_MAX)
            && (a.totalEmitted - r.totalEmitted) * Q64 <= time * r.rate + Q64
            && Min(time * r.rate, (U64_MAX - r.totalEmitted) * Q64) <= (a.totalEmitted - r.totalEmitted) * Q64
            && (a.totalEmitted - r.totalEmitted) * Q64 < Min(time * r.rate, (U64_MAX - r.totalEmitted) * Q64) + Q64
            && a.lastUpdateTime == Min(now, r.endTime)
               && a == r.(lastUpdateTime := a.lastUpdateTime, totalEmitted := a.totalEmitted)
  {
    hide GrowthDelta;
    MulLe(0, time, r.rate);
  }

  /** A changed reward has nothing unaccrued while its total has room. */
  lemma SetIsAccrued(r: Reward, admin: bool, now: u64, liquidity: u128, rate: u128, openTime: u64, endTime: u64)
    requires r.openTime < r.endTime && r.openTime <= r.lastUpdateTime <= r.endTime
    requires SetParams(r, admin, now, liquidity, rate, openTime, endTime).Ok?
    ensures Accrue(r, now, liquidity).Ok?
    ensures var r' := SetParams(r, admin, now, liquidity, rate, openTime, endTime).value.0;
            && r'.totalEmitted == Accrue(r, now, liquidity).value.totalEmitted
            && (r.totalEmitted != U64_MAX ==> Unaccrued(r', now) == 0)
  {
    hide FundingUp, FundingDown, GrowthDelta, StartCycle, ChangeCycle;
    var a := Accrue(r, now, liquidity).value;
    var r' := SetParams(r, admin, now, liquidity, rate, openTime, endTime).value.0;
    if ChangesCycle(a, admin, now) {
      ChangeIs(a, now, rate, Max(0, endTime - a.endTime), endTime);
    } else {
      StartIs(a, rate, openTime, endTime);
    }
    if r.totalEmitted != U64_MAX { NothingRunning(r', now); }
  }

  lemma StartIs(r: Reward, rate: u128, openTime: u64, endTime: u64)
    requires openTime <= endTime && StartCycle(r, rate, openTime, endTime).Ok?
    ensures StartCycle(r, rate, openTime, endTime).value.0
            == r.(openTime := openTime, lastUpdateTime := openTime, endTime := endTime, rate := rate)
  {
    hide FundingUp;
  }

  lemma NothingRunning(r: Reward, now: u64)
    requires now <= r.lastUpdateTime || r.endTime <= r.lastUpdateTime
    ensures Unaccrued(r, now) == 0
  {}

  lemma BookedKeeps(p: Ledger, r': Reward, deposits: nat, changes: nat, now: u64, liquidity: u128)
    requires Credited(p) && p.now == now
    requires Credit(p.reward, now, liquidity) <= (r'.totalEmitted - p.reward.totalEmitted) * Q64
    requires Credit(p.reward, now, liquidity) <= Unaccrued(p.reward, now)
    requires p.reward.totalEmitted == U64_MAX ==> !Accrues(p.reward, now, liquidity)
    requires (r'.totalEmitted - p.reward.totalEmitted) * Q64
             <= if Accrues(p.reward, now, liquidity) then Unaccrued(p.reward, now) + Q64 else 0
    requires p.reward.totalEmitted != U64_MAX ==> Unaccrued(r', now) == 0
    requires r'.totalEmitted != U64_MAX ==>
               Unaccrued(p.reward, now) <= Credit(p.reward, now, liquidity)
                   + (if liquidity == 0 then Unaccrued(p.reward, now) else 0)
                   + (if Accrues(p.reward, now, liquidity) then liquidity - 1 else 0)
    requires p.reward.totalEmitted == U64_MAX ==> r'.totalEmitted == U64_MAX
    ensures Credited(Booked(p.(reward := r', deposits := deposits, changes := changes), p.reward, now, liquidity))
  {
    hide Credit, Accrues, Unaccrued;
    NothingCredited(p.reward, now, liquidity);
    UnaccruedNat(p.reward, now);
  }

  lemma NothingCredited(r: Reward, now: u64, liquidity: u128)
    ensures !Accrues(r, now, liquidity) ==> Credit(r, now, liquidity) == 0
  {
    hide Accrues, GrowthDelta;
  }

  lemma UnaccruedNat(r: Reward, now: u64)
    ensures 0 <= Unaccrued(r, now)
  {}

  lemma StepKeepsCredited(l: Ledger, step: Step)
    requires Timed(l) && Credited(l)
    ensures Credited(Apply(l, step))
  {
    hide Accrue, SetParams, Pass, ChangesCycle, Credit, Unaccrued, Credited, Booked, Accrues;
    if step.now >= l.now {
      PassKeepsCredited(l, step.now);
      PassIs(l, step.now);
      var p := Pass(l, step.now);
      match step {
        case Touch(now, liquidity) =>
          if Accrue(l.reward, now, liquidity).Ok? {
            AccrueCredits(l.reward, now, liquidity);
            FullStays(l.reward, now, liquidity);
            BookedKeeps(p, Accrue(l.reward, now, liquidity).value, p.deposits, p.changes, now, liquidity);
          }
        case Set(admin, now, liquidity, rate, openTime, endTime) =>
          if SetParams(l.reward, admin, now, liquidity, rate, openTime, endTime).Ok? {
            var u := SetParams(l.reward, admin, now, liquidity, rate, openTime, endTime).value;
            SetIsAccrued(l.reward, admin, now, liquidity, rate, openTime, endTime);
            var a := Accrue(l.reward, now, liquidity).value;
            AccrueCredits(l.reward, now, liquidity);
            FullStays(l.reward, now, liquidity);
            BookedKeeps(p, u.0, l.deposits + Max(0, u.1), l.changes
                + if ChangesCycle(a, admin, now) then 1 else 0, now, liquidity);
          }
      }
    }
  }

  lemma FullStays(r: Reward, now: u64, liquidity: u128)
    requires Accrue(r, now, liquidity).Ok?
    ensures r.totalEmitted == U64_MAX ==> Accrue(r, now, liquidity).value == r && !Accrues(r, now, liquidity)
  {
    hide FundingUp, GrowthDelta;
  }

  lemma {:induction false} RunKeepsCredited(l: Ledger, steps: seq<Step>)
    requires Timed(l) && Funded(l) && Credited(l)
    ensures Credited(Run(l, steps))
    decreases |steps|
  {
    hide Timed, Funded, Apply, Credited;
    if steps != [] {
      RunKeepsCredited(l, steps[..|steps| - 1]);
      RunKeepsFunded(l, steps[..|steps| - 1]);
      StepKeepsCredited(Run(l, steps[..|steps| - 1]), steps[|steps| - 1]);
    }
  }

  /** So what the growth credits, rounded down at every accrual, is within the deposits and within the total, but
      for two token units per change of a running cycle; and the total, rounded up, is within them but for one
      more per accrual. While the total has room the emission that passed while there was liquidity is credited or
      still to come, but for less than the liquidity of each accrual in units of 2^-64. */
  lemma DepositsCoverCredits(now: u64, rate: u128, openTime: u64, endTime: u64, steps: seq<Step>)
    requires InitReward(now, rate, openTime, endTime).Ok?
    ensures var l := Run(Started(now, rate, openTime, endTime), steps);
            && l.credited <= l.reward.totalEmitted * Q64
            && l.credited <= (l.deposits + 2 * l.changes) * Q64
            && l.reward.totalEmitted <= l.deposits + 2 * l.changes + l.accruals
            && (l.reward.totalEmitted != U64_MAX ==>
                  l.emitted <= l.credited + l.idle + l.dust + Unaccrued(l.reward, l.now))
  {
    hide Run, Apply;
    var l := Started(now, rate, openTime, endTime);
    InitFunds(now, rate, openTime, endTime);
    NothingRunning(l.reward, now);
    hide Scheduled, Unaccrued;
    RunKeepsFunded(l, steps);
    RunKeepsCredited(l, steps);
    ScheduledNat(Run(l, steps).reward, Run(l, steps).now);
  }

  lemma ScheduledNat(r: Reward, now: u64)
    ensures 0 <= Scheduled(r, now)
  {}
}
