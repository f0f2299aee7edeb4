# Nebula AMM: a verified model

The program is a concentrated-liquidity exchange on Solana with a limit-order queue at every tick,
integer price arithmetic in 64.64 fixed point, a bitmap index of tick arrays, a ring-buffer oracle
and funded rewards. This project models those parts in Dafny, branch for branch where the
arithmetic and the control flow matter, and proves what they keep over every run.

Machine widths are explicit: amounts, liquidity and prices carry their bounds, products are formed
over the unbounded integers and the widened-width claims are proved rather than assumed, wrapping
and saturating operations are written out, and the aborts of checked arithmetic and of big-number
casts are the error `Panic`. Which error a failing branch returns is modelled only coarsely; that it
fails is modelled exactly. A failing instruction leaves the state as it was because the runtime rolls it
back, not because the program undoes its writes: the methods on the accounts promise nothing on `Err`
unless they say so, and the runs apply an instruction only when it succeeds.

The files, from the ground up:

- `Types`, `Arith`, `Bits`, `FullMath`: widths and results; rounding division through its Galois
  connections; binary digits; the widening multiply-divide.
- `LiquidityMath`, `SqrtPriceMath`, `SwapMath`, `SwapTheorems`, `LiquidityBudget`: range amounts, next
  prices, one swap step as a method proved against a specification, and what steps, splits and round
  trips can and cannot do; liquidity bought with a budget and burned again.
- `TickMath`, `TickAtPrice`: the tick-to-price map by its 19 magic factors and the logarithm loop back.
- `Powers`, `TickBase`, `PriceAccuracy`, `LogBounds`, `TickInverse`: how far both maps are from the exact powers and
  logarithms of 1.0001, and that the second inverts the first. The exact logarithm is never formed: powers of the
  base are enclosed by repeated squaring, and inequalities are raised to 2^42 until only powers of two are left.
- `LimitOrder`, `OrderPrices`, `MatchTheorems`, `LimitOrderRun`, `LimitOrderInvariants`, `LimitOrderTheorems`: the
  two limit-order accounts as objects updated in place; the price orders trade at; what a match charges; every run of
  one tick's queue, in either direction as the price passes the tick, with the ledger of both tokens the program does
  not keep.
- `TickArray`, `BigNum`, `TickArrayBitMap`, `TickIndex`, `TickSearch`: where ticks sit, the 1024-bit word
  loops, the bitmap searches, the three-level index and the search for the next initialized tick.
- `Pool`, `PoolInvariants`, `PoolState`: positions, order accounts and swap passes as a state machine and as
  an object updated in place, and the exact effect of a pass on the pool's books.
- `PoolRuns`, `SwapLoop`: every run of the pool as a session in which a swap is a start, searches and passes,
  a pass going to the tick its search returned; and the whole swap loop over the words of the bitmap, which
  is such a run.
- `PoolOrders`, `PositionSolvency`, `Vault`, `SkippedOrders`: every run of the pool is at every tick the run of that
  tick's queue its actions stand for; the vault covers every position, and every position, queue and fee at
  once; and the runs in which a swap passes orders it did not match.
- `Oracle`, `Rewards`: the observation ring and the average read from it; reward funding, and what accrual
  credits of it.
- `FeeGrowth`, `FeeInside`, `FeeShares`: fee checkpoints, the fee growth inside a position's range over any
  run of the pool, and the credits of all positions together.

## What does not hold

Nine properties the code or its comments and tests suggest are false; each is given a concrete
input and the exact condition under which it holds.

- An exact input with the fee on the output that cannot pay for the whole range is expected to be charged
  in full. It is, exactly when a rounding slack is small (`InputChargedInFullIff`); one token into a pool
  with liquidity above 2^64 is not charged at all (`InputNotCharged`).
- An exact output that rounding carries onto its target is paid nothing, exactly when the range holds more
  than a 64-bit amount and the price its budget moves to is the target (`ReachedOutputIff`, in both fee
  modes; `ReachedOutputDropped`).
- The swap loop relies on a match leaving nothing of the swap or nothing of the orders. It does, exactly
  unless an input-side fee rounds up to the whole remaining input (`MatchExhaustsIff`, `StuckMatch`).
- In that case, swapping upwards with orders left at the first tick of an array, and only there, the next
  search returns a tick beyond the orders or fails (`SearchContinuesIff`). `SearchLooksPastOrders` is such
  a run from a new pool; it ends with the pool's tick above orders that still sell token 0. If a position
  begins at that tick, the pool's liquidity is wrong from then on: in `LastTokenBreaksLiquidity` the pool's tick
  ends inside a position of a million while its liquidity is zero, and going on to the position's end would
  take the liquidity below zero. A pass from correct books to any initialized tick ahead leaves them correct
  exactly when the net liquidity of the ticks it goes past sums to zero (`SwapStepKeepsInvIff`,
  `ArriveKeepsInvIff`), and a crossing underflows exactly when that sum exceeds what is active beyond
  (`CrossingUnderflowsIff`). Whatever is left of the swap then, its last fee was the whole of it; with liquidity in
  range a later pass at a rate not below that one, or at any positive rate when one token is left, spends it on
  the fee and moves nothing (`LeftOverTakesAll`, `LastTokenSpent`, `FeeTakesAll`).
- Orders the price has passed are read as orders of the other direction. In `PassedOrdersPaidTwice`, from a new
  pool, the run above goes on: a taker on the way down is given 1000 of token 1 for 1000 of token 0 at tick 0,
  and the owner of the order there is then paid 1000 of token 1 more. The vault has paid 2000 of token 1 that
  nobody brought (`PassedOrders` is the same run at the queue). The books of the two tokens survive a move of
  the price exactly when it passes an empty queue (`MoveKeepsInvIff`), and the results about tokens hold for
  every run whose moves are such and whose increases are as below. What orders can claim in units is kept by
  every run whatsoever (`RunKeepsCore`).
- `increase_limit_order` does not look at the pool's tick, as `open_limit_order` does. An order emptied in
  its own phase and increased after the price has passed its tick puts one token into the vault and units
  of the other into the queue: takers and settlement then pay out a token nobody put in
  (`WrongSideIncrease`). The books of both tokens balance after an increase exactly when it is on the side
  of the pool's tick its order waits on (`IncreaseBalancedIff`, `IncreaseKeepsInvIff`), which is the side
  opening demands.
- An order emptied in its own phase and then increased brings its tick back without the array counting it
  (`EmptiedOrderBreaksIndex`, from a new pool); the index survives an increase exactly when the tick is
  still initialized (`GrowKeepsInvIff`).
- The check of a limit order's amount notes that its two floors cost under two tokens. They do for an order of token
  0 (`Token0LosesLittle`); for one of token 1 exactly when the rounding of the price, over what is paid, is within
  what the division leaves (`Token1LosesLittleIff`). At the lowest tick one unit is paid 2^63 tokens, about half of
  what it is worth (`LowestTickPaysHalf`).
- A single fee credit is lost entirely exactly from 2^64 - 1 units up (`LargeCreditIsLostIff`, `LargeCredit`).

## Model

| member | source | states |
|---|---|---|
| FullMath.MulDivFloor | programs/amm/src/libraries/full_math.rs:161-171 | the exact floored quotient of the widened product; nothing only for a zero divisor or a quotient beyond the width |
| FullMath.MulDivCeil | programs/amm/src/libraries/full_math.rs:173-183 | the same rounded up |
| FullMath.ToUnderflowU64 | programs/amm/src/libraries/full_math.rs:185-191 | an amount below u64::MAX unchanged, zero from there up |
| FullMath.WidenedProductFits | programs/amm/src/libraries/full_math.rs:158-192 | product plus divisor fit the doubled width, so the widened arithmetic never wraps |
| Arith.DivRoundingUp | programs/amm/src/libraries/unsafe_math.rs:13-30 | quotient plus one on a remainder is the ceiling |
| LiquidityMath.AddDelta | programs/amm/src/libraries/liquidity_math.rs:17-27 | succeeds exactly when the signed sum fits 128 bits, with that sum |
| LiquidityMath.GetDeltaAmount0Unsigned | programs/amm/src/libraries/liquidity_math.rs:171-202 | the doubly rounded token 0 amount of the range whatever the order of the prices; the 256-bit overflow branch is dead |
| LiquidityMath.GetDeltaAmount1Unsigned | programs/amm/src/libraries/liquidity_math.rs:207-234 | the rounded token 1 amount of the range |
| LiquidityMath.In0Iff | programs/amm/src/libraries/liquidity_math.rs:171-202 | the two nested ceilings collapse: an amount pays for a range iff it does in exact arithmetic |
| LiquidityMath.Out0Iff | programs/amm/src/libraries/liquidity_math.rs:171-202 | the two nested floors collapse likewise |
| SqrtPriceMath.In0ReachesIff | programs/amm/src/libraries/sqrt_price_math.rs:32-83 | an input of token 0 moves the price to or past a price exactly when it covers the rounded-up range amount |
| SqrtPriceMath.In1ReachesIff | programs/amm/src/libraries/sqrt_price_math.rs:89-113 | the same for token 1 |
| SqrtPriceMath.Out0StaysIff | programs/amm/src/libraries/sqrt_price_math.rs:32-83 | an output of token 0 stays within a price exactly when the rounded-down range amount covers it |
| SqrtPriceMath.Out1StaysIff | programs/amm/src/libraries/sqrt_price_math.rs:89-113 | the same for token 1 |
| SwapMath.ComputeSwap | programs/amm/src/libraries/swap_math.rs:30-230 | refines the specification `Step` in all four fee modes and both directions, succeeding exactly when it does; the direction check never fires |
| SwapMath.Step | programs/amm/src/libraries/swap_math.rs:30-230 | the price ends between the current price and the target |
| SwapMath.NextPriceProperties | programs/amm/src/libraries/swap_math.rs:41-118 | exact input reaches the target iff its budget covers the rounded-up range amount, also when that amount exceeds 64 bits; never spends more; exact output short of the target yields at least what was asked |
| SwapMath.PriceFromExactInput | programs/amm/src/libraries/swap_math.rs:41-75 | the exact-input half computes the specified price and range amount |
| SwapMath.PriceFromExactOutput | programs/amm/src/libraries/swap_math.rs:76-111 | the exact-output half likewise |
| SwapMath.ChargeFee | programs/amm/src/libraries/swap_math.rs:123-230 | the four fee branches compute the specified fee; no checked subtraction fails where the specification succeeds |
| SwapMath.CalculateAmountInRange | programs/amm/src/libraries/swap_math.rs:236-282 | the range amount, with only the 64-bit overflow turned into nothing |
| SwapTheorems.ExactInputFeeOnInputAccounting | programs/amm/src/libraries/swap_math.rs:41-188 | input plus fee never exceed the remaining amount and use all of it short of the target; at the target the fee is the least that pays the rate on top of the input |
| SwapTheorems.ExactInputFeeOnOutputAccounting | programs/amm/src/libraries/swap_math.rs:41-188 | at most the remaining amount is paid; gross output splits exactly into net and the fee, the least that pays the rate on it |
| SwapTheorems.ExactOutputAccounting | programs/amm/src/libraries/swap_math.rs:76-227 | output never exceeds the request and equals it short of the target; a fee on the input is the least that pays the rate on top of it; one on the output is at least the rate, and the least such where the request does not cap what is left |
| SwapTheorems.InputReachesIff | programs/amm/src/libraries/swap_math.rs:41-75 | an exact input moves the price to or past exactly the prices, up to the target, that it pays for together with the fee |
| SwapTheorems.OutputStaysIff | programs/amm/src/libraries/swap_math.rs:76-111 | an exact output stops at or before exactly the prices that yield the request after the fee, and goes to the target unless the range holds more than it takes |
| SwapTheorems.InputFailsIff | programs/amm/src/libraries/swap_math.rs:41-188 | an exact input fails iff it pays for some range up to the target that holds more than 64 bits of output |
| SwapTheorems.OutputSucceeds | programs/amm/src/libraries/swap_math.rs:76-227 | an exact output succeeds whenever the grossed-up request and the amounts of the whole range with the fee fit 64 bits |
| SwapTheorems.InputChargedInFullIff | programs/amm/src/libraries/swap_math.rs:41-188 | with the fee on the output an exact input below the range amount is charged in full iff the remainder of the division for the next price is small, a condition on the arguments alone |
| SwapTheorems.InputNotCharged | programs/amm/src/libraries/swap_math.rs:390-556 | a concrete input charged nothing, against the tests' expectation |
| SwapTheorems.ReachedOutputIff | programs/amm/src/libraries/swap_math.rs:76-227 | in both fee modes an exact-output step ends on its target without paying what the range holds iff the range exceeds 64 bits and the budget's price is the target; then it pays nothing |
| SwapTheorems.ReachedOutputDropped | programs/amm/src/libraries/swap_math.rs:76-227 | a concrete step, in either fee mode, that charges an input and pays no output |
| SwapTheorems.RangesCompose | programs/amm/src/libraries/liquidity_math.rs:171-234 | splitting a range never lowers the price of crossing it and never raises what it pays |
| SwapTheorems.SplittingNeverGains | programs/amm/src/libraries/swap_math.rs:30-230 | splitting an exact input into any pieces never raises gross or net output, for every fee rate |
| SwapTheorems.TradesBoundedByReserves | programs/amm/src/libraries/swap_math.rs:30-230 | over any sequence of swaps a trader's net gain of each token is at most the change of the curve's reserves |
| SwapTheorems.NoFreeLunch | programs/amm/src/libraries/swap_math.rs:30-230 | no sequence of swaps at fixed liquidity gains one token without losing the other |
| LiquidityBudget.Amount0BuysWithinBudget | programs/amm/src/libraries/liquidity_math.rs:31-57 | the liquidity costs at most the budget and falls short of the most it could buy by a stated bound |
| LiquidityBudget.Amount1BuysTheMost | programs/amm/src/libraries/liquidity_math.rs:61-80 | the token 1 liquidity is exactly the most the budget buys |
| LiquidityBudget.DeltaAmountsAre | programs/amm/src/libraries/liquidity_math.rs:237-326 | whatever the branch on ticks, the amounts are those of the two parts the price divides the range into |
| LiquidityBudget.BudgetCovers | programs/amm/src/libraries/liquidity_math.rs:85-111 | the liquidity bought with two budgets costs at most each, wherever the price is |
| LiquidityBudget.SingleBudgetCovers | programs/amm/src/libraries/liquidity_math.rs:115-163 | the single-sided forms cover their own side |
| LiquidityBudget.BudgetBuysTheMost | programs/amm/src/libraries/liquidity_math.rs:85-111 | no liquidity whose cost both budgets cover exceeds what they buy by more than the double rounding of token 0 |
| LiquidityBudget.SingleBuysTheMost | programs/amm/src/libraries/liquidity_math.rs:115-163 | the same for the single-sided forms on their own side |
| LiquidityBudget.BurningReturnsAtMostTheDeposit | programs/amm/src/libraries/liquidity_math.rs:292-326 | liquidity burned in any pieces at one price returns at most its deposit on each side, and no burn fails |
| TickMath.GetSqrtPriceAtTick | programs/amm/src/libraries/tick_math.rs:34-127 | the nineteen conditional multiplications compute the specified price with no 128-bit overflow, and fail exactly out of range |
| TickMath.MultiplyFactors | programs/amm/src/libraries/tick_math.rs:40-117 | the bit tests multiply exactly the factors of the tick's digits |
| TickMath.TickStep | programs/amm/src/libraries/tick_math.rs:34-127 | successive ratios differ by about half a basis point on both sides through every carry pattern |
| TickMath.InversionStrict | programs/amm/src/libraries/tick_math.rs:119-125 | inverting keeps distinct ratios distinct |
| TickMath.SqrtPriceIncreasing | programs/amm/src/libraries/tick_math.rs:34-127 | the price is strictly increasing over all ticks |
| TickMath.SqrtPriceRange | programs/amm/src/libraries/tick_math.rs:13-16 | the extreme ticks have exactly the extreme prices |
| TickAtPrice.GetTickAtSqrtPrice | programs/amm/src/libraries/tick_math.rs:133-189 | the loop computes the specified tick, and fails exactly out of range |
| TickAtPrice.FractionLoop | programs/amm/src/libraries/tick_math.rs:149-167 | the squaring loop keeps its mantissa in range and yields the sixteen fraction bits |
| TickAtPrice.FracMonotone | programs/amm/src/libraries/tick_math.rs:149-167 | a larger mantissa never yields smaller fraction bits |
| TickAtPrice.TickAtMonotone | programs/amm/src/libraries/tick_math.rs:133-189 | a higher price never yields a lower tick |
| TickAtPrice.TickAtRange | programs/amm/src/libraries/tick_math.rs:133-189 | the tick lies between the least tick and one below the greatest |
| PriceAccuracy.FactorAccurate | programs/amm/src/libraries/tick_math.rs:40-117 | each of the nineteen factors, squared, times the power of 1.0001 it stands for is 2^128 up to one part in 2^36 |
| PriceAccuracy.TruncateClose | programs/amm/src/libraries/tick_math.rs:40-117 | one truncated multiplication loses at most one part in 2^32 |
| PriceAccuracy.PriceClose | programs/amm/src/libraries/tick_math.rs:34-127 | at every tick the square of the price is 2^128 times 1.0001 to the tick, up to the factor (1 + 2^-30)^20 either way |
| LogBounds.FractionEncloses | programs/amm/src/libraries/tick_math.rs:149-167 | the sixteen fraction bits enclose the true logarithm: the mantissa to the power 2^k lies between two consecutive powers of two, up to (1 + 2^-63)^(2^k) |
| LogBounds.LogBetween | programs/amm/src/libraries/tick_math.rs:139-169 | the price to the power 2^16 lies between the powers of two with the computed logarithm and the next as exponents, up to one part in 2^24 |
| TickBase.CompareExponents | programs/amm/src/libraries/tick_math.rs:173-174 | an inequality between products of powers of two and of 1.0001 is one between their exponents weighted with log2(1.0001), the change of base |
| TickInverse.LowEstimate | programs/amm/src/libraries/tick_math.rs:176-177 | a price below a tick's has its lower estimate below that tick |
| TickInverse.HighEstimate | programs/amm/src/libraries/tick_math.rs:179-180 | a price at or above a tick's has its upper estimate at or above that tick |
| TickInverse.TickAtInverts | programs/amm/src/libraries/tick_math.rs:129-189 | the tick found is the greatest whose price does not exceed the given price, for every price in range |
| TickInverse.TickAtIff | programs/amm/src/libraries/tick_math.rs:129-189 | a tick is the one found iff the price lies from its price up to the next tick's |
| TickInverse.TickRoundTrip | programs/amm/src/libraries/tick_math.rs:311-318 | tick to price and back is the identity on every tick below the greatest |
| LimitOrder.QuoteAt | programs/amm/src/libraries/tick_math.rs:192-210 | both roundings of the price at a tick are positive, ordered and fit 128 bits |
| OrderPrices.QuoteEncloses | programs/amm/src/libraries/tick_math.rs:192-210 | the two roundings are the extreme integers that enclose the square of the sqrt price over 2^64, and differ by at most one |
| OrderPrices.QuoteFollowsPower | programs/amm/src/libraries/tick_math.rs:192-210 | at every tick both are 2^64 times 1.0001 to the tick, within the factor (1 + 2^-30)^20 and one unit |
| OrderPrices.OrdersPayThePrice | programs/amm/src/states/tick_array.rs:411-431 | filled units are paid 1.0001 to the tick each in the other token, or over it, by direction, within that factor, one token and the rounding of the price |
| OrderPrices.Token0LosesLittle | programs/amm/src/instructions/limit_order/open_limit_order.rs:215-236 | an order of token 0 that fits 64 bits is paid under two tokens less than at the unrounded price, as the comment has it |
| OrderPrices.Token1LosesLittleIff | programs/amm/src/instructions/limit_order/open_limit_order.rs:215-236 | one of token 1 is iff the rounding of the price over what is paid is within what the division leaves, in particular while what is paid stays two below the price in units of 2^-64 |
| OrderPrices.LowestTickPaysHalf | programs/amm/src/instructions/limit_order/open_limit_order.rs:215-236 | at the lowest tick one unit of token 1 is allowed and paid about half its worth |
| LimitOrder.AmountAllowedIff | programs/amm/src/instructions/limit_order/open_limit_order.rs:217-232 | an amount is allowed iff it is worth at least one token at the price of its tick and less than u64::MAX - 2 |
| LimitOrder.CreditedIsFilledLessOneIfInexact | programs/amm/src/states/limit_order.rs:107-122 | the filled part less one on an inexact division is the base less its unfilled part rounded up |
| LimitOrder.LimitOrderState.constructor | programs/amm/src/states/limit_order.rs:48-70 | a new order is unfilled, at the full ratio |
| LimitOrder.LimitOrderState.SettleFilledOrder | programs/amm/src/states/limit_order.rs:94-159 | refines the value specification of a settle, changing nothing on failure |
| LimitOrder.LimitOrderState.IncreaseAmount | programs/amm/src/states/limit_order.rs:161-179 | refines the specification on both accounts |
| LimitOrder.LimitOrderState.DecreaseAmount | programs/amm/src/states/limit_order.rs:181-252 | refines the specification on both accounts |
| LimitOrder.TickState.MatchLimitOrder | programs/amm/src/states/tick_array.rs:464-605 | the amounts of the specification, and the queue after its gross output is consumed |
| LimitOrder.TickState.ConsumeOrders | programs/amm/src/states/tick_array.rs:545-591 | the part-filled cohort is drained first, the rest opens the next cohort; the ratio division never fails |
| LimitOrder.MatchCoversOrders | programs/amm/src/states/tick_array.rs:464-605 | a match takes no more units than there are, and the taker's tokens are worth at least what their owners will be paid |
| MatchTheorems.MatchWithinInput | programs/amm/src/instructions/swap.rs:182-211 | a match never costs more than the swap has left, so the checked subtraction never fails |
| MatchTheorems.MatchWithinOutput | programs/amm/src/states/tick_array.rs:511-543 | an exact-output match never gives more than was asked, and exactly that unless the orders run out |
| MatchTheorems.MatchExhaustsIff | programs/amm/src/instructions/swap.rs:769-780 | a match leaves nothing of the swap or nothing of the orders, iff an input-side fee does not round up to the whole input |
| MatchTheorems.StuckMatch | programs/amm/src/instructions/swap.rs:769-780 | a concrete match that takes and gives nothing |
| MatchTheorems.InputMatchIs | programs/amm/src/states/tick_array.rs:479-510 | an exact input takes the most units it pays for net of the least fee that pays the rate; if that is more than there are, all of them for the least input that pays for them and the least fee on top; a fee on the output is the least that pays the rate |
| MatchTheorems.OutputMatchIs | programs/amm/src/states/tick_array.rs:511-543 | an exact output takes the request, or all there is, grossed up by the least that leaves it after the fee, for the least input that pays for it; the fee is the least that pays the rate, on top of the input or out of the gross |
| MatchTheorems.InputMatchFailsIff | programs/amm/src/states/tick_array.rs:479-510 | an exact-input match of 64-bit amounts fails iff the input net of its fee pays for more than 64 bits of units |
| MatchTheorems.OutputMatchSucceeds | programs/amm/src/states/tick_array.rs:511-543 | an exact-output match succeeds whenever the input for all there is with its fee, and the grossed-up request, fit 64 bits |
| LimitOrderInvariants.SettleAccountInv | programs/amm/src/states/limit_order.rs:94-159 | settling never fails, credits exactly the segment's units and leaves the claim on the cohort where it was |
| LimitOrderInvariants.DrainRatio | programs/amm/src/states/tick_array.rs:545-571 | the truncated ratio keeps all claims within what is left and loses at most one unit of ratio on the cohort's weight |
| LimitOrderInvariants.DecreasePartFilledKeepsCore | programs/amm/src/states/limit_order.rs:181-252 | a part-filled decrease restarts its segment without raising the cohort's claims |
| LimitOrderInvariants.IncreaseBalancedIff | programs/amm/src/instructions/limit_order/increase_limit_order.rs:60-98 | an increase keeps each token of the vault equal to what the books say iff it is on the side its order waits on |
| LimitOrderInvariants.IncreaseKeepsInvIff | programs/amm/src/instructions/limit_order/increase_limit_order.rs:60-98 | the whole invariant survives an increase iff it is on that side |
| LimitOrderInvariants.MoveKeepsInvIff | programs/amm/src/instructions/swap.rs:740-759 | the whole invariant survives the price passing the tick iff its queue is empty |
| LimitOrderInvariants.MatchKeepsInv | programs/amm/src/states/tick_array.rs:464-605 | a match keeps the queue, and the books of both tokens when the queue goes the way the price is |
| LimitOrderInvariants.RunKeepsCore | programs/amm/src/states/limit_order.rs:94-252 | what accounts can claim stays within what the queue holds, in units, after any interleaving of opens, increases, decreases, settles, matches and moves of the price, on whichever side |
| LimitOrderInvariants.RunKeepsInv | programs/amm/src/states/limit_order.rs:94-252 | the ledger of both tokens holds too after any run whose increases are on their side and whose moves pass the tick when its queue is empty |
| LimitOrderTheorems.NoOverClaim | programs/amm/src/states/limit_order.rs:101-158 | after any run whatsoever every order can settle; claims sum to at most the remaining amount, unmatched bases to exactly the tick's orders |
| LimitOrderTheorems.DecreaseTakesWhatIsUnfilled | programs/amm/src/states/limit_order.rs:196-222 | in no run does a cap of a decrease bind |
| LimitOrderTheorems.Solvency | programs/amm/src/states/limit_order.rs:94-252 | in every run a cohort's credited units stay strictly below the units consumed plus one ratio truncation per match, hence within them when matches times size are within 2^64 or the cohort is complete |
| LimitOrderTheorems.TokenSolvency | programs/amm/src/states/limit_order.rs:94-252 | with increases on their side and the price passing only the empty queue: in each direction takers' tokens cover every payment ever made, up to the truncations of the cohort being filled |
| LimitOrderTheorems.VaultSolvency | programs/amm/src/states/limit_order.rs:94-252 | after such a run, in both tokens, the vault still has all that the queue has to give, while those truncations are within a unit |
| LimitOrderTheorems.WrongSideIncrease | programs/amm/src/instructions/limit_order/increase_limit_order.rs:60-98 | a concrete run with an increase on the other side after which 2000 of token 1 have left a vault that never had any |
| LimitOrderTheorems.PassedOrders | programs/amm/src/instructions/swap.rs:740-759 | a concrete run in which the price passes waiting orders, after which 2000 of token 1 have left a vault that never had any |
| LimitOrderTheorems.Conservation | programs/amm/src/states/limit_order.rs:84-92 | in every run credited, withdrawn and unfilled units add up to the deposit less at most one unit per segment |
| LimitOrderTheorems.OwnersArePaid | programs/amm/src/states/limit_order.rs:94-159 | in every run an owner has been paid the price for every unit credited, at most that and less by at most one token per segment |
| LimitOrderTheorems.SettlingTelescopes | programs/amm/src/states/limit_order.rs:84-92 | settling at any times pays in total what the last settle alone would, and a full fill pays for the whole base |
| LimitOrderTheorems.MatchesMoveLater | programs/amm/src/states/tick_array.rs:545-591 | a match only raises the phase or lowers the ratio |
| TickArray.ArrayStartHolds | programs/amm/src/states/tick_array.rs:235-242 | the start index is rounded toward minus infinity and its array holds the tick |
| TickArray.ValidStartsHoldTicks | programs/amm/src/states/tick_array.rs:244-254 | valid start indices are exactly the starts of arrays that hold a tick in range |
| BigNum.ShiftLeft | programs/amm/src/libraries/big_num.rs:279-301 | the word loops compute the product by a power of two modulo 2^1024 |
| BigNum.AddCarriesUp | programs/amm/src/libraries/big_num.rs:294-299 | the carry loop adds the shifted-out digits and no word overflows |
| BigNum.ShiftRight | programs/amm/src/libraries/big_num.rs:309-332 | the word loops compute the floored quotient by a power of two |
| BigNum.ShlValue | programs/amm/src/libraries/big_num.rs:279-301 | shifted words stand for the reduced product |
| BigNum.LeadingZeros | programs/amm/src/libraries/big_num.rs:164-176 | the count that places the highest set digit |
| BigNum.TrailingZeros | programs/amm/src/libraries/big_num.rs:179-191 | the place of the lowest set digit |
| BigNum.MsbOfWords | programs/amm/src/libraries/big_num.rs:164-176 | the highest set digit is that of the highest non-zero word |
| BigNum.BitXor | programs/amm/src/libraries/big_num.rs:250-263 | toggles digit by digit |
| TickArrayBitMap.NextInitializedTickArrayStartIndex | programs/amm/src/libraries/tick_array_bit_map.rs:76-131 | the shift-and-count search equals the linear scan of the digits, in every branch |
| TickArrayBitMap.NextStartIsNearest | programs/amm/src/libraries/tick_array_bit_map.rs:76-131 | from an aligned start whose neighbour is covered: the nearest set array strictly in the direction, or none iff there is none |
| TickArrayBitMap.EnumerateIsComplete | programs/amm/src/libraries/tick_array_bit_map.rs:76-131 | repeating the search lists every set array beyond the start exactly once, in order |
| TickArrayBitMap.CheckCurrentTickArrayIsInitialized | programs/amm/src/libraries/tick_array_bit_map.rs:48-73 | whether the tick's array is set, and its start index |
| TickArrayBitMap.FlipTickArrayBit | programs/amm/src/states/pool.rs:448-455 | toggles exactly the array's digit, and refuses exactly invalid start indices |
| TickArrayBitMap.BoundaryIsWindow | programs/amm/src/libraries/tick_array_bit_map.rs:15-27 | the aligned window of one bitmap's width that holds the start index |
| TickIndex.FlippedIffInitializedChanges | programs/amm/src/states/tick_array.rs:322-360 | an update reports a flip exactly when the tick changes between initialized and not |
| TickIndex.MarkKeeps | programs/amm/src/instructions/open_position.rs:491-514 | counting a newly initialized tick never overflows and restores the three-level agreement |
| TickIndex.UnmarkKeeps | programs/amm/src/instructions/decrease_liquidity.rs:379-398 | uncounting one never underflows and restores it |
| TickSearch.NextInitializedTick | programs/amm/src/states/tick_array.rs:199-222 | the nearest initialized tick of the current array, nothing when there is none ahead |
| TickSearch.FirstInitializedTick | programs/amm/src/states/tick_array.rs:181-194 | the first initialized tick of an array in the direction |
| TickSearch.StartSearch | programs/amm/src/states/pool.rs:478-511 | returns the current array if it is set, and otherwise the nearest set array ahead, or nothing iff there is none |
| TickSearch.StartedInOrder | programs/amm/src/states/pool.rs:478-511 | a search started so misses no initialized tick ahead, and none can start only if there is none |
| TickSearch.FindNext | programs/amm/src/instructions/swap.rs:578-625 | what one search returns, whether or not the orders it left are still ahead |
| TickSearch.SearchedIsNext | programs/amm/src/instructions/swap.rs:578-625 | with its state in order a search returns the nearest initialized tick of the whole pool, or fails iff there is none |
| TickSearch.SearchContinuesIff | programs/amm/src/instructions/swap.rs:747-759 | after a tick is reached the next search returns the nearest initialized tick, or fails only if there is none, iff it is not an upward swap that leaves orders at the first tick of an array; there it returns a tick beyond them or fails |
| SkippedOrders.SearchLooksPastOrders | programs/amm/src/instructions/swap.rs:747-783 | a run from a new pool: one token reaches orders at tick 0, the search returns tick 60, and the pool's tick ends at 59 with the orders unmatched |
| SkippedOrders.LastTokenBreaksLiquidity | programs/amm/src/instructions/swap.rs:578-783 | a run from a new pool whose last token goes to the fee at tick 0: the pool's tick ends at 30 inside a position of a million while its liquidity is zero, and a crossing of the position's end fails |
| SkippedOrders.PassedOrdersPaidTwice | programs/amm/src/instructions/swap.rs:578-783 | a run from a new pool: a swap looks past the orders at tick 0, a taker on the way down is given the other token for them, their owner settles, and 2000 of token 1 have left a vault nobody brought any to |
| PoolAccount.PoolState.ModifyPosition | programs/amm/src/instructions/open_position.rs:593-688 | refines the value specification and moves the pool's liquidity in place |
| PoolAccount.PoolState.AddLiquidity | programs/amm/src/instructions/open_position.rs:436-515 | refines the specification on ticks, counts, bitmap words and liquidity |
| PoolAccount.PoolState.BurnLiquidity | programs/amm/src/instructions/decrease_liquidity.rs:339-410 | refines the specification on ticks, counts, bitmap words and liquidity |
| PoolAccount.PoolState.FlipTickArrayBit | programs/amm/src/states/pool.rs:457-475 | flips one array of the set the words stand for |
| PoolInvariants.BookTicksKeeps | programs/amm/src/instructions/open_position.rs:491-514 | booking both ticks of a change keeps the agreement, also when they share an array |
| PoolInvariants.AddKeepsInv | programs/amm/src/instructions/open_position.rs:436-515 | adding liquidity keeps every invariant |
| PoolInvariants.BurnKeepsInv | programs/amm/src/instructions/decrease_liquidity.rs:339-410 | burning liquidity keeps every invariant |
| PoolInvariants.PlaceKeepsInv | programs/amm/src/instructions/limit_order/open_limit_order.rs:93-180 | opening an order keeps every invariant |
| PoolInvariants.ShrinkKeepsInv | programs/amm/src/instructions/limit_order/decrease_limit_order.rs:92-143 | decreasing an order keeps every invariant |
| PoolInvariants.GrowKeepsInvIff | programs/amm/src/instructions/limit_order/increase_limit_order.rs:60-98 | increasing an order keeps the index iff its tick is still initialized |
| PoolInvariants.SettleKeepsInv | programs/amm/src/instructions/limit_order/settle_limit_order.rs:57-68 | settling an order keeps every invariant |
| PoolInvariants.EmptiedOrderBreaksIndex | programs/amm/src/instructions/limit_order/increase_limit_order.rs:60-98 | from any new pool below tick 0 with spacing 1: place, empty and increase one order, after which the tick has orders nobody counts |
| PoolInvariants.CrossActive | programs/amm/src/instructions/swap.rs:716-759 | at any tick ahead: the active liquidity on the side where the pool's tick ends up is the pool's, moved by the tick's net if it is crossed and by that of the ticks gone past |
| PoolInvariants.CrossingUnderflowsIff | programs/amm/src/instructions/swap.rs:716-738 | at any tick ahead the update underflows iff the ticks gone past had taken in more than is active beyond; otherwise it fails only beyond 128 bits |
| PoolInvariants.CrossingNeverUnderflows | programs/amm/src/instructions/swap.rs:716-738 | at the nearest initialized tick the liquidity update never underflows and fails only beyond 128 bits |
| PoolInvariants.DirectionChecksPass | programs/amm/src/instructions/swap.rs:326-364 | the direction checks of a pass never fail |
| PoolInvariants.ArriveKeepsInvIff | programs/amm/src/instructions/swap.rs:677-759 | matching, uncounting, crossing and the tick assignment at any initialized tick ahead keep every invariant iff the ticks gone past have no net liquidity together |
| PoolInvariants.SwapStepKeepsInvIff | programs/amm/src/instructions/swap.rs:636-783 | a pass toward any initialized tick ahead, the nearest or not, keeps every invariant iff the net liquidity of the ticks it goes past without crossing sums to zero |
| PoolInvariants.SwapStepKeepsInv | programs/amm/src/instructions/swap.rs:636-783 | so a pass toward the nearest initialized tick keeps every invariant |
| PoolInvariants.CreatedInv | programs/amm/src/instructions/create_pool.rs:142-205 | a new pool at any price in range satisfies every invariant, its tick included |
| PoolInvariants.LiquidityIsActive | programs/amm/src/states/tick_array.rs:349-358 | the invariant makes liquidity both the sum of the positions in range and the prefix sum of net liquidity, and makes counts and bits those of the initialized ticks |
| PoolInvariants.PrefixSum | programs/amm/src/states/tick_array.rs:349-358 | active liquidity is the prefix sum of the ticks' net liquidity |
| PoolRuns.FeeTakesAll | programs/amm/src/instructions/swap.rs:636-783 | with liquidity in range, an exact input whose fee is the whole remaining amount leaves the pool as it was and nothing of the swap |
| PoolRuns.LeftOverTakesAll | programs/amm/src/instructions/swap.rs:682-713 | if a match leaves both orders and an amount, the fee at its rate or a higher one takes all of that amount |
| PoolRuns.LastTokenSpent | programs/amm/src/libraries/swap_math.rs:41-75 | a single token is spent on the fee exactly at every positive rate |
| PoolRuns.PassStopsInTime | programs/amm/src/instructions/swap.rs:337-361 | a pass ends no further than the price limit, the price of the next tick and its bound; short of the bound it has used up what remained, unless it is an exact input with the fee on the output |
| PoolRuns.ActionKeeps | programs/amm/src/instructions/swap.rs:503-820 | an instruction, a start, a search or a pass keeps the books, and the order of the search until it has to look past orders, if an increase meets an initialized tick and, from then on, the fee of a pass takes what is left |
| PoolRuns.RunKeepsInv | programs/amm/src/instructions/swap.rs:503-820 | so does every run of them, passes going to the ticks the searches returned |
| PoolRuns.ActiveLiquidity | programs/amm/src/instructions/open_position.rs:593-688 | after any such run from a new pool, also within a swap: liquidity is the sum of the positions in range and the prefix sum of net liquidity; counts and bits agree with the initialized ticks |
| PoolOrders.PassesOnlyEmpty | programs/amm/src/instructions/swap.rs:636-783 | a pass moves the pool's tick past no initialized tick but the one it reaches |
| PoolRuns.ArriveQueues | programs/amm/src/instructions/swap.rs:677-759 | an arrival consumes the matched units of the tick reached and touches no other queue |
| PoolOrders.EveryTickRuns | programs/amm/src/instructions/swap.rs:503-820 | every run of the pool, whatever its swaps look past, is at every tick the run of that tick's queue its actions stand for, step by step; an orderly one stays on its side |
| PoolOrders.PassKeepsSide | programs/amm/src/instructions/swap.rs:740-759 | a pass in an orderly run moves the price past no tick at which orders are left |
| PoolOrders.EveryOrderSettles | programs/amm/src/states/limit_order.rs:94-252 | in every run of the pool every order can be settled and a decrease takes out what is asked for or all that is unfilled |
| PoolOrders.EveryTickSolvent | programs/amm/src/states/limit_order.rs:94-252 | after an orderly run what its actions brought to a tick's queue, less what they took from it, covers what the queue has to give in both tokens, while the truncations of that queue's own cohort are within a unit |
| PositionSolvency.HoldBetween | programs/amm/src/libraries/liquidity_math.rs:237-326 | minting costs at least, and burning returns at most, the exact amount the curve assigns to the position |
| PositionSolvency.HeldMoves | programs/amm/src/instructions/swap.rs:636-783 | when the price moves past no end of a position, what all positions stand for changes as the curve of the active liquidity does |
| PositionSolvency.PassAmountsBounded | programs/amm/src/instructions/swap.rs:636-783 | a pass pays in at least, and takes out at most, what that curve says |
| PositionSolvency.PassKeepsCovered | programs/amm/src/instructions/swap.rs:636-783 | a pass to the nearest initialized tick leaves the vault covering all positions, in both tokens |
| PositionSolvency.ChangeKeepsCovered | programs/amm/src/instructions/open_position.rs:593-688 | so does every mint, burn and order instruction |
| PositionSolvency.BurnsAreCovered | programs/amm/src/instructions/decrease_liquidity.rs:339-410 | after any run from a new pool the liquidity providers' share of the vault holds, of each token, at least what burning every position at the current price returns |
| Vault.RemainingIsTraded | programs/amm/src/instructions/swap.rs:182-226 | what a pass brings into the vault, or takes out of it, is exactly what the swap's remaining amount falls by |
| Vault.StepSplits | programs/amm/src/instructions/swap.rs:663-713 | what a step brings into the vault goes to the positions, to the orders of its tick and to the fees, and to nothing else, in each token and fee mode |
| Vault.StepBooks | programs/amm/src/states/tick_array.rs:464-605 | a tick's own ledger books exactly what the pool's instructions and matches bring to that tick |
| Vault.VaultIsParts | programs/amm/src/instructions/swap.rs:503-820 | over any run the vault is the positions' share, the shares of all ticks' orders and the fees |
| Vault.OneVault | programs/amm/src/instructions/swap.rs:503-820 | after any orderly run from a new pool the vault covers at once, in each token, burning every position, all that the queues of all ticks have to give and every fee charged, while each open cohort's truncations are within a unit |
| SwapLoop.PassesToward | programs/amm/src/instructions/swap.rs:636-783 | the inner loop trades past neither the price limit nor the next tick, ends at one of them, with nothing left, or out of passes, keeps every invariant, and its passes are actions of the run; it fails only in a failing pass |
| SwapLoop.SwapLoop | programs/amm/src/instructions/swap.rs:533-783 | the whole loop over the bitmap's words never trades past the price limit, keeps the pool's invariant and the words in line with the index, and what it does is a sound run: a start, searches and passes that lead from the pool to its result; it fails only on a zero amount, with no initialized tick ahead, or in a failing pass |
| SwapLoop.UpdateWords | programs/amm/src/instructions/swap.rs:706-714 | the words again stand for the index after a tick was uncounted |
| Oracle.ObservationState.Update | programs/amm/src/states/oracle.rs:82-107 | appends exactly the accepted observations; the ring holds the last hundred, each at its number modulo 100 |
| Oracle.AcceptKeepsSpaced | programs/amm/src/states/oracle.rs:88-105 | an observation is accepted iff it is the first or at least 15 seconds after the last; the accepted ones accumulate tick times time |
| Oracle.UpdateDoesNotWrap | programs/amm/src/states/oracle.rs:94-104 | the saturating product and the wrapping sum are exact for ticks in range |
| Oracle.CumulativeBetween | programs/amm/src/states/oracle.rs:94-104 | between two observations the cumulative moves within the extreme ticks times the elapsed time |
| Oracle.FindObservationAtOrBefore | programs/amm/src/instructions/nebula_shield.rs:254-267 | the newest held observation at or before the target, or none iff there is none |
| Oracle.ObserveTwap | programs/amm/src/instructions/nebula_shield.rs:214-252 | a reading is the average up to the second newest observation from the newest one a window old; no reading only when there is none, the ring is at its first two slots or the window product overflows |
| Oracle.ReadingBetween | programs/amm/src/instructions/nebula_shield.rs:242-251 | a reading lies between the least and the greatest tick recorded over its interval |
| Oracle.ReadingIsAverage | programs/amm/src/instructions/nebula_shield.rs:242-251 | a reading is the time-weighted average of the ticks recorded over its interval, rounded toward zero |
| Oracle.ReadingDoesNotWrap | programs/amm/src/instructions/nebula_shield.rs:247-251 | the wrapping difference, the cast and the clamp change nothing |
| Rewards.FundingFits | programs/amm/src/instructions/set_reward_params.rs:163-169 | the widened products and quotients never overflow |
| Rewards.RewardInfo.Normal | programs/amm/src/instructions/set_reward_params.rs:145-224 | refines the value specification of the funder's update |
| Rewards.RewardInfo.Admin | programs/amm/src/instructions/set_reward_params.rs:226-290 | refines the value specification of the administrator's update |
| Rewards.AccrueKeepsSchedule | programs/amm/src/states/pool.rs:333-400 | accrual moves only the update time and the emitted total |
| Rewards.InitFunds | programs/amm/src/instructions/initialize_reward.rs:132-161 | a reward starts with the rate and times asked for, and exactly its whole cycle deposited, rounded up |
| Rewards.SetFunds | programs/amm/src/instructions/set_reward_params.rs:41-143 | an update sets the rate and times asked for; what it adds to the schedule is deposited, rounded up for a new cycle and less two units for a running one, and no more than that unless it lowers the rate or brings the end forward; one that only does so is free |
| Rewards.DepositsCoverEmission | programs/amm/src/instructions/set_reward_params.rs:145-290 | after any sequence of updates deposits cover all emission past and scheduled, less than two units per change short, and outright without changes |
| Rewards.AccrueCredits | programs/amm/src/states/pool.rs:333-400 | one accrual credits what is due, the emission since the last or the room of the total, rounded down to less than one unit of growth below it; the total takes it in rounded up |
| Rewards.DepositsCoverCredits | programs/amm/src/states/pool.rs:333-400 | after any sequence of accruals and updates the credited growth is within the total and within the deposits plus two units per change, and the total within those plus a unit per accrual; while the total has room, all emission that passed with liquidity in range is credited or still to come, but for less than the liquidity of each accrual in units of 2^-64 |
| FeeGrowth.WrappingSubUndoesAdd | programs/amm/src/instructions/increase_liquidity.rs:208-212 | the wrapping difference is the growth since the last checkpoint |
| FeeGrowth.CheckpointsCredit | programs/amm/src/instructions/increase_liquidity.rs:202-218 | any number of checkpoints credit at most what accrued, and less than one unit each short while no credit reaches u64::MAX |
| FeeGrowth.LargeCreditIsLostIff | programs/amm/src/libraries/full_math.rs:185-191 | a checkpoint credits a period in full iff its fees stay below u64::MAX, and loses them entirely otherwise |
| FeeGrowth.LargeCredit | programs/amm/src/libraries/full_math.rs:185-191 | a concrete period that earns 2^64 units and is credited none |
| FeeGrowth.GrowthWithinFees | programs/amm/src/instructions/swap.rs:270-276 | growth times liquidity is the fees in units of 2^-64, less under the liquidity a charge |
| FeeGrowth.CreditsWithinFees | programs/amm/src/instructions/swap.rs:270-284 | at a fixed active liquidity the positions sharing it are credited at most the fees collected for them, and less only by under a unit a position and under the liquidity in units of 2^-64 a charge |
| FeeInside.SideChangesIffCrossed | programs/amm/src/instructions/swap.rs:716-759 | a pass crosses exactly the tick with liquidity whose side of the pool's tick it changes |
| FeeInside.AccrueInside | programs/amm/src/states/tick_array.rs:618-657 | growth accruing shows inside a range exactly while the pool's tick is in it, through every wrap |
| FeeInside.CrossInside | programs/amm/src/states/tick_array.rs:364-386 | crossing a tick leaves the growth inside where it was |
| FeeInside.StepInside | programs/amm/src/states/tick_array.rs:340-394 | so does every other step, positions of others and first liquidity at other ticks included |
| FeeInside.StepInsidePosition | programs/amm/src/states/tick_array.rs:618-657 | for a position with liquidity before and after: both its ticks are live, and a step moves the growth inside its range by what accrued there |
| FeeInside.FreshRangeStartsEmpty | programs/amm/src/states/tick_array.rs:340-347 | a position over ticks without liquidity or growth of their own starts with no growth inside, wherever the pool is and whatever accrued so far |
| FeeInside.InsideRisesByAccrued | programs/amm/src/states/tick_array.rs:618-657 | over any run through which a position keeps some liquidity, the wrapping growth inside its range rises by exactly what accrued while the pool's tick was in it |
| FeeInside.CheckpointCreditsAccrued | programs/amm/src/instructions/increase_liquidity.rs:202-218 | a checkpoint after the run credits the position's exact share of that, rounded down |
| FeeShares.CheckpointOwes | programs/amm/src/instructions/increase_liquidity.rs:202-218 | a checkpoint never credits more than what is pending, through wraps and lost credits, whatever the liquidity becomes |
| FeeShares.CheckpointOwesLeast | programs/amm/src/instructions/increase_liquidity.rs:202-218 | nor less by a unit, while the credit stays below u64::MAX |
| FeeShares.AccruingOwes | programs/amm/src/instructions/swap.rs:268-284 | growth over the positions in range adds exactly growth times active liquidity to what is owed |
| FeeShares.StepKeepsBooks | programs/amm/src/instructions/swap.rs:228-284 | every step keeps what is credited and pending within the fees collected for liquidity |
| FeeShares.StepLosesLittle | programs/amm/src/instructions/swap.rs:228-284 | a step takes from what is owed at most its dust: under the liquidity a charge, under a unit a checkpoint |
| FeeShares.CreditsWithinFees | programs/amm/src/instructions/swap.rs:228-284 | over any run from a new pool the credits of all positions, opened, changed and checkpointed at any time, sum to at most the fees collected for liquidity; credits and what is pending fall short of the fees by no more than the run's dust while no single credit reaches u64::MAX |

## Left out

- Anchor accounts, PDAs, token transfers and transfer fees, NFT minting, events, pool status bits and the
  client: amounts are those before transfer fees.
- SwapMath.ComputeSwap: leaves out prices of zero and targets against the direction of the swap; it is only called
  with the targets `get_target_price_based_on_next_tick` has checked
  (programs/amm/src/instructions/swap.rs:337-361).
- SwapMath.CalculateAmountInRange: the same arguments are left out.
- Which error a failing branch returns, beyond that it fails.
- The dynamic fee: the fee rate of a pass and the bounded price it stops at are arbitrary, the price only
  between the current one and the target; a run offers them one per pass.
- TickSearch.StartSearch: covers pools whose arrays the default bitmap holds, since the bitmap extension account is
  not modelled. `PoolInvariants` and `PoolOrders` do not depend on where the bits are kept.
- TickSearch.FindNext: the same.
- PoolAccount.PoolState.AddLiquidity: fails for arrays that need the extension account.
- PoolAccount.PoolState.BurnLiquidity: the same.
- PoolAccount.PoolState.FlipTickArrayBit: the same.
- The queue of tick-array accounts a swap must be given, and failing for want of one.
- LimitOrderInvariants.RunKeepsInv: runs whose increases are on their side and whose moves of the price pass an
  empty queue, the exact conditions of `IncreaseKeepsInvIff` and `MoveKeepsInvIff`; `RunKeepsCore` has what every run
  keeps. Closing an order account is left out.
- LimitOrderTheorems.TokenSolvency: the same runs; it is false of `PassedOrders` and `WrongSideIncrease`.
- LimitOrderTheorems.VaultSolvency: the same runs; says nothing while the matches of the cohort being filled times
  its size exceed 2^64, when `TokenSolvency` bounds what payments may exceed.
- PoolRuns.ActionKeeps: nothing is claimed of an increase at a tick that is not initialized, by
  `GrowKeepsInvIff` exactly where the index breaks; nor of a pass after a search that had to look past orders
  (a swap upwards that left orders at the first tick of an array, by `SearchContinuesIff` exactly where the search
  goes wrong) unless there is liquidity and the fee takes what is left. What such a pass does is in
  `SwapStepKeepsInvIff`.
- PoolRuns.RunKeepsInv: the same for its actions.
- PoolRuns.ActiveLiquidity: the same for its actions; after such a pass it can be false (`LastTokenBreaksLiquidity`).
- PoolOrders.EveryTickSolvent: such runs, with increases on the side their order waits on; false of
  `PassedOrdersPaidTwice`; silent when the truncations exceed one unit.
- PoolInvariants.CrossingNeverUnderflows: the nearest tick only; `CrossingUnderflowsIff` has every tick.
- PoolInvariants.SwapStepKeepsInv: the nearest tick only; `SwapStepKeepsInvIff` has every tick.
- PositionSolvency.PassKeepsCovered: a pass to the nearest tick, or one that moves nothing.
- PositionSolvency.BurnsAreCovered: the runs of `PoolRuns.RunKeepsInv`.
- Vault.OneVault: such runs, with increases on the side their order waits on; silent when the truncations of a cohort
  exceed one unit. Collecting fees is not an action: it takes the same from the vault and from the fees.
- FeeInside.InsideRisesByAccrued: the runs of `PoolRuns.RunKeepsInv`; a position with no liquidity accrues nothing.
- FeeInside.CheckpointCreditsAccrued: the same.
- FeeShares.StepKeepsBooks: a pass to the nearest tick, or one that moves nothing.
- FeeShares.CreditsWithinFees: the runs of `PoolRuns.RunKeepsInv`, fees for liquidity being what is left after the
  protocol's and the fund's shares, and none while there is no liquidity. The dust bound says nothing once a
  single credit has reached u64::MAX and is lost.
- FeeGrowth.CreditsWithinFees: one credit per position at a fixed active liquidity; `FeeShares` has every run.
- MatchTheorems.InputMatchIs: fee rates below one, which the pool's configuration demands
  (programs/amm/src/instructions/admin/create_amm_config.rs:40).
- MatchTheorems.OutputMatchIs: the same.
- MatchTheorems.InputMatchFailsIff: the same.
- MatchTheorems.OutputMatchSucceeds: the same; a sufficient condition, on the whole queue rather than on the part taken.
- SwapTheorems.InputFailsIff: the same rates.
- SwapTheorems.OutputSucceeds: the same rates; a sufficient condition, on the whole range rather than on the part moved.
- PoolRuns.PassStopsInTime: says nothing of what remains of an exact input with the fee on the output; when that is
  charged in full is `InputChargedInFullIff`.
- Reward growth outside ticks, which follows the rule of fee growth; the split of fees into protocol, fund and
  liquidity shares.
- Oracle.ObservationState.Update: ticks come from the pool, so they are taken to lie in range.
- Rewards.DepositsCoverEmission: emission is the schedule, rate times time; `DepositsCoverCredits` has what
  accrual makes of it.
- Rewards.DepositsCoverCredits: what accrual credits the active liquidity as a whole, not position by position. The bound from
  below says nothing once the emitted total is full.
- SwapLoop.SwapLoop: covers pools within the default bitmap; stops where the next search would look past orders,
  and when no further pass is offered; the source has no bound but the transaction's. `PoolRuns` goes on there.
- A run consists of instructions that go through, since a failing one is rolled back.
- `swap_compute` in the client, which follows the same loop on a snapshot.
- The arbitrage sweep, manipulation tax, perpetual-market handlers and the drift program.
