/** Machine widths, the program's result type and the error codes the modelled paths return. */
module Types {
  const U32_MAX: int := 0xffff_ffff
  const U64_MAX: int := 0xffff_ffff_ffff_ffff
  const U128_MAX: int := 0xffff_ffff_ffff_ffff_ffff_ffff_ffff_ffff
  const U256_MAX: int := U128_MAX * 0x1_0000_0000_0000_0000_0000_0000_0000_0000 + U128_MAX

  /** 1.0 in Q64.64. */
  const Q64: int := 0x1_0000_0000_0000_0000

  type u32 = x: int | 0 <= x <= U32_MAX
  type u64 = x: int | 0 <= x <= U64_MAX
  type u128 = x: int | 0 <= x <= U128_MAX
  type u256 = x: int | 0 <= x <= U256_MAX
  const I128_MAX: int := 0x7fff_ffff_ffff_ffff_ffff_ffff_ffff_ffff
  type i128 = x: int | -I128_MAX - 1 <= x <= I128_MAX

  datatype Option<+T> = None | Some(value: T)

  /** `Panic` stands for the aborts of checked primitive arithmetic and of the big-number casts. */
  datatype ErrorCode =
    | Panic
    | CalculateOverflow
    | MaxTokenOverflow
    | SqrtPriceLimitOverflow
    | SqrtPriceX64
    | ZeroSqrtPrice
    | ZeroLiquidity
    | LiquiditySubValueErr
    | LiquidityAddValueErr
    | TickUpperOverflow
    | InvalidTickIndex
    | InvalidTickArrayBoundary
    | InvalidOrderPhase
    | OrderAlreadyFilled
    | OrderPhaseSaturated
    | InvalidLimitOrderAmount
    | ZeroAmountSpecified
    | LiquidityInsufficient
    | InvalidRewardPeriod
    | NotApproveUpdateRewardEmissions
    | NotApproved
    | RequireViolated

  datatype Result<+T> = Ok(value: T) | Err(error: ErrorCode) {
    predicate IsFailure() { Err? }

    function PropagateFailure<U>(): Result<U>
      requires Err?
    {
      Err(error)
    }

    function Extract(): T
      requires Ok?
    {
      value
    }
  }

  function Min(a: int, b: int): int { if a <= b then a else b }

  function Max(a: int, b: int): int { if a <= b then b else a }
}
