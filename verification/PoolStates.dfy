/**
 The off-chain pool state of `pool_state.rs` and the swap quote of `curve.rs`.

 `PoolState` is a copied value in the source, so it is a value here. The `U256` subtractions of the source
 wrap modulo 2^256 and are modelled so; sums and products of the 64-bit operands do not reach 2^256 and are
 taken over the naturals.
 */
module PoolStates {
  import opened Wrappers
  import opened Arithmetic
  import opened Curves
  import opened Felts

  const TWO_255: nat := 0x8000000000000000_0000000000000000_0000000000000000_0000000000000000
  const TWO_256: nat := 2 * TWO_255
  const FEE_PRECISION: nat := 1_000_000
  const PRICE_SCALING_FACTOR: nat := 1_000_000_000_000

  datatype PoolBalances = PoolBalances(liabilities: nat, reserve: nat, reserveWithSlippage: nat)

  predicate FitsU64(b: PoolBalances) {
    b.liabilities <= U64_MAX && b.reserve <= U64_MAX && b.reserveWithSlippage <= U64_MAX
  }

  datatype PoolSettings = PoolSettings(beta: int, c: int, swapFee: nat, backstopFee: nat, protocolFee: nat)

  datatype PoolState = PoolState(settings: PoolSettings, balances: PoolBalances, lpTotalSupply: nat, decimals: nat) {
    function UpdateState(balances: PoolBalances, lpTotalSupply: nat): PoolState {
      this.(balances := balances, lpTotalSupply := lpTotalSupply)
    }

    function UpdateBalances(balances: PoolBalances): PoolState {
      this.(balances := balances)
    }

    function Curve(curves: CurveFamily): Curve {
      curves(settings.beta, settings.c)
    }
  }

  /** What a deposit or a redemption yields: LP tokens or assets, the new supply and the new balances. */
  datatype LpQuote = LpQuote(amount: nat, lpTotalSupply: nat, balances: PoolBalances)

  function Min(a: nat, b: nat): nat {
    if a <= b then a else b
  }

  function Max(a: nat, b: nat): nat {
    if a <= b then b else a
  }

  /** `a - b` on `U256`: a negative difference wraps. */
  function Sub256(a: nat, b: nat): nat {
    if b <= a then a - b else SaturatingSub(a + TWO_256, b)
  }

  /** The LP tokens minted for an increment of the liabilities. */
  function LpFor(liabilities: nat, supply: nat, increment: nat): nat {
    if liabilities > 0 then MulDiv(increment, supply, liabilities) else increment
  }

  /** The part of the liabilities that a number of LP tokens stands for. */
  function AssetsFor(liabilities: nat, supply: nat, lp: nat): nat {
    if supply == 0 then 0 else MulDiv(lp, liabilities, supply)
  }

  /** By how much a deposit raises the reserve and the liabilities. */
  function DepositIncrement(curves: CurveFamily, s: PoolState, depositAmount: nat): nat {
    var b := s.balances;
    var solved := s.Curve(curves).inverseDiagonal(
      b.reserve, b.liabilities, b.reserveWithSlippage + depositAmount, s.decimals);
    Max(solved, depositAmount)
  }

  /** By how much redeeming `lp` tokens lowers them. */
  function WithdrawDecrement(s: PoolState, lp: nat): nat {
    AssetsFor(s.balances.liabilities, s.lpTotalSupply, lp)
  }

  function GetDepositLpAmountOut(curves: CurveFamily, s: PoolState, depositAmount: nat): LpQuote {
    var PoolBalances(liabilities, reserve, rws) := s.balances;
    var increment := DepositIncrement(curves, s, depositAmount);
    var lp := LpFor(liabilities, s.lpTotalSupply, increment);
    LpQuote(
      lp,
      Min(s.lpTotalSupply + lp, U64_MAX),
      PoolBalances(liabilities + increment, reserve + increment, rws + depositAmount))
  }

  function GetWithdrawAssetAmountOut(curves: CurveFamily, s: PoolState, lp: nat): LpQuote {
    var PoolBalances(liabilities, reserve, rws) := s.balances;
    var decrement := WithdrawDecrement(s, lp);
    var newReserve := Sub256(reserve, decrement);
    var newLiabilities := Sub256(liabilities, decrement);
    var target := Min(s.Curve(curves).psi(newReserve, newLiabilities, s.decimals), rws);
    var payout := Min(rws - target, decrement);
    LpQuote(
      payout,
      SaturatingSub(s.lpTotalSupply, lp),
      PoolBalances(newLiabilities, newReserve, rws - payout))
  }

  datatype SwapQuote = SwapQuote(amountOut: nat, base: PoolBalances, quote: PoolBalances)

  datatype SwapError = ExceedsSignedRange | DivisionByZero | AmountOutExceedsReserve

  function Pow10(k: nat): (r: nat)
    ensures r >= 1
  {
    if k == 0 then 1 else 10 * Pow10(k - 1)
  }

  function ScalingFactor(decimalsIn: nat, decimalsOut: nat): nat {
    if decimalsIn > decimalsOut then PRICE_SCALING_FACTOR * Pow10(decimalsIn - decimalsOut)
    else Div(PRICE_SCALING_FACTOR, Pow10(decimalsOut - decimalsIn))
  }

  /** The output pool's side of a swap: what is paid, the LP fee taken, and the balances left. */
  datatype OutputSide = OutputSide(amountOut: nat, lpFee: nat, balances: PoolBalances)

  function PayOut(curve: Curve, q: PoolBalances, decimals: nat, raw: nat, fee: nat, maxLpFee: nat): OutputSide {
    // a wrapping subtraction and a wrapping addition of the fee
    var reduced := Sub256(q.reserve + fee, raw);
    var lpFee := Min(curve.inverseDiagonal(reduced, q.liabilities, q.reserveWithSlippage, decimals), maxLpFee);
    var newReserve, newLiabilities := reduced + lpFee, q.liabilities + lpFee;
    var newRws := Min(curve.psi(newReserve, newLiabilities, decimals), q.reserveWithSlippage);
    OutputSide(q.reserveWithSlippage - newRws, lpFee, PoolBalances(newLiabilities, newReserve, newRws))
  }

  function Fee(s: PoolSettings, raw: nat): nat {
    MulDiv(raw, s.backstopFee + s.protocolFee, FEE_PRECISION)
  }

  function MaxLpFee(s: PoolSettings, raw: nat): nat {
    MulDiv(raw, s.swapFee, FEE_PRECISION)
  }

  /** The input pool's side of a swap, before the coverage guard. */
  function EffectiveAmountIn(curves: CurveFamily, base: PoolState, amountIn: nat): nat {
    base.Curve(curves).inverseHorizontal(
      base.balances.reserve, base.balances.liabilities, base.balances.reserveWithSlippage + amountIn, base.decimals)
  }

  function RawAmountOut(effective: nat, price: nat, scaling: nat): nat
    requires scaling > 0
  {
    MulDiv(effective, price, scaling)
  }

  function GetCurveAmountOut(curves: CurveFamily, base: PoolState, quote: PoolState, amountIn: nat, price: nat)
    : Result<SwapQuote, SwapError>
  {
    var b, q := base.balances, quote.balances;
    if b.reserve >= TWO_255 || b.liabilities >= TWO_255 || b.reserveWithSlippage + amountIn >= TWO_255 then
      Err(ExceedsSignedRange)
    else
      var effective := EffectiveAmountIn(curves, base, amountIn);
      if b.reserve + effective > 2 * b.liabilities then
        Ok(SwapQuote(0, b, q))
      else
        var scaling := ScalingFactor(base.decimals, quote.decimals);
        if scaling == 0 then
          Err(DivisionByZero)
        else
          var raw := RawAmountOut(effective, price, scaling);
          var out := PayOut(
            quote.Curve(curves), q, quote.decimals, raw, Fee(quote.settings, raw), MaxLpFee(quote.settings, raw));
          if out.balances.reserveWithSlippage == 0 then
            Err(AmountOutExceedsReserve)
          else
            Ok(SwapQuote(
                 out.amountOut,
                 PoolBalances(b.liabilities, b.reserve + effective, b.reserveWithSlippage + amountIn),
                 out.balances))
  }
}
