/**
 What the planner's results mean, in the integers of the note and of the pools before and after: whether a note is in
 time, why it is not executed, what it buys, mints or pays, and at which price.
 */
module Outcomes {
  import opened Wrappers
  import opened Arithmetic
  import opened Curves
  import opened Felts
  import opened Assets
  import opened PoolStates
  import opened LpShares
  import opened IdentitySwaps
  import opened Notes
  import opened Positions
  import opened Planner
  import opened Runs
  import opened LawfulCurves

  /** The note carries what its kind needs; any other note fails outright. */
  predicate Complete(note: Note) {
    match note.kind
    case DepositNote => note.assets != []
    case WithdrawNote => note.assetInput.Some?
    case SwapNote => note.assets != [] && note.assetInput.Some?
    case PositionNote => note.trade.Some?
    case P2ID => false
  }

  predicate Succeeds(r: ExecutionResult) {
    r.DepositSuccess? || r.WithdrawSuccess? || r.SwapSuccess?
  }

  /** Deadlines are cast to signed 64 bits, so those from 2^63 on lie before every clock that started at zero. */
  lemma DeadlineDecides(env: Env, pools: Pools, note: Note)
    requires Plan(env, pools, note).Ok?
    ensures var r := Plan(env, pools, note).value.result;
            && (note.deadline < 0x8000_0000_0000_0000 ==>
                  (r.PastDeadline? <==> Complete(note) && env.now > note.deadline))
            && (note.deadline >= 0x8000_0000_0000_0000 ==>
                  (r.PastDeadline? <==> Complete(note) && env.now > note.deadline - 0x1_0000_0000_0000_0000))
            && (note.deadline >= 0x8000_0000_0000_0000 && env.now >= 0 && Complete(note) ==> r.PastDeadline?)
            && (Succeeds(r) ==> env.now <= note.deadline)
            && (note.kind.DepositNote? && Complete(note) ==> r.DepositSuccess? || r.PastDeadline?)
  {
  }

  /**
   A deposit reports the LP tokens it mints: by that the supply grows, unless its counter saturates, and they are the
   growth of the liabilities at the share value before, rounded down.
   */
  lemma DepositReports(env: Env, pools: Pools, note: Note)
    requires Plan(env, pools, note).Ok? && Plan(env, pools, note).value.result.DepositSuccess?
    ensures var f, lp := note.assets[0].faucet, Plan(env, pools, note).value.result.amount;
            var pools' := PoolsAfter(Plan(env, pools, note).value, pools);
            && f in pools && pools'.Keys == pools.Keys
            && var p, p' := pools[f], pools'[f];
            && var l, grown := p.balances.liabilities, p'.balances.liabilities - p.balances.liabilities;
            && p'.lpTotalSupply == (if p.lpTotalSupply + lp <= U64_MAX then p.lpTotalSupply + lp else U64_MAX)
            && grown >= note.assets[0].amount
            && p'.balances.reserve - p.balances.reserve == grown
            && p'.balances.reserveWithSlippage - p.balances.reserveWithSlippage == note.assets[0].amount
            && (l == 0 ==> lp == grown)
            && (l > 0 ==> lp * l <= grown * p.lpTotalSupply < lp * l + l)
  {
    var p := pools[note.assets[0].faucet];
    var inc := DepositIncrement(env.curves, p, note.assets[0].amount);
    if p.balances.liabilities > 0 {
      MulDivBounds(inc, p.lpTotalSupply, p.balances.liabilities);
    }
  }

  /**
   A withdrawal reports what it pays: by that the reserve with slippage falls. The liabilities and the reserve fall
   by the value of the tokens redeemed, rounded down, and the payment does not exceed it.
   */
  lemma WithdrawalReports(env: Env, pools: Pools, note: Note)
    requires Plan(env, pools, note).Ok? && Plan(env, pools, note).value.result.WithdrawSuccess?
    requires PoolsFitU64(pools)
    ensures var f, paid := note.assetInput.value.faucet, Plan(env, pools, note).value.result.amount;
            var pools' := PoolsAfter(Plan(env, pools, note).value, pools);
            && f in pools && pools'.Keys == pools.Keys
            && var p, p' := pools[f], pools'[f];
            && var lp, supply := note.amountInput, p.lpTotalSupply;
            && var fallen := p.balances.liabilities - p'.balances.liabilities;
            && p.balances.reserve - p'.balances.reserve == fallen
            && p.balances.reserveWithSlippage - p'.balances.reserveWithSlippage == paid
            && note.assetInput.value.amount <= paid <= fallen
            && p'.lpTotalSupply == (if lp <= supply then supply - lp else 0)
            && (supply == 0 ==> fallen == 0)
            && (supply > 0 ==> fallen * supply <= lp * p.balances.liabilities < fallen * supply + supply)
  {
    var p := pools[note.assetInput.value.faucet];
    assert FitsU64(p.balances);
    WithdrawWithinPool(env.curves, p, note.amountInput);
    if p.lpTotalSupply > 0 {
      MulDivBounds(note.amountInput, p.balances.liabilities, p.lpTotalSupply);
    }
  }

  /** On a lawful curve the payment is exactly the fall of the curve, so nothing is left to a clamp. */
  lemma WithdrawalPaysCurve(env: Env, pools: Pools, note: Note)
    requires Plan(env, pools, note).Ok? && Plan(env, pools, note).value.result.WithdrawSuccess?
    requires PoolsFitU64(pools) && IsLawfulFamily(env.curves) && AllOnPsi(env.curves, pools)
    ensures var f := note.assetInput.value.faucet;
            var p' := PoolsAfter(Plan(env, pools, note).value, pools)[f];
            Plan(env, pools, note).value.result.amount
            == pools[f].balances.reserveWithSlippage
               - p'.Curve(env.curves).psi(p'.balances.reserve, p'.balances.liabilities, p'.decimals)
  {
    var p := pools[note.assetInput.value.faucet];
    assert FitsU64(p.balances);
    WithdrawWithinPool(env.curves, p, note.amountInput);
    WithdrawStaysOnPsi(env.curves, p, note.amountInput);
  }

  /** Under the identity curve a withdrawal executes exactly if it is in time and its shares cover its minimum. */
  lemma WithdrawalExecutesExactly(env: Env, pools: Pools, note: Note)
    requires Plan(env, pools, note).Ok? && note.kind.WithdrawNote? && Complete(note)
    requires note.deadline < 0x8000_0000_0000_0000
    requires IsIdentityFamily(env.curves) && AtPar(pools[note.assetInput.value.faucet])
    requires var p := pools[note.assetInput.value.faucet];
             && 0 < note.amountInput <= p.lpTotalSupply
             && note.amountInput * p.balances.liabilities < (p.balances.reserve + 1) * p.lpTotalSupply
    ensures var p := pools[note.assetInput.value.faucet];
            Plan(env, pools, note).value.result.WithdrawSuccess?
            <==> env.now <= note.deadline
                 && note.assetInput.value.amount * p.lpTotalSupply <= note.amountInput * p.balances.liabilities
  {
    var p := pools[note.assetInput.value.faucet];
    var lp, l, supply, least := note.amountInput, p.balances.liabilities, p.lpTotalSupply, note.assetInput.value.amount;
    AssetsForWithin(l, supply, lp);
    QuotientAtMost(p.balances.reserve, lp, l, supply);
    WithdrawPaysDecrement(env.curves, p, lp);
    QuotientAtLeast(least, lp, l, supply);
  }

  lemma QuotientAtLeast(k: nat, a: nat, b: nat, c: nat)
    requires c > 0
    ensures k <= MulDiv(a, b, c) <==> k * c <= a * b
  {
    if k > 0 {
      QuotientAtMost(k - 1, a, b, c);
    }
  }

  /** What a swap or a position trade would be paid, asked of the curve and the two prices. */
  function Quoted(env: Env, pools: Pools, trade: Trade): Result<SwapQuote, SwapError>
    requires trade.sell.faucet in pools && trade.buy.faucet in pools
    requires trade.sell.faucet in env.prices && trade.buy.faucet in env.prices
  {
    GetCurveAmountOut(env.curves, pools[trade.sell.faucet], pools[trade.buy.faucet], trade.sell.amount,
                      env.quoteWith(env.prices[trade.sell.faucet], env.prices[trade.buy.faucet]))
  }

  /** A trade executes exactly if it is in time and would be paid its minimum; it then reports that payment. */
  lemma TradeExecutesExactly(env: Env, pools: Pools, note: Note)
    requires Plan(env, pools, note).Ok? && TradeOf(note).Some? && note.deadline < 0x8000_0000_0000_0000
    ensures var trade := TradeOf(note).value;
            var r := Plan(env, pools, note).value.result;
            && trade.sell.faucet in pools && trade.buy.faucet in pools
            && trade.sell.faucet in env.prices && trade.buy.faucet in env.prices
            && var q := Quoted(env, pools, trade);
            && q.Ok?
            && (r.SwapSuccess? <==> env.now <= note.deadline && q.value.amountOut >= trade.buy.amount)
            && (r.SwapSuccess? ==> r.amount == q.value.amountOut)
            && (r.Failed? <==> env.now <= note.deadline && q.value.amountOut < trade.buy.amount)
  {
  }

  /** A quote is refused exactly for operands beyond the signed range, decimals too far apart, or an emptied pool. */
  lemma QuoteExactly(curves: CurveFamily, base: PoolState, quote: PoolState, amountIn: nat, price: nat)
    ensures var r := GetCurveAmountOut(curves, base, quote, amountIn, price);
            var b := base.balances;
            var reached := b.reserve + base.Curve(curves).inverseHorizontal(
                             b.reserve, b.liabilities, b.reserveWithSlippage + amountIn, base.decimals);
            && (r.Ok? ==> b.reserve < TWO_255 && b.liabilities < TWO_255 && b.reserveWithSlippage + amountIn < TWO_255)
            && (r.Ok? && reached > 2 * b.liabilities ==> r.value == SwapQuote(0, b, quote.balances))
            && (r.Ok? && reached <= 2 * b.liabilities ==>
                  && quote.decimals <= base.decimals + 12
                  && r.value.base.reserve == reached && r.value.base.liabilities == b.liabilities
                  && r.value.quote.reserveWithSlippage > 0)
            && (r.Err? ==>
                  || b.reserve >= TWO_255 || b.liabilities >= TWO_255 || b.reserveWithSlippage + amountIn >= TWO_255
                  || (reached <= 2 * b.liabilities && quote.decimals > base.decimals + 12)
                  || (reached <= 2 * b.liabilities && r.error == AmountOutExceedsReserve))
  {
    if quote.decimals <= base.decimals + 12 {
      ScalingPositive(base.decimals, quote.decimals);
    } else {
      var k := quote.decimals - base.decimals;
      Pow10Of12();
      Pow10Adds(13, k - 13);
      MulMonotone(1, Pow10(k - 13), Pow10(13));
      DivBelow(PRICE_SCALING_FACTOR, Pow10(k));
    }
  }

  predicate Below64(b: PoolBalances) {
    var limit := 0x1_0000_0000_0000_0000;
    b.liabilities < limit && b.reserve < limit && b.reserveWithSlippage < limit
  }

  /** A deposit or withdrawal can be planned exactly if its pool is known and its new balances fit 64 bits. */
  lemma LpPlannedExactly(env: Env, pools: Pools, note: Note)
    requires Complete(note) && note.deadline < 0x8000_0000_0000_0000
    ensures note.kind.DepositNote? ==>
              var f, d := note.assets[0].faucet, note.assets[0].amount;
              (Plan(env, pools, note).Ok? <==>
                 && f in pools
                 && if env.now > note.deadline then Below64(pools[f].balances)
                    else Below64(AfterDeposit(env.curves, pools[f], d).balances)
                         && GetDepositLpAmountOut(env.curves, pools[f], d).amount < 0x1_0000_0000_0000_0000)
    ensures note.kind.WithdrawNote? ==>
              var f, lp := note.assetInput.value.faucet, note.amountInput;
              (Plan(env, pools, note).Ok? <==>
                 && f in pools
                 && var paid := GetWithdrawAssetAmountOut(env.curves, pools[f], lp).amount;
                    || env.now > note.deadline || paid < note.assetInput.value.amount
                    || (paid < 0x1_0000_0000_0000_0000 && Below64(AfterWithdraw(env.curves, pools[f], lp).balances)))
  {
  }

  /** A trade can be planned exactly if pools and prices are known, there is a quote, and what it pays can be held. */
  lemma TradePlannedExactly(env: Env, pools: Pools, note: Note)
    requires TradeOf(note).Some? && note.deadline < 0x8000_0000_0000_0000
    ensures var trade := TradeOf(note).value;
            Plan(env, pools, note).Ok? <==>
              && trade.sell.faucet in pools && trade.buy.faucet in pools
              && trade.sell.faucet in env.prices && trade.buy.faucet in env.prices
              && Quoted(env, pools, trade).Ok?
              && var out := Quoted(env, pools, trade).value.amountOut;
                 || env.now > note.deadline || out < trade.buy.amount
                 || (note.kind.SwapNote? && out < 0x1_0000_0000_0000_0000)
                 || (note.kind.PositionNote? && out <= 0x8000_0000_0000_0000
                     && Respawn(note.assets, trade.sell, Asset(trade.buy.faucet, false, out)).Ok?)
  {
  }

  /** A price quotient that never rounds up, and one that rounds down by less than one. */
  ghost predicate FairOracle(env: Env) {
    forall p: nat, q: nat :: env.quoteWith(p, q) * q <= p * 1_000_000_000_000
  }

  ghost predicate TightOracle(env: Env) {
    forall p: nat, q: nat | q > 0 :: env.quoteWith(p, q) * q + q > p * 1_000_000_000_000
  }

  /** The two pools of a trade are at par and small enough to be stored. */
  ghost predicate TradesAtPar(env: Env, pools: Pools, trade: Trade) {
    && IdentityEnv(env)
    && trade.sell.faucet in pools && trade.buy.faucet in pools
    && AtPar(pools[trade.sell.faucet]) && AtPar(pools[trade.buy.faucet])
    && FitsFelt(pools[trade.sell.faucet].balances) && FitsFelt(pools[trade.buy.faucet].balances)
  }

  /** No executed swap or position trade pays out more at the oracle's prices than it takes in. */
  lemma TradeCreatesNoValue(env: Env, pools: Pools, note: Note)
    requires Plan(env, pools, note).Ok? && Plan(env, pools, note).value.result.SwapSuccess?
    requires TradeOf(note).Some? && TradesAtPar(env, pools, TradeOf(note).value) && FairOracle(env)
    ensures var Trade(sell, buy) := TradeOf(note).value;
            && sell.faucet in env.prices && buy.faucet in env.prices
            && Plan(env, pools, note).value.result.amount * env.prices[buy.faucet]
                 * Pow10(pools[sell.faucet].decimals)
               <= sell.amount * env.prices[sell.faucet] * Pow10(pools[buy.faucet].decimals)
  {
    var Trade(sell, buy) := TradeOf(note).value;
    var p, q := env.prices[sell.faucet], env.prices[buy.faucet];
    var price := env.quoteWith(p, q);
    RawBounded(pools[sell.faucet], pools[buy.faucet], sell.amount, price);
    SwapCreatesNoValue(env.curves, pools[sell.faucet], pools[buy.faucet], sell.amount, price, p, q);
  }

  /** The part of a pool's raw output that is left to the trader, in millionths. */
  function TraderShare(p: PoolState): int {
    1_000_000 - p.settings.swapFee - p.settings.backstopFee - p.settings.protocolFee
  }

  /** The trade is within what the two pools can take and give at the oracle's prices. */
  predicate FitsPools(base: PoolState, quote: PoolState, amount: nat, p: nat, q: nat) {
    && q > 0 && TraderShare(quote) >= 0 && quote.decimals <= base.decimals + 12
    && base.balances.reserve + amount <= 2 * base.balances.liabilities
    && amount * p * Pow10(quote.decimals) < quote.balances.reserve * q * Pow10(base.decimals)
  }

  /** Whole units of the payment at a price of `p / q`, in the smallest fractions that prices and fees are kept in. */
  function Fractions(base: PoolState, q: nat): nat {
    1_000_000 * (1_000_000_000_000 * Pow10(base.decimals)) * q
  }

  /** The amount sold at the oracle's price, less all fees, and less what rounding price and raw output can take. */
  function PriceFloor(base: PoolState, quote: PoolState, amount: nat, p: nat, q: nat): int {
    (amount * (p * 1_000_000_000_000 - q) * Pow10(quote.decimals) - 1_000_000_000_000 * Pow10(base.decimals) * q)
    * TraderShare(quote)
  }

  lemma QuotePriced(curves: CurveFamily, base: PoolState, quote: PoolState, amount: nat, price: nat, p: nat, q: nat)
    returns (out: nat)
    requires IsIdentityFamily(curves) && AtPar(base) && AtPar(quote)
    requires FitsFelt(base.balances) && FitsFelt(quote.balances) && FitsPools(base, quote, amount, p, q)
    requires price * q <= p * 1_000_000_000_000
    ensures var r := GetCurveAmountOut(curves, base, quote, amount, price); r.Ok? && out == r.value.amountOut
    ensures LeastPaid(amount, price, Pow10(quote.decimals), 1_000_000_000_000 * Pow10(base.decimals),
                      TraderShare(quote), out)
  {
    PriceFits(amount, price, p, q, Pow10(base.decimals), Pow10(quote.decimals), quote.balances.reserve);
    SwapPriced(curves, base, quote, amount, price);
    out := GetCurveAmountOut(curves, base, quote, amount, price).value.amountOut;
  }

  predicate LeastPaid(amount: nat, price: nat, tOut: nat, unit: nat, share: int, out: nat) {
    (amount * price * tOut - unit) * share <= out * 1_000_000 * unit
  }

  lemma QuotePaysPrice(curves: CurveFamily, base: PoolState, quote: PoolState, amount: nat, price: nat, p: nat, q: nat)
    requires IsIdentityFamily(curves) && AtPar(base) && AtPar(quote)
    requires FitsFelt(base.balances) && FitsFelt(quote.balances) && FitsPools(base, quote, amount, p, q)
    requires price * q <= p * 1_000_000_000_000 < price * q + q
    ensures var r := GetCurveAmountOut(curves, base, quote, amount, price);
            r.Ok? && PriceFloor(base, quote, amount, p, q) <= r.value.amountOut * Fractions(base, q)
  {
    var out := QuotePriced(curves, base, quote, amount, price, p, q);
    LowerArithmetic(amount, price, p, q, Pow10(quote.decimals), 1_000_000_000_000 * Pow10(base.decimals),
                    TraderShare(quote), out);
  }

  /**
   A trade in time that fits the pools is paid at least this floor, and it is executed if its minimum is not above.
   */
  lemma TradePaysPrice(env: Env, pools: Pools, note: Note)
    requires Plan(env, pools, note).Ok? && TradeOf(note).Some? && TradesAtPar(env, pools, TradeOf(note).value)
    requires FairOracle(env) && TightOracle(env) && env.now <= note.deadline < 0x8000_0000_0000_0000
    requires var Trade(sell, buy) := TradeOf(note).value;
             && sell.faucet in env.prices && buy.faucet in env.prices
             && FitsPools(pools[sell.faucet], pools[buy.faucet], sell.amount,
                          env.prices[sell.faucet], env.prices[buy.faucet])
    ensures var Trade(sell, buy) := TradeOf(note).value;
            var base, quote := pools[sell.faucet], pools[buy.faucet];
            var r := Plan(env, pools, note).value.result;
            var p, q := env.prices[sell.faucet], env.prices[buy.faucet];
            && (r.SwapSuccess? ==> PriceFloor(base, quote, sell.amount, p, q) <= r.amount * Fractions(base, q))
            && (buy.amount * Fractions(base, q) <= PriceFloor(base, quote, sell.amount, p, q) ==> r.SwapSuccess?)
  {
    var Trade(sell, buy) := TradeOf(note).value;
    var base, quote := pools[sell.faucet], pools[buy.faucet];
    var p, q := env.prices[sell.faucet], env.prices[buy.faucet];
    QuotePaysPrice(env.curves, base, quote, sell.amount, env.quoteWith(p, q), p, q);
    TradeExecutesExactly(env, pools, note);
    var out := Quoted(env, pools, Trade(sell, buy)).value.amountOut;
    if buy.amount * Fractions(base, q) <= PriceFloor(base, quote, sell.amount, p, q) {
      MulMonotone(1, Pow10(base.decimals), q);
      CancelFactor(buy.amount, out, Fractions(base, q));
    }
  }

  lemma PriceFits(a: nat, price: nat, p: nat, q: nat, tIn: nat, tOut: nat, reserve: nat)
    requires price * q <= p * 1_000_000_000_000 && q > 0
    requires a * p * tOut < reserve * q * tIn
    ensures a * price * tOut < reserve * (1_000_000_000_000 * tIn)
  {
    var f := 1_000_000_000_000;
    MulMonotone(price * q, p * f, a * tOut);
    assert (price * q) * (a * tOut) == (a * price * tOut) * q;
    assert (p * f) * (a * tOut) == (a * p * tOut) * f;
    MulMonotone(a * p * tOut + 1, reserve * q * tIn, f);
    assert (reserve * q * tIn) * f == (reserve * (f * tIn)) * q;
    CancelStrict(a * price * tOut, reserve * (f * tIn), q);
  }

  lemma LowerArithmetic(a: nat, price: nat, p: nat, q: nat, tOut: nat, unit: nat, share: nat, out: nat)
    requires price * q + q > p * 1_000_000_000_000
    requires LeastPaid(a, price, tOut, unit, share, out)
    ensures (a * (p * 1_000_000_000_000 - q) * tOut - unit * q) * share <= out * (1_000_000 * unit * q)
  {
    PriceBelow(a, price, p * 1_000_000_000_000, q, tOut);
    var scaled := a * (p * 1_000_000_000_000 - q) * tOut;
    ScaleFloor(scaled, a * price * tOut, unit, q, share, out * 1_000_000 * unit);
    MulAssociates(out, 1_000_000 * unit, q);
    assert out * 1_000_000 * unit == out * (1_000_000 * unit);
  }

  lemma ScaleFloor(scaled: int, sold: int, unit: nat, q: nat, share: nat, paid: nat)
    requires scaled <= sold * q && (sold - unit) * share <= paid
    ensures (scaled - unit * q) * share <= paid * q
  {
    assert (sold - unit) * q == sold * q - unit * q;
    MulMonotone(scaled - unit * q, (sold - unit) * q, share);
    MulSwap(sold - unit, q, share);
    MulMonotone((sold - unit) * share, paid, q);
  }

  lemma PriceBelow(a: nat, price: nat, scaled: nat, q: nat, tOut: nat)
    requires scaled - q < price * q
    ensures a * (scaled - q) * tOut <= (a * price * tOut) * q
  {
    MulMonotone(scaled - q, price * q, a * tOut);
    assert (scaled - q) * (a * tOut) == a * (scaled - q) * tOut;
    assert (price * q) * (a * tOut) == (a * price * tOut) * q;
  }
}
