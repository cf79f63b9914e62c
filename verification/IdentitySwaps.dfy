/** Swaps under the identity curve: the exact split of the raw output, and oracle value along paths. */
module IdentitySwaps {
  import opened Arithmetic
  import opened Curves
  import opened PoolStates
  import opened LpShares

  function Raw(base: PoolState, quote: PoolState, amountIn: nat, price: nat): nat {
    var scaling := ScalingFactor(base.decimals, quote.decimals);
    if scaling == 0 then 0 else RawAmountOut(amountIn, price, scaling)
  }

  function FeeRates(s: PoolSettings): nat {
    s.swapFee + s.backstopFee + s.protocolFee
  }

  /** What the output pool does with any raw output that it pays something for. */
  lemma PayOutSplit(curve: Curve, q: PoolBalances, decimals: nat, raw: nat, fee: nat, maxLpFee: nat)
    requires IsIdentity(curve) && q.reserve == q.reserveWithSlippage
    requires raw < TWO_255 && q.reserve < TWO_255
    requires PayOut(curve, q, decimals, raw, fee, maxLpFee).amountOut > 0
    ensures var out := PayOut(curve, q, decimals, raw, fee, maxLpFee);
            && raw == out.amountOut + fee + out.lpFee
            && out.lpFee <= maxLpFee
            && out.amountOut <= q.reserve
            && out.balances == PoolBalances(q.liabilities + out.lpFee, q.reserve - out.amountOut,
                                            q.reserve - out.amountOut)
  {
  }

  /**
   What it does with a raw output that it pays nothing for: unless the reserve wraps, it stays equal to the reserve
   with slippage exactly when the fee does not exceed the raw output.
   */
  lemma ZeroPayOut(curve: Curve, q: PoolBalances, decimals: nat, raw: nat, fee: nat, maxLpFee: nat)
    requires IsIdentity(curve) && q.reserve == q.reserveWithSlippage < TWO_255 && raw < TWO_255
    requires PayOut(curve, q, decimals, raw, fee, maxLpFee).amountOut == 0
    ensures var out := PayOut(curve, q, decimals, raw, fee, maxLpFee).balances;
            && out.liabilities >= q.liabilities
            && (out.reserve < TWO_255 ==> (out.reserve == out.reserveWithSlippage <==> fee <= raw))
  {
    assert Sub256(q.reserve + fee, raw) < TWO_255 ==> raw <= q.reserve + fee;
  }

  /**
   Every swap that pays anything divides the raw output into payment, fee and LP fee; takes exactly the payment
   from the output reserve and adds exactly the LP fee to its liabilities; and leaves the input pool covered.
   */
  lemma SwapSplit(curves: CurveFamily, base: PoolState, quote: PoolState, amountIn: nat, price: nat)
    requires IsIdentityFamily(curves) && AtPar(base) && AtPar(quote)
    requires Raw(base, quote, amountIn, price) < TWO_255 && quote.balances.reserve < TWO_255
    requires var r := GetCurveAmountOut(curves, base, quote, amountIn, price); r.Ok? && r.value.amountOut > 0
    ensures var q := GetCurveAmountOut(curves, base, quote, amountIn, price).value;
            var raw := Raw(base, quote, amountIn, price);
            var lpFee := q.quote.liabilities - quote.balances.liabilities;
            && raw == q.amountOut + Fee(quote.settings, raw) + lpFee
            && 0 <= lpFee <= MaxLpFee(quote.settings, raw)
            && q.amountOut < quote.balances.reserve
            && q.quote.reserve == q.quote.reserveWithSlippage == quote.balances.reserve - q.amountOut
            && q.base == PoolBalances(base.balances.liabilities,
                                      base.balances.reserve + amountIn,
                                      base.balances.reserve + amountIn)
            && q.base.reserve <= 2 * q.base.liabilities
  {
    assert IsIdentity(base.Curve(curves)) && IsIdentity(quote.Curve(curves));
    assert EffectiveAmountIn(curves, base, amountIn) == amountIn;
    var raw := Raw(base, quote, amountIn, price);
    PayOutSplit(quote.Curve(curves), quote.balances, quote.decimals, raw,
                Fee(quote.settings, raw), MaxLpFee(quote.settings, raw));
  }

  /** The trader receives at least the raw output less all three fee rates. */
  lemma FeesBounded(curves: CurveFamily, base: PoolState, quote: PoolState, amountIn: nat, price: nat)
    requires IsIdentityFamily(curves) && AtPar(base) && AtPar(quote)
    requires Raw(base, quote, amountIn, price) < TWO_255 && quote.balances.reserve < TWO_255
    requires var r := GetCurveAmountOut(curves, base, quote, amountIn, price); r.Ok? && r.value.amountOut > 0
    ensures var q := GetCurveAmountOut(curves, base, quote, amountIn, price).value;
            q.amountOut * FEE_PRECISION
            >= Raw(base, quote, amountIn, price) * (FEE_PRECISION - FeeRates(quote.settings))
  {
    SwapSplit(curves, base, quote, amountIn, price);
    FeeArithmetic(quote.settings, Raw(base, quote, amountIn, price));
  }

  lemma FeeArithmetic(s: PoolSettings, raw: nat)
    ensures (raw - Fee(s, raw) - MaxLpFee(s, raw)) * FEE_PRECISION >= raw * (FEE_PRECISION - FeeRates(s))
  {
    MulDivBounds(raw, s.backstopFee + s.protocolFee, FEE_PRECISION);
    MulDivBounds(raw, s.swapFee, FEE_PRECISION);
    assert raw * (FEE_PRECISION - FeeRates(s))
        == raw * FEE_PRECISION - raw * (s.backstopFee + s.protocolFee) - raw * s.swapFee;
  }

  /** A price that does not exceed the oracle quotient, scaled by 10^12. */
  predicate FairPrice(price: nat, oracleIn: nat, oracleOut: nat) {
    price * oracleOut <= oracleIn * PRICE_SCALING_FACTOR
  }

  /** Oracle value of `b` units out does not exceed that of `a` units in, both at their decimals. */
  ghost predicate NoValueCreated(a: nat, oracleIn: nat, decimalsIn: nat, b: nat, oracleOut: nat, decimalsOut: nat) {
    b * oracleOut * Pow10(decimalsIn) <= a * oracleIn * Pow10(decimalsOut)
  }

  lemma {:induction false} Pow10Adds(a: nat, b: nat)
    ensures Pow10(a + b) == Pow10(a) * Pow10(b)
  {
    if a > 0 {
      Pow10Adds(a - 1, b);
    }
  }

  /** The scaling factor is exact: it moves the decimals of the input to those of the output. */
  lemma ScalingExact(dIn: nat, dOut: nat)
    requires ScalingFactor(dIn, dOut) > 0
    ensures ScalingFactor(dIn, dOut) * Pow10(dOut) == PRICE_SCALING_FACTOR * Pow10(dIn)
  {
    if dIn > dOut {
      Pow10Adds(dIn - dOut, dOut);
      MulAssociates(PRICE_SCALING_FACTOR, Pow10(dIn - dOut), Pow10(dOut));
    } else {
      var k := dOut - dIn;
      Pow10Adds(k, dIn);
      DivisorOfScale(k);
      MulAssociates(ScalingFactor(dIn, dOut), Pow10(k), Pow10(dIn));
    }
  }

  /** A power of ten that divides 10^12 to a positive quotient divides it exactly. */
  lemma DivisorOfScale(k: nat)
    requires Div(PRICE_SCALING_FACTOR, Pow10(k)) > 0
    ensures Div(PRICE_SCALING_FACTOR, Pow10(k)) * Pow10(k) == PRICE_SCALING_FACTOR
  {
    Pow10Of12();
    if k > 12 {
      Pow10Adds(13, k - 13);
      MulMonotone(1, Pow10(k - 13), Pow10(13));
      DivBelow(PRICE_SCALING_FACTOR, Pow10(k));
    } else {
      Pow10Adds(12 - k, k);
      DivExact(Pow10(12 - k), Pow10(k));
    }
  }

  lemma Pow10Of12()
    ensures Pow10(12) == PRICE_SCALING_FACTOR && Pow10(13) == 10 * PRICE_SCALING_FACTOR
  {
    assert Pow10(6) == 1_000_000;
    Pow10Adds(6, 6);
  }

  lemma DivBelow(a: nat, b: nat)
    requires a < b
    ensures Div(a, b) == 0
  {
  }

  lemma DivExact(q: nat, b: nat)
    requires b > 0
    ensures Div(q * b, b) == q
  {
    MulDivAtLeast(q, q, b, b);
    MulDivAtMost(q, q, b, b);
    assert MulDiv(q, b, b) == Div(q * b, b);
  }

  /** No swap pays out more oracle value than it takes in. */
  lemma SwapCreatesNoValue(curves: CurveFamily, base: PoolState, quote: PoolState, amountIn: nat, price: nat,
                           oracleIn: nat, oracleOut: nat)
    requires IsIdentityFamily(curves) && AtPar(base) && AtPar(quote)
    requires Raw(base, quote, amountIn, price) < TWO_255 && quote.balances.reserve < TWO_255
    requires GetCurveAmountOut(curves, base, quote, amountIn, price).Ok?
    requires FairPrice(price, oracleIn, oracleOut)
    ensures NoValueCreated(
              amountIn, oracleIn, base.decimals,
              GetCurveAmountOut(curves, base, quote, amountIn, price).value.amountOut, oracleOut, quote.decimals)
  {
    var out := GetCurveAmountOut(curves, base, quote, amountIn, price).value.amountOut;
    if out > 0 {
      SwapSplit(curves, base, quote, amountIn, price);
      var scaling := ScalingFactor(base.decimals, quote.decimals);
      assert IsIdentity(base.Curve(curves));
      assert scaling > 0;
      ScalingExact(base.decimals, quote.decimals);
      MulDivBounds(amountIn, price, scaling);
      MulMonotone(out, Raw(base, quote, amountIn, price), scaling);
      ValueArithmetic(amountIn, out, price, scaling, oracleIn, oracleOut, Pow10(base.decimals), Pow10(quote.decimals));
    } else {
      MulMonotone(0, amountIn * oracleIn, Pow10(quote.decimals));
    }
  }

  /**
   What a swap is paid, with no reference to how it is computed: the amount sold at the price, in the decimals of the
   two assets, less the three fee rates, up to one unit of the raw output and two of the payment; the liquidity
   providers of the output pool earn the swap fee on it. It is paid whenever the input pool stays within twice its
   liabilities and the output fits the output reserve.
   */
  lemma SwapPriced(curves: CurveFamily, base: PoolState, quote: PoolState, amountIn: nat, price: nat)
    requires IsIdentityFamily(curves) && AtPar(base) && AtPar(quote)
    requires base.balances.reserve + amountIn <= 2 * base.balances.liabilities < TWO_255
    requires quote.decimals <= base.decimals + 12 && quote.balances.reserve < TWO_255
    requires quote.settings.swapFee + quote.settings.backstopFee + quote.settings.protocolFee <= 1_000_000
    requires amountIn * price * Pow10(quote.decimals)
             < quote.balances.reserve * (1_000_000_000_000 * Pow10(base.decimals))
    ensures var r := GetCurveAmountOut(curves, base, quote, amountIn, price);
            var unit := 1_000_000_000_000 * Pow10(base.decimals);
            var sold := amountIn * price * Pow10(quote.decimals);
            var share := 1_000_000 - quote.settings.swapFee - quote.settings.backstopFee - quote.settings.protocolFee;
            && r.Ok?
            && (sold - unit) * share <= r.value.amountOut * 1_000_000 * unit < sold * share + 2 * 1_000_000 * unit
            && var earned := r.value.quote.liabilities - quote.balances.liabilities;
            && (sold - unit) * quote.settings.swapFee - 1_000_000 * unit < earned * 1_000_000 * unit
               <= sold * quote.settings.swapFee
  {
    assert IsIdentity(base.Curve(curves)) && IsIdentity(quote.Curve(curves));
    assert EffectiveAmountIn(curves, base, amountIn) == amountIn;
    var scaling := ScalingFactor(base.decimals, quote.decimals);
    ScalingPositive(base.decimals, quote.decimals);
    ScalingExact(base.decimals, quote.decimals);
    var raw := RawAmountOut(amountIn, price, scaling);
    MulDivBounds(amountIn, price, scaling);
    var tOut, unit := Pow10(quote.decimals), 1_000_000_000_000 * Pow10(base.decimals);
    RawPriced(amountIn * price, raw, scaling, tOut, unit, quote.balances.reserve);
    var s := quote.settings;
    FeesWithinRaw(s, raw);
    var out := raw - Fee(s, raw) - MaxLpFee(s, raw);
    assert GetCurveAmountOut(curves, base, quote, amountIn, price).value.amountOut == out;
    var share := 1_000_000 - s.swapFee - s.backstopFee - s.protocolFee;
    PricedArithmetic(amountIn * price * tOut, raw, unit, share, out);
    MulDivBounds(raw, s.swapFee, FEE_PRECISION);
    EarnedArithmetic(amountIn * price * tOut, raw, unit, s.swapFee, MaxLpFee(s, raw));
    assert GetCurveAmountOut(curves, base, quote, amountIn, price).value.quote.liabilities
        == quote.balances.liabilities + MaxLpFee(s, raw);
  }

  lemma EarnedArithmetic(sold: nat, raw: nat, unit: nat, rate: nat, earned: nat)
    requires raw * unit <= sold < raw * unit + unit && unit > 0
    requires earned * 1_000_000 <= raw * rate < earned * 1_000_000 + 1_000_000
    ensures (sold - unit) * rate - 1_000_000 * unit < earned * 1_000_000 * unit <= sold * rate
  {
    MulMonotone(sold - unit, raw * unit, rate);
    MulMonotone(raw * unit, sold, rate);
    MulMonotone(earned * 1_000_000, raw * rate, unit);
    MulMonotone(raw * rate + 1, earned * 1_000_000 + 1_000_000, unit);
    MulSwap(raw, unit, rate);
    assert (raw * rate + 1) * unit == (raw * rate) * unit + unit;
    assert (earned * 1_000_000 + 1_000_000) * unit == earned * 1_000_000 * unit + 1_000_000 * unit;
  }

  lemma ScalingPositive(dIn: nat, dOut: nat)
    requires dOut <= dIn + 12
    ensures ScalingFactor(dIn, dOut) > 0
  {
    if dOut >= dIn {
      Pow10Of12();
      Pow10Adds(12 - (dOut - dIn), dOut - dIn);
      DivExact(Pow10(12 - (dOut - dIn)), Pow10(dOut - dIn));
    } else {
      MulMonotone(1, Pow10(dIn - dOut), PRICE_SCALING_FACTOR);
    }
  }

  lemma RawPriced(product: nat, raw: nat, scaling: nat, tOut: nat, unit: nat, reserve: nat)
    requires raw * scaling <= product < raw * scaling + scaling && scaling * tOut == unit && tOut > 0
    requires product * tOut < reserve * unit
    ensures raw * unit <= product * tOut < raw * unit + unit
    ensures raw < reserve
  {
    MulMonotone(raw * scaling, product, tOut);
    MulMonotone(product + 1, raw * scaling + scaling, tOut);
    assert (raw * scaling) * tOut == raw * unit;
    CancelStrict(raw, reserve, unit);
  }

  /** The two fees of an output, and what rounding them down can leave over. */
  lemma FeesWithinRaw(s: PoolSettings, raw: nat)
    requires s.swapFee + s.backstopFee + s.protocolFee <= 1_000_000
    ensures Fee(s, raw) + MaxLpFee(s, raw) <= raw
    ensures var share := 1_000_000 - s.swapFee - s.backstopFee - s.protocolFee;
            raw * share <= (raw - Fee(s, raw) - MaxLpFee(s, raw)) * 1_000_000 < raw * share + 2 * 1_000_000
  {
    var b := s.backstopFee + s.protocolFee;
    MulDivBounds(raw, b, FEE_PRECISION);
    MulDivBounds(raw, s.swapFee, FEE_PRECISION);
    assert raw * (1_000_000 - s.swapFee - b) == raw * 1_000_000 - raw * s.swapFee - raw * b;
    MulMonotone(s.swapFee + b, 1_000_000, raw);
    assert raw * (s.swapFee + b) == raw * s.swapFee + raw * b;
  }

  lemma PricedArithmetic(sold: nat, raw: nat, unit: nat, share: nat, out: nat)
    requires raw * unit <= sold < raw * unit + unit && unit > 0
    requires raw * share <= out * 1_000_000 < raw * share + 2 * 1_000_000
    ensures (sold - unit) * share <= out * 1_000_000 * unit < sold * share + 2 * 1_000_000 * unit
  {
    MulMonotone(sold - unit, raw * unit, share);
    MulMonotone(raw * unit, sold, share);
    MulMonotone(raw * share, out * 1_000_000, unit);
    MulMonotone(out * 1_000_000 + 1, raw * share + 2 * 1_000_000, unit);
    assert (raw * unit) * share == (raw * share) * unit;
    assert (out * 1_000_000 + 1) * unit == out * 1_000_000 * unit + unit;
    assert (raw * share + 2 * 1_000_000) * unit == (raw * share) * unit + 2 * 1_000_000 * unit;
  }

  lemma ValueArithmetic(a: nat, b: nat, price: nat, scaling: nat, pIn: nat, pOut: nat, tIn: nat, tOut: nat)
    requires b * scaling <= a * price
    requires price * pOut <= pIn * PRICE_SCALING_FACTOR
    requires scaling * tOut == PRICE_SCALING_FACTOR * tIn
    ensures b * pOut * tIn <= a * pIn * tOut
  {
    var f := PRICE_SCALING_FACTOR;
    MulMonotone(b * scaling, a * price, tOut * pOut);
    MulMonotone(price * pOut, pIn * f, a * tOut);
    assert (b * scaling) * (tOut * pOut) == (b * pOut) * (scaling * tOut);
    assert (b * pOut) * (f * tIn) == (b * pOut * tIn) * f;
    assert (a * price) * (tOut * pOut) == (price * pOut) * (a * tOut);
    assert (pIn * f) * (a * tOut) == (a * pIn * tOut) * f;
    CancelFactor(b * pOut * tIn, a * pIn * tOut, f);
  }

  lemma NoValueTransitive(a: nat, pa: nat, da: nat, b: nat, b': nat, pb: nat, db: nat, c: nat, pc: nat, dc: nat)
    requires NoValueCreated(a, pa, da, b, pb, db) && b' <= b && NoValueCreated(b', pb, db, c, pc, dc)
    ensures NoValueCreated(a, pa, da, c, pc, dc)
  {
    MulMonotone(b', b, pb);
    MulMonotone(b' * pb, b * pb, Pow10(dc));
    CrossTransitive(c * pc, Pow10(dc), b * pb, Pow10(db), a * pa, Pow10(da));
  }

  /** One swap of a path, against whatever states the two pools are in at that moment. */
  datatype Hop = Hop(base: PoolState, quote: PoolState, amountIn: nat, price: nat)

  function AmountOut(curves: CurveFamily, h: Hop): nat {
    match GetCurveAmountOut(curves, h.base, h.quote, h.amountIn, h.price)
    case Ok(q) => q.amountOut
    case Err(_) => 0
  }

  /** A path of swaps through assets 0, 1, ... n, each spending no more than the previous one paid. */
  ghost predicate IsPath(curves: CurveFamily, hops: seq<Hop>, oracle: seq<nat>, decimals: seq<nat>) {
    && |hops| > 0
    && |oracle| == |decimals| == |hops| + 1
    && (forall i | 0 <= i < |hops| :: IsHop(curves, hops[i], oracle[i], oracle[i + 1], decimals[i], decimals[i + 1]))
    && (forall i | 0 < i < |hops| :: hops[i].amountIn <= AmountOut(curves, hops[i - 1]))
  }

  ghost predicate IsHop(curves: CurveFamily, h: Hop, oracleIn: nat, oracleOut: nat, decimalsIn: nat, decimalsOut: nat) {
    && AtPar(h.base) && AtPar(h.quote)
    && h.base.decimals == decimalsIn && h.quote.decimals == decimalsOut
    && Raw(h.base, h.quote, h.amountIn, h.price) < TWO_255 && h.quote.balances.reserve < TWO_255
    && FairPrice(h.price, oracleIn, oracleOut)
    && GetCurveAmountOut(curves, h.base, h.quote, h.amountIn, h.price).Ok?
  }

  /** Along any path, through any intermediate pool states, no oracle value is created. */
  lemma {:induction false} PathCreatesNoValue(curves: CurveFamily, hops: seq<Hop>, oracle: seq<nat>, decimals: seq<nat>)
    requires IsIdentityFamily(curves) && IsPath(curves, hops, oracle, decimals)
    ensures NoValueCreated(hops[0].amountIn, oracle[0], decimals[0],
                           AmountOut(curves, hops[|hops| - 1]), oracle[|hops|], decimals[|hops|])
  {
    var n := |hops|;
    var last := hops[n - 1];
    assert IsHop(curves, last, oracle[n - 1], oracle[n], decimals[n - 1], decimals[n]);
    SwapCreatesNoValue(curves, last.base, last.quote, last.amountIn, last.price, oracle[n - 1], oracle[n]);
    if n > 1 {
      PathCreatesNoValue(curves, hops[..n - 1], oracle[..n], decimals[..n]);
      NoValueTransitive(hops[0].amountIn, oracle[0], decimals[0],
                        AmountOut(curves, hops[n - 2]), last.amountIn, oracle[n - 1], decimals[n - 1],
                        AmountOut(curves, last), oracle[n], decimals[n]);
    }
  }

  lemma NoProfitInOneAsset(a: nat, b: nat, oracle: nat, decimals: nat)
    requires NoValueCreated(a, oracle, decimals, b, oracle, decimals) && oracle > 0
    ensures b <= a
  {
    CancelFactor(b * oracle, a * oracle, Pow10(decimals));
    CancelFactor(b, a, oracle);
  }

  /** No cycle of swaps returns more than went in. */
  lemma NoProfitableCycle(curves: CurveFamily, hops: seq<Hop>, oracle: seq<nat>, decimals: seq<nat>)
    requires IsIdentityFamily(curves) && IsPath(curves, hops, oracle, decimals)
    requires oracle[|hops|] == oracle[0] > 0 && decimals[|hops|] == decimals[0]
    ensures AmountOut(curves, hops[|hops| - 1]) <= hops[0].amountIn
  {
    PathCreatesNoValue(curves, hops, oracle, decimals);
    NoProfitInOneAsset(hops[0].amountIn, AmountOut(curves, hops[|hops| - 1]), oracle[0], decimals[0]);
  }
}
