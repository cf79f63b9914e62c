/**
 Pools on any curve whose inverses do invert `psi`, as the pool code takes for granted. They stay on it: the
 reserve with slippage is what the curve makes of reserve and liabilities. The identity curve is one of them.
 */
module LawfulCurves {
  import opened Arithmetic
  import opened Curves
  import opened Assets
  import opened PoolStates
  import opened LpShares
  import opened Notes
  import opened Planner
  import opened Refinement
  import opened Runs

  /** `psi` of an empty pool is zero, it grows with the reserve, and along the diagonal by at most what is added. */
  ghost predicate Grows(curve: Curve) {
    && (forall d: nat :: curve.psi(0, 0, d) == 0)
    && (forall b: nat, b': nat, l: nat, d: nat | b <= b' :: curve.psi(b, l, d) <= curve.psi(b', l, d))
    && (forall b: nat, l: nat, a: nat, d: nat :: GrowsAlong(curve, b, l, a, d))
  }

  predicate GrowsAlong(curve: Curve, b: nat, l: nat, a: nat, d: nat) {
    curve.psi(b, l, d) <= curve.psi(b + a, l + a, d) <= curve.psi(b, l, d) + a
  }

  /** The two inverses reach every target at or above the present value, along the diagonal and horizontally. */
  ghost predicate Solves(curve: Curve) {
    forall b: nat, l: nat, target: nat, d: nat | curve.psi(b, l, d) <= target ::
      SolvesFor(curve, b, l, target, d)
  }

  predicate SolvesFor(curve: Curve, b: nat, l: nat, target: nat, d: nat) {
    var x := curve.inverseDiagonal(b, l, target, d);
    && curve.psi(b + x, l + x, d) == target
    && curve.psi(b + curve.inverseHorizontal(b, l, target, d), l, d) == target
  }

  ghost predicate IsLawfulFamily(curves: CurveFamily) {
    forall beta: int, c: int :: Grows(curves(beta, c)) && Solves(curves(beta, c))
  }

  lemma IdentityIsLawful(curves: CurveFamily)
    requires IsIdentityFamily(curves)
    ensures IsLawfulFamily(curves)
  {
    forall beta: int, c: int
      ensures Grows(curves(beta, c)) && Solves(curves(beta, c))
    {
      assert IsIdentity(curves(beta, c));
    }
  }

  /** The reserve with slippage is the value of the pool's own curve at its balances. */
  ghost predicate OnPsi(curves: CurveFamily, p: PoolState) {
    p.balances.reserveWithSlippage
    == curves(p.settings.beta, p.settings.c).psi(p.balances.reserve, p.balances.liabilities, p.decimals)
  }

  ghost predicate AllOnPsi(curves: CurveFamily, pools: Pools) {
    forall f | f in pools :: OnPsi(curves, pools[f])
  }

  lemma OnPsiOfIdentity(curves: CurveFamily, p: PoolState)
    requires IsIdentityFamily(curves)
    ensures OnPsi(curves, p) <==> AtPar(p)
  {
    assert IsIdentity(p.Curve(curves));
  }

  lemma DepositStaysOnPsi(curves: CurveFamily, p: PoolState, amount: nat)
    requires IsLawfulFamily(curves) && OnPsi(curves, p)
    ensures OnPsi(curves, AfterDeposit(curves, p, amount))
    ensures DepositIncrement(curves, p, amount) >= amount
  {
    var b, curve := p.balances, p.Curve(curves);
    assert Grows(curve) && Solves(curve);
    assert SolvesFor(curve, b.reserve, b.liabilities, b.reserveWithSlippage + amount, p.decimals);
    var x := curve.inverseDiagonal(b.reserve, b.liabilities, b.reserveWithSlippage + amount, p.decimals);
    assert GrowsAlong(curve, b.reserve, b.liabilities, x, p.decimals);
  }

  /** A redemption pays exactly the fall of the curve along the diagonal. */
  lemma WithdrawStaysOnPsi(curves: CurveFamily, p: PoolState, lp: nat)
    requires IsLawfulFamily(curves) && OnPsi(curves, p)
    requires WithdrawDecrement(p, lp) <= p.balances.reserve && WithdrawDecrement(p, lp) <= p.balances.liabilities
    ensures OnPsi(curves, AfterWithdraw(curves, p, lp))
  {
    var b, curve, dec := p.balances, p.Curve(curves), WithdrawDecrement(p, lp);
    assert Grows(curve);
    assert GrowsAlong(curve, b.reserve - dec, b.liabilities - dec, dec, p.decimals);
  }

  /** The input pool of a quote reaches its new reserve with slippage by the effective amount alone. */
  lemma BaseStaysOnPsi(curves: CurveFamily, base: PoolState, quote: PoolState, amountIn: nat, price: nat)
    requires IsLawfulFamily(curves) && OnPsi(curves, base)
    requires GetCurveAmountOut(curves, base, quote, amountIn, price).Ok?
    ensures OnPsi(curves, base.UpdateBalances(GetCurveAmountOut(curves, base, quote, amountIn, price).value.base))
  {
    var b, curve := base.balances, base.Curve(curves);
    assert Grows(curve) && Solves(curve);
    assert SolvesFor(curve, b.reserve, b.liabilities, b.reserveWithSlippage + amountIn, base.decimals);
  }

  /** The output pool: for whatever is paid, and for nothing paid if the fees leave something of the raw output. */
  lemma PayOutStaysOnPsi(curve: Curve, q: PoolBalances, decimals: nat, raw: nat, fee: nat, maxLpFee: nat)
    requires Grows(curve) && Solves(curve)
    requires q.reserveWithSlippage == curve.psi(q.reserve, q.liabilities, decimals)
    requires var out := PayOut(curve, q, decimals, raw, fee, maxLpFee);
             out.amountOut > 0 || (fee <= raw < TWO_255 && out.balances.reserve < TWO_255)
    ensures var out := PayOut(curve, q, decimals, raw, fee, maxLpFee).balances;
            out.reserveWithSlippage == curve.psi(out.reserve, out.liabilities, decimals)
  {
    var out := PayOut(curve, q, decimals, raw, fee, maxLpFee);
    if out.amountOut == 0 {
      var reduced := Sub256(q.reserve + fee, raw);
      assert reduced <= q.reserve;
      assert SolvesFor(curve, reduced, q.liabilities, q.reserveWithSlippage, decimals);
      var x := curve.inverseDiagonal(reduced, q.liabilities, q.reserveWithSlippage, decimals);
      assert GrowsAlong(curve, reduced + out.lpFee, q.liabilities + out.lpFee, x - out.lpFee, decimals);
    }
  }

  lemma QuoteStaysOnPsi(curves: CurveFamily, base: PoolState, quote: PoolState, amountIn: nat, price: nat)
    requires IsLawfulFamily(curves) && OnPsi(curves, quote)
    requires FitsFelt(base.balances) && price < PRICE_LIMIT
    requires var r := GetCurveAmountOut(curves, base, quote, amountIn, price);
             r.Ok? && (r.value.amountOut > 0 || (SaneFees(quote) && FitsFelt(r.value.quote)))
    ensures OnPsi(curves, quote.UpdateBalances(GetCurveAmountOut(curves, base, quote, amountIn, price).value.quote))
  {
    var q := GetCurveAmountOut(curves, base, quote, amountIn, price).value;
    if q != SwapQuote(0, base.balances, quote.balances) {
      var effective := EffectiveAmountIn(curves, base, amountIn);
      var scaling := ScalingFactor(base.decimals, quote.decimals);
      var raw := RawAmountOut(effective, price, scaling);
      MulMonotone(price, PRICE_LIMIT, effective);
      MulMonotone(1, scaling, effective * price);
      MulDivAtMost(effective * price, effective, price, scaling);
      if q.amountOut == 0 {
        FeeWithinRaw(quote, raw);
      }
      var curve := quote.Curve(curves);
      assert Grows(curve) && Solves(curve);
      PayOutStaysOnPsi(curve, quote.balances, quote.decimals, raw,
                       Fee(quote.settings, raw), MaxLpFee(quote.settings, raw));
    }
  }

  lemma TradeStaysOnPsi(env: Env, pools: Pools, sell: Asset, buy: Asset, pools': Pools)
    requires IsLawfulFamily(env.curves) && PricesBounded(env)
    requires AllOnPsi(env.curves, pools) && PoolsFit(pools) && PoolsFit(pools')
    requires TradeChange(env, pools, sell, buy, pools')
    requires buy.amount > 0 || AllFeesSane(pools)
    ensures AllOnPsi(env.curves, pools')
  {
    var base, quote := pools[sell.faucet], pools[buy.faucet];
    var price := env.quoteWith(env.prices[sell.faucet], env.prices[buy.faucet]);
    var q := QuoteTrade(env, pools, sell, buy).value;
    assert OnPsi(env.curves, base) && OnPsi(env.curves, quote);
    assert FitsFelt(base.balances) && pools'[buy.faucet].balances == q.quote;
    assert FitsFelt(pools'[buy.faucet].balances);
    if q.amountOut == 0 {
      assert SaneFees(quote);
    }
    BaseStaysOnPsi(env.curves, base, quote, sell.amount, price);
    QuoteStaysOnPsi(env.curves, base, quote, sell.amount, price);
    forall f | f in pools'
      ensures OnPsi(env.curves, pools'[f])
    {
      assert OnPsi(env.curves, pools[f]);
    }
  }

  ghost predicate PricesBounded(env: Env) {
    forall a: nat, b: nat :: env.quoteWith(a, b) < PRICE_LIMIT
  }

  lemma ChangeStaysOnPsi(env: Env, pools: Pools, note: Note, pools': Pools)
    requires IsLawfulFamily(env.curves) && PricesBounded(env)
    requires AllOnPsi(env.curves, pools) && PoolsFit(pools) && PoolsFit(pools')
    requires PoolsChange(env, pools, note, pools')
    requires AsksForValue(note) || AllFeesSane(pools)
    ensures AllOnPsi(env.curves, pools')
  {
    if pools' != pools {
      if DepositChange(env, pools, note, pools') {
        DepositStaysOnPsi(env.curves, pools[note.assets[0].faucet], note.assets[0].amount);
      } else if WithdrawChange(env, pools, note, pools') {
        var g := note.assetInput.value.faucet;
        WithdrawWithinPool(env.curves, pools[g], note.amountInput);
        WithdrawStaysOnPsi(env.curves, pools[g], note.amountInput);
      } else {
        TradeStaysOnPsi(env, pools, TradeOf(note).value.sell, TradeOf(note).value.buy, pools');
      }
    }
  }

  /** A note handled with these curves, at bounded prices. */
  ghost predicate Uses(m: Move, curves: CurveFamily) {
    m.Handle? ==> m.event.env.curves == curves && PricesBounded(m.event.env)
  }

  /**
   From empty pools every lawful curve keeps every pool on it, over every run: through deposits, redemptions, trades
   and reloads, as long as notes ask for something or fees are at most the whole output.
   */
  lemma {:induction false} RunStaysOnPsi(curves: CurveFamily, moves: seq<Move>, run: seq<System>)
    requires IsLawfulFamily(curves) && IsRun(moves, run) && EmptyPools(run[0].pools)
    requires forall i | 0 <= i < |run| :: Fits(run[i])
    requires forall m | m in moves :: Uses(m, curves)
    requires (forall m | m in moves :: Asks(m)) || AllFeesSane(run[0].pools)
    requires forall i | 0 <= i < |moves| :: moves[i].Reload? ==> Agree(run[i])
    ensures AllOnPsi(curves, run[|moves|].pools)
    decreases |moves|
  {
    if moves == [] {
      forall f | f in run[0].pools
        ensures OnPsi(curves, run[0].pools[f])
      {
        assert Grows(run[0].pools[f].Curve(curves));
      }
    } else {
      var n := |moves| - 1;
      assert forall m | m in moves[..n] :: m in moves;
      RunStaysOnPsi(curves, moves[..n], run[..n + 1]);
      RunKeepsMetadata(moves[..n], run[..n + 1]);
      assert moves[n] in moves && MoveStep(run[n], moves[n], run[n + 1]) && Uses(moves[n], curves);
      match moves[n]
      case Handle(e) =>
        PlanChanges(e.env, run[n].pools, e.note);
        ChangeStaysOnPsi(e.env, run[n].pools, e.note, run[n + 1].pools);
      case Reload => ReloadStaysOnPsi(curves, run[n]);
    }
  }

  lemma ReloadStaysOnPsi(curves: CurveFamily, s: System)
    requires Agree(s) && AllOnPsi(curves, s.pools)
    ensures AllOnPsi(curves, Reloaded(s).pools)
  {
    forall f | f in s.pools
      ensures OnPsi(curves, Reloaded(s).pools[f])
    {
      assert AgreeOn(s, f) && OnPsi(curves, s.pools[f]);
    }
  }
}
