/** Invariants over whole runs: the value of LP shares, the identity curve's invariants, the contract's own. */
module Runs {
  import opened Wrappers
  import opened Arithmetic
  import opened Curves
  import opened Felts
  import opened Assets
  import opened PoolContract
  import opened PoolStates
  import opened LpShares
  import opened LpLedger
  import opened IdentitySwaps
  import opened Notes
  import opened NoteScripts
  import opened Planner
  import opened Refinement

  /** The pool map after an accepted deposit, an accepted withdrawal, or an accepted trade. */
  ghost predicate DepositChange(env: Env, pools: Pools, note: Note, pools': Pools) {
    && note.kind.DepositNote? && note.assets != []
    && var f := note.assets[0].faucet;
    && f in pools
    && pools' == pools[f := AfterDeposit(env.curves, pools[f], note.assets[0].amount)]
  }

  ghost predicate WithdrawChange(env: Env, pools: Pools, note: Note, pools': Pools) {
    && note.kind.WithdrawNote? && note.assetInput.Some?
    && var f := note.assetInput.value.faucet;
    && f in pools
    && FitsU64(AfterWithdraw(env.curves, pools[f], note.amountInput).balances)
    && pools' == pools[f := AfterWithdraw(env.curves, pools[f], note.amountInput)]
  }

  ghost predicate TradeChange(env: Env, pools: Pools, sell: Asset, buy: Asset, pools': Pools) {
    && sell.faucet in pools && buy.faucet in pools
    && QuoteTrade(env, pools, sell, buy).Ok?
    && QuoteTrade(env, pools, sell, buy).value.amountOut >= buy.amount
    && pools' == Settle(pools, sell.faucet, buy.faucet, QuoteTrade(env, pools, sell, buy).value)
  }

  /** The two assets of a note that trades. */
  function TradeOf(note: Note): Option<Trade> {
    if note.kind.SwapNote? && note.assets != [] && note.assetInput.Some? then
      Some(Trade(note.assets[0], note.assetInput.value))
    else if note.kind.PositionNote? then note.trade
    else None
  }

  /** Every note leaves the pools alone or changes them in one of these three ways. */
  ghost predicate PoolsChange(env: Env, pools: Pools, note: Note, pools': Pools) {
    || pools' == pools
    || DepositChange(env, pools, note, pools')
    || WithdrawChange(env, pools, note, pools')
    || (TradeOf(note).Some? && TradeChange(env, pools, TradeOf(note).value.sell, TradeOf(note).value.buy, pools'))
  }

  lemma PlanChanges(env: Env, pools: Pools, note: Note)
    requires Plan(env, pools, note).Ok?
    ensures PoolsChange(env, pools, note, PoolsAfter(Plan(env, pools, note).value, pools))
  {
  }

  lemma TradeNotDiluting(env: Env, pools: Pools, sell: Asset, buy: Asset, pools': Pools, f: AccountId)
    requires TradeChange(env, pools, sell, buy, pools') && f in pools
    ensures f in pools' && NotDiluted(pools[f], pools'[f])
  {
    SwapNotDiluting(env.curves, pools[sell.faucet], pools[buy.faucet], sell.amount,
                    env.quoteWith(env.prices[sell.faucet], env.prices[buy.faucet]));
  }

  ghost predicate PoolsFitU64(pools: Pools) {
    forall f | f in pools :: FitsU64(pools[f].balances)
  }

  lemma ChangeNotDiluting(env: Env, pools: Pools, note: Note, pools': Pools, f: AccountId)
    requires PoolsChange(env, pools, note, pools') && PoolsFitU64(pools) && f in pools
    ensures f in pools' && NotDiluted(pools[f], pools'[f])
  {
    if pools' != pools {
      if DepositChange(env, pools, note, pools') {
        DepositNotDiluting(env.curves, pools[note.assets[0].faucet], note.assets[0].amount);
      } else if WithdrawChange(env, pools, note, pools') {
        var g := note.assetInput.value.faucet;
        WithdrawWithinPool(env.curves, pools[g], note.amountInput);
        WithdrawNotDiluting(env.curves, pools[g], note.amountInput);
      } else {
        TradeNotDiluting(env, pools, TradeOf(note).value.sell, TradeOf(note).value.buy, pools', f);
      }
    }
  }

  /** Loading a pool dilutes its shares exactly if the ledger counts more of them than the planner did. */
  lemma ReloadDilutesExactly(s: System, f: AccountId)
    requires f in s.pools && AgreeOn(s, f)
    ensures NotDiluted(s.pools[f], Reloaded(s).pools[f])
            <==> s.pools[f].balances.liabilities == 0 || TotalSupply(s.account, f) <= s.pools[f].lpTotalSupply
  {
    var l, total, planned := s.pools[f].balances.liabilities, TotalSupply(s.account, f), s.pools[f].lpTotalSupply;
    if total <= planned {
      MulMonotone(total, planned, l);
    } else if l > 0 {
      MulMonotone(planned + 1, total, l);
    }
  }

  /** A reload at which the planner's supply, and its balances, are the contract's, or only exceed them in tokens. */
  ghost predicate LoadsNoMoreShares(s: System, f: AccountId) {
    f in s.pools ==> AgreeOn(s, f) && TotalSupply(s.account, f) <= s.pools[f].lpTotalSupply
  }

  /** Liabilities per LP token never fall over any run, for every curve, while some LP token exists. */
  lemma {:induction false} RunNotDiluting(moves: seq<Move>, run: seq<System>, f: AccountId)
    requires IsRun(moves, run) && f in run[0].pools
    requires forall i | 0 <= i < |run| :: PoolsFitU64(run[i].pools)
    requires forall i | 0 < i < |moves| :: f in run[i].pools ==> run[i].pools[f].lpTotalSupply > 0
    requires forall i | 0 <= i < |moves| :: moves[i].Reload? ==> LoadsNoMoreShares(run[i], f)
    ensures f in run[|moves|].pools
    ensures NotDiluted(run[0].pools[f], run[|moves|].pools[f])
    decreases |moves|
  {
    if moves != [] {
      var n := |moves| - 1;
      RunNotDiluting(moves[..n], run[..n + 1], f);
      assert MoveStep(run[n], moves[n], run[n + 1]);
      match moves[n] {
        case Handle(e) =>
          PlanChanges(e.env, run[n].pools, e.note);
          ChangeNotDiluting(e.env, run[n].pools, e.note, run[n + 1].pools, f);
        case Reload => ReloadDilutesExactly(run[n], f);
      }
      if n > 0 {
        NotDilutedTransitive(run[0].pools[f], run[n].pools[f], run[n + 1].pools[f]);
      }
    }
  }

  /** Both reserves coincide and no more LP tokens exist than liabilities. */
  ghost predicate OnCurve(p: PoolState) {
    AtPar(p) && p.lpTotalSupply <= p.balances.liabilities
  }

  ghost predicate AllOnCurve(pools: Pools) {
    forall f | f in pools :: OnCurve(pools[f])
  }

  const PRICE_LIMIT: nat := 0x1_0000_0000_0000_0000_0000_0000_0000_0000

  /** Price quotients of 64-bit prices scaled by 10^12 stay far below 2^128. */
  ghost predicate IdentityEnv(env: Env) {
    IsIdentityFamily(env.curves) && forall a: nat, b: nat :: env.quoteWith(a, b) < PRICE_LIMIT
  }

  lemma RawBounded(base: PoolState, quote: PoolState, amountIn: nat, price: nat)
    requires amountIn <= U64_MAX && price < PRICE_LIMIT
    ensures Raw(base, quote, amountIn, price) < TWO_255
  {
    var scaling := ScalingFactor(base.decimals, quote.decimals);
    MulMonotone(price, PRICE_LIMIT, amountIn);
    if scaling > 0 {
      MulMonotone(1, scaling, amountIn * price);
      MulDivAtMost(amountIn * price, amountIn, price, scaling);
    }
  }

  lemma DepositStaysOnCurve(curves: CurveFamily, p: PoolState, amount: nat)
    requires IsIdentityFamily(curves) && OnCurve(p)
    ensures OnCurve(AfterDeposit(curves, p, amount))
  {
    DepositAtPar(curves, p, amount);
    if p.balances.liabilities > 0 {
      MulMonotone(p.lpTotalSupply, p.balances.liabilities, amount);
      MulDivAtMost(amount, amount, p.lpTotalSupply, p.balances.liabilities);
    }
  }

  lemma WithdrawPaysDecrement(curves: CurveFamily, p: PoolState, lp: nat)
    requires IsIdentityFamily(curves) && AtPar(p)
    requires WithdrawDecrement(p, lp) <= p.balances.reserve && WithdrawDecrement(p, lp) <= p.balances.liabilities
    ensures GetWithdrawAssetAmountOut(curves, p, lp).amount == WithdrawDecrement(p, lp)
    ensures var t := AfterWithdraw(curves, p, lp);
            && AtPar(t)
            && t.balances.reserve == p.balances.reserve - WithdrawDecrement(p, lp)
            && t.balances.liabilities == p.balances.liabilities - WithdrawDecrement(p, lp)
  {
    assert IsIdentity(p.Curve(curves));
  }

  lemma WithdrawStaysOnCurve(curves: CurveFamily, p: PoolState, lp: nat)
    requires IsIdentityFamily(curves) && OnCurve(p)
    requires WithdrawDecrement(p, lp) <= p.balances.reserve && WithdrawDecrement(p, lp) <= p.balances.liabilities
    ensures OnCurve(AfterWithdraw(curves, p, lp))
  {
    WithdrawPaysDecrement(curves, p, lp);
    WithdrawNotDiluting(curves, p, lp);
    var t := AfterWithdraw(curves, p, lp);
    if p.lpTotalSupply > 0 {
      MulMonotone(p.lpTotalSupply, p.balances.liabilities, t.lpTotalSupply);
      CancelFactor(t.lpTotalSupply, t.balances.liabilities, p.lpTotalSupply);
    }
  }

  /** What a trade that pays anything does to its pools under the identity curve. */
  lemma TradeSplit(env: Env, pools: Pools, sell: Asset, buy: Asset)
    requires IdentityEnv(env) && PoolsFit(pools) && AllOnCurve(pools)
    requires QuoteTrade(env, pools, sell, buy).Ok? && QuoteTrade(env, pools, sell, buy).value.amountOut > 0
    ensures var q := QuoteTrade(env, pools, sell, buy).value;
            var base, quote := pools[sell.faucet].balances, pools[buy.faucet].balances;
            && q.amountOut < quote.reserve
            && q.base == PoolBalances(base.liabilities, base.reserve + sell.amount, base.reserve + sell.amount)
            && q.base.reserve <= 2 * q.base.liabilities
            && q.quote.reserve == q.quote.reserveWithSlippage == quote.reserve - q.amountOut
            && q.quote.liabilities >= quote.liabilities
  {
    var base, quote := pools[sell.faucet], pools[buy.faucet];
    var price := env.quoteWith(env.prices[sell.faucet], env.prices[buy.faucet]);
    assert OnCurve(base) && OnCurve(quote);
    assert FitsFelt(quote.balances);
    RawBounded(base, quote, sell.amount, price);
    SwapSplit(env.curves, base, quote, sell.amount, price);
  }

  /** Backstop and protocol fees together are at most the whole output. */
  predicate SaneFees(p: PoolState) {
    p.settings.backstopFee + p.settings.protocolFee <= FEE_PRECISION
  }

  ghost predicate AllFeesSane(pools: Pools) {
    forall f | f in pools :: SaneFees(pools[f])
  }

  lemma FeeWithinRaw(p: PoolState, raw: nat)
    requires SaneFees(p)
    ensures Fee(p.settings, raw) <= raw
  {
    MulMonotone(p.settings.backstopFee + p.settings.protocolFee, FEE_PRECISION, raw);
    MulDivAtMost(raw, raw, p.settings.backstopFee + p.settings.protocolFee, FEE_PRECISION);
  }

  /** A trade that pays nothing, which a minimum of zero permits, keeps both pools on the curve if fees are sane. */
  lemma EmptyTradeOnCurve(curves: CurveFamily, base: PoolState, quote: PoolState, amountIn: nat, price: nat)
    requires IsIdentityFamily(curves) && OnCurve(base) && OnCurve(quote) && SaneFees(quote)
    requires FitsFelt(quote.balances) && Raw(base, quote, amountIn, price) < TWO_255
    requires var r := GetCurveAmountOut(curves, base, quote, amountIn, price);
             r.Ok? && r.value.amountOut == 0 && FitsFelt(r.value.quote)
    ensures var q := GetCurveAmountOut(curves, base, quote, amountIn, price).value;
            OnCurve(base.UpdateBalances(q.base)) && OnCurve(quote.UpdateBalances(q.quote))
  {
    assert IsIdentity(base.Curve(curves)) && IsIdentity(quote.Curve(curves));
    assert EffectiveAmountIn(curves, base, amountIn) == amountIn;
    var q := GetCurveAmountOut(curves, base, quote, amountIn, price).value;
    if q != SwapQuote(0, base.balances, quote.balances) {
      var raw := Raw(base, quote, amountIn, price);
      FeeWithinRaw(quote, raw);
      ZeroPayOut(quote.Curve(curves), quote.balances, quote.decimals, raw,
                 Fee(quote.settings, raw), MaxLpFee(quote.settings, raw));
    }
  }

  lemma TradeStaysOnCurve(env: Env, pools: Pools, sell: Asset, buy: Asset, pools': Pools)
    requires IdentityEnv(env) && PoolsFit(pools) && AllOnCurve(pools) && PoolsFit(pools')
    requires TradeChange(env, pools, sell, buy, pools')
    requires buy.amount > 0 || AllFeesSane(pools)
    ensures AllOnCurve(pools')
  {
    var base, quote := pools[sell.faucet], pools[buy.faucet];
    var q := QuoteTrade(env, pools, sell, buy).value;
    assert OnCurve(base) && OnCurve(quote);
    assert pools'[buy.faucet].balances == q.quote;
    if q.amountOut > 0 {
      TradeSplit(env, pools, sell, buy);
    } else {
      assert SaneFees(quote) && FitsFelt(quote.balances) && FitsFelt(q.quote);
      var price := env.quoteWith(env.prices[sell.faucet], env.prices[buy.faucet]);
      RawBounded(base, quote, sell.amount, price);
      EmptyTradeOnCurve(env.curves, base, quote, sell.amount, price);
    }
    forall f | f in pools'
      ensures OnCurve(pools'[f])
    {
      assert OnCurve(pools[f]);
    }
  }

  lemma ChangeStaysOnCurve(env: Env, pools: Pools, note: Note, pools': Pools)
    requires IdentityEnv(env) && PoolsFit(pools) && AllOnCurve(pools) && PoolsFit(pools')
    requires PoolsChange(env, pools, note, pools')
    requires AsksForValue(note) || AllFeesSane(pools)
    ensures AllOnCurve(pools')
  {
    if pools' != pools {
      if DepositChange(env, pools, note, pools') {
        DepositStaysOnCurve(env.curves, pools[note.assets[0].faucet], note.assets[0].amount);
      } else if WithdrawChange(env, pools, note, pools') {
        var g := note.assetInput.value.faucet;
        WithdrawWithinPool(env.curves, pools[g], note.amountInput);
        WithdrawStaysOnCurve(env.curves, pools[g], note.amountInput);
      } else {
        TradeStaysOnCurve(env, pools, TradeOf(note).value.sell, TradeOf(note).value.buy, pools');
      }
    }
  }

  /** No note changes the settings or the decimals of a pool. */
  ghost predicate SameMetadata(p: Pools, q: Pools) {
    q.Keys == p.Keys && forall f | f in p :: q[f].settings == p[f].settings && q[f].decimals == p[f].decimals
  }

  lemma ChangeKeepsMetadata(env: Env, pools: Pools, note: Note, pools': Pools)
    requires PoolsChange(env, pools, note, pools')
    ensures SameMetadata(pools, pools')
  {
  }

  ghost predicate EmptyPools(pools: Pools) {
    forall f | f in pools :: pools[f].balances == PoolBalances(0, 0, 0) && pools[f].lpTotalSupply == 0
  }

  /** The ledger counts no more LP tokens than the liabilities that the planner and the contract agree on. */
  ghost predicate LedgerBacked(s: System) {
    Agree(s) && forall f | f in s.pools :: TotalSupply(s.account, f) <= s.pools[f].balances.liabilities
  }

  /** Loading the pools keeps them on the identity curve exactly if the ledger is backed. */
  lemma ReloadOnCurveExactly(s: System)
    requires Agree(s) && AllOnCurve(s.pools)
    ensures AllOnCurve(Reloaded(s).pools) <==> LedgerBacked(s)
    ensures AllFeesSane(s.pools) ==> AllFeesSane(Reloaded(s).pools)
  {
    var t := Reloaded(s);
    forall f | f in s.pools
      ensures OnCurve(t.pools[f]) <==> TotalSupply(s.account, f) <= s.pools[f].balances.liabilities
    {
      assert AgreeOn(s, f) && OnCurve(s.pools[f]);
    }
    assert AllOnCurve(t.pools) ==> forall f | f in s.pools :: OnCurve(t.pools[f]);
  }

  /**
   From empty pools the identity curve keeps both reserves equal and backs every LP token, over every run that
   loads the pools only while the ledger is backed.
   */
  lemma {:induction false} RunStaysOnCurve(moves: seq<Move>, run: seq<System>)
    requires IsRun(moves, run) && EmptyPools(run[0].pools)
    requires forall i | 0 <= i < |run| :: Fits(run[i])
    requires forall m | m in moves && m.Handle? :: IdentityEnv(m.event.env)
    requires (forall m | m in moves :: Asks(m)) || AllFeesSane(run[0].pools)
    requires forall i | 0 <= i < |moves| :: moves[i].Reload? ==> LedgerBacked(run[i])
    ensures AllOnCurve(run[|moves|].pools)
    ensures AllFeesSane(run[0].pools) ==> AllFeesSane(run[|moves|].pools)
    decreases |moves|
  {
    if moves != [] {
      var n := |moves| - 1;
      assert forall m | m in moves[..n] :: m in moves;
      RunStaysOnCurve(moves[..n], run[..n + 1]);
      assert moves[n] in moves && MoveStep(run[n], moves[n], run[n + 1]);
      match moves[n]
      case Handle(e) =>
        PlanChanges(e.env, run[n].pools, e.note);
        ChangeKeepsMetadata(e.env, run[n].pools, e.note, run[n + 1].pools);
        ChangeStaysOnCurve(e.env, run[n].pools, e.note, run[n + 1].pools);
      case Reload => ReloadOnCurveExactly(run[n]);
    }
  }

  /** Nor does any move. */
  lemma {:induction false} RunKeepsMetadata(moves: seq<Move>, run: seq<System>)
    requires IsRun(moves, run)
    ensures SameMetadata(run[0].pools, run[|moves|].pools)
    decreases |moves|
  {
    if moves != [] {
      var n := |moves| - 1;
      RunKeepsMetadata(moves[..n], run[..n + 1]);
      assert MoveStep(run[n], moves[n], run[n + 1]);
      if moves[n].Handle? {
        var e := moves[n].event;
        PlanChanges(e.env, run[n].pools, e.note);
        ChangeKeepsMetadata(e.env, run[n].pools, e.note, run[n + 1].pools);
      }
    }
  }

  ghost predicate ContractInvariant(s: State) {
    Solvent(s) && Conserved(s.deposits)
  }

  lemma ExchangeKeepsContract(s: State, sell: Asset, pool0: PoolWord, bought: Asset, pool1: PoolWord)
    requires ContractInvariant(s) && Exchange(s, sell, pool0, bought, pool1).Some?
    ensures ContractInvariant(Exchange(s, sell, pool0, bought, pool1).value)
  {
    InvokeKeepsSolvent(s, InvokeReceive(sell, pool0));
    InvokeKeepsSolvent(ReceiveAsset(s, sell, pool0).value, InvokeRemove(bought, pool1));
  }

  lemma ScriptKeepsContract(s: State, c: ScriptCall)
    requires ContractInvariant(s) && RunScript(s, c).Some? && c.note.beneficiary != NO_ACCOUNT
    ensures ContractInvariant(RunScript(s, c).value)
  {
    var n := c.note;
    match n.kind
    case DepositNote =>
      if c.amount >= n.amountInput {
        var receive := InvokeReceive(n.assets[0], c.pool0);
        var credit := InvokeDeposit(n.assets[0].faucet, n.beneficiary, c.amount);
        InvokeKeepsSolvent(s, receive);
        InvokeKeepsSolvent(Invoke(s, receive).value, credit);
        InvokeKeepsConserved(Invoke(s, receive).value, credit);
      }
    case WithdrawNote =>
      var requested := n.assetInput.value;
      var debit := InvokeWithdraw(requested.faucet, n.beneficiary, n.amountInput);
      InvokeKeepsSolvent(s, debit);
      InvokeKeepsConserved(s, debit);
      InvokeKeepsSolvent(Invoke(s, debit).value, InvokeRemove(AssetOut(requested, c.amount), c.pool0));
    case SwapNote =>
      if c.amount >= n.assetInput.value.amount {
        ExchangeKeepsContract(s, n.assets[0], c.pool0, AssetOut(n.assetInput.value, c.amount), c.pool1);
      }
    case PositionNote =>
      var Trade(sell, buy) := n.trade.value;
      if c.amount >= buy.amount {
        ExchangeKeepsContract(s, sell, c.pool0, AssetOut(buy, c.amount), c.pool1);
      }
    case P2ID =>
  }

  lemma StepKeepsContract(s: System, e: Event, t: System)
    requires NoteStep(s, e, t) && ContractInvariant(s.account) && e.note.beneficiary != NO_ACCOUNT
    ensures ContractInvariant(t.account)
  {
    CallIsOfNote(e.env, s.pools, e.note);
    var call := Plan(e.env, s.pools, e.note).value.call;
    if call.Some? {
      ScriptKeepsContract(s.account, call.value);
    }
  }

  predicate NamesUser(m: Move) {
    m.Handle? ==> m.event.note.beneficiary != NO_ACCOUNT
  }

  /** Along every run from a sound account, whatever the planner writes, solvency and the ledger survive. */
  lemma {:induction false} RunKeepsContract(moves: seq<Move>, run: seq<System>)
    requires IsRun(moves, run) && ContractInvariant(run[0].account)
    requires forall m | m in moves :: NamesUser(m)
    ensures ContractInvariant(run[|moves|].account)
    decreases |moves|
  {
    if moves != [] {
      var n := |moves| - 1;
      assert forall m | m in moves[..n] :: m in moves;
      RunKeepsContract(moves[..n], run[..n + 1]);
      assert MoveStep(run[n], moves[n], run[n + 1]) && moves[n] in moves;
      if moves[n].Handle? {
        StepKeepsContract(run[n], moves[n].event, run[n + 1]);
      }
    }
  }

  /** So they do in every transaction, whatever its scripts are called with. */
  lemma {:induction false} TransactionKeepsContract(s: State, calls: seq<ScriptCall>)
    requires ContractInvariant(s) && RunScripts(s, calls).Some?
    requires forall c | c in calls :: c.note.beneficiary != NO_ACCOUNT
    ensures ContractInvariant(RunScripts(s, calls).value)
    decreases |calls|
  {
    if calls != [] {
      var init, c := calls[..|calls| - 1], calls[|calls| - 1];
      assert c in calls && forall d | d in init :: d in calls;
      TransactionKeepsContract(s, init);
      ScriptKeepsContract(RunScripts(s, init).value, c);
    }
  }

  /**
   A fresh deployment, for every curve: whatever notes are executed, the contract stores what the planner computed,
   it stays solvent with a conserved ledger, and every vault balance covers its pool's reserve with slippage, and
   equals it when every note asks for something in another asset.
   */
  lemma DeploymentIsBacked(moves: seq<Move>, run: seq<System>)
    requires IsRun(moves, run) && run[0].account == EMPTY && EmptyPools(run[0].pools)
    requires forall i | 0 <= i < |run| :: Fits(run[i])
    requires forall m | m in moves :: Covered(m) && NamesUser(m)
    ensures var last := run[|moves|];
            && Agree(last)
            && ContractInvariant(last.account)
            && forall f | f in last.pools ::
                 var backing := last.pools[f].balances.reserveWithSlippage;
                 && Balance(last.account.vault, f) >= backing
                 && (AllAsk(moves) ==> Balance(last.account.vault, f) == backing)
  {
    forall f | f in run[0].pools
      ensures AgreeOn(run[0], f) && Slack(run[0], f) == 0
    {
    }
    EmptyLedgerConserved();
    RunTracks(moves, run);
    RunKeepsContract(moves, run);
    var last := run[|moves|];
    forall f | f in last.pools
      ensures Slack(last, f) >= 0 && (AllAsk(moves) ==> Slack(last, f) == 0)
    {
      assert Slack(last, f) >= Slack(run[0], f);
    }
  }
}
