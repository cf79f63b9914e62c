/**
 When the contract accepts what the planner computed, under the identity curve: exactly which deposits, swaps
 and withdrawals pass the checks of `set_pool_state` and the ledger.
 */
module Acceptance {
  import opened Wrappers
  import opened Felts
  import opened Assets
  import opened PoolContract
  import opened PoolStates
  import opened LpShares
  import opened LpLedger
  import opened Notes
  import opened NoteScripts
  import opened Planner
  import opened Refinement
  import opened Runs

  /** The coverage check over the naturals: from half the prime on, doubling loses the prime once. */
  lemma CoverageExact(liabilities: Felt, rws: Felt)
    ensures rws <= FMul(liabilities, 2) <==> rws + (if 2 * liabilities < P then 0 else P) <= 2 * liabilities
  {
  }

  /** A fully covered pool at half the prime refuses a further deposit of one unit. */
  lemma DepositRefusedAtHalfPrime()
    ensures var half: Felt := (P - 1) / 2;
            && Accepts(PoolWord(half, half, half), half)
            && !Accepts(PoolWord(half + 1, half + 1, half + 1), half + 1)
  {
    CoverageExact((P - 1) / 2, (P - 1) / 2);
    CoverageExact((P - 1) / 2 + 1, (P - 1) / 2 + 1);
  }

  /**
   Whether a pool that is covered over the naturals is still covered when its liabilities are clamped to 64 bits,
   reduced modulo the prime when stored, and doubled modulo the prime when checked.
   */
  predicate SurvivesDoubling(b: PoolBalances) {
    var l := Min(b.liabilities, U64_MAX);
    2 * l < P || b.reserveWithSlippage + (if l < P then P else 2 * P) <= 2 * l
  }

  lemma WordAccepted(b: PoolBalances, balance: nat)
    requires b.reserve == b.reserveWithSlippage < P
    ensures Accepts(ToWord(b), balance)
            <==> b.reserveWithSlippage <= 2 * b.liabilities && SurvivesDoubling(b) && b.reserveWithSlippage <= balance
  {
    var w := ToWord(b);
    assert w.reserve == w.reserveWithSlippage == b.reserve;
    var l := Min(b.liabilities, U64_MAX);
    assert w.liabilities == if l < P then l else l - P;
    CoverageExact(w.liabilities, b.reserveWithSlippage);
  }

  /** Planner and contract in agreement, the contract sound, the pools on the identity curve. */
  ghost predicate Ready(s: System, e: Event) {
    && Agree(s)
    && ContractInvariant(s.account)
    && AllOnCurve(s.pools)
    && IdentityEnv(e.env)
    && e.note.beneficiary != NO_ACCOUNT
    && Plan(e.env, s.pools, e.note).Ok?
  }

  function CallOf(s: System, e: Event): Option<ScriptCall>
    requires Plan(e.env, s.pools, e.note).Ok?
  {
    Plan(e.env, s.pools, e.note).value.call
  }

  function Planned(s: System, e: Event): ExecutionResult
    requires Plan(e.env, s.pools, e.note).Ok?
  {
    Plan(e.env, s.pools, e.note).value.result
  }

  lemma AgreeOnPool(s: System, e: Event, f: AccountId)
    requires Ready(s, e) && f in s.pools
    ensures AgreeOn(s, f) && SolventFor(s.account, f) && OnCurve(s.pools[f]) && FitsFelt(s.pools[f].balances)
  {
    OldWordFits(s, f);
  }

  /**
   An accepted deposit passes every pool check unless the doubled liabilities cross the prime, which is then lost
   once, or twice if the liabilities cross it by themselves. Its script succeeds exactly when, besides, the vault
   can hold the asset and the total LP supply stays a field element.
   */
  lemma DepositAccepted(s: System, e: Event)
    requires Ready(s, e) && Planned(s, e).DepositSuccess?
    requires |e.note.assets| == 1 && MinimumCovered(e.note)
    ensures var a := e.note.assets[0];
            var l, rws := s.pools[a.faucet].balances.liabilities, s.pools[a.faucet].balances.reserveWithSlippage;
            RunScript(s.account, CallOf(s, e).value).Some?
            <==> Balance(s.account.vault, a.faucet) + a.amount <= 0x8000_0000_0000_0000
                 && TotalSupply(s.account, a.faucet) + a.amount < P
                 && (2 * (l + a.amount) < P
                     || rws + (if l + a.amount < P then P else 2 * P) <= 2 * l + a.amount)
  {
    var note := e.note;
    var a := note.assets[0];
    var f, p := a.faucet, s.pools[a.faucet];
    AgreeOnPool(s, e, f);
    DepositAtPar(e.env.curves, p, a.amount);
    var b := GetDepositLpAmountOut(e.env.curves, p, a.amount).balances;
    assert CallOf(s, e) == Some(ScriptCall(note, a.amount, ToWord(b), EMPTY_POOL));
    if Balance(s.account.vault, f) + a.amount <= MAX_AMOUNT {
      WordAccepted(b, Balance(s.account.vault, f) + a.amount);
      if ReceiveAsset(s.account, a, ToWord(b)).Some? {
        DepositExact(ReceiveAsset(s.account, a, ToWord(b)).value, f, note.beneficiary, a.amount);
      }
    }
  }

  /** The script on its own: the ledger check and the coverage check decide. */
  lemma WithdrawScriptExact(st: State, c: ScriptCall, b: PoolBalances)
    requires ContractInvariant(st) && c.note.beneficiary != NO_ACCOUNT && c.note.assetInput.Some?
    requires c.pool0 == ToWord(b) && FitsFelt(b) && b.reserve == b.reserveWithSlippage
    requires b.reserveWithSlippage + c.amount <= Balance(st.vault, c.note.assetInput.value.faucet)
    ensures RunWithdraw(st, c).Some?
            <==> 0 < c.note.amountInput <= Shares(st, c.note.assetInput.value.faucet, c.note.beneficiary)
                 && b.reserveWithSlippage <= 2 * b.liabilities && SurvivesDoubling(b)
  {
    var f := c.note.assetInput.value.faucet;
    WithdrawExact(st, f, c.note.beneficiary, c.note.amountInput);
    WordAccepted(b, Balance(st.vault, f) - c.amount);
  }

  /**
   A withdrawal's script succeeds exactly when the user owns the redeemed shares and the pool stays covered:
   redeeming shrinks twice the liabilities by more than the reserve, and the prime is lost above its half.
   */
  lemma WithdrawalAccepted(s: System, e: Event)
    requires Ready(s, e) && Planned(s, e).WithdrawSuccess?
    ensures var f := e.note.assetInput.value.faucet;
            var p := s.pools[f];
            var dec := WithdrawDecrement(p, e.note.amountInput);
            RunScript(s.account, CallOf(s, e).value).Some?
            <==> 0 < e.note.amountInput <= Shares(s.account, f, e.note.beneficiary)
                 && p.balances.reserve + dec + (if 2 * (p.balances.liabilities - dec) < P then 0 else P)
                    <= 2 * p.balances.liabilities
  {
    var note := e.note;
    var requested := note.assetInput.value;
    var f, lp := requested.faucet, note.amountInput;
    var p := s.pools[f];
    AgreeOnPool(s, e, f);
    var q := GetWithdrawAssetAmountOut(e.env.curves, p, lp);
    assert CallOf(s, e) == Some(ScriptCall(note, ToFelt(q.amount), ToWord(q.balances), EMPTY_POOL));
    WithdrawWithinPool(e.env.curves, p, lp);
    WithdrawPaysDecrement(e.env.curves, p, lp);
    WithdrawScriptExact(s.account, CallOf(s, e).value, q.balances);
  }

  /**
   A trade that pays anything passes every pool check unless doubling crosses the prime; besides that, only the
   vault's limit on the asset sold remains.
   */
  lemma ExchangeAccepted(s: System, e: Event, sell: Asset, buy: Asset)
    requires Ready(s, e)
    requires QuoteTrade(e.env, s.pools, sell, buy).Ok? && QuoteTrade(e.env, s.pools, sell, buy).value.amountOut > 0
    ensures var q := QuoteTrade(e.env, s.pools, sell, buy).value;
            q.amountOut < P
            && (Exchange(s.account, sell, ToWord(q.base), AssetOut(buy, q.amountOut), ToWord(q.quote)).Some?
                <==> Balance(s.account.vault, sell.faucet) + sell.amount <= MAX_AMOUNT
                     && SurvivesDoubling(q.base) && SurvivesDoubling(q.quote))
  {
    AgreeOnPool(s, e, sell.faucet);
    AgreeOnPool(s, e, buy.faucet);
    forall f | f in s.pools
      ensures FitsFelt(s.pools[f].balances)
    {
      OldWordFits(s, f);
    }
    TradeSplit(e.env, s.pools, sell, buy);
    var q := QuoteTrade(e.env, s.pools, sell, buy).value;
    if Balance(s.account.vault, sell.faucet) + sell.amount <= MAX_AMOUNT {
      WordAccepted(q.base, Balance(s.account.vault, sell.faucet) + sell.amount);
      var received := s.account.vault[sell.faucet := Balance(s.account.vault, sell.faucet) + sell.amount];
      WordAccepted(q.quote, Balance(received, buy.faucet) - q.amountOut);
    }
  }

  lemma SwapAccepted(s: System, e: Event)
    requires Ready(s, e) && Planned(s, e).SwapSuccess? && Planned(s, e).amount > 0
    requires e.note.kind.SwapNote? && |e.note.assets| == 1
    ensures var a := e.note.assets[0];
            var q := QuoteTrade(e.env, s.pools, e.note.assets[0], e.note.assetInput.value).value;
            RunScript(s.account, CallOf(s, e).value).Some?
            <==> Balance(s.account.vault, a.faucet) + a.amount <= MAX_AMOUNT
                 && SurvivesDoubling(q.base) && SurvivesDoubling(q.quote)
  {
    var sell, buy := e.note.assets[0], e.note.assetInput.value;
    ExchangeAccepted(s, e, sell, buy);
    var q := QuoteTrade(e.env, s.pools, sell, buy).value;
    assert CallOf(s, e) == Some(ScriptCall(e.note, q.amountOut, ToWord(q.base), ToWord(q.quote)));
  }

  lemma PositionAccepted(s: System, e: Event)
    requires Ready(s, e) && Planned(s, e).SwapSuccess? && Planned(s, e).amount > 0
    requires e.note.kind.PositionNote? && |e.note.assets| <= MAX_NOTE_ASSETS
    ensures var a := e.note.trade.value.sell;
            var q := QuoteTrade(e.env, s.pools, e.note.trade.value.sell, e.note.trade.value.buy).value;
            RunScript(s.account, CallOf(s, e).value).Some?
            <==> Balance(s.account.vault, a.faucet) + a.amount <= MAX_AMOUNT
                 && SurvivesDoubling(q.base) && SurvivesDoubling(q.quote)
  {
    var sell, buy := e.note.trade.value.sell, e.note.trade.value.buy;
    ExchangeAccepted(s, e, sell, buy);
    var q := QuoteTrade(e.env, s.pools, sell, buy).value;
    assert CallOf(s, e) == Some(ScriptCall(e.note, q.amountOut, ToWord(q.base), ToWord(q.quote)));
  }
}
