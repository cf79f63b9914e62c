/**
 The two LP supplies. The arguments of a deposit carry the asset amount where the script credits LP tokens, so the
 supply in the contract's ledger drifts away from the one that the planner keeps.
 */
module LpDrift {
  import opened Wrappers
  import opened Arithmetic
  import opened Curves
  import opened Felts
  import opened Assets
  import opened StorageKeys
  import opened PoolContract
  import opened PoolStates
  import opened LpShares
  import opened Notes
  import opened NoteScripts
  import opened Planner
  import opened Refinement
  import opened Runs

  /** The LP supply that the planner keeps and the one in the contract's ledger. */
  predicate SupplyAgrees(s: System, f: AccountId)
    requires f in s.pools
  {
    s.pools[f].lpTotalSupply == TotalSupply(s.account, f)
  }

  /** An accepted deposit as the two sides count it. */
  ghost predicate AcceptedDeposit(s: System, e: Event, t: System) {
    && NoteStep(s, e, t) && MinimumCovered(e.note) && e.note.beneficiary != NO_ACCOUNT
    && Plan(e.env, s.pools, e.note).value.result.DepositSuccess?
  }

  lemma DepositSupplies(s: System, e: Event, t: System)
    requires AcceptedDeposit(s, e, t)
    ensures var a := e.note.assets[0];
            var p := s.pools[a.faucet];
            && t.pools == s.pools[a.faucet := AfterDeposit(e.env.curves, p, a.amount)]
            && forall f ::
                 TotalSupply(t.account, f) == TotalSupply(s.account, f) + if f == a.faucet then a.amount else 0
  {
    var a := e.note.assets[0];
    var c := Plan(e.env, s.pools, e.note).value.call.value;
    assert c.amount == a.amount;
    var received := ReceiveAsset(s.account, a, c.pool0).value;
    forall f
      ensures TotalSupply(t.account, f) == TotalSupply(s.account, f) + if f == a.faucet then a.amount else 0
    {
      KeysSeparate(a.faucet, e.note.beneficiary, f, e.note.beneficiary);
    }
  }

  lemma QuotientExactly(k: nat, a: nat, b: nat, c: nat)
    requires c > 0
    ensures MulDiv(a, b, c) == k <==> k * c <= a * b < (k + 1) * c
  {
    QuotientAtMost(k, a, b, c);
    if k > 0 {
      QuotientAtMost(k - 1, a, b, c);
    }
  }

  /** Every curve: the supplies stay equal exactly when the increment buys one token for every unit deposited. */
  lemma DepositSupplyExact(s: System, e: Event, t: System)
    requires AcceptedDeposit(s, e, t) && SupplyAgrees(s, e.note.assets[0].faucet)
    ensures var a := e.note.assets[0];
            var p := s.pools[a.faucet];
            var inc := DepositIncrement(e.env.curves, p, a.amount);
            SupplyAgrees(t, a.faucet)
            <==> if p.balances.liabilities == 0 then inc == a.amount
                 else a.amount * p.balances.liabilities <= inc * p.lpTotalSupply
                      < (a.amount + 1) * p.balances.liabilities
  {
    var a := e.note.assets[0];
    var p := s.pools[a.faucet];
    DepositSupplies(s, e, t);
    if p.balances.liabilities > 0 {
      QuotientExactly(a.amount, DepositIncrement(e.env.curves, p, a.amount), p.lpTotalSupply, p.balances.liabilities);
    }
  }

  /** Identity curve: only in a pool that is empty, or whose tokens stand for one unit each. */
  lemma DepositSupplyOnCurve(s: System, e: Event, t: System)
    requires AcceptedDeposit(s, e, t) && SupplyAgrees(s, e.note.assets[0].faucet)
    requires IsIdentityFamily(e.env.curves) && OnCurve(s.pools[e.note.assets[0].faucet])
    requires e.note.assets[0].amount > 0
    ensures var f := e.note.assets[0].faucet;
            SupplyAgrees(t, f)
            <==> s.pools[f].balances.liabilities == 0 || s.pools[f].lpTotalSupply == s.pools[f].balances.liabilities
  {
    var a := e.note.assets[0];
    var p := s.pools[a.faucet];
    DepositSupplyExact(s, e, t);
    DepositAtPar(e.env.curves, p, a.amount);
    if p.balances.liabilities > 0 {
      OneToken(a.amount, p.balances.liabilities, p.lpTotalSupply);
    }
  }

  lemma OneToken(d: nat, l: nat, s: nat)
    requires d > 0 && 0 < l && s <= l
    ensures d * l <= d * s < (d + 1) * l <==> s == l
  {
    if s < l {
      MulMonotone(s + 1, l, d);
    }
  }

  lemma WithdrawalSupplies(s: System, e: Event, t: System)
    requires NoteStep(s, e, t) && e.note.kind.WithdrawNote? && e.note.beneficiary != NO_ACCOUNT
    requires Plan(e.env, s.pools, e.note).value.result.WithdrawSuccess?
    ensures var f := e.note.assetInput.value.faucet;
            && t.pools == s.pools[f := AfterWithdraw(e.env.curves, s.pools[f], e.note.amountInput)]
            && e.note.amountInput <= TotalSupply(s.account, f)
            && forall g ::
                 TotalSupply(t.account, g) == TotalSupply(s.account, g) - if g == f then e.note.amountInput else 0
  {
    var f := e.note.assetInput.value.faucet;
    var debited := Withdraw(s.account, f, e.note.beneficiary, e.note.amountInput).value;
    forall g
      ensures TotalSupply(debited, g) == TotalSupply(s.account, g) - if g == f then e.note.amountInput else 0
    {
      KeysSeparate(f, e.note.beneficiary, g, e.note.beneficiary);
    }
    KeysSeparate(f, e.note.beneficiary, f, e.note.beneficiary);
  }

  /** Withdrawals always keep the two supplies equal. */
  lemma WithdrawalKeepsSupply(s: System, e: Event, t: System)
    requires NoteStep(s, e, t) && e.note.kind.WithdrawNote? && e.note.beneficiary != NO_ACCOUNT
    requires Plan(e.env, s.pools, e.note).value.result.WithdrawSuccess?
    requires SupplyAgrees(s, e.note.assetInput.value.faucet)
    ensures SupplyAgrees(t, e.note.assetInput.value.faucet)
  {
    WithdrawalSupplies(s, e, t);
  }

  /** The planner counts no more LP tokens than the ledger. */
  ghost predicate NeverAhead(s: System) {
    forall f | f in s.pools :: s.pools[f].lpTotalSupply <= TotalSupply(s.account, f)
  }

  lemma TradeKeepsLedger(s: State, c: ScriptCall)
    requires RunScript(s, c).Some? && (c.note.kind.SwapNote? || c.note.kind.PositionNote?)
    ensures RunScript(s, c).value.deposits == s.deposits
  {
  }

  lemma LateDepositKeepsSupply(s: State, c: ScriptCall, g: AccountId)
    requires RunDeposit(s, c).Some? && c.amount == 0 && c.note.beneficiary != NO_ACCOUNT
    ensures TotalSupply(RunDeposit(s, c).value, g) == TotalSupply(s, g)
  {
    if c.note.amountInput == 0 {
      KeysSeparate(c.note.assets[0].faucet, c.note.beneficiary, g, c.note.beneficiary);
    }
  }

  /** Nothing but deposits and withdrawals touches a supply. */
  lemma OtherSuppliesStand(s: System, e: Event, t: System)
    requires NoteStep(s, e, t) && e.note.beneficiary != NO_ACCOUNT
    requires var r := Plan(e.env, s.pools, e.note).value.result; !r.DepositSuccess? && !r.WithdrawSuccess?
    ensures t.pools.Keys == s.pools.Keys
    ensures forall f | f in s.pools :: t.pools[f].lpTotalSupply == s.pools[f].lpTotalSupply
    ensures forall f :: TotalSupply(t.account, f) == TotalSupply(s.account, f)
  {
    CallIsOfNote(e.env, s.pools, e.note);
    var call := Plan(e.env, s.pools, e.note).value.call;
    if call.Some? {
      if e.note.kind.DepositNote? {
        forall g
          ensures TotalSupply(t.account, g) == TotalSupply(s.account, g)
        {
          LateDepositKeepsSupply(s.account, call.value, g);
        }
      } else {
        TradeKeepsLedger(s.account, call.value);
      }
    }
  }

  lemma DepositMintsAtMost(curves: CurveFamily, p: PoolState, d: nat)
    requires IsIdentityFamily(curves) && OnCurve(p)
    ensures AfterDeposit(curves, p, d).lpTotalSupply <= p.lpTotalSupply + d
  {
    DepositAtPar(curves, p, d);
    if p.balances.liabilities > 0 {
      MulMonotone(p.lpTotalSupply, p.balances.liabilities, d);
      MulDivAtMost(d, d, p.lpTotalSupply, p.balances.liabilities);
    }
  }

  lemma DepositNeverAhead(s: System, e: Event, t: System)
    requires AcceptedDeposit(s, e, t)
    requires IsIdentityFamily(e.env.curves) && AllOnCurve(s.pools) && NeverAhead(s)
    ensures NeverAhead(t)
  {
    DepositSupplies(s, e, t);
    var a := e.note.assets[0];
    DepositMintsAtMost(e.env.curves, s.pools[a.faucet], a.amount);
  }

  lemma StepNeverAhead(s: System, e: Event, t: System)
    requires NoteStep(s, e, t) && MinimumCovered(e.note) && e.note.beneficiary != NO_ACCOUNT
    requires IsIdentityFamily(e.env.curves) && AllOnCurve(s.pools) && NeverAhead(s)
    ensures NeverAhead(t)
  {
    var r := Plan(e.env, s.pools, e.note).value.result;
    if r.DepositSuccess? {
      DepositNeverAhead(s, e, t);
    } else if r.WithdrawSuccess? {
      WithdrawalSupplies(s, e, t);
    } else {
      OtherSuppliesStand(s, e, t);
    }
  }

  /** From deployment under the identity curve, the ledger's supply is never below the planner's. */
  lemma {:induction false} RunNeverAhead(moves: seq<Move>, run: seq<System>)
    requires IsRun(moves, run) && EmptyPools(run[0].pools)
    requires forall i | 0 <= i < |run| :: Fits(run[i])
    requires forall m | m in moves && m.Handle? :: IdentityEnv(m.event.env)
    requires forall m | m in moves :: Covered(m) && NamesUser(m)
    requires (forall m | m in moves :: Asks(m)) || AllFeesSane(run[0].pools)
    requires forall i | 0 <= i < |moves| :: moves[i].Reload? ==> LedgerBacked(run[i])
    ensures NeverAhead(run[|moves|])
    decreases |moves|
  {
    if moves != [] {
      var n := |moves| - 1;
      assert forall m | m in moves[..n] :: m in moves;
      RunNeverAhead(moves[..n], run[..n + 1]);
      RunStaysOnCurve(moves[..n], run[..n + 1]);
      assert moves[n] in moves && MoveStep(run[n], moves[n], run[n + 1]);
      if moves[n].Handle? {
        StepNeverAhead(run[n], moves[n].event, run[n + 1]);
      }
    }
  }

  /** A system with one pool at par and two users. */
  ghost predicate Books(s: System, f: AccountId, settings: PoolSettings, l: Felt, supply: nat, vault: nat, total: Felt,
                        user: AccountId, userShares: Felt, other: AccountId, otherShares: Felt) {
    && s.pools == map[f := PoolState(settings, PoolBalances(l, l, l), supply, 6)]
    && PoolOf(s.account, f) == PoolWord(l, l, l)
    && Balance(s.account.vault, f) == vault
    && TotalSupply(s.account, f) == total
    && Shares(s.account, f, user) == userShares && Shares(s.account, f, other) == otherShares
  }

  function DepositOf(f: AccountId, amount: Felt, user: AccountId): Note {
    Note(0, 0, DepositNote, [Asset(f, false, amount)], None, amount, user, 0, None)
  }

  function WithdrawOf(f: AccountId, lp: Felt, user: AccountId): Note {
    Note(1, 1, WithdrawNote, [], Some(Asset(f, false, 0)), lp, user, 0, None)
  }

  const SMALL: nat := 0x1_0000_0000

  lemma DepositScript(s: State, c: ScriptCall, f: AccountId, d: Felt, other: AccountId)
    requires c.note == DepositOf(f, d, c.note.beneficiary) && c.amount == d
    requires c.note.beneficiary != other && c.note.beneficiary != NO_ACCOUNT && other != NO_ACCOUNT
    requires c.pool0 == PoolWord(c.pool0.reserve, c.pool0.reserve, c.pool0.reserve)
    requires c.pool0.reserve <= Balance(s.vault, f) + d < 2 * SMALL
    requires TotalSupply(s, f) < SMALL && Shares(s, f, c.note.beneficiary) < SMALL && d < SMALL
    ensures RunDeposit(s, c).Some?
    ensures var t := RunDeposit(s, c).value;
            && PoolOf(t, f) == c.pool0 && Balance(t.vault, f) == Balance(s.vault, f) + d
            && TotalSupply(t, f) == TotalSupply(s, f) + d
            && Shares(t, f, c.note.beneficiary) == Shares(s, f, c.note.beneficiary) + d
            && Shares(t, f, other) == Shares(s, f, other)
  {
    KeysSeparate(f, c.note.beneficiary, f, other);
    KeysSeparate(f, other, f, c.note.beneficiary);
  }

  lemma WithdrawScript(s: State, c: ScriptCall, f: AccountId, lp: Felt, other: AccountId)
    requires c.note == WithdrawOf(f, lp, c.note.beneficiary)
    requires c.note.beneficiary != other && c.note.beneficiary != NO_ACCOUNT && other != NO_ACCOUNT
    requires c.pool0 == PoolWord(c.pool0.reserve, c.pool0.reserve, c.pool0.reserve) && c.pool0.reserve < SMALL
    requires c.pool0.reserve + c.amount <= Balance(s.vault, f)
    requires 0 < lp <= Shares(s, f, c.note.beneficiary) && lp <= TotalSupply(s, f)
    ensures RunWithdraw(s, c).Some?
    ensures var t := RunWithdraw(s, c).value;
            && PoolOf(t, f) == c.pool0 && Balance(t.vault, f) == Balance(s.vault, f) - c.amount
            && TotalSupply(t, f) == TotalSupply(s, f) - lp
            && Shares(t, f, c.note.beneficiary) == Shares(s, f, c.note.beneficiary) - lp
            && Shares(t, f, other) == Shares(s, f, other)
  {
    KeysSeparate(f, c.note.beneficiary, f, other);
    KeysSeparate(f, other, f, c.note.beneficiary);
  }

  lemma DepositBooked(env: Env, s: System, f: AccountId, settings: PoolSettings, l: Felt, supply: nat, vault: nat,
                      total: Felt, user: AccountId, mine: Felt, other: AccountId, theirs: Felt, d: Felt)
    returns (t: System)
    requires IsIdentityFamily(env.curves) && env.now == 0
    requires user != other && user != NO_ACCOUNT && other != NO_ACCOUNT
    requires Books(s, f, settings, l, supply, vault, total, user, mine, other, theirs)
    requires l <= vault < SMALL && total < SMALL && supply < SMALL && mine < SMALL && d < SMALL
    requires LpFor(l, supply, d) < SMALL
    ensures NoteStep(s, Event(env, DepositOf(f, d, user)), t)
    ensures Books(t, f, settings, l + d, supply + LpFor(l, supply, d), vault + d, total + d,
                  user, mine + d, other, theirs)
  {
    var note := DepositOf(f, d, user);
    var p := s.pools[f];
    DepositAtPar(env.curves, p, d);
    var b := PoolBalances(l + d, l + d, l + d);
    assert ToWord(b) == PoolWord(l + d, l + d, l + d);
    var call := ScriptCall(note, d, ToWord(b), EMPTY_POOL);
    var p' := p.UpdateState(b, supply + LpFor(l, supply, d));
    assert PlanDeposit(env, s.pools, note)
        == Ok(Execution(DepositSuccess(LpFor(l, supply, d)), Some(call), Some(s.pools[f := p']), None));
    DepositScript(s.account, call, f, d, other);
    t := System(s.pools[f := p'], RunDeposit(s.account, call).value);
  }

  lemma WithdrawalBooked(env: Env, s: System, f: AccountId, settings: PoolSettings, l: Felt, supply: nat, vault: nat,
                         total: Felt, user: AccountId, mine: Felt, other: AccountId, theirs: Felt, lp: Felt)
    returns (t: System)
    requires IsIdentityFamily(env.curves) && env.now == 0
    requires user != other && user != NO_ACCOUNT && other != NO_ACCOUNT
    requires Books(s, f, settings, l, supply, vault, total, user, mine, other, theirs)
    requires l <= vault < SMALL && 0 < lp <= mine && lp <= supply && lp <= total && AssetsFor(l, supply, lp) <= l
    ensures var dec := AssetsFor(l, supply, lp);
            && NoteStep(s, Event(env, WithdrawOf(f, lp, user)), t)
            && Books(t, f, settings, l - dec, supply - lp, vault - dec, total - lp, user, mine - lp, other, theirs)
  {
    var note := WithdrawOf(f, lp, user);
    var p := s.pools[f];
    var dec := AssetsFor(l, supply, lp);
    WithdrawPaysDecrement(env.curves, p, lp);
    var b := PoolBalances(l - dec, l - dec, l - dec);
    assert ToWord(b) == PoolWord(l - dec, l - dec, l - dec);
    var call := ScriptCall(note, dec, ToWord(b), EMPTY_POOL);
    var p' := p.UpdateState(b, supply - lp);
    assert PlanWithdraw(env, s.pools, note)
        == Ok(Execution(WithdrawSuccess(dec), Some(call), Some(s.pools[f := p']), None));
    WithdrawScript(s.account, call, f, lp, other);
    t := System(s.pools[f := p'], RunWithdraw(s.account, call).value);
  }

  lemma OrphanedBooks(s: System, f: AccountId, settings: PoolSettings, user: AccountId, other: AccountId)
    requires Books(s, f, settings, 0, 0, 0, 50, user, 0, other, 50)
    ensures AllOnCurve(s.pools) && !LedgerBacked(s) && !AllOnCurve(Reloaded(s).pools)
  {
    assert !OnCurve(Reloaded(s).pools[f]);
  }

  /**
   What the drift costs: in a pool where a token stands for two units, a user deposits 100, redeems the 100 shares
   credited for it, and takes out 200.
   */
  lemma CreditedSharesOverpay(env: Env, settings: PoolSettings, f: AccountId, user: AccountId, other: AccountId,
                              s: System)
    returns (t: System, u: System)
    requires IsIdentityFamily(env.curves) && env.now == 0
    requires user != other && user != NO_ACCOUNT && other != NO_ACCOUNT
    requires Books(s, f, settings, 2000, 1000, 2000, 1000, user, 0, other, 1000)
    ensures NoteStep(s, Event(env, DepositOf(f, 100, user)), t)
    ensures NoteStep(t, Event(env, WithdrawOf(f, 100, user)), u)
    ensures Books(t, f, settings, 2100, 1050, 2100, 1100, user, 100, other, 1000)
    ensures Books(u, f, settings, 1900, 950, 1900, 1000, user, 0, other, 1000)
  {
    assert LpFor(2000, 1000, 100) == 50 && AssetsFor(2100, 1050, 100) == 200;
    t := DepositBooked(env, s, f, settings, 2000, 1000, 2000, 1000, user, 0, other, 1000, 100);
    u := WithdrawalBooked(env, t, f, settings, 2100, 1050, 2100, 1100, user, 100, other, 1000, 100);
  }

  /**
   The other user then redeems what the planner still counts, empties the vault, and is left with 50 shares of
   nothing, which the planner takes over when it loads the pool again.
   */
  lemma SharesAreOrphaned(env: Env, settings: PoolSettings, f: AccountId, user: AccountId, other: AccountId, s: System)
    returns (t: System)
    requires IsIdentityFamily(env.curves) && env.now == 0
    requires user != other && user != NO_ACCOUNT && other != NO_ACCOUNT
    requires Books(s, f, settings, 1900, 950, 1900, 1000, user, 0, other, 1000)
    ensures NoteStep(s, Event(env, WithdrawOf(f, 950, other)), t)
    ensures Books(t, f, settings, 0, 0, 0, 50, user, 0, other, 50)
    ensures AllOnCurve(t.pools) && !LedgerBacked(t) && !AllOnCurve(Reloaded(t).pools)
  {
    assert AssetsFor(1900, 950, 950) == 1900;
    t := WithdrawalBooked(env, s, f, settings, 1900, 950, 1900, 1000, other, 1000, user, 0, 950);
    OrphanedBooks(t, f, settings, user, other);
  }
}
