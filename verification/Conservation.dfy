/** No script creates or destroys an asset: vault and notes together hold what they held before. */
module Conservation {
  import opened Wrappers
  import opened Curves
  import opened Felts
  import opened Assets
  import opened StorageKeys
  import opened PoolContract
  import opened Notes
  import opened NoteScripts
  import opened Positions
  import opened PoolStates
  import opened Planner
  import opened Refinement

  /** Everything of one faucet's asset in the vault and the consumed note, or in the vault and the created notes. */
  ghost predicate ConservesAsset(s: State, c: ScriptCall, t: State, f: AccountId) {
    Balance(t.vault, f) + Held(Outputs(c), f) == Balance(s.vault, f) + Held(c.note.assets, f)
  }

  ghost predicate Conserves(s: State, c: ScriptCall, t: State) {
    forall f: AccountId :: ConservesAsset(s, c, t, f)
  }

  lemma HeldSingle(a: Asset, f: AccountId)
    ensures Held([a], f) == if a.faucet == f then a.amount else 0
  {
    assert [a][1..] == [];
  }

  /**
   Deposits, withdrawals and swaps conserve an asset, whether they execute or bounce, with one exception: the
   withdrawal script ignores what is attached to its note.
   */
  lemma ScriptConserves(s: State, c: ScriptCall, f: AccountId)
    requires RunScript(s, c).Some? && !c.note.kind.PositionNote?
    ensures ConservesAsset(s, c, RunScript(s, c).value, f)
            <==> (c.note.kind.WithdrawNote? ==> Held(c.note.assets, f) == 0)
  {
    if !c.note.kind.WithdrawNote? {
      assert c.note.assets == [c.note.assets[0]];
      HeldSingle(c.note.assets[0], f);
    }
    if c.note.assetInput.Some? {
      HeldSingle(AssetOut(c.note.assetInput.value, c.amount), f);
    }
  }

  /** An executed position trade conserves every asset exactly when the note holds what is sold. */
  lemma PositionConservesExactly(s: State, c: ScriptCall)
    requires RunScript(s, c).Some? && c.note.kind.PositionNote?
    requires var Trade(sell, buy) := c.note.trade.value;
             c.amount >= buy.amount && TradeFits(c.note.assets, sell, AssetOut(buy, c.amount))
    ensures Conserves(s, c, RunScript(s, c).value)
            <==> c.note.trade.value.sell.amount <= Held(c.note.assets, c.note.trade.value.sell.faucet)
  {
    var Trade(sell, buy) := c.note.trade.value;
    var bought := AssetOut(buy, c.amount);
    var t := RunScript(s, c).value;
    var held := c.note.assets;
    var rewritten := Rewrite(held, sell, bought);
    RewriteConserves(held, sell, bought);
    forall f: AccountId
      ensures ConservesAsset(s, c, t, f) <==> MovesOn(held, rewritten, sell, bought, f)
    {
    }
    assert Conserves(s, c, t) ==> MovesExactly(held, rewritten, sell, bought);
  }

  /** The calls that conserve every asset: nothing attached to a withdrawal, and a position holds what it sells. */
  ghost predicate Conserving(c: ScriptCall) {
    match c.note.kind
    case WithdrawNote => forall f: AccountId :: Held(c.note.assets, f) == 0
    case PositionNote =>
      c.note.trade.Some? && c.amount >= c.note.trade.value.buy.amount ==>
        var Trade(sell, buy) := c.note.trade.value;
        TradeFits(c.note.assets, sell, AssetOut(buy, c.amount)) && sell.amount <= Held(c.note.assets, sell.faucet)
    case _ => true
  }

  /** What a transaction consumes and what it creates of one asset, in all its notes. */
  function Consumed(calls: seq<ScriptCall>, f: AccountId): nat {
    if calls == [] then 0
    else Consumed(calls[..|calls| - 1], f) + Held(calls[|calls| - 1].note.assets, f)
  }

  function Produced(calls: seq<ScriptCall>, f: AccountId): nat {
    if calls == [] then 0
    else Produced(calls[..|calls| - 1], f) + Held(Outputs(calls[|calls| - 1]), f)
  }

  /** A whole transaction conserves every asset across the vault, the notes consumed and the notes created. */
  lemma {:induction false} TransactionConserves(s: State, calls: seq<ScriptCall>, f: AccountId)
    requires RunScripts(s, calls).Some?
    requires forall c | c in calls :: Conserving(c)
    ensures Balance(RunScripts(s, calls).value.vault, f) + Produced(calls, f)
            == Balance(s.vault, f) + Consumed(calls, f)
    decreases |calls|
  {
    if calls != [] {
      var init, c := calls[..|calls| - 1], calls[|calls| - 1];
      assert c in calls && forall d | d in init :: d in calls;
      TransactionConserves(s, init, f);
      var before := RunScripts(s, init).value;
      if !c.note.kind.PositionNote? {
        ScriptConserves(before, c, f);
      } else if c.amount >= c.note.trade.value.buy.amount {
        PositionConservesExactly(before, c);
      }
      assert ConservesAsset(before, c, RunScript(before, c).value, f);
    }
  }

  /** The note the planner announces for a position is the one the contract creates iff every asset is traded. */
  lemma RespawnedNoteAgreesExactly(env: Env, pools: Pools, note: Note)
    requires note.kind.PositionNote? && note.trade.Some?
    requires PlanPosition(env, pools, note).Ok? && PlanPosition(env, pools, note).value.result.SwapSuccess?
    requires PlainTrade(note.assets, note.trade.value.sell, note.trade.value.buy)
    ensures var ex := PlanPosition(env, pools, note).value;
            ex.respawned == Some(Outputs(ex.call.value))
            <==> forall a | a in note.assets :: Traded(a, note.trade.value.sell, note.trade.value.buy)
  {
    var Trade(sell, buy) := note.trade.value;
    var ex := PlanPosition(env, pools, note).value;
    var bought := Asset(buy.faucet, false, ex.result.amount);
    assert AssetOut(buy, ex.call.value.amount) == bought;
    RespawnAgreesWithRewrite(note.assets, sell, bought);
    assert forall a :: Traded(a, sell, bought) <==> Traded(a, sell, buy);
  }

  /** A note executes only in time, and the script then pays the planned amount, at least the minimum asked for. */
  ghost predicate PaysAtLeast(e: Event, call: Option<ScriptCall>, paid: nat, asked: Asset) {
    && e.env.now <= Signed(e.note.deadline) <= e.note.deadline
    && paid >= asked.amount
    && call.Some?
    && Held(Outputs(call.value), asked.faucet) >= paid
  }

  /** A note that is returned leaves the account alone and gives back exactly what was attached. */
  ghost predicate Returns(s: System, e: Event, ex: Execution, t: System) {
    t.account == s.account && ex.call.Some? && Outputs(ex.call.value) == e.note.assets
  }

  ghost predicate TakesIn(s: State, a: Asset, t: State) {
    forall f :: Balance(t.vault, f) == Balance(s.vault, f) + if f == a.faucet then a.amount else 0
  }

  /** The account keeps the asset of a note that was not executed: its vault grows, no pool and no share moves. */
  ghost predicate Keeps(s: System, a: Asset, t: System) {
    && TakesIn(s.account, a, t.account)
    && (forall f, u :: Shares(t.account, f, u) == Shares(s.account, f, u))
    && (Agree(s) ==> forall f :: PoolOf(t.account, f) == PoolOf(s.account, f))
  }

  lemma ExecutedSwapPays(s: System, e: Event, t: System)
    requires Agree(s) && NoteStep(s, e, t)
    requires e.note.kind.SwapNote? && PlanSwap(e.env, s.pools, e.note).value.result.SwapSuccess?
    ensures var ex := PlanSwap(e.env, s.pools, e.note).value;
            PaysAtLeast(e, ex.call, ex.result.amount, e.note.assetInput.value)
  {
    var ex := PlanSwap(e.env, s.pools, e.note).value;
    var given, asked := e.note.assets[0], e.note.assetInput.value;
    OldWordFits(s, asked.faucet);
    QuoteMovesAmounts(e.env.curves, s.pools[given.faucet], s.pools[asked.faucet], given.amount,
                      e.env.quoteWith(e.env.prices[given.faucet], e.env.prices[asked.faucet]));
    assert ex.call.value.amount == ex.result.amount;
    HeldSingle(AssetOut(asked, ex.call.value.amount), asked.faucet);
  }

  /** An exchange that pays nothing only takes in. */
  lemma EmptyExchange(s: State, given: Asset, w0: PoolWord, paid: Asset, w1: PoolWord)
    requires Exchange(s, given, w0, paid, w1).Some? && paid.amount == 0
    ensures var t := Exchange(s, given, w0, paid, w1).value;
            && TakesIn(s, given, t) && t.deposits == s.deposits
            && (w0 == PoolOf(s, given.faucet) && w1 == PoolOf(s, paid.faucet) ==>
                  forall f :: PoolOf(t, f) == PoolOf(s, f))
  {
    ExchangeMoves(s, given, w0, paid, w1);
  }

  /** A swap that was not executed but whose zero amount the script took for a payment. */
  lemma UnexecutedSwapKeeps(s: System, e: Event, t: System)
    requires NoteStep(s, e, t)
    requires e.note.kind.SwapNote? && e.note.assets != [] && e.note.assetInput.Some?
    requires e.note.assetInput.value.amount == 0 && !PlanSwap(e.env, s.pools, e.note).value.result.SwapSuccess?
    ensures Keeps(s, e.note.assets[0], t)
  {
    var given, asked := e.note.assets[0], e.note.assetInput.value;
    var w0, w1 := ToWord(s.pools[given.faucet].balances), ToWord(s.pools[asked.faucet].balances);
    assert PlanSwap(e.env, s.pools, e.note).value.call == Some(ScriptCall(e.note, 0, w0, w1));
    EmptyExchange(s.account, given, w0, AssetOut(asked, 0), w1);
    if Agree(s) {
      OldWordFits(s, given.faucet);
      OldWordFits(s, asked.faucet);
    }
  }

  /**
   A swap is executed in time for at least its minimum; any other is returned whole if its minimum is positive.
   With a minimum of zero the zero amount of the bounce passes for a payment, and the asset is kept.
   */
  lemma SwapIsFair(s: System, e: Event, t: System)
    requires Agree(s) && NoteStep(s, e, t)
    requires e.note.kind.SwapNote? && e.note.assets != [] && e.note.assetInput.Some?
    ensures var ex := PlanSwap(e.env, s.pools, e.note).value;
            var given, asked := e.note.assets[0], e.note.assetInput.value;
            if ex.result.SwapSuccess? then PaysAtLeast(e, ex.call, ex.result.amount, asked)
            else if asked.amount > 0 then Returns(s, e, ex, t)
            else Keeps(s, given, t) && Outputs(ex.call.value) == [AssetOut(asked, 0)]
  {
    if PlanSwap(e.env, s.pools, e.note).value.result.SwapSuccess? {
      ExecutedSwapPays(s, e, t);
    } else if e.note.assetInput.value.amount == 0 {
      UnexecutedSwapKeeps(s, e, t);
    }
  }

  /** So a swap that is not executed gets its asset back if and only if it asked for something. */
  lemma UnexecutedSwapReturned(s: System, e: Event, t: System)
    requires NoteStep(s, e, t)
    requires e.note.kind.SwapNote? && e.note.assets != [] && e.note.assets[0].amount > 0 && e.note.assetInput.Some?
    requires !PlanSwap(e.env, s.pools, e.note).value.result.SwapSuccess?
    ensures Returns(s, e, PlanSwap(e.env, s.pools, e.note).value, t) <==> e.note.assetInput.value.amount > 0
  {
  }

  lemma WithdrawalIsFair(s: System, e: Event, t: System)
    requires Agree(s) && NoteStep(s, e, t)
    requires e.note.kind.WithdrawNote? && e.note.assetInput.Some?
    ensures var ex := PlanWithdraw(e.env, s.pools, e.note).value;
            if ex.result.WithdrawSuccess? then PaysAtLeast(e, ex.call, ex.result.amount, e.note.assetInput.value)
            else t == s && ex.call.None?
  {
    var ex := PlanWithdraw(e.env, s.pools, e.note).value;
    if ex.result.WithdrawSuccess? {
      var asked := e.note.assetInput.value;
      OldWordFits(s, asked.faucet);
      HeldSingle(AssetOut(asked, ex.call.value.amount), asked.faucet);
    }
  }

  lemma PositionIsFair(s: System, e: Event, t: System)
    requires Agree(s) && NoteStep(s, e, t)
    requires e.note.kind.PositionNote? && e.note.trade.Some?
    ensures var ex := PlanPosition(e.env, s.pools, e.note).value;
            if ex.result.SwapSuccess? then PaysAtLeast(e, ex.call, ex.result.amount, e.note.trade.value.buy)
            else t == s && ex.call.None? && ex.respawned == Some(e.note.assets)
  {
    var ex := PlanPosition(e.env, s.pools, e.note).value;
    if ex.result.SwapSuccess? {
      var Trade(sell, buy) := e.note.trade.value;
      var bought := Asset(buy.faucet, false, ex.result.amount);
      assert ex.call.value.amount == ex.result.amount;
      RespawnHasRoom(e.note.assets, sell, bought, [], false);
      RewritePays(e.note.assets, sell, AssetOut(buy, ex.call.value.amount));
    }
  }

  /** The account takes a deposit in and credits its amount to the beneficiary, and nothing to anybody else. */
  ghost predicate Credits(s: State, a: Asset, user: AccountId, t: State) {
    && TakesIn(s, a, t)
    && forall f, u | u != NO_ACCOUNT ::
         Shares(t, f, u) == Shares(s, f, u) + if f == a.faucet && u == user then a.amount else 0
  }

  lemma SharesAfterDeposit(s: State, g: AccountId, user: AccountId, amount: Felt, f: AccountId, u: AccountId)
    requires Deposit(s, g, user, amount).Some?
    requires amount == 0 || u != NO_ACCOUNT
    ensures Shares(Deposit(s, g, user, amount).value, f, u)
            == Shares(s, f, u) + if f == g && u == user then amount else 0
  {
    KeysSeparate(f, u, g, user);
  }

  /** What an executed deposit's script does to the vault and to everybody's shares. */
  lemma ExecutedDepositCredits(s: State, c: ScriptCall)
    requires RunDeposit(s, c).Some? && c.amount >= c.note.amountInput
    ensures TakesIn(s, c.note.assets[0], RunDeposit(s, c).value)
    ensures forall f, u | c.amount == 0 || u != NO_ACCOUNT ::
              Shares(RunDeposit(s, c).value, f, u)
              == Shares(s, f, u) + if f == c.note.assets[0].faucet && u == c.note.beneficiary then c.amount else 0
  {
    var given := c.note.assets[0];
    DepositMoves(s, c);
    var received := ReceiveAsset(s, given, c.pool0).value;
    forall f, u | c.amount == 0 || u != NO_ACCOUNT
      ensures Shares(RunDeposit(s, c).value, f, u)
              == Shares(s, f, u) + if f == given.faucet && u == c.note.beneficiary then c.amount else 0
    {
      SharesAfterDeposit(received, given.faucet, c.note.beneficiary, c.amount, f, u);
    }
  }

  /** A late deposit whose zero amount the script took for a credit. */
  lemma LateDepositKept(s: System, e: Event, t: System)
    requires NoteStep(s, e, t)
    requires e.note.kind.DepositNote? && e.note.assets != []
    requires e.env.now > Signed(e.note.deadline) && e.note.amountInput == 0
    ensures Keeps(s, e.note.assets[0], t)
  {
    var given := e.note.assets[0];
    var c := ScriptCall(e.note, 0, ToWord(s.pools[given.faucet].balances), EMPTY_POOL);
    assert PlanDeposit(e.env, s.pools, e.note).value.call == Some(c);
    ExecutedDepositCredits(s.account, c);
    DepositMoves(s.account, c);
    if Agree(s) {
      OldWordFits(s, given.faucet);
    }
  }

  /**
   A deposit is executed only in time, and then credited, or returned whole when its minimum exceeds what is
   attached. A late one is returned whole if its minimum is positive; with a minimum of zero it is kept.
   */
  lemma DepositIsFair(s: System, e: Event, t: System)
    requires NoteStep(s, e, t)
    requires e.note.kind.DepositNote? && e.note.assets != []
    ensures var ex := PlanDeposit(e.env, s.pools, e.note).value;
            var given := e.note.assets[0];
            && (ex.result.DepositSuccess? <==> e.env.now <= Signed(e.note.deadline))
            && if ex.result.DepositSuccess? && MinimumCovered(e.note) then
                 Credits(s.account, given, e.note.beneficiary, t.account) && Outputs(ex.call.value) == []
               else if ex.result.DepositSuccess? || e.note.amountInput > 0 then Returns(s, e, ex, t)
               else Keeps(s, given, t) && Outputs(ex.call.value) == []
  {
    var ex := PlanDeposit(e.env, s.pools, e.note).value;
    if ex.result.DepositSuccess? {
      if MinimumCovered(e.note) {
        ExecutedDepositCredits(s.account, ex.call.value);
      }
    } else if e.note.amountInput == 0 {
      LateDepositKept(s, e, t);
    }
  }

  /** So a late deposit is returned if and only if its minimum is positive. */
  lemma LateDepositReturned(s: System, e: Event, t: System)
    requires NoteStep(s, e, t)
    requires e.note.kind.DepositNote? && e.note.assets != [] && e.env.now > Signed(e.note.deadline)
    ensures Returns(s, e, PlanDeposit(e.env, s.pools, e.note).value, t) <==> e.note.amountInput > 0
  {
  }

  /** The shortest way to lose a deposit: one unit, late, with a minimum of zero, sent to a fresh deployment. */
  lemma ALateDepositIsKept(curves: CurveFamily, settings: PoolSettings, f: AccountId, user: AccountId)
    returns (s: System, e: Event, t: System)
    ensures s == System(map[f := PoolState(settings, PoolBalances(0, 0, 0), 0, 6)], EMPTY)
    ensures e.env.curves == curves && e.env.now == 1 && e.note.deadline == 0
    ensures e.note.assets == [Asset(f, false, 1)] && e.note.beneficiary == user
    ensures Agree(s) && NoteStep(s, e, t)
    ensures Balance(t.account.vault, f) == 1 && Shares(t.account, f, user) == 0
    ensures Outputs(Plan(e.env, s.pools, e.note).value.call.value) == []
  {
    var note := Note(0, 0, DepositNote, [Asset(f, false, 1)], None, 0, user, 0, None);
    s := System(map[f := PoolState(settings, PoolBalances(0, 0, 0), 0, 6)], EMPTY);
    e := Event(Env(curves, 1, map[], (a: nat, b: nat) => a), note);
    var call := ScriptCall(note, 0, EMPTY_POOL, EMPTY_POOL);
    assert ToWord(PoolBalances(0, 0, 0)) == EMPTY_POOL;
    assert Plan(e.env, s.pools, note).value.call == Some(call);
    t := System(s.pools, RunScript(s.account, call).value);
    DepositIsFair(s, e, t);
  }
}
