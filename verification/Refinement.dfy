/**
 The planner and the contract together: one note at a time, then whole batches and runs of batches.

 A `System` is the off-chain pool map beside the on-chain account. Everything here holds for every curve.
 */
module Refinement {
  import opened Wrappers
  import opened Curves
  import opened Felts
  import opened Assets
  import opened PoolContract
  import opened PoolStates
  import opened Notes
  import opened NoteScripts
  import opened Planner
  import opened Delivery

  datatype System = System(pools: Pools, account: State)

  function RunOptional(s: State, call: Option<ScriptCall>): Option<State> {
    match call
    case None => Some(s)
    case Some(c) => RunScript(s, c)
  }

  /** One note of a transaction that succeeds: planned off-chain, then run on-chain. */
  ghost predicate NoteStep(s: System, e: Event, t: System) {
    var plan := Plan(e.env, s.pools, e.note);
    && plan.Ok?
    && t.pools == PoolsAfter(plan.value, s.pools)
    && RunOptional(s.account, plan.value.call) == Some(t.account)
  }

  /** The refinement relation: the stored pool states are the planned balances. */
  ghost predicate Agree(s: System) {
    forall f | f in s.pools :: AgreeOn(s, f)
  }

  predicate AgreeOn(s: System, f: AccountId)
    requires f in s.pools
  {
    SameBalances(s.pools[f].balances, PoolOf(s.account, f))
  }

  /** Every planned balance is a canonical field element, so note arguments carry it standing. */
  ghost predicate PoolsFit(pools: Pools) {
    forall f | f in pools :: FitsFelt(pools[f].balances)
  }

  ghost predicate Fits(s: System) {
    PoolsFit(s.pools)
  }

  /** Every pool map that the planner passes through in a batch fits. */
  ghost predicate FitsThroughout(events: seq<Event>, b: Batch)
    decreases |events|
  {
    && PoolsFit(b.pools)
    && (events != [] && Plan(events[0].env, b.pools, events[0].note).Ok? ==>
          FitsThroughout(events[1..],
                         Extend(b, events[0].note, Plan(events[0].env, b.pools, events[0].note).value)))
  }

  /** The script compares a deposit's minimum with the attached amount, the planner does not. */
  predicate MinimumCovered(note: Note) {
    note.kind.DepositNote? && note.assets != [] ==> note.amountInput <= note.assets[0].amount
  }

  /** How far the vault exceeds what a pool may pay out. */
  function Slack(s: System, f: AccountId): int
    requires f in s.pools
  {
    Balance(s.account.vault, f) - s.pools[f].balances.reserveWithSlippage
  }

  /** Notes as users are meant to write them: something asked for in return, in another asset. */
  predicate AsksForValue(note: Note) {
    match note.kind
    case DepositNote => note.amountInput > 0
    case SwapNote =>
      note.assets != [] && note.assetInput.Some? ==>
        note.assetInput.value.amount > 0 && note.assets[0].faucet != note.assetInput.value.faucet
    case PositionNote =>
      note.trade.Some? ==>
        note.trade.value.buy.amount > 0 && note.trade.value.sell.faucet != note.trade.value.buy.faucet
    case _ => true
  }

  /** Agreement survives and no vault falls behind its pool; when `exact`, every vault moves with its pool. */
  ghost predicate Tracks(s: System, exact: bool, t: System) {
    && t.pools.Keys == s.pools.Keys
    && Agree(t)
    && (forall f | f in s.pools :: Slack(t, f) >= Slack(s, f))
    && (exact ==> forall f | f in s.pools :: Slack(t, f) == Slack(s, f))
  }

  /** A quote moves the slippage reserves by exactly the two amounts, unless it pays nothing. */
  lemma QuoteMovesAmounts(curves: CurveFamily, base: PoolState, quote: PoolState, amountIn: nat, price: nat)
    requires GetCurveAmountOut(curves, base, quote, amountIn, price).Ok?
    ensures var q := GetCurveAmountOut(curves, base, quote, amountIn, price).value;
            && q.amountOut <= quote.balances.reserveWithSlippage
            && q.quote.reserveWithSlippage == quote.balances.reserveWithSlippage - q.amountOut
            && q.base.reserveWithSlippage <= base.balances.reserveWithSlippage + amountIn
            && (q.amountOut > 0 ==> q.base.reserveWithSlippage == base.balances.reserveWithSlippage + amountIn)
  {
  }

  lemma OldWordFits(s: System, f: AccountId)
    requires Agree(s) && f in s.pools
    ensures FitsFelt(s.pools[f].balances)
    ensures ToWord(s.pools[f].balances) == PoolOf(s.account, f)
  {
    assert AgreeOn(s, f);
    WordOfFitting(s.pools[f].balances);
  }

  /** One pool written and its asset moved through the vault by `moved`. */
  lemma OnePoolTracks(s: System, f: AccountId, pool: PoolState, moved: int, t: System)
    requires Agree(s) && f in s.pools
    requires FitsFelt(pool.balances)
    requires t.pools == s.pools[f := pool]
    requires t.account.pools == s.account.pools[f := ToWord(pool.balances)]
    requires Balance(s.account.vault, f) + moved >= 0
    requires t.account.vault == s.account.vault[f := Balance(s.account.vault, f) + moved]
    requires pool.balances.reserveWithSlippage <= s.pools[f].balances.reserveWithSlippage + moved
    ensures Tracks(s, pool.balances.reserveWithSlippage == s.pools[f].balances.reserveWithSlippage + moved, t)
  {
    WordOfFitting(pool.balances);
    forall g | g in t.pools
      ensures AgreeOn(t, g)
    {
      assert AgreeOn(s, g);
    }
  }

  /** What an executed deposit's script writes besides the ledger. */
  lemma DepositMoves(s: State, c: ScriptCall)
    requires RunDeposit(s, c).Some? && c.amount >= c.note.amountInput
    ensures var a := c.note.assets[0];
            var t := RunDeposit(s, c).value;
            t.pools == s.pools[a.faucet := c.pool0]
            && t.vault == s.vault[a.faucet := Balance(s.vault, a.faucet) + a.amount]
  {
  }

  lemma AcceptedDepositTracks(s: System, e: Event, t: System)
    requires Agree(s) && NoteStep(s, e, t) && Fits(t)
    requires e.note.kind.DepositNote? && PlanDeposit(e.env, s.pools, e.note).value.result.DepositSuccess?
    requires MinimumCovered(e.note)
    ensures Tracks(s, true, t)
  {
    var asset := e.note.assets[0];
    var p := s.pools[asset.faucet];
    var q := GetDepositLpAmountOut(e.env.curves, p, asset.amount);
    var pool := p.UpdateState(q.balances, q.lpTotalSupply);
    var call := ScriptCall(e.note, asset.amount, ToWord(q.balances), EMPTY_POOL);
    assert PlanDeposit(e.env, s.pools, e.note).value.call == Some(call);
    assert t.pools == s.pools[asset.faucet := pool];
    assert FitsFelt(t.pools[asset.faucet].balances);
    DepositMoves(s.account, call);
    OnePoolTracks(s, asset.faucet, pool, asset.amount, t);
  }

  /** The vault of one faucet grows while every pool stands still. */
  lemma DonationTracks(s: System, f: AccountId, amount: nat, t: System)
    requires Agree(s) && f in s.pools && t.pools == s.pools
    requires t.account.pools == s.account.pools[f := ToWord(s.pools[f].balances)]
    requires t.account.vault == s.account.vault[f := Balance(s.account.vault, f) + amount]
    ensures Tracks(s, amount == 0, t)
  {
    OldWordFits(s, f);
    forall g | g in t.pools
      ensures AgreeOn(t, g)
    {
      assert AgreeOn(s, g);
    }
  }

  /** An expired deposit bounces on-chain, or with a zero minimum is kept while the pool stands still. */
  lemma ExpiredDepositTracks(s: System, e: Event, t: System)
    requires Agree(s) && NoteStep(s, e, t)
    requires e.note.kind.DepositNote? && !PlanDeposit(e.env, s.pools, e.note).value.result.DepositSuccess?
    ensures Tracks(s, AsksForValue(e.note), t)
  {
    if e.note.amountInput == 0 && e.note.assets != [] {
      var asset := e.note.assets[0];
      var call := ScriptCall(e.note, 0, ToWord(s.pools[asset.faucet].balances), EMPTY_POOL);
      assert PlanDeposit(e.env, s.pools, e.note).value.call == Some(call);
      DepositMoves(s.account, call);
      DonationTracks(s, asset.faucet, asset.amount, t);
    } else {
      assert t == s;
    }
  }

  /** What a withdrawal's script writes besides the ledger. */
  lemma WithdrawMoves(s: State, c: ScriptCall)
    requires RunWithdraw(s, c).Some?
    ensures var f := c.note.assetInput.value.faucet;
            var t := RunWithdraw(s, c).value;
            && c.amount <= Balance(s.vault, f)
            && t.pools == s.pools[f := c.pool0] && t.vault == s.vault[f := Balance(s.vault, f) - c.amount]
  {
  }

  lemma WithdrawTracks(s: System, e: Event, t: System)
    requires Agree(s) && NoteStep(s, e, t) && Fits(t)
    requires e.note.kind.WithdrawNote?
    ensures Tracks(s, AsksForValue(e.note), t)
  {
    var plan := Plan(e.env, s.pools, e.note).value;
    if plan.call.Some? {
      var f := e.note.assetInput.value.faucet;
      OldWordFits(s, f);
      WithdrawMoves(s.account, plan.call.value);
      OnePoolTracks(s, f, t.pools[f], -(plan.result.amount as int), t);
    }
  }

  /** What a trade writes: both pool states and both vault balances, and not the ledger. */
  lemma ExchangeMoves(s: State, sell: Asset, w0: PoolWord, bought: Asset, w1: PoolWord)
    requires Exchange(s, sell, w0, bought, w1).Some?
    ensures var t := Exchange(s, sell, w0, bought, w1).value;
            var vault := s.vault[sell.faucet := Balance(s.vault, sell.faucet) + sell.amount];
            && bought.amount <= Balance(vault, bought.faucet)
            && t == State(s.pools[sell.faucet := w0][bought.faucet := w1], s.deposits,
                          vault[bought.faucet := Balance(vault, bought.faucet) - bought.amount])
  {
  }

  /** A trade that the contract executes with the planned states, and moves the slippage reserves like a quote. */
  ghost predicate Executes(s: System, sell: Asset, buy: Asset, q: SwapQuote, t: System) {
    && sell.faucet in s.pools && buy.faucet in s.pools
    && t.pools == Settle(s.pools, sell.faucet, buy.faucet, q)
    && q.amountOut <= s.pools[buy.faucet].balances.reserveWithSlippage
    && q.quote.reserveWithSlippage == s.pools[buy.faucet].balances.reserveWithSlippage - q.amountOut
    && q.base.reserveWithSlippage <= s.pools[sell.faucet].balances.reserveWithSlippage + sell.amount
    && Exchange(s.account, sell, ToWord(q.base), AssetOut(buy, ToFelt(q.amountOut)), ToWord(q.quote))
       == Some(t.account)
  }

  lemma ExchangeAgrees(s: System, sell: Asset, buy: Asset, q: SwapQuote, t: System)
    requires Agree(s) && Fits(t) && Executes(s, sell, buy, q, t)
    ensures Agree(t)
  {
    ExchangeMoves(s.account, sell, ToWord(q.base), AssetOut(buy, ToFelt(q.amountOut)), ToWord(q.quote));
    WordOfFitting(t.pools[buy.faucet].balances);
    WordOfFitting(t.pools[sell.faucet].balances);
    forall f | f in t.pools
      ensures AgreeOn(t, f)
    {
      assert AgreeOn(s, f);
    }
  }

  lemma ExchangeSlack(s: System, sell: Asset, buy: Asset, q: SwapQuote, t: System, f: AccountId)
    requires Agree(s) && Executes(s, sell, buy, q, t) && f in s.pools
    ensures Slack(t, f) >= Slack(s, f)
    ensures sell.faucet != buy.faucet
            && q.base.reserveWithSlippage == s.pools[sell.faucet].balances.reserveWithSlippage + sell.amount
            ==> Slack(t, f) == Slack(s, f)
  {
    OldWordFits(s, buy.faucet);
    ExchangeMoves(s.account, sell, ToWord(q.base), AssetOut(buy, ToFelt(q.amountOut)), ToWord(q.quote));
  }

  /** Both sides of an executed trade, for the two note kinds that trade. */
  lemma ExchangeTracks(s: System, sell: Asset, buy: Asset, q: SwapQuote, t: System)
    requires Agree(s) && Fits(t) && Executes(s, sell, buy, q, t)
    ensures var moved := s.pools[sell.faucet].balances.reserveWithSlippage + sell.amount;
            Tracks(s, sell.faucet != buy.faucet && q.base.reserveWithSlippage == moved, t)
  {
    ExchangeAgrees(s, sell, buy, q, t);
    forall f | f in s.pools
      ensures Slack(t, f) >= Slack(s, f)
      ensures sell.faucet != buy.faucet
              && q.base.reserveWithSlippage == s.pools[sell.faucet].balances.reserveWithSlippage + sell.amount
              ==> Slack(t, f) == Slack(s, f)
    {
      ExchangeSlack(s, sell, buy, q, t, f);
    }
  }

  lemma ExecutedSwapTracks(s: System, e: Event, t: System)
    requires Agree(s) && NoteStep(s, e, t) && Fits(t)
    requires e.note.kind.SwapNote? && PlanSwap(e.env, s.pools, e.note).value.result.SwapSuccess?
    ensures Tracks(s, AsksForValue(e.note), t)
  {
    var note := e.note;
    var sell, buy := note.assets[0], note.assetInput.value;
    var q := QuoteTrade(e.env, s.pools, sell, buy).value;
    QuoteMovesAmounts(e.env.curves, s.pools[sell.faucet], s.pools[buy.faucet], sell.amount,
                      e.env.quoteWith(e.env.prices[sell.faucet], e.env.prices[buy.faucet]));
    OldWordFits(s, buy.faucet);
    ExchangeTracks(s, sell, buy, q, t);
  }

  /** A trade that pays nothing and leaves the pools as they stand. */
  lemma StandingTradeTracks(s: System, given: Asset, paid: Asset, t: System)
    requires Agree(s) && given.faucet in s.pools && paid.faucet in s.pools
    requires t.pools == s.pools && paid.amount == 0
    requires Exchange(s.account, given, ToWord(s.pools[given.faucet].balances),
                      paid, ToWord(s.pools[paid.faucet].balances)) == Some(t.account)
    ensures Tracks(s, false, t)
  {
    OldWordFits(s, given.faucet);
    OldWordFits(s, paid.faucet);
    ExchangeMoves(s.account, given, ToWord(s.pools[given.faucet].balances),
                  paid, ToWord(s.pools[paid.faucet].balances));
    forall f | f in t.pools
      ensures AgreeOn(t, f)
    {
      assert AgreeOn(s, f);
    }
  }

  /** A swap that fails off-chain bounces on-chain, or with a zero minimum leaves the pools as they stand. */
  lemma UnexecutedSwapTracks(s: System, e: Event, t: System)
    requires Agree(s) && NoteStep(s, e, t)
    requires e.note.kind.SwapNote? && !PlanSwap(e.env, s.pools, e.note).value.result.SwapSuccess?
    ensures Tracks(s, AsksForValue(e.note), t)
  {
    if e.note.assets != [] && e.note.assetInput.Some? && e.note.assetInput.value.amount == 0 {
      var given, asked := e.note.assets[0], e.note.assetInput.value;
      var w0, w1 := ToWord(s.pools[given.faucet].balances), ToWord(s.pools[asked.faucet].balances);
      assert PlanSwap(e.env, s.pools, e.note).value.call == Some(ScriptCall(e.note, 0, w0, w1));
      StandingTradeTracks(s, given, AssetOut(asked, 0), t);
    } else {
      assert t == s;
    }
  }

  lemma PositionTracks(s: System, e: Event, t: System)
    requires Agree(s) && NoteStep(s, e, t) && Fits(t)
    requires e.note.kind.PositionNote?
    ensures Tracks(s, AsksForValue(e.note), t)
  {
    var note := e.note;
    var plan := Plan(e.env, s.pools, note).value;
    if plan.call.Some? {
      var Trade(sell, buy) := note.trade.value;
      var q := QuoteTrade(e.env, s.pools, sell, buy).value;
      QuoteMovesAmounts(e.env.curves, s.pools[sell.faucet], s.pools[buy.faucet], sell.amount,
                        e.env.quoteWith(e.env.prices[sell.faucet], e.env.prices[buy.faucet]));
      OldWordFits(s, buy.faucet);
      ExchangeTracks(s, sell, buy, q, t);
    }
  }

  /** One note keeps planner and contract in agreement and never lowers a vault below what its pool owes. */
  lemma StepTracks(s: System, e: Event, t: System)
    requires Agree(s) && NoteStep(s, e, t) && Fits(t) && MinimumCovered(e.note)
    ensures Tracks(s, AsksForValue(e.note), t)
  {
    match e.note.kind
    case DepositNote =>
      if PlanDeposit(e.env, s.pools, e.note).value.result.DepositSuccess? {
        AcceptedDepositTracks(s, e, t);
      } else {
        ExpiredDepositTracks(s, e, t);
      }
    case WithdrawNote => WithdrawTracks(s, e, t);
    case SwapNote =>
      if PlanSwap(e.env, s.pools, e.note).value.result.SwapSuccess? {
        ExecutedSwapTracks(s, e, t);
      } else {
        UnexecutedSwapTracks(s, e, t);
      }
    case PositionNote => PositionTracks(s, e, t);
    case P2ID =>
  }

  /** Fitting is exactly what agreement needs: what the contract stores is always a canonical field element. */
  lemma StepAgreesExactly(s: System, e: Event, t: System)
    requires Agree(s) && NoteStep(s, e, t) && MinimumCovered(e.note)
    ensures Agree(t) <==> Fits(t)
  {
    if Fits(t) {
      StepTracks(s, e, t);
    } else {
      var f :| f in t.pools && !FitsFelt(t.pools[f].balances);
      assert !AgreeOn(t, f);
    }
  }

  /** The hypothesis on deposits is exact: an accepted deposit stays in agreement only if its minimum is covered. */
  lemma DepositAgreesExactly(s: System, e: Event, t: System)
    requires Agree(s) && NoteStep(s, e, t) && Fits(t)
    requires e.note.kind.DepositNote? && e.note.assets != [] && e.note.assets[0].amount > 0
    requires Plan(e.env, s.pools, e.note).value.result.DepositSuccess?
    ensures Agree(t) <==> MinimumCovered(e.note)
  {
    var f := e.note.assets[0].faucet;
    if MinimumCovered(e.note) {
      AcceptedDepositTracks(s, e, t);
    } else {
      assert AgreeOn(s, f);
      assert !AgreeOn(t, f);
    }
  }

  /** What happens to the system: a note is handled, or the server starts and loads its pools from the account. */
  datatype Move = Handle(event: Event) | Reload

  /** `update_pool_state_from_chain`; nothing in the account changes the settings and decimals it reads. */
  function Loaded(account: State, f: AccountId, p: PoolState): PoolState {
    var w := PoolOf(account, f);
    var b := PoolBalances(w.liabilities, w.reserve, w.reserveWithSlippage);
    PoolState(p.settings, b, TotalSupply(account, f), p.decimals)
  }

  function Reloaded(s: System): System {
    System(map f | f in s.pools :: Loaded(s.account, f, s.pools[f]), s.account)
  }

  ghost predicate MoveStep(s: System, m: Move, t: System) {
    match m
    case Handle(e) => NoteStep(s, e, t)
    case Reload => t == Reloaded(s)
  }

  /** A run: consecutive systems joined by consecutive moves. */
  ghost predicate IsRun(moves: seq<Move>, run: seq<System>) {
    && |run| == |moves| + 1
    && forall i | 0 <= i < |moves| :: MoveStep(run[i], moves[i], run[i + 1])
  }

  predicate Asks(m: Move) {
    m.Handle? ==> AsksForValue(m.event.note)
  }

  predicate Covered(m: Move) {
    m.Handle? ==> MinimumCovered(m.event.note)
  }

  ghost predicate AllAsk(moves: seq<Move>) {
    forall m | m in moves :: Asks(m)
  }

  /** Loading brings planner and contract into agreement whatever went before, and moves nothing if they agreed. */
  lemma ReloadTracks(s: System)
    ensures Agree(Reloaded(s)) && Reloaded(s).pools.Keys == s.pools.Keys
    ensures Agree(s) ==> Tracks(s, true, Reloaded(s))
  {
    var t := Reloaded(s);
    forall f | f in s.pools && Agree(s)
      ensures Slack(t, f) == Slack(s, f)
    {
      assert AgreeOn(s, f);
    }
  }

  /** Over every run of every length the contract holds the planned states and the vaults keep up. */
  lemma {:induction false} RunTracks(moves: seq<Move>, run: seq<System>)
    requires IsRun(moves, run) && Agree(run[0])
    requires forall i | 0 <= i < |run| :: Fits(run[i])
    requires forall m | m in moves :: Covered(m)
    ensures Tracks(run[0], AllAsk(moves), run[|moves|])
    decreases |moves|
  {
    if moves != [] {
      var n := |moves| - 1;
      var init := moves[..n];
      assert forall m | m in init :: m in moves;
      RunTracks(init, run[..n + 1]);
      assert moves[n] in moves && MoveStep(run[n], moves[n], run[n + 1]);
      match moves[n]
      case Handle(e) => StepTracks(run[n], e, run[n + 1]);
      case Reload => ReloadTracks(run[n]);
    }
  }

  lemma {:induction false} PlanFromExtends(events: seq<Event>, b: Batch)
    requires PlanFrom(events, b).Ok?
    ensures b.calls <= PlanFrom(events, b).value.calls
    decreases |events|
  {
    if events != [] {
      var b' := Extend(b, events[0].note, Plan(events[0].env, b.pools, events[0].note).value);
      PlanFromExtends(events[1..], b');
      assert b.calls <= b'.calls;
    }
  }

  function Handled(events: seq<Event>): (r: seq<Move>)
    ensures |r| == |events|
  {
    seq(|events|, i requires 0 <= i < |events| => Handle(events[i]))
  }

  lemma RunPrepended(s: System, events: seq<Event>, rest: seq<System>)
    requires events != [] && IsRun(Handled(events[1..]), rest) && NoteStep(s, events[0], rest[0])
    ensures IsRun(Handled(events), [s] + rest)
  {
    var run := [s] + rest;
    forall i | 0 <= i < |events|
      ensures MoveStep(run[i], Handled(events)[i], run[i + 1])
    {
      if i > 0 {
        assert MoveStep(rest[i - 1], Handled(events[1..])[i - 1], rest[i]);
      }
    }
  }

  /** The first note of a batch, as a step of the system. */
  lemma FirstNoteSteps(events: seq<Event>, b: Batch, start: State, s: State) returns (s': State)
    requires events != [] && PlanFrom(events, b).Ok?
    requires RunScripts(start, b.calls) == Some(s)
    requires RunScripts(start, PlanFrom(events, b).value.calls).Some?
    ensures var b' := Extend(b, events[0].note, Plan(events[0].env, b.pools, events[0].note).value);
            && RunScripts(start, b'.calls) == Some(s')
            && NoteStep(System(b.pools, s), events[0], System(b'.pools, s'))
  {
    var final := PlanFrom(events, b).value;
    var ex := Plan(events[0].env, b.pools, events[0].note).value;
    var b' := Extend(b, events[0].note, ex);
    PlanFromExtends(events[1..], b');
    RunScriptsPrefix(start, final.calls, |b'.calls|);
    assert final.calls[..|b'.calls|] == b'.calls;
    s' := RunScripts(start, b'.calls).value;
    if ex.call.Some? {
      assert b'.calls[..|b'.calls| - 1] == b.calls;
    } else {
      assert b'.calls == b.calls;
    }
  }

  /** A batch whose scripts all succeed on the arguments planned for them is a run of its notes in order. */
  lemma {:induction false} BatchFromIsRun(events: seq<Event>, b: Batch, start: State, s: State)
    returns (run: seq<System>)
    requires PlanFrom(events, b).Ok?
    requires RunScripts(start, b.calls) == Some(s)
    requires RunScripts(start, PlanFrom(events, b).value.calls).Some?
    ensures IsRun(Handled(events), run)
    ensures FitsThroughout(events, b) ==> forall i | 0 <= i < |run| :: Fits(run[i])
    ensures run[0] == System(b.pools, s)
    ensures run[|events|] == System(PlanFrom(events, b).value.pools,
                                    RunScripts(start, PlanFrom(events, b).value.calls).value)
    decreases |events|
  {
    if events == [] {
      run := [System(b.pools, s)];
    } else {
      var s' := FirstNoteSteps(events, b, start, s);
      var b' := Extend(b, events[0].note, Plan(events[0].env, b.pools, events[0].note).value);
      var rest := BatchFromIsRun(events[1..], b', start, s');
      run := [System(b.pools, s)] + rest;
      RunPrepended(System(b.pools, s), events, rest);
    }
  }

  /**
   The batch theorem: when every contract call of a batch succeeds, the account holds the states that the planner
   commits, and the vault of every faucet tracks its pool.
   */
  lemma BatchRefines(events: seq<Event>, s: System)
    requires Agree(s)
    requires PlanBatch(events, s.pools).Ok? && NoClash(PlanBatch(events, s.pools).value.calls)
    requires RunScripts(s.account, Delivered(PlanBatch(events, s.pools).value)).Some?
    requires forall e | e in events :: MinimumCovered(e.note)
    requires FitsThroughout(events, EmptyBatch(s.pools))
    ensures var plan := PlanBatch(events, s.pools).value;
            var t := System(plan.pools, RunScripts(s.account, Delivered(plan)).value);
            Tracks(s, forall e | e in events :: AsksForValue(e.note), t)
  {
    ArgumentsArriveExactly(events, s.pools);
    var run := BatchFromIsRun(events, EmptyBatch(s.pools), s.account, s.account);
    HandledMoves(events);
    RunTracks(Handled(events), run);
  }

  /** No balance differs between two pool maps. */
  ghost predicate SameBalancesThroughout(p: Pools, q: Pools) {
    forall f | f in p :: f in q && q[f].balances == p[f].balances
  }

  /**
   When the pools are not committed after the transaction went through, planner and contract still agree exactly if
   the batch changed no balance.
   */
  lemma LostCommitAgreesExactly(events: seq<Event>, s: System)
    requires Agree(s)
    requires PlanBatch(events, s.pools).Ok? && NoClash(PlanBatch(events, s.pools).value.calls)
    requires RunScripts(s.account, Delivered(PlanBatch(events, s.pools).value)).Some?
    requires forall e | e in events :: MinimumCovered(e.note)
    requires FitsThroughout(events, EmptyBatch(s.pools))
    ensures var plan := PlanBatch(events, s.pools).value;
            Agree(System(s.pools, RunScripts(s.account, Delivered(plan)).value))
            <==> SameBalancesThroughout(s.pools, plan.pools)
  {
    BatchRefines(events, s);
    var plan := PlanBatch(events, s.pools).value;
    var after := RunScripts(s.account, Delivered(plan)).value;
    forall f | f in s.pools
      ensures AgreeOn(System(s.pools, after), f) <==> plan.pools[f].balances == s.pools[f].balances
    {
      assert AgreeOn(System(plan.pools, after), f);
    }
    assert Agree(System(s.pools, after)) ==> forall f | f in s.pools :: AgreeOn(System(s.pools, after), f);
  }

  lemma HandledMoves(events: seq<Event>)
    ensures (forall e | e in events :: MinimumCovered(e.note)) ==> forall m | m in Handled(events) :: Covered(m)
    ensures AllAsk(Handled(events)) <==> forall e | e in events :: AsksForValue(e.note)
  {
    forall m | m in Handled(events)
      ensures m.Handle? && m.event in events
    {
      var i :| 0 <= i < |events| && Handled(events)[i] == m;
    }
    forall e | e in events
      ensures Handle(e) in Handled(events)
    {
      var i :| 0 <= i < |events| && events[i] == e;
      assert Handled(events)[i] == Handle(e);
    }
  }
}
