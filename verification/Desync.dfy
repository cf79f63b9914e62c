/** Runs in which the planner and the contract part, each from a concrete and sound state. */
module Desync {
  import opened Wrappers
  import opened Curves
  import opened Felts
  import opened Assets
  import opened StorageKeys
  import opened PoolContract
  import opened PoolStates
  import opened LpShares
  import opened Notes
  import opened NoteScripts
  import opened Planner
  import opened Delivery
  import opened Refinement

  /** A deposit note of one unit that is never late. */
  function UnitDeposit(id: nat, f: AccountId, user: AccountId): Note {
    Note(id, id, DepositNote, [Asset(f, false, 1)], None, 1, user, 0, None)
  }

  lemma UnitDepositStep(env: Env, pools: Pools, account: State, id: nat, f: AccountId, user: AccountId)
    returns (t: System)
    requires IsIdentityFamily(env.curves) && env.now == 0 && user != NO_ACCOUNT
    requires f in pools && pools[f].balances == PoolBalances(0, 0, 0) && pools[f].lpTotalSupply == 0
    requires Balance(account.vault, f) <= 1 && Shares(account, f, user) <= 1 && TotalSupply(account, f) <= 1
    ensures NoteStep(System(pools, account), Event(env, UnitDeposit(id, f, user)), t)
    ensures t.pools == pools[f := pools[f].UpdateState(PoolBalances(1, 1, 1), 1)]
    ensures PoolOf(t.account, f) == PoolWord(1, 1, 1)
    ensures Balance(t.account.vault, f) == Balance(account.vault, f) + 1
    ensures Shares(t.account, f, user) == Shares(account, f, user) + 1
    ensures TotalSupply(t.account, f) == TotalSupply(account, f) + 1
    ensures t.account.pools.Keys == account.pools.Keys + {f}
  {
    var note := UnitDeposit(id, f, user);
    DepositAtPar(env.curves, pools[f], 1);
    var call := ScriptCall(note, 1, PoolWord(1, 1, 1), EMPTY_POOL);
    assert ToWord(PoolBalances(1, 1, 1)) == PoolWord(1, 1, 1);
    var p := pools[f].UpdateState(PoolBalances(1, 1, 1), 1);
    assert PlanDeposit(env, pools, note) == Ok(Execution(DepositSuccess(1), Some(call), Some(pools[f := p]), None));
    KeysSeparate(f, user, f, user);
    t := System(pools[f := p], RunDeposit(account, call).value);
  }

  /**
   A deposit is executed and the synchronisation after it fails: the planner keeps its empty pool. The next deposit
   is planned from that pool and written over the first, after which the two sides agree again, on a pool that
   stands for one of the two units in the vault and one of the two shares that the user holds.
   */
  lemma ALostSyncForgetsADeposit(env: Env, settings: PoolSettings, f: AccountId, user: AccountId)
    returns (s: System, t: System, u: System)
    requires IsIdentityFamily(env.curves) && env.now == 0 && user != NO_ACCOUNT
    ensures s == System(map[f := PoolState(settings, PoolBalances(0, 0, 0), 0, 6)], EMPTY) && Agree(s)
    ensures NoteStep(s, Event(env, UnitDeposit(0, f, user)), t) && !Agree(System(s.pools, t.account))
    ensures NoteStep(System(s.pools, t.account), Event(env, UnitDeposit(1, f, user)), u) && Agree(u)
    ensures PoolOf(u.account, f) == PoolWord(1, 1, 1) && u.pools[f].lpTotalSupply == 1
    ensures Balance(u.account.vault, f) == 2 && Shares(u.account, f, user) == 2
  {
    s := System(map[f := PoolState(settings, PoolBalances(0, 0, 0), 0, 6)], EMPTY);
    t := UnitDepositStep(env, s.pools, s.account, 0, f, user);
    assert !AgreeOn(System(s.pools, t.account), f);
    u := UnitDepositStep(env, s.pools, t.account, 1, f, user);
  }

  /** A swap at price one without fees, between pools at par with equal decimals. */
  lemma PlainSwap(curves: CurveFamily, base: PoolState, quote: PoolState, amountIn: nat)
    requires IsIdentityFamily(curves) && AtPar(base) && AtPar(quote) && base.decimals == quote.decimals
    requires quote.settings.backstopFee == quote.settings.protocolFee == quote.settings.swapFee == 0
    requires base.balances.reserve + amountIn <= 2 * base.balances.liabilities < TWO_255
    requires 0 < amountIn < quote.balances.reserve < TWO_255
    ensures var b, q := base.balances, quote.balances;
            GetCurveAmountOut(curves, base, quote, amountIn, PRICE_SCALING_FACTOR)
            == Ok(SwapQuote(amountIn,
                            PoolBalances(b.liabilities, b.reserve + amountIn, b.reserve + amountIn),
                            PoolBalances(q.liabilities, q.reserve - amountIn, q.reserve - amountIn)))
  {
    assert IsIdentity(base.Curve(curves)) && IsIdentity(quote.Curve(curves));
    assert EffectiveAmountIn(curves, base, amountIn) == amountIn;
    assert ScalingFactor(base.decimals, quote.decimals) == PRICE_SCALING_FACTOR;
    assert RawAmountOut(amountIn, PRICE_SCALING_FACTOR, PRICE_SCALING_FACTOR) == amountIn;
    assert Fee(quote.settings, amountIn) == 0 && MaxLpFee(quote.settings, amountIn) == 0;
  }

  const NO_FEES := PoolSettings(0, 0, 0, 0, 0)

  function Par(liabilities: nat, reserve: nat): PoolState {
    PoolState(NO_FEES, PoolBalances(liabilities, reserve, reserve), liabilities, 6)
  }

  function SwapOf(id: nat, sell: Asset, buy: Asset, user: AccountId): Note {
    Note(id, 0, SwapNote, [sell], Some(buy), 0, user, 0, None)
  }

  function PriceOne(curves: CurveFamily, a: AccountId, b: AccountId): Env {
    Env(curves, 0, map[a := 1, b := 1], (x: nat, y: nat) => PRICE_SCALING_FACTOR)
  }

  function ParPools(a: AccountId, b: AccountId, reserveA: nat, reserveB: nat): Pools {
    map[a := Par(1000, reserveA), b := Par(1000, reserveB)]
  }

  /** Planning a swap of `amount` of `a` for at least `least` of `b`. */
  lemma PlainSwapPlan(curves: CurveFamily, a: AccountId, b: AccountId, x: Felt, y: Felt, note: Note)
    requires IsIdentityFamily(curves) && a != b && note.kind.SwapNote? && note.deadline == 0
    requires |note.assets| == 1 && note.assets[0].faucet == a && note.assetInput.Some?
    requires note.assetInput.value.faucet == b && note.assetInput.value.amount <= note.assets[0].amount
    requires 0 < note.assets[0].amount < y <= 1000 && x + note.assets[0].amount <= 2000
    ensures var amount := note.assets[0].amount;
            var call := ScriptCall(note, amount, PoolWord(1000, x + amount, x + amount),
                                   PoolWord(1000, y - amount, y - amount));
            Plan(PriceOne(curves, a, b), ParPools(a, b, x, y), note)
            == Ok(Execution(SwapSuccess(amount), Some(call), Some(ParPools(a, b, x + amount, y - amount)), None))
  {
    var amount := note.assets[0].amount;
    PlainSwap(curves, Par(1000, x), Par(1000, y), amount);
    var pools := ParPools(a, b, x, y);
    assert pools[a := Par(1000, x + amount)][b := Par(1000, y - amount)] == ParPools(a, b, x + amount, y - amount);
  }

  function ParState(a: AccountId, b: AccountId, reserveA: Felt, reserveB: Felt, vaultA: nat, vaultB: nat): State {
    State(map[a := PoolWord(1000, reserveA, reserveA), b := PoolWord(1000, reserveB, reserveB)], map[],
          map[a := vaultA, b := vaultB])
  }

  /** On-chain the first of two swaps bounces on the arguments of the second. */
  lemma ClashOnChain(a: AccountId, b: AccountId, n1: Note, n2: Note)
    requires a != b && n1.kind.SwapNote? && n2.kind.SwapNote?
    requires |n1.assets| == 1 && n1.assetInput == Some(Asset(b, false, 90))
    requires n2.assets == [Asset(a, false, 1)] && n2.assetInput == Some(Asset(b, false, 1))
    ensures var w, v := PoolWord(1000, 1101, 1101), PoolWord(1000, 899, 899);
            RunScripts(ParState(a, b, 1000, 1000, 1100, 1000), [ScriptCall(n1, 1, w, v), ScriptCall(n2, 1, w, v)])
            == Some(ParState(a, b, 1101, 899, 1101, 999))
  {
    var w, v := PoolWord(1000, 1101, 1101), PoolWord(1000, 899, 899);
    var s, t := ParState(a, b, 1000, 1000, 1100, 1000), ParState(a, b, 1101, 899, 1101, 999);
    var received := State(s.pools[a := w], map[], s.vault[a := 1101]);
    assert ReceiveAsset(s, Asset(a, false, 1), w) == Some(received);
    assert received.pools[b := v] == t.pools && received.vault[b := 999] == t.vault;
    assert RemoveAsset(received, Asset(b, false, 1), v) == Some(t);
    TwoScripts(s, ScriptCall(n1, 1, w, v), s, ScriptCall(n2, 1, w, v), t);
  }

  /**
   Two swaps with one serial number: the script of the first finds the arguments of the second, bounces although it
   was planned to succeed, and the vault falls behind. Everything else that the batch theorem asks for holds.
   */
  lemma SerialsClash(curves: CurveFamily, a: AccountId, b: AccountId, user: AccountId)
    returns (events: seq<Event>, s: System, t: System)
    requires IsIdentityFamily(curves) && a != b
    ensures a in s.pools && Agree(s) && Slack(s, a) == 100
    ensures forall e | e in events :: MinimumCovered(e.note) && AsksForValue(e.note)
    ensures FitsThroughout(events, EmptyBatch(s.pools))
    ensures PlanBatch(events, s.pools).Ok? && !NoClash(PlanBatch(events, s.pools).value.calls)
    ensures t.pools == PlanBatch(events, s.pools).value.pools
    ensures RunScripts(s.account, Delivered(PlanBatch(events, s.pools).value)) == Some(t.account)
    ensures a in t.pools && Slack(t, a) == 0
  {
    var env := PriceOne(curves, a, b);
    var n1 := SwapOf(0, Asset(a, false, 100), Asset(b, false, 90), user);
    var n2 := SwapOf(1, Asset(a, false, 1), Asset(b, false, 1), user);
    events := [Event(env, n1), Event(env, n2)];
    s := System(ParPools(a, b, 1000, 1000), ParState(a, b, 1000, 1000, 1100, 1000));
    t := System(ParPools(a, b, 1101, 899), ParState(a, b, 1101, 899, 1101, 999));
    var calls := ClashPlanned(env, curves, a, b, n1, n2, user);
    ClashOnChain(a, b, n1, n2);
    var plan := PlanBatch(events, s.pools).value;
    assert IsLastFor(plan.calls, 0, 1) && !Suits(plan.calls[0], AdviceOf(plan.calls[1]));
    assert Delivered(plan) == [ScriptCall(n1, 1, calls[1].pool0, calls[1].pool1), calls[1]];
  }

  lemma ClashPlanned(env: Env, curves: CurveFamily, a: AccountId, b: AccountId, n1: Note, n2: Note, user: AccountId)
    returns (calls: seq<ScriptCall>)
    requires IsIdentityFamily(curves) && a != b && env == PriceOne(curves, a, b)
    requires n1 == SwapOf(0, Asset(a, false, 100), Asset(b, false, 90), user)
    requires n2 == SwapOf(1, Asset(a, false, 1), Asset(b, false, 1), user)
    ensures calls == [ScriptCall(n1, 100, PoolWord(1000, 1100, 1100), PoolWord(1000, 900, 900)),
                      ScriptCall(n2, 1, PoolWord(1000, 1101, 1101), PoolWord(1000, 899, 899))]
    ensures var events := [Event(env, n1), Event(env, n2)];
            var r := PlanBatch(events, ParPools(a, b, 1000, 1000));
            && r.Ok? && r.value.calls == calls && r.value.advice == map[0 := AdviceOf(calls[1])]
            && r.value.pools == ParPools(a, b, 1101, 899)
            && FitsThroughout(events, EmptyBatch(ParPools(a, b, 1000, 1000)))
  {
    calls := [ScriptCall(n1, 100, PoolWord(1000, 1100, 1100), PoolWord(1000, 900, 900)),
              ScriptCall(n2, 1, PoolWord(1000, 1101, 1101), PoolWord(1000, 899, 899))];
    var p0, p1, p2 := ParPools(a, b, 1000, 1000), ParPools(a, b, 1100, 900), ParPools(a, b, 1101, 899);
    PlainSwapPlan(curves, a, b, 1000, 1000, n1);
    PlainSwapPlan(curves, a, b, 1100, 900, n2);
    TwoSwapBatch(env, n1, n2, p0, calls[0], p1, calls[1], p2);
    assert map[0 := AdviceOf(calls[0])][0 := AdviceOf(calls[1])] == map[0 := AdviceOf(calls[1])];
  }

  lemma TwoSwapBatch(env: Env, n1: Note, n2: Note, pools: Pools, c1: ScriptCall, pools1: Pools, c2: ScriptCall,
                     pools2: Pools)
    requires Plan(env, pools, n1).Ok? && Plan(env, pools1, n2).Ok? && n1.kind.SwapNote? && n2.kind.SwapNote?
    requires var ex := Plan(env, pools, n1).value; ex.call == Some(c1) && ex.newPools == Some(pools1)
    requires var ex := Plan(env, pools1, n2).value; ex.call == Some(c2) && ex.newPools == Some(pools2)
    requires PoolsFit(pools) && PoolsFit(pools1) && PoolsFit(pools2)
    ensures var events := [Event(env, n1), Event(env, n2)];
            && PlanBatch(events, pools).Ok?
            && PlanBatch(events, pools).value.calls == [c1, c2]
            && PlanBatch(events, pools).value.advice == map[n1.serial := AdviceOf(c1)][n2.serial := AdviceOf(c2)]
            && PlanBatch(events, pools).value.pools == pools2
            && FitsThroughout(events, EmptyBatch(pools))
  {
    var events := [Event(env, n1), Event(env, n2)];
    var b0 := EmptyBatch(pools);
    var b1 := Extend(b0, n1, Plan(env, pools, n1).value);
    var b2 := Extend(b1, n2, Plan(env, pools1, n2).value);
    assert events[1..] == [Event(env, n2)] && events[1..][1..] == [];
    assert PlanFrom(events[1..][1..], b2) == Ok(b2);
    assert PlanFrom(events[1..], b1) == Ok(b2);
    assert PlanFrom(events, b0) == Ok(b2);
    assert FitsThroughout(events[1..][1..], b2);
    assert FitsThroughout(events[1..], b1);
  }

  lemma TwoScripts(s: State, c: ScriptCall, t: State, d: ScriptCall, u: State)
    requires RunScript(s, c) == Some(t) && RunScript(t, d) == Some(u)
    ensures RunScripts(s, [c, d]) == Some(u)
  {
    assert [c, d][..1] == [c] && [c][..0] == [];
    assert RunScripts(s, []) == Some(s);
    assert RunScripts(s, [c]) == Some(t);
  }
}
