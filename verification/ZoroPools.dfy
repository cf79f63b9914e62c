/** The off-chain pool object of `pool.rs`: it plans a batch, submits it, and commits only what succeeded. */
module ZoroPools {
  import opened Wrappers
  import opened Felts
  import opened Assets
  import opened PoolContract
  import opened PoolAccounts
  import opened PoolStates
  import opened Notes
  import opened NoteScripts
  import opened Positions
  import opened Planner
  import opened Delivery
  import opened Batches
  import opened Refinement

  /** `PoolExecution::new`: works on a copy of the pool map and on copies of the states it touches. */
  method NewExecution(env: Env, pools: Pools, note: Note) returns (r: Result<Execution, Failure>)
    ensures r == Plan(env, pools, note)
  {
    var newPools := pools;
    var pastDeadline := IsPastDeadline(env.now, note.deadline);
    match note.kind {
      case DepositNote =>
        if note.assets == [] {
          return Ok(Nothing(Failed));
        }
        var assetIn := note.assets[0];
        if assetIn.faucet !in pools {
          return Err(UnknownAsset);
        }
        var poolState := pools[assetIn.faucet];
        if !pastDeadline {
          var q := GetDepositLpAmountOut(env.curves, poolState, assetIn.amount);
          poolState := poolState.UpdateState(q.balances, q.lpTotalSupply);
          newPools := newPools[assetIn.faucet := poolState];
          var call := LpCall(note, assetIn.amount, poolState.balances);
          if call.Err? || q.amount > U64_MAX {
            return Err(Panicked);
          }
          return Ok(Execution(DepositSuccess(q.amount), Some(call.value), Some(newPools), None));
        }
        var bounce := LpCall(note, 0, poolState.balances);
        if bounce.Err? {
          return Err(Panicked);
        }
        return Ok(Execution(PastDeadline, Some(bounce.value), None, None));
      case WithdrawNote =>
        if note.assetInput.None? {
          return Ok(Nothing(Failed));
        }
        var assetInput := note.assetInput.value;
        if assetInput.faucet !in pools {
          return Err(UnknownAsset);
        }
        var poolState := pools[assetInput.faucet];
        var q := GetWithdrawAssetAmountOut(env.curves, poolState, note.amountInput);
        if pastDeadline || q.amount < assetInput.amount {
          return Ok(Nothing(Unexecuted(env, note)));
        }
        poolState := poolState.UpdateState(q.balances, q.lpTotalSupply);
        newPools := newPools[assetInput.faucet := poolState];
        var call := LpCall(note, q.amount, poolState.balances);
        if call.Err? || q.amount > U64_MAX {
          return Err(Panicked);
        }
        return Ok(Execution(WithdrawSuccess(q.amount), Some(call.value), Some(newPools), None));
      case SwapNote =>
        if note.assets == [] || note.assetInput.None? {
          return Ok(Nothing(Failed));
        }
        var assetIn, assetInput := note.assets[0], note.assetInput.value;
        var quote := QuoteTrade(env, pools, assetIn, assetInput);
        if quote.Err? {
          return Err(quote.error);
        }
        var base, quoted := newPools[assetIn.faucet], newPools[assetInput.faucet];
        var amountOut, result := 0, Unexecuted(env, note);
        if MeetsMinimum(env, note, quote.value, assetInput) {
          if quote.value.amountOut > U64_MAX {
            return Err(Panicked);
          }
          base, quoted := base.UpdateBalances(quote.value.base), quoted.UpdateBalances(quote.value.quote);
          newPools := newPools[assetIn.faucet := base];
          newPools := newPools[assetInput.faucet := quoted];
          amountOut, result := quote.value.amountOut, SwapSuccess(quote.value.amountOut);
        }
        var call := ScriptCall(note, ToFelt(amountOut), ToWord(base.balances), ToWord(quoted.balances));
        return Ok(Execution(result, Some(call), Some(newPools), None));
      case PositionNote =>
        if note.trade.None? {
          return Ok(Execution(Failed, None, None, Some(note.assets)));
        }
        var Trade(sell, buy) := note.trade.value;
        var quote := QuoteTrade(env, pools, sell, buy);
        if quote.Err? {
          return Err(quote.error);
        }
        if !MeetsMinimum(env, note, quote.value, buy) {
          return Ok(Execution(Unexecuted(env, note), None, None, Some(note.assets)));
        }
        var amountOut := quote.value.amountOut;
        if amountOut > MAX_AMOUNT {
          return Err(InvalidNote);
        }
        var respawned := RespawnAssets(note.assets, sell, Asset(buy.faucet, false, amountOut));
        if respawned.Err? {
          return Err(InvalidNote);
        }
        var base := newPools[sell.faucet].UpdateBalances(quote.value.base);
        var quoted := newPools[buy.faucet].UpdateBalances(quote.value.quote);
        newPools := newPools[sell.faucet := base];
        newPools := newPools[buy.faucet := quoted];
        var call := ScriptCall(note, ToFelt(amountOut), ToWord(base.balances), ToWord(quoted.balances));
        return Ok(Execution(SwapSuccess(amountOut), Some(call), Some(newPools), Some(respawned.value)));
      case P2ID =>
        return Ok(Nothing(Failed));
    }
  }

  /** A planned batch reaches the account: it has calls, the network accepts it, and every script succeeds. */
  ghost predicate Executed(account: State, plan: Result<Batch, Failure>, submitted: bool) {
    && plan.Ok? && plan.value.calls != [] && submitted
    && RunScripts(account, Delivered(plan.value)).Some?
  }

  class ZoroPool {
    var poolStates: Pools

    constructor (poolStates: Pools)
      ensures this.poolStates == poolStates
    {
      this.poolStates := poolStates;
    }

    method PrepareExecutionDetails(env: Env, notes: seq<Note>, clock: nat -> int) returns (r: Result<Batch, Failure>)
      ensures r == PlanBatch(Stamp(env, notes, clock), poolStates)
      ensures Comes(PlanningOf(env, clock), notes, poolStates, r)
    {
      BatchComes(env, notes, clock, poolStates);
      ghost var events := Stamp(env, notes, clock);
      var batch := EmptyBatch(poolStates);
      for i := 0 to |notes|
        invariant PlanFrom(events[i..], batch) == PlanBatch(events, poolStates)
      {
        assert events[i..][0] == events[i] && events[i..][1..] == events[i + 1..];
        var execution := NewExecution(env.(now := clock(i)), batch.pools, notes[i]);
        if execution.Err? {
          return Err(execution.error);
        }
        batch := Extend(batch, notes[i], execution.value);
      }
      return Ok(batch);
    }

    /**
     Plans the batch, runs it as one transaction, and commits the planned pool states only after that
     transaction and after a synchronisation with the network. `submitted` says whether the network accepted the
     transaction, `synced` whether the synchronisation that follows succeeds.
     */
    method ExecuteNotes(account: PoolAccount, env: Env, notes: seq<Note>, clock: nat -> int,
                        submitted: bool, synced: bool)
      returns (r: Option<map<nat, ExecutionResult>>)
      modifies this, account
      ensures
        var plan := PlanBatch(Stamp(env, notes, clock), old(poolStates));
        var executed := Executed(old(account.View()), plan, submitted);
        && account.View() == (if executed then RunScripts(old(account.View()), Delivered(plan.value)).value
                              else old(account.View()))
        && poolStates == (if executed && synced then plan.value.pools else old(poolStates))
        && (r.Some? <==> plan.Ok? && ((executed && synced) || plan.value.calls == []))
        && (r.Some? ==> r.value == plan.value.results)
        && Comes(PlanningOf(env, clock), notes, old(poolStates), plan)
        && (!submitted ==> account.View() == old(account.View()))
        && (!synced ==> poolStates == old(poolStates))
        && (r.Some? ==> r.value.Keys == set i: nat | i < |notes| :: notes[i].id)
      ensures
        var events := Stamp(env, notes, clock);
        var plan := PlanBatch(events, old(poolStates));
        var lost := Executed(old(account.View()), plan, submitted) && !synced;
        Agree(System(old(poolStates), old(account.View())))
        && (forall n | n in notes :: MinimumCovered(n))
        && FitsThroughout(events, EmptyBatch(old(poolStates)))
        && (plan.Ok? ==> NoClash(plan.value.calls))
        ==> (Agree(System(poolStates, account.View()))
             <==> (lost ==> SameBalancesThroughout(old(poolStates), plan.value.pools)))
    {
      ghost var before := System(poolStates, account.View());
      ghost var events := Stamp(env, notes, clock);
      BatchComes(env, notes, clock, poolStates);
      if notes == [] {
        return Some(map[]);
      }
      var plan := PrepareExecutionDetails(env, notes, clock);
      if plan.Err? {
        return None;
      }
      if plan.value.calls == [] {
        return Some(plan.value.results);
      }
      if !submitted {
        return None;
      }
      var ok := ExecuteTransaction(account, Delivered(plan.value));
      if !ok {
        return None;
      }
      if Agree(before) && (forall n | n in notes :: MinimumCovered(n))
         && FitsThroughout(events, EmptyBatch(before.pools)) && NoClash(plan.value.calls) {
        BatchRefines(events, before);
        LostCommitAgreesExactly(events, before);
      }
      if !synced {
        return None;
      }
      poolStates := plan.value.pools;
      return Some(plan.value.results);
    }
  }
}
