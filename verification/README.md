# ZoroSwap pool engine: model and proofs

ZoroSwap prices swaps, deposits and withdrawals off-chain in Rust and re-checks and stores the result in an
on-chain Miden account written in MASM. This project models both halves and the note scripts that connect them,
and proves what the two keep together over every run, for every pricing curve unless a row says otherwise.

| files | what they model |
|---|---|
| `Felts`, `IntegerSqrt` | field elements, the checked field operations and the bit-by-bit square roots |
| `Assets`, `PoolContract`, `PoolAccount`, `LpLedger` | the on-chain account: storage keys, procedures, vault, LP ledger |
| `Curves`, `PoolStates`, `LpShares`, `IdentitySwaps` | the off-chain pool arithmetic, share value, swaps under the identity curve |
| `Notes`, `Planner`, `Outcomes`, `Batches`, `Delivery`, `ZoroPools` | the planner for one note and what its results mean, the batch, the advice map, and the commit |
| `NoteScripts`, `Positions`, `Conservation` | the note scripts, the position-note rewrite, conservation of assets |
| `Refinement`, `Runs`, `Acceptance` | planner and contract together: agreement, invariants over runs, exact acceptance |
| `LawfulCurves`, `Trading` | runs on any lawful curve, and what a trader can gain in a run |
| `LpDrift`, `Desync` | where planner and contract part: the LP supply, a lost synchronisation, a shared serial number |
| `Shuffling`, `OrderBook`, `AmmStates` | batch order, and the order book under interleaving |
| `MintCodec`, `RateLimit` | the faucet's mint list and its rate limit |

`dafny verify dfyconfig.toml` checks everything.

How to read the model:

- A curve is a value of three arbitrary functions; a theorem about a `CurveFamily` covers every implementation of
  the trait. `IsIdentityFamily` says that the identity curve is configured.
- A lawful curve is one that answers exactly what the pool code asks of it: `psi` grows with the reserve and along
  the diagonal by at most what is added, and the two inverses reach their targets. The trait names the operations but
  does not state these laws; a curve that rounds is covered only by the theorems over every curve.
- A failed assert of a contract procedure is `None`; the transaction then leaves the account as it was. A Rust
  error and a Rust panic (including the panics of `to::<u64>()` and of the unwrapped quote) both end the batch.
- `U256` subtractions wrap. That a successful withdrawal never redeems more than the pool has is proved, not
  assumed: a wrapped balance does not fit the 64-bit note arguments.
- `Felt::new` reduces modulo the prime. `Fits` says that planned balances are below it, and
  `Refinement.StepAgreesExactly` shows that agreement needs exactly that.
- A run is a series of notes, each with its own clock reading, and of reloads of the pools from the account.
- A pair of 32-bit limbs in MASM is read high limb first, as the comments of `math.masm` have it.

Where the code and its own comments or tests disagree, the model follows the code:

- `set_pool_state` compares the reserve *with slippage* with twice the liabilities; its comment says the reserves.
- The argument order in the headers of DEPOSIT and WITHDRAW (amount, reserve, reserve with slippage,
  liabilities) is not the one `common.masm` reads (amount, liabilities, reserve, reserve with slippage).
- The arguments of a deposit carry the asset amount where the script credits LP tokens.
- An amount of zero is meant to make DEPOSIT and ZOROSWAP bounce, as the comments of `pool_execution.rs` say; with a
  minimum of zero it does not (`Conservation.LateDepositReturned`, `Conservation.UnexecutedSwapReturned`).
- `pluck_note` removes the note; its comment says it clones without removing.
- A P2ID note yields `Failed`; a test in `pool.rs` expects `FailedConsuming`.
- The fee precision is 10^6 and the price scale 10^12; a test in `curve.rs` expects 10^18 for both.

## Model

| member | source | states |
|---|---|---|
| Refinement.BatchRefines | crates/zoro_miden/src/pool.rs:431-512 | for every batch whose scripts all succeed, each note planned at its own clock value, and in which no two calls clash over a serial number, each faucet's stored state equals the planned one, no vault falls behind its pool, and with real minimums in another asset every vault moves exactly with its pool |
| Delivery.ArgumentsArriveExactly | crates/zoro_miden/src/pool.rs:484-486 | every script of a batch finds the arguments planned for it in the advice map if and only if every swap and position call agrees with the last one of its serial number |
| Delivery.DistinctSerialsNoClash | crates/zoro_miden/masm/notes/lib/common.masm:163-187 | which holds whenever the swaps and positions of the batch carry distinct serial numbers |
| Delivery.DeliveredFromLast | crates/zoro_miden/masm/notes/lib/common.masm:163-187 | what every script receives: deposits and withdrawals their own arguments, swaps and positions those of the last of them with their serial number |
| Desync.SerialsClash | crates/zoro_miden/src/pool.rs:484-486 | two swaps with one serial number: the first bounces on the arguments of the second, and a vault falls behind its pool although all else that BatchRefines asks for holds |
| Refinement.LostCommitAgreesExactly | crates/zoro_miden/src/pool.rs:405-426 | if the synchronisation after the transaction fails, planner and contract still agree if and only if the batch changed no balance |
| Desync.ALostSyncForgetsADeposit | crates/zoro_miden/src/pool.rs:405-426 | a deposit whose synchronisation fails, then another: the second is written over the first, and both sides agree on a pool of one unit where the vault and the user's shares have two |
| ZoroPools.ZoroPool.ExecuteNotes | crates/zoro_miden/src/pool.rs:361-429 | the account changes if and only if the planned batch of all the notes is executed, the pools if and only if the synchronisation after it succeeds as well; agreement of the two survives exactly unless a batch that changes a balance is executed and not committed |
| ZoroPools.ZoroPool.PrepareExecutionDetails | crates/zoro_miden/src/pool.rs:431-512 | the batch loop plans every note once, in order, each at its own clock reading and on the pools the notes before it left; it holds a result for exactly these notes and their calls in order, or fails with the first note that cannot be planned |
| Batches.BatchComes | crates/zoro_miden/src/pool.rs:448-501 | that description, of the fold that the other batch theorems speak of |
| Batches.EveryNoteHasItsResult | crates/zoro_miden/src/pool.rs:500 | with distinct identifiers every note of the batch finds the result of its own plan |
| ZoroPools.NewExecution | crates/zoro_miden/src/pool_execution.rs:46-485 | the per-note transition for all note kinds, with success, expiry, failure and error outcomes |
| Outcomes.DeadlineDecides | crates/zoro_miden/src/pool_execution.rs:60 | in the integers of note and clock: a note is late exactly after its deadline, a deadline from 2^63 on lies before any clock that starts at zero, and a note in time is never reported late |
| Outcomes.LpPlannedExactly | crates/zoro_miden/src/pool_execution.rs:59-170 | exactly which deposits and withdrawals can be planned at all |
| Outcomes.TradePlannedExactly | crates/zoro_miden/src/pool_execution.rs:182-400 | exactly which swaps and position trades can be planned at all |
| Outcomes.TradeExecutesExactly | crates/zoro_miden/src/pool_execution.rs:206-252 | a trade executes exactly if it is in time and the quote, at the price of the asset sold over the price of the asset bought, pays its minimum; it reports that payment, and fails for a smaller quote |
| Outcomes.WithdrawalExecutesExactly | crates/zoro_miden/src/pool_execution.rs:132-150 | identity curve: a withdrawal executes exactly if it is in time and its shares cover its minimum |
| Outcomes.DepositReports | crates/zoro_miden/src/pool_execution.rs:72-80 | a deposit reports the tokens it mints, which are the growth of the liabilities at the old share value, rounded down, and moves the balances by the stated amounts |
| Outcomes.WithdrawalReports | crates/zoro_miden/src/pool_execution.rs:140-160 | a withdrawal reports what it pays; liabilities and reserve fall by the value of the tokens redeemed, rounded down, and the payment is no more |
| Outcomes.WithdrawalPaysCurve | crates/zoro_miden/src/pool_state.rs:185-227 | on every lawful curve the payment is exactly the fall of the curve |
| Outcomes.TradeCreatesNoValue | crates/zoro_miden/src/pool_execution.rs:206-252 | identity curve, fair oracle: what an executed swap or position trade reports is worth no more at the two oracle prices than what it takes in |
| Outcomes.TradePaysPrice | crates/zoro_miden/src/pool_execution.rs:206-252 | identity curve: a trade in time that fits the pools is paid at least the oracle's price less fees and rounding, and executes if its minimum is not above that |
| Refinement.StepTracks | crates/zoro_miden/src/pool_execution.rs:58-485 | one note keeps planner and contract in agreement, for every curve, and never lowers vault minus reserve with slippage |
| Refinement.StepAgreesExactly | crates/zoro_miden/src/pool_state.rs:239-246 | after a note the two sides agree if and only if the planned balances are canonical field elements |
| Refinement.DepositAgreesExactly | crates/zoro_miden/masm/notes/DEPOSIT.masm:18-41 | an accepted deposit leaves the two sides in agreement if and only if its minimum does not exceed the attached amount |
| Refinement.RunTracks | crates/zoro_miden/masm/accounts/zoropool.masm:234-274 | over every run of notes and reloads vault balance minus reserve with slippage never falls, and is constant when every note asks for something in another asset |
| Refinement.ReloadTracks | crates/zoro_miden/src/pool.rs:273-300 | loading the pools from the account establishes agreement from any state, and from agreement changes no balance |
| Refinement.ExchangeTracks | crates/zoro_miden/masm/notes/ZOROSWAP.masm:30-53 | an executed trade stores both planned pool states and moves both vault balances with them, also when both sides are one faucet |
| Refinement.QuoteMovesAmounts | crates/zoro_miden/src/curve.rs:161-199 | for every curve a quote moves the two reserves with slippage by exactly the two amounts, unless it pays nothing |
| Refinement.BatchFromIsRun | crates/zoro_miden/src/pool.rs:448-512 | a successful batch is a run of its notes, each with its own clock value: each script sees the state that the notes before it left |
| Runs.DeploymentIsBacked | crates/zoro_miden/src/pool.rs:256-262 | from an empty deployment, for every curve and every run of notes and reloads, each vault balance covers its pool's reserve with slippage, and equals it when every note asks for something in another asset; the states agree, the contract is solvent and its ledger conserved |
| Runs.RunNotDiluting | crates/zoro_miden/src/pool_state.rs:131-227 | for every curve and every run, liabilities per LP token never fall while LP tokens exist, through every reload at which the ledger counts no more tokens than the planner |
| Runs.ReloadDilutesExactly | crates/zoro_miden/src/pool.rs:273-300 | a reload dilutes a pool with liabilities if and only if the ledger counts more tokens than the planner |
| Runs.RunStaysOnCurve | crates/zoro_curve_base/src/dummy_curve.rs:23-41 | under the identity curve every state reached from empty pools has reserve equal to reserve with slippage and no more LP tokens than liabilities, for all notes if the fees do not exceed the output, for all fees if every note asks for something, and through every reload at which the ledger is backed |
| LawfulCurves.RunStaysOnPsi | crates/zoro_curve_base/src/traits.rs:33-108 | for every lawful curve, every state reached from empty pools has a reserve with slippage equal to the curve at its reserve and liabilities, through deposits, withdrawals, trades and reloads |
| LawfulCurves.DepositStaysOnPsi | crates/zoro_miden/src/pool_state.rs:131-172 | the step for deposits, which also add at least the amount deposited |
| LawfulCurves.WithdrawStaysOnPsi | crates/zoro_miden/src/pool_state.rs:185-227 | the step for withdrawals |
| LawfulCurves.TradeStaysOnPsi | crates/zoro_miden/src/curve.rs:88-199 | the step for trades, in both pools |
| LawfulCurves.IdentityIsLawful | crates/zoro_curve_base/src/dummy_curve.rs:19-42 | the identity curve is lawful |
| Runs.ReloadOnCurveExactly | crates/zoro_miden/src/pool.rs:273-300 | a reload keeps that if and only if the ledger counts no more tokens than there are liabilities |
| Runs.RunKeepsContract | crates/zoro_miden/masm/accounts/zoropool.masm:72-116 | solvency and LP conservation of the account survive every run of notes and reloads, whatever the planner writes |
| Runs.TransactionKeepsContract | crates/zoro_miden/src/pool.rs:397-411 | and every transaction, whatever arguments its scripts receive |
| Runs.ChangeStaysOnCurve | crates/zoro_miden/src/curve.rs:140-199 | the step behind RunStaysOnCurve, for deposits, withdrawals and trades, also trades that pay nothing |
| Runs.ChangeNotDiluting | crates/zoro_miden/src/pool_execution.rs:73-170 | the step behind RunNotDiluting, for every note kind |
| Runs.TradeSplit | crates/zoro_miden/src/curve.rs:96-199 | under the identity curve a trade that pays anything moves exactly the two amounts and leaves the input pool within twice its liabilities |
| Runs.PlanChanges | crates/zoro_miden/src/pool_execution.rs:58-485 | a plan changes the pools by one accepted deposit, withdrawal or trade, or not at all |
| Acceptance.DepositAccepted | crates/zoro_miden/masm/accounts/zoropool.masm:236-308 | identity curve: the script of an accepted deposit succeeds exactly when vault and LP supply have room and the liabilities cover the reserve when doubled modulo the prime, also where they cross it by themselves |
| Acceptance.WithdrawalAccepted | crates/zoro_miden/masm/notes/WITHDRAW.masm:22-47 | identity curve: a withdrawal's script succeeds exactly when 0 < LP amount <= shares and reserve + decrement <= 2 * liabilities, with the loss of the prime made explicit |
| Acceptance.SwapAccepted | crates/zoro_miden/masm/notes/ZOROSWAP.masm:20-65 | identity curve: the script of an accepted swap that pays anything succeeds exactly when the vault can hold the asset sold and both pools survive clamping, reduction and doubling of their liabilities |
| Acceptance.PositionAccepted | crates/zoro_miden/masm/notes/POSITION.masm:162-206 | the same for a position trade |
| Acceptance.CoverageExact | crates/zoro_miden/masm/accounts/zoropool.masm:86-90 | what the coverage check modulo the prime means over the naturals, for all liabilities |
| Acceptance.DepositRefusedAtHalfPrime | crates/zoro_miden/masm/accounts/zoropool.masm:86-90 | a concrete fully covered pool that the check accepts and that it refuses after a deposit of one unit |
| LpDrift.DepositSupplyExact | crates/zoro_miden/src/pool_execution.rs:82-85 | for every curve a deposit keeps planned and stored LP supply equal if and only if its increment buys exactly one token per unit deposited, in terms of the pool before it |
| LpDrift.DepositSupplyOnCurve | crates/zoro_miden/src/pool_execution.rs:82-85 | identity curve: if and only if the pool is empty or has as many LP tokens as liabilities |
| LpDrift.WithdrawalKeepsSupply | crates/zoro_miden/src/pool_state.rs:221-224 | a withdrawal always keeps planned and stored LP supply equal |
| LpDrift.RunNeverAhead | crates/zoro_miden/src/pool_execution.rs:72-170 | identity curve: over every run from deployment the planner never counts more LP tokens than the ledger |
| LpDrift.CreditedSharesOverpay | crates/zoro_miden/masm/notes/DEPOSIT.masm:36-39 | two accepted notes: a deposit of 100 and the redemption of the 100 shares credited for it, which pays 200 |
| LpDrift.SharesAreOrphaned | crates/zoro_miden/src/pool.rs:273-300 | what that leaves: a vault emptied with 50 shares outstanding, and a reload that takes them over |
| PoolContract.AlwaysSolvent | crates/zoro_miden/masm/accounts/zoropool.masm:72-116 | after any history of calls from deployment, with wallet transfers that spare the pools, every asset has reserve <= reserve with slippage <= min(2 * liabilities, balance) over the naturals |
| PoolContract.InvokeKeepsSolvent | crates/zoro_miden/masm/accounts/zoropool.masm:235-266 | every pool procedure keeps that for every asset, also the ones it does not touch; a transfer by the wallet does if and only if it leaves the pool's reserve with slippage |
| LpLedger.AlwaysConserved | crates/zoro_miden/masm/accounts/zoropool.masm:283-360 | in every reachable state the total-supply entry of an asset is the sum of all its users' entries |
| LpLedger.DepositExact | crates/zoro_miden/masm/accounts/zoropool.masm:283-308 | a deposit's ledger update succeeds exactly when the total stays a field element, and conserves exactly for a real account or a zero amount |
| LpLedger.WithdrawExact | crates/zoro_miden/masm/accounts/zoropool.masm:324-360 | a withdrawal's ledger update succeeds exactly when 0 < amount <= the user's shares, despite the wrapping subtraction, and the supply cannot underflow behind it |
| LpLedger.UserSumAfterWrite | crates/zoro_miden/masm/lib/storage_utils.masm:118-133 | writing one map entry moves the sum of its own asset's users by the change and no other sum |
| StorageKeys.DerivedKeys | crates/zoro_miden/masm/accounts/zoropool.masm:382-448 | the stack manipulations compute the user key and the total-supply key, from an asset and from a user key |
| StorageKeys.KeysSeparate | crates/zoro_miden/masm/accounts/zoropool.masm:382-395 | two ledger entries share a key only if they are the same entry, or a total supply and the account (0, 0) |
| PoolAccounts.PoolAccount.SetPoolState | crates/zoro_miden/masm/accounts/zoropool.masm:72-116 | the three asserts decide, and only then the state word is stored |
| PoolAccounts.PoolAccount.ReceiveAsset | crates/zoro_miden/masm/accounts/zoropool.masm:235-246 | the asset enters the vault before the checks see the balance |
| PoolAccounts.PoolAccount.RemoveAssetFromPool | crates/zoro_miden/masm/accounts/zoropool.masm:254-266 | the asset leaves the vault before the checks see the balance |
| PoolAccounts.PoolAccount.Deposit | crates/zoro_miden/masm/accounts/zoropool.masm:283-308 | credits the user's entry and the total supply, or fails |
| PoolAccounts.PoolAccount.Withdraw | crates/zoro_miden/masm/accounts/zoropool.masm:324-360 | the wrap-around comparison debits exactly the positive amounts the user owns |
| PoolAccounts.PoolAccount.AddToMapItem | crates/zoro_miden/masm/lib/storage_utils.masm:91-115 | adds over the naturals, failing exactly on overflow of the prime |
| PoolAccounts.PoolAccount.SubFromMapItem | crates/zoro_miden/masm/lib/storage_utils.masm:65-89 | subtracts over the naturals, failing exactly on underflow |
| Felts.SafeAdd | crates/zoro_miden/masm/lib/math.masm:137-148 | succeeds if and only if the integer sum is below the prime, and returns it |
| Felts.SafeSub | crates/zoro_miden/masm/lib/math.masm:124-135 | succeeds if and only if the integer difference is not negative, and returns it |
| Felts.SafeCastU64IntoFelt | crates/zoro_miden/masm/lib/math.masm:102-120 | joins two limbs exactly when the result is below the prime |
| IntegerSqrt.Sqrt | crates/zoro_miden/masm/lib/math.masm:40-100 | for every field element n returns r with r^2 <= n < (r+1)^2; no step wraps and the cast never fails |
| IntegerSqrt.SqrtU32 | crates/zoro_miden/masm/lib/math.masm:14-37 | the same for 32 bits in 16 rounds |
| LpShares.DepositNotDiluting | crates/zoro_miden/src/pool_state.rs:131-172 | for every curve a deposit does not lower liabilities per LP token |
| LpShares.WithdrawNotDiluting | crates/zoro_miden/src/pool_state.rs:176-227 | nor does a redemption within the pool |
| LpShares.WithdrawWithinPool | crates/zoro_miden/src/pool_state.rs:239-246 | a redemption whose note arguments can be built never takes out more than the pool has |
| LpShares.SwapNotDiluting | crates/zoro_miden/src/curve.rs:149-152 | nor does a swap, in either pool |
| LpShares.RoundTrip | crates/zoro_miden/src/pool_state.rs:131-227 | for every curve and every pool, redeeming exactly the LP tokens that the planner counts for a deposit, which are not the shares credited on-chain, takes out at most what the deposit put in, if and only if the supply counter does not saturate or few enough tokens were minted |
| LpShares.RoundTripBounds | crates/zoro_miden/src/pool_state.rs:131-227 | identity curve, the planner's count, under that exact condition: payout <= d and (d - payout) * (S + lp) < L + S + lp |
| LpShares.CreditedRoundTrip | crates/zoro_miden/src/pool_execution.rs:82-85 | for every curve, redeeming the shares credited on-chain takes out at most what the deposit put in if and only if amount * (L + increment) < (increment + 1) * supply |
| LpShares.CreditOverpaysExactly | crates/zoro_miden/src/pool_execution.rs:82-85 | identity curve: no deposit gains by that if and only if the pool has as many LP tokens as liabilities |
| LpShares.RoundTripSaturated | crates/zoro_miden/src/pool_state.rs:167-169 | a concrete pool with a saturated supply counter where the round trip takes out more than was put in |
| LpShares.SplitDeposit | crates/zoro_miden/src/pool_state.rs:131-172 | identity curve: no way to split a deposit mints more LP tokens than depositing the sum, in exactly the pools that have liabilities or no LP tokens; a saturating supply counter does not matter |
| LpShares.SplitDepositOrphanedSupply | crates/zoro_miden/src/pool_state.rs:155-159 | every pool with LP tokens and no liabilities rewards a split deposit |
| LpShares.SplitRedemption | crates/zoro_miden/src/pool_state.rs:176-227 | for every curve, splitting a redemption never takes out or pays more in total |
| IdentitySwaps.SwapSplit | crates/zoro_miden/src/curve.rs:121-199 | identity curve: raw = paid + fee + LP fee, the output reserve falls by exactly the payment, the liabilities rise by exactly the LP fee, the input pool stays within twice its liabilities |
| IdentitySwaps.SwapPriced | crates/zoro_miden/src/curve.rs:88-199 | identity curve: a swap within the two pools is quoted, and paid the amount sold at the price in the decimals of the two assets less the three fee rates, within one unit of raw output and two of payment; the liabilities of the output pool earn the swap fee on it |
| Outcomes.QuoteExactly | crates/zoro_miden/src/curve.rs:77-160 | every curve: when a quote is refused, when it pays nothing, and where it leaves the input pool |
| IdentitySwaps.ZeroPayOut | crates/zoro_miden/src/curve.rs:123-199 | identity curve: a swap that pays nothing leaves the output pool's two reserves equal if and only if the fee does not exceed the raw output, unless the reserve wraps |
| IdentitySwaps.FeesBounded | crates/zoro_miden/src/curve.rs:123-125 | identity curve: paid * 10^6 >= raw * (10^6 - all fee rates) |
| IdentitySwaps.ScalingExact | crates/zoro_miden/src/curve.rs:109-113 | every non-zero scaling factor is exact in the decimals of the two assets |
| IdentitySwaps.SwapCreatesNoValue | crates/zoro_miden/src/curve.rs:109-170 | identity curve, fair price: out * P_out * 10^d_in <= in * P_in * 10^d_out |
| IdentitySwaps.PathCreatesNoValue | crates/zoro_miden/src/curve.rs:109-170 | that bound along any path of swaps through any intermediate pool states |
| IdentitySwaps.NoProfitableCycle | crates/zoro_miden/src/curve.rs:109-170 | no cycle of swaps returns more than went in |
| Trading.ChainCreatesNoValue | crates/zoro_miden/src/curve.rs:109-170 | in every run from deployment under the identity curve, with any other notes and reloads in between, a chain of trades is paid no more value than its first trade took in |
| Trading.NoProfitInRun | crates/zoro_miden/src/curve.rs:109-170 | and a round trip returns no more than went in |
| Curves.DummyCurveIsIdentity | crates/zoro_curve_base/src/dummy_curve.rs:19-42 | the shipped curve is the identity curve the theorems speak of |
| NoteScripts.ExecuteDeposit | crates/zoro_miden/masm/notes/DEPOSIT.masm:18-41 | bounce below the minimum, otherwise receive and credit |
| NoteScripts.ExecuteWithdraw | crates/zoro_miden/masm/notes/WITHDRAW.masm:22-47 | burn LP, then remove the asset, then pay it out |
| NoteScripts.ExecuteZoroswap | crates/zoro_miden/masm/notes/ZOROSWAP.masm:20-65 | bounce below the minimum, otherwise update both pools and pay out |
| NoteScripts.ExecutePosition | crates/zoro_miden/masm/notes/POSITION.masm:162-206 | re-create the note as it is below the minimum, otherwise trade and re-create it with rewritten assets |
| NoteScripts.AcceptedShape | crates/zoro_miden/masm/notes/lib/common.masm:263-280 | what a script that succeeds found attached to its note |
| NoteScripts.ExecuteTransaction | crates/zoro_miden/src/pool.rs:397-411 | all scripts succeed in order or the account is as before |
| Conservation.ScriptConserves | crates/zoro_miden/masm/notes/ZOROSWAP.masm:20-65 | deposits, withdrawals and swaps conserve an asset across vault and notes, executed or bounced, if and only if no unit of it is attached to a withdrawal |
| Conservation.PositionConservesExactly | crates/zoro_miden/masm/notes/POSITION.masm:162-206 | an executed position trade conserves every asset if and only if the note holds the amount sold |
| Conservation.TransactionConserves | crates/zoro_miden/src/pool.rs:397-411 | a whole transaction of scripts conserves every asset across the vault, the notes consumed and the notes created |
| Conservation.RespawnedNoteAgreesExactly | crates/zoro_miden/src/pool_execution.rs:393-400 | the note the planner announces is the note the contract creates if and only if every held asset is sold or bought |
| Conservation.SwapIsFair | crates/zoro_miden/src/pool_execution.rs:226-271 | a swap executes only in time and pays at least its minimum; any other is returned whole if the minimum is positive, and at a minimum of zero it is kept: its asset enters the vault and nothing is paid |
| Conservation.UnexecutedSwapReturned | crates/zoro_miden/src/pool_execution.rs:226-282 | a swap that is not executed is returned if and only if its minimum is positive |
| Conservation.WithdrawalIsFair | crates/zoro_miden/src/pool_execution.rs:140-181 | a withdrawal executes only in time and pays at least its minimum, or does nothing at all |
| Conservation.PositionIsFair | crates/zoro_miden/src/pool_execution.rs:381-475 | a position trade executes only in time and pays at least its minimum into the re-created note, for every minimum and whatever the note holds, or keeps its note and the account as they are |
| Conservation.DepositIsFair | crates/zoro_miden/src/pool_execution.rs:72-122 | a deposit executes if and only if it is in time, and then is credited, or returned whole when its minimum is above the attached amount; a late one is returned whole if its minimum is positive, and at zero it is kept without a share |
| Conservation.LateDepositReturned | crates/zoro_miden/src/pool_execution.rs:93-121 | a late deposit is returned if and only if its minimum is positive |
| Conservation.ALateDepositIsKept | crates/zoro_miden/masm/notes/DEPOSIT.masm:18-41 | one unit sent late to an empty deployment with a minimum of zero: the vault grows by one, no share is credited, no note is created |
| Positions.PrepareAssets | crates/zoro_miden/masm/notes/POSITION.masm:223-325 | the in-place loop terminates and leaves the original list with the sold amount reduced, the bought amount increased or appended once, all else untouched |
| Positions.RewriteEntry | crates/zoro_miden/masm/notes/POSITION.masm:257-298 | entry by entry: bought and sold are told apart by faucet and callback flag, each entry keeps its place, and what was bought is appended exactly if no entry matches it |
| Positions.RewriteConserves | crates/zoro_miden/masm/notes/POSITION.masm:257-298 | the rewritten list holds exactly the sold amount less and the bought amount more, per faucet, if and only if the sold amount was held |
| Positions.MoveAllAssetsToNote | crates/zoro_miden/masm/notes/lib/respawn.masm:84-125 | every asset in the buffer reaches the new note, in order |
| Positions.RespawnAssets | crates/zoro_miden/src/note.rs:78-107 | the Rust loop computes the planner's list, or fails on an amount out of range or on two assets of one faucet |
| Positions.RespawnSucceedsExactly | crates/zoro_miden/src/note.rs:78-116 | the Rust loop succeeds exactly if every held asset carries over and a held asset is not traded against itself |
| Positions.RespawnAgreesWithRewrite | crates/zoro_miden/src/note.rs:78-107 | Rust and MASM produce the same list if and only if every held asset is the sold or the bought one |
| Shuffling.ShuffleIndependent | crates/zoroswap/src/trading_engine.rs:86-87 | for notes with pairwise disjoint pools every permutation of a batch gives the same pools and results, each note keeping its clock value |
| Shuffling.NeighboursCommute | crates/zoro_miden/src/pool.rs:448-501 | two neighbouring notes with disjoint pools may trade places in any batch |
| Shuffling.PlanReadsOwnPools | crates/zoro_miden/src/pool_execution.rs:56-485 | a note's outcome depends only on its own faucets' pools |
| Shuffling.PlanWritesOwnPools | crates/zoro_miden/src/pool_execution.rs:56-485 | a note changes only its own faucets' pools, and none when it fails or has expired |
| Shuffling.FaucetsAreNamed | crates/zoro_miden/src/pool_execution.rs:56-485 | and those are pools of assets that the note names |
| OrderBook.OpenOrdersHaveNotes | crates/zoroswap/src/amm_state.rs:130-147 | in every interleaving each open order has its own note stored |
| OrderBook.PluckedOnce | crates/zoroswap/src/amm_state.rs:230-236 | no order is plucked twice, and each yields the note it was added with |
| OrderBook.NotePluckedTwiceExactly | crates/zoroswap/src/amm_state.rs:83-120 | a note is plucked twice if and only if two of the plucked orders were made for it |
| AmmStates.ANoteIsPluckedTwice | crates/zoroswap/src/amm_state.rs:83-120 | two orders on one position put its note into one batch twice: a run of fourteen steps |
| OrderBook.OrderIsFoundUnlessInWindow | crates/zoroswap/src/amm_state.rs:178-185 | between cycles a fully added order is open with its note or closed and plucked, if and only if its insert did not fall between a snapshot and its clear |
| OrderBook.AnOrderIsLost | crates/zoroswap/src/amm_state.rs:178-185 | a run of six steps that loses an order in that window, with the book it ends in |
| OrderBook.RunKeepsInvariant | crates/zoroswap/src/amm_state.rs:130-185 | the invariant behind these, over every interleaving |
| AmmStates.AmmState.AddOrder | crates/zoroswap/src/amm_state.rs:130-147 | refuses a note with an unknown faucet and leaves no trace; otherwise the three inserts are four steps of the order book, in that order, and keep its invariant |
| AmmStates.AmmState.AddPositionOrder | crates/zoroswap/src/amm_state.rs:83-120 | adds an order for the position's note and leaves the position where it is, so the same note can be added again |
| AmmStates.AmmState.FlushOpenOrders | crates/zoroswap/src/amm_state.rs:178-185 | moves exactly the open orders to the closed ones, as an uninterrupted run of steps that keeps the invariant |
| AmmStates.AmmState.PluckNote | crates/zoroswap/src/amm_state.rs:231-236 | removes and returns the note, so a second call finds nothing |
| AmmStates.AmmState.PluckNotes | crates/zoroswap/src/trading_engine.rs:105-109 | in any order, the engine collects the right note of every flushed order |
| AmmStates.AmmState.RunCycle | crates/zoroswap/src/trading_engine.rs:71-109 | a cycle closes exactly the orders that were open, collects the note of each once, in any order, and keeps the invariant; its batch repeats a note if and only if two of those orders were made for it |
| MintCodec.Mint | crates/zoro_miden/masm/scripts/mint.masm:32-75 | the script's loop terminates and mints what the advice stack decodes to, leaving the operand stack as it found it, or fails: exactly when the advice is too short or the faucet refuses a note |
| MintCodec.CreateTransaction | crates/zoroswap/src/faucet.rs:133-149 | the encoder writes the count and every note with its digest reversed |
| MintCodec.CodecRoundTrip | crates/zoroswap/src/faucet.rs:136-149 | decoding an encoding gives precisely the same notes in order and consumes it exactly |
| MintCodec.AcceptedIsEncoding | crates/zoro_miden/masm/scripts/mint.masm:38-75 | every advice stack that the script accepts begins with the encoding of what it mints |
| MintCodec.DecodeFailsWhenShort | crates/zoro_miden/masm/scripts/mint.masm:49-57 | the script fails exactly on advice stacks too short for their count |
| RateLimit.MintsAreSpaced | crates/zoroswap/src/faucet.rs:55-95 | however instructions are batched or repeated, two mints for one user and faucet are at least 241 seconds apart |
| RateLimit.WindowBound | crates/zoroswap/src/faucet.rs:55-95 | any window of T seconds holds at most T / 241 + 1 of them |
| RateLimit.ServedExactly | crates/zoroswap/src/faucet.rs:76-94 | an attempt is served if and only if its note is created and the cooldown has run out |
| RateLimit.BackwardClockOpensGuard | crates/zoroswap/src/faucet.rs:77 | exactly when a clock that ran backwards would let a mint through |
| RateLimit.GuardedFaucet.ServeBatch | crates/zoroswap/src/faucet.rs:55-112 | one turn of the loop mints only for received instructions, at the clock of a pass over the instruction's own faucet; and with a forward clock it mints for every instruction that such a pass creates a note for, unless less than 241 seconds have passed since a mint for the same recipient |
| RateLimit.BatchMintsOnlyCalled | crates/zoroswap/src/faucet.rs:55-95 | the first half, for every start and every clock |
| RateLimit.BatchMintsAllDue | crates/zoroswap/src/faucet.rs:55-95 | the second half |

## Left out

- The Miden client, proving, network submission and storage: one Boolean says whether a transaction was accepted, one whether the synchronisation after it succeeded.
- Note recipients, how serial numbers derive from one another, script roots, P2ID construction and the note-storage codec; a note is its fields.
- The key and value words of an asset (`compress_asset`, `expand_asset`): an asset is its faucet, callback flag and amount, and the vault is keyed by faucet.
- The private production curve: covered only by the theorems over an arbitrary curve.
- The floating-point price quotient: an arbitrary function, bounded by 2^128 where the identity curve's reachability needs it and fair where no value may be created.
- Overflow of `U256` sums and products: operands originate from 64-bit values and are added and multiplied over the naturals; decimals above 77, where a power of ten wraps, are not modelled.
- The vault's limit is the 2^63 named in `zoropool.masm`; the limit of the Miden library is not part of this model.
- `PoolState` is a `Copy` struct that the source never shares, so `update_state` and `update_balances` are functions on values.
- The order book's interleavings are a state machine over map steps assumed atomic; that iterating or clearing a sharded `DashMap` may itself interleave with inserts is not modelled.
- Desync.SerialsClash: a position that finds the two words of a swap under its serial number fails here; that it could read on into words which another script left on the advice stack is not modelled.
- Conservation.ALateDepositIsKept: the planner also announces a returned note and its recipient to the client, and no such note is created; whether the client or the network then refuses the transaction is not part of this model.
- PoolContract.AlwaysSolvent: the basic wallet belongs to the Miden library; it is taken to move assets into and out of the vault and nothing else.
- Position conservation needs distinct held faucets and callback flags that match the traded assets; zero amounts left in a re-created note are kept as entries.
- Reclaim and signature checks of POSITION, which are stubs, and the scripts for an external contract not in the repository.
- Getters, broadcasting, price staleness and server plumbing, which have only easy properties.
- Runs.RunNotDiluting: assumes some LP token exists between steps; once the last one is redeemed the ratio starts anew.
