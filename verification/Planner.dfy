/**
 The planner: `PoolExecution::new` for one note and the batch fold of `prepare_execution_details`.

 A Rust error and a panic both end the batch before any transaction is submitted, so both are a `Failure`.
 */
module Planner {
  import opened Wrappers
  import opened Curves
  import opened Felts
  import opened Assets
  import opened PoolContract
  import opened PoolStates
  import opened Notes
  import opened Positions

  type Pools = map<AccountId, PoolState>

  datatype ExecutionResult =
    | SwapSuccess(amount: nat)
    | DepositSuccess(amount: nat)
    | WithdrawSuccess(amount: nat)
    | Failed
    | PastDeadline

  datatype Failure = UnknownAsset | NoPrice | Panicked | InvalidNote

  /**
   What the planner reads besides the note and the pools. `quoteWith` is the price quotient of `price.rs`,
   which is computed in floating point and left uninterpreted.
   */
  datatype Env = Env(curves: CurveFamily, now: int, prices: map<AccountId, nat>, quoteWith: (nat, nat) -> nat)

  /** The parts of a `PoolExecution` that reach the transaction or the next note. */
  datatype Execution = Execution(
    result: ExecutionResult,
    call: Option<ScriptCall>,
    newPools: Option<Pools>,
    respawned: Option<seq<Asset>>)

  function Nothing(result: ExecutionResult): Execution {
    Execution(result, None, None, None)
  }

  /** The deadline is a field element that the source casts to `i64`. */
  function Signed(deadline: Felt): int {
    if deadline < 0x8000_0000_0000_0000 then deadline else deadline - U64_MAX - 1
  }

  predicate IsPastDeadline(now: int, deadline: Felt) {
    now > Signed(deadline)
  }

  function Unexecuted(env: Env, note: Note): ExecutionResult {
    if IsPastDeadline(env.now, note.deadline) then PastDeadline else Failed
  }

  /** `to_lp_note_args` converts every balance to `u64` and panics when one does not fit. */
  function LpCall(note: Note, amount: nat, b: PoolBalances): Result<ScriptCall, Failure> {
    if FitsU64(b) then Ok(ScriptCall(note, ToFelt(amount), ToWord(b), EMPTY_POOL)) else Err(Panicked)
  }

  function PlanDeposit(env: Env, pools: Pools, note: Note): Result<Execution, Failure> {
    if note.assets == [] then Ok(Nothing(Failed))
    else
      var asset := note.assets[0];
      if asset.faucet !in pools then Err(UnknownAsset)
      else
        var s := pools[asset.faucet];
        if IsPastDeadline(env.now, note.deadline) then
          match LpCall(note, 0, s.balances)
          case Err(e) => Err(e)
          case Ok(call) => Ok(Execution(PastDeadline, Some(call), None, None))
        else
          var q := GetDepositLpAmountOut(env.curves, s, asset.amount);
          match LpCall(note, asset.amount, q.balances)
          case Err(e) => Err(e)
          case Ok(call) =>
            if q.amount > U64_MAX then Err(Panicked)
            else
              var s' := s.UpdateState(q.balances, q.lpTotalSupply);
              Ok(Execution(DepositSuccess(q.amount), Some(call), Some(pools[asset.faucet := s']), None))
  }

  function PlanWithdraw(env: Env, pools: Pools, note: Note): Result<Execution, Failure> {
    if note.assetInput.None? then Ok(Nothing(Failed))
    else
      var asset := note.assetInput.value;
      if asset.faucet !in pools then Err(UnknownAsset)
      else
        var s := pools[asset.faucet];
        var q := GetWithdrawAssetAmountOut(env.curves, s, note.amountInput);
        if IsPastDeadline(env.now, note.deadline) || q.amount < asset.amount then
          Ok(Nothing(Unexecuted(env, note)))
        else if q.amount > U64_MAX then Err(Panicked)
        else
          match LpCall(note, q.amount, q.balances)
          case Err(e) => Err(e)
          case Ok(call) =>
            var s' := s.UpdateState(q.balances, q.lpTotalSupply);
            Ok(Execution(WithdrawSuccess(q.amount), Some(call), Some(pools[asset.faucet := s']), None))
  }

  /** Looks up both pools and both prices and asks for a quote; an error in the quote is unwrapped, a panic. */
  function QuoteTrade(env: Env, pools: Pools, sell: Asset, buy: Asset): Result<SwapQuote, Failure> {
    if sell.faucet !in pools || buy.faucet !in pools then Err(UnknownAsset)
    else if sell.faucet !in env.prices || buy.faucet !in env.prices then Err(NoPrice)
    else
      var price := env.quoteWith(env.prices[sell.faucet], env.prices[buy.faucet]);
      match GetCurveAmountOut(env.curves, pools[sell.faucet], pools[buy.faucet], sell.amount, price)
      case Err(_) => Err(Panicked)
      case Ok(q) => Ok(q)
  }

  /** Both pools are read before either is written, so with one faucet the quote side wins. */
  function Settle(pools: Pools, base: AccountId, quote: AccountId, q: SwapQuote): Pools
    requires base in pools && quote in pools
  {
    pools[base := pools[base].UpdateBalances(q.base)][quote := pools[quote].UpdateBalances(q.quote)]
  }

  predicate MeetsMinimum(env: Env, note: Note, q: SwapQuote, buy: Asset) {
    !IsPastDeadline(env.now, note.deadline) && q.amountOut >= buy.amount
  }

  function PlanSwap(env: Env, pools: Pools, note: Note): Result<Execution, Failure> {
    if note.assets == [] || note.assetInput.None? then Ok(Nothing(Failed))
    else
      var sell, buy := note.assets[0], note.assetInput.value;
      match QuoteTrade(env, pools, sell, buy)
      case Err(e) => Err(e)
      case Ok(q) =>
        if !MeetsMinimum(env, note, q, buy) then
          var call := ScriptCall(note, 0, ToWord(pools[sell.faucet].balances), ToWord(pools[buy.faucet].balances));
          Ok(Execution(Unexecuted(env, note), Some(call), Some(pools), None))
        else if q.amountOut > U64_MAX then Err(Panicked)
        else
          var call := ScriptCall(note, ToFelt(q.amountOut), ToWord(q.base), ToWord(q.quote));
          Ok(Execution(SwapSuccess(q.amountOut), Some(call), Some(Settle(pools, sell.faucet, buy.faucet, q)), None))
  }

  function PlanPosition(env: Env, pools: Pools, note: Note): Result<Execution, Failure> {
    if note.trade.None? then Ok(Execution(Failed, None, None, Some(note.assets)))
    else
      var Trade(sell, buy) := note.trade.value;
      match QuoteTrade(env, pools, sell, buy)
      case Err(e) => Err(e)
      case Ok(q) =>
        if !MeetsMinimum(env, note, q, buy) then
          Ok(Execution(Unexecuted(env, note), None, None, Some(note.assets)))
        else if q.amountOut > MAX_AMOUNT then Err(InvalidNote)
        else
          match Respawn(note.assets, sell, Asset(buy.faucet, false, q.amountOut))
          case Err(_) => Err(InvalidNote)
          case Ok(respawned) =>
            var call := ScriptCall(note, ToFelt(q.amountOut), ToWord(q.base), ToWord(q.quote));
            var newPools := Settle(pools, sell.faucet, buy.faucet, q);
            Ok(Execution(SwapSuccess(q.amountOut), Some(call), Some(newPools), Some(respawned)))
  }

  /** The outcome of one note against a pool map. */
  function Plan(env: Env, pools: Pools, note: Note): Result<Execution, Failure> {
    match note.kind
    case DepositNote => PlanDeposit(env, pools, note)
    case WithdrawNote => PlanWithdraw(env, pools, note)
    case SwapNote => PlanSwap(env, pools, note)
    case PositionNote => PlanPosition(env, pools, note)
    case P2ID => Ok(Nothing(Failed))
  }

  function PoolsAfter(ex: Execution, pools: Pools): Pools {
    if ex.newPools.Some? then ex.newPools.value else pools
  }

  lemma CallIsOfNote(env: Env, pools: Pools, note: Note)
    requires Plan(env, pools, note).Ok?
    ensures var call := Plan(env, pools, note).value.call; call.Some? ==> call.value.note == note
  {
  }

  /** A note with what the planner reads when it plans it; the clock is read anew for every note. */
  datatype Event = Event(env: Env, note: Note)

  /** The notes of a batch, the clock read at each of them. */
  function Stamp(env: Env, notes: seq<Note>, clock: nat -> int): (r: seq<Event>)
    ensures |r| == |notes|
  {
    seq(|notes|, i requires 0 <= i < |notes| => Event(env.(now := clock(i)), notes[i]))
  }

  /** Swaps and positions find their arguments in the advice map, the other notes on the stack. */
  predicate UsesAdvice(note: Note) {
    note.kind.SwapNote? || note.kind.PositionNote?
  }

  /** The advice of a position also holds its order. */
  datatype Advice = Advice(amount: Felt, pool0: PoolWord, pool1: PoolWord, trade: Option<Trade>)

  function AdviceOf(c: ScriptCall): Advice {
    Advice(c.amount, c.pool0, c.pool1, if c.note.kind.PositionNote? then c.note.trade else None)
  }

  /**
   What a batch accumulates: results by note, the calls in order with the arguments planned for them, the advice
   map by serial number, in which a later note replaces an earlier one, and the pools.
   */
  datatype Batch = Batch(
    results: map<nat, ExecutionResult>,
    calls: seq<ScriptCall>,
    advice: map<nat, Advice>,
    pools: Pools)

  function EmptyBatch(pools: Pools): Batch {
    Batch(map[], [], map[], pools)
  }

  function Extend(b: Batch, note: Note, ex: Execution): Batch {
    Batch(
      b.results[note.id := ex.result],
      b.calls + if ex.call.Some? then [ex.call.value] else [],
      if ex.call.Some? && UsesAdvice(note) then b.advice[note.serial := AdviceOf(ex.call.value)] else b.advice,
      PoolsAfter(ex, b.pools))
  }

  function PlanFrom(events: seq<Event>, b: Batch): Result<Batch, Failure>
    decreases |events|
  {
    if events == [] then Ok(b)
    else
      match Plan(events[0].env, b.pools, events[0].note)
      case Err(e) => Err(e)
      case Ok(ex) => PlanFrom(events[1..], Extend(b, events[0].note, ex))
  }

  function PlanBatch(events: seq<Event>, pools: Pools): Result<Batch, Failure> {
    PlanFrom(events, EmptyBatch(pools))
  }

  /** What a script works on: a swap or position takes whatever the final advice map holds under its serial number. */
  function Received(c: ScriptCall, advice: map<nat, Advice>): ScriptCall {
    if UsesAdvice(c.note) && c.note.serial in advice then
      var a := advice[c.note.serial];
      var note := if c.note.kind.PositionNote? then c.note.(trade := a.trade) else c.note;
      ScriptCall(note, a.amount, a.pool0, a.pool1)
    else c
  }

  /** The calls of the transaction as they arrive. */
  function Delivered(b: Batch): (r: seq<ScriptCall>)
    ensures |r| == |b.calls|
  {
    seq(|b.calls|, i requires 0 <= i < |b.calls| => Received(b.calls[i], b.advice))
  }
}
