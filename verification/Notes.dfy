/** The notes that users send to the pool, and what a note script is called with. */
module Notes {
  import opened Wrappers
  import opened Felts
  import opened Assets
  import opened PoolContract
  import opened PoolStates

  datatype NoteKind = P2ID | DepositNote | WithdrawNote | SwapNote | PositionNote

  /** The order attached to a position note: what to sell, and the least amount to buy. */
  datatype Trade = Trade(sell: Asset, buy: Asset)

  /** `id` identifies the note; `serial` is chosen by its sender, so two notes may carry the same one. */
  datatype Note = Note(
    id: nat,
    serial: nat,
    kind: NoteKind,
    assets: seq<Asset>,
    assetInput: Option<Asset>,
    amountInput: Felt,
    beneficiary: AccountId,
    deadline: Felt,
    trade: Option<Trade>)

  /** One consumed note of a transaction with the arguments that its script works on. */
  datatype ScriptCall = ScriptCall(note: Note, amount: Felt, pool0: PoolWord, pool1: PoolWord)

  /** Balances as note arguments: clamped to 64 bits, then read as field elements. */
  function ToWord(b: PoolBalances): PoolWord {
    PoolWord(
      ToFelt(Min(b.liabilities, U64_MAX)),
      ToFelt(Min(b.reserve, U64_MAX)),
      ToFelt(Min(b.reserveWithSlippage, U64_MAX)))
  }

  /** Balances that note arguments carry unchanged. */
  predicate FitsFelt(b: PoolBalances) {
    b.liabilities < P && b.reserve < P && b.reserveWithSlippage < P
  }

  predicate SameBalances(b: PoolBalances, w: PoolWord) {
    b.liabilities == w.liabilities && b.reserve == w.reserve && b.reserveWithSlippage == w.reserveWithSlippage
  }

  lemma WordOfFitting(b: PoolBalances)
    requires FitsFelt(b)
    ensures SameBalances(b, ToWord(b))
  {
  }
}
