/**
 The state and the procedures of the on-chain pool account `zoropool.masm`, as functions on values.

 A procedure returns `None` when one of its asserts fails; the transaction kernel then discards the whole
 transaction. The class in PoolAccount.dfy performs the same procedures on mutable storage.
 */
module PoolContract {
  import opened Wrappers
  import opened Felts
  import opened Assets
  import opened StorageKeys

  /** One value word of the `pool_state` map. */
  datatype PoolWord = PoolWord(liabilities: Felt, reserve: Felt, reserveWithSlippage: Felt)

  const EMPTY_POOL := PoolWord(0, 0, 0)

  type Ledger = map<Word, Felt>
  type Vault = map<AccountId, nat>

  datatype State = State(pools: map<AccountId, PoolWord>, deposits: Ledger, vault: Vault)

  /** A freshly deployed account. */
  const EMPTY := State(map[], map[], map[])

  /** Absent map items read as zero. */
  function PoolOf(s: State, faucet: AccountId): PoolWord {
    if faucet in s.pools then s.pools[faucet] else EMPTY_POOL
  }

  function Entry(d: Ledger, k: Word): Felt {
    if k in d then d[k] else 0
  }

  function Balance(v: Vault, faucet: AccountId): nat {
    if faucet in v then v[faucet] else 0
  }

  function Shares(s: State, faucet: AccountId, user: AccountId): Felt {
    Entry(s.deposits, UserKey(faucet, user))
  }

  function TotalSupply(s: State, faucet: AccountId): Felt {
    Entry(s.deposits, TotalKey(faucet))
  }

  /** The three asserts of `set_pool_state`; the doubled liabilities are a field product. */
  predicate Accepts(w: PoolWord, balance: nat) {
    && w.reserve <= w.reserveWithSlippage
    && w.reserveWithSlippage <= FMul(w.liabilities, 2)
    && w.reserveWithSlippage <= balance
  }

  function SetPoolState(s: State, faucet: AccountId, w: PoolWord): Option<State> {
    if Accepts(w, Balance(s.vault, faucet)) then Some(s.(pools := s.pools[faucet := w])) else None
  }

  function ReceiveAsset(s: State, asset: Asset, w: PoolWord): Option<State> {
    var total := Balance(s.vault, asset.faucet) + asset.amount;
    if total > MAX_AMOUNT then None
    else SetPoolState(s.(vault := s.vault[asset.faucet := total]), asset.faucet, w)
  }

  function RemoveAsset(s: State, asset: Asset, w: PoolWord): Option<State> {
    var held := Balance(s.vault, asset.faucet);
    if asset.amount > held then None
    else SetPoolState(s.(vault := s.vault[asset.faucet := held - asset.amount]), asset.faucet, w)
  }

  function WalletReceive(s: State, asset: Asset): Option<State> {
    var total := Balance(s.vault, asset.faucet) + asset.amount;
    if total > MAX_AMOUNT then None else Some(s.(vault := s.vault[asset.faucet := total]))
  }

  function WalletSend(s: State, asset: Asset): Option<State> {
    var held := Balance(s.vault, asset.faucet);
    if asset.amount > held then None else Some(s.(vault := s.vault[asset.faucet := held - asset.amount]))
  }

  function AddToEntry(d: Ledger, k: Word, amount: Felt): Option<Ledger> {
    if Entry(d, k) + amount < P then Some(d[k := Entry(d, k) + amount]) else None
  }

  function SubFromEntry(d: Ledger, k: Word, amount: Felt): Option<Ledger> {
    if amount <= Entry(d, k) then Some(d[k := Entry(d, k) - amount]) else None
  }

  /** `deposit`: credits the user's entry, then the total supply. */
  function Deposit(s: State, faucet: AccountId, user: AccountId, amount: Felt): Option<State> {
    match AddToEntry(s.deposits, UserKey(faucet, user), amount)
    case None => None
    case Some(d) =>
      match AddToEntry(d, TotalKey(faucet), amount)
      case None => None
      case Some(d') => Some(s.(deposits := d'))
  }

  /** `withdraw`: debits the user's entry, refusing zero and anything above it, then the total supply. */
  function Withdraw(s: State, faucet: AccountId, user: AccountId, amount: Felt): Option<State> {
    if amount == 0 then None
    else
      match SubFromEntry(s.deposits, UserKey(faucet, user), amount)
      case None => None
      case Some(d) =>
        match SubFromEntry(d, TotalKey(faucet), amount)
        case None => None
        case Some(d') => Some(s.(deposits := d'))
  }

  /**
   The public procedures that change the account. `set_pool0_state` and `set_pool1_state` are `set_pool_state` for
   an asset registered under a fixed index. The account also has the library's basic wallet, which takes assets in
   and sends them out without looking at the pools.
   */
  datatype Invocation =
    | InvokeSetPoolState(faucet: AccountId, word: PoolWord)
    | InvokeReceive(asset: Asset, word: PoolWord)
    | InvokeRemove(asset: Asset, word: PoolWord)
    | InvokeDeposit(faucet: AccountId, user: AccountId, amount: Felt)
    | InvokeWithdraw(faucet: AccountId, user: AccountId, amount: Felt)
    | InvokeWalletReceive(asset: Asset)
    | InvokeWalletSend(asset: Asset)

  function Invoke(s: State, i: Invocation): Option<State> {
    match i
    case InvokeSetPoolState(f, w) => SetPoolState(s, f, w)
    case InvokeReceive(asset, w) => ReceiveAsset(s, asset, w)
    case InvokeRemove(asset, w) => RemoveAsset(s, asset, w)
    case InvokeDeposit(f, u, amount) => Deposit(s, f, u, amount)
    case InvokeWithdraw(f, u, amount) => Withdraw(s, f, u, amount)
    case InvokeWalletReceive(asset) => WalletReceive(s, asset)
    case InvokeWalletSend(asset) => WalletSend(s, asset)
  }

  /** A history of invocations; one that fails leaves no trace. */
  function History(s: State, calls: seq<Invocation>): State {
    if calls == [] then s
    else
      var before := History(s, calls[..|calls| - 1]);
      match Invoke(before, calls[|calls| - 1])
      case None => before
      case Some(after) => after
  }

  /** Over the naturals: no pool promises more than twice its liabilities or than the vault holds. */
  ghost predicate Solvent(s: State) {
    forall f: AccountId :: SolventFor(s, f)
  }

  predicate SolventFor(s: State, f: AccountId) {
    var w := PoolOf(s, f);
    w.reserve <= w.reserveWithSlippage <= 2 * w.liabilities && w.reserveWithSlippage <= Balance(s.vault, f)
  }

  /** What the wallet sends out is not needed by the pool. */
  predicate Spares(s: State, i: Invocation) {
    i.InvokeWalletSend? ==>
      PoolOf(s, i.asset.faucet).reserveWithSlippage + i.asset.amount <= Balance(s.vault, i.asset.faucet)
  }

  lemma PoolKeepsSolvent(s: State, i: Invocation, f: AccountId)
    requires SolventFor(s, f) && Invoke(s, i).Some? && !i.InvokeWalletSend?
    ensures SolventFor(Invoke(s, i).value, f)
  {
  }

  /** Every procedure of the pool keeps the account solvent; the wallet does exactly when it spares the pools. */
  lemma InvokeKeepsSolvent(s: State, i: Invocation)
    requires Solvent(s) && Invoke(s, i).Some?
    ensures Solvent(Invoke(s, i).value) <==> Spares(s, i)
  {
    var t := Invoke(s, i).value;
    if i.InvokeWalletSend? {
      forall f: AccountId
        ensures SolventFor(t, f) <==> (f == i.asset.faucet ==> Spares(s, i))
      {
        assert SolventFor(s, f);
      }
      assert Solvent(t) ==> SolventFor(t, i.asset.faucet);
    } else {
      forall f: AccountId
        ensures SolventFor(t, f)
      {
        assert SolventFor(s, f);
        PoolKeepsSolvent(s, i, f);
      }
    }
  }

  /** Every wallet transfer of a history spares the pools as they are at that time. */
  ghost predicate SparesThroughout(calls: seq<Invocation>) {
    calls == [] || (SparesThroughout(calls[..|calls| - 1])
                    && Spares(History(EMPTY, calls[..|calls| - 1]), calls[|calls| - 1]))
  }

  /** Every such history from deployment is solvent, although the coverage check computes modulo the prime. */
  lemma {:induction false} AlwaysSolvent(calls: seq<Invocation>)
    requires SparesThroughout(calls)
    ensures Solvent(History(EMPTY, calls))
  {
    if calls != [] {
      AlwaysSolvent(calls[..|calls| - 1]);
      var before := History(EMPTY, calls[..|calls| - 1]);
      if Invoke(before, calls[|calls| - 1]).Some? {
        InvokeKeepsSolvent(before, calls[|calls| - 1]);
      }
    }
  }
}
