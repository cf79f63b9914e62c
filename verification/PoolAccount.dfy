/** The pool account with its storage maps and vault updated in place. */
module PoolAccounts {
  import opened Felts
  import opened Assets
  import opened StorageKeys
  import PC = PoolContract
  import opened PoolContract

  class PoolAccount {
    var pools: map<AccountId, PoolWord>
    var deposits: Ledger
    var vault: Vault

    function View(): State
      reads this
    {
      State(pools, deposits, vault)
    }

    constructor ()
      ensures View() == EMPTY
    {
      pools, deposits, vault := map[], map[], map[];
    }

    method SetMapItem(key: Word, value: Felt)
      modifies this`deposits
      ensures deposits == old(deposits)[key := value]
    {
      deposits := deposits[key := value];
    }

    method AddToMapItem(key: Word, incrementBy: Felt) returns (ok: bool)
      modifies this`deposits
      ensures ok <==> Entry(old(deposits), key) + incrementBy < P
      ensures deposits == if ok then old(deposits)[key := Entry(old(deposits), key) + incrementBy] else old(deposits)
    {
      var value := Entry(deposits, key);
      var sum := SafeAdd(incrementBy, value);
      if sum.None? {
        return false;
      }
      SetMapItem(key, sum.value);
      return true;
    }

    method SubFromMapItem(key: Word, subBy: Felt) returns (ok: bool)
      modifies this`deposits
      ensures ok <==> subBy <= Entry(old(deposits), key)
      ensures deposits == if ok then old(deposits)[key := Entry(old(deposits), key) - subBy] else old(deposits)
    {
      var value := Entry(deposits, key);
      var difference := SafeSub(subBy, value);
      if difference.None? {
        return false;
      }
      SetMapItem(key, difference.value);
      return true;
    }

    method SetPoolState(faucet: AccountId, w: PoolWord) returns (ok: bool)
      modifies this
      ensures ok <==> PC.SetPoolState(old(View()), faucet, w).Some?
      ensures ok ==> View() == PC.SetPoolState(old(View()), faucet, w).value
    {
      if w.reserve > w.reserveWithSlippage {
        return false;
      }
      if w.reserveWithSlippage > FMul(w.liabilities, 2) {
        return false;
      }
      if w.reserveWithSlippage > Balance(vault, faucet) {
        return false;
      }
      pools := pools[faucet := w];
      return true;
    }

    method ReceiveAsset(asset: Asset, w: PoolWord) returns (ok: bool)
      modifies this
      ensures ok <==> PC.ReceiveAsset(old(View()), asset, w).Some?
      ensures ok ==> View() == PC.ReceiveAsset(old(View()), asset, w).value
    {
      var total := Balance(vault, asset.faucet) + asset.amount;
      if total > MAX_AMOUNT {
        return false;
      }
      vault := vault[asset.faucet := total];
      ok := SetPoolState(asset.faucet, w);
    }

    method RemoveAssetFromPool(asset: Asset, w: PoolWord) returns (ok: bool)
      modifies this
      ensures ok <==> PC.RemoveAsset(old(View()), asset, w).Some?
      ensures ok ==> View() == PC.RemoveAsset(old(View()), asset, w).value
    {
      var held := Balance(vault, asset.faucet);
      if asset.amount > held {
        return false;
      }
      vault := vault[asset.faucet := held - asset.amount];
      ok := SetPoolState(asset.faucet, w);
    }

    method Deposit(faucet: AccountId, user: AccountId, lpAmount: Felt) returns (ok: bool)
      modifies this
      ensures ok <==> PC.Deposit(old(View()), faucet, user, lpAmount).Some?
      ensures ok ==> View() == PC.Deposit(old(View()), faucet, user, lpAmount).value
    {
      ok := AddToMapItem(UserKey(faucet, user), lpAmount);
      if ok {
        ok := AddToMapItem(TotalKey(faucet), lpAmount);
      }
    }

    /** The user's entry is debited by a wrapping subtraction that the comparison after it checks. */
    method Withdraw(faucet: AccountId, user: AccountId, lpWithdrawAmount: Felt) returns (ok: bool)
      modifies this
      ensures ok <==> PC.Withdraw(old(View()), faucet, user, lpWithdrawAmount).Some?
      ensures ok ==> View() == PC.Withdraw(old(View()), faucet, user, lpWithdrawAmount).value
    {
      var key := UserKey(faucet, user);
      var oldUserLp := Entry(deposits, key);
      var newUserLp := FSub(oldUserLp, lpWithdrawAmount);
      if newUserLp >= oldUserLp {
        return false;
      }
      SetMapItem(key, newUserLp);
      ok := SubFromMapItem(TotalKey(faucet), lpWithdrawAmount);
    }
  }
}
