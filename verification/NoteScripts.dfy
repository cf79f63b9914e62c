/** The note scripts DEPOSIT, WITHDRAW, ZOROSWAP and POSITION, and a transaction that runs them in order. */
module NoteScripts {
  import opened Wrappers
  import opened Felts
  import opened Assets
  import PC = PoolContract
  import opened PoolContract
  import opened PoolAccounts
  import opened Notes
  import opened Positions

  const MAX_NOTE_ASSETS: nat := 32

  /** The asset that a script sends out: the requested one with the amount of the arguments. */
  function AssetOut(requested: Asset, amount: Felt): Asset {
    requested.(amount := amount)
  }

  function RunDeposit(s: State, c: ScriptCall): Option<State> {
    if |c.note.assets| != 1 then None
    else if c.amount < c.note.amountInput then Some(s)
    else
      match PC.ReceiveAsset(s, c.note.assets[0], c.pool0)
      case None => None
      case Some(t) => PC.Deposit(t, c.note.assets[0].faucet, c.note.beneficiary, c.amount)
  }

  function RunWithdraw(s: State, c: ScriptCall): Option<State> {
    if c.note.assetInput.None? then None
    else
      var requested := c.note.assetInput.value;
      match PC.Withdraw(s, requested.faucet, c.note.beneficiary, c.note.amountInput)
      case None => None
      case Some(t) => PC.RemoveAsset(t, AssetOut(requested, c.amount), c.pool0)
  }

  /** One asset into the pool and one out of it, each with its own new pool state. */
  function Exchange(s: State, sell: Asset, pool0: PoolWord, bought: Asset, pool1: PoolWord): Option<State> {
    match PC.ReceiveAsset(s, sell, pool0)
    case None => None
    case Some(t) => PC.RemoveAsset(t, bought, pool1)
  }

  function RunSwap(s: State, c: ScriptCall): Option<State> {
    if |c.note.assets| != 1 || c.note.assetInput.None? then None
    else
      var requested := c.note.assetInput.value;
      if c.amount < requested.amount then Some(s)
      else Exchange(s, c.note.assets[0], c.pool0, AssetOut(requested, c.amount), c.pool1)
  }

  function RunPosition(s: State, c: ScriptCall): Option<State> {
    if |c.note.assets| > MAX_NOTE_ASSETS || c.note.trade.None? then None
    else
      var Trade(sell, buy) := c.note.trade.value;
      if c.amount < buy.amount then Some(s)
      else Exchange(s, sell, c.pool0, AssetOut(buy, c.amount), c.pool1)
  }

  function RunScript(s: State, c: ScriptCall): Option<State> {
    match c.note.kind
    case DepositNote => RunDeposit(s, c)
    case WithdrawNote => RunWithdraw(s, c)
    case SwapNote => RunSwap(s, c)
    case PositionNote => RunPosition(s, c)
    case P2ID => None
  }

  /** The assets that the notes created by a successful script carry. */
  function Outputs(c: ScriptCall): seq<Asset> {
    var n := c.note;
    match n.kind
    case DepositNote => if c.amount < n.amountInput then n.assets else []
    case WithdrawNote => if n.assetInput.Some? then [AssetOut(n.assetInput.value, c.amount)] else []
    case SwapNote =>
      if n.assetInput.None? || c.amount < n.assetInput.value.amount then n.assets
      else [AssetOut(n.assetInput.value, c.amount)]
    case PositionNote =>
      if n.trade.None? || c.amount < n.trade.value.buy.amount then n.assets
      else Rewrite(n.assets, n.trade.value.sell, AssetOut(n.trade.value.buy, c.amount))
    case P2ID => n.assets
  }

  function RunScripts(s: State, calls: seq<ScriptCall>): Option<State> {
    if calls == [] then Some(s)
    else
      match RunScripts(s, calls[..|calls| - 1])
      case None => None
      case Some(t) => RunScript(t, calls[|calls| - 1])
  }

  /** What a script demands of its note before it does anything. */
  lemma AcceptedShape(s: State, c: ScriptCall)
    requires RunScript(s, c).Some?
    ensures c.note.kind.DepositNote? || c.note.kind.SwapNote? ==> |c.note.assets| == 1
    ensures c.note.kind.WithdrawNote? || c.note.kind.SwapNote? ==> c.note.assetInput.Some?
    ensures c.note.kind.PositionNote? ==> |c.note.assets| <= 32 && c.note.trade.Some?
    ensures !c.note.kind.P2ID?
  {
  }

  method ExecuteDeposit(account: PoolAccount, c: ScriptCall) returns (ok: bool, output: seq<Asset>)
    modifies account
    ensures ok <==> RunDeposit(old(account.View()), c).Some?
    ensures ok ==> account.View() == RunDeposit(old(account.View()), c).value
    ensures ok && c.note.kind.DepositNote? ==> output == Outputs(c)
  {
    output := [];
    if |c.note.assets| != 1 {
      return false, [];
    }
    var assetIn := c.note.assets[0];
    if c.amount < c.note.amountInput {
      assert c.note.assets == [assetIn];
      return true, [assetIn];
    }
    ok := account.ReceiveAsset(assetIn, c.pool0);
    if ok {
      ok := account.Deposit(assetIn.faucet, c.note.beneficiary, c.amount);
    }
  }

  method ExecuteWithdraw(account: PoolAccount, c: ScriptCall) returns (ok: bool, output: seq<Asset>)
    modifies account
    ensures ok <==> RunWithdraw(old(account.View()), c).Some?
    ensures ok ==> account.View() == RunWithdraw(old(account.View()), c).value
    ensures ok && c.note.kind.WithdrawNote? ==> output == Outputs(c)
  {
    output := [];
    if c.note.assetInput.None? {
      return false, [];
    }
    var requested := c.note.assetInput.value;
    ok := account.Withdraw(requested.faucet, c.note.beneficiary, c.note.amountInput);
    if ok {
      var actual := AssetOut(requested, c.amount);
      ok := account.RemoveAssetFromPool(actual, c.pool0);
      output := [actual];
    }
  }

  method ExecuteZoroswap(account: PoolAccount, c: ScriptCall) returns (ok: bool, output: seq<Asset>)
    modifies account
    ensures ok <==> RunSwap(old(account.View()), c).Some?
    ensures ok ==> account.View() == RunSwap(old(account.View()), c).value
    ensures ok && c.note.kind.SwapNote? ==> output == Outputs(c)
  {
    output := [];
    if |c.note.assets| != 1 || c.note.assetInput.None? {
      return false, [];
    }
    var assetIn, requested := c.note.assets[0], c.note.assetInput.value;
    if c.amount < requested.amount {
      assert c.note.assets == [assetIn];
      return true, [assetIn];
    }
    var actual := AssetOut(requested, c.amount);
    ok := account.ReceiveAsset(assetIn, c.pool0);
    if ok {
      ok := account.RemoveAssetFromPool(actual, c.pool1);
      output := [actual];
    }
  }

  method ExecutePosition(account: PoolAccount, c: ScriptCall) returns (ok: bool, output: seq<Asset>)
    modifies account
    ensures ok <==> RunPosition(old(account.View()), c).Some?
    ensures ok ==> account.View() == RunPosition(old(account.View()), c).value
    ensures ok && c.note.kind.PositionNote? ==> output == Outputs(c)
  {
    output := [];
    if |c.note.assets| > MAX_NOTE_ASSETS || c.note.trade.None? {
      return false, [];
    }
    var Trade(sell, buy) := c.note.trade.value;
    var n := |c.note.assets|;
    var buf := new Asset[n + 1](i requires 0 <= i <= n => if i < n then c.note.assets[i] else buy);
    assert buf[..n] == c.note.assets;
    if c.amount < buy.amount {
      output := MoveAllAssetsToNote(buf, n);
      return true, output;
    }
    var bought := AssetOut(buy, c.amount);
    ok := account.ReceiveAsset(sell, c.pool0);
    if ok {
      ok := account.RemoveAssetFromPool(bought, c.pool1);
      if ok {
        var total := PrepareAssets(buf, n, sell, bought);
        output := MoveAllAssetsToNote(buf, total);
      }
    }
  }

  method ExecuteScript(account: PoolAccount, c: ScriptCall) returns (ok: bool, output: seq<Asset>)
    modifies account
    ensures ok <==> RunScript(old(account.View()), c).Some?
    ensures ok ==> account.View() == RunScript(old(account.View()), c).value
    ensures ok ==> output == Outputs(c)
  {
    match c.note.kind
    case DepositNote => ok, output := ExecuteDeposit(account, c);
    case WithdrawNote => ok, output := ExecuteWithdraw(account, c);
    case SwapNote => ok, output := ExecuteZoroswap(account, c);
    case PositionNote => ok, output := ExecutePosition(account, c);
    case P2ID => ok, output := false, [];
  }

  /** A transaction: every script succeeds, or the account is as it was before. */
  method ExecuteTransaction(account: PoolAccount, calls: seq<ScriptCall>) returns (ok: bool)
    modifies account
    ensures ok <==> RunScripts(old(account.View()), calls).Some?
    ensures account.View() == if ok then RunScripts(old(account.View()), calls).value else old(account.View())
  {
    var pools, deposits, vault := account.pools, account.deposits, account.vault;
    for i := 0 to |calls|
      invariant RunScripts(old(account.View()), calls[..i]) == Some(account.View())
    {
      var output;
      ok, output := ExecuteScript(account, calls[i]);
      assert calls[..i + 1][..i] == calls[..i];
      if !ok {
        account.pools, account.deposits, account.vault := pools, deposits, vault;
        RunScriptsPrefix(old(account.View()), calls, i + 1);
        return false;
      }
    }
    assert calls[..|calls|] == calls;
    return true;
  }

  /** A transaction that runs to the end ran every prefix. */
  lemma {:induction false} RunScriptsPrefix(s: State, calls: seq<ScriptCall>, n: nat)
    requires n <= |calls|
    ensures RunScripts(s, calls[..n]).None? ==> RunScripts(s, calls).None?
    decreases |calls|
  {
    if n < |calls| {
      var init := calls[..|calls| - 1];
      assert init[..n] == calls[..n];
      RunScriptsPrefix(s, init, n);
    } else {
      assert calls[..n] == calls;
    }
  }
}
