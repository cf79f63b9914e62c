/** Account identifiers, fungible assets and storage-map keys. */
module Assets {
  import opened Felts

  /** The largest amount of one fungible asset that an account can hold. */
  const MAX_AMOUNT: nat := 0x8000_0000_0000_0000

  datatype AccountId = AccountId(suffix: Felt, prefix: Felt)

  /** The identifier that no account has; used as a key it would alias the total-supply entry. */
  const NO_ACCOUNT: AccountId := AccountId(0, 0)

  datatype Asset = Asset(faucet: AccountId, callbacks: bool, amount: Felt)

  /** Two assets are the same when their faucets and their callback flags agree. */
  predicate SameAsset(a: Asset, b: Asset) {
    a.faucet == b.faucet && a.callbacks == b.callbacks
  }

  /** The total amount of one faucet's asset in a list. */
  function Held(assets: seq<Asset>, f: AccountId): nat {
    if assets == [] then 0
    else (if assets[0].faucet == f then assets[0].amount else 0) + Held(assets[1..], f)
  }

  lemma {:induction false} HeldConcat(a: seq<Asset>, b: seq<Asset>, f: AccountId)
    ensures Held(a + b, f) == Held(a, f) + Held(b, f)
  {
    if a == [] {
      assert a + b == b;
    } else {
      assert (a + b)[1..] == a[1..] + b;
      HeldConcat(a[1..], b, f);
    }
  }

  lemma {:induction false} HeldAbsent(a: seq<Asset>, f: AccountId)
    requires forall x | x in a :: x.faucet != f
    ensures Held(a, f) == 0
  {
    if a != [] {
      HeldAbsent(a[1..], f);
    }
  }

  predicate DistinctFaucets(assets: seq<Asset>) {
    forall i, j | 0 <= i < j < |assets| :: assets[i].faucet != assets[j].faucet
  }

  lemma HeldAt(a: seq<Asset>, i: nat)
    requires i < |a| && DistinctFaucets(a)
    ensures Held(a, a[i].faucet) == a[i].amount
  {
    var f := a[i].faucet;
    assert a == a[..i] + ([a[i]] + a[i + 1..]);
    HeldConcat(a[..i], [a[i]] + a[i + 1..], f);
    HeldAbsent(a[..i], f);
    HeldAbsent(a[i + 1..], f);
  }

  datatype Word = Word(w0: Felt, w1: Felt, w2: Felt, w3: Felt)
}

/**
 The key-derivation procedures of `zoropool.masm`, run on an operand stack whose top is index 0.
 */
module StorageKeys {
  import opened Felts
  import opened Assets

  type Stack = seq<Felt>

  function Push(st: Stack, x: Felt): Stack {
    [x] + st
  }

  function Drop(st: Stack): Stack
    requires |st| >= 1
  {
    st[1..]
  }

  /** `swap.n`: exchanges the top with the element at depth `n`. */
  function SwapTop(st: Stack, n: nat): (r: Stack)
    requires n < |st|
    ensures |r| == |st|
  {
    st[0 := st[n]][n := st[0]]
  }

  function AddressFromAsset(st: Stack): Stack
    requires |st| >= 4
  {
    var st1 := Drop(SwapTop(st, 2));
    Drop(SwapTop(st1, 2))
  }

  function AddressWordFromAsset(st: Stack): Stack
    requires |st| >= 4
  {
    var st1 := Drop(SwapTop(Push(st, 0), 3));
    Drop(SwapTop(Push(st1, 0), 4))
  }

  /** The key of a user's LP shares. */
  function UserKey(faucet: AccountId, user: AccountId): Word {
    Word(faucet.suffix, faucet.prefix, user.suffix, user.prefix)
  }

  /** The key of an asset's total LP supply, in the same map. */
  function TotalKey(faucet: AccountId): Word {
    Word(faucet.suffix, faucet.prefix, 0, 0)
  }

  function TopWord(st: Stack): Word
    requires |st| >= 4
  {
    Word(st[0], st[1], st[2], st[3])
  }

  function AssetWord(asset: Asset): Stack {
    [asset.faucet.suffix, asset.faucet.prefix, if asset.callbacks then 1 else 0, asset.amount]
  }

  /**
   What the stack manipulation computes: the user key when a user identifier lies below the asset, and the
   total-supply key both from an asset and from a user key, which is how `deposit` and `withdraw` reach it.
   */
  lemma DerivedKeys(asset: Asset, user: AccountId, rest: Stack)
    ensures var st := AddressFromAsset(AssetWord(asset) + [user.suffix, user.prefix] + rest);
            TopWord(st) == UserKey(asset.faucet, user) && st[4..] == rest
    ensures var st := AddressWordFromAsset(AssetWord(asset) + rest);
            TopWord(st) == TotalKey(asset.faucet) && st[4..] == rest
    ensures var k := UserKey(asset.faucet, user);
            var st := AddressWordFromAsset([k.w0, k.w1, k.w2, k.w3] + rest);
            TopWord(st) == TotalKey(asset.faucet) && st[4..] == rest
  {
    var k := UserKey(asset.faucet, user);
    TotalKeyStack(asset.faucet.suffix, asset.faucet.prefix, k.w2, k.w3, rest);
    var a := AssetWord(asset);
    TotalKeyStack(a[0], a[1], a[2], a[3], rest);
    assert [a[0], a[1], a[2], a[3]] == a;
    var s, p, u, v := asset.faucet.suffix, asset.faucet.prefix, user.suffix, user.prefix;
    var st := a + [u, v] + rest;
    var st1 := Drop(SwapTop(st, 2));
    assert st1 == [p, s, a[3], u, v] + rest;
    assert AddressFromAsset(st) == [s, p, u, v] + rest;
  }

  lemma TotalKeyStack(s: Felt, p: Felt, x: Felt, y: Felt, rest: Stack)
    ensures AddressWordFromAsset([s, p, x, y] + rest) == [s, p, 0, 0] + rest
  {
    var st := [s, p, x, y] + rest;
    assert Drop(SwapTop(Push(st, 0), 3)) == [s, p, 0, y] + rest;
  }

  /** No two entries of the ledger share a key, except a total supply with the shares of account (0, 0). */
  lemma KeysSeparate(f: AccountId, u: AccountId, g: AccountId, v: AccountId)
    ensures UserKey(f, u) == UserKey(g, v) <==> f == g && u == v
    ensures TotalKey(f) == TotalKey(g) <==> f == g
    ensures UserKey(f, u) == TotalKey(g) <==> f == g && u == NO_ACCOUNT
  {
  }
}
