/**
 Re-creating a position note after a trade: the in-place loop of `POSITION.masm`, the loop of
 `respawn.masm` that fills the new note, and the Rust twin `respawn_position_note`.
 */
module Positions {
  import opened Wrappers
  import opened Felts
  import opened Assets

  /** What a round of the loop stores for one asset; the bought amount is written after the sold one. */
  function RewriteOne(a: Asset, sell: Asset, buy: Asset): Asset {
    if SameAsset(a, buy) then a.(amount := FAdd(a.amount, buy.amount))
    else if SameAsset(a, sell) then a.(amount := FSub(a.amount, sell.amount))
    else a
  }

  function RewriteAll(assets: seq<Asset>, sell: Asset, buy: Asset): (r: seq<Asset>)
    ensures |r| == |assets|
  {
    seq(|assets|, i requires 0 <= i < |assets| => RewriteOne(assets[i], sell, buy))
  }

  predicate Contains(assets: seq<Asset>, a: Asset) {
    exists i | 0 <= i < |assets| :: SameAsset(assets[i], a)
  }

  function Rewrite(assets: seq<Asset>, sell: Asset, buy: Asset): seq<Asset> {
    RewriteAll(assets, sell, buy) + if Contains(assets, buy) then [] else [buy]
  }

  /** `prepare_assets_for_recreation_of_the_note`: `buf` is the output-asset memory, `count` its entries in use. */
  method PrepareAssets(buf: array<Asset>, count: nat, sell: Asset, buy: Asset) returns (total: nat)
    requires count < buf.Length
    modifies buf
    ensures total <= buf.Length
    ensures buf[..total] == Rewrite(old(buf[..count]), sell, buy)
    ensures buf[total..] == old(buf[total..])
  {
    total := count;
    var pointer := 0;
    var previouslyInNote := false;
    while pointer < count
      invariant pointer <= count
      invariant buf[..pointer] == RewriteAll(old(buf[..pointer]), sell, buy)
      invariant buf[pointer..] == old(buf[pointer..])
      invariant previouslyInNote == Contains(old(buf[..pointer]), buy)
    {
      var current := buf[pointer];
      assert current == old(buf[pointer..])[0];
      if SameAsset(current, sell) {
        buf[pointer] := current.(amount := FSub(current.amount, sell.amount));
      }
      if SameAsset(current, buy) {
        buf[pointer] := current.(amount := FAdd(current.amount, buy.amount));
        previouslyInNote := true;
      }
      assert old(buf[..pointer + 1]) == old(buf[..pointer]) + [current];
      assert buf[..pointer + 1] == buf[..pointer] + [RewriteOne(current, sell, buy)];
      assert buf[pointer + 1..] == old(buf[pointer..])[1..];
      pointer := pointer + 1;
    }
    if !previouslyInNote {
      buf[pointer] := buy;
      assert buf[..pointer + 1] == buf[..pointer] + [buy];
      assert buf[pointer + 1..] == old(buf[pointer..])[1..];
      total := total + 1;
    }
  }

  /** `move_all_assets_to_note`: every asset in the buffer reaches the new note, in order. */
  method MoveAllAssetsToNote(buf: array<Asset>, count: nat) returns (noteAssets: seq<Asset>)
    requires count <= buf.Length
    ensures noteAssets == buf[..count]
  {
    noteAssets := [];
    var pointer := 0;
    while pointer < count
      invariant pointer <= count
      invariant noteAssets == buf[..pointer]
    {
      noteAssets := noteAssets + [buf[pointer]];
      pointer := pointer + 1;
    }
  }

  /** The conditions under which the loop does what a trade means. */
  ghost predicate TradeFits(assets: seq<Asset>, sell: Asset, buy: Asset) {
    && DistinctFaucets(assets)
    && sell.faucet != buy.faucet
    && (forall a | a in assets :: a.faucet == sell.faucet ==> SameAsset(a, sell))
    && (forall a | a in assets :: a.faucet == buy.faucet ==> SameAsset(a, buy))
    && Held(assets, buy.faucet) + buy.amount < P
  }

  lemma HeldOfRewritten(assets: seq<Asset>, sell: Asset, buy: Asset, f: AccountId)
    requires TradeFits(assets, sell, buy)
    requires sell.amount <= Held(assets, sell.faucet)
    ensures Held(RewriteAll(assets, sell, buy), f) ==
            Held(assets, f)
            + (if f == buy.faucet && Contains(assets, buy) then buy.amount else 0)
            - (if f == sell.faucet then sell.amount else 0)
  {
    var out := RewriteAll(assets, sell, buy);
    if i :| 0 <= i < |assets| && assets[i].faucet == f {
      HeldAt(assets, i);
      HeldAt(out, i);
      if f == buy.faucet {
        assert SameAsset(assets[i], buy);
      }
      assert assets[i] in assets;
    } else {
      HeldAbsent(assets, f);
      HeldAbsent(out, f);
    }
  }

  /** `out` is `assets` less the sold amount and more the bought amount, counted per faucet. */
  ghost predicate MovesExactly(assets: seq<Asset>, out: seq<Asset>, sell: Asset, buy: Asset) {
    forall f: AccountId :: MovesOn(assets, out, sell, buy, f)
  }

  predicate MovesOn(assets: seq<Asset>, out: seq<Asset>, sell: Asset, buy: Asset, f: AccountId) {
    Held(out, f) == Held(assets, f) + (if f == buy.faucet then buy.amount else 0)
                    - (if f == sell.faucet then sell.amount else 0)
  }

  /** A trade moves exactly the two amounts, for every faucet, if and only if the note holds the amount sold. */
  lemma RewriteConserves(assets: seq<Asset>, sell: Asset, buy: Asset)
    requires TradeFits(assets, sell, buy)
    ensures MovesExactly(assets, Rewrite(assets, sell, buy), sell, buy) <==> sell.amount <= Held(assets, sell.faucet)
  {
    var out := Rewrite(assets, sell, buy);
    if sell.amount <= Held(assets, sell.faucet) {
      forall f: AccountId
        ensures MovesOn(assets, out, sell, buy, f)
      {
        HeldOfRewritten(assets, sell, buy, f);
        var tail := if Contains(assets, buy) then [] else [buy];
        HeldConcat(RewriteAll(assets, sell, buy), tail, f);
        assert [buy][1..] == [];
      }
    } else {
      assert !MovesOn(assets, out, sell, buy, sell.faucet);
    }
  }

  /**
   Entry by entry: the asset of the bought faucet and callback flag grows, the sold one shrinks, every other stays as
   it is in its place, and what was bought is appended if no entry has both its faucet and its flag.
   */
  lemma RewriteEntry(assets: seq<Asset>, sell: Asset, buy: Asset, i: nat)
    requires i < |assets| && assets[i].amount + buy.amount < P
    requires assets[i].faucet == sell.faucet ==> sell.amount <= assets[i].amount
    ensures var a, out := assets[i], Rewrite(assets, sell, buy);
            && (out == RewriteAll(assets, sell, buy) || out == RewriteAll(assets, sell, buy) + [buy])
            && i < |out| && out[i].faucet == a.faucet && out[i].callbacks == a.callbacks
            && out[i].amount == (if a.faucet == buy.faucet && a.callbacks == buy.callbacks then a.amount + buy.amount
                                 else if a.faucet == sell.faucet && a.callbacks == sell.callbacks then
                                   a.amount - sell.amount
                                 else a.amount)
            && (a.faucet == buy.faucet && a.callbacks == buy.callbacks ==> |out| == |assets|)
    ensures (forall j | 0 <= j < |assets| :: assets[j].faucet != buy.faucet || assets[j].callbacks != buy.callbacks)
            ==> |Rewrite(assets, sell, buy)| == |assets| + 1 && Rewrite(assets, sell, buy)[|assets|] == buy
  {
  }

  datatype RespawnError = AmountBelowZero | AmountAboveMaximum | DuplicateFaucet

  /** One asset of the Rust loop: what it pushes, if anything. */
  function RespawnOne(a: Asset, sold: Asset, bought: Asset): Result<seq<Asset>, RespawnError> {
    if a.faucet == sold.faucet && a.amount < sold.amount then Err(AmountBelowZero)
    else
      var first := if a.faucet == sold.faucet then [Asset(a.faucet, false, a.amount - sold.amount)] else [];
      if a.faucet != bought.faucet then Ok(first)
      else if a.amount + bought.amount > MAX_AMOUNT then Err(AmountAboveMaximum)
      else Ok(first + [Asset(a.faucet, false, a.amount + bought.amount)])
  }

  function RespawnFrom(assets: seq<Asset>, sold: Asset, bought: Asset, acc: seq<Asset>, seen: bool)
    : Result<seq<Asset>, RespawnError>
    decreases |assets|
  {
    if assets == [] then Ok(acc + if seen then [] else [bought])
    else
      match RespawnOne(assets[0], sold, bought)
      case Err(e) => Err(e)
      case Ok(pushed) =>
        RespawnFrom(assets[1..], sold, bought, acc + pushed, seen || assets[0].faucet == bought.faucet)
  }

  /** `NoteAssets::new` refuses two assets of one faucet, which a trade of a held asset against itself makes. */
  function NoteAssets(assets: seq<Asset>): Result<seq<Asset>, RespawnError> {
    if DistinctFaucets(assets) then Ok(assets) else Err(DuplicateFaucet)
  }

  function Respawn(assets: seq<Asset>, sold: Asset, bought: Asset): Result<seq<Asset>, RespawnError> {
    match RespawnFrom(assets, sold, bought, [], false)
    case Err(e) => Err(e)
    case Ok(list) => NoteAssets(list)
  }

  /** The loop of `respawn_position_note`. */
  method RespawnAssets(assets: seq<Asset>, sold: Asset, bought: Asset) returns (r: Result<seq<Asset>, RespawnError>)
    ensures r == Respawn(assets, sold, bought)
  {
    var newNoteAssets: seq<Asset> := [];
    var boughtAssetIsAnOldAsset := false;
    for i := 0 to |assets|
      invariant RespawnFrom(assets[i..], sold, bought, newNoteAssets, boughtAssetIsAnOldAsset)
             == RespawnFrom(assets, sold, bought, [], false)
    {
      var asset := assets[i];
      ghost var before := newNoteAssets;
      assert assets[i..][0] == asset && assets[i..][1..] == assets[i + 1..];
      if asset.faucet == sold.faucet {
        if asset.amount < sold.amount {
          return Err(AmountBelowZero);
        }
        newNoteAssets := newNoteAssets + [Asset(asset.faucet, false, asset.amount - sold.amount)];
      }
      if asset.faucet == bought.faucet {
        if asset.amount + bought.amount > MAX_AMOUNT {
          return Err(AmountAboveMaximum);
        }
        boughtAssetIsAnOldAsset := true;
        newNoteAssets := newNoteAssets + [Asset(asset.faucet, false, asset.amount + bought.amount)];
      }
      assert newNoteAssets == before + RespawnOne(asset, sold, bought).value;
    }
    ghost var pushed := newNoteAssets;
    assert assets[|assets|..] == [];
    if !boughtAssetIsAnOldAsset {
      newNoteAssets := newNoteAssets + [bought];
    }
    assert newNoteAssets == pushed + if boughtAssetIsAnOldAsset then [] else [bought];
    return NoteAssets(newNoteAssets);
  }

  /** Neither callbacks nor amounts above the protocol maximum, and the two traded assets differ. */
  ghost predicate PlainTrade(assets: seq<Asset>, sold: Asset, bought: Asset) {
    && sold.faucet != bought.faucet && !sold.callbacks && !bought.callbacks
    && (forall a | a in assets :: !a.callbacks)
  }

  predicate Traded(a: Asset, sold: Asset, bought: Asset) {
    a.faucet == sold.faucet || a.faucet == bought.faucet
  }

  function CountTraded(assets: seq<Asset>, sold: Asset, bought: Asset): (n: nat)
    ensures n <= |assets|
    ensures n == |assets| <==> forall a | a in assets :: Traded(a, sold, bought)
  {
    if assets == [] then 0
    else
      assert forall a :: a in assets <==> a == assets[0] || a in assets[1..];
      (if Traded(assets[0], sold, bought) then 1 else 0) + CountTraded(assets[1..], sold, bought)
  }

  lemma {:induction false} RespawnFromMeans(assets: seq<Asset>, sold: Asset, bought: Asset, acc: seq<Asset>, seen: bool)
    requires PlainTrade(assets, sold, bought)
    requires RespawnFrom(assets, sold, bought, acc, seen).Ok?
    ensures var out := RespawnFrom(assets, sold, bought, acc, seen).value;
            var tail := if seen || Contains(assets, bought) then [] else [bought];
            && |out| == |acc| + CountTraded(assets, sold, bought) + |tail|
            && ((forall a | a in assets :: Traded(a, sold, bought)) ==>
                  out == acc + RewriteAll(assets, sold, bought) + tail)
    decreases |assets|
  {
    if assets != [] {
      var head, rest := assets[0], assets[1..];
      assert head in assets;
      var pushed := RespawnOne(head, sold, bought).value;
      assert Contains(assets, bought) <==> head.faucet == bought.faucet || Contains(rest, bought) by {
        assert SameAsset(head, bought) <==> head.faucet == bought.faucet;
        assert forall i | 0 <= i < |rest| :: rest[i] == assets[i + 1];
        if Contains(rest, bought) {
          var i :| 0 <= i < |rest| && SameAsset(rest[i], bought);
          assert SameAsset(assets[i + 1], bought);
        }
      }
      RespawnFromMeans(rest, sold, bought, acc + pushed, seen || head.faucet == bought.faucet);
      if Traded(head, sold, bought) {
        assert pushed == [RewriteOne(head, sold, bought)];
        assert RewriteAll(assets, sold, bought) == pushed + RewriteAll(rest, sold, bought);
      }
    }
  }

  /** What the Rust loop accepts leaves room for the amount bought, whatever else the note holds. */
  lemma {:induction false} RespawnHasRoom(assets: seq<Asset>, sold: Asset, bought: Asset, acc: seq<Asset>, seen: bool)
    requires RespawnFrom(assets, sold, bought, acc, seen).Ok?
    ensures forall a | a in assets && a.faucet == bought.faucet :: a.amount + bought.amount <= MAX_AMOUNT
    decreases |assets|
  {
    if assets != [] {
      var pushed := RespawnOne(assets[0], sold, bought).value;
      RespawnHasRoom(assets[1..], sold, bought, acc + pushed, seen || assets[0].faucet == bought.faucet);
      assert forall a | a in assets :: a == assets[0] || a in assets[1..];
    }
  }

  /** One held asset can be carried over by the Rust loop. */
  predicate CarriesOver(a: Asset, sold: Asset, bought: Asset) {
    && (a.faucet == sold.faucet ==> sold.amount <= a.amount)
    && (a.faucet == bought.faucet ==> a.amount + bought.amount <= 0x8000_0000_0000_0000)
  }

  lemma {:induction false} LoopSucceedsExactly(assets: seq<Asset>, sold: Asset, bought: Asset, acc: seq<Asset>,
                                               seen: bool)
    ensures RespawnFrom(assets, sold, bought, acc, seen).Ok? <==> forall a | a in assets :: CarriesOver(a, sold, bought)
    decreases |assets|
  {
    if assets != [] {
      assert forall a :: a in assets <==> a == assets[0] || a in assets[1..];
      var r := RespawnOne(assets[0], sold, bought);
      assert assets[0] in assets && (r.Ok? <==> CarriesOver(assets[0], sold, bought));
      if r.Ok? {
        LoopSucceedsExactly(assets[1..], sold, bought, acc + r.value, seen || assets[0].faucet == bought.faucet);
      }
    }
  }

  /** The Rust loop re-creates a note of distinct faucets exactly if each asset carries over and the trade is none of
      a held asset against itself. */
  lemma RespawnSucceedsExactly(assets: seq<Asset>, sold: Asset, bought: Asset)
    requires DistinctFaucets(assets)
    ensures Respawn(assets, sold, bought).Ok?
            <==> (forall a | a in assets :: CarriesOver(a, sold, bought))
                 && (sold.faucet == bought.faucet ==> forall a | a in assets :: a.faucet != sold.faucet)
  {
    LoopSucceedsExactly(assets, sold, bought, [], false);
    if forall a | a in assets :: CarriesOver(a, sold, bought) {
      LoopHasFaucets(assets, sold, bought, [], false);
    }
  }

  /** What the loop has pushed: nothing twice, unless a held asset is both sold and bought. */
  lemma {:induction false} LoopHasFaucets(assets: seq<Asset>, sold: Asset, bought: Asset, acc: seq<Asset>, seen: bool)
    requires DistinctFaucets(assets) && RespawnFrom(assets, sold, bought, acc, seen).Ok?
    requires DistinctFaucets(acc) && forall a, x | a in assets && x in acc :: a.faucet != x.faucet
    requires !seen ==> forall x | x in acc :: x.faucet != bought.faucet
    ensures DistinctFaucets(RespawnFrom(assets, sold, bought, acc, seen).value)
            <==> (sold.faucet == bought.faucet ==> forall a | a in assets :: a.faucet != sold.faucet)
    decreases |assets|
  {
    if assets != [] {
      var head, rest := assets[0], assets[1..];
      var pushed := RespawnOne(head, sold, bought).value;
      assert forall a | a in rest :: a in assets && a.faucet != head.faucet;
      if |pushed| == 2 {
        var out := RespawnFrom(rest, sold, bought, acc + pushed, true).value;
        LoopKeeps(rest, sold, bought, acc + pushed, true);
        assert out[|acc|] == pushed[0] && out[|acc| + 1] == pushed[1];
      } else {
        LoopHasFaucets(rest, sold, bought, acc + pushed, seen || head.faucet == bought.faucet);
        assert forall a :: a in assets <==> a == head || a in rest;
      }
    }
  }

  lemma {:induction false} LoopKeeps(assets: seq<Asset>, sold: Asset, bought: Asset, acc: seq<Asset>, seen: bool)
    requires RespawnFrom(assets, sold, bought, acc, seen).Ok?
    ensures acc <= RespawnFrom(assets, sold, bought, acc, seen).value
    decreases |assets|
  {
    if assets != [] {
      var pushed := RespawnOne(assets[0], sold, bought).value;
      LoopKeeps(assets[1..], sold, bought, acc + pushed, seen || assets[0].faucet == bought.faucet);
    }
  }

  lemma {:induction false} HeldAtLeast(assets: seq<Asset>, i: nat)
    requires i < |assets|
    ensures Held(assets, assets[i].faucet) >= assets[i].amount
    decreases i
  {
    if i > 0 {
      HeldAtLeast(assets[1..], i - 1);
    }
  }

  /** The rewritten note holds at least what was bought, also when it does not hold what it sells. */
  lemma RewritePays(assets: seq<Asset>, sell: Asset, buy: Asset)
    requires forall a | a in assets && a.faucet == buy.faucet :: a.amount + buy.amount < P
    ensures Held(Rewrite(assets, sell, buy), buy.faucet) >= buy.amount
  {
    var out := Rewrite(assets, sell, buy);
    if i :| 0 <= i < |assets| && SameAsset(assets[i], buy) {
      assert assets[i] in assets && out[i] == assets[i].(amount := assets[i].amount + buy.amount);
      HeldAtLeast(out, i);
    } else {
      assert out[|assets|] == buy;
      HeldAtLeast(out, |assets|);
    }
  }

  /**
   The planner's list is the contract's list exactly when every asset of the note is traded: the Rust loop
   drops every other asset, the contract keeps it.
   */
  lemma RespawnAgreesWithRewrite(assets: seq<Asset>, sold: Asset, bought: Asset)
    requires PlainTrade(assets, sold, bought)
    requires Respawn(assets, sold, bought).Ok?
    ensures Respawn(assets, sold, bought) == Ok(Rewrite(assets, sold, bought))
            <==> forall a | a in assets :: Traded(a, sold, bought)
  {
    RespawnFromMeans(assets, sold, bought, [], false);
    var tail := if Contains(assets, bought) then [] else [bought];
    assert [] + RewriteAll(assets, sold, bought) + tail == Rewrite(assets, sold, bought);
    assert CountTraded(assets, sold, bought) == |assets| <==> forall a | a in assets :: Traded(a, sold, bought);
  }
}
