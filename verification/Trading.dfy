/** One trader in a run of the system: whatever happens between the trades, a path of them creates no value. */
module Trading {
  import opened Curves
  import opened Assets
  import opened LpShares
  import opened IdentitySwaps
  import opened Notes
  import opened Planner
  import opened Refinement
  import opened Runs
  import opened LawfulCurves
  import opened Outcomes

  /** Move `i` of the run executes a swap or a position trade. */
  ghost predicate Trades(moves: seq<Move>, run: seq<System>, i: nat)
    requires IsRun(moves, run)
  {
    && i < |moves| && moves[i].Handle? && TradeOf(moves[i].event.note).Some?
    && Plan(moves[i].event.env, run[i].pools, moves[i].event.note).Ok?
    && Plan(moves[i].event.env, run[i].pools, moves[i].event.note).value.result.SwapSuccess?
  }

  function TradeAt(moves: seq<Move>, i: nat): Trade
    requires i < |moves| && moves[i].Handle? && TradeOf(moves[i].event.note).Some?
  {
    TradeOf(moves[i].event.note).value
  }

  ghost function PaidAt(moves: seq<Move>, run: seq<System>, i: nat): nat
    requires IsRun(moves, run) && Trades(moves, run, i)
  {
    Plan(moves[i].event.env, run[i].pools, moves[i].event.note).value.result.amount
  }

  /** The oracle's prices do not move during the run, and its quotients are fair. */
  ghost predicate PricedBy(m: Move, curves: CurveFamily, prices: map<AccountId, nat>) {
    m.Handle? ==> && m.event.env.curves == curves && m.event.env.prices == prices
                  && PricesBounded(m.event.env) && FairOracle(m.event.env)
  }

  /** A run from deployment under the identity curve. */
  ghost predicate FairRun(curves: CurveFamily, prices: map<AccountId, nat>, moves: seq<Move>, run: seq<System>) {
    && IsIdentityFamily(curves) && IsRun(moves, run) && EmptyPools(run[0].pools)
    && (forall i | 0 <= i < |run| :: Fits(run[i]))
    && (forall m | m in moves :: PricedBy(m, curves, prices))
    && ((forall m | m in moves :: Asks(m)) || AllFeesSane(run[0].pools))
    && (forall i | 0 <= i < |moves| :: moves[i].Reload? ==> Agree(run[i]))
  }

  /** Some of the trades of the run, in order, each spending no more than the one before it was paid. */
  ghost predicate IsChain(moves: seq<Move>, run: seq<System>, legs: seq<nat>)
    requires IsRun(moves, run)
  {
    && legs != []
    && (forall k | 0 <= k < |legs| :: Trades(moves, run, legs[k]))
    && (forall k | 0 < k < |legs| :: legs[k - 1] < legs[k] && Continues(moves, run, legs[k - 1], legs[k]))
  }

  ghost predicate Continues(moves: seq<Move>, run: seq<System>, i: nat, j: nat)
    requires IsRun(moves, run) && Trades(moves, run, i) && Trades(moves, run, j)
  {
    && TradeAt(moves, j).sell.faucet == TradeAt(moves, i).buy.faucet
    && TradeAt(moves, j).sell.amount <= PaidAt(moves, run, i)
  }

  /** At every moment of such a run the pools are at par and keep the decimals they were deployed with. */
  lemma ParThroughout(curves: CurveFamily, prices: map<AccountId, nat>, moves: seq<Move>, run: seq<System>, i: nat)
    requires FairRun(curves, prices, moves, run) && i < |run|
    ensures SameMetadata(run[0].pools, run[i].pools)
    ensures forall f | f in run[i].pools :: AtPar(run[i].pools[f])
  {
    var before := moves[..i];
    assert forall m | m in before :: m in moves;
    assert forall m | m in before :: PricedBy(m, curves, prices) && Uses(m, curves);
    IdentityIsLawful(curves);
    RunKeepsMetadata(before, run[..i + 1]);
    RunStaysOnPsi(curves, before, run[..i + 1]);
    forall f | f in run[i].pools
      ensures AtPar(run[i].pools[f])
    {
      assert OnPsi(curves, run[i].pools[f]);
      OnPsiOfIdentity(curves, run[i].pools[f]);
    }
  }

  /** What a trade sells and what it is paid, valued at the oracle's prices. */
  ghost predicate ValueKept(prices: map<AccountId, nat>, pools: Pools, sold: Asset, bought: AccountId, paid: nat) {
    && sold.faucet in pools && bought in pools && sold.faucet in prices && bought in prices
    && NoValueCreated(sold.amount, prices[sold.faucet], pools[sold.faucet].decimals,
                      paid, prices[bought], pools[bought].decimals)
  }

  lemma LegCreatesNoValue(curves: CurveFamily, prices: map<AccountId, nat>, moves: seq<Move>, run: seq<System>, i: nat)
    requires FairRun(curves, prices, moves, run) && Trades(moves, run, i)
    ensures ValueKept(prices, run[0].pools, TradeAt(moves, i).sell, TradeAt(moves, i).buy.faucet, PaidAt(moves, run, i))
  {
    ParThroughout(curves, prices, moves, run, i);
    assert moves[i] in moves && PricedBy(moves[i], curves, prices) && Fits(run[i]);
    var e := moves[i].event;
    TradeCreatesNoValue(e.env, run[i].pools, e.note);
  }

  /** No chain of trades in any run pays out more value than its first trade took in. */
  lemma {:induction false} ChainCreatesNoValue(curves: CurveFamily, prices: map<AccountId, nat>, moves: seq<Move>,
                                               run: seq<System>, legs: seq<nat>)
    requires FairRun(curves, prices, moves, run) && IsChain(moves, run, legs)
    ensures var first, last := legs[0], legs[|legs| - 1];
            ValueKept(prices, run[0].pools, TradeAt(moves, first).sell, TradeAt(moves, last).buy.faucet,
                      PaidAt(moves, run, last))
    decreases |legs|
  {
    var n := |legs| - 1;
    LegCreatesNoValue(curves, prices, moves, run, legs[n]);
    if n > 0 {
      ChainCreatesNoValue(curves, prices, moves, run, legs[..n]);
      var first, last, link := TradeAt(moves, legs[0]), TradeAt(moves, legs[n]), TradeAt(moves, legs[n]).sell;
      assert Continues(moves, run, legs[n - 1], legs[n]);
      var pools := run[0].pools;
      NoValueTransitive(
        first.sell.amount, prices[first.sell.faucet], pools[first.sell.faucet].decimals,
        PaidAt(moves, run, legs[n - 1]), link.amount, prices[link.faucet], pools[link.faucet].decimals,
        PaidAt(moves, run, legs[n]), prices[last.buy.faucet], pools[last.buy.faucet].decimals);
    }
  }

  /** No round trip through any pools, with any other notes in between, returns more than went in. */
  lemma NoProfitInRun(curves: CurveFamily, prices: map<AccountId, nat>, moves: seq<Move>, run: seq<System>,
                      legs: seq<nat>)
    requires FairRun(curves, prices, moves, run) && IsChain(moves, run, legs)
    requires var f := TradeAt(moves, legs[0]).sell.faucet;
             TradeAt(moves, legs[|legs| - 1]).buy.faucet == f && (f in prices ==> prices[f] > 0)
    ensures PaidAt(moves, run, legs[|legs| - 1]) <= TradeAt(moves, legs[0]).sell.amount
  {
    ChainCreatesNoValue(curves, prices, moves, run, legs);
    var sell := TradeAt(moves, legs[0]).sell;
    NoProfitInOneAsset(sell.amount, PaidAt(moves, run, legs[|legs| - 1]), prices[sell.faucet],
                       run[0].pools[sell.faucet].decimals);
  }
}
