/** The value of LP shares under every curve: dilution, splitting, and the deposit-redeem round trip. */
module LpShares {
  import opened Arithmetic
  import opened Curves
  import opened Felts
  import opened PoolStates

  /** Liabilities per LP token do not fall from `s` to `t`. */
  predicate NotDiluted(s: PoolState, t: PoolState) {
    t.balances.liabilities * s.lpTotalSupply >= s.balances.liabilities * t.lpTotalSupply
  }

  function AfterDeposit(curves: CurveFamily, s: PoolState, amount: nat): PoolState {
    var q := GetDepositLpAmountOut(curves, s, amount);
    s.UpdateState(q.balances, q.lpTotalSupply)
  }

  function AfterWithdraw(curves: CurveFamily, s: PoolState, lp: nat): PoolState {
    var q := GetWithdrawAssetAmountOut(curves, s, lp);
    s.UpdateState(q.balances, q.lpTotalSupply)
  }

  lemma DepositNotDiluting(curves: CurveFamily, s: PoolState, amount: nat)
    ensures NotDiluted(s, AfterDeposit(curves, s, amount))
  {
    var l, supply := s.balances.liabilities, s.lpTotalSupply;
    var inc := DepositIncrement(curves, s, amount);
    var q := GetDepositLpAmountOut(curves, s, amount);
    if l > 0 {
      MulDivBounds(inc, supply, l);
      MediantRises(l, supply, inc, q.amount);
      MulMonotone(q.lpTotalSupply, supply + q.amount, l);
    }
  }

  /** A wrapped difference never fits 64 bits, so the conversions of `to_lp_note_args` rule it out. */
  lemma WithdrawWithinPool(curves: CurveFamily, s: PoolState, lp: nat)
    requires FitsU64(s.balances) && lp <= U64_MAX
    requires FitsU64(GetWithdrawAssetAmountOut(curves, s, lp).balances)
    ensures WithdrawDecrement(s, lp) <= s.balances.liabilities
    ensures WithdrawDecrement(s, lp) <= s.balances.reserve
  {
    ProductBelow(lp, s.balances.liabilities);
    AssetsForBelowProduct(s.balances.liabilities, s.lpTotalSupply, lp);
  }

  lemma AssetsForBelowProduct(l: nat, s: nat, lp: nat)
    ensures AssetsFor(l, s, lp) <= lp * l
  {
    if s > 0 {
      MulMonotone(1, s, lp * l);
      MulDivAtMost(lp * l, lp, l, s);
    }
  }

  lemma ProductBelow(a: nat, b: nat)
    requires a <= U64_MAX && b <= U64_MAX
    ensures a * b < TWO_255
  {
    MulMonotone(b, U64_MAX, a);
  }

  lemma WithdrawNotDiluting(curves: CurveFamily, s: PoolState, lp: nat)
    requires WithdrawDecrement(s, lp) <= s.balances.liabilities
    ensures NotDiluted(s, AfterWithdraw(curves, s, lp))
  {
    var l, supply := s.balances.liabilities, s.lpTotalSupply;
    var dec := WithdrawDecrement(s, lp);
    if supply > 0 && lp < supply {
      MulDivBounds(lp, l, supply);
      MediantFalls(l, supply, dec, lp);
    } else {
      MulMonotone(0, l - dec, supply);
    }
  }

  lemma SwapNotDiluting(curves: CurveFamily, base: PoolState, quote: PoolState, amountIn: nat, price: nat)
    requires GetCurveAmountOut(curves, base, quote, amountIn, price).Ok?
    ensures var q := GetCurveAmountOut(curves, base, quote, amountIn, price).value;
            NotDiluted(base, base.UpdateBalances(q.base)) && NotDiluted(quote, quote.UpdateBalances(q.quote))
  {
    var q := GetCurveAmountOut(curves, base, quote, amountIn, price).value;
    MulMonotone(quote.balances.liabilities, q.quote.liabilities, quote.lpTotalSupply);
  }

  lemma NotDilutedTransitive(s: PoolState, t: PoolState, u: PoolState)
    requires NotDiluted(s, t) && NotDiluted(t, u) && t.lpTotalSupply > 0
    ensures NotDiluted(s, u)
  {
    CrossTransitive(
      s.balances.liabilities, s.lpTotalSupply,
      t.balances.liabilities, t.lpTotalSupply,
      u.balances.liabilities, u.lpTotalSupply);
  }

  /** The 64-bit supply counter does not saturate, or only with few enough tokens minted. */
  predicate CountsDeposit(curves: CurveFamily, s: PoolState, amount: nat) {
    var lp, inc := GetDepositLpAmountOut(curves, s, amount).amount, DepositIncrement(curves, s, amount);
    s.lpTotalSupply + lp <= U64_MAX || lp * (s.balances.liabilities + inc) < (inc + 1) * U64_MAX
  }

  /**
   Redeeming exactly the LP tokens that the planner counts for a deposit never takes out more than it put in, except
   when the supply counter saturates above a bound on the tokens minted. There it always does.
   */
  lemma RoundTrip(curves: CurveFamily, s: PoolState, amount: nat)
    ensures var q := GetDepositLpAmountOut(curves, s, amount);
            var inc := DepositIncrement(curves, s, amount);
            var t := AfterDeposit(curves, s, amount);
            && GetWithdrawAssetAmountOut(curves, t, q.amount).amount <= WithdrawDecrement(t, q.amount)
            && (WithdrawDecrement(t, q.amount) <= inc <==> CountsDeposit(curves, s, amount))
  {
    var l, inc := s.balances.liabilities, DepositIncrement(curves, s, amount);
    var lp := GetDepositLpAmountOut(curves, s, amount).amount;
    RoundTripStep(l, s.lpTotalSupply, inc);
    if s.lpTotalSupply + lp > U64_MAX {
      QuotientAtMost(inc, lp, l + inc, U64_MAX);
    }
  }

  lemma QuotientAtMost(k: nat, a: nat, b: nat, c: nat)
    requires c > 0
    ensures MulDiv(a, b, c) <= k <==> a * b < (k + 1) * c
  {
    MulDivBounds(a, b, c);
    if MulDiv(a, b, c) <= k {
      MulMonotone(MulDiv(a, b, c) + 1, k + 1, c);
    } else {
      MulMonotone(k + 1, MulDiv(a, b, c), c);
    }
  }

  lemma RoundTripStep(l: nat, s: nat, inc: nat)
    ensures var lp := LpFor(l, s, inc); AssetsFor(l + inc, s + lp, lp) <= inc
  {
    var lp := LpFor(l, s, inc);
    if s + lp > 0 {
      if l > 0 {
        MulDivBounds(inc, s, l);
      }
      MediantRisesBoth(l, s, inc, lp);
      MulDivAtMost(inc, lp, l + inc, s + lp);
    }
  }

  lemma MediantRisesBoth(l: nat, s: nat, inc: nat, lp: nat)
    requires lp * l <= inc * s
    ensures lp * (l + inc) <= inc * (s + lp)
  {
    assert lp * (l + inc) == lp * l + lp * inc;
    assert inc * (s + lp) == inc * s + inc * lp;
  }

  /** The bound does fail: a concrete pool with a saturated supply counter. */
  lemma RoundTripSaturated(curves: CurveFamily, settings: PoolSettings)
    requires IsIdentityFamily(curves)
    ensures var s := PoolState(settings, PoolBalances(1, 1, 1), U64_MAX, 6);
            var q := GetDepositLpAmountOut(curves, s, 1);
            WithdrawDecrement(AfterDeposit(curves, s, 1), q.amount) > DepositIncrement(curves, s, 1)
  {
    var s := PoolState(settings, PoolBalances(1, 1, 1), U64_MAX, 6);
    assert IsIdentity(s.Curve(curves));
    RoundTrip(curves, s, 1);
  }

  /** Under the identity curve the round trip loses less than one unit of share value, rounded twice. */
  lemma RoundTripBounds(curves: CurveFamily, s: PoolState, amount: nat)
    requires IsIdentityFamily(curves) && s.balances.reserve == s.balances.reserveWithSlippage
    requires s.balances.liabilities > 0 && s.lpTotalSupply > 0
    requires CountsDeposit(curves, s, amount)
    ensures var lp := GetDepositLpAmountOut(curves, s, amount).amount;
            var payout := GetWithdrawAssetAmountOut(curves, AfterDeposit(curves, s, amount), lp).amount;
            payout <= amount
            && (amount - payout) * (s.lpTotalSupply + lp) < s.balances.liabilities + s.lpTotalSupply + lp
  {
    var l, supply := s.balances.liabilities, s.lpTotalSupply;
    var t := AfterDeposit(curves, s, amount);
    assert IsIdentity(s.Curve(curves));
    var lp := GetDepositLpAmountOut(curves, s, amount).amount;
    RoundTrip(curves, s, amount);
    var dec := WithdrawDecrement(t, lp);
    assert DepositIncrement(curves, s, amount) == amount && dec <= amount;
    assert GetWithdrawAssetAmountOut(curves, t, lp).amount == dec;
    MulDivBounds(amount, supply, l);
    MulDivBounds(lp, l + amount, t.lpTotalSupply);
    MulMonotone(t.lpTotalSupply, supply + lp, dec + 1);
    RoundTripArithmetic(l, supply, amount, lp, dec);
  }

  /**
   The contract credits the amount deposited where the planner counts the tokens minted. Redeeming the credited
   shares takes out no more than was put in under every curve exactly within this bound.
   */
  lemma CreditedRoundTrip(curves: CurveFamily, s: PoolState, amount: nat)
    ensures var inc := DepositIncrement(curves, s, amount);
            var t := AfterDeposit(curves, s, amount);
            WithdrawDecrement(t, amount) <= inc
            <==> t.lpTotalSupply == 0
                 || amount * (s.balances.liabilities + inc) < (inc + 1) * t.lpTotalSupply
  {
    var inc, t := DepositIncrement(curves, s, amount), AfterDeposit(curves, s, amount);
    if t.lpTotalSupply > 0 {
      QuotientAtMost(inc, amount, t.balances.liabilities, t.lpTotalSupply);
    }
  }

  ghost predicate CreditNeverOverpays(curves: CurveFamily, s: PoolState) {
    forall d: nat | s.lpTotalSupply + GetDepositLpAmountOut(curves, s, d).amount <= U64_MAX ::
      WithdrawDecrement(AfterDeposit(curves, s, d), d) <= d
  }

  /** Under the identity curve no deposit gains by this exactly when every LP token stands for one unit. */
  lemma CreditOverpaysExactly(curves: CurveFamily, s: PoolState)
    requires IsIdentityFamily(curves) && AtPar(s)
    requires 0 < s.lpTotalSupply <= s.balances.liabilities && 2 * s.lpTotalSupply <= U64_MAX
    ensures CreditNeverOverpays(curves, s) <==> s.lpTotalSupply == s.balances.liabilities
  {
    var l, supply := s.balances.liabilities, s.lpTotalSupply;
    if supply == l {
      forall d: nat | supply + GetDepositLpAmountOut(curves, s, d).amount <= U64_MAX
        ensures WithdrawDecrement(AfterDeposit(curves, s, d), d) <= d
      {
        DepositAtPar(curves, s, d);
        MulDivAtLeast(d, d, l, l);
        MulDivAtMost(d, d, l, l);
        CreditedRoundTrip(curves, s, d);
        assert d * (l + d) + (l + d) == (d + 1) * (l + d);
      }
    } else {
      DepositAtPar(curves, s, supply);
      var lp := LpFor(l, supply, supply);
      MulMonotone(supply, l, supply);
      MulDivAtMost(supply, supply, supply, l);
      MulDivBounds(supply, supply, l);
      CreditedRoundTrip(curves, s, supply);
      DoublingOverpays(l, supply, lp);
    }
  }

  /** Depositing as many units as there are tokens, where a token is worth more than a unit. */
  lemma DoublingOverpays(l: nat, s: nat, lp: nat)
    requires 0 < s < l && lp * l <= s * s
    ensures s * (l + s) >= (s + 1) * (s + lp)
  {
    MulMonotone(s + 1, l, s + lp);
    assert l * (s + lp) == l * s + lp * l;
    assert s * (l + s) == l * s + s * s;
  }

  lemma RoundTripArithmetic(l: nat, s: nat, d: nat, lp: nat, dec: nat)
    requires d * s < lp * l + l
    requires lp * (l + d) < dec * (s + lp) + (s + lp)
    ensures (d - dec) * (s + lp) < l + s + lp
  {
    assert lp * (l + d) == lp * l + d * lp;
    assert (d - dec) * (s + lp) == d * s + d * lp - dec * (s + lp);
  }

  function Sum(xs: seq<nat>): nat {
    if xs == [] then 0 else Sum(xs[..|xs| - 1]) + xs[|xs| - 1]
  }

  /** The pool after a series of deposits, and the LP tokens minted on the way. */
  function DepositSeries(curves: CurveFamily, s: PoolState, ds: seq<nat>): (PoolState, nat) {
    if ds == [] then (s, 0)
    else
      var (t, minted) := DepositSeries(curves, s, ds[..|ds| - 1]);
      var d := ds[|ds| - 1];
      (AfterDeposit(curves, t, d), minted + GetDepositLpAmountOut(curves, t, d).amount)
  }

  /** The pool after a series of redemptions, the total by which its reserve fell, and the total paid out. */
  function WithdrawSeries(curves: CurveFamily, s: PoolState, ws: seq<nat>): (PoolState, nat, nat) {
    if ws == [] then (s, 0, 0)
    else
      var (t, taken, paid) := WithdrawSeries(curves, s, ws[..|ws| - 1]);
      var w := ws[|ws| - 1];
      (AfterWithdraw(curves, t, w),
       taken + WithdrawDecrement(t, w),
       paid + GetWithdrawAssetAmountOut(curves, t, w).amount)
  }

  ghost predicate AtPar(s: PoolState) {
    s.balances.reserve == s.balances.reserveWithSlippage
  }

  lemma DepositAtPar(curves: CurveFamily, s: PoolState, d: nat)
    requires IsIdentityFamily(curves) && AtPar(s)
    ensures DepositIncrement(curves, s, d) == d
    ensures AtPar(AfterDeposit(curves, s, d))
  {
    assert IsIdentity(s.Curve(curves));
  }

  lemma LpForMonotone(l: nat, s: nat, t: nat, a: nat)
    requires s <= t
    ensures LpFor(l, s, a) <= LpFor(l, t, a)
  {
    if l > 0 {
      MulDivBounds(a, s, l);
      MulMonotone(s, t, a);
      MulDivAtLeast(MulDiv(a, s, l), a, t, l);
    }
  }

  /** One more deposit on top of a series that minted no more than the sum deposited at once. */
  lemma DepositSplitStep(l: nat, s: nat, before: nat, minted: nat, d: nat)
    requires l > 0 || s == 0
    requires minted <= LpFor(l, s, before)
    ensures minted + LpFor(l + before, s + minted, d) <= LpFor(l, s, before + d)
  {
    if l > 0 {
      MulDivBounds(before, s, l);
      MulMonotone(minted, MulDiv(before, s, l), l);
      var lp := LpFor(l + before, s + minted, d);
      MulDivBounds(d, s + minted, l + before);
      SplitArithmetic(l, s, before, minted, d, lp);
      MulDivAtLeast(minted + lp, before + d, s, l);
    } else if before > 0 {
      MulMonotone(minted, before, d);
      MulDivAtMost(d, d, minted, before);
    }
  }

  lemma SplitArithmetic(l: nat, s: nat, before: nat, minted: nat, d: nat, lp: nat)
    requires l > 0
    requires minted * l <= before * s
    requires lp * (l + before) <= d * (s + minted)
    ensures (minted + lp) * l <= (before + d) * s
  {
    if s + minted == 0 {
      CancelFactor(lp, 0, l + before);
    } else {
      MediantRises(l, s, before, minted);
      MediantRises(l + before, s + minted, d, lp);
      CrossTransitive(l, s, l + before, s + minted, l + before + d, s + minted + lp);
      assert (l + before + d) * s == l * s + (before + d) * s;
      assert l * (s + minted + lp) == l * s + (minted + lp) * l;
    }
  }

  /** The supply may stay behind the tokens minted when its counter saturates, which only lowers later mints. */
  lemma {:induction false} DepositSeriesState(curves: CurveFamily, s: PoolState, ds: seq<nat>)
    requires IsIdentityFamily(curves) && AtPar(s)
    requires s.balances.liabilities > 0 || s.lpTotalSupply == 0
    ensures var (t, minted) := DepositSeries(curves, s, ds);
            && AtPar(t)
            && t.balances.liabilities == s.balances.liabilities + Sum(ds)
            && t.lpTotalSupply <= s.lpTotalSupply + minted
            && minted <= LpFor(s.balances.liabilities, s.lpTotalSupply, Sum(ds))
  {
    if ds != [] {
      var l, supply := s.balances.liabilities, s.lpTotalSupply;
      var init, d := ds[..|ds| - 1], ds[|ds| - 1];
      DepositSeriesState(curves, s, init);
      var (t, minted) := DepositSeries(curves, s, init);
      DepositAtPar(curves, t, d);
      LpForMonotone(t.balances.liabilities, t.lpTotalSupply, supply + minted, d);
      DepositSplitStep(l, supply, Sum(init), minted, d);
    }
  }

  ghost predicate SplittingNeverPays(curves: CurveFamily, s: PoolState) {
    forall ds: seq<nat> :: DepositSeries(curves, s, ds).1 <= GetDepositLpAmountOut(curves, s, Sum(ds)).amount
  }

  /**
   Splitting a deposit into any series never mints more LP tokens than depositing the sum at once, in exactly the
   pools whose LP tokens, if any, stand for some liabilities.
   */
  lemma SplitDeposit(curves: CurveFamily, s: PoolState)
    requires IsIdentityFamily(curves) && AtPar(s)
    ensures SplittingNeverPays(curves, s) <==> s.balances.liabilities > 0 || s.lpTotalSupply == 0
  {
    if s.balances.liabilities > 0 || s.lpTotalSupply == 0 {
      forall ds: seq<nat>
        ensures DepositSeries(curves, s, ds).1 <= GetDepositLpAmountOut(curves, s, Sum(ds)).amount
      {
        DepositAtPar(curves, s, Sum(ds));
        DepositSeriesState(curves, s, ds);
      }
    } else {
      SplitDepositOrphanedSupply(curves, s);
    }
  }

  /** Pools with LP tokens but without liabilities do reward a split deposit. */
  lemma SplitDepositOrphanedSupply(curves: CurveFamily, s: PoolState)
    requires IsIdentityFamily(curves) && AtPar(s)
    requires s.balances.liabilities == 0 && s.lpTotalSupply > 0
    ensures DepositSeries(curves, s, [1, 1]).1 > GetDepositLpAmountOut(curves, s, Sum([1, 1])).amount
  {
    DepositAtPar(curves, s, 1);
    DepositAtPar(curves, s, 2);
    var t := AfterDeposit(curves, s, 1);
    DepositAtPar(curves, t, 1);
    MulDivAtLeast(t.lpTotalSupply, 1, t.lpTotalSupply, 1);
    assert DepositSeries(curves, s, []) == (s, 0);
    assert [1, 1][..1] == [1] && [1][..0] == [];
    assert DepositSeries(curves, s, [1]) == (t, 1);
    assert Sum([1]) == 1 && Sum([1, 1]) == 2;
  }

  lemma AssetsForWithin(l: nat, s: nat, w: nat)
    requires w <= s
    ensures AssetsFor(l, s, w) <= l
  {
    if s > 0 {
      MulMonotone(w, s, l);
      MulDivAtMost(l, w, l, s);
    }
  }

  lemma RedeemSplitStep(l: nat, s: nat, before: nat, taken: nat, w: nat)
    requires before + w <= s
    requires taken <= AssetsFor(l, s, before) && taken <= l
    ensures taken + AssetsFor(l - taken, s - before, w) <= AssetsFor(l, s, before + w)
  {
    if s > 0 {
      var dec := AssetsFor(l - taken, s - before, w);
      AssetsForWithin(l - taken, s - before, w);
      MulDivBounds(before, l, s);
      MulMonotone(taken, MulDiv(before, l, s), s);
      if s - before > 0 {
        MulDivBounds(w, l - taken, s - before);
        MediantFalls(l, s, taken, before);
        MediantFalls(l - taken, s - before, dec, w);
        CrossTransitive(l, s, l - taken, s - before, l - taken - dec, s - before - w);
        assert (l - taken - dec) * s == l * s - (taken + dec) * s;
        assert l * (s - before - w) == l * s - (before + w) * l;
      }
      MulDivAtLeast(taken + dec, before + w, l, s);
    }
  }

  /** Splitting a redemption never takes or pays out more, under every curve. */
  lemma {:induction false} SplitRedemption(curves: CurveFamily, s: PoolState, ws: seq<nat>)
    requires Sum(ws) <= s.lpTotalSupply
    ensures var (t, taken, paid) := WithdrawSeries(curves, s, ws);
            && paid <= taken <= WithdrawDecrement(s, Sum(ws))
            && t.lpTotalSupply == s.lpTotalSupply - Sum(ws)
            && taken <= s.balances.liabilities
            && t.balances.liabilities == s.balances.liabilities - taken
  {
    if ws != [] {
      var l, supply := s.balances.liabilities, s.lpTotalSupply;
      var init, w := ws[..|ws| - 1], ws[|ws| - 1];
      SplitRedemption(curves, s, init);
      var (t, taken, paid) := WithdrawSeries(curves, s, init);
      AssetsForWithin(l - taken, supply - Sum(init), w);
      RedeemSplitStep(l, supply, Sum(init), taken, w);
    }
  }
}
