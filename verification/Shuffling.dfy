/** The trading engine shuffles a batch before execution: what the order of notes can and cannot change. */
module Shuffling {
  import opened Wrappers
  import opened Assets
  import opened Notes
  import opened Planner

  function FaucetOf(a: Option<Asset>): set<AccountId> {
    if a.Some? then {a.value.faucet} else {}
  }

  /** The pools that planning a note may read or write. */
  function Faucets(note: Note): set<AccountId> {
    match note.kind
    case DepositNote => if note.assets == [] then {} else {note.assets[0].faucet}
    case WithdrawNote => FaucetOf(note.assetInput)
    case SwapNote => (if note.assets == [] then {} else {note.assets[0].faucet}) + FaucetOf(note.assetInput)
    case PositionNote => if note.trade.Some? then {note.trade.value.sell.faucet, note.trade.value.buy.faucet} else {}
    case P2ID => {}
  }

  /** Those are pools of assets that the note itself names. */
  lemma FaucetsAreNamed(note: Note, f: AccountId)
    requires f in Faucets(note)
    ensures || (note.assets != [] && note.assets[0].faucet == f)
            || (note.assetInput.Some? && note.assetInput.value.faucet == f)
            || (note.trade.Some? && (note.trade.value.sell.faucet == f || note.trade.value.buy.faucet == f))
  {
  }

  ghost predicate SameOn(p: Pools, q: Pools, fs: set<AccountId>) {
    forall f | f in fs :: (f in p <==> f in q) && (f in p ==> p[f] == q[f])
  }

  /** Two plans that differ in nothing but pools outside `fs`. */
  ghost predicate SamePlan(r: Result<Execution, Failure>, p: Pools, r': Result<Execution, Failure>, q: Pools,
                           fs: set<AccountId>) {
    && (r.Ok? <==> r'.Ok?)
    && (r.Ok? ==>
          && r.value.result == r'.value.result
          && r.value.call == r'.value.call
          && r.value.respawned == r'.value.respawned
          && SameOn(PoolsAfter(r.value, p), PoolsAfter(r'.value, q), fs))
  }

  lemma TradeReadsOwnPools(env: Env, p: Pools, q: Pools, sell: Asset, buy: Asset)
    requires SameOn(p, q, {sell.faucet, buy.faucet})
    ensures QuoteTrade(env, p, sell, buy) == QuoteTrade(env, q, sell, buy)
  {
    assert sell.faucet in {sell.faucet, buy.faucet} && buy.faucet in {sell.faucet, buy.faucet};
  }

  /** Planning reads only the note's own pools ... */
  lemma PlanReadsOwnPools(env: Env, p: Pools, q: Pools, note: Note)
    requires SameOn(p, q, Faucets(note))
    ensures SamePlan(Plan(env, p, note), p, Plan(env, q, note), q, Faucets(note))
  {
    match note.kind
    case DepositNote => DepositReadsOwnPools(env, p, q, note);
    case WithdrawNote => WithdrawReadsOwnPools(env, p, q, note);
    case SwapNote => SwapReadsOwnPools(env, p, q, note);
    case PositionNote => PositionReadsOwnPools(env, p, q, note);
    case P2ID =>
  }

  lemma DepositReadsOwnPools(env: Env, p: Pools, q: Pools, note: Note)
    requires note.kind.DepositNote? && SameOn(p, q, Faucets(note))
    ensures SamePlan(PlanDeposit(env, p, note), p, PlanDeposit(env, q, note), q, Faucets(note))
  {
  }

  lemma WithdrawReadsOwnPools(env: Env, p: Pools, q: Pools, note: Note)
    requires note.kind.WithdrawNote? && SameOn(p, q, Faucets(note))
    ensures SamePlan(PlanWithdraw(env, p, note), p, PlanWithdraw(env, q, note), q, Faucets(note))
  {
  }

  lemma SwapReadsOwnPools(env: Env, p: Pools, q: Pools, note: Note)
    requires note.kind.SwapNote? && SameOn(p, q, Faucets(note))
    ensures SamePlan(PlanSwap(env, p, note), p, PlanSwap(env, q, note), q, Faucets(note))
  {
    if note.assets != [] && note.assetInput.Some? {
      TradeReadsOwnPools(env, p, q, note.assets[0], note.assetInput.value);
    }
  }

  lemma PositionReadsOwnPools(env: Env, p: Pools, q: Pools, note: Note)
    requires note.kind.PositionNote? && SameOn(p, q, Faucets(note))
    ensures SamePlan(PlanPosition(env, p, note), p, PlanPosition(env, q, note), q, Faucets(note))
  {
    if note.trade.Some? {
      TradeReadsOwnPools(env, p, q, note.trade.value.sell, note.trade.value.buy);
    }
  }

  /** ... writes only those, and writes nothing when the note fails or has expired. */
  lemma PlanWritesOwnPools(env: Env, p: Pools, note: Note)
    requires Plan(env, p, note).Ok?
    ensures var ex := Plan(env, p, note).value;
            && PoolsAfter(ex, p).Keys == p.Keys
            && (forall f | f in p && f !in Faucets(note) :: PoolsAfter(ex, p)[f] == p[f])
            && (ex.result.Failed? || ex.result.PastDeadline? ==> PoolsAfter(ex, p) == p)
  {
  }

  /**
   The same two facts about any step function. The order theorems below need nothing else of the planner.
   */
  datatype Outcome = Outcome(result: ExecutionResult, pools: Pools)

  type Step = (Pools, Event) -> Option<Outcome>

  ghost predicate ReadsOwn(step: Step, touch: Event -> set<AccountId>) {
    forall p: Pools, q: Pools, n: Event :: SameOn(p, q, touch(n)) ==> SameOutcome(step(p, n), step(q, n), touch(n))
  }

  ghost predicate SameOutcome(r: Option<Outcome>, r': Option<Outcome>, fs: set<AccountId>) {
    && (r.Some? <==> r'.Some?)
    && (r.Some? ==> r.value.result == r'.value.result && SameOn(r.value.pools, r'.value.pools, fs))
  }

  ghost predicate WritesOwn(step: Step, touch: Event -> set<AccountId>) {
    forall p: Pools, n: Event :: step(p, n).Some? ==> WritesOnly(p, step(p, n).value.pools, touch(n))
  }

  ghost predicate WritesOnly(p: Pools, q: Pools, fs: set<AccountId>) {
    q.Keys == p.Keys && forall f | f in p && f !in fs :: q[f] == p[f]
  }

  ghost predicate Local(step: Step, touch: Event -> set<AccountId>) {
    ReadsOwn(step, touch) && WritesOwn(step, touch)
  }

  /** The results and the pools of a batch. */
  datatype Tally = Tally(results: map<nat, ExecutionResult>, pools: Pools)

  function Count(t: Tally, n: Event, o: Outcome): Tally {
    Tally(t.results[n.note.id := o.result], o.pools)
  }

  function Fold(step: Step, notes: seq<Event>, t: Tally): Option<Tally>
    decreases |notes|
  {
    if notes == [] then Some(t)
    else
      match step(t.pools, notes[0])
      case None => None
      case Some(o) => Fold(step, notes[1..], Count(t, notes[0], o))
  }

  function Touches(e: Event): set<AccountId> {
    Faucets(e.note)
  }

  /** Planning a note with what was read for it. */
  function PlanStep(p: Pools, e: Event): Option<Outcome> {
    match Plan(e.env, p, e.note)
    case Err(_) => None
    case Ok(ex) => Some(Outcome(ex.result, PoolsAfter(ex, p)))
  }

  lemma PlanStepIsLocal()
    ensures Local(PlanStep, Touches)
  {
    forall p: Pools, q: Pools, e: Event | SameOn(p, q, Touches(e))
      ensures SameOutcome(PlanStep(p, e), PlanStep(q, e), Touches(e))
    {
      PlanReadsOwnPools(e.env, p, q, e.note);
    }
    forall p: Pools, e: Event | PlanStep(p, e).Some?
      ensures WritesOnly(p, PlanStep(p, e).value.pools, Touches(e))
    {
      PlanWritesOwnPools(e.env, p, e.note);
    }
  }

  lemma {:induction false} PlanIsFold(events: seq<Event>, b: Batch)
    ensures var r, r' := PlanFrom(events, b), Fold(PlanStep, events, Tally(b.results, b.pools));
            && (r.Ok? <==> r'.Some?)
            && (r.Ok? ==> Tally(r.value.results, r.value.pools) == r'.value)
    decreases |events|
  {
    if events != [] && PlanStep(b.pools, events[0]).Some? {
      var ex := Plan(events[0].env, b.pools, events[0].note).value;
      PlanIsFold(events[1..], Extend(b, events[0].note, ex));
    }
  }

  /** No pool and no identifier in common. */
  predicate Apart(touch: Event -> set<AccountId>, a: Event, b: Event) {
    touch(a) !! touch(b) && a.note.id != b.note.id
  }

  ghost predicate PairwiseApart(touch: Event -> set<AccountId>, notes: seq<Event>) {
    forall i, j | 0 <= i < j < |notes| :: Apart(touch, notes[i], notes[j])
  }

  ghost predicate AllStep(step: Step, notes: seq<Event>, pools: Pools) {
    forall n | n in notes :: step(pools, n).Some?
  }

  /** What one note contributes to the final tally: what it would do alone on the initial pools. */
  ghost predicate Contributes(step: Step, touch: Event -> set<AccountId>, n: Event, pools: Pools, final: Tally) {
    && step(pools, n).Some?
    && n.note.id in final.results && final.results[n.note.id] == step(pools, n).value.result
    && SameOn(final.pools, step(pools, n).value.pools, touch(n))
  }

  ghost predicate Untouched(touch: Event -> set<AccountId>, notes: seq<Event>, t: Tally, final: Tally) {
    && final.pools.Keys == t.pools.Keys
    && (forall f | f in t.pools && (forall n | n in notes :: f !in touch(n)) :: final.pools[f] == t.pools[f])
    && (forall k | (forall n | n in notes :: n.note.id != k) ::
          (k in final.results <==> k in t.results) && (k in t.results ==> final.results[k] == t.results[k]))
  }

  lemma RestUnaffected(step: Step, touch: Event -> set<AccountId>, head: Event, rest: seq<Event>, t: Tally)
    requires Local(step, touch) && PairwiseApart(touch, [head] + rest) && step(t.pools, head).Some?
    ensures forall n | n in rest :: Apart(touch, head, n)
    ensures AllStep(step, rest, step(t.pools, head).value.pools) <==> AllStep(step, rest, t.pools)
  {
    var p := step(t.pools, head).value.pools;
    assert WritesOnly(t.pools, p, touch(head));
    forall n | n in rest
      ensures Apart(touch, head, n) && SameOutcome(step(p, n), step(t.pools, n), touch(n))
    {
      var i :| 0 <= i < |rest| && rest[i] == n;
      assert ([head] + rest)[0] == head && ([head] + rest)[i + 1] == n;
      assert SameOn(p, t.pools, touch(n));
    }
  }

  /** The fold over notes that are apart, read off pointwise. */
  lemma {:induction false} FoldPointwise(step: Step, touch: Event -> set<AccountId>, notes: seq<Event>, t: Tally)
    requires Local(step, touch) && PairwiseApart(touch, notes)
    ensures Fold(step, notes, t).Some? <==> AllStep(step, notes, t.pools)
    ensures AllStep(step, notes, t.pools) ==>
              && (forall n | n in notes :: Contributes(step, touch, n, t.pools, Fold(step, notes, t).value))
              && Untouched(touch, notes, t, Fold(step, notes, t).value)
    decreases |notes|
  {
    if notes != [] {
      var head, rest := notes[0], notes[1..];
      assert notes == [head] + rest;
      if step(t.pools, head).Some? {
        var t' := Count(t, head, step(t.pools, head).value);
        RestUnaffected(step, touch, head, rest, t);
        FoldPointwise(step, touch, rest, t');
        if AllStep(step, notes, t.pools) {
          PointwiseStep(step, touch, head, rest, t, Fold(step, rest, t').value);
        }
      }
    }
  }

  lemma PointwiseStep(step: Step, touch: Event -> set<AccountId>, head: Event, rest: seq<Event>, t: Tally, final: Tally)
    requires Local(step, touch) && step(t.pools, head).Some?
    requires forall n | n in rest :: Apart(touch, head, n)
    requires var t' := Count(t, head, step(t.pools, head).value);
             && (forall n | n in rest :: Contributes(step, touch, n, t'.pools, final))
             && Untouched(touch, rest, t', final)
    ensures forall n | n in [head] + rest :: Contributes(step, touch, n, t.pools, final)
    ensures Untouched(touch, [head] + rest, t, final)
  {
    var t' := Count(t, head, step(t.pools, head).value);
    assert WritesOnly(t.pools, t'.pools, touch(head));
    assert forall n :: n in [head] + rest <==> n == head || n in rest;
    forall n | n in rest
      ensures Contributes(step, touch, n, t.pools, final)
    {
      assert SameOn(t'.pools, t.pools, touch(n));
      assert Contributes(step, touch, n, t'.pools, final);
    }
    assert Contributes(step, touch, head, t.pools, final);
  }

  lemma {:induction false} TwiceInSequence(s: seq<Event>, i: nat, j: nat)
    requires i < j < |s| && s[i] == s[j]
    ensures multiset(s)[s[i]] >= 2
  {
    assert s == s[..j] + [s[j]] + s[j + 1..];
    assert s[i] in s[..j];
  }

  lemma OnceInSequence(s: seq<Event>, k: nat)
    requires k < |s| && forall i | 0 <= i < |s| && i != k :: s[i] != s[k]
    ensures multiset(s)[s[k]] == 1
  {
    assert s == s[..k] + [s[k]] + s[k + 1..];
    assert s[k] !in s[..k] && s[k] !in s[k + 1..];
  }

  lemma PermutedApart(touch: Event -> set<AccountId>, ns: seq<Event>, ms: seq<Event>)
    requires PairwiseApart(touch, ns) && multiset(ns) == multiset(ms)
    ensures PairwiseApart(touch, ms)
    ensures forall n :: n in ns <==> n in ms
  {
    forall n
      ensures n in ns <==> n in ms
    {
      assert n in ns <==> n in multiset(ns);
      assert n in ms <==> n in multiset(ms);
    }
    forall i, j | 0 <= i < j < |ms|
      ensures Apart(touch, ms[i], ms[j])
    {
      assert ms[i] in ns && ms[j] in ns;
      var k :| 0 <= k < |ns| && ns[k] == ms[i];
      var l :| 0 <= l < |ns| && ns[l] == ms[j];
      if k == l {
        OnceInSequence(ns, k);
        TwiceInSequence(ms, i, j);
      }
    }
  }

  /**
   When the notes of a batch touch pairwise disjoint pools, every order of them gives the same pools and the same
   result for every note, or every order fails. Each note keeps the clock value it is planned at.
   */
  lemma ShuffleIndependent(ns: seq<Event>, ms: seq<Event>, pools: Pools)
    requires PairwiseApart(Touches, ns) && multiset(ns) == multiset(ms)
    ensures var r, r' := PlanBatch(ns, pools), PlanBatch(ms, pools);
            && (r.Ok? <==> r'.Ok?)
            && (r.Ok? ==> r.value.pools == r'.value.pools && r.value.results == r'.value.results)
  {
    PlanStepIsLocal();
    PlanIsFold(ns, EmptyBatch(pools));
    PlanIsFold(ms, EmptyBatch(pools));
    FoldShuffled(PlanStep, Touches, ns, ms, Tally(map[], pools));
  }

  lemma FoldShuffled(step: Step, touch: Event -> set<AccountId>, ns: seq<Event>, ms: seq<Event>, t: Tally)
    requires Local(step, touch) && PairwiseApart(touch, ns) && multiset(ns) == multiset(ms)
    ensures Fold(step, ns, t) == Fold(step, ms, t)
  {
    PermutedApart(touch, ns, ms);
    FoldPointwise(step, touch, ns, t);
    FoldPointwise(step, touch, ms, t);
    if AllStep(step, ns, t.pools) {
      SameContributions(step, touch, ns, t, Fold(step, ns, t).value, Fold(step, ms, t).value);
    }
  }

  lemma SameContributions(step: Step, touch: Event -> set<AccountId>, ns: seq<Event>, t: Tally, x: Tally, y: Tally)
    requires forall n | n in ns :: Contributes(step, touch, n, t.pools, x) && Contributes(step, touch, n, t.pools, y)
    requires Untouched(touch, ns, t, x) && Untouched(touch, ns, t, y)
    ensures x == y
  {
    forall f | f in t.pools
      ensures x.pools[f] == y.pools[f]
    {
      if n :| n in ns && f in touch(n) {
        assert Contributes(step, touch, n, t.pools, x) && Contributes(step, touch, n, t.pools, y);
      }
    }
    forall k
      ensures k in x.results <==> k in y.results
      ensures k in x.results ==> x.results[k] == y.results[k]
    {
      if n :| n in ns && n.note.id == k {
        assert Contributes(step, touch, n, t.pools, x) && Contributes(step, touch, n, t.pools, y);
      }
    }
    assert x.pools == y.pools && x.results == y.results;
  }

  /** Two neighbouring notes that are apart may trade places in any batch, whatever the rest of it touches. */
  lemma NeighboursCommute(a: Event, b: Event, rest: seq<Event>, s: Batch)
    requires Apart(Touches, a, b)
    ensures var r, r' := PlanFrom([a, b] + rest, s), PlanFrom([b, a] + rest, s);
            && (r.Ok? <==> r'.Ok?)
            && (r.Ok? ==> r.value.pools == r'.value.pools && r.value.results == r'.value.results)
  {
    PlanStepIsLocal();
    PlanIsFold([a, b] + rest, s);
    PlanIsFold([b, a] + rest, s);
    var t := Tally(s.results, s.pools);
    FoldConcat(PlanStep, [a, b], rest, t);
    FoldConcat(PlanStep, [b, a], rest, t);
    FoldShuffled(PlanStep, Touches, [a, b], [b, a], t);
  }

  lemma {:induction false} FoldConcat(step: Step, xs: seq<Event>, ys: seq<Event>, t: Tally)
    ensures Fold(step, xs + ys, t) ==
            if Fold(step, xs, t).Some? then Fold(step, ys, Fold(step, xs, t).value) else None
    decreases |xs|
  {
    if xs == [] {
      assert xs + ys == ys;
    } else {
      assert (xs + ys)[1..] == xs[1..] + ys;
      if step(t.pools, xs[0]).Some? {
        FoldConcat(step, xs[1..], ys, Count(t, xs[0], step(t.pools, xs[0]).value));
      }
    }
  }
}
