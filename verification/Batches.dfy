/**
 What a planned batch contains, note by note: every note once, in order, on the pools that the ones before left.

 The theorems hold for any way to plan a single note, and are then applied to the planner.
 */
module Batches {
  import opened Wrappers
  import opened Notes
  import opened Planner

  /** How note `i` of a batch is planned. */
  type Planning = (nat, Pools, Note) -> Result<Execution, Failure>

  /** The planner with its clock read anew for every note. */
  function PlanningOf(env: Env, clock: nat -> int): Planning {
    (i: nat, pools: Pools, note: Note) => Plan(env.(now := clock(i)), pools, note)
  }

  /** The pools when the first `i` notes have been planned. */
  function PoolsAt(plan: Planning, notes: seq<Note>, start: Pools, i: nat): Pools
    requires i <= |notes|
  {
    if i == 0 then start
    else
      var before := PoolsAt(plan, notes, start, i - 1);
      match plan(i - 1, before, notes[i - 1])
      case Err(_) => before
      case Ok(ex) => PoolsAfter(ex, before)
  }

  /** The plan of note `i`, on those pools. */
  function PlanAt(plan: Planning, notes: seq<Note>, start: Pools, i: nat): Result<Execution, Failure>
    requires i < |notes|
  {
    plan(i, PoolsAt(plan, notes, start, i), notes[i])
  }

  /** The calls that the first `i` notes lead to. */
  function CallsAt(plan: Planning, notes: seq<Note>, start: Pools, i: nat): seq<ScriptCall>
    requires i <= |notes|
  {
    if i == 0 then []
    else
      var before := CallsAt(plan, notes, start, i - 1);
      match PlanAt(plan, notes, start, i - 1)
      case Err(_) => before
      case Ok(ex) => before + if ex.call.Some? then [ex.call.value] else []
  }

  /** Of the first `k` notes, `i` is the last with its identifier. */
  predicate IsLastOf(notes: seq<Note>, k: nat, i: nat) {
    i < k <= |notes| && forall m | i < m < k :: notes[m].id != notes[i].id
  }

  predicate HoldsResult(plan: Planning, notes: seq<Note>, start: Pools, i: nat, b: Batch)
    requires i < |notes|
  {
    var ex := PlanAt(plan, notes, start, i);
    ex.Ok? && notes[i].id in b.results && b.results[notes[i].id] == ex.value.result
  }

  /** The batch holds the plans of exactly the first `k` notes. */
  ghost predicate Holds(plan: Planning, notes: seq<Note>, start: Pools, k: nat, b: Batch) {
    && k <= |notes|
    && (forall i: nat | i < k :: PlanAt(plan, notes, start, i).Ok?)
    && b.pools == PoolsAt(plan, notes, start, k)
    && b.calls == CallsAt(plan, notes, start, k)
    && b.results.Keys == (set i: nat | i < k :: notes[i].id)
    && (forall i: nat | IsLastOf(notes, k, i) :: HoldsResult(plan, notes, start, i, b))
  }

  ghost predicate FailsFirst(plan: Planning, notes: seq<Note>, start: Pools, k: nat, e: Failure) {
    && k < |notes| && PlanAt(plan, notes, start, k) == Err(e)
    && forall i: nat | i < k :: PlanAt(plan, notes, start, i).Ok?
  }

  /** Planning succeeds with all the notes, or fails with the first note that cannot be planned. */
  ghost predicate Comes(plan: Planning, notes: seq<Note>, start: Pools, r: Result<Batch, Failure>) {
    match r
    case Ok(b) => Holds(plan, notes, start, |notes|, b)
    case Err(e) => exists k: nat :: FailsFirst(plan, notes, start, k, e)
  }

  function FoldBy(plan: Planning, notes: seq<Note>, k: nat, b: Batch): Result<Batch, Failure>
    requires k <= |notes|
    decreases |notes| - k
  {
    if k == |notes| then Ok(b)
    else
      match plan(k, b.pools, notes[k])
      case Err(e) => Err(e)
      case Ok(ex) => FoldBy(plan, notes, k + 1, Extend(b, notes[k], ex))
  }

  lemma HoldsNext(plan: Planning, notes: seq<Note>, start: Pools, k: nat, b: Batch)
    requires Holds(plan, notes, start, k, b) && k < |notes| && PlanAt(plan, notes, start, k).Ok?
    ensures Holds(plan, notes, start, k + 1, Extend(b, notes[k], PlanAt(plan, notes, start, k).value))
  {
    var b' := Extend(b, notes[k], PlanAt(plan, notes, start, k).value);
    assert (set i: nat | i < k + 1 :: notes[i].id) == (set i: nat | i < k :: notes[i].id) + {notes[k].id};
    forall i: nat | IsLastOf(notes, k + 1, i)
      ensures HoldsResult(plan, notes, start, i, b')
    {
      if i < k {
        assert IsLastOf(notes, k, i) && HoldsResult(plan, notes, start, i, b);
      }
    }
  }

  lemma {:induction false} FoldComes(plan: Planning, notes: seq<Note>, start: Pools, k: nat, b: Batch)
    requires Holds(plan, notes, start, k, b)
    ensures Comes(plan, notes, start, FoldBy(plan, notes, k, b))
    decreases |notes| - k
  {
    if k < |notes| {
      var r := PlanAt(plan, notes, start, k);
      if r.Ok? {
        HoldsNext(plan, notes, start, k, b);
        FoldComes(plan, notes, start, k + 1, Extend(b, notes[k], r.value));
      } else {
        assert FailsFirst(plan, notes, start, k, r.error);
      }
    }
  }

  lemma {:induction false} PlanIsFoldBy(env: Env, notes: seq<Note>, clock: nat -> int, k: nat, b: Batch)
    requires k <= |notes|
    ensures PlanFrom(Stamp(env, notes, clock)[k..], b) == FoldBy(PlanningOf(env, clock), notes, k, b)
    decreases |notes| - k
  {
    var events := Stamp(env, notes, clock);
    if k < |notes| {
      assert events[k..][0] == events[k] && events[k..][1..] == events[k + 1..];
      var r := Plan(env.(now := clock(k)), b.pools, notes[k]);
      if r.Ok? {
        PlanIsFoldBy(env, notes, clock, k + 1, Extend(b, notes[k], r.value));
      }
    }
  }

  /** Every note of a batch is planned, in order and with its own clock reading, or the first failure ends it. */
  lemma BatchComes(env: Env, notes: seq<Note>, clock: nat -> int, start: Pools)
    ensures Comes(PlanningOf(env, clock), notes, start, PlanBatch(Stamp(env, notes, clock), start))
  {
    var events := Stamp(env, notes, clock);
    assert events[0..] == events;
    PlanIsFoldBy(env, notes, clock, 0, EmptyBatch(start));
    FoldComes(PlanningOf(env, clock), notes, start, 0, EmptyBatch(start));
  }

  /** With distinct identifiers every note finds the result of its own plan. */
  lemma EveryNoteHasItsResult(plan: Planning, notes: seq<Note>, start: Pools, b: Batch, i: nat)
    requires Holds(plan, notes, start, |notes|, b) && i < |notes|
    requires forall x, y | 0 <= x < y < |notes| :: notes[x].id != notes[y].id
    ensures HoldsResult(plan, notes, start, i, b)
  {
    assert IsLastOf(notes, |notes|, i);
  }
}
