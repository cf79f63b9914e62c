/**
 How the planned arguments reach the scripts of a batch. Those of swaps and positions travel in an advice map keyed
 by serial numbers, which the senders of the notes choose.
 */
module Delivery {
  import opened Wrappers
  import opened Notes
  import opened Planner

  /** What the advice map holds is the advice of the last call with that serial number. */
  ghost predicate AdviceIsLast(b: Batch) {
    && (forall k | k in b.advice :: exists i :: IsLastFor(b.calls, k, i) && AdviceOf(b.calls[i]) == b.advice[k])
    && (forall i | 0 <= i < |b.calls| && UsesAdvice(b.calls[i].note) :: b.calls[i].note.serial in b.advice)
  }

  ghost predicate IsLastFor(calls: seq<ScriptCall>, serial: nat, i: int) {
    && 0 <= i < |calls| && UsesAdvice(calls[i].note) && calls[i].note.serial == serial
    && forall j | i < j < |calls| && UsesAdvice(calls[j].note) :: calls[j].note.serial != serial
  }

  /** The advice holds the arguments of the call. */
  predicate Suits(c: ScriptCall, a: Advice) {
    && c.amount == a.amount && c.pool0 == a.pool0 && c.pool1 == a.pool1
    && (c.note.kind.PositionNote? ==> c.note.trade == a.trade)
  }

  /** Every call finds its own arguments in what the last call with its serial number left. */
  ghost predicate NoClash(calls: seq<ScriptCall>) {
    forall i, j | 0 <= i < |calls| && UsesAdvice(calls[i].note) && IsLastFor(calls, calls[i].note.serial, j) ::
      Suits(calls[i], AdviceOf(calls[j]))
  }

  lemma ExtendKeepsAdvice(b: Batch, e: Event)
    requires AdviceIsLast(b) && Plan(e.env, b.pools, e.note).Ok?
    ensures AdviceIsLast(Extend(b, e.note, Plan(e.env, b.pools, e.note).value))
  {
    var ex := Plan(e.env, b.pools, e.note).value;
    var b' := Extend(b, e.note, ex);
    CallIsOfNote(e.env, b.pools, e.note);
    var n := |b.calls|;
    forall k | k in b'.advice
      ensures exists i :: IsLastFor(b'.calls, k, i) && AdviceOf(b'.calls[i]) == b'.advice[k]
    {
      if ex.call.Some? && UsesAdvice(e.note) && k == e.note.serial {
        assert IsLastFor(b'.calls, k, n);
      } else {
        var i :| IsLastFor(b.calls, k, i) && AdviceOf(b.calls[i]) == b.advice[k];
        assert IsLastFor(b'.calls, k, i);
      }
    }
  }

  lemma {:induction false} PlanKeepsAdvice(events: seq<Event>, b: Batch)
    requires AdviceIsLast(b) && PlanFrom(events, b).Ok?
    ensures AdviceIsLast(PlanFrom(events, b).value)
    decreases |events|
  {
    if events != [] {
      ExtendKeepsAdvice(b, events[0]);
      PlanKeepsAdvice(events[1..], Extend(b, events[0].note, Plan(events[0].env, b.pools, events[0].note).value));
    }
  }

  /** Every script of a batch receives what was planned for it exactly when no two of its calls clash. */
  lemma ArgumentsArriveExactly(events: seq<Event>, pools: Pools)
    requires PlanBatch(events, pools).Ok?
    ensures var plan := PlanBatch(events, pools).value;
            Delivered(plan) == plan.calls <==> NoClash(plan.calls)
  {
    PlanKeepsAdvice(events, EmptyBatch(pools));
    var plan := PlanBatch(events, pools).value;
    DeliveredExactly(plan);
  }

  lemma ReceivedExactly(c: ScriptCall, advice: map<nat, Advice>)
    requires UsesAdvice(c.note) ==> c.note.serial in advice
    ensures Received(c, advice) == c <==> (UsesAdvice(c.note) ==> Suits(c, advice[c.note.serial]))
  {
  }

  lemma DeliveredExactly(b: Batch)
    requires AdviceIsLast(b)
    ensures Delivered(b) == b.calls <==> NoClash(b.calls)
  {
    var calls := b.calls;
    if NoClash(calls) {
      forall i | 0 <= i < |calls|
        ensures Delivered(b)[i] == calls[i]
      {
        if UsesAdvice(calls[i].note) {
          var j :| IsLastFor(calls, calls[i].note.serial, j) && AdviceOf(calls[j]) == b.advice[calls[i].note.serial];
          assert Suits(calls[i], AdviceOf(calls[j]));
        }
        ReceivedExactly(calls[i], b.advice);
      }
    }
    if Delivered(b) == calls {
      forall i, j | 0 <= i < |calls| && UsesAdvice(calls[i].note) && IsLastFor(calls, calls[i].note.serial, j)
        ensures Suits(calls[i], AdviceOf(calls[j]))
      {
        assert Delivered(b)[i] == calls[i];
        ReceivedExactly(calls[i], b.advice);
        var k :| IsLastFor(calls, calls[i].note.serial, k) && AdviceOf(calls[k]) == b.advice[calls[i].note.serial];
        assert k == j;
      }
    }
  }

  predicate SwapOrPosition(n: Note) {
    n.kind.SwapNote? || n.kind.PositionNote?
  }

  /** Call `j` is the last of the swaps and positions with the serial number of call `i`. */
  ghost predicate SpeaksFor(calls: seq<ScriptCall>, j: nat, i: nat) {
    && i < |calls| && j < |calls| && SwapOrPosition(calls[j].note) && calls[j].note.serial == calls[i].note.serial
    && forall k | j < k < |calls| && SwapOrPosition(calls[k].note) :: calls[k].note.serial != calls[i].note.serial
  }

  /**
   What a script receives, call by call: deposits and withdrawals what was planned for them, swaps and positions what
   was planned for the last of them with their serial number, and a position no order at all if that is a swap.
   */
  lemma DeliveredFromLast(events: seq<Event>, pools: Pools, i: nat)
    requires PlanBatch(events, pools).Ok? && i < |PlanBatch(events, pools).value.calls|
    ensures var plan := PlanBatch(events, pools).value;
            var c, d := plan.calls[i], Delivered(plan)[i];
            && (!SwapOrPosition(c.note) ==> d == c)
            && (SwapOrPosition(c.note) ==> exists j: nat | SpeaksFor(plan.calls, j, i) ::
                  && d.amount == plan.calls[j].amount
                  && d.pool0 == plan.calls[j].pool0 && d.pool1 == plan.calls[j].pool1
                  && (c.note.kind.SwapNote? ==> d.note == c.note)
                  && (c.note.kind.PositionNote? ==>
                        d.note.trade
                        == if plan.calls[j].note.kind.PositionNote? then plan.calls[j].note.trade else None))
  {
    PlanKeepsAdvice(events, EmptyBatch(pools));
    var plan := PlanBatch(events, pools).value;
    var c := plan.calls[i];
    if SwapOrPosition(c.note) {
      var j :| IsLastFor(plan.calls, c.note.serial, j) && AdviceOf(plan.calls[j]) == plan.advice[c.note.serial];
      assert SpeaksFor(plan.calls, j, i);
    }
  }

  /** Serial numbers that keep the advice of a batch apart. */
  ghost predicate DistinctSerials(events: seq<Event>) {
    forall i, j | 0 <= i < j < |events| ::
      UsesAdvice(events[i].note) && UsesAdvice(events[j].note) ==> events[i].note.serial != events[j].note.serial
  }

  /** No swap or position still to be planned carries the serial number of a call planned before. */
  ghost predicate FreshSerials(calls: seq<ScriptCall>, events: seq<Event>) {
    forall c, e | c in calls && e in events ::
      UsesAdvice(c.note) && UsesAdvice(e.note) ==> c.note.serial != e.note.serial
  }

  ghost predicate CallsApart(calls: seq<ScriptCall>) {
    forall i, j | 0 <= i < j < |calls| ::
      UsesAdvice(calls[i].note) && UsesAdvice(calls[j].note) ==> calls[i].note.serial != calls[j].note.serial
  }

  lemma {:induction false} SerialsStayApart(events: seq<Event>, b: Batch)
    requires PlanFrom(events, b).Ok? && DistinctSerials(events)
    requires CallsApart(b.calls) && FreshSerials(b.calls, events)
    ensures CallsApart(PlanFrom(events, b).value.calls)
    decreases |events|
  {
    if events != [] {
      var e, rest := events[0], events[1..];
      var ex := Plan(e.env, b.pools, e.note).value;
      var b' := Extend(b, e.note, ex);
      CallIsOfNote(e.env, b.pools, e.note);
      assert forall x | x in rest :: UsesAdvice(e.note) && UsesAdvice(x.note) ==> e.note.serial != x.note.serial;
      assert FreshSerials(b'.calls, rest);
      SerialsStayApart(rest, b');
    }
  }

  /** Distinct serial numbers, which can be checked before planning, rule out every clash. */
  lemma DistinctSerialsNoClash(events: seq<Event>, pools: Pools)
    requires PlanBatch(events, pools).Ok? && DistinctSerials(events)
    ensures NoClash(PlanBatch(events, pools).value.calls)
  {
    SerialsStayApart(events, EmptyBatch(pools));
  }
}
