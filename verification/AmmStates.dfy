/**
 The methods of `AmmState` and the engine's use of them, each as an uninterrupted run of the order book's steps.
 The fields `requests`, `engine`, `inWindow` and `plucked` are bookkeeping of the proof.
 */
module AmmStates {
  import opened Wrappers
  import opened Assets
  import opened OrderBook

  /** The book after one `pluck_note` of the engine. */
  function WithoutNote(b: Book, id: nat): Book
    requires b.engine.Plucking?
  {
    b.(notes := b.notes - {id},
       engine := Plucking(b.engine.remaining - {id}),
       plucked := if id in b.notes then b.plucked + [(id, b.notes[id])] else b.plucked)
  }

  /** While notes are being plucked, every order still to be plucked has its own note. */
  lemma PluckFindsNote(b: Book, steps: seq<Action>, c: Book, id: nat, noteOf: NoteOf)
    requires Invariant(b, noteOf) && Perform(b, steps, noteOf) == Some(c)
    requires c.engine.Plucking? && id in c.engine.remaining
    ensures id in c.notes && c.notes[id] == noteOf(id)
    ensures Perform(b, steps + [Pluck(id)], noteOf) == Some(WithoutNote(c, id))
  {
    PerformKeepsInvariant(b, steps, noteOf);
    assert id in c.closed && AtStage(c, id, Added) && AwaitsPluck(c, id);
    assert !IsPlucked(c, id);
    PerformNext(b, steps, c, Pluck(id), noteOf);
  }

  function AddSteps(id: nat): seq<Action> {
    [Create(id), StoreNoteId(id), StoreNote(id), OpenOrder(id)]
  }

  /** The book after an uninterrupted `add_order`. */
  function WithOrder(b: Book, id: nat, note: nat): Book {
    b.(requests := b.requests[id := Added],
       noteIds := b.noteIds + {id},
       notes := b.notes[id := note],
       open := b.open + {id},
       inWindow := if b.engine.Copying? then b.inWindow + {id} else b.inWindow)
  }

  lemma OrderIsAdded(b: Book, steps: seq<Action>, c: Book, id: nat, noteOf: NoteOf)
    requires Perform(b, steps, noteOf) == Some(c) && id !in c.requests
    ensures Perform(b, steps + AddSteps(id), noteOf) == Some(WithOrder(c, id, noteOf(id)))
  {
    var s1, s2, s3 := steps + [Create(id)], steps + [Create(id), StoreNoteId(id)],
                      steps + [Create(id), StoreNoteId(id), StoreNote(id)];
    assert s1 + [StoreNoteId(id)] == s2 && s2 + [StoreNote(id)] == s3 && s3 + [OpenOrder(id)] == steps + AddSteps(id);
    var c1 := c.(requests := c.requests[id := Created]);
    var c2 := c1.(requests := c1.requests[id := IdStored], noteIds := c.noteIds + {id});
    var c3 := c2.(requests := c2.requests[id := NoteStored], notes := c.notes[id := noteOf(id)]);
    PerformNext(b, steps, c, Create(id), noteOf);
    PerformNext(b, s1, c1, StoreNoteId(id), noteOf);
    PerformNext(b, s2, c2, StoreNote(id), noteOf);
    PerformNext(b, s3, c3, OpenOrder(id), noteOf);
    assert c3.requests[id := Added] == c.requests[id := Added];
  }

  lemma OrderKeepsInvariant(b: Book, id: nat, noteOf: NoteOf)
    requires id !in b.requests
    ensures Perform(b, AddSteps(id), noteOf) == Some(WithOrder(b, id, noteOf(id)))
    ensures Invariant(b, noteOf) ==> Invariant(WithOrder(b, id, noteOf(id)), noteOf)
  {
    OrderIsAdded(b, [], b, id, noteOf);
    assert [] + AddSteps(id) == AddSteps(id);
    if Invariant(b, noteOf) {
      PerformKeepsInvariant(b, AddSteps(id), noteOf);
    }
  }

  /** The book when all but `uncopied` of the open orders have been copied. */
  ghost function MidFlush(b: Book, uncopied: set<nat>): Book {
    b.(closed := b.closed + (b.open - uncopied), engine := Copying(b.open, uncopied))
  }

  lemma FlushBegins(b: Book, noteOf: NoteOf)
    requires b.engine.Idle?
    ensures Perform(b, [Snapshot], noteOf) == Some(MidFlush(b, b.open))
  {
    PerformNext(b, [], b, Snapshot, noteOf);
    assert [] + [Snapshot] == [Snapshot];
    assert b.closed + (b.open - b.open) == b.closed;
  }

  lemma FlushCopies(start: Book, b: Book, steps: seq<Action>, uncopied: set<nat>, id: nat, noteOf: NoteOf)
    requires id in uncopied && uncopied <= b.open
    requires Perform(start, steps, noteOf) == Some(MidFlush(b, uncopied))
    ensures Perform(start, steps + [CopyOne(id)], noteOf) == Some(MidFlush(b, uncopied - {id}))
    ensures MidFlush(b, uncopied).closed + {id} == MidFlush(b, uncopied - {id}).closed
  {
    PerformNext(start, steps, MidFlush(b, uncopied), CopyOne(id), noteOf);
    assert b.closed + (b.open - uncopied) + {id} == b.closed + (b.open - (uncopied - {id}));
  }

  /** The book after an uninterrupted `flush_open_orders`. */
  function Flushed(b: Book): Book {
    b.(closed := b.closed + b.open, open := {}, engine := Plucking(b.open))
  }

  lemma FlushEnds(b: Book, steps: seq<Action>, noteOf: NoteOf)
    requires Perform(b, steps, noteOf) == Some(MidFlush(b, {}))
    ensures Perform(b, steps + [Clear], noteOf) == Some(Flushed(b))
    ensures Invariant(b, noteOf) ==> Invariant(Flushed(b), noteOf)
  {
    PerformNext(b, steps, MidFlush(b, {}), Clear, noteOf);
    assert b.open - {} == b.open;
    if Invariant(b, noteOf) {
      PerformKeepsInvariant(b, steps + [Clear], noteOf);
    }
  }

  function TwoOrders(note: nat): Book {
    Book(map[0 := Added, 1 := Added], {0, 1}, map[0 := note, 1 := note], {0, 1}, {}, Idle, {}, [])
  }

  lemma TwoOrdersAreAdded(note: nat, noteOf: NoteOf)
    requires noteOf(0) == noteOf(1) == note
    ensures Perform(EMPTY, AddSteps(0) + AddSteps(1), noteOf) == Some(TwoOrders(note))
  {
    OrderIsAdded(EMPTY, [], EMPTY, 0, noteOf);
    assert [] + AddSteps(0) == AddSteps(0);
    var one := WithOrder(EMPTY, 0, note);
    OrderIsAdded(EMPTY, AddSteps(0), one, 1, noteOf);
    assert WithOrder(one, 1, note) == TwoOrders(note);
  }

  lemma TwoOrdersAreFlushed(start: Book, before: seq<Action>, note: nat, noteOf: NoteOf)
    requires Perform(start, before, noteOf) == Some(TwoOrders(note))
    ensures Perform(start, before + [Snapshot] + [CopyOne(0)] + [CopyOne(1)] + [Clear], noteOf)
            == Some(Flushed(TwoOrders(note)))
  {
    var two := TwoOrders(note);
    PerformNext(start, before, two, Snapshot, noteOf);
    assert two.closed + (two.open - {0, 1}) == two.closed;
    FlushCopies(start, two, before + [Snapshot], {0, 1}, 0, noteOf);
    assert {0, 1} - {0} == {1} && {1} - {1} == {};
    FlushCopies(start, two, before + [Snapshot] + [CopyOne(0)], {1}, 1, noteOf);
    PerformNext(start, before + [Snapshot] + [CopyOne(0)] + [CopyOne(1)], MidFlush(two, {}), Clear, noteOf);
    assert two.open - {} == two.open;
  }

  lemma BothArePlucked(start: Book, before: seq<Action>, note: nat, noteOf: NoteOf)
    requires Perform(start, before, noteOf) == Some(Flushed(TwoOrders(note)))
    ensures var batch := [(0, note), (1, note)];
            Perform(start, before + [Pluck(0)] + [Pluck(1)], noteOf)
            == Some(Flushed(TwoOrders(note)).(notes := map[], engine := Plucking({}), plucked := batch))
  {
    var flushed := Flushed(TwoOrders(note));
    var once := flushed.(notes := map[1 := note], engine := Plucking({1}), plucked := [(0, note)]);
    PerformNext(start, before, flushed, Pluck(0), noteOf);
    assert {0, 1} - {0} == {1} && {1} - {1} == {};
    assert Next(flushed, Pluck(0), noteOf) == once;
    PerformNext(start, before + [Pluck(0)], once, Pluck(1), noteOf);
    assert [(0, note)] + [(1, note)] == [(0, note), (1, note)];
  }

  /** Two orders on one position put its note into one batch twice: a run of fourteen steps. */
  lemma ANoteIsPluckedTwice(note: nat) returns (steps: seq<Action>, run: seq<Book>, noteOf: NoteOf)
    ensures IsRun(steps, run, noteOf)
    ensures run[|steps|].plucked == [(0, note), (1, note)] && run[|steps|].engine == Plucking({})
  {
    noteOf := id => note;
    TwoOrdersAreAdded(note, noteOf);
    TwoOrdersAreFlushed(EMPTY, AddSteps(0) + AddSteps(1), note, noteOf);
    steps := AddSteps(0) + AddSteps(1) + [Snapshot] + [CopyOne(0)] + [CopyOne(1)] + [Clear];
    BothArePlucked(EMPTY, steps, note, noteOf);
    steps := steps + [Pluck(0)] + [Pluck(1)];
    run := PerformIsRun(steps, noteOf);
  }

  function From(orders: seq<nat>, k: nat): set<nat>
    requires k <= |orders|
  {
    set id | id in orders[k..]
  }

  ghost predicate Distinct(orders: seq<nat>) {
    forall i, j | 0 <= i < j < |orders| :: orders[i] != orders[j]
  }

  /** Some note is in a batch twice. */
  ghost predicate Repeats(batch: seq<nat>) {
    exists i, j | 0 <= i < j < |batch| :: batch[i] == batch[j]
  }

  /** Two different orders were made for one note. */
  ghost predicate ShareNote(orders: set<nat>, noteOf: NoteOf) {
    exists id, other | id in orders && other in orders && id != other :: noteOf(id) == noteOf(other)
  }

  lemma RepeatsExactly(orders: seq<nat>, batch: seq<nat>, noteOf: NoteOf)
    requires Distinct(orders) && |batch| == |orders| && forall i | 0 <= i < |orders| :: batch[i] == noteOf(orders[i])
    ensures Repeats(batch) <==> ShareNote(From(orders, 0), noteOf)
  {
    assert orders[0..] == orders;
    if Repeats(batch) {
      var i, j :| 0 <= i < j < |batch| && batch[i] == batch[j];
      assert orders[i] in From(orders, 0) && orders[j] in From(orders, 0);
      assert noteOf(orders[i]) == noteOf(orders[j]);
    }
    if ShareNote(From(orders, 0), noteOf) {
      var id, other :| id in From(orders, 0) && other in From(orders, 0) && id != other && noteOf(id) == noteOf(other);
      var i :| 0 <= i < |orders| && orders[i] == id;
      var j :| 0 <= j < |orders| && orders[j] == other;
      assert batch[i] == batch[j] && (i < j || j < i);
    }
  }

  /** In a list without repetitions the tail holds everything but the head. */
  lemma TailHolds(orders: seq<nat>, k: nat)
    requires k < |orders| && Distinct(orders)
    ensures orders[k] in From(orders, k) && From(orders, k) - {orders[k]} == From(orders, k + 1)
  {
    assert orders[k..] == [orders[k]] + orders[k + 1..];
  }

  class AmmState {
    var noteIds: set<nat>
    var notes: map<nat, nat>
    var openOrders: set<nat>
    var closedOrders: set<nat>
    var positions: map<nat, nat>
    const validFaucets: set<AccountId>
    ghost var requests: map<nat, Stage>
    ghost var engine: Engine
    ghost var inWindow: set<nat>
    ghost var plucked: seq<(nat, nat)>

    ghost function View(): Book
      reads this
    {
      Book(requests, noteIds, notes, openOrders, closedOrders, engine, inWindow, plucked)
    }

    constructor (validFaucets: set<AccountId>)
      ensures View() == EMPTY && positions == map[] && this.validFaucets == validFaucets
    {
      noteIds, notes, openOrders, closedOrders := {}, map[], {}, {};
      requests, engine, inWindow, plucked := map[], Idle, {}, [];
      positions := map[];
      this.validFaucets := validFaucets;
    }

    /** `add_order` under a fresh identifier; a note with a faucet that has no pool is refused. */
    method AddOrder(orderId: nat, note: nat, faucets: set<AccountId>, ghost noteOf: NoteOf) returns (ok: bool)
      requires orderId !in requests && noteOf(orderId) == note
      modifies this`noteIds, this`notes, this`openOrders, this`requests, this`inWindow
      ensures ok <==> faucets <= validFaucets
      ensures !ok ==> View() == old(View())
      ensures ok ==> View() == WithOrder(old(View()), orderId, note)
                     && Perform(old(View()), AddSteps(orderId), noteOf) == Some(View())
      ensures Invariant(old(View()), noteOf) ==> Invariant(View(), noteOf)
    {
      if !(faucets <= validFaucets) {
        return false;
      }
      OrderKeepsInvariant(View(), orderId, noteOf);
      noteIds := noteIds + {orderId};
      notes := notes[orderId := note];
      openOrders := openOrders + {orderId};
      requests := requests[orderId := Added];
      inWindow := if engine.Copying? then inWindow + {orderId} else inWindow;
      return true;
    }

    /** `add_position_order`: an order for a clone of the position's note, which stays where it is. */
    method AddPositionOrder(orderId: nat, positionId: nat, faucets: set<AccountId>, ghost noteOf: NoteOf)
      returns (ok: bool)
      requires orderId !in requests
      requires positionId in positions ==> noteOf(orderId) == positions[positionId]
      modifies this`noteIds, this`notes, this`openOrders, this`requests, this`inWindow
      ensures ok <==> positionId in positions && faucets <= validFaucets
      ensures View() == if ok then WithOrder(old(View()), orderId, positions[positionId]) else old(View())
      ensures Invariant(old(View()), noteOf) ==> Invariant(View(), noteOf)
    {
      if positionId !in positions {
        return false;
      }
      ok := AddOrder(orderId, positions[positionId], faucets, noteOf);
    }

    /** `flush_open_orders`: a snapshot, a copy of every order in it, and a clear. */
    method FlushOpenOrders(ghost noteOf: NoteOf) returns (orders: set<nat>, ghost steps: seq<Action>)
      requires engine.Idle?
      modifies this`openOrders, this`closedOrders, this`engine
      ensures orders == old(openOrders)
      ensures View() == Flushed(old(View()))
      ensures Perform(old(View()), steps, noteOf) == Some(View())
      ensures Invariant(old(View()), noteOf) ==> Invariant(View(), noteOf)
    {
      ghost var b := View();
      orders := openOrders;
      steps := [Snapshot];
      FlushBegins(b, noteOf);
      var remaining := orders;
      while remaining != {}
        invariant remaining <= orders
        invariant closedOrders == MidFlush(b, remaining).closed
        invariant Perform(b, steps, noteOf) == Some(MidFlush(b, remaining))
        decreases |remaining|
      {
        var order :| order in remaining;
        FlushCopies(b, b, steps, remaining, order, noteOf);
        closedOrders := closedOrders + {order};
        remaining := remaining - {order};
        steps := steps + [CopyOne(order)];
      }
      FlushEnds(b, steps, noteOf);
      openOrders := {};
      engine := Plucking(orders);
      steps := steps + [Clear];
      assert View() == Flushed(b);
    }

    /** `pluck_note`: removes the note, so a second call for the same order finds nothing. */
    method PluckNote(orderId: nat, ghost noteOf: NoteOf) returns (note: Option<nat>)
      requires engine.Plucking? && orderId in engine.remaining
      modifies this`notes, this`engine, this`plucked
      ensures note == if orderId in old(notes) then Some(old(notes)[orderId]) else None
      ensures View() == WithoutNote(old(View()), orderId) == Next(old(View()), Pluck(orderId), noteOf)
    {
      note := if orderId in notes then Some(notes[orderId]) else None;
      plucked := if orderId in notes then plucked + [(orderId, notes[orderId])] else plucked;
      notes := notes - {orderId};
      engine := Plucking(engine.remaining - {orderId});
    }

    /** The engine collects the notes of the flushed orders in shuffled order: none is missing, none is wrong. */
    method PluckNotes(orders: seq<nat>, ghost noteOf: NoteOf) returns (batch: seq<nat>)
      requires Invariant(View(), noteOf)
      requires engine == Plucking(From(orders, 0)) && Distinct(orders)
      modifies this`notes, this`engine, this`plucked
      ensures Invariant(View(), noteOf)
      ensures |batch| == |orders| && forall i | 0 <= i < |orders| :: batch[i] == noteOf(orders[i])
      ensures engine == Plucking({})
    {
      ghost var b, steps := View(), [];
      batch := [];
      for k := 0 to |orders|
        invariant Perform(b, steps, noteOf) == Some(View())
        invariant engine == Plucking(From(orders, k))
        invariant |batch| == k && forall i | 0 <= i < k :: batch[i] == noteOf(orders[i])
      {
        var id := orders[k];
        TailHolds(orders, k);
        PluckFindsNote(b, steps, View(), id, noteOf);
        steps := steps + [Pluck(id)];
        var note := PluckNote(id, noteOf);
        batch := batch + [note.value];
      }
      PerformKeepsInvariant(b, steps, noteOf);
    }

    /** One cycle of the engine: flush, shuffle in any way, pluck. Between cycles the invariant always holds. */
    method RunCycle(ghost noteOf: NoteOf) returns (orders: seq<nat>, batch: seq<nat>)
      requires Invariant(View(), noteOf) && engine.Idle?
      modifies this`openOrders, this`closedOrders, this`notes, this`engine, this`plucked
      ensures Invariant(View(), noteOf) && engine.Idle?
      ensures openOrders == {} && closedOrders == old(closedOrders) + old(openOrders)
      ensures From(orders, 0) == old(openOrders) && Distinct(orders)
      ensures |batch| == |orders| && forall i | 0 <= i < |orders| :: batch[i] == noteOf(orders[i])
      ensures Repeats(batch) <==> ShareNote(old(openOrders), noteOf)
    {
      ghost var steps;
      var flushed;
      flushed, steps := FlushOpenOrders(noteOf);
      orders := Shuffled(flushed);
      batch := PluckNotes(orders, noteOf);
      RepeatsExactly(orders, batch, noteOf);
      StepKeepsInvariant(View(), Finish, noteOf);
      engine := Idle;
    }
  }

  /** The orders of a set in some order: what the shuffle makes of them is left open. */
  method Shuffled(orders: set<nat>) returns (r: seq<nat>)
    ensures From(r, 0) == orders && Distinct(r)
  {
    r := [];
    var remaining := orders;
    while remaining != {}
      invariant remaining <= orders
      invariant forall id :: id in r <==> id in orders && id !in remaining
      invariant Distinct(r)
      decreases |remaining|
    {
      var id :| id in remaining;
      r := r + [id];
      remaining := remaining - {id};
    }
  }
}
