/**
 The shared order maps of `amm_state.rs` under interleaving.

 Any number of requests run `add_order`, whose three inserts are separate steps; one trading engine runs
 `flush_open_orders`, whose snapshot, copies and clear are separate steps, and then plucks the notes of the
 flushed orders in any order. The model assumes that each of these steps is atomic, also the snapshot and the
 clear, which on a sharded map are loops over its shards. Order identifiers are fresh.
 */
module OrderBook {
  import opened Wrappers

  /** How far the request that adds an order has come; a missing identifier has not been used yet. */
  datatype Stage = Created | IdStored | NoteStored | Added

  datatype Engine =
    | Idle
    | Copying(snapshot: set<nat>, uncopied: set<nat>)
    | Plucking(remaining: set<nat>)

  /** `inWindow` and `plucked` are the history of the run: the orders inserted between a snapshot and its clear,
      and the notes taken out so far with their orders. */
  datatype Book = Book(
    requests: map<nat, Stage>,
    noteIds: set<nat>,
    notes: map<nat, nat>,
    open: set<nat>,
    closed: set<nat>,
    engine: Engine,
    inWindow: set<nat>,
    plucked: seq<(nat, nat)>)

  const EMPTY := Book(map[], {}, map[], {}, {}, Idle, {}, [])

  datatype Action =
    | Create(id: nat)
    | StoreNoteId(id: nat)
    | StoreNote(id: nat)
    | OpenOrder(id: nat)
    | Snapshot
    | CopyOne(id: nat)
    | Clear
    | Pluck(id: nat)
    | Finish

  predicate AtStage(b: Book, id: nat, s: Stage) {
    id in b.requests && b.requests[id] == s
  }

  predicate Enabled(b: Book, a: Action) {
    match a
    case Create(id) => id !in b.requests
    case StoreNoteId(id) => AtStage(b, id, Created)
    case StoreNote(id) => AtStage(b, id, IdStored)
    case OpenOrder(id) => AtStage(b, id, NoteStored)
    case Snapshot => b.engine.Idle?
    case CopyOne(id) => b.engine.Copying? && id in b.engine.uncopied
    case Clear => b.engine.Copying? && b.engine.uncopied == {}
    case Pluck(id) => b.engine.Plucking? && id in b.engine.remaining
    case Finish => b.engine.Plucking? && b.engine.remaining == {}
  }

  /** The note that an order was made for. Two orders on one position are made for the same note. */
  type NoteOf = nat -> nat

  function Next(b: Book, a: Action, noteOf: NoteOf): Book
    requires Enabled(b, a)
  {
    match a
    case Create(id) => b.(requests := b.requests[id := Created])
    case StoreNoteId(id) => b.(requests := b.requests[id := IdStored], noteIds := b.noteIds + {id})
    case StoreNote(id) => b.(requests := b.requests[id := NoteStored], notes := b.notes[id := noteOf(id)])
    case OpenOrder(id) =>
      b.(requests := b.requests[id := Added],
         open := b.open + {id},
         inWindow := if b.engine.Copying? then b.inWindow + {id} else b.inWindow)
    case Snapshot => b.(engine := Copying(b.open, b.open))
    case CopyOne(id) => b.(closed := b.closed + {id}, engine := b.engine.(uncopied := b.engine.uncopied - {id}))
    case Clear => b.(open := {}, engine := Plucking(b.engine.snapshot))
    case Pluck(id) =>
      b.(engine := Plucking(b.engine.remaining - {id}),
         notes := b.notes - {id},
         plucked := if id in b.notes then b.plucked + [(id, b.notes[id])] else b.plucked)
    case Finish => b.(engine := Idle)
  }

  ghost predicate IsRun(actions: seq<Action>, run: seq<Book>, noteOf: NoteOf) {
    && |run| == |actions| + 1
    && run[0] == EMPTY
    && forall i | 0 <= i < |actions| ::
         Enabled(run[i], actions[i]) && run[i + 1] == Next(run[i], actions[i], noteOf)
  }

  predicate IsPlucked(b: Book, id: nat) {
    exists i | 0 <= i < |b.plucked| :: b.plucked[i].0 == id
  }

  /** Where every order is, for each position of the engine. */
  ghost predicate Invariant(b: Book, noteOf: NoteOf) {
    && RequestsInOrder(b)
    && EngineConsistent(b)
    && NotesAndHistory(b, noteOf)
  }

  ghost predicate NotesAndHistory(b: Book, noteOf: NoteOf) {
    && (forall id :: id in b.notes <==> (AtStage(b, id, NoteStored) || AtStage(b, id, Added)) && !IsPlucked(b, id))
    && (forall id | id in b.notes :: b.notes[id] == noteOf(id))
    && (forall i | 0 <= i < |b.plucked| :: b.plucked[i].1 == noteOf(b.plucked[i].0))
    && (forall i, j | 0 <= i < j < |b.plucked| :: b.plucked[i].0 != b.plucked[j].0)
    && (forall id :: IsPlucked(b, id) <==> id in b.closed && !AwaitsPluck(b, id))
    && (forall id | AtStage(b, id, Added) :: (id in b.open || id in b.closed) <==> !Lost(b, id))
  }

  ghost predicate RequestsInOrder(b: Book) {
    && (forall id | id in b.open || id in b.closed || id in b.inWindow :: AtStage(b, id, Added))
    && (forall id | id in b.noteIds :: id in b.requests && b.requests[id] != Created)
    && (forall id | id in b.requests && b.requests[id] != Created :: id in b.noteIds)
  }

  ghost predicate EngineConsistent(b: Book) {
    match b.engine
    case Idle => b.open !! b.closed && b.open !! b.inWindow
    case Copying(snapshot, uncopied) =>
      && uncopied <= snapshot <= b.open
      && snapshot !! b.inWindow
      && b.open - snapshot <= b.inWindow
      && b.open * b.closed == snapshot - uncopied
    case Plucking(remaining) => b.open !! b.closed && b.open !! b.inWindow && remaining <= b.closed
  }

  /** Closed, or about to be, with its note not yet taken. */
  predicate AwaitsPluck(b: Book, id: nat) {
    match b.engine
    case Idle => false
    case Copying(snapshot, _) => id in snapshot
    case Plucking(remaining) => id in remaining
  }

  /** Inserted between a snapshot and the clear that followed it, and that clear has happened. */
  predicate Lost(b: Book, id: nat) {
    id in b.inWindow && id !in b.open
  }

  lemma StepKeepsEngine(b: Book, a: Action, noteOf: NoteOf)
    requires RequestsInOrder(b) && EngineConsistent(b) && Enabled(b, a)
    ensures RequestsInOrder(Next(b, a, noteOf)) && EngineConsistent(Next(b, a, noteOf))
  {
    var c := Next(b, a, noteOf);
    match a
    case OpenOrder(id) =>
      assert id !in b.open && id !in b.closed && id !in b.inWindow;
      assert c.open * c.closed == b.open * b.closed;
    case Snapshot =>
      assert c.open * c.closed == {};
    case CopyOne(id) =>
      assert id in b.open;
      assert c.open * c.closed == b.open * b.closed + {id};
    case Clear =>
      assert b.open * b.closed == b.engine.snapshot;
    case _ =>
  }

  lemma PluckKeepsHistory(b: Book, id: nat, noteOf: NoteOf)
    requires Invariant(b, noteOf) && Enabled(b, Pluck(id))
    ensures NotesAndHistory(Next(b, Pluck(id), noteOf), noteOf)
  {
    var c := Next(b, Pluck(id), noteOf);
    assert !IsPlucked(b, id) && id in b.closed && AtStage(b, id, Added);
    assert id in b.notes;
    assert c.plucked == b.plucked + [(id, noteOf(id))];
    forall k
      ensures IsPlucked(c, k) <==> IsPlucked(b, k) || k == id
    {
      if IsPlucked(b, k) {
        var i :| 0 <= i < |b.plucked| && b.plucked[i].0 == k;
        assert c.plucked[i].0 == k;
      }
      if k == id {
        assert c.plucked[|b.plucked|].0 == k;
      }
    }
  }

  lemma ClearKeepsHistory(b: Book, noteOf: NoteOf)
    requires Invariant(b, noteOf) && Enabled(b, Clear)
    ensures NotesAndHistory(Next(b, Clear, noteOf), noteOf)
  {
    var c := Next(b, Clear, noteOf);
    assert forall k :: IsPlucked(c, k) <==> IsPlucked(b, k);
    forall k | AtStage(c, k, Added)
      ensures k in c.closed <==> k !in c.inWindow
    {
      assert AtStage(b, k, Added);
      assert k in b.open * b.closed <==> k in b.engine.snapshot;
      assert k in b.open - b.engine.snapshot ==> k in b.inWindow;
    }
  }

  lemma OtherStepsKeepHistory(b: Book, a: Action, noteOf: NoteOf)
    requires Invariant(b, noteOf) && Enabled(b, a) && !a.Pluck? && !a.Clear?
    requires RequestsInOrder(Next(b, a, noteOf)) && EngineConsistent(Next(b, a, noteOf))
    ensures NotesAndHistory(Next(b, a, noteOf), noteOf)
  {
    var c := Next(b, a, noteOf);
    assert forall k :: IsPlucked(c, k) <==> IsPlucked(b, k);
  }

  lemma StepKeepsInvariant(b: Book, a: Action, noteOf: NoteOf)
    requires Invariant(b, noteOf) && Enabled(b, a)
    ensures Invariant(Next(b, a, noteOf), noteOf)
  {
    StepKeepsEngine(b, a, noteOf);
    match a
    case Pluck(id) => PluckKeepsHistory(b, id, noteOf);
    case Clear => ClearKeepsHistory(b, noteOf);
    case _ => OtherStepsKeepHistory(b, a, noteOf);
  }

  lemma {:induction false} RunKeepsInvariant(actions: seq<Action>, run: seq<Book>, noteOf: NoteOf)
    requires IsRun(actions, run, noteOf)
    ensures Invariant(run[|actions|], noteOf)
    decreases |actions|
  {
    if actions != [] {
      var n := |actions| - 1;
      RunKeepsInvariant(actions[..n], run[..n + 1], noteOf);
      StepKeepsInvariant(run[n], actions[n], noteOf);
    }
  }

  /** Performs a series of steps; `None` when one of them is not enabled. */
  function Perform(b: Book, actions: seq<Action>, noteOf: NoteOf): Option<Book> {
    if actions == [] then Some(b)
    else
      var n := |actions| - 1;
      match Perform(b, actions[..n], noteOf)
      case None => None
      case Some(c) => if Enabled(c, actions[n]) then Some(Next(c, actions[n], noteOf)) else None
  }

  lemma PerformNext(b: Book, steps: seq<Action>, c: Book, a: Action, noteOf: NoteOf)
    requires Perform(b, steps, noteOf) == Some(c) && Enabled(c, a)
    ensures Perform(b, steps + [a], noteOf) == Some(Next(c, a, noteOf))
  {
    assert (steps + [a])[..|steps|] == steps;
  }

  lemma {:induction false} PerformKeepsInvariant(b: Book, steps: seq<Action>, noteOf: NoteOf)
    requires Invariant(b, noteOf) && Perform(b, steps, noteOf).Some?
    ensures Invariant(Perform(b, steps, noteOf).value, noteOf)
    decreases |steps|
  {
    if steps != [] {
      var n := |steps| - 1;
      PerformKeepsInvariant(b, steps[..n], noteOf);
      StepKeepsInvariant(Perform(b, steps[..n], noteOf).value, steps[n], noteOf);
    }
  }

  /** Whatever a series of steps leads to is reached by a run. */
  lemma {:induction false} PerformIsRun(steps: seq<Action>, noteOf: NoteOf) returns (run: seq<Book>)
    requires Perform(EMPTY, steps, noteOf).Some?
    ensures IsRun(steps, run, noteOf) && run[|steps|] == Perform(EMPTY, steps, noteOf).value
    decreases |steps|
  {
    if steps == [] {
      run := [EMPTY];
    } else {
      var n := |steps| - 1;
      run := PerformIsRun(steps[..n], noteOf);
      run := run + [Perform(EMPTY, steps, noteOf).value];
    }
  }

  /** Every open order has its own note stored, at every moment of every interleaving. */
  lemma OpenOrdersHaveNotes(actions: seq<Action>, run: seq<Book>, noteOf: NoteOf, id: nat)
    requires IsRun(actions, run, noteOf)
    ensures var b := run[|actions|];
            id in b.open ==> id in b.notes && b.notes[id] == noteOf(id) && id in b.noteIds
  {
    RunKeepsInvariant(actions, run, noteOf);
    var b := run[|actions|];
    assert id in b.open && id in b.closed ==> id in b.open * b.closed;
    assert id in b.open ==> AtStage(b, id, Added);
  }

  /** No order is plucked twice, and what is plucked is the note the order was added with. */
  lemma PluckedOnce(actions: seq<Action>, run: seq<Book>, noteOf: NoteOf)
    requires IsRun(actions, run, noteOf)
    ensures var b := run[|actions|];
            && (forall i, j | 0 <= i < j < |b.plucked| :: b.plucked[i].0 != b.plucked[j].0)
            && (forall i | 0 <= i < |b.plucked| :: b.plucked[i].1 == noteOf(b.plucked[i].0))
  {
    RunKeepsInvariant(actions, run, noteOf);
  }

  ghost predicate PluckedTwice(b: Book) {
    exists i, j | 0 <= i < j < |b.plucked| :: b.plucked[i].1 == b.plucked[j].1
  }

  ghost predicate SharesNote(b: Book, noteOf: NoteOf) {
    exists id, other | id != other && IsPlucked(b, id) && IsPlucked(b, other) :: noteOf(id) == noteOf(other)
  }

  lemma TwiceExactly(b: Book, noteOf: NoteOf)
    requires forall i, j | 0 <= i < j < |b.plucked| :: b.plucked[i].0 != b.plucked[j].0
    requires forall i | 0 <= i < |b.plucked| :: b.plucked[i].1 == noteOf(b.plucked[i].0)
    ensures PluckedTwice(b) <==> SharesNote(b, noteOf)
  {
    if i, j :| 0 <= i < j < |b.plucked| && b.plucked[i].1 == b.plucked[j].1 {
      assert IsPlucked(b, b.plucked[i].0) && IsPlucked(b, b.plucked[j].0);
      assert noteOf(b.plucked[i].0) == noteOf(b.plucked[j].0);
    }
    if id, other :| id != other && IsPlucked(b, id) && IsPlucked(b, other) && noteOf(id) == noteOf(other) {
      var i :| 0 <= i < |b.plucked| && b.plucked[i].0 == id;
      var j :| 0 <= j < |b.plucked| && b.plucked[j].0 == other;
      assert b.plucked[i].1 == b.plucked[j].1;
      assert i < j || j < i;
    }
  }

  /** A note, then, is plucked twice exactly when two of the orders plucked were made for it. */
  lemma NotePluckedTwiceExactly(actions: seq<Action>, run: seq<Book>, noteOf: NoteOf)
    requires IsRun(actions, run, noteOf)
    ensures PluckedTwice(run[|actions|]) <==> SharesNote(run[|actions|], noteOf)
  {
    PluckedOnce(actions, run, noteOf);
    TwiceExactly(run[|actions|], noteOf);
  }

  /**
   Between engine cycles a fully added order is open with its note waiting, or closed with its note taken, unless
   its insert fell between a snapshot and the clear: then it is in neither map and its note stays behind for good.
   */
  lemma OrderIsFoundUnlessInWindow(actions: seq<Action>, run: seq<Book>, noteOf: NoteOf, id: nat)
    requires IsRun(actions, run, noteOf)
    requires run[|actions|].engine.Idle? && AtStage(run[|actions|], id, Added)
    ensures var b := run[|actions|];
            && (id in b.open || id in b.closed <==> id !in b.inWindow)
            && (id in b.open ==> id in b.notes && id !in b.closed)
            && (id in b.closed ==> IsPlucked(b, id) && id !in b.notes)
            && (id in b.inWindow ==> id in b.notes && !IsPlucked(b, id))
  {
    RunKeepsInvariant(actions, run, noteOf);
  }

  /** The exception is real: the shortest run that loses an order. */
  lemma AnOrderIsLost(note: nat) returns (actions: seq<Action>, run: seq<Book>, noteOf: NoteOf)
    ensures IsRun(actions, run, noteOf) && |actions| == 6
    ensures run[6] == Book(map[0 := Added], {0}, map[0 := note], {}, {}, Plucking({}), {0}, [])
  {
    noteOf := id => note;
    var created := Next(EMPTY, Create(0), noteOf);
    var idStored := Next(created, StoreNoteId(0), noteOf);
    var stored := Next(idStored, StoreNote(0), noteOf);
    var copying := Next(stored, Snapshot, noteOf);
    var added := Next(copying, OpenOrder(0), noteOf);
    var lost := Next(added, Clear, noteOf);
    assert lost.requests == map[0 := Added] && lost.notes == map[0 := note];
    actions := [Create(0), StoreNoteId(0), StoreNote(0), Snapshot, OpenOrder(0), Clear];
    run := [EMPTY, created, idStored, stored, copying, added, lost];
  }
}
