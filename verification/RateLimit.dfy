/** The faucet's guard in `faucet.rs`: who is minted for, and how often at most. */
module RateLimit {
  import opened Felts
  import opened Assets

  const COOLDOWN: nat := 240

  datatype Recipient = Recipient(account: AccountId, faucet: AccountId)

  /** One mint instruction met at a clock reading; `created` says whether building its note succeeds. */
  datatype Attempt = Attempt(recipient: Recipient, now: U64, created: bool)

  datatype Mint = Mint(recipient: Recipient, at: U64)

  /** The recipients map, and the notes made so far in order. */
  datatype Guard = Guard(recipients: map<Recipient, U64>, log: seq<Mint>)

  const EMPTY := Guard(map[], [])

  function LastMint(recipients: map<Recipient, U64>, r: Recipient): U64 {
    if r in recipients then recipients[r] else 0
  }

  /** `now - last_mint > 240` on `u64`, where a clock that ran backwards wraps. */
  predicate CanMint(now: U64, lastMint: U64) {
    (if lastMint <= now then now - lastMint else now - lastMint + U64_MAX + 1) > COOLDOWN
  }

  function Serve(g: Guard, a: Attempt): Guard {
    if CanMint(a.now, LastMint(g.recipients, a.recipient)) && a.created then
      Guard(g.recipients[a.recipient := a.now], g.log + [Mint(a.recipient, a.now)])
    else g
  }

  function ServeAll(g: Guard, attempts: seq<Attempt>): Guard {
    if attempts == [] then g else Serve(ServeAll(g, attempts[..|attempts| - 1]), attempts[|attempts| - 1])
  }

  lemma {:induction false} ServeAllConcat(g: Guard, a: seq<Attempt>, b: seq<Attempt>)
    ensures ServeAll(g, a + b) == ServeAll(ServeAll(g, a), b)
    decreases |b|
  {
    if b == [] {
      assert a + b == a;
    } else {
      var n := |b| - 1;
      assert (a + b)[..|a + b| - 1] == a + b[..n];
      ServeAllConcat(g, a, b[..n]);
    }
  }

  /** The attempts of one pass: the instructions for one faucet, in the order received. */
  function PassAttempts(instructions: seq<Recipient>, faucet: AccountId, now: U64, created: nat -> bool): seq<Attempt> {
    if instructions == [] then []
    else
      var n := |instructions| - 1;
      PassAttempts(instructions[..n], faucet, now, created)
      + if instructions[n].faucet == faucet then [Attempt(instructions[n], now, created(n))] else []
  }

  /** One configured pool with the clock reading of its pass and the outcomes of its note creations. */
  datatype Pass = Pass(faucet: AccountId, now: U64, created: nat -> bool)

  function BatchAttempts(instructions: seq<Recipient>, passes: seq<Pass>): seq<Attempt> {
    if passes == [] then []
    else
      var n := |passes| - 1;
      BatchAttempts(instructions, passes[..n])
      + PassAttempts(instructions, passes[n].faucet, passes[n].now, passes[n].created)
  }

  ghost predicate ClockRuns(attempts: seq<Attempt>) {
    forall i, j | 0 <= i <= j < |attempts| :: attempts[i].now <= attempts[j].now
  }

  ghost predicate Spaced(log: seq<Mint>) {
    forall i, j | 0 <= i < j < |log| && log[i].recipient == log[j].recipient :: log[j].at - log[i].at > COOLDOWN
  }

  /** The map is at least as late as every mint of its recipient. */
  ghost predicate Covers(g: Guard) {
    forall i | 0 <= i < |g.log| ::
      g.log[i].recipient in g.recipients && g.log[i].at <= g.recipients[g.log[i].recipient]
  }

  /** What the map holds is the time of a mint. */
  ghost predicate Witnessed(g: Guard) {
    forall r | r in g.recipients :: Mint(r, g.recipients[r]) in g.log
  }

  ghost predicate NotAfter(g: Guard, now: nat) {
    forall r | r in g.recipients :: g.recipients[r] <= now
  }

  ghost predicate Tracked(g: Guard, now: nat) {
    Spaced(g.log) && Covers(g) && Witnessed(g) && NotAfter(g, now)
  }

  /** The clock at the end of a series of attempts. */
  function Ended(before: nat, attempts: seq<Attempt>): nat {
    if attempts == [] then before else attempts[|attempts| - 1].now
  }

  lemma {:induction false} AttemptsTracked(g: Guard, before: nat, attempts: seq<Attempt>)
    requires Tracked(g, before) && ClockRuns(attempts) && (attempts != [] ==> before <= attempts[0].now)
    ensures Tracked(ServeAll(g, attempts), Ended(before, attempts))
    decreases |attempts|
  {
    if attempts != [] {
      var n := |attempts| - 1;
      AttemptsTracked(g, before, attempts[..n]);
      ServeTracked(ServeAll(g, attempts[..n]), attempts[n], Ended(before, attempts[..n]));
    }
  }

  lemma ServeTracked(g: Guard, a: Attempt, before: nat)
    requires Tracked(g, before) && before <= a.now
    ensures Tracked(Serve(g, a), a.now)
  {
    var h := Serve(g, a);
    if h != g {
      forall r | r in h.recipients
        ensures Mint(r, h.recipients[r]) in h.log
      {
        assert r != a.recipient ==> Mint(r, g.recipients[r]) in g.log;
        assert h.log[|g.log|] == Mint(a.recipient, a.now);
      }
    }
  }

  lemma AttemptsSpaced(attempts: seq<Attempt>)
    requires ClockRuns(attempts)
    ensures Spaced(ServeAll(EMPTY, attempts).log)
  {
    AttemptsTracked(EMPTY, 0, attempts);
  }

  /** However instructions are batched or repeated, two mints for one user and faucet are 241 seconds apart. */
  lemma MintsAreSpaced(attempts: seq<Attempt>, i: nat, j: nat)
    requires ClockRuns(attempts)
    requires var log := ServeAll(EMPTY, attempts).log; i < j < |log| && log[i].recipient == log[j].recipient
    ensures var log := ServeAll(EMPTY, attempts).log; log[j].at >= log[i].at + 241
  {
    AttemptsSpaced(attempts);
  }

  /** An attempt is served exactly when its note is created and the cooldown has run out since the latest mint. */
  lemma ServedExactly(attempts: seq<Attempt>, a: Attempt)
    requires ClockRuns(attempts + [a])
    ensures var g := ServeAll(EMPTY, attempts);
            Serve(g, a).log == g.log + [Mint(a.recipient, a.now)]
            <==> a.created && a.now > COOLDOWN
                 && forall m | m in g.log && m.recipient == a.recipient :: a.now - m.at > COOLDOWN
  {
    assert forall i | 0 <= i < |attempts| :: attempts[i] == (attempts + [a])[i];
    assert (attempts + [a])[|attempts|] == a;
    AttemptsTracked(EMPTY, 0, attempts);
    var g := ServeAll(EMPTY, attempts);
    if a.recipient in g.recipients {
      assert Mint(a.recipient, g.recipients[a.recipient]) in g.log;
    }
  }

  /** The clock hypothesis is needed: against a clock that ran backwards the guard is open. */
  lemma BackwardClockOpensGuard(now: U64, lastMint: U64)
    requires now < lastMint
    ensures CanMint(now, lastMint) <==> lastMint - now <= U64_MAX - COOLDOWN
  {
  }

  function CountIn(log: seq<Mint>, r: Recipient, from: int, to: int): nat {
    if log == [] then 0
    else
      var n := |log| - 1;
      CountIn(log[..n], r, from, to) + if log[n].recipient == r && from <= log[n].at <= to then 1 else 0
  }

  lemma {:induction false} CountNarrowed(log: seq<Mint>, r: Recipient, from: int, to: int, last: int)
    requires last <= to
    requires forall i | 0 <= i < |log| && log[i].recipient == r :: log[i].at <= last
    ensures CountIn(log, r, from, to) == CountIn(log, r, from, last)
  {
    if log != [] {
      CountNarrowed(log[..|log| - 1], r, from, to, last);
    }
  }

  lemma {:induction false} SpacedCount(log: seq<Mint>, r: Recipient, from: int, to: int)
    requires Spaced(log)
    ensures CountIn(log, r, from, to) <= if from <= to then (to - from) / 241 + 1 else 0
    decreases |log|
  {
    if log != [] {
      var n := |log| - 1;
      var at := log[n].at;
      if log[n].recipient == r && from <= at <= to {
        CountNarrowed(log[..n], r, from, to, at - 241);
        SpacedCount(log[..n], r, from, at - 241);
      } else {
        SpacedCount(log[..n], r, from, to);
      }
    }
  }

  /** Any window of T seconds holds at most T / 241 + 1 mints for one user and faucet. */
  lemma WindowBound(attempts: seq<Attempt>, r: Recipient, from: nat, seconds: nat)
    requires ClockRuns(attempts)
    ensures CountIn(ServeAll(EMPTY, attempts).log, r, from, from + seconds) <= seconds / 241 + 1
  {
    AttemptsSpaced(attempts);
    SpacedCount(ServeAll(EMPTY, attempts).log, r, from, from + seconds);
  }

  /** Instruction `n` is looked at in pass `k`: the pass is over its own faucet. */
  predicate Meets(instructions: seq<Recipient>, passes: seq<Pass>, n: nat, k: nat) {
    n < |instructions| && k < |passes| && instructions[n].faucet == passes[k].faucet
  }

  /** A mint that the batch calls for: an instruction, at the clock of a pass over its faucet that created its note. */
  ghost predicate CalledFor(instructions: seq<Recipient>, passes: seq<Pass>, m: Mint) {
    exists n: nat, k: nat | Meets(instructions, passes, n, k) ::
      m == Mint(instructions[n], passes[k].now) && passes[k].created(n)
  }

  lemma {:induction false} PassAttemptsFrom(instructions: seq<Recipient>, p: Pass, a: Attempt)
    requires a in PassAttempts(instructions, p.faucet, p.now, p.created)
    ensures exists n: nat | n < |instructions| ::
              instructions[n].faucet == p.faucet && a == Attempt(instructions[n], p.now, p.created(n))
    decreases |instructions|
  {
    var n := |instructions| - 1;
    if a in PassAttempts(instructions[..n], p.faucet, p.now, p.created) {
      PassAttemptsFrom(instructions[..n], p, a);
    }
  }

  lemma {:induction false} PassAttemptsHave(instructions: seq<Recipient>, p: Pass, n: nat)
    requires n < |instructions| && instructions[n].faucet == p.faucet
    ensures Attempt(instructions[n], p.now, p.created(n))
            in PassAttempts(instructions, p.faucet, p.now, p.created)
    decreases |instructions|
  {
    if n < |instructions| - 1 {
      PassAttemptsHave(instructions[..|instructions| - 1], p, n);
    }
  }

  lemma {:induction false} BatchAttemptsFrom(instructions: seq<Recipient>, passes: seq<Pass>, a: Attempt)
    requires a in BatchAttempts(instructions, passes)
    ensures exists n: nat, k: nat | Meets(instructions, passes, n, k) ::
              a == Attempt(instructions[n], passes[k].now, passes[k].created(n))
    decreases |passes|
  {
    var k := |passes| - 1;
    if a in BatchAttempts(instructions, passes[..k]) {
      BatchAttemptsFrom(instructions, passes[..k], a);
      var n: nat, l: nat :| Meets(instructions, passes[..k], n, l)
                            && a == Attempt(instructions[n], passes[..k][l].now, passes[..k][l].created(n));
      assert Meets(instructions, passes, n, l);
    } else {
      PassAttemptsFrom(instructions, passes[k], a);
      var n: nat :| n < |instructions| && instructions[n].faucet == passes[k].faucet
                    && a == Attempt(instructions[n], passes[k].now, passes[k].created(n));
      assert Meets(instructions, passes, n, k);
    }
  }

  lemma {:induction false} BatchAttemptsHave(instructions: seq<Recipient>, passes: seq<Pass>, n: nat, k: nat)
    requires Meets(instructions, passes, n, k)
    ensures Attempt(instructions[n], passes[k].now, passes[k].created(n)) in BatchAttempts(instructions, passes)
    decreases |passes|
  {
    var last := |passes| - 1;
    if k < last {
      BatchAttemptsHave(instructions, passes[..last], n, k);
    } else {
      PassAttemptsHave(instructions, passes[k], n);
    }
  }

  /** The clock does not run backwards between passes. */
  ghost predicate PassesRun(passes: seq<Pass>, before: nat) {
    && (forall i, j | 0 <= i <= j < |passes| :: passes[i].now <= passes[j].now)
    && (forall i | 0 <= i < |passes| :: before <= passes[i].now)
  }

  lemma {:induction false} PassClock(instructions: seq<Recipient>, p: Pass)
    ensures forall a | a in PassAttempts(instructions, p.faucet, p.now, p.created) :: a.now == p.now
  {
    forall a | a in PassAttempts(instructions, p.faucet, p.now, p.created)
      ensures a.now == p.now
    {
      PassAttemptsFrom(instructions, p, a);
    }
  }

  lemma {:induction false} BatchClock(instructions: seq<Recipient>, passes: seq<Pass>, before: nat)
    requires PassesRun(passes, before)
    ensures ClockRuns(BatchAttempts(instructions, passes))
    ensures forall a | a in BatchAttempts(instructions, passes) :: before <= a.now
    ensures forall a | a in BatchAttempts(instructions, passes) :: passes != [] && a.now <= passes[|passes| - 1].now
    decreases |passes|
  {
    if passes != [] {
      var k := |passes| - 1;
      BatchClock(instructions, passes[..k], before);
      PassClock(instructions, passes[k]);
    }
  }

  /** A log only grows, and only by mints that were attempted and created. */
  lemma {:induction false} LogGrows(g: Guard, attempts: seq<Attempt>)
    ensures g.log <= ServeAll(g, attempts).log
    ensures forall i | |g.log| <= i < |ServeAll(g, attempts).log| ::
              var m := ServeAll(g, attempts).log[i]; Attempt(m.recipient, m.at, true) in attempts
    decreases |attempts|
  {
    if attempts != [] {
      var n := |attempts| - 1;
      LogGrows(g, attempts[..n]);
      assert forall a | a in attempts[..n] :: a in attempts;
      assert attempts[n] in attempts;
    }
  }

  /** An attempt whose note is created and whose cooldown has run out since all earlier mints is in the log. */
  lemma AttemptIsServed(g: Guard, before: nat, attempts: seq<Attempt>, a: Attempt)
    requires Tracked(g, before) && ClockRuns(attempts) && (attempts != [] ==> before <= attempts[0].now)
    requires a in attempts && a.created && a.now > 240
    requires forall m | m in ServeAll(g, attempts).log && m.recipient == a.recipient && m.at < a.now ::
               a.now - m.at > 240
    ensures Mint(a.recipient, a.now) in ServeAll(g, attempts).log
  {
    var j: nat :| j < |attempts| && attempts[j] == a;
    var h := ServeAll(g, attempts[..j]);
    AttemptsTracked(g, before, attempts[..j]);
    ServedBetween(g, attempts, j);
    PrefixIn(h.log, ServeAll(g, attempts).log);
    ServedIfDue(h, Ended(before, attempts[..j]), a);
    PrefixIn(Serve(h, a).log, ServeAll(g, attempts).log);
  }

  lemma PrefixIn(xs: seq<Mint>, ys: seq<Mint>)
    requires xs <= ys
    ensures forall m | m in xs :: m in ys
  {
  }

  lemma ServedIfDue(h: Guard, before: nat, a: Attempt)
    requires Tracked(h, before) && before <= a.now && a.created && a.now > 240
    requires forall m | m in h.log && m.recipient == a.recipient && m.at < a.now :: a.now - m.at > 240
    ensures Mint(a.recipient, a.now) in Serve(h, a).log
  {
    if a.recipient in h.recipients {
      assert Mint(a.recipient, h.recipients[a.recipient]) in h.log;
    }
    if Serve(h, a) != h {
      assert Serve(h, a).log[|h.log|] == Mint(a.recipient, a.now);
    }
  }

  /** The logs before and after one attempt are the beginning of the final one. */
  lemma ServedBetween(g: Guard, attempts: seq<Attempt>, j: nat)
    requires j < |attempts|
    ensures var h := ServeAll(g, attempts[..j]);
            h.log <= Serve(h, attempts[j]).log <= ServeAll(g, attempts).log
  {
    var first, rest := attempts[..j + 1], attempts[j + 1..];
    assert attempts == first + rest && first[..j] == attempts[..j];
    ServeAllConcat(g, first, rest);
    LogGrows(ServeAll(g, first), rest);
  }

  /** One turn of the serving loop mints only what it is called for. */
  ghost predicate MintsOnlyCalled(g: Guard, instructions: seq<Recipient>, passes: seq<Pass>, h: Guard) {
    g.log <= h.log && forall i | |g.log| <= i < |h.log| :: CalledFor(instructions, passes, h.log[i])
  }

  /** And it mints for every instruction that a pass over its faucet creates a note for, unless it is too soon. */
  ghost predicate MintsAllDue(instructions: seq<Recipient>, passes: seq<Pass>, h: Guard) {
    forall n: nat, k: nat | Meets(instructions, passes, n, k) && passes[k].created(n) && passes[k].now > 240 ::
      Mint(instructions[n], passes[k].now) in h.log || RecentlyServed(h.log, instructions[n], passes[k].now)
  }

  /** Some earlier mint for this recipient is not yet 241 seconds past. */
  ghost predicate RecentlyServed(log: seq<Mint>, r: Recipient, now: nat) {
    exists m | m in log && m.recipient == r :: m.at < now <= m.at + 240
  }

  lemma BatchMintsOnlyCalled(g: Guard, instructions: seq<Recipient>, passes: seq<Pass>)
    ensures MintsOnlyCalled(g, instructions, passes, ServeAll(g, BatchAttempts(instructions, passes)))
  {
    var attempts := BatchAttempts(instructions, passes);
    var h := ServeAll(g, attempts);
    LogGrows(g, attempts);
    forall i | |g.log| <= i < |h.log|
      ensures CalledFor(instructions, passes, h.log[i])
    {
      BatchAttemptsFrom(instructions, passes, Attempt(h.log[i].recipient, h.log[i].at, true));
    }
  }

  lemma BatchMintsAllDue(g: Guard, before: nat, instructions: seq<Recipient>, passes: seq<Pass>)
    requires Tracked(g, before) && PassesRun(passes, before)
    ensures MintsAllDue(instructions, passes, ServeAll(g, BatchAttempts(instructions, passes)))
    ensures Tracked(ServeAll(g, BatchAttempts(instructions, passes)),
                    if passes == [] then before else passes[|passes| - 1].now)
  {
    var attempts := BatchAttempts(instructions, passes);
    var h := ServeAll(g, attempts);
    BatchClock(instructions, passes, before);
    AttemptsTracked(g, before, attempts);
    forall n: nat, k: nat | Meets(instructions, passes, n, k) && passes[k].created(n) && passes[k].now > 240
      ensures Mint(instructions[n], passes[k].now) in h.log || RecentlyServed(h.log, instructions[n], passes[k].now)
    {
      if !RecentlyServed(h.log, instructions[n], passes[k].now) {
        BatchAttemptsHave(instructions, passes, n, k);
        AttemptIsServed(g, before, attempts, Attempt(instructions[n], passes[k].now, true));
      }
    }
  }

  /** One more instruction of a pass. */
  lemma PassNext(g: Guard, instructions: seq<Recipient>, p: Pass, i: nat)
    requires i < |instructions|
    ensures var h := ServeAll(g, PassAttempts(instructions[..i], p.faucet, p.now, p.created));
            ServeAll(g, PassAttempts(instructions[..i + 1], p.faucet, p.now, p.created))
            == if instructions[i].faucet == p.faucet then Serve(h, Attempt(instructions[i], p.now, p.created(i))) else h
  {
    assert instructions[..i + 1][..i] == instructions[..i];
    var before := PassAttempts(instructions[..i], p.faucet, p.now, p.created);
    var attempt := Attempt(instructions[i], p.now, p.created(i));
    assert (before + [attempt])[..|before|] == before && before + [] == before;
  }

  class GuardedFaucet {
    var recipients: map<Recipient, U64>
    ghost var log: seq<Mint>

    ghost function View(): Guard
      reads this
    {
      Guard(recipients, log)
    }

    constructor ()
      ensures View() == EMPTY
    {
      recipients := map[];
      log := [];
    }

    /** One turn of the serving loop: every pool in turn looks through the received instructions. */
    method ServeBatch(instructions: seq<Recipient>, passes: seq<Pass>, ghost before: nat)
      modifies this
      ensures View() == ServeAll(old(View()), BatchAttempts(instructions, passes))
      ensures MintsOnlyCalled(old(View()), instructions, passes, View())
      ensures Tracked(old(View()), before) && PassesRun(passes, before) ==>
                && MintsAllDue(instructions, passes, View())
                && Tracked(View(), if passes == [] then before else passes[|passes| - 1].now)
    {
      BatchMintsOnlyCalled(View(), instructions, passes);
      if Tracked(View(), before) && PassesRun(passes, before) {
        BatchMintsAllDue(View(), before, instructions, passes);
      }
      assert BatchAttempts(instructions, []) == [];
      for i := 0 to |passes|
        invariant View() == ServeAll(old(View()), BatchAttempts(instructions, passes[..i]))
      {
        ServePass(instructions, passes[i]);
        var p := passes[i];
        assert passes[..i + 1][..i] == passes[..i];
        ServeAllConcat(old(View()), BatchAttempts(instructions, passes[..i]),
                       PassAttempts(instructions, p.faucet, p.now, p.created));
      }
      assert passes[..|passes|] == passes;
    }

    method ServePass(instructions: seq<Recipient>, p: Pass)
      modifies this
      ensures View() == ServeAll(old(View()), PassAttempts(instructions, p.faucet, p.now, p.created))
    {
      for i := 0 to |instructions|
        invariant View() == ServeAll(old(View()), PassAttempts(instructions[..i], p.faucet, p.now, p.created))
      {
        var instruction := instructions[i];
        PassNext(old(View()), instructions, p, i);
        if instruction.faucet == p.faucet {
          var lastMint := LastMint(recipients, instruction);
          if CanMint(p.now, lastMint) {
            if p.created(i) {
              recipients := recipients[instruction := p.now];
              log := log + [Mint(instruction, p.now)];
            }
          }
        }
      }
      assert instructions[..|instructions|] == instructions;
    }
  }
}
