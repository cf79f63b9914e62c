/** Conservation of LP shares in the `user_deposits` map of the contract. */
module LpLedger {
  import opened Felts
  import opened Assets
  import opened StorageKeys
  import opened PoolContract

  ghost function SumOver(d: Ledger, keys: set<Word>): nat
    requires keys <= d.Keys
    decreases |keys|
  {
    if keys == {} then 0
    else
      var k :| k in keys;
      d[k] + SumOver(d, keys - {k})
  }

  /** The entries of one asset that belong to users; the total-supply entry is not among them. */
  ghost function UserKeys(d: Ledger, f: AccountId): set<Word> {
    set k | k in d && IsUserKey(k, f)
  }

  predicate IsUserKey(k: Word, f: AccountId) {
    k.w0 == f.suffix && k.w1 == f.prefix && !(k.w2 == 0 && k.w3 == 0)
  }

  ghost function UserSum(d: Ledger, f: AccountId): nat {
    SumOver(d, UserKeys(d, f))
  }

  ghost predicate Conserved(d: Ledger) {
    forall f: AccountId :: ConservedFor(d, f)
  }

  ghost predicate ConservedFor(d: Ledger, f: AccountId) {
    Entry(d, TotalKey(f)) == UserSum(d, f)
  }

  lemma {:induction false} SumExtract(d: Ledger, keys: set<Word>, k: Word)
    requires keys <= d.Keys && k in keys
    ensures SumOver(d, keys) == d[k] + SumOver(d, keys - {k})
    decreases |keys|
  {
    var pick :| pick in keys && SumOver(d, keys) == d[pick] + SumOver(d, keys - {pick});
    if pick != k {
      SumExtract(d, keys - {pick}, k);
      SumExtract(d, keys - {k}, pick);
      assert keys - {pick} - {k} == keys - {k} - {pick};
    }
  }

  lemma {:induction false} SumFrame(d: Ledger, e: Ledger, keys: set<Word>)
    requires keys <= d.Keys && keys <= e.Keys
    requires forall k | k in keys :: d[k] == e[k]
    ensures SumOver(d, keys) == SumOver(e, keys)
    decreases |keys|
  {
    if keys != {} {
      var pick :| pick in keys && SumOver(d, keys) == d[pick] + SumOver(d, keys - {pick});
      SumFrame(d, e, keys - {pick});
      SumExtract(e, keys, pick);
    }
  }

  /** Writing one entry moves the sum of its own asset by the change, and no other sum. */
  lemma UserSumAfterWrite(d: Ledger, k: Word, v: Felt, f: AccountId)
    ensures UserSum(d[k := v], f) == UserSum(d, f) + if IsUserKey(k, f) then v - Entry(d, k) else 0
  {
    var e := d[k := v];
    var ks := UserKeys(d, f) - {k};
    assert UserKeys(e, f) - {k} == ks;
    SumFrame(d, e, ks);
    if IsUserKey(k, f) {
      SumExtract(e, UserKeys(e, f), k);
      if k in d {
        SumExtract(d, UserKeys(d, f), k);
      } else {
        assert UserKeys(d, f) == ks;
      }
    } else {
      assert UserKeys(e, f) == ks && UserKeys(d, f) == ks;
    }
  }

  /** No user owns more than the recorded supply. */
  lemma ShareWithinTotal(d: Ledger, f: AccountId, user: AccountId)
    requires ConservedFor(d, f) && user != NO_ACCOUNT
    ensures Entry(d, UserKey(f, user)) <= Entry(d, TotalKey(f))
  {
    var k := UserKey(f, user);
    if k in d {
      SumExtract(d, UserKeys(d, f), k);
    }
  }

  /** The two entries written by `deposit` and `withdraw`, and what the write does to every asset's balance. */
  lemma WritePair(d: Ledger, f: AccountId, user: AccountId, v: Felt, t: Felt, g: AccountId)
    requires Conserved(d)
    ensures var e := d[UserKey(f, user) := v][TotalKey(f) := t];
            ConservedFor(e, g) <==>
            (g == f ==> t == UserSum(d, f) + if user == NO_ACCOUNT then 0 else v - Entry(d, UserKey(f, user)))
  {
    var d' := d[UserKey(f, user) := v];
    UserSumAfterWrite(d, UserKey(f, user), v, g);
    UserSumAfterWrite(d', TotalKey(f), t, g);
    assert ConservedFor(d, g);
  }

  /**
   A deposit succeeds exactly when the total stays a field element: the user's own entry cannot overflow first.
   It keeps the ledger conserved exactly when it credits nothing or a real account.
   */
  lemma DepositExact(s: State, f: AccountId, user: AccountId, amount: Felt)
    requires Conserved(s.deposits)
    ensures user != NO_ACCOUNT ==> (Deposit(s, f, user, amount).Some? <==> TotalSupply(s, f) + amount < P)
    ensures Deposit(s, f, user, amount).Some? ==>
              (Conserved(Deposit(s, f, user, amount).value.deposits) <==> user != NO_ACCOUNT || amount == 0)
  {
    var d := s.deposits;
    assert ConservedFor(d, f);
    if user != NO_ACCOUNT {
      ShareWithinTotal(d, f, user);
    }
    var r := Deposit(s, f, user, amount);
    if r.Some? {
      var v := Entry(d, UserKey(f, user)) + amount;
      var t := Entry(d[UserKey(f, user) := v], TotalKey(f)) + amount;
      forall g: AccountId
        ensures ConservedFor(r.value.deposits, g) <==> g != f || user != NO_ACCOUNT || amount == 0
      {
        WritePair(d, f, user, v, t, g);
      }
      assert Conserved(r.value.deposits) ==> ConservedFor(r.value.deposits, f);
    }
  }

  /**
   A withdrawal succeeds exactly when 0 < amount <= the user's shares: the comparison after the wrapping
   subtraction rejects everything else, and the subtraction from the supply cannot underflow behind it.
   */
  lemma WithdrawExact(s: State, f: AccountId, user: AccountId, amount: Felt)
    requires Conserved(s.deposits)
    ensures user != NO_ACCOUNT ==> (Withdraw(s, f, user, amount).Some? <==> 0 < amount <= Shares(s, f, user))
    ensures Withdraw(s, f, user, amount).Some? ==>
              (Conserved(Withdraw(s, f, user, amount).value.deposits) <==> user != NO_ACCOUNT)
  {
    var d := s.deposits;
    assert ConservedFor(d, f);
    if user != NO_ACCOUNT {
      ShareWithinTotal(d, f, user);
    }
    var r := Withdraw(s, f, user, amount);
    if r.Some? {
      var v := Entry(d, UserKey(f, user)) - amount;
      var t := Entry(d[UserKey(f, user) := v], TotalKey(f)) - amount;
      forall g: AccountId
        ensures ConservedFor(r.value.deposits, g) <==> g != f || user != NO_ACCOUNT
      {
        WritePair(d, f, user, v, t, g);
      }
      assert Conserved(r.value.deposits) ==> ConservedFor(r.value.deposits, f);
    }
  }

  predicate NamesAccount(i: Invocation) {
    match i
    case InvokeDeposit(_, user, _) => user != NO_ACCOUNT
    case InvokeWithdraw(_, user, _) => user != NO_ACCOUNT
    case _ => true
  }

  lemma InvokeKeepsConserved(s: State, i: Invocation)
    requires Conserved(s.deposits) && NamesAccount(i) && Invoke(s, i).Some?
    ensures Conserved(Invoke(s, i).value.deposits)
  {
    match i
    case InvokeDeposit(f, u, amount) => DepositExact(s, f, u, amount);
    case InvokeWithdraw(f, u, amount) => WithdrawExact(s, f, u, amount);
    case _ =>
  }

  lemma EmptyLedgerConserved()
    ensures Conserved(EMPTY.deposits)
  {
    forall f: AccountId
      ensures ConservedFor(EMPTY.deposits, f)
    {
      assert UserKeys(EMPTY.deposits, f) == {};
    }
  }

  /** In every reachable state the supply of each asset is the sum of all its users' shares. */
  lemma {:induction false} AlwaysConserved(calls: seq<Invocation>)
    requires forall i | i in calls :: NamesAccount(i)
    ensures Conserved(History(EMPTY, calls).deposits)
  {
    if calls == [] {
      EmptyLedgerConserved();
    } else {
      var init := calls[..|calls| - 1];
      AlwaysConserved(init);
      var last := calls[|calls| - 1];
      assert last in calls;
      var before := History(EMPTY, init);
      if Invoke(before, last).Some? {
        InvokeKeepsConserved(before, last);
      }
    }
  }
}
