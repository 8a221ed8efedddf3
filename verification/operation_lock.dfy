/** The keyed, reference-counted lock of `acquireOperation`: one lock object per account with
    pending Apple operations, created by the first and dropped by the last of them. */
module OperationLocks {
  import opened Results

  /** `operationLock`: a reference count and a one-slot channel. */
  class OperationLock {
    var refs: nat
    var token: bool

    constructor ()
      ensures refs == 0 && !token
    {
      refs, token := 0, false;
    }
  }

  /** Where a goroutine stands inside `acquireOperation` or the release function it returned. */
  datatype Stage = Waiting | Holding | Leaving

  datatype Routine = Routine(account: int, lock: OperationLock, stage: Stage)

  /** The goroutines that have entered for an account and not left. */
  function Users(routines: map<nat, Routine>, account: int): set<nat> {
    set r | r in routines && routines[r].account == account
  }

  function Holders(routines: map<nat, Routine>, account: int): set<nat> {
    set r | r in routines && routines[r].account == account && routines[r].stage.Holding?
  }

  /** Where a goroutine is after its next step: it enters, waits for the lock, holds it, gives
      it back and leaves; a cancelled one leaves instead of waiting. */
  function NextStage(routines: map<nat, Routine>, r: nat, cancelled: bool): Option<Stage> {
    if r !in routines then Some(Waiting)
    else if routines[r].stage.Holding? then Some(Leaving)
    else if routines[r].stage.Leaving? || cancelled then None
    else if Holders(routines, routines[r].account) == {} then Some(Holding)
    else Some(Waiting)
  }

  function StageOf(routines: map<nat, Routine>, r: nat): Option<Stage> {
    if r in routines then Some(routines[r].stage) else None
  }

  /** What a lock object says about its account. */
  ghost predicate Counts(refs: nat, token: bool, routines: map<nat, Routine>, account: int) {
    && refs == |Users(routines, account)|
    && (token ==> |Holders(routines, account)| == 1)
    && (!token ==> Holders(routines, account) == {})
  }

  /** One goroutine changes; the other accounts do not see it. */
  lemma OthersUnchanged(routines: map<nat, Routine>, r: nat, routine: Routine, other: int)
    requires routine.account != other && (r in routines ==> routines[r].account != other)
    ensures Users(routines[r := routine], other) == Users(routines, other)
    ensures Holders(routines[r := routine], other) == Holders(routines, other)
    ensures Users(routines - {r}, other) == Users(routines, other)
    ensures Holders(routines - {r}, other) == Holders(routines, other)
  {
  }

  lemma Entered(refs: nat, token: bool, routines: map<nat, Routine>, r: nat, account: int, lock: OperationLock)
    requires r !in routines && Counts(refs, token, routines, account)
    ensures Counts(refs + 1, token, routines[r := Routine(account, lock, Waiting)], account)
  {
    var after := routines[r := Routine(account, lock, Waiting)];
    assert Users(after, account) == Users(routines, account) + {r};
    assert Holders(after, account) == Holders(routines, account);
  }

  lemma Taken(refs: nat, routines: map<nat, Routine>, r: nat)
    requires r in routines && Counts(refs, false, routines, routines[r].account)
    ensures Counts(refs, true, routines[r := routines[r].(stage := Holding)], routines[r].account)
  {
    var account, after := routines[r].account, routines[r := routines[r].(stage := Holding)];
    assert Users(after, account) == Users(routines, account);
    assert Holders(after, account) == {r};
  }

  lemma {:induction false} OnlyHolder(refs: nat, token: bool, routines: map<nat, Routine>, r: nat, q: nat)
    requires r in routines && routines[r].stage.Holding? && Counts(refs, token, routines, routines[r].account)
    requires q in routines && routines[q].stage.Holding? && routines[q].account == routines[r].account
    ensures token && q == r
  {
    var holders := Holders(routines, routines[r].account);
    assert r in holders && q in holders;
    assert |holders - {r}| == |holders| - 1;
    assert holders - {r} == {};
  }

  lemma GivenBack(refs: nat, token: bool, routines: map<nat, Routine>, r: nat)
    requires r in routines && routines[r].stage.Holding? && Counts(refs, token, routines, routines[r].account)
    ensures Counts(refs, false, routines[r := routines[r].(stage := Leaving)], routines[r].account)
  {
    var account, after := routines[r].account, routines[r := routines[r].(stage := Leaving)];
    assert Users(after, account) == Users(routines, account);
    forall q ensures q !in Holders(after, account) {
      if q in Holders(after, account) { OnlyHolder(refs, token, routines, r, q); }
    }
  }

  lemma Left(refs: nat, token: bool, routines: map<nat, Routine>, r: nat)
    requires r in routines && !routines[r].stage.Holding? && Counts(refs, token, routines, routines[r].account)
    ensures refs > 0 && Counts(refs - 1, token, routines - {r}, routines[r].account)
  {
    var account, after := routines[r].account, routines - {r};
    assert r in Users(routines, account);
    assert Users(after, account) == Users(routines, account) - {r};
    assert Holders(after, account) == Holders(routines, account);
  }

  class Service {
    var operationLock: map<int, OperationLock>
    /** The local state of every goroutine that has entered and not left. */
    var routines: map<nat, Routine>

    /** Every goroutine uses the lock its account maps to. */
    ghost predicate Shared()
      reads this
    {
      forall r :: r in routines ==>
        routines[r].account in operationLock && operationLock[routines[r].account] == routines[r].lock
    }

    ghost predicate Separate()
      reads this
    {
      forall a, b :: a in operationLock && b in operationLock && a != b ==> operationLock[a] != operationLock[b]
    }

    ghost predicate Counted(a: int)
      requires a in operationLock
      reads this, operationLock.Values
    {
      operationLock[a].refs > 0 && Counts(operationLock[a].refs, operationLock[a].token, routines, a)
    }

    ghost predicate Valid()
      reads this, operationLock.Values
    {
      Shared() && Separate() && forall a :: a in operationLock ==> Counted(a)
    }

    /** One holder per account, and an entry exactly for the accounts in use. */
    lemma MutualExclusion(r: nat, q: nat, a: int)
      requires Valid()
      ensures r in routines && q in routines && r != q && routines[r].account == routines[q].account ==>
        routines[r].lock == routines[q].lock && !(routines[r].stage.Holding? && routines[q].stage.Holding?)
      ensures a in operationLock <==> Users(routines, a) != {}
    {
      if r in routines && q in routines && r != q && routines[r].account == routines[q].account {
        var b := routines[r].account;
        assert Counted(b);
        if routines[r].stage.Holding? && routines[q].stage.Holding? {
          OnlyHolder(operationLock[b].refs, operationLock[b].token, routines, r, q);
        }
      }
      if a in operationLock { assert Counted(a); }
      if u :| u in Users(routines, a) { assert u in routines; }
    }

    constructor ()
      ensures Valid() && routines == map[] && operationLock == map[]
    {
      operationLock, routines := map[], map[];
    }

    /** Finds or creates the account's lock. */
    method Lookup(account: int) returns (lock: OperationLock)
      requires Valid()
      modifies this`operationLock
      ensures Shared() && Separate() && account in operationLock && operationLock[account] == lock
      ensures Counts(lock.refs, lock.token, routines, account)
      ensures forall a :: a in operationLock && a != account ==> Counted(a)
      ensures account in old(operationLock) ==> operationLock == old(operationLock)
      ensures account !in old(operationLock) ==> fresh(lock) && operationLock == old(operationLock)[account := lock]
    {
      if account in operationLock {
        assert Counted(account);
        return operationLock[account];
      }
      lock := new OperationLock();
      assert Users(routines, account) == {};
      operationLock := operationLock[account := lock];
      forall a | a in operationLock && a != account ensures Counted(a) {
        assert old(Counted(a));
      }
    }

    /** The first critical section of `acquireOperation`. */
    method Enter(r: nat, account: int)
      requires Valid() && r !in routines
      modifies this, operationLock.Values
      ensures Valid() && account in operationLock
      ensures routines == old(routines)[r := Routine(account, operationLock[account], Waiting)]
      ensures account in old(operationLock) ==> operationLock == old(operationLock)
      ensures account !in old(operationLock) ==>
        fresh(operationLock[account]) && operationLock == old(operationLock)[account := operationLock[account]]
    {
      var lock := Lookup(account);
      Entered(lock.refs, lock.token, routines, r, account, lock);
      lock.refs := lock.refs + 1;
      routines := routines[r := Routine(account, lock, Waiting)];
      forall a | a in operationLock ensures Counted(a) {
        if a != account {
          OthersUnchanged(old(routines), r, routines[r], a);
        }
      }
    }

    /** Sending into the channel succeeds exactly when nobody of the account holds the lock. */
    method Take(r: nat) returns (taken: bool)
      requires Valid() && r in routines && routines[r].stage.Waiting?
      modifies this`routines, operationLock.Values
      ensures Valid()
      ensures taken <==> Holders(old(routines), old(routines)[r].account) == {}
      ensures routines == if taken then old(routines)[r := old(routines)[r].(stage := Holding)] else old(routines)
    {
      var lock := routines[r].lock;
      ghost var account := routines[r].account;
      assert Counted(account);
      if lock.token {
        return false;
      }
      Taken(lock.refs, routines, r);
      lock.token := true;
      routines := routines[r := routines[r].(stage := Holding)];
      forall a | a in operationLock ensures Counted(a) {
        if a != account {
          assert old(Counted(a));
          OthersUnchanged(old(routines), r, routines[r], a);
        }
      }
      return true;
    }

    /** The release function, up to giving the token back. Calling it again does nothing
        (`sync.Once`): only a holder gives back. */
    method Release(r: nat)
      requires Valid()
      modifies this`routines, operationLock.Values
      ensures Valid()
      ensures r in old(routines) && old(routines)[r].stage.Holding? ==>
        routines == old(routines)[r := old(routines)[r].(stage := Leaving)]
      ensures !(r in old(routines) && old(routines)[r].stage.Holding?) ==> routines == old(routines)
    {
      if r !in routines || !routines[r].stage.Holding? {
        return;
      }
      var lock := routines[r].lock;
      ghost var account := routines[r].account;
      assert Counted(account);
      GivenBack(lock.refs, lock.token, routines, r);
      lock.token := false;
      routines := routines[r := routines[r].(stage := Leaving)];
      forall a | a in operationLock ensures Counted(a) {
        if a != account {
          assert old(Counted(a));
          OthersUnchanged(old(routines), r, routines[r], a);
        }
      }
    }

    /** The last critical section, after a release or a cancelled wait: the map entry goes
        exactly when the last user of the account leaves. */
    method Leave(r: nat)
      requires Valid() && r in routines && !routines[r].stage.Holding?
      modifies this, operationLock.Values
      ensures Valid() && routines == old(routines) - {r}
      ensures var account := old(routines)[r].account;
        operationLock == if Users(routines, account) == {} then old(operationLock) - {account} else old(operationLock)
    {
      var lock, account := routines[r].lock, routines[r].account;
      assert Counted(account);
      Left(lock.refs, lock.token, routines, r);
      lock.refs := lock.refs - 1;
      routines := routines - {r};
      if lock.refs == 0 && account in operationLock && operationLock[account] == lock {
        operationLock := operationLock - {account};
      }
      forall a | a in operationLock ensures Counted(a) {
        if a != account {
          assert old(Counted(a));
          OthersUnchanged(old(routines), r, old(routines)[r], a);
        }
      }
      forall q | q in routines ensures routines[q].account in operationLock {
        if routines[q].account == account { assert q in Users(routines, account); }
      }
    }

    /** Any goroutine takes any step it can. */
    method Step(r: nat, account: int, cancelled: bool)
      requires Valid()
      modifies this, operationLock.Values
      ensures Valid()
      ensures forall l :: l in operationLock.Values ==> l in old(operationLock.Values) || fresh(l)
      ensures StageOf(routines, r) == NextStage(old(routines), r, cancelled) && routines - {r} == old(routines) - {r}
      ensures r in routines ==> routines[r].account == if r in old(routines) then old(routines)[r].account else account
    {
      if r !in routines {
        Enter(r, account);
      } else if routines[r].stage.Holding? {
        Release(r);
      } else if routines[r].stage.Leaving? || cancelled {
        Leave(r);
      } else {
        var taken := Take(r);
      }
    }

    /** An operation that nobody of its account is in the way of gets its lock at once, and
        afterwards everything is as it was. */
    method UseAlone(r: nat, account: int) returns (taken: bool)
      requires Valid() && r !in routines && Users(routines, account) == {}
      modifies this, operationLock.Values
      ensures taken && Valid() && routines == old(routines) && operationLock == old(operationLock)
    {
      MutualExclusion(r, r, account);
      Enter(r, account);
      assert Users(routines, account) == {r};
      assert routines - {r} == old(routines) && operationLock - {account} == old(operationLock);
      taken := HoldAndLeave(r);
    }

    method HoldAndLeave(r: nat) returns (taken: bool)
      requires Valid() && r in routines && routines[r].stage.Waiting? && Users(routines, routines[r].account) == {r}
      modifies this, operationLock.Values
      ensures taken && Valid() && routines == old(routines) - {r} && operationLock == old(operationLock) - {old(routines)[r].account}
    {
      ghost var account := routines[r].account;
      NobodyHolds(r);
      taken := Take(r);
      Release(r);
      Leave(r);
      assert Users(routines, account) == old(Users(routines, account)) - {r};
    }

    lemma NobodyHolds(r: nat)
      requires r in routines && routines[r].stage.Waiting? && Users(routines, routines[r].account) == {r}
      ensures Holders(routines, routines[r].account) == {}
    {
      assert Holders(routines, routines[r].account) <= Users(routines, routines[r].account);
      assert r !in Holders(routines, routines[r].account);
    }

    /** Every run of any number of goroutines keeps mutual exclusion and exact counts. */
    method Run(steps: nat)
      requires Valid()
      modifies this, operationLock.Values
      ensures Valid()
      ensures forall r, q :: r in routines && q in routines && r != q && routines[r].account == routines[q].account ==>
        routines[r].lock == routines[q].lock && !(routines[r].stage.Holding? && routines[q].stage.Holding?)
      ensures forall a :: a in operationLock <==> Users(routines, a) != {}
      ensures forall a :: a in operationLock ==> operationLock[a].refs == |Users(routines, a)|
    {
      for n := 0 to steps
        invariant Valid()
        invariant forall l :: l in operationLock.Values ==> l in old(operationLock.Values) || fresh(l)
      {
        var r: nat, account: int, cancelled: bool := *, *, *;
        Step(r, account, cancelled);
      }
      forall r, q, a
        ensures a in operationLock <==> Users(routines, a) != {}
        ensures r in routines && q in routines && r != q && routines[r].account == routines[q].account ==>
          routines[r].lock == routines[q].lock && !(routines[r].stage.Holding? && routines[q].stage.Holding?)
      {
        MutualExclusion(r, q, a);
      }
      forall a | a in operationLock ensures operationLock[a].refs == |Users(routines, a)| {
        assert Counted(a);
      }
    }
  }
}
