/** The deletion job runtime: per-subject dispatch, the exclusion against credential rotation
    and shutdown, as atomic steps of any number of goroutines. */
module JobDispatch {

  datatype Writer = NoWriter | WriterWaiting | WriterHolding

  /** `sync.RWMutex`: a waiting writer keeps new readers out. */
  datatype RWMutex = RWMutex(readers: nat, writer: Writer)

  /** A claimed item: its work runs, then its goroutine cleans up. */
  datatype Phase = Executing | Cleaning
  datatype Item = Item(subject: string, phase: Phase)

  datatype Rotation = NoRotation | Begun | Locking | Rotating | Unlocked

  datatype Runner = Looping | Draining | Returned

  /** Who takes the next step: an item's goroutine, the rotation, a request, whoever ends the
      context, or the runner. */
  datatype Actor =
    | Deletion(item: nat, subject: string, fails: bool)
    | Rotator
    | Requester(ends: bool)
    | Canceller
    | RunnerLoop

  /** An item starts if it may, then executes, then cleans up. */
  function NextItems(items: map<nat, Item>, i: nat, subject: string, starts: bool): map<nat, Item> {
    if i !in items then (if starts then items[i := Item(subject, Executing)] else items)
    else if items[i].phase.Executing? then items[i := items[i].(phase := Cleaning)]
    else items - {i}
  }

  /** A rotation begins while nothing is being deleted and gets the lock once nobody reads. */
  function NextRotation(rotation: Rotation, idle: bool, unread: bool): Rotation {
    match rotation
    case NoRotation => if idle then Begun else NoRotation
    case Begun => Locking
    case Locking => if unread then Rotating else Locking
    case Rotating => Unlocked
    case Unlocked => NoRotation
  }

  /** The runner stops when the context has ended and returns when nothing is left. */
  function NextRunner(runner: Runner, contextDone: bool, idle: bool): Runner {
    if runner.Looping? && contextDone then Draining
    else if runner.Draining? && idle then Returned
    else runner
  }

  function ExecutingItems(items: map<nat, Item>): set<nat> {
    set i | i in items && items[i].phase.Executing?
  }

  function Subjects(items: map<nat, Item>): set<string> {
    set i | i in items :: items[i].subject
  }

  /** At most one item per Apple subject. */
  ghost predicate OnePerSubject(items: map<nat, Item>) {
    forall i, j :: i in items && j in items && i != j ==> items[i].subject != items[j].subject
  }

  lemma ItemStarts(items: map<nat, Item>, i: nat, subject: string)
    requires i !in items && OnePerSubject(items) && subject !in Subjects(items)
    ensures var after := items[i := Item(subject, Executing)];
      && OnePerSubject(after) && Subjects(after) == Subjects(items) + {subject}
      && |ExecutingItems(after)| == |ExecutingItems(items)| + 1
  {
    var after := items[i := Item(subject, Executing)];
    assert ExecutingItems(after) == ExecutingItems(items) + {i};
    NewSubject(items, i, subject);
    forall j, k | j in after && k in after && j != k ensures after[j].subject != after[k].subject {
      if j == i { InSubjects(items, k); }
      if k == i { InSubjects(items, j); }
    }
  }

  lemma InSubjects(items: map<nat, Item>, i: nat)
    requires i in items
    ensures items[i].subject in Subjects(items)
  {
  }

  lemma NewSubject(items: map<nat, Item>, i: nat, subject: string)
    requires i !in items
    ensures Subjects(items[i := Item(subject, Executing)]) == Subjects(items) + {subject}
  {
    var after := items[i := Item(subject, Executing)];
    forall s ensures s in Subjects(after) <==> s in Subjects(items) + {subject} {
      if s == subject { InSubjects(after, i); }
      if s in Subjects(items) {
        var j :| j in items && items[j].subject == s;
        InSubjects(after, j);
      }
      if s in Subjects(after) {
        var j :| j in after && after[j].subject == s;
        if j != i { InSubjects(items, j); }
      }
    }
  }

  lemma ItemStops(items: map<nat, Item>, i: nat)
    requires i in items && items[i].phase.Executing? && OnePerSubject(items)
    ensures var after := items[i := items[i].(phase := Cleaning)];
      && OnePerSubject(after) && Subjects(after) == Subjects(items)
      && i in ExecutingItems(items) && |ExecutingItems(after)| == |ExecutingItems(items)| - 1
  {
    var after := items[i := items[i].(phase := Cleaning)];
    assert ExecutingItems(after) == ExecutingItems(items) - {i};
    assert forall j :: j in items <==> j in after;
    forall s ensures s in Subjects(after) <==> s in Subjects(items) {
      if s in Subjects(items) {
        var j :| j in items && items[j].subject == s;
        assert after[j].subject == s;
      }
      if s in Subjects(after) {
        var j :| j in after && after[j].subject == s;
        assert items[j].subject == s;
      }
    }
  }

  lemma ItemLeaves(items: map<nat, Item>, i: nat)
    requires i in items && items[i].phase.Cleaning? && OnePerSubject(items)
    ensures var after := items - {i};
      && OnePerSubject(after) && Subjects(after) == Subjects(items) - {items[i].subject}
      && ExecutingItems(after) == ExecutingItems(items)
  {
    var after := items - {i};
    forall s ensures s in Subjects(after) <==> s in Subjects(items) - {items[i].subject} {
      if s in Subjects(items) - {items[i].subject} {
        var j :| j in items && items[j].subject == s;
        assert j in after && after[j].subject == s;
      }
      if s in Subjects(after) {
        var j :| j in after && after[j].subject == s;
        assert j in items && j != i;
      }
    }
  }

  class Server {
    var active: set<string>
    var blocked: set<string>
    var stopping: bool
    var rotationPending: bool
    var contextDone: bool
    var credentialRotationMu: RWMutex
    /** Claimed items whose goroutine has not finished (`wg`). */
    var items: map<nat, Item>
    /** Requests that hold the rotation read lock. */
    var requests: nat
    var rotation: Rotation
    var runner: Runner
    /** Every item that was started, and how many had been when the context ended. */
    ghost var launches: seq<nat>
    ghost var launchesAtEnd: nat

    ghost predicate Valid()
      reads this
    {
      && active == Subjects(items) && OnePerSubject(items)
      && credentialRotationMu.readers == requests + |ExecutingItems(items)|
      && (rotationPending <==> !rotation.NoRotation?)
      && (rotationPending ==> items == map[])
      && (credentialRotationMu.writer.WriterWaiting? <==> rotation.Locking?)
      && (credentialRotationMu.writer.WriterHolding? <==> rotation.Rotating?)
      && (rotation.Rotating? ==> credentialRotationMu.readers == 0)
      && (!runner.Looping? ==> stopping)
      && (stopping ==> contextDone)
      && (runner.Returned? ==> items == map[])
      && (contextDone ==> |launches| == launchesAtEnd)
      && (forall i :: i in items ==> i in launches)
    }

    /** What a rotation, a running deletion and a finished shutdown exclude. */
    lemma Exclusion(i: nat, j: nat)
      requires Valid()
      ensures rotation.Rotating? ==> ExecutingItems(items) == {} && requests == 0
      ensures i in items && j in items && i != j ==> items[i].subject != items[j].subject
      ensures runner.Returned? ==> ExecutingItems(items) == {}
      ensures i in items && items[i].phase.Executing? ==> credentialRotationMu.readers > 0 && items[i].subject in active
    {
      if i in items && items[i].phase.Executing? {
        assert i in ExecutingItems(items);
      }
    }

    constructor ()
      ensures Valid() && items == map[] && rotation == NoRotation && !stopping && launches == []
    {
      active, blocked, stopping, rotationPending, contextDone := {}, {}, false, false, false;
      credentialRotationMu := RWMutex(0, NoWriter);
      items, requests, rotation, runner, launches, launchesAtEnd := map[], 0, NoRotation, Looping, [], 0;
    }

    /** A head may be claimed and started: its subject is idle, nothing is stopping and no
        rotation is under way. */
    predicate MayStart(subject: string)
      reads this
    {
      && !stopping && !contextDone && !rotationPending && subject !in active && subject !in blocked
      && credentialRotationMu.writer.NoWriter?
    }

    /** One head of `dispatchAliasDeletionQueue`: claimed and started exactly if it may
        be and the claim succeeds. */
    method Dispatch(i: nat, subject: string, claimFails: bool) returns (started: bool)
      requires Valid() && i !in items
      modifies this`active, this`items, this`credentialRotationMu, this`launches
      ensures Valid() && launches == if started then old(launches) + [i] else old(launches)
      ensures started <==> old(MayStart(subject)) && !claimFails
      ensures started ==> items == old(items)[i := Item(subject, Executing)]
      ensures !started ==> items == old(items) && credentialRotationMu == old(credentialRotationMu)
    {
      if stopping || contextDone || rotationPending || subject in active || subject in blocked {
        return false;
      }
      if !credentialRotationMu.writer.NoWriter? {
        return false;
      }
      credentialRotationMu := credentialRotationMu.(readers := credentialRotationMu.readers + 1);
      if claimFails {
        credentialRotationMu := credentialRotationMu.(readers := credentialRotationMu.readers - 1);
        return false;
      }
      ItemStarts(items, i, subject);
      active := active + {subject};
      items := items[i := Item(subject, Executing)];
      launches := launches + [i];
      return true;
    }

    /** The work returns (panics included); a result that cannot be saved blocks its subject. */
    method FinishWork(i: nat, saveFailed: bool)
      requires Valid() && i in items && items[i].phase.Executing?
      modifies this`blocked, this`items, this`credentialRotationMu
      ensures Valid() && items == old(items)[i := old(items)[i].(phase := Cleaning)]
      ensures old(credentialRotationMu) == credentialRotationMu.(readers := credentialRotationMu.readers + 1)
      ensures blocked == if saveFailed then old(blocked) + {old(items)[i].subject} else old(blocked)
    {
      if saveFailed {
        blocked := blocked + {items[i].subject};
      }
      ItemStops(items, i);
      credentialRotationMu := credentialRotationMu.(readers := credentialRotationMu.readers - 1);
      items := items[i := items[i].(phase := Cleaning)];
    }

    /** The goroutine gives its subject back and ends. */
    method CleanUp(i: nat)
      requires Valid() && i in items && items[i].phase.Cleaning?
      modifies this`active, this`items
      ensures Valid() && items == old(items) - {i} && active == old(active) - {old(items)[i].subject}
    {
      ItemLeaves(items, i);
      active := active - {items[i].subject};
      items := items - {i};
    }

    /** `beginAliasDeletionCredentialRotation`. */
    method BeginRotation() returns (ok: bool)
      requires Valid()
      modifies this`rotationPending, this`rotation
      ensures Valid() && (ok <==> items == map[] && old(rotation).NoRotation?)
      ensures rotation == if ok then Begun else old(rotation)
    {
      forall i ensures i in items ==> items[i].subject in active { }
      if |active| != 0 || rotationPending {
        assert active != {} ==> items != map[];
        return false;
      }
      assert forall i :: i !in items;
      rotationPending, rotation := true, Begun;
      return true;
    }

    /** `credentialRotationMu.Lock()` announces the writer and then waits for the readers. */
    method LockForRotation()
      requires Valid() && (rotation.Begun? || rotation.Locking?)
      modifies this`rotation, this`credentialRotationMu
      ensures Valid()
      ensures rotation == if old(rotation).Locking? && old(credentialRotationMu).readers == 0 then Rotating else Locking
    {
      if rotation.Begun? {
        rotation := Locking;
        credentialRotationMu := credentialRotationMu.(writer := WriterWaiting);
      } else if credentialRotationMu.readers == 0 {
        rotation := Rotating;
        credentialRotationMu := credentialRotationMu.(writer := WriterHolding);
      }
    }

    /** The two deferred calls, in their order: unlock, then end the rotation. */
    method EndRotation()
      requires Valid() && (rotation.Rotating? || rotation.Unlocked?)
      modifies this`rotation, this`rotationPending, this`credentialRotationMu
      ensures Valid() && rotation == if old(rotation).Rotating? then Unlocked else NoRotation
    {
      if rotation.Rotating? {
        rotation := Unlocked;
        credentialRotationMu := credentialRotationMu.(writer := NoWriter);
      } else {
        rotation, rotationPending := NoRotation, false;
      }
    }

    /** The read guards of ordinary requests. */
    method RequestStarts() returns (admitted: bool)
      requires Valid()
      modifies this`requests, this`credentialRotationMu
      ensures Valid() && (admitted <==> old(credentialRotationMu).writer.NoWriter?)
      ensures requests == if admitted then old(requests) + 1 else old(requests)
    {
      admitted := credentialRotationMu.writer.NoWriter?;
      if admitted {
        requests := requests + 1;
        credentialRotationMu := credentialRotationMu.(readers := credentialRotationMu.readers + 1);
      }
    }

    method RequestEnds()
      requires Valid() && requests > 0
      modifies this`requests, this`credentialRotationMu
      ensures Valid() && requests == old(requests) - 1
    {
      requests := requests - 1;
      credentialRotationMu := credentialRotationMu.(readers := credentialRotationMu.readers - 1);
    }

    method Cancel()
      requires Valid()
      modifies this`contextDone, this`launchesAtEnd
      ensures Valid() && contextDone && launchesAtEnd == if old(contextDone) then old(launchesAtEnd) else |launches|
    {
      if !contextDone { launchesAtEnd := |launches|; }
      contextDone := true;
    }

    /** The end of `RunAliasDeletionJobs`: stop, then wait for every item. */
    method Shutdown()
      requires Valid()
      modifies this`runner, this`stopping
      ensures Valid()
      ensures runner == NextRunner(old(runner), contextDone, items == map[])
      ensures stopping <==> old(stopping) || runner.Draining?
    {
      if runner.Looping? && contextDone {
        stopping, runner := true, Draining;
      } else if runner.Draining? && |items| == 0 {
        runner := Returned;
      }
    }

    /** One step of anybody. */
    method Step(actor: Actor)
      requires Valid()
      modifies this
      ensures Valid() && (old(stopping) ==> stopping && items.Keys <= old(items).Keys)
      ensures old(launches) <= launches && (old(contextDone) ==> contextDone && launches == old(launches))
      ensures old(contextDone) ==> launchesAtEnd == old(launchesAtEnd)
      ensures old(runner).Returned? ==> runner.Returned?
      ensures actor.Deletion? ==>
        items == NextItems(old(items), actor.item, actor.subject, old(MayStart(actor.subject)) && !actor.fails)
      ensures actor.Rotator? ==> rotation == NextRotation(old(rotation), old(items) == map[], old(credentialRotationMu).readers == 0)
      ensures actor.Requester? ==> (requests ==
        if actor.ends && old(requests) > 0 then old(requests) - 1
        else if old(credentialRotationMu).writer.NoWriter? then old(requests) + 1
        else old(requests))
      ensures actor.Canceller? ==> contextDone
      ensures actor.RunnerLoop? ==> runner == NextRunner(old(runner), contextDone, items == map[])
    {
      match actor {
        case Deletion(i, subject, fails) =>
          if i !in items {
            var started := Dispatch(i, subject, fails);
          } else if items[i].phase.Executing? {
            FinishWork(i, fails);
          } else {
            CleanUp(i);
          }
        case Rotator =>
          if rotation.NoRotation? {
            var ok := BeginRotation();
          } else if rotation.Begun? || rotation.Locking? {
            LockForRotation();
          } else {
            EndRotation();
          }
        case Requester(ends) =>
          if ends && requests > 0 {
            RequestEnds();
          } else {
            var admitted := RequestStarts();
          }
        case Canceller => Cancel();
        case RunnerLoop => Shutdown();
      }
    }

    /** An item nobody interferes with: whether its work is saved or not, it gives back its
        subject, its place and the read lock. */
    method DeleteAlone(i: nat, subject: string, saveFailed: bool) returns (started: bool)
      requires Valid() && i !in items
      modifies this`active, this`blocked, this`items, this`credentialRotationMu, this`launches
      ensures Valid() && (started <==> old(MayStart(subject)))
      ensures items == old(items) && active == old(active) && credentialRotationMu == old(credentialRotationMu)
      ensures blocked == if started && saveFailed then old(blocked) + {subject} else old(blocked)
    {
      started := Dispatch(i, subject, false);
      if started {
        FinishWork(i, saveFailed);
        CleanUp(i);
        assert items == old(items);
      }
    }

    /** A rotation nobody interferes with gets the write lock and gives everything back. */
    method RotateAlone() returns (rotated: bool)
      requires Valid() && rotation.NoRotation? && requests == 0
      modifies this`rotation, this`rotationPending, this`credentialRotationMu
      ensures Valid() && (rotated <==> items == map[]) && rotation.NoRotation?
      ensures credentialRotationMu == old(credentialRotationMu)
    {
      var ok := BeginRotation();
      if !ok {
        return false;
      }
      assert ExecutingItems(items) == {};
      LockForRotation();
      LockForRotation();
      rotated := rotation.Rotating?;
      EndRotation();
      EndRotation();
    }

    /** Every run: rotation excludes deletions, subjects are exclusive, and nothing starts once
        the context has ended, in particular once the runtime is stopping. */
    method Run(steps: nat)
      requires Valid()
      modifies this
      ensures Valid() && (old(stopping) ==> items.Keys <= old(items).Keys)
      ensures old(launches) <= launches && (contextDone ==> |launches| == launchesAtEnd)
      ensures old(contextDone) || old(stopping) ==> launches == old(launches)
      ensures rotation.Rotating? ==> ExecutingItems(items) == {} && requests == 0
      ensures old(runner).Returned? ==> items == map[]
    {
      for n := 0 to steps
        invariant Valid() && (old(stopping) ==> stopping && items.Keys <= old(items).Keys)
        invariant old(launches) <= launches && (old(contextDone) ==> contextDone && launches == old(launches))
        invariant old(runner).Returned? ==> runner.Returned?
      {
        var actor: Actor := *;
        Step(actor);
      }
      Exclusion(0, 0);
    }
  }
}
