/** One durable queue item: `DeleteQueuedAlias` and the outcome state machine of
    `runAliasDeletionWork`. */
module DeletionQueue {
  import opened Basics
  import opened Results
  import opened DeletionHistory
  import opened DeletionWorld
  import opened AliasDeletion

  datatype Status = Pending | Waiting | Paused | Succeeded | Cancelled | Failed_

  datatype Reason = NoReason | Quota | UpstreamLimit | StorageError | ExecutionError | LoginNeeded | RequestTimeout

  datatype Work = Work(
    aliasID: int, address: Address, complete: bool, status: Status, reconcile: bool, waitReason: Reason, nextRunAt: int,
    deleted: bool, localRetained: bool)

  /** The item is the one of the scripted scenario. */
  predicate ForThis(world: World, work: Work) {
    work.complete && world.scenario.LastReservation? && world.scenario.address == work.address
  }

  /** `DeleteQueuedAlias`: one bounded attempt without recovery. */
  method DeleteQueuedAlias(world: World, work: Work) returns (error: Option<Error>, mutationAttempted: bool)
    requires world.Valid() && world.history == Beginning
    modifies world
    ensures world.Valid() && Settled(world.history)
    ensures mutationAttempted <==> Mutated(world.history)
    ensures error.Some? && error.value.unwanted ==> ReadDirectory(world.history)
    ensures error.Some? && (error.value.unwanted || error.value.wait == Some(QuotaWait)) ==> DeletesSent(world.history) == 0
    ensures error.None? ==> work.address !in world.remote && RemovedLocally(world.history, work.address)
    ensures error.Some? && error.value.wait == Some(QuotaWait) && Mutated(world.history) ==>
      FoundInactive(world.history, work.address)
    ensures JustListed(world.history) && work.address !in world.history.event.directory ==>
      error.Some? && error.value.code.AccountMismatch?
    ensures world.smooth && work.complete ==> error.None? && OneDelete(Beginning, world.history, work.address)
    ensures ForThis(world, work) ==> error == Some(QUOTA_EXHAUSTED) && Mutated(world.history)
  {
    if !work.complete {
      return Some(Coded(Uncoded)), false;
    }
    var batch := new Batch(world, false, Some(work.address));
    world.Note(Started);
    var locked: Failure := *;
    if world.Tame(locked).Failed? {
      return Reported(locked), false;
    }
    error := batch.DeleteItem(work.aliasID);
    mutationAttempted := batch.mutationAttempted;
  }

  /** What is known once an attempt has returned; `missing` says that an error without a code
      stands for a record that does not exist. */
  datatype Attempt = Attempt(
    error: Option<Error>, mutationAttempted: bool, parentDone: bool, timedOut: bool, unwantedNow: bool, missing: bool, retryAt: int)

  /** A failure shown as a missing record, or as an interruption, leaves nothing to look at. */
  predicate RowRetained(error: Error, missing: bool) {
    !error.code.Uncoded? || !(missing || Canceled(error))
  }

  predicate LoginCode(code: Code) {
    code.LoginRequired? || code.SessionExpired? || code.AccountActionRequired?
  }

  /** How the attempt changes the item. */
  function Outcome(work: Work, attempt: Attempt, now: int): Work {
    var previous := work.reconcile;
    var cleared := work.(reconcile := false, waitReason := NoReason, nextRunAt := 0, localRetained := false);
    if attempt.error.None? then
      cleared.(status := Succeeded, deleted := true)
    else if attempt.parentDone then
      cleared.(status := Pending, reconcile := true)
    else
      var error := attempt.error.value;
      if error.wait.Some? then
        var quota := error.wait.value.QuotaWait?;
        cleared.(status := Waiting, reconcile := previous || !quota, waitReason := if quota then Quota else UpstreamLimit,
          nextRunAt := if attempt.retryAt > now then attempt.retryAt else now + SECOND)
      else if Canceled(error) && attempt.unwantedNow then
        cleared.(status := Cancelled)
      else if LoginCode(error.code) then
        cleared.(status := Paused, reconcile := previous || attempt.mutationAttempted, waitReason := LoginNeeded, nextRunAt := now + MINUTE)
      else if attempt.timedOut then
        cleared.(status := Paused, reconcile := true, waitReason := RequestTimeout, nextRunAt := now + MINUTE)
      else
        cleared.(status := Failed_, localRetained := RowRetained(error, attempt.missing))
  }

  /** The item stays in the queue. */
  predicate Unfinished(w: Work) {
    w.status.Pending? || w.status.Waiting? || w.status.Paused?
  }

  /** Reconcile survives every unfinished result, and a retry is always in the future. */
  lemma ReconcileSurvives(work: Work, attempt: Attempt, now: int)
    ensures var r := Outcome(work, attempt, now);
      && (work.reconcile && Unfinished(r) ==> r.reconcile)
      && (r.status.Waiting? || r.status.Paused? ==> r.nextRunAt > now)
      && (r.status.Succeeded? <==> attempt.error.None?)
      && (r.status.Cancelled? ==> attempt.error.Some? && Canceled(attempt.error.value) && !attempt.parentDone)
  {
  }

  /** A mutation leaves the item to be reconciled, except across a quota wait: exactly then an
      unfinished item that had nothing to reconcile before is not marked. */
  lemma MutationIsReconciled(work: Work, attempt: Attempt, now: int)
    requires attempt.mutationAttempted && Unfinished(Outcome(work, attempt, now))
    ensures Outcome(work, attempt, now).reconcile <==>
      work.reconcile || attempt.parentDone || attempt.error.value.wait != Some(QuotaWait)
  {
  }

  // ---- The ends, said by what leads to them ----------------------------------------------

  /** The attempt failed while the server goes on running. */
  predicate Faulted(a: Attempt) {
    a.error.Some? && !a.parentDone
  }

  /** The failure is no wait, and the work was not withdrawn either. */
  predicate Unexcused(a: Attempt) {
    Faulted(a) && a.error.value.wait.None? && !(Canceled(a.error.value) && a.unwantedNow)
  }

  predicate NeedsLogin(a: Attempt) {
    Unexcused(a) && LoginCode(a.error.value.code)
  }

  predicate RanOutOfTime(a: Attempt) {
    Unexcused(a) && !LoginCode(a.error.value.code) && a.timedOut
  }

  /** When each end is reached, and what the item carries later. */
  predicate EndsAs(work: Work, a: Attempt, now: int, r: Work) {
    && r.aliasID == work.aliasID && r.address == work.address && r.complete == work.complete
    && (r.status.Succeeded? <==> a.error.None?)
    && (r.status.Pending? <==> a.error.Some? && a.parentDone)
    && (r.status.Waiting? <==> Faulted(a) && a.error.value.wait.Some?)
    && (r.status.Cancelled? <==> Faulted(a) && a.error.value.wait.None? && Canceled(a.error.value) && a.unwantedNow)
    && (r.status.Paused? <==> NeedsLogin(a) || RanOutOfTime(a))
    && (r.status.Failed_? <==> Unexcused(a) && !NeedsLogin(a) && !RanOutOfTime(a))
    && (r.waitReason == Quota <==> Faulted(a) && a.error.value.wait == Some(QuotaWait))
    && (r.waitReason == UpstreamLimit <==> Faulted(a) && a.error.value.wait == Some(UpstreamWait))
    && (r.waitReason == LoginNeeded <==> NeedsLogin(a))
    && (r.waitReason == RequestTimeout <==> RanOutOfTime(a))
    && (!r.status.Waiting? && !r.status.Paused? ==> r.waitReason.NoReason? && r.nextRunAt == 0)
    && (r.status.Waiting? ==> r.nextRunAt == if a.retryAt > now then a.retryAt else now + SECOND)
    && (r.status.Paused? ==> r.nextRunAt == now + MINUTE)
    && (r.reconcile <==>
        || r.status.Pending? || r.waitReason == UpstreamLimit || r.waitReason == RequestTimeout
        || (r.waitReason == Quota && work.reconcile)
        || (r.waitReason == LoginNeeded && (work.reconcile || a.mutationAttempted)))
    && (r.deleted <==> work.deleted || r.status.Succeeded?)
    && (r.localRetained <==> r.status.Failed_? && RowRetained(a.error.value, a.missing))
  }

  /** What the contexts, the repository and the clock say once an attempt has returned. */
  datatype Afterwards = Afterwards(parentDone: bool, timedOut: bool, unwantedNow: bool, missing: bool, retryAt: int, panicked: bool)

  /** An error of the caller's context means that the context has ended. */
  function Observed(error: Option<Error>, mutationAttempted: bool, later: Afterwards, calm: bool): Attempt {
    Attempt(error, mutationAttempted, (later.parentDone && !calm) || (error.Some? && error.value.byCaller),
      later.timedOut, later.unwantedNow, later.missing, later.retryAt)
  }

  /** What becomes of an item once its attempt has returned. */
  method Conclude(work: Work, attempt: Attempt, now: int) returns (r: Work)
    requires attempt.error.Some? && attempt.error.value.byCaller ==> attempt.parentDone
    ensures EndsAs(work, attempt, now, r)
    ensures work.reconcile && Unfinished(r) ==> r.reconcile
    ensures r.status.Waiting? || r.status.Paused? ==> r.nextRunAt > now
    ensures r.status.Cancelled? ==> attempt.error.Some? && attempt.error.value.unwanted
    ensures attempt.mutationAttempted && Unfinished(r) ==> (r.reconcile <==> work.reconcile || r.waitReason != Quota)
  {
    ReconcileSurvives(work, attempt, now);
    r := Outcome(work, attempt, now);
  }

  /** One attempt and what becomes of the item. A panic has the same outcome wherever it strikes;
      here it does after the flow. */
  method AttemptWork(work: Work, world: World, later: Afterwards, now: int) returns (r: Work, ghost error: Option<Error>)
    requires world.Valid() && world.history == Beginning
    modifies world
    ensures world.Valid() && Settled(world.history)
    ensures world.Happens(later.panicked) ==>
      r == work.(status := Paused, reconcile := true, waitReason := ExecutionError, nextRunAt := now + MINUTE)
    ensures !world.Happens(later.panicked) ==> EndsAs(work, Observed(error, Mutated(world.history), later, world.calm), now, r)
    ensures work.reconcile && Unfinished(r) ==> r.reconcile
    ensures r.status.Waiting? || r.status.Paused? ==> r.nextRunAt > now
    ensures r.status.Cancelled? ==> ReadDirectory(world.history) && DeletesSent(world.history) == 0
    ensures r.status.Succeeded? ==> work.address !in world.remote && RemovedLocally(world.history, work.address)
    ensures Mutated(world.history) && Unfinished(r) ==> (r.reconcile <==> work.reconcile || r.waitReason != Quota)
    ensures r.waitReason == Quota && r.status.Waiting? ==> DeletesSent(world.history) == 0
    ensures r.waitReason == Quota && r.status.Waiting? && Mutated(world.history) ==> FoundInactive(world.history, work.address)
    ensures world.smooth && work.complete ==> r.status.Succeeded? && r.deleted && OneDelete(Beginning, world.history, work.address)
    ensures ForThis(world, work) ==>
      Mutated(world.history) && r.status.Waiting? && r.waitReason == Quota && r.reconcile == work.reconcile
  {
    var failure, mutationAttempted := DeleteQueuedAlias(world, work);
    error := failure;
    if world.Happens(later.panicked) {
      r := work.(status := Paused, reconcile := true, waitReason := ExecutionError, nextRunAt := now + MINUTE);
      return;
    }
    r := Conclude(work, Observed(failure, mutationAttempted, later, world.calm), now);
  }

  /** `runAliasDeletionWork`; `parentGone` and `wantedNow` are the parent context and the
      repository's answer before the attempt, `error` what the attempt returned, if there was one. */
  method RunAliasDeletionWork(
    work: Work, world: World, parentGone: bool, lookup: Failure, wantedNow: bool, later: Afterwards, now: int
  ) returns (r: Work, ghost error: Option<Error>)
    requires world.Valid() && world.history == Beginning
    modifies world
    ensures world.Valid() && Settled(world.history)
    ensures r.aliasID == work.aliasID && r.address == work.address
    ensures work.reconcile && Unfinished(r) ==> r.reconcile
    ensures r.status.Waiting? || r.status.Paused? ==> r.nextRunAt > now
    ensures work.reconcile && r.status.Cancelled? ==> ReadDirectory(world.history)
    ensures r.status.Cancelled? ==> DeletesSent(world.history) == 0
    ensures r.status.Succeeded? ==> work.address !in world.remote && RemovedLocally(world.history, work.address)
    ensures Mutated(world.history) && Unfinished(r) ==> (r.reconcile <==> work.reconcile || r.waitReason != Quota)
    ensures r.waitReason == Quota && r.status.Waiting? ==> DeletesSent(world.history) == 0
    ensures world.smooth && work.complete && !parentGone && lookup.Fine? && (wantedNow || work.reconcile) ==>
      r.status.Succeeded? && r.deleted && OneDelete(Beginning, world.history, work.address)
    ensures r.waitReason == Quota && r.status.Waiting? && Mutated(world.history) ==> FoundInactive(world.history, work.address)
    ensures ForThis(world, work) && !parentGone && lookup.Fine? && (wantedNow || work.reconcile) ==>
      Mutated(world.history) && r.status.Waiting? && r.waitReason == Quota && r.reconcile == work.reconcile
    ensures parentGone ==> r == work.(status := Pending) && world.history == Beginning
    ensures !parentGone && lookup.Failed? ==>
      world.history == Beginning && r == work.(status := Paused, reconcile := true, nextRunAt := now + MINUTE, waitReason := StorageError)
    ensures !parentGone && lookup.Fine? && !wantedNow && !work.reconcile ==> r == work.(status := Cancelled) && world.history == Beginning
    ensures !parentGone && lookup.Fine? && (wantedNow || work.reconcile) ==>
      if world.Happens(later.panicked) then
        r == work.(status := Paused, reconcile := true, waitReason := ExecutionError, nextRunAt := now + MINUTE)
      else EndsAs(work, Observed(error, Mutated(world.history), later, world.calm), now, r)
  {
    error := None;
    if parentGone {
      r := work.(status := Pending);
    } else if lookup.Failed? {
      r := work.(status := Paused, reconcile := true, nextRunAt := now + MINUTE, waitReason := StorageError);
    } else if !wantedNow && !work.reconcile {
      r := work.(status := Cancelled);
    } else {
      r, error := AttemptWork(work, world, later, now);
    }
  }

  /** The exception is reached: for every wanted item that had nothing to reconcile, a directory
      of that one entry, a deactivation whose reply is lost and a quota with one reservation left
      make the flow deactivate the entry and leave the item waiting, not marked. */
  method QuotaWaitForgetsDeactivation(work: Work, id: string, target: string, later: Afterwards, now: int) returns (world: World, r: Work)
    requires work.complete && !work.reconcile && id != ""
    ensures Safe(true, world.history) && Settled(world.history)
    ensures Mutated(world.history) && FoundInactive(world.history, work.address) && DeletesSent(world.history) == 0
    ensures world.remote == map[work.address := Remote(id, false, target)]
    ensures r.status.Waiting? && r.waitReason == Quota && !r.reconcile
  {
    var directory := map[work.address := Remote(id, true, target)];
    world := new World(directory, 0, 0, true, LastReservation(work.address, id), target);
    ghost var error;
    r, error := RunAliasDeletionWork(work, world, false, Fine, true, later, now);
  }
}
