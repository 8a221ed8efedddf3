/** The deletion flow of one account: `aliasDeletionBatch` and its quota leases, against an
    adversarial Apple. */
module AliasDeletion {
  import opened Results
  import opened DeletionHistory
  import opened DeletionWorld

  function JoinAll(a: Error, b: Option<Error>): Error {
    if b.Some? then Join(a, b.value) else a
  }

  /** A throttle without recovery, and any hint of the server in a flow without recovery that
      does not need the user, become a resumable wait. */
  function Delayed(mapped: Error, wait: bool, recovery: bool): (e: Error)
    ensures e.unwanted == mapped.unwanted && (e.wait == mapped.wait || e.wait == Some(UpstreamWait))
  {
    var code := mapped.code;
    if wait && (code.RateLimited? || (!recovery && !code.CredentialsInvalid? && !code.AccountActionRequired?)) then
      Error(RateLimited, Some(UpstreamWait), mapped.byCaller, mapped.unwanted)
    else mapped
  }

  /** The account is left alone after these. */
  predicate Blocks(code: Code, recovery: bool) {
    (code.RateLimited? && !recovery) || code.CredentialsInvalid? || code.AccountActionRequired?
  }

  predicate Wanted(error: Option<Error>) {
    error.Some? ==> !error.value.unwanted
  }

  /** The cached directory agrees with the evidence of the attempt. */
  ghost predicate Matches(belief: Belief, shown: Belief) {
    belief == shown || (belief.Deleted? && shown.Absent?)
  }

  ghost predicate Reflects(directory: map<Address, Remote>, forwardTo: string, h: History) {
    forall a: Address :: Matches(Evidence(h, a), Shown(directory, forwardTo, a))
  }

  /** A deletion-quota reservation. */
  class AliasLease {
    const world: World
    var number: Option<nat>
    var committed: bool

    constructor (world: World, number: Option<nat>)
      ensures this.world == world && this.number == number && !committed
    {
      this.world, this.number, this.committed := world, number, false;
    }

    ghost predicate Valid()
      reads this, world
    {
      && (number.Some? ==> world.quota)
      && (committed ==> number.Some? && (Lease(world.history, number.value).Sent? || Lease(world.history, number.value).Spent?))
      && (!committed && number.Some? ==> Open(Lease(world.history, number.value)) || Lease(world.history, number.value).ReleaseFailed?)
    }

    /** The reservation that still has to be offered back. */
    ghost function Mine(): Option<nat>
      reads this
    {
      if committed then None else number
    }

    method Release() returns (failure: Failure)
      requires world.Valid() && Valid() && SettledBut(world.history, Mine())
      modifies this, world`remote, world`nextLease, world`history
      ensures world.Valid() && Valid() && Settled(world.history)
      ensures committed == old(committed) && (failure.Fine? && !committed ==> number.None?)
      ensures world.tame ==> failure.Fine?
      ensures old(Mine()).None? ==> world.history == old(world.history)
      ensures old(Mine()).Some? ==>
        && world.history.After? && world.history.past == old(world.history) && world.history.event.ReleaseAttempted?
        && world.history.event.number == old(number).value && world.history.event.acknowledged == failure.Fine?
    {
      if committed || number.None? {
        return Fine;
      }
      failure := world.Release(number.value);
      if failure.Fine? {
        number := None;
      }
    }

    method MarkSent() returns (failure: Failure)
      requires world.Valid() && Valid() && !committed && SettledBut(world.history, Mine())
      requires if world.quota then number.Some? && Lease(world.history, number.value).Held? else number.None?
      modifies this, world`remote, world`nextLease, world`history
      ensures world.Valid() && Valid() && SettledBut(world.history, Mine()) && number == old(number)
      ensures failure.Fine? ==> committed == world.quota && Settled(world.history)
      ensures world.tame ==> failure.Fine?
      ensures failure.Fine? && world.quota ==> world.history == After(old(world.history), MarkedSent(number.value, true))
      ensures failure.Failed? && world.history != old(world.history) ==>
        number.Some? && world.history == After(old(world.history), MarkedSent(number.value, false))
      ensures !world.quota ==> failure.Fine? && world.history == old(world.history)
    {
      if !world.quota {
        return Fine;
      }
      failure := world.MarkSent(number.value);
      if failure.Fine? {
        committed := true;
      }
    }

    method Commit() returns (failure: Failure)
      requires world.Valid() && Valid()
      requires world.quota ==> committed
      modifies this`committed
      ensures world.Valid() && Valid() && committed == old(committed) && (world.tame ==> failure.Fine?)
    {
      if !world.quota {
        return Fine;
      }
      failure := *;
      failure := world.Tame(failure);
      if failure.Fine? {
        committed := true;
      }
    }
  }

  class Batch {
    const world: World
    /** Opt-in paced recovery (`DeleteAliases` with a recovery context). */
    const recovery: bool
    /** The address of a durable queue item's identity snapshot (`DeleteQueuedAlias`). */
    const snapshot: Option<Address>
    const queued: bool := snapshot.Some?
    var ready: bool
    var valid: bool
    var stopped: Option<Error>
    var directory: map<Address, Remote>
    var forwardTo: string
    var attempts: nat
    var nextServerDelay: nat
    var requested: bool
    var recoveryAlias: Option<(int, Address)>
    var address: Address
    var mutationAttempted: bool
    /** The throttles to come are within what the flow and its caller put up with. */
    ghost const paced: bool

    constructor (world: World, recovery: bool, snapshot: Option<Address>)
      requires world.Valid() && world.history == Beginning
      ensures Sound() && Coherent() && !valid && !ready && stopped.None?
      ensures this.world == world && this.recovery == recovery && this.snapshot == snapshot
      ensures paced == (world.throttled && recovery && world.throttles <= MAX_RECOVERIES && world.throttles <= world.patience)
    {
      paced := world.throttled && recovery && world.throttles <= MAX_RECOVERIES && world.throttles <= world.patience;
      this.world, this.recovery, this.snapshot := world, recovery, snapshot;
      ready, valid, stopped, directory, forwardTo := false, false, None, map[], "";
      attempts, nextServerDelay, requested, recoveryAlias := 0, 0, false, None;
      address, mutationAttempted := if snapshot.Some? then snapshot.value else "", false;
    }

    ghost predicate Sound()
      reads this, world
    {
      && world.Valid()
      && (stopped.Some? <==> HasStopped(world.history))
      && (stopped.Some? ==> !stopped.value.unwanted)
      && (mutationAttempted <==> Mutated(world.history))
      && attempts == Recoveries(world.history)
      && ((recovery && !world.tame) || nextServerDelay == 0)
      && (paced ==> world.throttled && recovery && attempts + world.throttles <= MAX_RECOVERIES && world.throttles <= world.patience)
      && (queued ==> address == snapshot.value && (recoveryAlias.Some? ==> recoveryAlias.value.1 == address))
    }

    /** Nothing fails for good. */
    ghost predicate Friendly()
      reads this, world
    {
      world.calm || paced
    }

    /** A throttle that can still be recovered from. */
    ghost predicate Hit(error: Option<Error>)
      reads this, world
    {
      && error.Some? && error.value.code.RateLimited? && error.value.wait != Some(QuotaWait) && stopped.None?
      && attempts + world.throttles < MAX_RECOVERIES && world.throttles < world.patience
    }

    /** The directory is evidence of this attempt, and no server delay is due: nothing will
        release the locks before it is used. */
    ghost predicate Current()
      reads this, world
    {
      nextServerDelay == 0 && ReadDirectory(world.history) && Reflects(directory, forwardTo, world.history)
    }

    ghost predicate Coherent()
      reads this, world
    {
      valid && stopped.None? ==> ready && Current()
    }

    predicate CanRecover(error: Error)
      reads this
    {
      recovery && stopped.None? && error.code.RateLimited?
    }

    method Stop(error: Error)
      requires Sound() && !error.unwanted
      modifies this`stopped, world`history
      ensures Sound() && stopped == Some(error)
      ensures world.history == After(old(world.history), Stopped)
    {
      world.Note(Stopped);
      stopped := Some(error);
    }

    // ---- Responses and waiting -------------------------------------------------------------

    method Expire(mapped: Error) returns (result: Error)
      requires Sound() && !mapped.unwanted && mapped.wait.None?
      modifies this`valid, this`stopped, world`history
      ensures Sound() && !valid && stopped.Some?
      ensures world.history == After(old(world.history), Stopped)
      ensures !result.unwanted && result.wait.None? && (result == mapped || result.code.SessionExpired?)
    {
      valid := false;
      var failed: bool, byCaller: bool := *, *;
      result := if failed then Error(SessionExpired, None, mapped.byCaller || byCaller, false) else mapped;
      Stop(if failed then result else Coded(LoginRequired));
    }

    /** What a reply means for the flow, once the session is checkpointed and a cooldown noted. */
    function Meaning(reply: Option<AppleError>): Option<Error> {
      if reply.None? then None
      else Some(Delayed(Mapped(reply.value), reply.value.rateLimited || reply.value.retryDelay > 0, recovery))
    }

    /** Saves the session a reply carries; a failure, also to note a cooldown, stops the account. */
    method Checkpoint(cooldownError: Option<Error>, mapped: Option<Error>) returns (failure: Option<Error>)
      requires Sound() && Wanted(mapped) && (mapped.Some? ==> mapped.value.wait.None?)
      requires cooldownError.Some? ==> Plain(cooldownError.value)
      modifies this`stopped, world`history
      ensures Sound() && (world.tame && cooldownError.None? ==> failure.None?)
      ensures failure.None? ==> cooldownError.None? && stopped == old(stopped) && world.history == old(world.history)
      ensures failure.Some? ==> stopped == failure && world.history == After(old(world.history), Stopped)
      ensures failure.Some? ==> !failure.value.unwanted && failure.value.wait.None?
    {
      var saved: Failure, mismatch: bool := *, *;
      failure := if world.Happens(mismatch) then Some(Coded(AccountMismatch)) else Reported(world.Tame(saved));
      if failure.Some? || cooldownError.Some? {
        failure := if failure.Some? then Some(JoinAll(failure.value, cooldownError)) else cooldownError;
        failure := Some(JoinAll(failure.value, mapped));
        Stop(failure.value);
      }
    }

    /** `acceptResponse`: success means the session was checkpointed; anything that makes the
        account unsafe to continue stops it. */
    method AcceptResponse(error: Option<AppleError>) returns (mapped: Option<Error>, fatal: bool)
      requires Sound() && (world.calm ==> error.None? || error == Some(LOST_REPLY))
      requires world.throttled ==> error.None? || error == Some(THROTTLE)
      modifies this`valid, this`stopped, this`nextServerDelay, world`history
      ensures Sound() && (Friendly() ==> !fatal && stopped == old(stopped))
      ensures Wanted(mapped) && (mapped.Some? ==> mapped.value.wait != Some(QuotaWait))
      ensures world.history == old(world.history) || world.history == After(old(world.history), Stopped)
      ensures mapped.None? ==> error.None? && !fatal && nextServerDelay == 0 && valid == old(valid)
      ensures mapped.None? ==> stopped == old(stopped) && world.history == old(world.history)
      ensures valid ==> old(valid)
      ensures fatal || (mapped.Some? && error.None?) ==> stopped.Some? && fatal && world.history == After(old(world.history), Stopped)
      ensures mapped.Some? && !fatal && old(stopped).None? ==> (stopped.Some? <==> Blocks(mapped.value.code, recovery))
      ensures !fatal ==> mapped == Meaning(error) && (recovery && error.Some? ==> nextServerDelay == error.value.retryDelay)
      ensures error.Some? && Mapped(error.value).code.SessionExpired? ==> fatal && !valid
    {
      mapped := if error.Some? then Some(Mapped(error.value)) else None;
      var wait := false;
      var cooldownError: Option<Error> := None;
      if error.Some? && (error.value.rateLimited || error.value.retryDelay > 0) {
        var deferred: Failure := *;
        cooldownError := Reported(world.Tame(deferred));
        wait := cooldownError.None?;
      }
      if mapped.Some? && mapped.value.code.SessionExpired? {
        var expired := Expire(mapped.value);
        return Some(JoinAll(expired, cooldownError)), true;
      }
      var failure := Checkpoint(cooldownError, mapped);
      if failure.Some? {
        return failure, true;
      }
      mapped := Interpret(error, mapped, wait);
      return mapped, false;
    }

    /** What is left of a reply once the session is saved: the delay it asks for, and whether the
        account may go on. */
    method Interpret(error: Option<AppleError>, was: Option<Error>, wait: bool) returns (mapped: Option<Error>)
      requires Sound() && was == (if error.Some? then Some(Mapped(error.value)) else None)
      requires world.tame && error.Some? ==> error.value.retryDelay == 0
      modifies this`stopped, this`nextServerDelay, world`history
      ensures Sound()
      ensures mapped == if was.None? then None else Some(Delayed(was.value, wait, recovery))
      ensures recovery ==> nextServerDelay == if error.Some? then error.value.retryDelay else 0
      ensures mapped.Some? && Blocks(mapped.value.code, recovery) ==>
        stopped == mapped && world.history == After(old(world.history), Stopped)
      ensures mapped.None? || !Blocks(mapped.value.code, recovery) ==> stopped == old(stopped) && world.history == old(world.history)
    {
      if recovery {
        nextServerDelay := if error.Some? then error.value.retryDelay else 0;
      }
      if was.None? {
        return None;
      }
      mapped := Some(Delayed(was.value, wait, recovery));
      if Blocks(mapped.value.code, recovery) {
        Stop(mapped.value);
      }
    }

    /** The checks that precede every request, after any wait. */
    method CheckIdentity(operation: Operation) returns (error: Option<Error>)
      requires Sound()
      modifies this`stopped, this`requested, world`history
      ensures Sound()
      ensures error.None? ==> world.history == After(old(world.history), Checked(operation)) && stopped == old(stopped)
      ensures error.Some? ==> world.history == old(world.history) || world.history == After(old(world.history), Stopped)
      ensures operation.Deactivate? || operation.Delete? || Wanted(error)
      ensures error.Some? ==> error.value.wait.None? && !world.tame
    {
      var account: Failure, identityChanged: bool, alias: Failure := *, *, *;
      var seen: Reading, context: Failure := *, *;
      seen := world.Sees(seen);
      if world.Tame(account).Failed? { return Reported(account); }
      if world.Happens(identityChanged) {
        Stop(Coded(AccountChanged));
        return Some(Coded(AccountChanged));
      }
      error := CheckWork(queued, operation.Deactivate? || operation.Delete?, seen);
      if error.Some? { return; }
      if world.Tame(alias).Failed? { return Reported(alias); }
      if seen.aliasMoved {
        Stop(Coded(AccountChanged));
        return Some(Coded(AccountChanged));
      }
      if seen.pending { return Some(Coded(ConfirmationPending)); }
      if world.Tame(context).Failed? { return Reported(context); }
      requested := true;
      world.Note(Checked(operation));
    }

    /** `beforeRequest` once no server delay is due: pacing, then the checks. Only validation
        can meet a pending delay; every other request is proved not to wait here, so nothing
        releases the locks between the evidence for a mutation and the mutation. */
    method BeforeRequest(operation: Operation) returns (error: Option<Error>)
      requires Sound() && nextServerDelay == 0
      modifies this`stopped, this`requested, world`history
      ensures Sound()
      ensures error.None? ==> world.history == After(old(world.history), Checked(operation)) && stopped == old(stopped)
      ensures error.Some? ==> world.history == old(world.history) || world.history == After(old(world.history), Stopped)
      ensures operation.Deactivate? || operation.Delete? || Wanted(error)
      ensures error.Some? ==> error.value.wait.None? && !world.tame
    {
      var context: Failure, pacing: Failure := *, *;
      if world.Tame(context).Failed? { return Reported(context); }
      if recovery && requested && world.Tame(pacing).Failed? { return Reported(pacing); }
      error := CheckIdentity(operation);
    }

    /** `waitServerDelay`, when the server has asked for a delay. */
    method WaitServerDelay(operation: Operation) returns (error: Option<Error>)
      requires Sound() && !valid && nextServerDelay > 0
      modifies this`ready, this`valid, this`stopped, this`directory, this`attempts, this`nextServerDelay, this`requested, world
      ensures Sound() && !valid
      ensures Quiet(old(world.history), world.history)
      ensures JustListed(world.history) ==> JustListed(old(world.history))
      ensures ListsSinceStop(world.history) == ListsSinceStop(old(world.history))
      ensures world.patience <= old(world.patience)
      ensures error.None? ==> stopped == old(stopped) && nextServerDelay == 0
      ensures error.None? && old(ready) && stopped.None? ==> ready
      ensures Wanted(error)
      decreases world.patience, 1
    {
      nextServerDelay := 0;
      error := ReportWait(operation);
    }

    /** `recoverThrottle`: at most three throttle recoveries per account group. */
    method RecoverThrottle(operation: Operation, cause: Error) returns (error: Option<Error>)
      requires Sound() && CanRecover(cause) && !cause.unwanted && (paced ==> Hit(Some(cause)))
      modifies this`ready, this`valid, this`stopped, this`directory, this`attempts, this`nextServerDelay, this`requested, world
      ensures Sound() && (valid ==> old(valid)) && (error.None? ==> !valid)
      ensures Quiet(old(world.history), world.history)
      ensures JustListed(world.history) ==> JustListed(old(world.history))
      ensures ListsSinceStop(world.history) == ListsSinceStop(old(world.history))
      ensures world.patience <= old(world.patience)
      ensures error.None? ==> world.patience < old(world.patience) && stopped.None?
      ensures error.None? && old(ready) ==> ready
      ensures cause.wait != Some(QuotaWait) && old(attempts) >= MAX_RECOVERIES ==>
        error.Some? && (stopped == Some(Coded(BatchDeferred)) || Plain(error.value))
      ensures cause.wait != Some(QuotaWait) && error.None? ==> attempts > old(attempts)
      ensures Wanted(error) && (paced ==> error.None?)
      decreases world.patience, 2
    {
      var context: Failure := *;
      if world.Tame(context).Failed? { return Reported(context); }
      var quotaWait := cause.wait == Some(QuotaWait);
      if !quotaWait && attempts >= MAX_RECOVERIES {
        Stop(Coded(BatchDeferred));
        return Some(cause);
      }
      if !quotaWait {
        attempts := attempts + 1;
        world.Note(Recovered);
      }
      ghost var spent := world.history;
      error := WaitAnew(operation);
      QuietTrans(old(world.history), spent, world.history);
    }

    /** Waits with nothing kept from before. */
    method WaitAnew(operation: Operation) returns (error: Option<Error>)
      requires Sound() && recovery && (paced ==> world.throttles < world.patience)
      modifies this`ready, this`valid, this`stopped, this`directory, this`attempts, this`nextServerDelay, this`requested, world
      ensures Sound() && !valid && old(attempts) <= attempts
      ensures Quiet(old(world.history), world.history)
      ensures JustListed(world.history) ==> JustListed(old(world.history))
      ensures ListsSinceStop(world.history) == ListsSinceStop(old(world.history))
      ensures world.patience <= old(world.patience)
      ensures error.None? ==> world.patience < old(world.patience) && stopped == old(stopped)
      ensures error.None? && old(ready) && stopped.None? ==> ready
      ensures Wanted(error) && (paced ==> error.None?)
      decreases world.patience, 1
    {
      nextServerDelay, valid := 0, false;
      error := ReportWait(operation);
      QuietRecoveries(old(world.history), world.history);
    }

    /** `reportWait`: both locks are released while waiting, so nothing known before is kept. */
    method ReportWait(operation: Operation) returns (error: Option<Error>)
      requires Sound() && !valid && recovery && nextServerDelay == 0 && (paced ==> world.throttles < world.patience)
      modifies this`ready, this`valid, this`stopped, this`directory, this`attempts, this`nextServerDelay, this`requested, world
      ensures Sound() && !valid
      ensures Quiet(old(world.history), world.history)
      ensures JustListed(world.history) ==> JustListed(old(world.history))
      ensures ListsSinceStop(world.history) == ListsSinceStop(old(world.history))
      ensures world.patience <= old(world.patience)
      ensures error.None? ==> world.patience < old(world.patience) && stopped == old(stopped) && nextServerDelay == 0
      ensures error.None? && old(ready) && stopped.None? ==> ready
      ensures Wanted(error) && (paced ==> error.None?)
      decreases world.patience, 0
    {
      var context: Failure, seen: Reading := *, *;
      if world.Tame(context).Failed? { return Reported(context); }
      seen := world.Sees(seen);
      error := world.Cool();
      if error.Some? {
        var cancelled: bool := *;
        if !cancelled && stopped.None? {
          Stop(error.value);
        }
        return;
      }
      error := CheckResume(queued, seen);
      if error.None? {
        ghost var waited := world.history;
        error := Resume(seen);
        QuietTrans(old(world.history), waited, world.history);
      }
    }

    /** After a wait everything is looked up again. */
    method Resume(seen: Reading) returns (error: Option<Error>)
      requires Sound() && !valid && nextServerDelay == 0 && (paced ==> seen == CALM)
      modifies this`ready, this`valid, this`stopped, this`directory, this`attempts, this`nextServerDelay, this`requested, world
      ensures Sound() && !valid
      ensures Quiet(old(world.history), world.history)
      ensures JustListed(world.history) ==> JustListed(old(world.history))
      ensures ListsSinceStop(world.history) == ListsSinceStop(old(world.history))
      ensures world.patience <= old(world.patience)
      ensures error.None? ==> stopped == old(stopped) && nextServerDelay == 0
      ensures error.None? && old(ready) && stopped.None? ==> ready
      ensures Wanted(error) && (paced ==> error.None?)
      decreases world.patience, 5
    {
      var wasReady := ready;
      ready, valid, directory := false, false, map[];
      if wasReady && stopped.None? {
        error := Initialize();
      } else {
        error := LoadSession(seen);
      }
    }

    /** `initialize`. */
    method Initialize() returns (error: Option<Error>)
      requires Sound() && !valid && stopped.None?
      modifies this`ready, this`valid, this`stopped, this`directory, this`attempts, this`nextServerDelay, this`requested, world
      ensures Sound() && !valid
      ensures Quiet(old(world.history), world.history)
      ensures JustListed(world.history) ==> JustListed(old(world.history))
      ensures ListsSinceStop(world.history) == ListsSinceStop(old(world.history))
      ensures world.patience <= old(world.patience)
      ensures error.None? ==> ready && stopped == old(stopped) && nextServerDelay == 0
      ensures Wanted(error) && (Friendly() ==> error.None?)
      decreases world.patience, 4
    {
      var seen: Reading := *;
      error := LoadSession(world.Sees(seen));
      if error.Some? {
        if error.value.code.SessionExpired? {
          var expired := Expire(error.value);
          error := Some(expired);
        }
        return;
      }
      var done, final := false, false;
      while !done
        invariant Sound() && !valid && stopped == old(stopped)
        invariant error.None? && (done ==> nextServerDelay == 0)
        invariant Quiet(old(world.history), world.history) && (JustListed(world.history) ==> JustListed(old(world.history)))
        invariant ListsSinceStop(world.history) == ListsSinceStop(old(world.history))
        invariant world.patience <= old(world.patience)
        decreases world.patience, !done
      {
        ghost var before := world.history;
        error, final := ValidateOnce();
        QuietTrans(old(world.history), before, world.history);
        if error.None? {
          done := true;
        } else {
          if final || !CanRecover(error.value) { return; }
          before := world.history;
          error := RecoverThrottle(Validate, error.value);
          QuietTrans(old(world.history), before, world.history);
          if error.Some? { return; }
        }
      }
      ready := true;
    }

    /** One pass of the loop in `initialize`; `final` errors are not retried. */
    method ValidateOnce() returns (error: Option<Error>, final: bool)
      requires Sound() && !valid && stopped.None?
      modifies this`ready, this`valid, this`stopped, this`directory, this`attempts, this`nextServerDelay, this`requested, world
      ensures Sound() && !valid
      ensures Quiet(old(world.history), world.history)
      ensures JustListed(world.history) ==> JustListed(old(world.history))
      ensures ListsSinceStop(world.history) == ListsSinceStop(old(world.history))
      ensures world.patience <= old(world.patience)
      ensures error.None? ==> stopped == old(stopped) && nextServerDelay == 0
      ensures Wanted(error) && (world.calm ==> error.None?) && (paced && error.Some? ==> Hit(error) && !final)
      decreases world.patience, 3
    {
      var usage: Failure, exhausted: bool := *, *;
      error := QuotaWaiting(world.quota, world.Tame(usage), world.Happens(exhausted));
      if error.Some? { return error, false; }
      if nextServerDelay > 0 {
        error := WaitServerDelay(Validate);
        if error.Some? { return error, true; }
      }
      ghost var waited := world.history;
      error, final := RequestValidation();
      QuietTrans(old(world.history), waited, world.history);
    }

    method RequestValidation() returns (error: Option<Error>, final: bool)
      requires Sound() && stopped.None? && nextServerDelay == 0
      modifies this`valid, this`stopped, this`nextServerDelay, this`requested, world`remote, world`history, world`throttles
      ensures Sound() && (valid ==> old(valid))
      ensures Quiet(old(world.history), world.history)
      ensures JustListed(world.history) ==> JustListed(old(world.history))
      ensures ListsSinceStop(world.history) == ListsSinceStop(old(world.history))
      ensures error.None? ==> stopped == old(stopped) && nextServerDelay == 0
      ensures Wanted(error) && (world.calm ==> error.None?) && (paced && error.Some? ==> Hit(error) && !final)
    {
      error := BeforeRequest(Validate);
      if error.Some? { return error, true; }
      var reply := world.SendValidate();
      ghost var sent := world.history;
      var fatal;
      error, fatal := AcceptResponse(reply);
      ValidateReply(old(world.history), sent, world.history);
      return error, false;
    }

    // ---- The directory ---------------------------------------------------------------------

    /** The request of `refreshDirectory`, with its checks. */
    method RequestListing() returns (error: Option<Error>, listed: map<Address, Remote>, target: string)
      requires Sound() && ListsSinceStop(world.history) == 0 && nextServerDelay == 0
      modifies this`valid, this`stopped, this`nextServerDelay, this`requested, world`remote, world`history, world`throttles
      ensures Sound() && (valid ==> old(valid))
      ensures Quiet(old(world.history), world.history)
      ensures error.Some? && JustListed(world.history) ==> JustListed(old(world.history))
      ensures error.None? ==> stopped == old(stopped) && nextServerDelay == 0
      ensures error.None? ==> world.history.After? && world.history.event == Listed(listed, target)
      ensures Wanted(error) && (error.Some? ==> error.value.wait != Some(QuotaWait) && !world.calm)
      ensures paced && old(stopped).None? && error.Some? ==> Hit(error)
      ensures stopped.None? ==> old(stopped).None?
    {
      listed, target := map[], "";
      error := BeforeRequest(List);
      if error.None? {
        var reply;
        reply, listed, target := world.SendList();
        ghost var replied := world.history;
        var fatal;
        error, fatal := AcceptResponse(reply);
        ListReply(old(world.history), replied, world.history, listed, target);
      }
    }

    /** One pass of the loop in `refreshDirectory`: a listing, or a recovery from a throttle. */
    method TryListing() returns (error: Option<Error>, done: bool, listed: map<Address, Remote>, target: string)
      requires Sound() && !valid && ListsSinceStop(world.history) == 0 && (stopped.None? ==> ready)
      modifies this`ready, this`valid, this`stopped, this`directory, this`attempts, this`nextServerDelay, this`requested, world
      ensures Sound() && !valid && Quiet(old(world.history), world.history)
      ensures world.patience <= old(world.patience)
      ensures error.None? ==> stopped == old(stopped) && (stopped.None? ==> ready)
      ensures error.None? && done ==> nextServerDelay == 0 && world.history.After? && world.history.event == Listed(listed, target)
      ensures error.None? && !done ==> ListsSinceStop(world.history) == 0 && world.patience < old(world.patience)
      ensures !(error.None? && done) && JustListed(world.history) ==> JustListed(old(world.history))
      ensures Wanted(error) && !Early(error) && (world.calm ==> error.None? && done)
      ensures paced && old(stopped).None? ==> error.None?
      decreases world.patience, 3
    {
      listed, target, done := map[], "", false;
      if nextServerDelay > 0 {
        error := WaitServerDelay(List);
        if error.Some? { return; }
      }
      ghost var waited := world.history;
      error, listed, target := RequestListing();
      QuietTrans(old(world.history), waited, world.history);
      if error.None? {
        done := true;
      } else if CanRecover(error.value) {
        RunningLists(world.history);
        ghost var failed := world.history;
        error := RecoverThrottle(List, error.value);
        QuietTrans(old(world.history), failed, world.history);
      }
    }

    /** `refreshDirectory`: at most one listing once the account is stopped. */
    method RefreshDirectory() returns (error: Option<Error>)
      requires Sound() && ListsSinceStop(world.history) == 0 && (stopped.None? ==> ready)
      modifies this`ready, this`valid, this`stopped, this`directory, this`forwardTo, this`attempts, this`nextServerDelay, this`requested, world
      ensures Sound() && (valid <==> error.None?) && (valid ==> Current() && (stopped.None? ==> ready))
      ensures Quiet(old(world.history), world.history)
      ensures error.None? ==> world.history.After? && world.history.event == Listed(directory, forwardTo)
      ensures error.Some? && JustListed(world.history) ==> JustListed(old(world.history)) || error == Some(Coded(AccountMismatch))
      ensures world.patience <= old(world.patience)
      ensures error.None? ==> stopped == old(stopped)
      ensures Wanted(error) && !Early(error) && (world.calm || (paced && old(stopped).None?) ==> error.None?)
      decreases world.patience, 4
    {
      valid := false;
      var listed: map<Address, Remote>, target, done := map[], "", false;
      while !done
        invariant Sound() && !valid && stopped == old(stopped) && (stopped.None? ==> ready)
        invariant !done ==> ListsSinceStop(world.history) == 0 && (JustListed(world.history) ==> JustListed(old(world.history)))
        invariant Quiet(old(world.history), world.history)
        invariant world.patience <= old(world.patience)
        invariant done ==> nextServerDelay == 0 && world.history.After? && world.history.event == Listed(listed, target)
        decreases world.patience, !done
      {
        ghost var before := world.history;
        error, done, listed, target := TryListing();
        QuietTrans(old(world.history), before, world.history);
        if error.Some? { return; }
      }
      var ambiguous: bool := *;
      if world.Happens(ambiguous) {
        return Some(Coded(AccountMismatch));
      }
      forwardTo, directory, valid := target, listed, true;
      return None;
    }

    /** `find`: an entry that forwards elsewhere belongs to somebody else. */
    method Find() returns (remote: Option<Remote>, error: Option<Error>)
      ensures error.None? ==> Shown(directory, forwardTo, address) == (if remote.Some? then Present(remote.value, true) else Absent)
      ensures error.None? && remote.Some? ==> address in directory
      ensures error == if address in directory && directory[address].forward != forwardTo then Some(Coded(AccountMismatch)) else None
    {
      if address !in directory {
        return None, None;
      }
      if directory[address].forward != forwardTo {
        return None, Some(Coded(AccountMismatch));
      }
      return Some(directory[address]), None;
    }

    // ---- The mutations ---------------------------------------------------------------------

    /** The attempt was admitted for this alias and its address, and a recovery keeps to them. */
    ghost predicate Aimed(id: int)
      reads this, world
    {
      Target(world.history) == Some(address) && (recovery ==> recoveryAlias == Some((id, address)))
    }

    /** What every way out of the mutating part guarantees. */
    ghost predicate Ended(error: Option<Error>)
      reads this, world
    {
      && Sound()
      && (error.None? ==> Gone(Evidence(world.history, address)) && RemovedLocally(world.history, address))
      && (error.Some? && error.value.unwanted ==> ReadDirectory(world.history))
      && (JustListed(world.history) && address !in world.history.event.directory ==> Ambiguous(error))
    }

    /** The directory that was listed is unusable: it is the only reason not to act on it. */
    predicate Ambiguous(error: Option<Error>) {
      error.Some? && error.value.code.AccountMismatch?
    }

    /** The address was deleted by exactly one permanent delete, unless a listing showed that it
        was gone without one. */
    ghost predicate Smoothly(error: Option<Error>, before: History)
      reads this, world
    {
      error.None? && stopped.None? && OneDelete(before, world.history, address)
    }

    ghost predicate Succeeds(error: Option<Error>)
      reads this
    {
      error.None? && stopped.None?
    }

    /** Without recovery, a quota wait after a deactivation means that a listing has shown it to
        be applied although it was never acknowledged. */
    ghost predicate Relisted(error: Option<Error>)
      reads this, world
    {
      !recovery && error.Some? && error.value.wait == Some(QuotaWait) ==> FoundInactive(world.history, address)
    }

    ghost predicate QuotaEnd(error: Option<Error>, before: History)
      reads this, world
    {
      !recovery && error.Some? && error.value.wait == Some(QuotaWait) ==>
        Mutated(world.history) == Mutated(before) || FoundInactive(world.history, address)
    }

    /** The account of the scripted scenario, after n reservations. */
    ghost predicate OnCue(n: nat)
      reads this, world
    {
      && world.scenario.LastReservation? && address == world.scenario.address && !recovery && stopped.None?
      && DeletesSent(world.history) == 0 && Reservations(world.history) == n
    }

    /** The scripted end: deactivated, but no reservation left for the permanent delete. */
    ghost predicate CutOff(error: Option<Error>)
      reads this, world
    {
      error == Some(QUOTA_EXHAUSTED) && Mutated(world.history)
    }

    lemma CueFinds(n: nat, remote: Option<Remote>)
      requires Sound() && OnCue(n)
      requires remote.Some? ==> Evidence(world.history, address) == Present(remote.value, true)
      requires remote.None? ==> Gone(Evidence(world.history, address))
      ensures remote == Some(Remote(world.scenario.id, !Mutated(world.history), world.target)) && world.scenario.id != ""
    {
      assert Agrees(Evidence(world.history, address), address, world.remote);
      ScriptedEvidence(world.scenario.address, world.scenario.id, world.target, world.history, address);
    }

    /** Errors that, without recovery, only arise before a permanent delete is sent. */
    predicate Early(error: Option<Error>) {
      !recovery && error.Some? && (error.value.wait == Some(QuotaWait) || error.value.unwanted)
    }

    /** `reserveQuota`. A reservation the repository stored but reported as an error is lost. */
    method ReserveQuota() returns (lease: AliasLease, error: Option<Error>)
      requires Sound() && Coherent() && Settled(world.history)
      modifies world`remote, world`nextLease, world`history
      ensures Sound() && Coherent() && fresh(lease) && lease.world == world && lease.Valid() && !lease.committed
      ensures SettledBut(world.history, lease.Mine()) && Beside(old(world.history), world.history)
      ensures error.Some? ==> lease.Mine().None? && Wanted(error) && !world.smooth && !world.throttled
      ensures error.Some? && world.history != old(world.history) ==>
        world.history.event.ReservationRefused? || StoredUnnoticed(world.history.event)
      ensures error.Some? && error.value.code.RateLimited? ==> world.history == After(old(world.history), ReservationRefused)
      ensures error.None? && world.quota ==> lease.number.Some? && Lease(world.history, lease.number.value).Held?
      ensures error.None? && world.quota ==> world.history == After(old(world.history), Reserved(lease.number.value, true))
      ensures !world.quota ==> world.history == old(world.history) && lease.number.None?
      ensures world.scenario.LastReservation? ==> error == if Reservations(old(world.history)) > 0 then Some(QUOTA_EXHAUSTED) else None
    {
      var number: Option<nat> := None;
      error := None;
      if world.quota {
        number, error := Reserve();
      }
      lease := new AliasLease(world, number);
    }

    method Reserve() returns (number: Option<nat>, error: Option<Error>)
      requires Sound() && Coherent() && Settled(world.history) && world.quota
      modifies world`remote, world`nextLease, world`history
      ensures Sound() && Coherent() && SettledBut(world.history, number) && Beside(old(world.history), world.history)
      ensures (number.Some? <==> error.None?) && Wanted(error)
      ensures number.Some? ==> world.history == After(old(world.history), Reserved(number.value, true))
      ensures error.Some? ==> !world.smooth && !world.throttled
      ensures error.Some? && world.history != old(world.history) ==>
        world.history.event.ReservationRefused? || StoredUnnoticed(world.history.event)
      ensures error.Some? && error.value.code.RateLimited? ==> world.history == After(old(world.history), ReservationRefused)
      ensures world.scenario.LastReservation? ==> error == if Reservations(old(world.history)) > 0 then Some(QUOTA_EXHAUSTED) else None
    {
      number, error := world.Reserve();
      if world.history != old(world.history) { Silent(old(world.history), world.history.event); }
    }

    /** `deleteLocal`. */
    method DeleteLocalRow() returns (error: Option<Error>)
      requires Sound() && Gone(Evidence(world.history, address)) && Target(world.history) == Some(address)
      modifies world`remote, world`history
      ensures Ended(error) && Wanted(error) && !Early(error) && (world.tame ==> error.None?)
      ensures world.history == After(old(world.history), LocalDeleted(address))
    {
      var missing, failure := world.DeleteLocal(address);
      Silent(old(world.history), LocalDeleted(address));
      if failure.Failed? {
        return Reported(failure);
      }
      if missing && !queued {
        return Some(Coded(Uncoded));
      }
      return None;
    }

    /** What the mutating part starts from: current evidence about an entry of our own. */
    ghost predicate Located(remote: Remote)
      reads this, world
    {
      && Sound() && valid && stopped.None? && ready && Current()
      && Evidence(world.history, address) == Present(remote, true) && remote.id != ""
    }

    ghost predicate Usable(lease: AliasLease)
      reads this, world, lease
    {
      && lease.world == world && lease.Valid() && !lease.committed && SettledBut(world.history, lease.Mine())
      && (if world.quota then lease.number.Some? && Lease(world.history, lease.number.value).Held? else lease.number.None?)
    }

    /** The lease has been marked sent for the delete that follows. */
    ghost predicate Armed(lease: AliasLease)
      reads this, world, lease
    {
      && lease.world == world && lease.Valid() && Settled(world.history) && JustChecked(world.history, Delete)
      && (if world.quota then lease.committed && Lease(world.history, lease.number.value).Sent? else lease.number.None?)
    }

    /** The last checks before a mutation. */
    method PrepareMutation(operation: Operation, remote: Remote, lease: AliasLease) returns (error: Option<Error>)
      requires Located(remote) && Usable(lease)
      modifies this`stopped, this`requested, world`history
      ensures Sound() && Coherent() && lease.Valid() && SettledBut(world.history, lease.Mine())
      ensures Earlier(old(world.history), world.history) && DeletesSent(world.history) == DeletesSent(old(world.history))
      ensures Target(world.history) == Target(old(world.history))
      ensures world.history == old(world.history) || !JustListed(world.history)
      ensures error.None? ==> Located(remote) && Usable(lease) && world.history == After(old(world.history), Checked(operation))
      ensures error.Some? ==> error.value.wait.None? && (error.value.unwanted ==> ReadDirectory(world.history)) && !world.tame
    {
      error := BeforeRequest(operation);
      if world.history != old(world.history) { Silent(old(world.history), world.history.event); }
    }

    /** The last checks before a permanent delete, and marking its lease sent. */
    method PrepareDelete(remote: Remote, lease: AliasLease) returns (error: Option<Error>)
      requires Located(remote) && Usable(lease)
      modifies this`stopped, this`requested, lease, world`remote, world`nextLease, world`history
      ensures Sound() && Coherent() && lease.Valid() && SettledBut(world.history, lease.Mine())
      ensures Earlier(old(world.history), world.history) && DeletesSent(world.history) == DeletesSent(old(world.history))
      ensures Target(world.history) == Target(old(world.history))
      ensures world.history == old(world.history) || !JustListed(world.history)
      ensures error.None? ==> Located(remote) && Armed(lease)
      ensures error.Some? ==> error.value.wait.None? && (error.value.unwanted ==> ReadDirectory(world.history)) && !world.tame
    {
      error := PrepareMutation(Delete, remote, lease);
      if error.Some? { return; }
      ghost var checked := world.history;
      var marking := lease.MarkSent();
      if world.history != checked { Silent(checked, world.history.event); }
      if marking.Failed? { return Reported(marking); }
      var context: Failure := *;
      if world.Tame(context).Failed? { return Reported(context); }
    }

    /** The permanent delete itself, and the commit of its lease. */
    method DispatchDelete(remote: Remote, lease: AliasLease) returns (reply: Option<AppleError>, commit: Failure)
      requires Located(remote) && !remote.active && Armed(lease) && Target(world.history) == Some(address)
      modifies this`mutationAttempted, lease`committed, world`remote, world`history, world`throttles
      ensures Sound() && lease.Valid() && Settled(world.history) && lease.Mine().None? && ListsSinceStop(world.history) == 0
      ensures Sent(old(world.history), world.history)
      ensures world.tame ==> commit.Fine?
      ensures world.calm ==> reply.None? || (world.lossy && reply == Some(LOST_REPLY))
      ensures world.throttled ==> MayThrottle(reply, old(world.throttles), world.throttles)
      ensures reply.None? ==> world.history.event == DeleteAcked(address) && ReadDirectory(world.history)
      ensures reply.None? ==> Reflects(directory - {address}, forwardTo, world.history)
    {
      RunningLists(world.history);
      mutationAttempted := true;
      reply := world.SendDelete(address, remote.id, lease.number);
      DeleteReply(old(world.history), world.history, address, remote.id, lease.number);
      if reply.None? { DeletedReflects(old(world.history), address, remote.id, lease.number, directory, forwardTo); }
      commit := lease.Commit();
    }

    /** One permanent delete was sent. */
    ghost predicate Sent(before: History, now: History)
      reads this
    {
      && Earlier(before, now) && DeletesSent(now) == DeletesSent(before) + 1 && Target(now) == Target(before)
      && SentDelete(now, address) && !JustListed(now) && now.After?
    }

    /** The permanent delete and its reply; a failed commit stops the account. */
    method SubmitDelete(remote: Remote, lease: AliasLease) returns (error: Option<Error>, fatal: bool)
      requires Located(remote) && !remote.active && Armed(lease) && Target(world.history) == Some(address)
      modifies this`valid, this`stopped, this`nextServerDelay, this`mutationAttempted, lease`committed, world`remote, world`history, world`throttles
      ensures Sound() && lease.Valid() && Settled(world.history) && lease.Mine().None? && ListsSinceStop(world.history) == 0
      ensures Sent(old(world.history), world.history)
      ensures Wanted(error) && (error.Some? ==> error.value.wait != Some(QuotaWait))
      ensures error.Some? && world.calm ==> world.lossy && !fatal && stopped == old(stopped) && error == Some(Coded(Upstream))
      ensures paced && error.Some? ==> !fatal && Hit(error)
      ensures fatal ==> stopped.Some?
      ensures error.None? ==> stopped.None? && valid && nextServerDelay == 0
      ensures error.None? ==> world.history.event == DeleteAcked(address) && ReadDirectory(world.history)
      ensures error.None? ==> Reflects(directory - {address}, forwardTo, world.history)
    {
      var reply, commit := DispatchDelete(remote, lease);
      ghost var replied := world.history;
      error, fatal := AcceptDelete(reply, commit);
      if error.Some? {
        Settles(old(world.history), replied, world.history);
        SettlesFor(replied, world.history, address);
      }
    }

    /** Takes in the reply to a delete; a failed commit of its lease stops the account. */
    method AcceptDelete(reply: Option<AppleError>, commit: Failure) returns (error: Option<Error>, fatal: bool)
      requires Sound() && (world.tame ==> commit.Fine?)
      requires world.calm ==> reply.None? || (world.lossy && reply == Some(LOST_REPLY))
      requires world.throttled ==> reply.None? || reply == Some(THROTTLE)
      modifies this`valid, this`stopped, this`nextServerDelay, world`history
      ensures Sound() && OnlyStopped(old(world.history), world.history)
      ensures Wanted(error) && (error.Some? ==> error.value.wait != Some(QuotaWait))
      ensures error.Some? && world.calm ==> world.lossy && !fatal && stopped == old(stopped) && error == Some(Coded(Upstream))
      ensures paced ==> !fatal && stopped == old(stopped) && error == Meaning(reply)
      ensures fatal ==> stopped.Some?
      ensures error.None? ==> reply.None? && world.history == old(world.history)
      ensures error.None? ==> stopped == old(stopped) && valid == old(valid) && nextServerDelay == 0
    {
      error, fatal := AcceptResponse(reply);
      if commit.Failed? {
        var failure := JoinAll(Reported(commit).value, error);
        Stop(failure);
        return Some(failure), true;
      }
    }

    /** Waits, and enters the item again: a fresh directory read decides what is left to do. */
    method Retry(id: int, operation: Operation, cause: Error) returns (error: Option<Error>)
      requires Sound() && Settled(world.history) && Aimed(id) && CanRecover(cause) && !cause.unwanted
      requires !JustListed(world.history) && (paced ==> Hit(Some(cause)))
      modifies this, world
      ensures Ended(error) && Settled(world.history) && (paced ==> Succeeds(error))
      ensures Earlier(old(world.history), world.history) && world.patience <= old(world.patience)
      decreases world.patience, 3
    {
      error := RecoverThrottle(operation, cause);
      ghost var recovered := world.history;
      QuietKeeps(old(world.history), recovered);
      if error.Some? { return; }
      error := DeleteItem(id);
      EarlierTrans(old(world.history), recovered, world.history);
    }

    /** What follows a permanent delete that was not acknowledged. */
    method AfterFailedDelete(id: int, mapped: Error, fatal: bool) returns (error: Option<Error>)
      requires Sound() && Settled(world.history) && ListsSinceStop(world.history) == 0 && !mapped.unwanted
      requires mapped.wait != Some(QuotaWait) && (stopped.None? ==> ready) && (fatal ==> stopped.Some?)
      requires Aimed(id) && !JustListed(world.history) && (paced ==> !fatal && Hit(Some(mapped)))
      modifies this, world
      ensures Ended(error) && !Early(error) && Settled(world.history) && (paced ==> Succeeds(error))
      ensures !recovery && JustListed(world.history) ==> error == Some(mapped) || Ambiguous(error)
      ensures world.lossy && !fatal && old(stopped).None? && mapped == Coded(Upstream) && old(SentDelete(world.history, address)) ==>
        error.None? && stopped.None? && DeletesSent(world.history) == DeletesSent(old(world.history))
      ensures Earlier(old(world.history), world.history) && world.patience <= old(world.patience)
      decreases world.patience, 6, 0
    {
      valid := false;
      if fatal { return Some(mapped); }
      if CanRecover(mapped) {
        error := Retry(id, Delete, mapped);
        return;
      }
      ghost var before := world.history;
      if mapped.wait.Some? { return Some(mapped); }
      var remote;
      remote, error := Reconcile();
      QuietKeeps(before, world.history);
      if world.lossy { CarriedOutEvidence(world.history, address); }
      if error.Some? { return Some(Join(error.value, mapped)); }
      if remote.Some? { return Some(mapped); }
      error := DeleteLocalRow();
    }

    /** `reconcile`: one fresh listing decides what an ambiguous mutation did. */
    method Reconcile() returns (remote: Option<Remote>, error: Option<Error>)
      requires Sound() && ListsSinceStop(world.history) == 0 && (stopped.None? ==> ready)
      modifies this`ready, this`valid, this`stopped, this`directory, this`forwardTo, this`attempts, this`nextServerDelay, this`requested, world
      ensures Sound() && Coherent() && Quiet(old(world.history), world.history)
      ensures world.patience <= old(world.patience)
      ensures Wanted(error) && !Early(error) && (world.calm ==> error.None?)
      ensures error.None? ==> valid && Current() && (stopped.None? ==> ready) && stopped == old(stopped)
      ensures error.None? && remote.Some? ==> Evidence(world.history, address) == Present(remote.value, true)
      ensures error.None? && remote.None? ==> Evidence(world.history, address).Absent?
      ensures error.Some? && JustListed(world.history) ==> JustListed(old(world.history)) || Ambiguous(error)
      ensures world.tame && remote.Some? ==> remote.value.id != ""
      decreases world.patience, 5
    {
      error := RefreshDirectory();
      remote := None;
      if error.None? {
        remote, error := FindOurs();
      }
    }

    method SendPermanentDelete(id: int, remote: Remote, lease: AliasLease) returns (error: Option<Error>)
      requires Located(remote) && !remote.active && Usable(lease) && Aimed(id)
      modifies this, lease, world
      ensures Ended(error) && lease.Valid() && SettledBut(world.history, lease.Mine())
      ensures Earlier(old(world.history), world.history) && world.patience <= old(world.patience)
      ensures Early(error) ==> DeletesSent(world.history) == DeletesSent(old(world.history))
      ensures Early(error) ==> error.value.wait != Some(QuotaWait)
      ensures world.smooth ==> Smoothly(error, old(world.history))
      ensures paced ==> Succeeds(error)
      decreases world.patience, 7, 0
    {
      error := PrepareDelete(remote, lease);
      if error.Some? { return; }
      ghost var prepared := world.history;
      error := SendPrepared(id, remote, lease);
      EarlierTrans(old(world.history), prepared, world.history);
    }

    method SendPrepared(id: int, remote: Remote, lease: AliasLease) returns (error: Option<Error>)
      requires Located(remote) && !remote.active && Armed(lease) && Aimed(id)
      modifies this, lease, world
      ensures Ended(error) && !Early(error) && lease.Valid() && SettledBut(world.history, lease.Mine())
      ensures Earlier(old(world.history), world.history) && world.patience <= old(world.patience)
      ensures world.smooth ==> Smoothly(error, old(world.history))
      ensures paced ==> Succeeds(error)
      decreases world.patience, 6, 1
    {
      var fatal;
      error, fatal := SubmitDelete(remote, lease);
      ghost var replied := world.history;
      if error.Some? {
        error := AfterFailedDelete(id, error.value, fatal);
        if lease.number.Some? { SentForever(world.quota, replied, world.history, lease.number.value); }
      } else {
        directory := directory - {address};
        error := DeleteLocalRow();
      }
      EarlierTrans(old(world.history), replied, world.history);
    }

    /** The deferred release of a lease when the flow returns. */
    method ReleaseDeferred(lease: AliasLease, ghost error: Option<Error>)
      requires Ended(error) && Relisted(error) && lease.world == world && lease.Valid() && SettledBut(world.history, lease.Mine())
      modifies lease, world`remote, world`nextLease, world`history
      ensures Ended(error) && Relisted(error) && Settled(world.history) && (old(CutOff(error)) ==> CutOff(error))
      ensures Evidence(world.history, address) == old(Evidence(world.history, address))
      ensures Earlier(old(world.history), world.history) && DeletesSent(world.history) == DeletesSent(old(world.history))
    {
      var ignored := lease.Release();
      if world.history != old(world.history) { Silent(old(world.history), world.history.event); }
    }

    /** What follows a deactivation that was not acknowledged. */
    method AfterFailedDeactivation(id: int, mapped: Error, fatal: bool) returns (error: Option<Error>)
      requires Sound() && Settled(world.history) && ListsSinceStop(world.history) == 0 && !mapped.unwanted
      requires mapped.wait != Some(QuotaWait) && (stopped.None? ==> ready) && (fatal ==> stopped.Some?)
      requires !JustListed(world.history) && (paced ==> !fatal && Hit(Some(mapped)))
      requires Aimed(id) && (!fatal ==> Unanswered(world.history, address))
      modifies this, world
      ensures Ended(error) && Settled(world.history) && (paced ==> Succeeds(error))
      ensures Early(error) ==> DeletesSent(world.history) == DeletesSent(old(world.history))
      ensures Earlier(old(world.history), world.history) && world.patience <= old(world.patience)
      ensures Relisted(error)
      ensures world.lossy && !fatal && old(stopped).None? && mapped == Coded(Upstream) ==> Smoothly(error, old(world.history))
      ensures old(OnCue(1) && Mutated(world.history)) && !fatal && mapped == Coded(Upstream) ==> CutOff(error)
      decreases world.patience, 8, 0
    {
      valid := false;
      if fatal { return Some(mapped); }
      if CanRecover(mapped) {
        error := Retry(id, Deactivate, mapped);
        return;
      }
      if mapped.wait.Some? { return Some(mapped); }
      error := ReconcileDeactivation(id, mapped);
    }

    /** One fresh listing decides what the deactivation did. */
    method ReconcileDeactivation(id: int, mapped: Error) returns (error: Option<Error>)
      requires Sound() && Settled(world.history) && ListsSinceStop(world.history) == 0 && Plainly(mapped)
      requires (stopped.None? ==> ready) && !JustListed(world.history)
      requires Aimed(id) && Unanswered(world.history, address)
      modifies this, world
      ensures Ended(error) && Settled(world.history)
      ensures Early(error) ==> DeletesSent(world.history) == DeletesSent(old(world.history))
      ensures Earlier(old(world.history), world.history) && world.patience <= old(world.patience)
      ensures Relisted(error)
      ensures world.lossy && old(stopped).None? ==> Smoothly(error, old(world.history))
      ensures old(OnCue(1) && Mutated(world.history)) ==> CutOff(error)
      decreases world.patience, 7, 3
    {
      ghost var before := world.history;
      var remote;
      remote, error := Reconcile();
      QuietKeeps(before, world.history);
      UnansweredWasSent(before, address);
      if error.Some? { return Some(Join(error.value, mapped)); }
      ghost var reconciled := world.history;
      error := ResolveDeactivation(id, remote, mapped);
      EarlierTrans(before, reconciled, world.history);
    }

    predicate Plainly(mapped: Error) {
      !mapped.unwanted && mapped.wait.None?
    }

    /** What a reconciling read says about the deactivation. */
    method ResolveDeactivation(id: int, remote: Option<Remote>, mapped: Error) returns (error: Option<Error>)
      requires Sound() && valid && Current() && (stopped.None? ==> ready) && Settled(world.history)
      requires remote.Some? ==> Evidence(world.history, address) == Present(remote.value, true)
      requires remote.None? ==> Evidence(world.history, address).Absent?
      requires world.tame && remote.Some? ==> remote.value.id != ""
      requires SentDeactivate(world.history, address)
      requires !mapped.unwanted && mapped.wait != Some(QuotaWait) && Aimed(id) && Unanswered(world.history, address)
      modifies this, world
      ensures Ended(error) && Settled(world.history) && Relisted(error)
      ensures Early(error) ==> DeletesSent(world.history) == DeletesSent(old(world.history))
      ensures Earlier(old(world.history), world.history) && world.patience <= old(world.patience)
      ensures world.lossy && old(stopped).None? ==> Smoothly(error, old(world.history))
      ensures old(OnCue(1) && Mutated(world.history)) ==> CutOff(error)
      decreases world.patience, 7, 2
    {
      if OnCue(1) { CueFinds(1, remote); }
      if world.lossy { CarriedOutEvidence(world.history, address); }
      if remote.None? {
        error := DeleteLocalRow();
        return;
      }
      if remote.value.active || stopped.Some? { return Some(mapped); }
      if remote.value.id == "" { return Some(Join(mapped, Coded(Upstream))); }
      error := DeleteReconciled(id, remote.value);
    }

    /** Reconciliation proved the deactivation; the delete needs a reservation of its own. */
    method DeleteReconciled(id: int, remote: Remote) returns (error: Option<Error>)
      requires Located(remote) && !remote.active && Settled(world.history) && Aimed(id)
      requires Unanswered(world.history, address)
      modifies this, world
      ensures Ended(error) && Settled(world.history)
      ensures Early(error) ==> DeletesSent(world.history) == DeletesSent(old(world.history))
      ensures Earlier(old(world.history), world.history) && world.patience <= old(world.patience)
      ensures Relisted(error)
      ensures world.smooth ==> Smoothly(error, old(world.history))
      ensures paced ==> Succeeds(error)
      ensures old(OnCue(1) && Mutated(world.history)) ==> CutOff(error)
      decreases world.patience, 7, 1
    {
      InactiveWasListed(world.history, address);
      var lease;
      lease, error := ReserveQuota();
      ghost var reserved := world.history;
      if reserved != old(world.history) { Silent(old(world.history), reserved.event); }
      if error.Some? { return; }
      error := SendPermanentDelete(id, remote, lease);
      EarlierTrans(old(world.history), reserved, world.history);
      ghost var sent := world.history;
      ReleaseDeferred(lease, error);
      EarlierTrans(old(world.history), sent, world.history);
    }

    /** The deactivation; a failed one gives its lease back. */
    method SubmitDeactivation(remote: Remote, lease: AliasLease) returns (reply: Option<AppleError>, released: Failure)
      requires Located(remote) && remote.active && Usable(lease) && JustChecked(world.history, Deactivate)
      requires Target(world.history) == Some(address)
      modifies this`mutationAttempted, lease, world`remote, world`nextLease, world`history, world`throttles
      ensures Sound() && lease.Valid() && !lease.committed && ListsSinceStop(world.history) == 0
      ensures SameAccount(old(world.history), world.history) && Mutated(world.history)
      ensures reply.Some? ==> SettledBut(world.history, lease.Mine()) && Unanswered(world.history, address)
      ensures reply.None? ==> released.Fine? && Usable(lease) && ReadDirectory(world.history)
      ensures reply.None? ==> Reflects(directory[address := remote.(active := false)], forwardTo, world.history)
      ensures reply.None? ==> Evidence(world.history, address) == Present(remote.(active := false), true)
      ensures !JustListed(world.history)
      ensures world.tame ==> released.Fine?
      ensures world.calm ==> reply.None? || reply == Some(LOST_REPLY)
      ensures world.throttled ==> MayThrottle(reply, old(world.throttles), world.throttles)
      ensures world.smooth && !world.lossy ==> reply.None?
      ensures world.scenario.LastReservation? ==> reply == Some(LOST_REPLY) && released.Fine?
    {
      RunningLists(world.history);
      DeactivatedReflects(world.history, address, remote, directory, forwardTo);
      released := Fine;
      mutationAttempted := true;
      reply := world.SendDeactivate(address, remote.id);
      ghost var replied := world.history;
      DeactivateReply(old(world.history), replied, address, remote.id);
      if reply.Some? {
        released := lease.Release();
      }
      EarlierTrans(old(world.history), replied, world.history);
    }

    /** What a mutation leaves alone. */
    ghost predicate SameAccount(before: History, now: History) {
      && Earlier(before, now) && DeletesSent(now) == DeletesSent(before) && Target(now) == Target(before)
      && Reservations(now) == Reservations(before) && (JustListed(now) ==> JustListed(before))
    }

    /** The deactivation and its reply. */
    method RequestDeactivation(remote: Remote, lease: AliasLease)
      returns (mapped: Option<Error>, fatal: bool, released: Failure)
      requires Located(remote) && remote.active && Usable(lease) && JustChecked(world.history, Deactivate)
      requires Target(world.history) == Some(address)
      modifies this`valid, this`stopped, this`nextServerDelay, this`mutationAttempted, this`directory, lease, world`remote, world`nextLease, world`history, world`throttles
      ensures Sound() && lease.Valid() && !lease.committed && ListsSinceStop(world.history) == 0
      ensures SameAccount(old(world.history), world.history) && Mutated(world.history)
      ensures Wanted(mapped) && (mapped.Some? ==> mapped.value.wait != Some(QuotaWait)) && (fatal ==> stopped.Some?)
      ensures !JustListed(world.history)
      ensures world.smooth && mapped.Some? ==>
        world.lossy && mapped == Some(Coded(Upstream)) && !fatal && released.Fine? && stopped.None?
      ensures paced && mapped.Some? ==> !fatal && released.Fine? && Hit(mapped)
      ensures world.scenario.LastReservation? ==> mapped == Some(Coded(Upstream)) && !fatal && released.Fine? && stopped.None?
      ensures released.Failed? ==> mapped.Some?
      ensures mapped.Some? ==> SettledBut(world.history, lease.Mine()) && (!fatal ==> Unanswered(world.history, address))
      ensures mapped.None? ==> Located(remote.(active := false)) && Usable(lease)
    {
      var reply;
      reply, released := SubmitDeactivation(remote, lease);
      ghost var submitted := world.history;
      mapped, fatal := AcceptDeactivation(remote, lease, reply);
      if mapped.Some? {
        Settles(old(world.history), submitted, world.history);
        SettlesFor(submitted, world.history, address);
      }
    }

    /** Takes in the reply to a deactivation. */
    method AcceptDeactivation(remote: Remote, lease: AliasLease, reply: Option<AppleError>)
      returns (mapped: Option<Error>, fatal: bool)
      requires Sound() && valid && stopped.None? && ready && remote.id != ""
      requires world.calm ==> reply.None? || reply == Some(LOST_REPLY)
      requires world.throttled ==> reply.None? || reply == Some(THROTTLE)
      requires reply.None? ==> Usable(lease) && ReadDirectory(world.history)
      requires reply.None? ==> Reflects(directory[address := remote.(active := false)], forwardTo, world.history)
      requires reply.None? ==> Evidence(world.history, address) == Present(remote.(active := false), true)
      modifies this`valid, this`stopped, this`nextServerDelay, this`directory, world`history
      ensures Sound() && OnlyStopped(old(world.history), world.history)
      ensures Wanted(mapped) && (mapped.Some? ==> mapped.value.wait != Some(QuotaWait)) && (fatal ==> stopped.Some?)
      ensures Friendly() ==> !fatal && stopped.None? && mapped == Meaning(reply)
      ensures mapped.Some? && reply.None? ==> fatal
      ensures mapped.None? ==> reply.None? && world.history == old(world.history) && Located(remote.(active := false)) && Usable(lease)
    {
      mapped, fatal := AcceptResponse(reply);
      if mapped.None? {
        directory := directory[address := remote.(active := false)];
      }
    }

    /** The flow while it holds a reservation. */
    method DeleteLeased(id: int, remote: Remote, lease: AliasLease) returns (error: Option<Error>)
      requires Located(remote) && Usable(lease) && Aimed(id)
      modifies this, lease, world
      ensures Ended(error) && lease.Valid() && SettledBut(world.history, lease.Mine())
      ensures Early(error) ==> DeletesSent(world.history) == DeletesSent(old(world.history))
      ensures Earlier(old(world.history), world.history) && world.patience <= old(world.patience)
      ensures world.smooth ==> Smoothly(error, old(world.history))
      ensures paced ==> Succeeds(error)
      ensures Relisted(error) && (old(OnCue(1)) && remote.active ==> CutOff(error))
      decreases world.patience, 9
    {
      if !remote.active {
        error := SendPermanentDelete(id, remote, lease);
        return;
      }
      error := PrepareMutation(Deactivate, remote, lease);
      ghost var checked := world.history;
      if error.Some? { return; }
      error := DeactivateThenDelete(id, remote, lease);
      EarlierTrans(old(world.history), checked, world.history);
    }

    method DeactivateThenDelete(id: int, remote: Remote, lease: AliasLease) returns (error: Option<Error>)
      requires Located(remote) && remote.active && Usable(lease) && JustChecked(world.history, Deactivate) && Aimed(id)
      modifies this, lease, world
      ensures Ended(error) && lease.Valid() && SettledBut(world.history, lease.Mine())
      ensures Early(error) ==> DeletesSent(world.history) == DeletesSent(old(world.history))
      ensures Earlier(old(world.history), world.history) && world.patience <= old(world.patience)
      ensures world.smooth ==> Smoothly(error, old(world.history))
      ensures paced ==> Succeeds(error)
      ensures Relisted(error) && (old(OnCue(1)) ==> CutOff(error))
      decreases world.patience, 9, 0
    {
      var mapped, fatal, released := RequestDeactivation(remote, lease);
      ghost var replied := world.history;
      if mapped.None? {
        error := SendPermanentDelete(id, remote.(active := false), lease);
        EarlierTrans(old(world.history), replied, world.history);
        return;
      }
      if released.Failed? {
        return Some(Join(Reported(released).value, mapped.value));
      }
      error := ReleaseThenReconcile(id, lease, mapped.value, fatal);
      EarlierTrans(old(world.history), replied, world.history);
    }

    /** The reservation is given back before anything else is tried. */
    method ReleaseThenReconcile(id: int, lease: AliasLease, mapped: Error, fatal: bool) returns (error: Option<Error>)
      requires Sound() && lease.world == world && lease.Valid() && !lease.committed && SettledBut(world.history, lease.Mine())
      requires ListsSinceStop(world.history) == 0 && !mapped.unwanted && Aimed(id)
      requires !fatal ==> Unanswered(world.history, address)
      requires !JustListed(world.history) && (paced ==> !fatal && Hit(Some(mapped)))
      requires mapped.wait != Some(QuotaWait) && (stopped.None? ==> ready) && (fatal ==> stopped.Some?)
      modifies this, lease, world
      ensures paced ==> Succeeds(error)
      ensures Ended(error) && lease.Valid() && SettledBut(world.history, lease.Mine())
      ensures Early(error) ==> DeletesSent(world.history) == DeletesSent(old(world.history))
      ensures Earlier(old(world.history), world.history) && world.patience <= old(world.patience)
      ensures Relisted(error)
      ensures world.lossy && !fatal && old(stopped).None? && mapped == Coded(Upstream) ==> Smoothly(error, old(world.history))
      ensures old(OnCue(1) && Mutated(world.history)) && !fatal && mapped == Coded(Upstream) ==> CutOff(error)
      decreases world.patience, 8, 1
    {
      var released := lease.Release();
      ghost var settled := world.history;
      if released.Failed? {
        return Some(Join(Reported(released).value, mapped));
      }
      error := AfterFailedDeactivation(id, mapped, fatal);
      EarlierTrans(old(world.history), settled, world.history);
    }

    // ---- One item --------------------------------------------------------------------------

    /** The alias row, or the snapshot of queued work whose row is gone. */
    method LookUp(id: int) returns (error: Option<Error>, normalized: Address)
      ensures Wanted(error) && (world.tame ==> error.None?)
      ensures error.None? ==> (queued ==> normalized == snapshot.value)
      ensures error.None? && world.tame && !queued && recoveryAlias.Some? && recoveryAlias.value.0 == id ==>
        normalized == recoveryAlias.value.1
    {
      var context: Failure, lookup: Failure, missing: bool, foreign: bool, row: Address := *, *, *, *, *;
      var seen: Reading := *;
      missing, row, normalized := world.Happens(missing), Kept(id, row), "";
      if world.Tame(context).Failed? { return Reported(context), normalized; }
      if world.Tame(lookup).Failed? { return Reported(lookup), normalized; }
      if missing && !queued { return Some(Coded(Uncoded)), normalized; }
      if world.Happens(foreign) { return Some(Coded(AccountChanged)), normalized; }
      normalized := if missing then snapshot.value else row;
      error := CheckWork(queued, false, world.Sees(seen).(aliasMoved := queued && normalized != snapshot.value));
    }

    /** The admission checks of `delete`. */
    method Admit(id: int) returns (error: Option<Error>, pending: bool)
      requires Sound() && Coherent() && Admissible(id)
      modifies this`stopped, this`address, this`recoveryAlias, world`history
      ensures Sound() && Coherent() && Wanted(error) && (world.tame && old(stopped).None? ==> error.None?)
      ensures error.None? ==> stopped.None? && world.history == After(old(world.history), Admitted(address)) && Aimed(id)
      ensures error.Some? ==> world.history == old(world.history) || world.history == After(old(world.history), Stopped)
    {
      var row, admitted: bool, account: Failure, changed: bool := "", *, *, *;
      pending := *;
      error, row := LookUp(id);
      if error.Some? { return; }
      address := row;
      if world.Happens(pending && !admitted) { return Some(Coded(ConfirmationPending)), pending; }
      if stopped.Some? { return stopped, pending; }
      var moved := recovery && recoveryAlias.Some? && recoveryAlias.value.0 == id && recoveryAlias.value.1 != address;
      if !moved && world.Tame(account).Failed? { return Reported(account), pending; }
      if moved || world.Happens(changed) {
        Stop(Coded(AccountChanged));
        return Some(Coded(AccountChanged)), pending;
      }
      Register(id);
    }

    /** The attempt is for this alias and address from here on. */
    method Register(id: int)
      requires Sound() && Coherent() && stopped.None?
      requires Target(world.history).None? || Target(world.history) == Some(address)
      modifies this`recoveryAlias, world`history
      ensures Sound() && Coherent() && Aimed(id) && world.history == After(old(world.history), Admitted(address))
    {
      if recovery { recoveryAlias := Some((id, address)); }
      world.Note(Admitted(address));
      Silent(old(world.history), Admitted(address));
    }

    /** A first entry, or a re-entry after a recovery. */
    ghost predicate Admissible(id: int)
      reads this, world
    {
      Target(world.history).None? || (recovery && Aimed(id))
    }

    /** The address a row has; in a friendly scenario it has not changed. */
    function Kept(id: int, row: Address): Address
      reads this
    {
      if !world.tame then row
      else if queued then snapshot.value
      else if recoveryAlias.Some? && recoveryAlias.value.0 == id then recoveryAlias.value.1
      else row
    }

    /** A validated session and a current directory. */
    method Prepare(pending: bool) returns (error: Option<Error>, stale: bool)
      requires Sound() && Coherent() && stopped.None? && !JustListed(world.history)
      modifies this`ready, this`valid, this`stopped, this`directory, this`forwardTo, this`attempts, this`nextServerDelay, this`requested, world
      ensures Sound() && Wanted(error) && Quiet(old(world.history), world.history)
      ensures world.patience <= old(world.patience)
      ensures error.None? ==> stopped.None? && valid && ready && Current()
      ensures error.None? && stale ==> world.history.After? && world.history.event == Listed(directory, forwardTo)
      ensures error.None? && !stale ==> !JustListed(world.history)
      ensures error.Some? && JustListed(world.history) ==> Ambiguous(error)
      ensures Friendly() ==> error.None?
      decreases world.patience, 5
    {
      error, stale := None, !valid;
      if !ready {
        error := Initialize();
        if error.Some? {
          if pending && error.value.code.LoginRequired? {
            return Some(Coded(ConfirmationPending)), stale;
          }
          if stopped.None? { Stop(error.value); }
          return;
        }
      }
      stale := !valid;
      if stale {
        ghost var initialized := world.history;
        RunningLists(initialized);
        error := RefreshDirectory();
        QuietTrans(old(world.history), initialized, world.history);
      }
    }

    /** `delete`: one item of the account, from admission to local removal. Success means
        that Apple no longer has the address. */
    method DeleteItem(id: int) returns (error: Option<Error>)
      requires Sound() && Coherent() && Settled(world.history) && Admissible(id) && !JustListed(world.history)
      modifies this, world
      ensures Ended(error) && Settled(world.history)
      ensures error.None? ==> address !in world.remote
      ensures Early(error) ==> DeletesSent(world.history) == DeletesSent(old(world.history))
      ensures Earlier(old(world.history), world.history) && world.patience <= old(world.patience)
      ensures world.smooth && old(stopped).None? ==> Smoothly(error, old(world.history))
      ensures paced && old(stopped).None? ==> Succeeds(error)
      ensures QuotaEnd(error, old(world.history))
      ensures queued && old(OnCue(0) && !Mutated(world.history)) ==> CutOff(error)
      decreases world.patience, 11
    {
      var pending;
      error, pending := Admit(id);
      if error.Some? { return; }
      Begun(old(world.history), Admitted(address));
      ghost var admitted := world.history;
      error := DeleteAdmitted(id, pending);
      EarlierTrans(old(world.history), admitted, world.history);
    }

    /** From the directory to local removal. */
    method DeleteAdmitted(id: int, pending: bool) returns (error: Option<Error>)
      requires Sound() && Coherent() && Settled(world.history) && Aimed(id) && stopped.None? && !JustListed(world.history)
      modifies this, world
      ensures Ended(error) && Settled(world.history)
      ensures error.None? ==> address !in world.remote
      ensures Early(error) ==> DeletesSent(world.history) == DeletesSent(old(world.history))
      ensures Earlier(old(world.history), world.history) && world.patience <= old(world.patience)
      ensures world.smooth ==> Smoothly(error, old(world.history))
      ensures paced ==> Succeeds(error)
      ensures QuotaEnd(error, old(world.history))
      ensures old(OnCue(0) && !Mutated(world.history)) ==> CutOff(error)
      decreases world.patience, 11, 0
    {
      var remote;
      remote, error := Locate(pending);
      ghost var located := world.history;
      QuietKeeps(old(world.history), located);
      if error.Some? { return; }
      if OnCue(0) { CueFinds(0, remote); }
      if remote.None? {
        error := DeleteLocalRow();
      } else if remote.value.id == "" {
        error := Some(Coded(Upstream));
      } else {
        error := DeleteRemote(id, remote.value);
      }
      EarlierTrans(old(world.history), located, world.history);
      assert Agrees(Evidence(world.history, address), address, world.remote);
    }

    /** Looks the item up; absence in a directory read for an earlier item is checked again. */
    method Locate(pending: bool) returns (remote: Option<Remote>, error: Option<Error>)
      requires Sound() && Coherent() && stopped.None? && !JustListed(world.history)
      modifies this`ready, this`valid, this`stopped, this`directory, this`forwardTo, this`attempts, this`nextServerDelay, this`requested, world
      ensures Sound() && Wanted(error) && Quiet(old(world.history), world.history)
      ensures world.patience <= old(world.patience)
      ensures error.None? ==> stopped.None? && valid && ready && Current()
      ensures error.None? && remote.Some? ==> Evidence(world.history, address) == Present(remote.value, true)
      ensures error.None? && remote.None? ==> Evidence(world.history, address).Absent?
      ensures error.Some? && JustListed(world.history) ==> Ambiguous(error)
      ensures Friendly() ==> error.None? && (remote.Some? ==> remote.value.id != "")
      decreases world.patience, 6
    {
      var current;
      remote := None;
      error, current := Prepare(pending);
      if error.Some? { return; }
      remote, error := FindOurs();
      if error.None? && remote.None? && !current {
        ghost var prepared := world.history;
        remote, error := LocateAgain();
        QuietTrans(old(world.history), prepared, world.history);
      }
    }

    /** Looks the item up in a directory read for it. */
    method LocateAgain() returns (remote: Option<Remote>, error: Option<Error>)
      requires Sound() && ready && stopped.None? && !JustListed(world.history)
      modifies this`ready, this`valid, this`stopped, this`directory, this`forwardTo, this`attempts, this`nextServerDelay, this`requested, world
      ensures Sound() && Wanted(error) && Quiet(old(world.history), world.history)
      ensures world.patience <= old(world.patience)
      ensures error.None? ==> stopped.None? && valid && ready && Current()
      ensures error.None? && remote.Some? ==> Evidence(world.history, address) == Present(remote.value, true)
      ensures error.None? && remote.None? ==> Evidence(world.history, address).Absent?
      ensures error.Some? && JustListed(world.history) ==> Ambiguous(error)
      ensures Friendly() ==> error.None? && (remote.Some? ==> remote.value.id != "")
      decreases world.patience, 5
    {
      RunningLists(world.history);
      remote := None;
      error := RefreshDirectory();
      if error.None? {
        remote, error := FindOurs();
      }
    }

    /** `find` in a current directory. */
    method FindOurs() returns (remote: Option<Remote>, error: Option<Error>)
      requires Sound() && Current()
      ensures error.None? && remote.Some? ==> Evidence(world.history, address) == Present(remote.value, true)
      ensures error.None? && remote.None? ==> Gone(Evidence(world.history, address)) && address !in directory
      ensures error.Some? ==> error.value == Coded(AccountMismatch)
      ensures world.tame ==> error.None? && (remote.Some? ==> remote.value.id != "")
    {
      assert Matches(Evidence(world.history, address), Shown(directory, forwardTo, address));
      if world.tame { EvidenceIsOurs(world.history, address); }
      remote, error := Find();
    }

    /** The items of one account group, in order; once the account is stopped the remaining
        items are not attempted. */
    method RunGroup(items: seq<int>) returns (outcomes: seq<Option<Error>>)
      requires Sound() && Settled(world.history)
      modifies this, world
      ensures Sound() && Settled(world.history) && Earlier(old(world.history), world.history)
      ensures |outcomes| == |items|
      ensures Recoveries(world.history) <= MAX_RECOVERIES && ListsSinceStop(world.history) <= 1
      ensures world.smooth && old(stopped).None? ==>
        stopped.None? && DeletesSent(world.history) <= DeletesSent(old(world.history)) + |items|
        && forall n :: 0 <= n < |items| ==> outcomes[n].None?
      ensures paced && old(stopped).None? ==> stopped.None? && forall n :: 0 <= n < |items| ==> outcomes[n].None?
    {
      outcomes := [];
      for n := 0 to |items|
        invariant world.smooth && old(stopped).None? ==>
          stopped.None? && DeletesSent(world.history) <= DeletesSent(old(world.history)) + n
        invariant |outcomes| == n && Sound() && Settled(world.history)
        invariant world.smooth && old(stopped).None? ==> forall k :: 0 <= k < n ==> outcomes[k].None?
        invariant paced && old(stopped).None? ==> stopped.None? && forall k :: 0 <= k < n ==> outcomes[k].None?
        invariant Earlier(old(world.history), world.history)
      {
        var locked: Failure := *;
        if stopped.Some? {
          outcomes := outcomes + [stopped];
        } else if world.Tame(locked).Failed? {
          outcomes := outcomes + [Reported(locked)];
        } else {
          ghost var before := world.history;
          var error := RunItem(items[n]);
          EarlierTrans(old(world.history), before, world.history);
          outcomes := outcomes + [error];
        }
      }
      BudgetsHold(world.quota, world.history);
    }

    /** One item under the account's locks: nothing read for an earlier item is kept. */
    method RunItem(id: int) returns (error: Option<Error>)
      requires Sound() && Settled(world.history)
      modifies this, world
      ensures Sound() && Settled(world.history) && Earlier(old(world.history), world.history)
      ensures error.None? ==> address !in world.remote && RemovedLocally(world.history, address)
      ensures world.smooth && old(stopped).None? ==> Smoothly(error, old(world.history))
      ensures paced && old(stopped).None? ==> Succeeds(error)
    {
      world.Note(Started);
      Begun(old(world.history), Started);
      ready, valid, directory := false, false, map[];
      ghost var started := world.history;
      error := DeleteItem(id);
      EarlierTrans(old(world.history), started, world.history);
    }

    /** The mutating part, around its reservation. */
    method DeleteRemote(id: int, remote: Remote) returns (error: Option<Error>)
      requires Located(remote) && Settled(world.history) && Aimed(id)
      modifies this, world
      ensures Ended(error) && Settled(world.history)
      ensures Early(error) ==> DeletesSent(world.history) == DeletesSent(old(world.history))
      ensures Earlier(old(world.history), world.history) && world.patience <= old(world.patience)
      ensures world.smooth ==> Smoothly(error, old(world.history))
      ensures paced ==> Succeeds(error)
      ensures QuotaEnd(error, old(world.history))
      ensures old(OnCue(0)) && remote.active ==> CutOff(error)
      decreases world.patience, 10
    {
      var lease;
      lease, error := ReserveQuota();
      ghost var reserved := world.history;
      if reserved != old(world.history) { Silent(old(world.history), reserved.event); }
      if error.Some? {
        if !CanRecover(error.value) { return; }
        error := Retry(id, Deactivate, error.value);
        EarlierTrans(old(world.history), reserved, world.history);
        return;
      }
      error := DeleteLeased(id, remote, lease);
      ghost var attempted := world.history;
      EarlierTrans(old(world.history), reserved, attempted);
      ReleaseDeferred(lease, error);
      EarlierTrans(old(world.history), attempted, world.history);
    }
  }

  predicate SilentEvent(e: Event) {
    e.Admitted? || e.Checked? || e.Stopped? || e.Reserved? || e.ReservationRefused? || e.ReleaseAttempted? || e.MarkedSent? || e.LocalDeleted?
  }

  /** At most one event, and it changes no belief. */
  ghost predicate Beside(before: History, now: History) {
    now == before || (now.After? && now.past == before && SilentEvent(now.event))
  }

  lemma Silent(h: History, e: Event)
    requires SilentEvent(e)
    ensures forall a: Address :: Evidence(After(h, e), a) == Evidence(h, a)
    ensures forall directory, forwardTo :: Reflects(directory, forwardTo, h) ==> Reflects(directory, forwardTo, After(h, e))
    ensures ReadDirectory(After(h, e)) == ReadDirectory(h)
  {
    forall directory, forwardTo | Reflects(directory, forwardTo, h) ensures Reflects(directory, forwardTo, After(h, e)) {
      forall a: Address ensures Matches(Evidence(After(h, e), a), Shown(directory, forwardTo, a)) {
        assert Matches(Evidence(h, a), Shown(directory, forwardTo, a));
      }
    }
  }

  /** Nothing but stopping happened in between. */
  predicate OnlyStopped(before: History, now: History) {
    now == before || (now.After? && now.event.Stopped? && OnlyStopped(before, now.past))
  }

  /** Stopping the account changes nothing else. */
  lemma {:induction false} Settles(before: History, replied: History, now: History)
    requires Earlier(before, replied) && OnlyStopped(replied, now)
    ensures Earlier(before, now) && DeletesSent(now) == DeletesSent(replied)
    ensures ListsSinceStop(now) == ListsSinceStop(replied) && ReadDirectory(now) == ReadDirectory(replied)
    ensures Target(now) == Target(replied) && Reservations(now) == Reservations(replied) && Mutated(now) == Mutated(replied)
    ensures JustListed(now) ==> JustListed(replied)
    ensures forall l: nat :: Lease(now, l) == Lease(replied, l)
  {
    if now != replied { Settles(before, replied, now.past); }
  }

  lemma {:induction false} SettlesFor(replied: History, now: History, a: Address)
    requires OnlyStopped(replied, now)
    ensures Unanswered(replied, a) ==> Unanswered(now, a)
    ensures SentDelete(now, a) == SentDelete(replied, a)
  {
    if now != replied { SettlesFor(replied, now.past, a); }
  }

  lemma Begun(h: History, e: Event)
    requires Settled(h) && (e.Started? || e.Admitted?)
    ensures Settled(After(h, e)) && Earlier(h, After(h, e)) && DeletesSent(After(h, e)) == DeletesSent(h)
  {
    forall l: nat ensures Lease(After(h, e), l) != Held {
      assert Lease(h, l) != Held;
    }
  }

  lemma ValidateReply(h: History, sent: History, now: History)
    requires sent == After(After(h, Checked(Validate)), ValidateSent) && (now == sent || now == After(sent, Stopped))
    ensures Quiet(h, now) && ListsSinceStop(now) == ListsSinceStop(h)
  {
    QuietMore(h, h, Checked(Validate));
    QuietMore(h, sent.past, ValidateSent);
    QuietMore(h, sent, Stopped);
  }

  lemma QuietMore(h: History, past: History, e: Event)
    requires Quiet(h, past) && QuietEvent(e) && !e.ListSent?
    ensures Quiet(h, After(past, e)) && ListsSinceStop(After(past, e)) == ListsSinceStop(past)
  {
  }

  lemma ListReply(h: History, replied: History, now: History, listed: map<Address, Remote>, target: string)
    requires var sent := After(After(h, Checked(List)), ListSent); replied == sent || replied == After(sent, Listed(listed, target))
    requires now == replied || now == After(replied, Stopped)
    ensures Quiet(h, now)
  {
    assert Quiet(h, After(h, Checked(List)));
    assert Quiet(h, After(After(h, Checked(List)), ListSent));
    assert Quiet(h, replied);
  }

  lemma DeleteReply(h: History, now: History, address: Address, id: string, lease: Option<nat>)
    requires var sent := After(h, DeleteSent(address, id, lease)); now == sent || now == After(sent, DeleteAcked(address))
    ensures Earlier(h, now) && ListsSinceStop(now) == ListsSinceStop(h) && ReadDirectory(now) == ReadDirectory(h)
    ensures DeletesSent(now) == DeletesSent(h) + 1 && Target(now) == Target(h) && SentDelete(now, address) && !JustListed(now)
    ensures forall l: nat :: Lease(now, l) == if lease == Some(l) then Spent else Lease(h, l)
  {
    var sent := After(h, DeleteSent(address, id, lease));
    assert Earlier(h, sent);
    assert ListsSinceStop(sent) == ListsSinceStop(h) && ReadDirectory(sent) == ReadDirectory(h);
    assert forall l: nat :: Lease(sent, l) == if lease == Some(l) then Spent else Lease(h, l);
  }

  lemma DeactivateReply(h: History, now: History, address: Address, id: string)
    requires var sent := After(h, DeactivateSent(address, id)); now == sent || now == After(sent, DeactivateAcked(address))
    ensures Earlier(h, now) && ListsSinceStop(now) == ListsSinceStop(h) && ReadDirectory(now) == ReadDirectory(h)
    ensures DeletesSent(now) == DeletesSent(h) && Target(now) == Target(h) && Reservations(now) == Reservations(h)
    ensures Mutated(now) && (now.event.DeactivateSent? ==> Unanswered(now, address))
    ensures forall l: nat :: Lease(now, l) == Lease(h, l)
  {
    var sent := After(h, DeactivateSent(address, id));
    assert Earlier(h, sent);
    assert !sent.event.DeleteSent? && DeletesSent(sent) == DeletesSent(sent.past);
    assert ListsSinceStop(sent) == ListsSinceStop(h) && ReadDirectory(sent) == ReadDirectory(h);
    assert forall l: nat :: Lease(sent, l) == Lease(h, l);
  }

  /** After an acknowledged delete the cache without the entry agrees with the evidence. */
  lemma DeletedReflects(
    h: History, address: Address, id: string, lease: Option<nat>, directory: map<Address, Remote>, forwardTo: string
  )
    requires Reflects(directory, forwardTo, h)
    ensures Reflects(directory - {address}, forwardTo, After(After(h, DeleteSent(address, id, lease)), DeleteAcked(address)))
  {
    var sent := After(h, DeleteSent(address, id, lease));
    forall a: Address
      ensures Matches(Evidence(After(sent, DeleteAcked(address)), a), Shown(directory - {address}, forwardTo, a))
    {
      assert Matches(Evidence(h, a), Shown(directory, forwardTo, a));
    }
  }

  /** After an acknowledged deactivation so does the cache with the entry inactive. */
  lemma DeactivatedReflects(h: History, address: Address, remote: Remote, directory: map<Address, Remote>, forwardTo: string)
    requires Reflects(directory, forwardTo, h) && Evidence(h, address) == Present(remote, true)
    ensures var acked := After(After(h, DeactivateSent(address, remote.id)), DeactivateAcked(address));
      && Reflects(directory[address := remote.(active := false)], forwardTo, acked)
      && Evidence(acked, address) == Present(remote.(active := false), true)
  {
    var sent := After(h, DeactivateSent(address, remote.id));
    assert Matches(Evidence(h, address), Shown(directory, forwardTo, address));
    forall a: Address
      ensures Matches(Evidence(After(sent, DeactivateAcked(address)), a),
        Shown(directory[address := remote.(active := false)], forwardTo, a))
    {
      assert Matches(Evidence(h, a), Shown(directory, forwardTo, a));
    }
  }

  lemma {:induction false} RunningLists(h: History)
    requires !HasStopped(h)
    ensures ListsSinceStop(h) == 0
  {
    if h.After? { RunningLists(h.past); }
  }
}
