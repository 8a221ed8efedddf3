/** Everything around the deletion flow: Apple's directory and its adversarial replies, the
    quota repository, local storage and the caller's context. Each method appends what it did
    to the history. */
module DeletionWorld {
  import opened Results
  import opened DeletionHistory

  datatype Code =
    | Uncoded
    | RateLimited
    | SessionExpired
    | LoginRequired
    | CredentialsInvalid
    | AccountActionRequired
    | VerificationInvalid
    | AccountChanged
    | AccountMismatch
    | ConfirmationPending
    | BatchDeferred
    | Upstream

  datatype Cooldown = QuotaWait | UpstreamWait

  /** What `errors.Is`, `errors.As` and `Code` can find in an error. `context.Canceled` comes
      from the caller's context or from the check that the work is still wanted. */
  datatype Error = Error(code: Code, wait: Option<Cooldown>, byCaller: bool, unwanted: bool)

  function Coded(code: Code): Error {
    Error(code, None, false, false)
  }

  predicate Canceled(e: Error) {
    e.byCaller || e.unwanted
  }

  function Join(a: Error, b: Error): Error {
    Error(if a.code.Uncoded? then b.code else a.code, if a.wait.None? then b.wait else a.wait,
      a.byCaller || b.byCaller, a.unwanted || b.unwanted)
  }

  /** How a repository call, or a look at the context, may go at any moment. */
  datatype Failure = Fine | Failed(byCaller: bool)

  function Reported(f: Failure): (e: Option<Error>)
    ensures e.Some? ==> Plain(e.value)
  {
    if f.Fine? then None else Some(Error(Uncoded, None, f.byCaller, false))
  }

  predicate Plain(e: Error) {
    e.code.Uncoded? && e.wait.None? && !e.unwanted
  }

  /** What the repositories say about the account, the alias and the queued work. */
  datatype Reading = Reading(
    account: Failure, accountChanged: bool, alias: Failure, aliasMoved: bool, pending: bool,
    work: Failure, wanted: bool, session: Failure, loggedOut: bool, undecryptable: bool, subjectChanged: bool)

  /** Nothing has changed, nothing fails and the work is still wanted. */
  const CALM := Reading(Fine, false, Fine, false, false, Fine, true, Fine, false, false, false)

  /** `checkWork`. */
  function CheckWork(queued: bool, mutation: bool, r: Reading): (e: Option<Error>)
    ensures e.Some? ==> e.value.wait.None? && (e.value.unwanted ==> mutation && !r.wanted)
  {
    if !queued then None
    else if r.account.Failed? then Reported(r.account)
    else if r.accountChanged then Some(Coded(AccountChanged))
    else if r.alias.Failed? then Reported(r.alias)
    else if r.aliasMoved then Some(Coded(AccountChanged))
    else if mutation && r.work.Failed? then Reported(r.work)
    else if mutation && !r.wanted then Some(Error(Uncoded, None, false, true))
    else None
  }

  /** `beforeResume`. */
  function CheckResume(queued: bool, r: Reading): (e: Option<Error>)
    ensures e.Some? ==> e.value.wait.None? && !e.value.unwanted
  {
    if r.account.Failed? then Reported(r.account)
    else if r.accountChanged then Some(Coded(AccountChanged))
    else if r.alias.Failed? then Reported(r.alias)
    else if r.aliasMoved then Some(Coded(AccountChanged))
    else if r.pending then Some(Coded(ConfirmationPending))
    else CheckWork(queued, false, r)
  }

  /** `loadSession` and the subject checks after it. */
  function LoadSession(r: Reading): (e: Option<Error>)
    ensures e.Some? ==> e.value.wait.None? && !e.value.unwanted
  {
    if r.session.Failed? then Reported(r.session)
    else if r.loggedOut then Some(Coded(LoginRequired))
    else if r.undecryptable then Some(Coded(SessionExpired))
    else if r.subjectChanged then Some(Coded(AccountChanged))
    else None
  }

  /** `quotaWait`. */
  function QuotaWaiting(quota: bool, usage: Failure, exhausted: bool): Option<Error> {
    if !quota then None
    else if usage.Failed? then Reported(usage)
    else if exhausted then Some(QUOTA_EXHAUSTED)
    else None
  }

  /** What Apple, or the transport, says when a request does not succeed. */
  datatype AppleError = AppleError(
    rateLimited: bool, invalidSession: bool, authentication: bool, twoFactor: bool, terms: bool,
    retryDelay: nat, canceled: bool, deadline: bool)

  /** `mapAppleError`, then the throttle override of `acceptResponse`. */
  function Mapped(e: AppleError): Error {
    if e.rateLimited then
      var code :=
        if e.invalidSession then SessionExpired
        else if e.authentication then CredentialsInvalid
        else if e.terms then AccountActionRequired
        else if e.twoFactor then VerificationInvalid
        else RateLimited;
      Error(code, None, e.canceled, false)
    else if e.canceled || e.deadline then Error(Uncoded, None, e.canceled, false)
    else if e.invalidSession then Coded(SessionExpired)
    else if e.authentication then Coded(CredentialsInvalid)
    else if e.twoFactor then Coded(VerificationInvalid)
    else if e.terms then Coded(AccountActionRequired)
    else Coded(Upstream)
  }

  // ---- What the history says about the world ---------------------------------------------

  /** A belief that the address is gone is right, and an entry keeps its remote ID. */
  ghost predicate Agrees(belief: Belief, a: Address, remote: map<Address, Remote>) {
    && (Gone(belief) ==> a !in remote)
    && (a in remote && (belief.Present? || belief.InDoubt?) ==> belief.remote.id == remote[a].id)
  }

  ghost predicate Truthful(h: History, remote: map<Address, Remote>) {
    forall a: Address :: Agrees(Evidence(h, a), a, remote)
  }

  ghost predicate FreshFrom(h: History, nextLease: nat) {
    forall l: nat :: nextLease <= l ==> Lease(h, l) == Unreserved
  }

  /** Other parties may change or delete entries; none comes back and none changes its ID. */
  ghost predicate Shrinks(before: map<Address, Remote>, after: map<Address, Remote>) {
    forall a: Address :: a in after ==> a in before && after[a].id == before[a].id
  }

  lemma ShrinkKeepsTruth(h: History, before: map<Address, Remote>, after: map<Address, Remote>)
    requires Truthful(h, before) && Shrinks(before, after)
    ensures Truthful(h, after)
  {
    forall a: Address ensures Agrees(Evidence(h, a), a, after) {
      assert Agrees(Evidence(h, a), a, before);
    }
  }

  predicate Bookkeeping(e: Event) {
    (QuietEvent(e) && !e.Listed?) || e.Started? || e.Admitted? || e.LocalDeleted?
  }

  lemma BookkeepingKeepsTruth(h: History, e: Event, remote: map<Address, Remote>, nextLease: nat)
    requires Truthful(h, remote) && FreshFrom(h, nextLease)
    requires Bookkeeping(e)
    ensures Truthful(After(h, e), remote) && FreshFrom(After(h, e), nextLease)
  {
    forall a: Address ensures Agrees(Evidence(After(h, e), a), a, remote) {
      assert Agrees(Evidence(h, a), a, remote);
    }
    forall l: nat | nextLease <= l ensures Lease(After(h, e), l) == Unreserved {
      assert Lease(h, l) == Unreserved;
    }
  }

  /** At most one event happened in between. */
  ghost predicate Extends(before: History, now: History) {
    now == before || (now.After? && now.past == before)
  }

  predicate StoredUnnoticed(e: Event) {
    e.Reserved? && !e.acknowledged
  }

  predicate QuotaEvent(e: Event) {
    e.Reserved? || e.ReservationRefused? || e.ReleaseAttempted? || e.MarkedSent?
  }

  /** Everything but listings and mutations leaves the script alone. */
  lemma KeepsScript(h: History, e: Event, a: Address, id: string, forward: string)
    requires Bookkeeping(e) || QuotaEvent(e)
    ensures DeletesSent(After(h, e)) == DeletesSent(h) && Mutated(After(h, e)) == Mutated(h)
    ensures Reservations(After(h, e)) == Reservations(h) + (if e.Reserved? then 1 else 0)
    ensures OnScript(a, id, forward, h) ==> OnScript(a, id, forward, After(h, e))
    ensures OursOnly(h) ==> OursOnly(After(h, e))
    ensures CarriedOut(h) ==> CarriedOut(After(h, e))
  {
  }

  lemma KeepsShown(h: History, e: Event, directory: map<Address, Remote>)
    requires ShowsSent(h, directory) && !e.DeactivateSent? && !e.DeleteSent?
    ensures ShowsSent(After(h, e), directory)
  {
    forall a: Address | a in directory
      ensures !SentDelete(After(h, e), a) && (SentDeactivate(After(h, e), a) ==> !directory[a].active)
    {
      assert !SentDelete(h, a);
    }
  }

  lemma LeaseEventKeepsTruth(h: History, e: Event, remote: map<Address, Remote>)
    requires Truthful(h, remote) && QuotaEvent(e)
    ensures Truthful(After(h, e), remote)
  {
    forall a: Address ensures Agrees(Evidence(After(h, e), a), a, remote) {
      assert Agrees(Evidence(h, a), a, remote);
    }
  }

  lemma LeaseEventKeepsFresh(h: History, e: Event, nextLease: nat, later: nat)
    requires FreshFrom(h, nextLease) && nextLease <= later
    requires QuotaEvent(e) && (!e.ReservationRefused? ==> e.number < later)
    ensures FreshFrom(After(h, e), later)
  {
    forall l: nat | later <= l ensures Lease(After(h, e), l) == Unreserved {
      assert Lease(h, l) == Unreserved;
    }
  }

  lemma ListingIsTrue(h: History, remote: map<Address, Remote>, forwardTo: string, nextLease: nat)
    requires FreshFrom(h, nextLease)
    ensures Truthful(After(h, Listed(remote, forwardTo)), remote)
    ensures FreshFrom(After(h, Listed(remote, forwardTo)), nextLease)
  {
    forall a: Address ensures Agrees(Evidence(After(h, Listed(remote, forwardTo)), a), a, remote) {
    }
    forall l: nat | nextLease <= l ensures Lease(After(h, Listed(remote, forwardTo)), l) == Unreserved {
      assert Lease(h, l) == Unreserved;
    }
  }

  lemma MutationKeepsTruth(h: History, e: Event, remote: map<Address, Remote>, nextLease: nat)
    requires Truthful(h, remote) && FreshFrom(h, nextLease)
    requires e.DeactivateSent? || e.DeactivateAcked? || (e.DeleteSent? && (e.lease.Some? ==> e.lease.value < nextLease))
      || (e.DeleteAcked? && e.address !in remote)
    ensures Truthful(After(h, e), remote) && FreshFrom(After(h, e), nextLease)
  {
    forall a: Address ensures Agrees(Evidence(After(h, e), a), a, remote) {
      assert Agrees(Evidence(h, a), a, remote);
    }
    forall l: nat | nextLease <= l ensures Lease(After(h, e), l) == Unreserved {
      assert Lease(h, l) == Unreserved;
    }
  }

  function Deactivated(remote: map<Address, Remote>, id: string): map<Address, Remote> {
    map a | a in remote :: if remote[a].id == id then remote[a].(active := false) else remote[a]
  }

  function Without(remote: map<Address, Remote>, id: string): map<Address, Remote> {
    map a | a in remote && remote[a].id != id :: remote[a]
  }

  /** What the environment may do: anything; nothing that fails, except that in a lossy world
      the reply to any mutation may be lost after Apple has carried it out, and nobody
      reactivates entries there; or, for an account whose directory is one entry, nothing that
      fails except that the reply to its deactivation is lost and that the quota has room for
      one reservation only; or nothing that fails except that some requests are throttled. */
  datatype Scenario = Anything | EverythingWorks(lossy: bool) | LastReservation(address: Address, id: string) | Throttled

  const LOST_REPLY := AppleError(false, false, false, false, false, 0, false, false)
  const THROTTLE := AppleError(true, false, false, false, false, 0, false, false)
  const QUOTA_EXHAUSTED := Error(RateLimited, Some(QuotaWait), false, false)

  /** No error, or one of the throttles that were left. */
  predicate MayThrottle(error: Option<AppleError>, before: nat, now: nat) {
    (error.None? && now == before) || (error == Some(THROTTLE) && now + 1 == before)
  }

  class World {
    /** Apple's directory as it really is. */
    var remote: map<Address, Remote>
    /** How many more cooldowns the caller sits through before cancelling. */
    var patience: nat
    var nextLease: nat
    /** How many more requests Apple throttles, where it throttles. */
    var throttles: nat
    const quota: bool
    /** The friendly scenarios say what must happen in them; all else holds in all of them. */
    const scenario: Scenario
    const smooth: bool := scenario.EverythingWorks?
    const lossy: bool := scenario == EverythingWorks(true)
    const throttled: bool := scenario.Throttled?
    /** Nothing fails but what the scenario names. */
    const tame: bool := !scenario.Anything?
    const calm: bool := tame && !throttled
    const target: string
    ghost var history: History

    ghost predicate Valid()
      reads this
    {
      && Safe(quota, history) && Truthful(history, remote) && FreshFrom(history, nextLease) && nextLease == Reservations(history)
      && (tame ==> OursOnly(history) && AllOurs(remote, target))
      && (lossy ==> CarriedOut(history) && ShowsSent(history, remote))
      && (scenario.LastReservation? ==> quota && Scripted(scenario.address, scenario.id))
    }

    ghost predicate Scripted(a: Address, id: string)
      reads this
    {
      OnScript(a, id, target, history) && (DeletesSent(history) == 0 ==> remote == OnlyEntry(a, id, target, history))
    }

    /** A failure, and anything else that can go wrong, does not happen in a friendly scenario. */
    function Tame(f: Failure): Failure {
      if tame then Fine else f
    }

    predicate Happens(b: bool) {
      b && !tame
    }

    function Sees(r: Reading): Reading {
      if tame then CALM else r
    }

    constructor (remote: map<Address, Remote>, patience: nat, throttles: nat, quota: bool, scenario: Scenario, target: string)
      requires !scenario.Anything? ==> AllOurs(remote, target)
      requires scenario.LastReservation? ==> quota && remote == OnlyEntry(scenario.address, scenario.id, target, Beginning)
      ensures Valid() && history == Beginning && this.remote == remote && this.patience == patience && this.throttles == throttles
      ensures this.quota == quota && this.scenario == scenario && this.target == target
    {
      this.remote, this.patience, this.quota, this.scenario, this.target := remote, patience, quota, scenario, target;
      nextLease, history, this.throttles := 0, Beginning, throttles;
      new;
      assert forall a: Address :: Evidence(history, a) == Unknown;
    }

    /** Users, other devices and Apple may deactivate, reactivate or delete entries at any
        time; a deleted address does not come back. */
    method Interfere()
      requires Valid()
      modifies this`remote
      ensures Valid() && Shrinks(old(remote), remote)
      ensures scenario.LastReservation? ==> remote == old(remote)
      ensures lossy ==> forall a: Address :: a in remote && remote[a].active ==> old(remote)[a].active
    {
      if scenario.LastReservation? {
        return;
      }
      var kept: set<Address>, active: set<Address>, forward: string := *, *, *;
      remote := map a | a in remote && a in kept :: Remote(remote[a].id, a in active && (remote[a].active || !lossy), if tame then target else forward);
      ShrinkKeepsTruth(history, old(remote), remote);
    }

    /** Neither listings nor mutations: what the friendly scenarios promise goes on. */
    lemma KeepStory(e: Event)
      requires Valid() && (Bookkeeping(e) || QuotaEvent(e))
      ensures tame ==> OursOnly(After(history, e))
      ensures lossy ==> CarriedOut(After(history, e)) && ShowsSent(After(history, e), remote)
      ensures scenario.LastReservation? ==>
        && OnScript(scenario.address, scenario.id, target, After(history, e))
        && DeletesSent(After(history, e)) == DeletesSent(history) && Mutated(After(history, e)) == Mutated(history)
      ensures Reservations(After(history, e)) == Reservations(history) + (if e.Reserved? then 1 else 0)
    {
      var a, id := if scenario.LastReservation? then scenario.address else "", if scenario.LastReservation? then scenario.id else "";
      KeepsScript(history, e, a, id, target);
      if lossy { KeepsShown(history, e, remote); }
    }

    /** Events that concern nobody else's knowledge. */
    ghost method Note(event: Event)
      requires Valid() && Allowed(quota, history, event)
      requires Bookkeeping(event)
      modifies this`history
      ensures Valid() && history == After(old(history), event)
    {
      BookkeepingKeepsTruth(history, event, remote, nextLease);
      KeepStory(event);
      history := After(history, event);
    }

    /** A reply; only a friendly scenario rules errors out. */
    method Reply() returns (error: Option<AppleError>)
      modifies this`throttles
      ensures calm ==> error.None?
      ensures throttled ==> MayThrottle(error, old(throttles), throttles)
    {
      var busy: bool := *;
      error := *;
      if tame {
        error := None;
      }
      if throttled && busy && throttles > 0 {
        error, throttles := Some(THROTTLE), throttles - 1;
      }
    }

    /** The reply to a mutation, and whether Apple carries the request out. */
    method MutationReply() returns (error: Option<AppleError>, applied: bool)
      modifies this`throttles
      ensures error.None? ==> applied
      ensures calm ==> applied && (error.None? || (lossy && error == Some(LOST_REPLY)))
      ensures throttled ==> MayThrottle(error, old(throttles), throttles)
    {
      var lost: bool := *;
      applied := *;
      error := Reply();
      if lossy && lost {
        error := Some(LOST_REPLY);
      }
      applied := applied || error.None? || calm;
    }

    method SendValidate() returns (error: Option<AppleError>)
      requires Valid() && Allowed(quota, history, ValidateSent)
      modifies this`remote, this`history, this`throttles
      ensures Valid() && history == After(old(history), ValidateSent) && (calm ==> error.None?)
      ensures throttled ==> MayThrottle(error, old(throttles), throttles)
    {
      Interfere();
      Note(ValidateSent);
      error := Reply();
    }

    method SendList() returns (error: Option<AppleError>, directory: map<Address, Remote>, forwardTo: string)
      requires Valid() && Allowed(quota, history, ListSent)
      modifies this`remote, this`history, this`throttles
      ensures Valid() && (calm ==> error.None?)
      ensures throttled ==> MayThrottle(error, old(throttles), throttles)
      ensures error.Some? ==> history == After(old(history), ListSent)
      ensures error.None? ==> history == After(After(old(history), ListSent), Listed(directory, forwardTo))
    {
      Interfere();
      Note(ListSent);
      error := Reply();
      directory, forwardTo := remote, *;
      if tame {
        forwardTo := target;
      }
      if error.None? {
        ListingIsTrue(history, remote, forwardTo, nextLease);
        if lossy { KeepsShown(history, Listed(directory, forwardTo), remote); }
        history := After(history, Listed(directory, forwardTo));
      }
    }

    /** A mutation is sent, and the directory becomes `after`. */
    method Apply(event: Event, after: map<Address, Remote>)
      requires Valid() && Allowed(quota, history, event) && (event.DeactivateSent? || event.DeleteSent?)
      requires Shrinks(remote, after) && (tame ==> AllOurs(after, target))
      requires lossy ==> ShowsSent(After(history, event), after)
      requires scenario.LastReservation? && event.DeactivateSent? && DeletesSent(history) == 0 ==>
        event.address == scenario.address && after == OnlyEntry(scenario.address, scenario.id, target, After(history, event))
      modifies this`remote, this`history
      ensures Valid() && history == After(old(history), event) && remote == after
    {
      assert event.DeleteSent? && event.lease.Some? ==> Lease(history, event.lease.value) != Unreserved;
      MutationKeepsTruth(history, event, remote, nextLease);
      history := After(history, event);
      ShrinkKeepsTruth(history, remote, after);
      remote := after;
    }

    ghost method Acknowledge(event: Event)
      requires Valid() && (event.DeactivateAcked? || (event.DeleteAcked? && event.address !in remote))
      modifies this`history
      ensures Valid() && history == After(old(history), event)
    {
      MutationKeepsTruth(history, event, remote, nextLease);
      if lossy { KeepsShown(history, event, remote); }
      history := After(history, event);
    }

    /** Success means applied; an error may hide that the request was applied. */
    method SendDeactivate(address: Address, id: string) returns (error: Option<AppleError>)
      requires Valid() && Allowed(quota, history, DeactivateSent(address, id))
      modifies this`remote, this`history, this`throttles
      ensures throttled ==> MayThrottle(error, old(throttles), throttles)
      ensures Valid() && (calm ==> error.None? || error == Some(LOST_REPLY)) && (smooth && !lossy ==> error.None?)
      ensures scenario.LastReservation? ==> error == Some(LOST_REPLY)
      ensures error.Some? ==> history == After(old(history), DeactivateSent(address, id))
      ensures error.None? ==> history == After(After(old(history), DeactivateSent(address, id)), DeactivateAcked(address))
    {
      if scenario.LastReservation? && DeletesSent(history) == 0 {
        ScriptedEvidence(scenario.address, scenario.id, target, history, address);
      }
      Interfere();
      var applied;
      error, applied := MutationReply();
      if scenario.LastReservation? {
        error := Some(LOST_REPLY);
      }
      var after := if applied then Deactivated(remote, id) else remote;
      Apply(DeactivateSent(address, id), after);
      if error.None? { Acknowledge(DeactivateAcked(address)); }
    }

    method SendDelete(address: Address, id: string, lease: Option<nat>) returns (error: Option<AppleError>)
      requires Valid() && Allowed(quota, history, DeleteSent(address, id, lease))
      modifies this`remote, this`history, this`throttles
      ensures throttled ==> MayThrottle(error, old(throttles), throttles)
      ensures Valid() && (calm ==> error.None? || (lossy && error == Some(LOST_REPLY)))
      ensures error.Some? ==> history == After(old(history), DeleteSent(address, id, lease))
      ensures error.None? ==> history == After(After(old(history), DeleteSent(address, id, lease)), DeleteAcked(address))
    {
      Interfere();
      assert Agrees(Evidence(history, address), address, remote);
      var applied;
      error, applied := MutationReply();
      var after := if applied then Without(remote, id) else remote;
      Apply(DeleteSent(address, id, lease), after);
      if error.None? { Acknowledge(DeleteAcked(address)); }
    }

    /** A reservation may be refused, and one that reports an error may have been stored. */
    method Reserve() returns (number: Option<nat>, error: Option<Error>)
      requires Valid()
      modifies this`remote, this`nextLease, this`history
      ensures Valid() && Extends(old(history), history)
      ensures number.Some? ==> history == After(old(history), Reserved(number.value, true)) && Lease(old(history), number.value) == Unreserved
      ensures number.None? && history != old(history) ==> history.event.ReservationRefused? || StoredUnnoticed(history.event)
      ensures number.Some? <==> error.None?
      ensures error.Some? ==> error.value == QUOTA_EXHAUSTED || Plain(error.value)
      ensures error == Some(QUOTA_EXHAUSTED) ==> history == After(old(history), ReservationRefused)
      ensures smooth || throttled ==> error.None?
      ensures scenario.LastReservation? ==> error == if Reservations(old(history)) > 0 then Some(QUOTA_EXHAUSTED) else None
    {
      var failure: Failure, stored: bool, exhausted: bool := *, *, *;
      if scenario.LastReservation? {
        exhausted := nextLease > 0;
      } else if tame {
        exhausted := false;
      }
      if Tame(failure).Failed? {
        if stored { Record(Reserved(nextLease, false)); }
        return None, Reported(failure);
      }
      if exhausted {
        Record(ReservationRefused);
        return None, Some(QUOTA_EXHAUSTED);
      }
      error := None;
      number := Some(nextLease);
      Record(Reserved(nextLease, true));
    }

    /** A change in the quota repository. */
    method Record(event: Event)
      requires Valid() && Allowed(quota, history, event) && QuotaEvent(event)
      requires event.Reserved? ==> event.number == nextLease
      modifies this`nextLease, this`history
      ensures Valid() && history == After(old(history), event)
    {
      LeaseEventKeepsTruth(history, event, remote);
      KeepStory(event);
      var later := if event.Reserved? then nextLease + 1 else nextLease;
      LeaseEventKeepsFresh(history, event, nextLease, later);
      nextLease, history := later, After(history, event);
    }

    /** The repository deletes a row that is not charged; an error leaves open whether it did. */
    method Release(number: nat) returns (failure: Failure)
      requires Valid() && Allowed(quota, history, ReleaseAttempted(number, true, true))
      modifies this`remote, this`nextLease, this`history
      ensures Valid() && (tame ==> failure.Fine?)
      ensures history.After? && history.past == old(history)
      ensures history.event.ReleaseAttempted? && history.event.number == number && history.event.acknowledged == failure.Fine?
    {
      failure := *;
      failure := Tame(failure);
      var applied: bool := *;
      Record(ReleaseAttempted(number, failure.Fine?, failure.Fine? || applied));
    }

    /** An error leaves open whether the row was marked. */
    method MarkSent(number: nat) returns (failure: Failure)
      requires Valid() && Allowed(quota, history, MarkedSent(number, true))
      modifies this`remote, this`nextLease, this`history
      ensures Valid() && (tame ==> failure.Fine?)
      ensures failure.Fine? ==> history == After(old(history), MarkedSent(number, true))
      ensures failure.Failed? ==> history == old(history) || history == After(old(history), MarkedSent(number, false))
    {
      failure := *;
      failure := Tame(failure);
      var applied: bool := *;
      if failure.Fine? || applied {
        Record(MarkedSent(number, failure.Fine?));
      }
    }

    /** Both account locks are given up while waiting. */
    method Cool() returns (error: Option<Error>)
      requires Valid()
      modifies this`remote, this`patience, this`history
      ensures Valid() && history == After(old(history), Waited)
      ensures patience <= old(patience) && (error.None? ==> patience < old(patience))
      ensures error.Some? ==> !error.value.unwanted && error.value.wait != Some(QuotaWait)
      ensures tame && old(patience) > 0 ==> error.None? && patience == old(patience) - 1
    {
      Note(Waited);
      Interfere();
      if patience == 0 {
        return Some(Error(Uncoded, None, true, false));
      }
      patience := patience - 1;
      var failure: Failure, unsupported: bool := *, *;
      failure := Tame(failure);
      error := if failure.Fine? && Happens(unsupported) then Some(Error(RateLimited, Some(UpstreamWait), false, false)) else Reported(failure);
    }

    method DeleteLocal(a: Address) returns (missing: bool, failure: Failure)
      requires Valid() && Allowed(quota, history, LocalDeleted(a))
      modifies this`remote, this`history
      ensures Valid() && (tame ==> failure.Fine? && !missing)
      ensures history == After(old(history), LocalDeleted(a))
    {
      Note(LocalDeleted(a));
      failure, missing := *, *;
      failure, missing := Tame(failure), Happens(missing);
    }
  }
}
