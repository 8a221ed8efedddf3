/** What an alias deletion did, as a history of observable events, and which histories are
    acceptable. Nothing here mentions the code that produces the history. */
module DeletionHistory {
  import opened Results

  type Address = string

  /** One entry of Apple's directory. */
  datatype Remote = Remote(id: string, active: bool, forward: string)

  datatype Operation = Validate | List | Deactivate | Delete

  datatype Event =
    | Started
    | Admitted(address: Address)
    | Checked(operation: Operation)
    | ValidateSent
    | ListSent
    | Listed(directory: map<Address, Remote>, forwardTo: string)
    | DeactivateSent(address: Address, id: string)
    | DeactivateAcked(address: Address)
    | DeleteSent(address: Address, id: string, lease: Option<nat>)
    | DeleteAcked(address: Address)
    | Reserved(number: nat, acknowledged: bool)
    | ReservationRefused
    | ReleaseAttempted(number: nat, acknowledged: bool, applied: bool)
    | MarkedSent(number: nat, acknowledged: bool)
    | Waited
    | Recovered
    | Stopped
    | LocalDeleted(address: Address)

  datatype History = Beginning | After(past: History, event: Event)

  // ---- Evidence --------------------------------------------------------------------------

  /** What the current attempt may believe about an address. Releasing the account's locks
      and sending a mutation destroy the belief. */
  datatype Belief =
    | Unknown
    | Present(remote: Remote, owned: bool)
    | InDoubt(remote: Remote, owned: bool)
    | Absent
    | Deleted

  function Shown(directory: map<Address, Remote>, forwardTo: string, a: Address): Belief {
    if a in directory then Present(directory[a], directory[a].forward == forwardTo) else Absent
  }

  function Evidence(h: History, a: Address): Belief {
    match h
    case Beginning => Unknown
    case After(past, event) =>
      match event
      case Started => Unknown
      case Waited => Unknown
      case Listed(directory, forwardTo) => Shown(directory, forwardTo, a)
      case DeactivateSent(b, _) =>
        var belief := Evidence(past, a);
        if a == b && belief.Present? then InDoubt(belief.remote, belief.owned) else belief
      case DeactivateAcked(b) =>
        var belief := Evidence(past, a);
        if a == b && belief.InDoubt? then Present(belief.remote.(active := false), belief.owned) else belief
      case DeleteSent(b, _, _) => if a == b then Unknown else Evidence(past, a)
      case DeleteAcked(b) => if a == b then Deleted else Evidence(past, a)
      case _ => Evidence(past, a)
  }

  /** Every entry forwards to the account's own target and has an ID. */
  predicate AllOurs(directory: map<Address, Remote>, forwardTo: string) {
    forall a <- directory :: directory[a].forward == forwardTo && directory[a].id != ""
  }

  predicate OursOnly(h: History) {
    h.After? ==> OursOnly(h.past) && (h.event.Listed? ==> AllOurs(h.event.directory, h.event.forwardTo))
  }

  lemma {:induction false} EvidenceIsOurs(h: History, a: Address)
    requires OursOnly(h)
    ensures Evidence(h, a).Present? || Evidence(h, a).InDoubt? ==> Evidence(h, a).owned && Evidence(h, a).remote.id != ""
  {
    if h.After? { EvidenceIsOurs(h.past, a); }
  }

  /** Apple no longer has the address. */
  predicate Gone(b: Belief) {
    b.Absent? || b.Deleted?
  }

  /** The address the current attempt was admitted for. */
  function Target(h: History): Option<Address> {
    match h
    case Beginning => None
    case After(past, event) =>
      match event
      case Started => None
      case Admitted(a) => Some(a)
      case _ => Target(past)
  }

  function Attempts(h: History): nat {
    if h.Beginning? then 0 else Attempts(h.past) + (if h.event.Started? then 1 else 0)
  }

  // ---- Quota leases ----------------------------------------------------------------------

  /** What the flow has been told about a lease: a quota call that took effect may still have
      been reported as an error. */
  datatype LeaseState = Unreserved | Held | Lost | Doubtful | ReleaseFailed | Returned | Sent | Spent

  function Lease(h: History, l: nat): LeaseState {
    match h
    case Beginning => Unreserved
    case After(past, event) =>
      match event
      case Reserved(n, acknowledged) => if n == l then (if acknowledged then Held else Lost) else Lease(past, l)
      case ReleaseAttempted(n, acknowledged, _) =>
        if n == l then (if acknowledged then Returned else ReleaseFailed) else Lease(past, l)
      case MarkedSent(n, acknowledged) => if n == l then (if acknowledged then Sent else Doubtful) else Lease(past, l)
      case DeleteSent(_, _, lease) => if lease == Some(l) then Spent else Lease(past, l)
      case _ => Lease(past, l)
  }

  /** What the repository stores about it. Only a row that is not charged can be released. */
  datatype Row = NoRow | ReservedRow | ChargedRow

  function StoredRow(h: History, l: nat): Row {
    match h
    case Beginning => NoRow
    case After(past, event) =>
      match event
      case Reserved(n, _) => if n == l then ReservedRow else StoredRow(past, l)
      case MarkedSent(n, _) => if n == l then ChargedRow else StoredRow(past, l)
      case ReleaseAttempted(n, _, applied) =>
        if n == l && applied && StoredRow(past, l).ReservedRow? then NoRow else StoredRow(past, l)
      case _ => StoredRow(past, l)
  }

  /** The flow knows of the reservation and still has to mark it or offer it back. */
  predicate Open(state: LeaseState) {
    state.Held? || state.Doubtful?
  }

  /** No reservation the flow knows of is left that was neither marked sent nor offered back. */
  ghost predicate Settled(h: History) {
    forall l: nat :: !Open(Lease(h, l))
  }

  ghost predicate SettledBut(h: History, mine: Option<nat>) {
    forall l: nat :: mine != Some(l) ==> !Open(Lease(h, l))
  }

  // ---- Counters --------------------------------------------------------------------------

  predicate HasStopped(h: History) {
    h.After? && (h.event.Stopped? || HasStopped(h.past))
  }

  /** Directory reads sent after the account was stopped. */
  function ListsSinceStop(h: History): nat {
    if h.Beginning? then 0
    else ListsSinceStop(h.past) + (if h.event.ListSent? && HasStopped(h.past) then 1 else 0)
  }

  function Recoveries(h: History): nat {
    if h.Beginning? then 0 else Recoveries(h.past) + (if h.event.Recovered? then 1 else 0)
  }

  predicate Mutated(h: History) {
    h.After? && (h.event.DeactivateSent? || h.event.DeleteSent? || Mutated(h.past))
  }

  function DeletesSent(h: History): nat {
    if h.Beginning? then 0 else DeletesSent(h.past) + (if h.event.DeleteSent? then 1 else 0)
  }

  /** Reservations that were stored. */
  function Reservations(h: History): nat {
    if h.Beginning? then 0 else Reservations(h.past) + (if h.event.Reserved? then 1 else 0)
  }

  /** The directory was read since the attempt started. */
  predicate ReadDirectory(h: History) {
    h.After? && !h.event.Started? && (h.event.Listed? || ReadDirectory(h.past))
  }

  /** A deactivation of a was sent in this attempt and has not been acknowledged. */
  predicate Unanswered(h: History, a: Address) {
    && h.After? && !h.event.Started? && h.event != DeactivateAcked(a)
    && ((h.event.DeactivateSent? && h.event.address == a) || Unanswered(h.past, a))
  }

  /** A later listing found the deactivation applied. */
  predicate FoundInactive(h: History, a: Address) {
    && h.After? && !h.event.Started? && h.event != DeactivateAcked(a)
    && (FoundInactive(h.past, a)
      || (h.event.Listed? && a in h.event.directory && !h.event.directory[a].active && Unanswered(h.past, a)))
  }

  lemma {:induction false} InactiveWasListed(h: History, a: Address)
    requires Unanswered(h, a) && Evidence(h, a).Present? && !Evidence(h, a).remote.active
    ensures FoundInactive(h, a)
  {
    if !h.event.Listed? { InactiveWasListed(h.past, a); }
  }

  /** The last thing that happened is a listing. */
  predicate JustListed(h: History) {
    h.After? && h.event.Listed?
  }

  /** Exactly one permanent delete was sent in between, or none and a listing omits a. */
  predicate OneDelete(before: History, now: History, a: Address) {
    || DeletesSent(now) == DeletesSent(before) + 1
    || (DeletesSent(now) == DeletesSent(before) && Evidence(now, a).Absent?)
  }

  lemma {:induction false} UnansweredWasSent(h: History, a: Address)
    requires Unanswered(h, a)
    ensures SentDeactivate(h, a)
  {
    if !h.event.DeactivateSent? || h.event.address != a { UnansweredWasSent(h.past, a); }
  }

  // ---- Replies that are lost -------------------------------------------------------------

  predicate SentDelete(h: History, a: Address) {
    h.After? && ((h.event.DeleteSent? && h.event.address == a) || SentDelete(h.past, a))
  }

  predicate SentDeactivate(h: History, a: Address) {
    h.After? && ((h.event.DeactivateSent? && h.event.address == a) || SentDeactivate(h.past, a))
  }

  /** The directory shows every mutation that was sent as carried out. */
  ghost predicate ShowsSent(h: History, directory: map<Address, Remote>) {
    forall a: Address :: a in directory ==> !SentDelete(h, a) && (SentDeactivate(h, a) ==> !directory[a].active)
  }

  ghost predicate CarriedOut(h: History) {
    h.After? ==> CarriedOut(h.past) && (h.event.Listed? ==> ShowsSent(h.past, h.event.directory))
  }

  lemma {:induction false} CarriedOutEvidence(h: History, a: Address)
    requires CarriedOut(h)
    ensures SentDelete(h, a) ==> !Evidence(h, a).Present? && !Evidence(h, a).InDoubt?
    ensures SentDeactivate(h, a) && Evidence(h, a).Present? ==> !Evidence(h, a).remote.active
  {
    if h.After? { CarriedOutEvidence(h.past, a); }
  }

  // ---- One scripted case -----------------------------------------------------------------

  /** The directory holds one entry, active until a mutation is sent. */
  function OnlyEntry(a: Address, id: string, forward: string, h: History): map<Address, Remote> {
    map[a := Remote(id, !Mutated(h), forward)]
  }

  /** Until a permanent delete is sent, every listing shows that entry. */
  predicate OnScript(a: Address, id: string, forward: string, h: History) {
    h.After? && DeletesSent(h) == 0 ==>
      && OnScript(a, id, forward, h.past)
      && (h.event.Listed? ==> h.event == Listed(OnlyEntry(a, id, forward, h.past), forward))
      && (h.event.DeactivateSent? ==> h.event.address == a)
  }

  lemma {:induction false} ScriptedEvidence(a: Address, id: string, forward: string, h: History, b: Address)
    requires OnScript(a, id, forward, h) && DeletesSent(h) == 0
    ensures Evidence(h, b).Present? ==>
      b == a && Evidence(h, b) == Present(Remote(id, !Mutated(h), forward), true)
    ensures Evidence(h, b).InDoubt? ==>
      b == a && Mutated(h) && Evidence(h, b).owned && Evidence(h, b).remote.(active := false) == Remote(id, false, forward)
  {
    if h.After? { ScriptedEvidence(a, id, forward, h.past, b); }
  }

  /** The removal of the local row was carried out in this attempt. */
  predicate RemovedLocally(h: History, a: Address) {
    h.After? && !h.event.Started? && (h.event == LocalDeleted(a) || RemovedLocally(h.past, a))
  }

  /** The identity, pending and wanted checks were the last thing done, for this operation. */
  predicate JustChecked(h: History, operation: Operation) {
    h.After? && (h.event == Checked(operation) || (h.event.MarkedSent? && JustChecked(h.past, operation)))
  }

  // ---- Acceptable histories --------------------------------------------------------------

  const MAX_RECOVERIES := 3

  /** Whether event may follow h; `quota` says whether a durable quota is configured. */
  predicate Allowed(quota: bool, h: History, event: Event) {
    match event
    case ValidateSent => !HasStopped(h) && JustChecked(h, Validate)
    case ListSent => ListsSinceStop(h) == 0 && JustChecked(h, List)
    case DeactivateSent(a, id) =>
      var belief := Evidence(h, a);
      && Target(h) == Some(a)
      && belief.Present? && belief.owned && belief.remote.active && belief.remote.id == id != ""
      && !HasStopped(h) && JustChecked(h, Deactivate)
    case DeleteSent(a, id, lease) =>
      var belief := Evidence(h, a);
      && Target(h) == Some(a)
      && belief.Present? && belief.owned && !belief.remote.active && belief.remote.id == id != ""
      && !HasStopped(h) && JustChecked(h, Delete)
      && (if quota then lease.Some? && Lease(h, lease.value) == Sent else lease.None?)
    case LocalDeleted(a) => Target(h) == Some(a) && Gone(Evidence(h, a))
    case Admitted(a) => Target(h).None? || Target(h) == Some(a)
    case Reserved(l, _) => Lease(h, l) == Unreserved
    case ReleaseAttempted(l, acknowledged, applied) =>
      (Open(Lease(h, l)) || Lease(h, l) == ReleaseFailed) && (acknowledged ==> applied)
    case MarkedSent(l, _) => Lease(h, l) == Held
    case Recovered => Recoveries(h) < MAX_RECOVERIES && !HasStopped(h)
    case _ => true
  }

  /** Every event was acceptable when it happened. */
  predicate Safe(quota: bool, h: History) {
    h.After? ==> Safe(quota, h.past) && Allowed(quota, h.past, h.event)
  }

  /** h happened on the way to later. */
  predicate Earlier(h: History, later: History) {
    h == later || (later.After? && Earlier(h, later.past))
  }

  lemma {:induction false} EarlierTrans(a: History, b: History, c: History)
    requires Earlier(a, b) && Earlier(b, c)
    ensures Earlier(a, c)
  {
    if b != c { EarlierTrans(a, b, c.past); }
  }

  lemma {:induction false} SafeEarlier(quota: bool, h: History, later: History)
    requires Safe(quota, later) && Earlier(h, later)
    ensures Safe(quota, h)
  {
    if h != later { SafeEarlier(quota, h, later.past); }
  }

  // ---- What acceptable histories guarantee -----------------------------------------------

  /** Since the attempt started, or since the locks were last released, a listing omitted a. */
  predicate Omitted(h: History, a: Address) {
    h.After? && !h.event.Started? && !h.event.Waited?
    && ((h.event.Listed? && a !in h.event.directory) || Omitted(h.past, a))
  }

  predicate Acknowledged(h: History, a: Address) {
    h.After? && !h.event.Started? && !h.event.Waited? && (h.event == DeleteAcked(a) || Acknowledged(h.past, a))
  }

  predicate SeenInactive(h: History, a: Address, id: string) {
    h.After? && !h.event.Started? && !h.event.Waited?
    && (if h.event.Listed? then
          a in h.event.directory && h.event.directory[a].id == id && !h.event.directory[a].active
        else
          SeenInactive(h.past, a, id) || (h.event == DeactivateAcked(a) && Listing(h.past, a, id)))
  }

  /** The latest listing named a with this id, and nothing was deleted or released since. */
  predicate Listing(h: History, a: Address, id: string) {
    h.After? && !h.event.Started? && !h.event.Waited?
    && (if h.event.Listed? then a in h.event.directory && h.event.directory[a].id == id else Listing(h.past, a, id))
  }

  lemma {:induction false} EvidenceExplained(h: History, a: Address)
    ensures Evidence(h, a).Absent? ==> Omitted(h, a)
    ensures Evidence(h, a).Deleted? ==> Acknowledged(h, a)
    ensures Evidence(h, a).Present? || Evidence(h, a).InDoubt? ==> Listing(h, a, Evidence(h, a).remote.id)
    ensures Evidence(h, a).Present? && !Evidence(h, a).remote.active ==> SeenInactive(h, a, Evidence(h, a).remote.id)
  {
    if h.After? { EvidenceExplained(h.past, a); }
  }

  /** A local row is only removed after Apple acknowledged the delete, or after a directory
      read of the same attempt omitted the address; the locks were held ever since. */
  lemma LocalDeletionJustified(quota: bool, h: History, past: History, a: Address)
    requires Safe(quota, h) && Earlier(After(past, LocalDeleted(a)), h)
    ensures Omitted(past, a) || Acknowledged(past, a)
  {
    SafeEarlier(quota, After(past, LocalDeleted(a)), h);
    EvidenceExplained(past, a);
  }

  /** A permanent delete is only sent for an entry the latest evidence shows inactive, right
      after the identity checks, and never once the account is stopped. */
  lemma DeleteJustified(quota: bool, h: History, past: History, a: Address, id: string, lease: Option<nat>)
    requires Safe(quota, h) && Earlier(After(past, DeleteSent(a, id, lease)), h)
    ensures SeenInactive(past, a, id) && JustChecked(past, Delete) && !HasStopped(past)
    ensures quota ==> lease.Some? && Lease(past, lease.value) == Sent
  {
    SafeEarlier(quota, After(past, DeleteSent(a, id, lease)), h);
    EvidenceExplained(past, a);
  }

  /** A lease whose mark was acknowledged stays sent or spent: it is never offered back. */
  lemma {:induction false} SentForever(quota: bool, h: History, later: History, l: nat)
    requires Safe(quota, later) && Earlier(h, later)
    ensures Lease(h, l).Sent? ==> Lease(later, l).Sent? || Lease(later, l).Spent?
    ensures Lease(h, l).Spent? ==> Lease(later, l).Spent?
  {
    if h != later { SentForever(quota, h, later.past, l); }
  }

  predicate Stored(h: History, l: nat) {
    h.After? && ((h.event.Reserved? && h.event.number == l) || Stored(h.past, l))
  }

  /** The reservation was stored but reported as an error. */
  predicate StoredUnknown(h: History, l: nat) {
    h.After? && (h.event == Reserved(l, false) || StoredUnknown(h.past, l))
  }

  predicate MarkAcknowledged(h: History, l: nat) {
    h.After? && (h.event == MarkedSent(l, true) || MarkAcknowledged(h.past, l))
  }

  /** The mark took effect but was reported as an error. */
  predicate MarkedUnknown(h: History, l: nat) {
    h.After? && (h.event == MarkedSent(l, false) || MarkedUnknown(h.past, l))
  }

  predicate Offered(h: History, l: nat) {
    h.After? && ((h.event.ReleaseAttempted? && h.event.number == l) || Offered(h.past, l))
  }

  predicate Used(h: History, l: nat) {
    h.After? && ((h.event.DeleteSent? && h.event.lease == Some(l)) || Used(h.past, l))
  }

  lemma {:induction false} LeaseTells(quota: bool, h: History, l: nat)
    requires quota && Safe(quota, h)
    ensures Lease(h, l).Unreserved? <==> !Stored(h, l)
    ensures Lease(h, l).Lost? <==> StoredUnknown(h, l)
    ensures Lease(h, l).Sent? || Lease(h, l).Spent? <==> MarkAcknowledged(h, l)
    ensures Lease(h, l).Returned? || Lease(h, l).ReleaseFailed? <==> Offered(h, l)
    ensures Lease(h, l).Spent? <==> Used(h, l)
    ensures MarkedUnknown(h, l) ==> Lease(h, l).Doubtful? || Offered(h, l)
    ensures Lease(h, l).Doubtful? ==> MarkedUnknown(h, l)
  {
    if h.After? { LeaseTells(quota, h.past, l); }
  }

  /** The fate of every reservation once the flow has returned. Exactly one of three things has
      happened to a stored one: its mark was acknowledged, it was offered back, or the flow never
      learnt of it because its reservation was reported as an error. An unacknowledged mark is
      offered back and no permanent delete uses it. */
  lemma LeaseFate(quota: bool, h: History, l: nat)
    requires quota && Safe(quota, h) && Settled(h)
    ensures Stored(h, l) && !MarkAcknowledged(h, l) && !Offered(h, l) <==> StoredUnknown(h, l)
    ensures !(MarkAcknowledged(h, l) && Offered(h, l))
    ensures MarkedUnknown(h, l) ==> Offered(h, l) && !Used(h, l)
    ensures Used(h, l) ==> MarkAcknowledged(h, l)
  {
    LeaseTells(quota, h, l);
    assert !Open(Lease(h, l));
  }

  /** What is stored for a lease in each state. */
  lemma {:induction false} RowTells(quota: bool, h: History, l: nat)
    requires Safe(quota, h)
    ensures Lease(h, l).Unreserved? ==> StoredRow(h, l).NoRow?
    ensures Lease(h, l).Held? || Lease(h, l).Lost? ==> StoredRow(h, l).ReservedRow?
    ensures quota && (Lease(h, l).Doubtful? || Lease(h, l).Sent? || Lease(h, l).Spent?) ==> StoredRow(h, l).ChargedRow?
    ensures Lease(h, l).Returned? ==> !StoredRow(h, l).ReservedRow?
  {
    if h.After? { RowTells(quota, h.past, l); }
  }

  /** A charged row stays charged, also when the flow offers it back without knowing. */
  lemma {:induction false} ChargedForever(quota: bool, h: History, later: History, l: nat)
    requires Safe(quota, later) && Earlier(h, later) && StoredRow(h, l).ChargedRow?
    ensures StoredRow(later, l).ChargedRow?
  {
    if h != later {
      ChargedForever(quota, h, later.past, l);
      RowTells(quota, later.past, l);
    }
  }

  /** Every permanent delete stays charged. */
  lemma DeletesAreCharged(h: History, past: History, a: Address, id: string, lease: Option<nat>)
    requires Safe(true, h) && Earlier(After(past, DeleteSent(a, id, lease)), h)
    ensures lease.Some? && StoredRow(h, lease.value).ChargedRow?
  {
    var sent := After(past, DeleteSent(a, id, lease));
    SafeEarlier(true, sent, h);
    RowTells(true, past, lease.value);
    ChargedForever(true, sent, h, lease.value);
  }

  /** Each permanent delete spends a lease of its own. */
  lemma OneLeasePerDelete(
    quota: bool, h: History, past: History, a: Address, id: string, lease: Option<nat>,
    earlier: History, b: Address, other: string, used: Option<nat>
  )
    requires quota && Safe(quota, h) && Earlier(After(past, DeleteSent(a, id, lease)), h)
    requires Earlier(After(earlier, DeleteSent(b, other, used)), past)
    ensures lease.Some? && used.Some? && lease != used
  {
    DeleteJustified(quota, h, past, a, id, lease);
    SafeEarlier(quota, After(past, DeleteSent(a, id, lease)), h);
    SafeEarlier(quota, After(earlier, DeleteSent(b, other, used)), past);
    if used.Some? { SentForever(quota, After(earlier, DeleteSent(b, other, used)), past, used.value); }
  }

  /** At most three throttle recoveries, and at most one directory read once stopped. */
  lemma {:induction false} BudgetsHold(quota: bool, h: History)
    requires Safe(quota, h)
    ensures Recoveries(h) <= MAX_RECOVERIES && ListsSinceStop(h) <= 1
  {
    if h.After? { BudgetsHold(quota, h.past); }
  }

  /** An event that changes Apple's directory or the local row of this address. */
  predicate Touches(e: Event, a: Address) {
    (e.DeactivateSent? || e.DeleteSent? || e.LocalDeleted?) && e.address == a
  }

  lemma {:induction false} TargetStays(quota: bool, h: History, later: History)
    requires Safe(quota, later) && Earlier(h, later) && Attempts(h) == Attempts(later)
    ensures Target(h).Some? ==> Target(later) == Target(h)
  {
    if h != later {
      AttemptsGrow(h, later.past);
      TargetStays(quota, h, later.past);
    }
  }

  lemma {:induction false} AttemptsGrow(h: History, later: History)
    requires Earlier(h, later)
    ensures Attempts(h) <= Attempts(later)
  {
    if h != later { AttemptsGrow(h, later.past); }
  }

  /** One attempt, recoveries included, touches one address only. */
  lemma OneAddressPerAttempt(quota: bool, h: History, past: History, e: Event, a: Address, earlier: History, f: Event, b: Address)
    requires Safe(quota, h) && Earlier(After(past, e), h) && Touches(e, a)
    requires Earlier(After(earlier, f), past) && Touches(f, b)
    requires Attempts(earlier) == Attempts(past)
    ensures a == b
  {
    SafeEarlier(quota, After(past, e), h);
    SafeEarlier(quota, After(earlier, f), past);
    EarlierTrans(earlier, After(earlier, f), past);
    TargetStays(quota, earlier, past);
  }

  /** Once stopped, no mutation and no validation follows. */
  lemma {:induction false} StoppedForGood(quota: bool, h: History, later: History)
    requires Safe(quota, later) && Earlier(h, later) && HasStopped(h)
    ensures HasStopped(later) && DeletesSent(later) == DeletesSent(h) && (Mutated(later) == Mutated(h))
  {
    if h != later { StoppedForGood(quota, h, later.past); }
  }

  // ---- Framing ---------------------------------------------------------------------------

  predicate QuietEvent(e: Event) {
    e.Checked? || e.ValidateSent? || e.ListSent? || e.Listed? || e.Waited? || e.Recovered? || e.Stopped?
  }

  /** later extends h by reads, checks, waits and stops only. */
  predicate Quiet(h: History, later: History) {
    h == later || (later.After? && QuietEvent(later.event) && Quiet(h, later.past))
  }

  lemma {:induction false} QuietTrans(a: History, b: History, c: History)
    requires Quiet(a, b) && Quiet(b, c)
    ensures Quiet(a, c)
  {
    if b != c { QuietTrans(a, b, c.past); }
  }

  lemma {:induction false} QuietRecoveries(h: History, later: History)
    requires Quiet(h, later)
    ensures Recoveries(h) <= Recoveries(later)
  {
    if h != later { QuietRecoveries(h, later.past); }
  }

  lemma {:induction false} QuietKeeps(h: History, later: History)
    requires Quiet(h, later)
    ensures Earlier(h, later)
    ensures forall l: nat :: Lease(later, l) == Lease(h, l)
    ensures Mutated(later) == Mutated(h) && DeletesSent(later) == DeletesSent(h) && Target(later) == Target(h)
    ensures Reservations(later) == Reservations(h)
    ensures forall a: Address :: Unanswered(h, a) ==> Unanswered(later, a)
    ensures forall a: Address :: SentDelete(later, a) == SentDelete(h, a) && SentDeactivate(later, a) == SentDeactivate(h, a)
    ensures HasStopped(h) ==> HasStopped(later)
    ensures ReadDirectory(h) ==> ReadDirectory(later)
  {
    if h != later { QuietKeeps(h, later.past); }
  }
}
