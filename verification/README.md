# Verified models of the mailbox relay's hard parts

The program archives mail for many hide-my-email aliases, creates aliases on a schedule,
deletes them at Apple through a two-step irreversible protocol, and serves the archive. These
Dafny modules model the parts in which branching, interleaving or arithmetic decides whether
that is safe, and prove what the rest of the program relies on.

- **Archive discovery** (`mailbox.dfy`, `archive_discovery.dfy`, `archive_sync.dfy`). A mailbox is
  a strictly increasing sequence of UIDs (section 2.3.1.1 of RFC 3501) addressed by sequence
  number (section 2.3.1.2). Before every command the environment may remove any messages and
  append new ones. `DiscoverArchiveUIDs` keeps the search, the binary search, both sentinels and
  the `processedThrough` rule of the code; a successful discovery is an exact interval of one
  view the mailbox had during the call, so nothing is skipped. `ArchiveAccount.Sync` lifts this
  to whole runs, `Drain` to repeated batches on a mailbox nobody else touches.
- **Automatic creation** (`creation_plans.dfy`, `creation_scheduler.dfy`). `processDue` is cut at
  its repository calls and clock reads; any number of managers interleave on one account's row.
- **Alias deletion** (`deletion_history.dfy`, `deletion_world.dfy`, `alias_deletion.dfy`,
  `deletion_queue.dfy`). Apple is an adversary: every request may succeed, be applied but reported
  as an error, not be applied, be throttled or end the session, and other devices change the
  directory at any time. What happened is kept as a ghost history of events.
  `DeletionHistory` says which histories are acceptable without mentioning the code, and every
  method of the flow is proved to extend an acceptable history to an acceptable one: each event
  is allowed by a precondition of the method that emits it.
- **Batch bookkeeping** (`deletion_bookkeeping.dfy`), **the keyed lock** (`operation_lock.dfy`) and
  **dispatch and credential rotation** (`job_dispatch.dfy`) are step machines over any number of
  goroutines, with panics and cancellation at any point.
- **The log ring** (`log_ring.dfy`, `log_entries.dfy`, `log_keys.dfy`, `utf8_text.dfy`), **MIME
  budgets and trimming** (`mime_walk.dfy`, `mime_contents.dfy`, `mime_trim.dfy`), **streaming
  search** (`stream_search.dfy`), **recipient attribution** (`recipients.dfy`,
  `recipient_evidence.dfy`) and **SRP-6a** (`srp.dfy`, `modular.dfy`; section 2.6 of RFC 5054).
  `MimeWalk.Walker.Walk` is proved to be a fold over the steps of the part tree, and
  `MimeContents` says what that fold extracts from any message, damaged ones included;
  `RecipientEvidence` says, address by address, which evidence is enough for an attribution.

Two conventions. Everything the program cannot control (the network, the database, contexts,
clocks, random draws, other goroutines) is a value chosen anew each time it is consulted
(`var x: T := *`), so a theorem about a method holds for all of them. Ghost parameters and
fields record what the proofs talk about and never influence a result.

Some constants name a friendly case and serve only to state what must happen in it, so that code
that always gives up would not meet its contracts: a mailbox is `steady` when nothing is
expunged and no command fails, though new mail may arrive, and `quiet` when nothing happens to it
at all; the bookkeeping of a batch is `steady` when nothing panics. In the deletion model `Scenario`
is either `Anything`, or `EverythingWorks` (every call works and every entry Apple lists is the
account's own; in the lossy variant the reply to any mutation may be lost after it was carried
out, and nobody reactivates entries), or `Throttled` (the same, except that some requests are
throttled), or `LastReservation` (a directory of one entry, where only the reply to its
deactivation is lost and the quota has one reservation left). All other guarantees hold in every
scenario.

Promises that turned out to have an exception, stated exactly:

- A mutation that was attempted is meant to leave the queue item marked for reconciliation.
  `DeletionQueue.MutationIsReconciled` gives the condition under which it is, and
  `DeletionQueue.QuotaWaitForgetsDeactivation` runs the flow into the exception: a deactivation
  whose reply is lost, confirmed by a second listing, then no reservation left for the permanent
  delete. `DeletionQueue.DeleteQueuedAlias` states that this is the only way there.
- Every reservation is meant to be marked sent or released. `DeletionHistory.LeaseFate` shows that
  exactly the ones the repository stored but reported as an error escape, and that a mark stored
  but reported as an error is offered back all the same; `DeletionHistory.ChargedForever` shows
  that the repository's own guard keeps such a row charged.
- The archive cursor is meant not to move back without a reset. It does if and only if the account
  has no aliases and the mailbox's upper UID lies below it (`ArchiveSync.FetchArchiveIncremental`).
- A body that is cut at the budget is meant to keep a prefix of its text. `MimeWalk.TakenIs` and
  `Utf8Text.CutThenRepaired` show that it does unless the limit falls before the last byte of a
  four-byte character, in which case a replacement character takes that character's place
  (`MimeWalk.CutCharacterIsReplaced`).

## Model

| member | source | states |
|---|---|---|
| `Mailboxes.ExpungeShifts` | internal/mail/archive_fetcher_v2.go:482-532 | whatever is expunged or appended, a message at position k of a later view is the one at position k of the earlier view or a later one of it: sequence numbers only ever move to larger UIDs |
| `Mailboxes.StablePrefix` | internal/mail/archive_fetcher_v2.go:405-453 | a sentinel that still shows its UID at its old position proves that nothing up to it was expunged |
| `Mailboxes.IntervalMembers` | internal/mail/archive_fetcher_v2.go:342-456 | the specification interval (lo, hi] of a view contains exactly the view's UIDs in that range |
| `ArchiveDiscovery.ValidateSequenceRange` | internal/mail/archive_fetcher_v2.go:550-607 | accepts exactly the responses that describe every position first..last once with nonzero UIDs increasing by position, for any response whatever; the result is the same messages in sequence order |
| `ArchiveDiscovery.ValidateArchiveUIDSearch` | internal/mail/archive_fetcher_v2.go:458-474 | accepts exactly the duplicate-free lists inside (lastUID, upperUID]; the result is the same set, ascending |
| `ArchiveDiscovery.FindFirstSequenceAfterUID` | internal/mail/archive_fetcher_v2.go:482-532 | whatever earlier probes saw, every message of the SELECT view before the answer is at or below the cursor; on a mailbox from which nothing is expunged it answers, with the first message above it |
| `ArchiveDiscovery.DiscoverArchiveUIDs` | internal/mail/archive_fetcher_v2.go:342-456 | for every interleaving of expunges and appends a success is exactly the interval (lastUID, processedThrough] of one view the mailbox had during the call, a partial batch is full and still complete at the recheck, and processedThrough exceeds the cursor; when nothing is expunged and no command fails it succeeds with the next batch of the SELECT view, however much new mail arrives meanwhile |
| `ArchiveDiscovery.BatchIsComplete` | internal/mail/archive_fetcher_v2.go:342-456 | no skip, no invention: every message of (lastUID, processedThrough] still live at return is in the batch, and every UID of the batch was in the SELECT view inside that interval |
| `ArchiveDiscovery.NothingNew` | internal/mail/archive_fetcher_v2.go:350-356 | when the SELECT view has nothing above the cursor, the empty batch through upperUID is safe and is what a drained mailbox yields |
| `ArchiveDiscovery.WindowIsInterval` | internal/mail/archive_fetcher_v2.go:395-455 | the messages first..last of a changed view between two anchored positions are an exact UID interval, through upperUID when the window reaches the last selected message |
| `ArchiveDiscovery.ArrivalsAreBeyond` | internal/mail/archive_fetcher_v2.go:357-394 | mail that arrives after SELECT does not change what lies in (lastUID, upperUID] |
| `ArchiveSync.EstablishArchiveRecentCursor` | internal/mail/archive_fetcher_v2.go:614-672 | whatever interferes, a cursor it returns leaves exactly the newest min(numMessages, limit) messages of the SELECT view above it |
| `ArchiveSync.FetchArchiveIncremental` | internal/mail/archive_fetcher_v2.go:34-220 | reset exactly on a new account or UIDVALIDITY; the cursor never passes the target, advances strictly whenever anything may be new, and without a reset moves back if and only if there are no aliases and the target lies below it; delivered UIDs are complete and ascending; when nothing is expunged and no command fails it succeeds with the next batch of the SELECT view, also while new mail arrives |
| `ArchiveSync.ArchiveAccount.Sync` | internal/mail/archive_fetcher_v2.go:98-176 | over whole runs: every message the cursor has passed and that still exists was delivered; a failure leaves cursor and deliveries untouched, and there is none when nothing is expunged and no command fails |
| `ArchiveSync.CoveredSurvives` | internal/mail/archive_fetcher_v2.go:98-176 | coverage survives everything other clients do between two syncs |
| `ArchiveSync.DrainIsExact` | internal/mail/archive_fetcher_v2.go:144-176 | repeating batches yields, concatenated, exactly the sorted UIDs above the cursor, each once, in max(1, ceil(k/limit)) batches |
| `ArchiveSync.BatchCountIsCeiling` | internal/mail/archive_fetcher_v2.go:144-176 | the batch count is the ceiling of k / limit, one when k = 0 |
| `ArchiveSync.Drain` | internal/mail/archive_fetcher_v2.go:34-220 | syncing until nothing is left on a quiet mailbox produces exactly those batches and ends at upperUID |
| `ArchiveSync.SyncFromScratch` | internal/mail/archive_fetcher_v2.go:34-220 | a first sync and the ones after it on a quiet mailbox deliver exactly the newest min(numMessages, maxCandidates) messages, oldest first, in as few batches as the limit allows |
| `CreationPlans.GeneratePlan` | internal/autocreate/manager.go:732-758 | five deadlines, gap i being five minutes plus a minute per draw of bucket i, the last exactly an hour after the anchor; fails exactly on a draw outside the buckets |
| `CreationPlans.GapsAddUp` | internal/autocreate/manager.go:732-758 | the random gaps always add up to the cycle |
| `CreationPlans.NewPlanStartingAt` | internal/autocreate/manager.go:719-728 | the plan starts exactly at the end of the cooldown, is well spaced and ends an hour later |
| `CreationPlans.FuturePlan` | internal/autocreate/manager.go:677-687 | exactly the deadlines after the expected one, in order of time for any stored plan |
| `CreationPlans.FuturePlanIncludingCurrent` | internal/autocreate/manager.go:689-699 | the same, with the expected one |
| `CreationPlans.DueTail` | internal/autocreate/manager.go:677-687 | on a stored plan the future plan of a due head is exactly the tail |
| `CreationPlans.DueWhole` | internal/autocreate/manager.go:689-699 | including the current deadline it is the whole plan |
| `CreationPlans.ValidPlan` | internal/autocreate/manager.go:701-711 | true exactly for plans whose consecutive deadlines are five minutes apart |
| `CreationPlans.ShiftKeepsGaps` | internal/autocreate/manager.go:659-675 | shifting is rigid and minimal: the head reaches the earliest time, gaps are unchanged, and a plan late enough is not touched |
| `CreationPlans.PlanAfterClaim` | internal/autocreate/manager.go:637-657 | keeps and shifts the remaining deadlines when there are one to four well-spaced ones, and otherwise draws a fresh plan from the later of expected and attempted time |
| `CreationPlans.ClaimPlanIsStored` | internal/autocreate/manager.go:637-657 | the claimed plan is valid to store and leaves at least five minutes after the claim |
| `CreationPlans.ShiftCurrentPlan` | internal/autocreate/manager.go:659-675 | keeps and shifts the deadlines from the expected one on when they are usable, and otherwise draws a fresh plan whose first deadline is not before the earliest time |
| `CreationScheduler.Scheduler.Decide` | internal/autocreate/manager.go:311-366 | claims exactly when the row is due, within the grace and five minutes after the last attempt, with the rest of the plan or a fresh one; proposes a fresh plan exactly when it is overdue and the shifted plan exactly when it comes too soon |
| `CreationScheduler.Scheduler.CompareAndSwap` | internal/store/alias_creation_schedule.go:152-194 | replaces the plan exactly when the next run is still the expected one; an error leaves open whether it was applied; the next run only moves forward |
| `CreationScheduler.Scheduler.Claim` | internal/autocreate/manager.go:367-383 | reports success exactly when no error is returned and the row is enabled with the expected head, and then has installed the plan and the attempt time |
| `CreationScheduler.Scheduler.Begin` | internal/autocreate/manager.go:384-457 | starts the creator exactly when the claimed next run is still five minutes after the clock read after the claim, and records that start; otherwise goes on to the correction |
| `CreationScheduler.Scheduler.Correct` | internal/autocreate/manager.go:612-635 | the creator starts exactly when the corrected plan, five minutes after the start, replaced the claimed one |
| `CreationScheduler.Scheduler.Record` | internal/store/alias_creation_schedule.go:196-230 | records the attempt on an enabled row and moves nothing else; an error leaves open whether it was recorded |
| `CreationScheduler.Scheduler.React` | internal/autocreate/manager.go:507-541 | a rate limit postpones to 61 minutes from now unless no plan can be drawn; another failure does not |
| `CreationScheduler.Scheduler.CoolDown` | internal/autocreate/manager.go:511-541 | replaces the plan exactly when the next run is still the creator's own; once replaced, no claim is left that could start a creator before the end of the cooldown |
| `CreationScheduler.PostponedIsQuiet` | internal/autocreate/manager.go:511-541 | after a successful cooldown every pending claim of any manager is out of date |
| `CreationScheduler.TurnIsQuiet` | internal/autocreate/manager.go:311-459 | no step of any manager starts a creator before the end of a quiet stretch, or ends it early |
| `CreationScheduler.Scheduler.Turn` | internal/autocreate/manager.go:311-610 | a step of any manager; a cooldown it stores is logged with the starts before it and its end; which step it is follows from the phase alone (`Step`) |
| `CreationScheduler.Scheduler.ProcessDue` | internal/autocreate/manager.go:311-610 | a manager nobody interferes with, whose writes succeed: a row that is due and can be planned is claimed and its creator started exactly once, at the clock read after the claim, with the next run five minutes later or more; a missed row gets a fresh plan and a premature one its shifted plan; nothing else is touched |
| `CreationScheduler.Scheduler.FinishAttempt` | internal/autocreate/manager.go:487-609 | from the creator's return: a rate limit that is not terminal stores the cooldown, 61 minutes from the failure, and nothing can start before its end; a terminal failure disables the row; anything else records the attempt alone |
| `CreationScheduler.Scheduler.Disable` | internal/autocreate/manager.go:542-570 | a terminal failure leaves a disabled row without a plan; an error leaves open whether it was disabled |
| `CreationScheduler.ClaimKeepsInvariant` | internal/autocreate/manager.go:367-383 | a successful claim keeps the invariant: at most one claim or correction is unspent, and it owns the head of the stored plan |
| `CreationScheduler.StartKeepsInvariant` | internal/autocreate/manager.go:384-457 | a start keeps the invariant and is at least five minutes after every earlier start |
| `CreationScheduler.Scheduler.Run` | internal/autocreate/manager.go:294-610 | any number of managers, any clock advance, any draws, failures and crashes: starts are five minutes apart, every stored plan has at most five slots five minutes apart, the next run only moves forward, and after every cooldown stored during the run nothing starts before its end |
| `DeletionHistory.LocalDeletionJustified` | internal/hmesync/alias_delete_batch.go:433-439 | in every acceptable run a local row is removed only after Apple acknowledged the delete or a directory read of the same attempt omitted the address, the account locks having been held since |
| `DeletionHistory.DeleteJustified` | internal/hmesync/alias_delete_batch.go:518-545 | a permanent delete is sent only for an entry the latest evidence shows inactive, right after the identity checks, never once stopped, and with its lease marked sent |
| `DeletionHistory.EvidenceExplained` | internal/hmesync/alias_delete_batch.go:413-455 | the belief the flow acts on is backed by events: absence by a listing, deletion by an acknowledgement, inactivity by a listing or an acknowledged deactivation of the listed entry |
| `DeletionHistory.SentForever` | internal/hmesync/alias_delete_queue.go:224-259 | a lease whose mark was acknowledged is never offered back |
| `DeletionHistory.LeaseFate` | internal/hmesync/alias_delete_queue.go:195-259 | the fate of every reservation once the flow has returned, quota calls that took effect but were reported as errors included: a stored one was marked with acknowledgement, or offered back, or, if and only if its reservation was reported as an error, neither; never both; an unacknowledged mark is offered back and no delete uses it |
| `DeletionHistory.ChargedForever` | internal/store/alias_deletion_quota.go:175-274 | a row that was marked, with or without acknowledgement, stays charged in the repository even when the flow offers it back |
| `DeletionHistory.DeletesAreCharged` | internal/store/alias_deletion_quota.go:175-274 | every permanent delete has a lease that stays charged |
| `DeletionHistory.OneLeasePerDelete` | internal/hmesync/alias_delete_queue.go:195-259 | two permanent deletes never share a lease |
| `DeletionHistory.OneAddressPerAttempt` | internal/hmesync/alias_delete_batch.go:353-399 | one attempt, recoveries and re-entries included, changes only the address it was admitted for |
| `DeletionHistory.BudgetsHold` | internal/hmesync/alias_delete_throttle.go:166-197 | at most three throttle recoveries per group, and at most one directory read once stopped |
| `DeletionHistory.StoppedForGood` | internal/hmesync/alias_delete_batch.go:160-164 | once stopped, no deactivation and no delete is ever sent |
| `DeletionHistory.CarriedOutEvidence` | internal/hmesync/alias_delete_batch.go:544-568 | where every mutation is carried out, though its reply may be lost, a directory read since then shows the entry inactive after a deactivation and absent after a delete |
| `DeletionWorld.CheckWork` | internal/hmesync/alias_delete_queue.go:134-178 | the checks of queued work: only a mutation check can find the work unwanted, and none produces a resumable wait |
| `DeletionWorld.ListingIsTrue` | internal/hmesync/alias_delete_batch.go:716-767 | a directory read makes the evidence agree with Apple for every address |
| `DeletionWorld.MutationKeepsTruth` | internal/hmesync/alias_delete_batch.go:452-545 | sending and acknowledging mutations never makes the evidence claim an address gone that Apple still has |
| `AliasDeletion.Batch.AcceptResponse` | internal/hmesync/alias_delete_batch.go:629-697 | no error means the request succeeded and the session was checkpointed; an expired session, a failed checkpoint or a failed cooldown stops the account; otherwise the error is the reply's own meaning, the server's delay is kept, and the account is stopped exactly for blocking codes |
| `AliasDeletion.Batch.Expire` | internal/hmesync/alias_delete_batch.go:699-710 | the session is unusable and the account stopped, with the expiry as the reported cause |
| `AliasDeletion.Batch.BeforeRequest` | internal/hmesync/alias_delete_throttle.go:113-164 | a request may only follow if identity, pending and wanted checks were the last thing done; a changed identity stops the account |
| `AliasDeletion.Batch.WaitServerDelay` | internal/hmesync/alias_delete_throttle.go:202-210 | a due server delay is consumed while nothing is believed any more |
| `AliasDeletion.Batch.RecoverThrottle` | internal/hmesync/alias_delete_throttle.go:172-197 | spends one of three recoveries unless it is a quota wait, invalidates the directory, and stops the account when none is left; succeeds when nothing else fails and the caller waits |
| `AliasDeletion.Batch.Retry` | internal/hmesync/alias_delete_batch.go:478-486 | a throttled item is entered again from a fresh directory read, with its leases settled and the same address; it then succeeds if the throttles to come are no more than the recoveries left and nothing else fails |
| `AliasDeletion.Batch.ReportWait` | internal/hmesync/alias_delete_throttle.go:212-272 | both locks are released: afterwards nothing known before the wait is relied on, and the identity is checked again before resuming |
| `AliasDeletion.Batch.Initialize` | internal/hmesync/alias_delete_batch.go:578-624 | ends with a validated session or an error; no mutation is sent; throttled validations are repeated after a wait as long as recoveries are left |
| `AliasDeletion.Batch.RefreshDirectory` | internal/hmesync/alias_delete_batch.go:716-767 | success means the cache agrees with the evidence for every address; at most one read happens once stopped; a throttled read is repeated after a wait as long as recoveries are left |
| `AliasDeletion.Batch.Find` | internal/hmesync/alias_delete_batch.go:769-775 | an entry is returned exactly when the directory has it with the account's forwarding target; a foreign one is a mismatch |
| `AliasDeletion.Batch.ReserveQuota` | internal/hmesync/alias_delete_queue.go:202-222 | the returned lease holds a fresh acknowledged reservation exactly when a quota is configured; on an error the flow holds nothing, and at most a reservation reported as an error was stored |
| `AliasDeletion.AliasLease.Release` | internal/hmesync/alias_delete_queue.go:224-235 | offers back a reservation that is not known to be marked, and only that; an error leaves open whether it took effect |
| `AliasDeletion.AliasLease.MarkSent` | internal/hmesync/alias_delete_queue.go:250-259 | an acknowledged mark commits the lease; on an error the mark may have been stored, and the lease is still to be offered back |
| `AliasDeletion.Batch.Admit` | internal/hmesync/alias_delete_batch.go:345-399 | no request is sent during admission; success means the account is not stopped and fixes the address of the attempt, which a re-entry must match |
| `AliasDeletion.Batch.Locate` | internal/hmesync/alias_delete_batch.go:400-440 | an address is taken as gone only on a directory read of this attempt made for it, and as present only with its current entry |
| `AliasDeletion.Batch.SendPermanentDelete` | internal/hmesync/alias_delete_batch.go:518-568 | every permanent delete follows its checks and its marked lease; success means Apple no longer has the address |
| `AliasDeletion.Batch.SubmitDelete` | internal/hmesync/alias_delete_batch.go:532-541 | exactly one permanent delete is sent, for the located inactive entry with its marked lease; a failed commit stops the account |
| `AliasDeletion.Batch.DispatchDelete` | internal/hmesync/alias_delete_batch.go:532-541 | exactly one permanent delete is sent, and an acknowledged one leaves the cached directory without the entry in agreement with the evidence |
| `AliasDeletion.Batch.AfterFailedDelete` | internal/hmesync/alias_delete_batch.go:544-568 | after an ambiguous delete: a reconciling read that omits the address leads to the local removal, its own failure aside only an ambiguous directory excuses from it, and one that shows the address returns the delete's error; when only the reply was lost the item succeeds without a second delete |
| `AliasDeletion.Batch.AfterFailedDeactivation` | internal/hmesync/alias_delete_batch.go:466-512 | after an ambiguous deactivation the delete proceeds only if a reconciling read shows the entry inactive, with a new reservation; when only the reply was lost the item succeeds |
| `AliasDeletion.Batch.DeactivateThenDelete` | internal/hmesync/alias_delete_batch.go:452-517 | the reservation is released before an ambiguous deactivation is resolved, and kept across an acknowledged one |
| `AliasDeletion.Batch.DeleteItem` | internal/hmesync/alias_delete_batch.go:345-568 | success means Apple no longer has the address and the local row was removed; every reservation the flow knows of was marked or offered back, across re-entries; an attempt that found the work unwanted or met a quota wait sent no delete; without recovery a quota wait after a mutation follows a listing that shows an unanswered deactivation applied; an attempt that ends on a listing that omits the address removed the row, unless the directory was ambiguous; when no call fails, or only replies to mutations are lost, it succeeds with exactly one delete (none if a listing showed the address gone), whatever other devices do; with recovery it succeeds when all that fails is up to three throttled requests |
| `AliasDeletion.Batch.RunItem` | internal/hmesync/alias_delete_batch.go:165-171 | an item relies on nothing read for an earlier one, and a success removed its address remotely and locally |
| `AliasDeletion.Batch.RunGroup` | internal/hmesync/alias_delete_batch.go:154-178 | a whole account group, any number of items: acceptable at every step, one outcome per item, no open lease, at most three recoveries, at most one directory read once stopped; every item succeeds when no call fails or only replies to mutations are lost, and with recovery also when up to three requests of the group are throttled, validations, directory reads and mutations alike, applied or not |
| `DeletionQueue.DeleteQueuedAlias` | internal/hmesync/alias_delete_queue.go:106-132 | the reported mutation flag is exactly whether a mutation was sent; unwanted work is only reported after a directory read and without a delete sent; a quota wait after a mutation means an unanswered deactivation that a listing showed applied, and no delete sent; a complete item succeeds, with exactly one delete unless a listing shows the address gone, when no call fails or only replies are lost |
| `DeletionQueue.ReconcileSurvives` | internal/httpserver/admin_alias_delete_jobs.go:580-695 | an unfinished outcome keeps a reconcile mark, retries lie in the future, and cancellation needs a cancellation cause without parent shutdown |
| `DeletionQueue.MutationIsReconciled` | internal/httpserver/admin_alias_delete_jobs.go:625-680 | after a mutation an unfinished item is marked for reconciliation if and only if it was before, the parent ended, or the wait is not a quota wait |
| `DeletionQueue.QuotaWaitForgetsDeactivation` | internal/httpserver/admin_alias_delete_jobs.go:640-652 | the exception is reached by a run: with one entry, a lost reply to its deactivation and one reservation left, every wanted item that had nothing to reconcile ends deactivated at Apple, waiting for quota and not marked |
| `DeletionQueue.Conclude` | internal/httpserver/admin_alias_delete_jobs.go:615-695 | each end exactly when its cause is there, and every field of the item with it: success without an error; back to the queue when the server ends; a wait for a quota or a throttle; cancelled when interrupted and no longer wanted; paused for a minute for a login, a session or an account action, or after a timeout; failed otherwise |
| `DeletionQueue.AttemptWork` | internal/httpserver/admin_alias_delete_jobs.go:615-695 | one attempt ends as its error and the contexts demand (every end if and only if its cause is there), or paused for reconciliation when a panic follows the flow: a mutation leaves an unfinished item marked except across a quota wait after a deactivation that a listing showed applied, cancellation needs a directory read and no delete sent, and retries lie in the future |
| `DeletionQueue.RunAliasDeletionWork` | internal/httpserver/admin_alias_delete_jobs.go:580-695 | in every run a reconcile mark survives every unfinished result, a cancelled item with one re-read the directory first and sent no delete, success means the address is gone remotely and locally, unwanted work without a mark is cancelled untouched, work whose lookup fails is paused for reconciliation, all other work ends exactly as its attempt demands, and wanted work succeeds when no call fails or only replies are lost |
| `DeletionBookkeeping.DeleteAliases` | internal/hmesync/alias_delete_batch.go:57-201 | for every input list and every interleaving, panics included: outcome i is for input i, every index is reported exactly once, no alias is run twice, the inputs of an account run in order and none after one that stopped it, and every outcome is what its own run returned, its stated refusal, or the error of an earlier input that stopped its account, unless the batch failed, which it does not when nothing panics |
| `DeletionBookkeeping.InputIsAccounted` | internal/hmesync/alias_delete_batch.go:57-201 | what that means per input: a success was run and succeeded, invalid and duplicate inputs are told so, and without a batch failure an input not run had its account stopped by a run that did |
| `DeletionBookkeeping.StoppedAccount` | internal/hmesync/alias_delete_batch.go:154-178 | unless the batch failed, every later input of an account that a run stopped is answered with that run's error and not run |
| `DeletionBookkeeping.LastOfAccount` | internal/hmesync/alias_delete_batch.go:160-164 | the run that stops an account is the last run of the account |
| `DeletionBookkeeping.DeletionRun.Complete` | internal/hmesync/alias_delete_batch.go:77-92 | an input is answered once; a second answer changes nothing and a panicking callback only fails the batch |
| `DeletionBookkeeping.DeletionRun.Schedule` | internal/hmesync/alias_delete_batch.go:101-146 | every schedulable input sits in exactly one place in the only group of its account, and exactly the refused ones are answered |
| `DeletionBookkeeping.DeletionRun.SkipItem` | internal/hmesync/alias_delete_batch.go:160-164 | after a stop the remaining items of the account are answered with its error and not run |
| `DeletionBookkeeping.DeletionRun.RunWorkers` | internal/hmesync/alias_delete_batch.go:148-192 | all workers finish, whatever the interleaving, with the books in order |
| `OperationLocks.Service.Enter` | internal/hmesync/service.go:1824-1834 | the caller shares the account's one lock, created only if nobody of the account is there |
| `OperationLocks.Service.Take` | internal/hmesync/service.go:1845-1850 | the lock is taken exactly when nobody of the account holds it |
| `OperationLocks.Service.Release` | internal/hmesync/service.go:1836-1841 | a holder gives the lock back once; a second call does nothing |
| `OperationLocks.Service.Leave` | internal/hmesync/service.go:1838-1856 | the map entry disappears exactly when the last user of the account leaves |
| `OperationLocks.Service.MutualExclusion` | internal/hmesync/service.go:1824-1857 | two goroutines of one account share one lock and never both hold it, and an entry exists exactly for accounts in use |
| `OperationLocks.Service.UseAlone` | internal/hmesync/service.go:1824-1857 | an operation whose account nobody else uses gets the lock at once, and entering, taking, releasing and leaving restore the map exactly |
| `OperationLocks.Service.Run` | internal/hmesync/service.go:1824-1857 | every run of any number of goroutines with cancellations and repeated releases keeps this, and refs equals the number of users |
| `JobDispatch.Server.Dispatch` | internal/httpserver/admin_alias_delete_jobs.go:138-194 | a head is claimed, started and logged exactly when its subject is idle and not blocked, nothing is stopping, no rotation is pending, the read lock is free and the claim succeeds |
| `JobDispatch.Server.BeginRotation` | internal/httpserver/admin_alias_delete_jobs.go:196-211 | begins exactly when no item is active and no rotation is pending |
| `JobDispatch.Server.LockForRotation` | internal/httpserver/admin_api.go:1863-1873 | the writer waits for every reader |
| `JobDispatch.Server.RequestStarts` | internal/httpserver/auth.go:72-81 | ordinary requests hold the read lock throughout |
| `JobDispatch.Server.Exclusion` | internal/httpserver/admin_alias_delete_jobs.go:138-211 | a rotation holding the lock excludes every running deletion and guarded request; one item per Apple subject; each running item owns a read lock |
| `JobDispatch.Server.DeleteAlone` | internal/httpserver/admin_alias_delete_jobs.go:156-193 | a started item gives back its subject, its place and the read lock, saved or not; an unsaved one blocks its subject |
| `JobDispatch.Server.RotateAlone` | internal/httpserver/admin_api.go:1863-1875 | a rotation begun with no item and no request gets the write lock, and afterwards lock and flag are as before |
| `JobDispatch.Server.Run` | internal/httpserver/admin_alias_delete_jobs.go:101-211 | every run keeps this, returns only when every item has ended, and logs every start: the log does not grow any more once the context has ended, in particular once the runtime is stopping |
| `LogEntries.NormalizedLimits` | internal/applog/handler.go:150-174 | the limits are usable; a setting that was usable is kept, any other has its own default, and the total never drops below one entry |
| `LogEntries.FieldCollector.AddValue` | internal/applog/handler.go:470-478 | keys stay distinct and hold the last value given to them, in first-use order, after truncation to the key limit |
| `LogEntries.Collect` | internal/applog/handler.go:427-478 | one field per shortened key, in first-use order, with the last value given to it |
| `LogEntries.FitText` | internal/applog/handler.go:608-615 | the text within both limits, well formed, with the remaining bytes exact; a value that fits is unchanged |
| `LogEntries.BuildEntry` | internal/applog/handler.go:576-606 | message, source and fields in this order, each whole as long as there is room; the reported size is exactly the overheads and the kept bytes and never exceeds the entry bound; a field is dropped only when not even its key fits |
| `LogEntries.WholeFields` | internal/applog/handler.go:587-601 | fields that fit with four bytes to spare are all kept whole |
| `LogEntries.RetainedAreHeld` | internal/applog/handler.go:586-604 | of collected fields every retained one is in the entry under its own key: none overwrites another |
| `Utf8Text.TruncateUTF8` | internal/mail/mime.go:520-538 | well-formed (section 4 of RFC 3629), within the limit, and flagged exactly when something changed |
| `Utf8Text.CutIsTight` | internal/mail/mime.go:520-538 | backing up to a character boundary loses at most three bytes |
| `Utf8Text.CutThenRepaired` | internal/mail/mime.go:425-440 | cutting bytes before repairing them keeps the longest well-formed prefix, except that a four-byte character cut after its third byte becomes a replacement character |
| `Utf8Text.BadBytesAreReplaced` | internal/mail/mime.go:520-538 | bad bytes between two well-formed texts become one replacement character, and both texts are kept |
| `Utf8Text.EllipsizedIs` | internal/applog/handler.go:617-637 | well formed and within the limit, unchanged when it fits, otherwise at most three bytes short of the limit |
| `Utf8Text.TruncateWithEllipsis` | internal/applog/handler.go:617-637 | backing up to a character start and adding the ellipsis computes exactly that |
| `LogKeys.SplitFlattenedKey` | internal/applog/handler.go:488-514 | computes the specification split |
| `LogKeys.SplitOfFlatten` | internal/applog/handler.go:488-532 | splitting a flattened key gives back its parts |
| `LogKeys.FlattenInjective` | internal/applog/handler.go:525-532 | different group paths never flatten to the same key |
| `LogKeys.FlattenKey` | internal/applog/handler.go:525-532 | the two replacement passes and the join compute the escaped key |
| `LogKeys.TwoPassesEscape` | internal/applog/handler.go:525-532 | the two replacement passes are one escaping of backslashes and dots |
| `LogKeys.FieldKeyHasSuffix` | internal/applog/handler.go:483-486 | for every key, true exactly when its last unescaped part is the name; for a flattened path that is its last name |
| `LogRing.Ring.Append` | internal/applog/handler.go:399-412 | afterwards the ring holds exactly the longest suffix of everything ever appended that meets both bounds, with consecutive IDs and an exact byte total |
| `LogRing.NothingLongerFits` | internal/applog/handler.go:399-420 | the retained suffix is longest globally: every longer one breaks a bound |
| `LogRing.AppendKeepsLongest` | internal/applog/handler.go:399-412 | evicting from the old suffix until the new entry fits gives the new longest suffix |
| `LogRing.Ring.EvictOldest` | internal/applog/handler.go:414-420 | exactly the oldest entry goes |
| `LogRing.Ring.Handle` | internal/applog/handler.go:183-200 | what is appended is the entry built from the collected fields, every retained field is in it with its value, and the byte total stays within its bound at all times |
| `LogRing.Ring.List` | internal/applog/handler.go:238-310 | the page is exactly the cut of the eligible entries, newest first, with hasMore, the next cursor and the total |
| `LogRing.NewestIsExact` | internal/applog/handler.go:262-300 | the eligible entries are exactly the retained matching ones before the cursor, in descending ID order |
| `LogRing.PageExtends` | internal/applog/handler.go:238-310 | one more page extends what was seen by exactly the next entries, without repeats |
| `LogRing.PageHolds` | internal/applog/handler.go:238-310 | a page holds exactly the wanted number of the eligible entries after the offset, or all that is left, 20 without a usable number and 1000 at most; more is announced exactly when something is left |
| `LogRing.Ring.Walk` | internal/applog/handler.go:238-310 | following the cursor while others append and evict sees every matching entry retained throughout, each once, newest first |
| `MimeWalk.ReadBodyPart` | internal/mail/mime.go:425-440 | what is kept of a content within the limit, flagged exactly when it is not the whole content; a read error counts only if the limit was not reached |
| `MimeWalk.TakenIs` | internal/mail/mime.go:425-440 | a well-formed content that fits is kept, and of a longer one the longest well-formed prefix, or a replacement character in place of a four-byte one that lost its last byte |
| `MimeWalk.CutCharacterIsReplaced` | internal/mail/mime.go:425-440 | an input that shows it: a four-byte character and a limit of three give the replacement character |
| `MimeWalk.CountLimited` | internal/mail/mime.go:442-454 | the decoded length, capped at the limit |
| `MimeWalk.Walker.Walk` | internal/mail/mime.go:268-390 | for every part tree the walk is the fold of the steps of the tree in document order, success and error alike; at most 100 parts and depth 20; body bytes plus remaining budget and attachments plus remaining slots are conserved; the message is taken over whole if and only if every part is clean and all of it fits the budgets |
| `MimeContents.FirstFilesAreListed` | internal/mail/mime.go:302-325 | a walk that comes to its end lists the first attachments of the message in document order, as many as there are slots, each with its name and type as cut for it, whatever happened to the bodies |
| `MimeContents.BodiesArePoured` | internal/mail/mime.go:326-390 | the bodies come from the text parts alone, in document order, each part getting what the budget leaves for it; a body is marked cut exactly when a part got less than its content |
| `MimeContents.BodiesAreJoined` | internal/mail/mime.go:340-388 | each body is the join by newlines of the nonempty shares of its own parts, and bodies plus budget are conserved |
| `MimeContents.FlaggedIs` | internal/mail/mime.go:268-325 | besides, the message is flagged exactly when a header was damaged, the type of a listed attachment replaced or an attachment left out |
| `MimeContents.SoundWalkEnds` | internal/mail/mime.go:268-301 | a message that can be read is walked to its end exactly when it has no more parts than allowed and none is too deep |
| `MimeContents.StuckKeepsProgress` | internal/mail/mime.go:331-390 | a walk that fails keeps exactly what the steps before the failing one extracted |
| `MimeWalk.CompleteStep` | internal/mail/mime.go:331-350 | completeness is decided part by part: a prefix of the parts that does not fit is not made to fit by more parts |
| `MimeWalk.Extend` | internal/mail/mime.go:340-388 | a body grows by a newline and as much content as the budget allows, the budget paying for both |
| `MimeTrim.TakeResultBodies` | internal/mail/mime.go:620-649 | within the space; both whole if they fit; otherwise each keeps its half or all it needs, up to a character, and unused space goes to the other |
| `MimeTrim.TakeResultAddresses` | internal/mail/mime.go:586-599 | a prefix of the addresses that ends only when the next one has no room; names are cut only when less than a character is left |
| `MimeTrim.TakeResultAttachments` | internal/mail/mime.go:601-618 | a prefix of the attachments that ends only when the next one has no room |
| `MimeTrim.TakeResultString` | internal/mail/mime.go:577-584 | a well-formed prefix, a proper one only when less than a character is left |
| `MimeTrim.ParsedMessage.TrimToBytes` | internal/mail/mime.go:557-575 | the result never exceeds max(limit, 256) bytes, a message within it is unchanged, and every other one is flagged and reduced to prefixes in the order headers, addresses, attachments, bodies, each cut only when what comes before it leaves no room |
| `StreamSearch.ReaderContainsFold` | internal/publicimap/session.go:710-738 | however the stream is cut into reads, the answer is whether the pattern stands somewhere in the whole content, each letter in either case (section 6.4.4 of RFC 3501); a read error counts only if nothing was found before it |
| `StreamSearch.TailIsEnough` | internal/publicimap/session.go:722-735 | searching the kept tail and the new bytes finds exactly what a search of everything would newly find |
| `StreamSearch.FoldingIgnoresCase` | internal/publicimap/session.go:714-722 | searching the lower-cased pattern in the lower-cased text finds exactly the places where text and pattern differ at most in the case of letters |
| `StreamSearch.CaseDoesNotMatter` | internal/publicimap/session.go:710-738 | texts and patterns that differ only in case get the same answer |
| `Recipients.AddressesFromHeaders` | internal/mail/recipients.go:109-140 | the nonempty addresses of all listed fields, or nothing if any line is unreadable |
| `Recipients.AliasIDsForAddresses` | internal/mail/recipients.go:443-461 | the IDs of all aliases named, or nothing if one address is ambiguous |
| `Recipients.HasConfiguredTargetHeader` | internal/mail/recipients.go:406-427 | true exactly when the strong headers are readable and name a final delivery target |
| `Recipients.RouteMatchesForwardTarget` | internal/mail/recipients.go:354-404 | the exact conditions under which a route's forwarding target belongs to the account |
| `Recipients.ICloudStrongAliasIDs` | internal/mail/recipients.go:475-502 | strong recipients are attributed only if every other one is in the delivery chain and, when forwarded, the mailbox is among them |
| `Recipients.ClassifyICloudRecipientAliases` | internal/mail/recipients.go:273-346 | computes the specification classification |
| `Recipients.ClassifyCustomRecipientAliases` | internal/mail/recipients.go:578-610 | the deciding tier is attributed only if every address of it has one alias of its own |
| `Recipients.FirstTierDecides` | internal/mail/recipients.go:612-627 | in a custom mailbox the first tier that is present decides, also when it is unreadable |
| `Recipients.CustomAttributionIsExact` | internal/mail/recipients.go:578-610 | every attributed alias owns exactly one address of the deciding tier and every address of it an attributed alias |
| `Recipients.ForwardedEvidence` | internal/mail/recipients.go:273-427 | in forwarded mode, with a route, a strong header or weak matching off, a non-empty attribution implies the configured IMAP address occurs in a readable strong header |
| `Recipients.WeakIsConservative` | internal/mail/recipients.go:273-346 | enabling weak matching never changes a non-empty result obtained without it, in either mailbox mode |
| `Recipients.AttributionIsNamed` | internal/mail/recipients.go:273-346 | every attributed alias owns an address the message names: in the route and the visible field it claims, in a strong header, or, with weak matching, in a visible one |
| `Recipients.StrongAgreesWithVisible` | internal/mail/recipients.go:330-346 | a strong attribution never contradicts the visible recipients, and every alias visible in To or Cc belongs to somebody attributed |
| `Recipients.RouteAgreesWithVisible` | internal/mail/recipients.go:280-298 | the same for an attribution by route, except for the forwarding address the route itself names |
| `Recipients.SingleIsProjection` | internal/mail/recipients.go:220-264 | the single-alias classification names an alias if and only if the archive classification names only it and weak headers are not ambiguous, and says nobody under the same guard |
| `RecipientEvidence.RouteAttributionIs` | internal/mail/recipients.go:273-298 | a message with a route is attributed to an alias if and only if the route leads into this account, its private address is in the visible field the route claims and belongs to that alias alone, and everyone else listed fits the route |
| `RecipientEvidence.RouteNobodyIs` | internal/mail/recipients.go:273-298 | it is nobody's if and only if the same holds and the private address has no alias |
| `RecipientEvidence.DirectRouteIsAttributed` | internal/mail/recipients.go:280-298 | an ordinary direct message, forwarded to the account's own address and listing only that and the private address, is attributed to the alias of the private address |
| `RecipientEvidence.ForwardedRouteIsAttributed` | internal/mail/recipients.go:280-298 | the same for forwarded mail whose strong headers name the mailbox |
| `RecipientEvidence.StrongAttributionIs` | internal/mail/recipients.go:330-346 | strong recipients that are aliases are attributed if and only if every other one is in the account's chain, forwarded mail has reached the mailbox, and the visible recipients name no alias or the same ones |
| `RecipientEvidence.WeakAttributionIs` | internal/mail/recipients.go:299-346 | visible recipients are attributed if and only if weak matching is on, every one of them has one alias, and no strong header is present or the strong ones name the account's chain only |
| `RecipientEvidence.NobodyIs` | internal/mail/recipients.go:299-346 | the exact condition under which a message without a route is nobody's: no strong header and no alias visible, or strong ones that keep to the chain and, under weak matching, none visible either |
| `RecipientEvidence.StrongRecipientIsAttributed` | internal/mail/recipients.go:330-346 | a message whose only registered strong recipient has one alias, the others being in the chain and nothing contradicting it in To and Cc, is attributed to that alias |
| `RecipientEvidence.CustomTierIsAttributed` | internal/mail/recipients.go:578-627 | in a custom mailbox a readable deciding tier each of whose addresses has an alias of its own is attributed to those aliases |
| `Srp.SecretsAgree` | internal/apple/srp.go:55-77 | for all private values, k and u and every modulus above one the client's premaster secret equals the server's of section 2.6 of RFC 5054 |
| `Srp.PaddedIsExact` | internal/apple/srp.go:150-158 | padding gives exactly the group's size with the same big-endian value for every value that fits |
| `Srp.PaddedInjective` | internal/apple/srp.go:150-158 | two values that fit never pad to the same bytes |
| `Srp.PadSRP` | internal/apple/srp.go:150-158 | is that padding |
| `Srp.PrivateKeyDetermines` | internal/apple/srp.go:103-111 | for a hash of fixed output size equal private keys come from the same salt and password key, or two named inputs of the hash collide |
| `Srp.MultiplierDetermines` | internal/apple/srp.go:96-101 | equal multipliers come from the same modulus and generator, or two named inputs collide |
| `Srp.ScramblingDetermines` | internal/apple/srp.go:113-118 | equal values of u come from the same two public values, or two named inputs collide |
| `Srp.ClientProofDetermines` | internal/apple/srp.go:120-135 | equal client proofs mean the same user, salt, public values and shared secret, or two named inputs collide |
| `Srp.ServerProofDetermines` | internal/apple/srp.go:137-143 | equal server proofs mean equal client proofs, or two named inputs collide |
| `Srp.NewSRPClient` | internal/apple/srp.go:38-49 | fails exactly without 32 random bytes or on a zero secret; otherwise the public value belongs to it |
| `Srp.Client.PublicKey` | internal/apple/srp.go:51-53 | the public value in exactly the group's size |
| `Srp.Client.ProcessChallenge` | internal/apple/srp.go:55-77 | rejects exactly a server value outside 1..N-1 and a zero u; otherwise both proofs are those of the agreed secret |
| `Srp.LogIn` | internal/apple/srp.go:38-77 | whenever the client accepts a server's challenge, both proofs are the ones that server computes from its verifier, for every hash |

## Left out

- `AliasDeletion.Batch.BeforeRequest`: models the pacing and the checks; waiting for a server delay before them is `WaitServerDelay`, which only validation and directory reads can meet (for the mutations a pending delay is proved impossible).
- `AliasDeletion.Batch.RunGroup`: says nothing about when a group finishes, because how often the caller sits through a cooldown is a finite number chosen from outside.
- `DeletionWorld.World.Reserve`: the expiry of reservations is not modelled; one that was stored but reported as an error stays in the repository until it expires there.
- `DeletionWorld.Shrinks`: other devices may deactivate, reactivate and delete entries, but a deleted address does not come back and no entry changes its remote ID while an account group is processed; that Apple never hands the same address out again is an assumption about Apple.
- `DeletionWorld.Join`: joined errors keep only the error code, the resumable wait and the two cancellation flags, which is what the callers inspect.
- `DeletionQueue.AttemptWork`: a panic strikes after the flow has returned; one inside it has the same outcome for the item, but that the deferred releases of the flow then run is a property of Go and not shown.
- `DeletionBookkeeping.DeleteAliases`: what an item's own run returns, and whether it stops the account, are arbitrary values here; `AliasDeletion` is about what they are.
- `CreationScheduler.Scheduler.Run`: takes one monotone clock and no administrator who turns the schedule off and on again; a start is the boundary the code reads and records after the claim, not the later moment at which the creator's first request leaves the process.
- `ArchiveDiscovery.DiscoverArchiveUIDs`: success is promised only where nothing is expunged and no command fails, because the code gives up on expunges its sentinels notice; UIDs and sequence numbers are unbounded, so the exhaustion of the 32-bit UID space is not modelled.
- `LogRing.Ring.List`: level, category, account, run and text filters are one arbitrary predicate on entries.
- `LogRing.Ring.Append`: the 64-bit ID counter does not wrap.
- `Recipients.AddressesFromHeaders`: parsing of header values, address syntax and the routing header is a given result per header line; sorted lists of IDs and addresses are sets.
- `StreamSearch.ReaderContainsFold`: lower-casing is ASCII, so bytes above 127 are compared as they are.
- `MimeWalk.Walker.Walk`: a part is its headers as parsed and its content as decoded; transfer encodings, character sets and boundary scanning are not part of this model.
- `Srp.Client.ProcessChallenge`: hashes are arbitrary functions and the mask H(N) xor H(g) is a constant of the group.
- The download, staging and parsing of messages after discovery, and the reconciliation of snapshots of the earlier archive format: in `ArchiveSync.FetchArchiveIncremental` they are commands that may fail before publication.
- The creation of aliases at Apple, forwarding targets and account e-mail changes: sequenced remote calls with error mapping.
- One-time-code extraction from message text: its specification needs a length-preserving lower-casing.
- Request windows, draining of HTTP handlers, configuration checks and data-transfer objects: they would only add easy members.
- SQL, encryption of credentials, sockets and the web client for Apple: represented by the environments above.
