# Sandboxd in Dafny

A model of the parts of the sandbox daemon and its control plane whose correctness rests on protocols rather than on
single calls, with proofs of what those protocols guarantee over whole runs.

- **Placement** (`FairQueue*`, `BoundedFairQueue`, `LeaseBook`, `LeaseHistory`): the deficit-round-robin queue that hands out queued
  assignments, and the book of fenced worker leases.
- **Durable ledgers** (`Journal`, `JournalFile`, `LedgerFiles`, `AssignmentLedger*`, `LedgerHistory`, `ReplayCache*`,
  `ReplayHistory`): the write-ahead journal down to the bytes of its file, the ledger of sandbox assignments and the cache
  of used nonces, under any interleaving of calls, group commits, compactions and crashes.
- **Snapshot artifacts** (`Envelope`, `Artifacts`, `Artifact*`, `PublicationChecks`, `Transfer*`): sealed envelopes,
  publishing with the pointer written last, restoring, garbage collection concurrent with publishing, and the write-once
  hand-over of a stopped sandbox.
- **Scaling and start-up** (`Autoscale*`, `Controller*`, `StartupOrder`): the pool autoscaler as a closed loop, the worker
  budget shared by all pools, and the order in which services start.
- **Ingress** (`ChunkedBody`, `ChunkedGrammar`): the decoder for response bodies, and how the bodies it accepts compare with
  those of section 7.1 of RFC 9112.

Objects that the source updates in place are classes whose methods are proved against functions on values; the results
about runs are lemmas about those functions. A run is a list of states joined by enabled steps. Time is `nat`
milliseconds for the ledgers and `real` seconds for the artifact store; clocks, randomness and everything the cluster or
the database answers are parameters. Cryptography is a record of functions that are only assumed to invert each other;
in the artifact store digests and envelopes are constructors, so that distinct contents have distinct digests.

`dafny verify dfyconfig.toml` checks everything.

## Where the code does not do what one might expect

- Garbage collection spares a freshly published blob only if the grace period is two operation timeouts;
  `ArtifactLimits::validate` asks for one (the defaults have twelve). The exact condition on a blob is
  `modified + grace >= publish start + 2 * timeout`. It fails for old blobs that a publish reuses, because reuse does
  not renew the modification time: `ArtifactRuns.KeptWhileShown` and `ArtifactRaces.LostUnlessKept`.
- Overlapping collections of one scope can delete a blob that a publish has just created, whatever the grace period: one
  acts on a mark that it made before another deleted the old blob of that key
  (`ArtifactRaces.OverlappingCollectionsLose`). Any number of collections is safe for a blob that meets the condition
  above, if and only if none of them that has time left had marked an earlier blob of its key when it was put:
  `ArtifactRaces.KeptExactly`.
- A snapshot that is published again can be claimed by two destinations if a collection that missed its reference has
  marked the old claim, can still mark one that is left, or one that an operation of the earlier term may yet place. The
  exact condition is `TransferRuns.SlotSafe`: `TransferRaces.OneDestinationExactly`. The first publication of an identity
  needs no condition.
- If a grant's publisher stops between its two puts, and another manifest is then published under the same snapshot name,
  publishing that one's grant reports success, but the grant cannot be read or claimed as long as the leftover envelope
  is kept: `TransferRaces.LeftoverGrantBlocks`. The same happens if a collection takes the grant between the two puts. A
  reported grant is readable if and only if the grant slot held that very grant when the pointer was put:
  `TransferRuns.GrantReadableIff`.
- A claim that succeeds need not be repeatable. If a claimer of an earlier term, which has read the grant, places its
  claim after a collection took the grant and the snapshot was published again, the claim succeeds, and claiming again with
  the same target finds no grant: `TransferRaces.RetryFails`. Claiming again gives the same claim if and only if the grant
  can be read at that point: `TransferRuns.RetryIff`.
- The nonce cache accepts an expiry of zero, and refuses to reload the log it then writes. It reloads after every crash if
  and only if no call consumed a nonce with expiry zero: `ReplayCacheRuns.ReloadsIffNoZero`. The verifier in front of it
  passes on only work orders that have not expired.
- `dequeue` discards the work that expires on the way, so its submitter never hears of it
  (`FairQueueExpiry.DroppedSilently`). An accepted item is lost like this if and only if the first expiry pass or dequeue to
  find it past its deadline is a dequeue: `FairQueueExpiry.UnreportedIff`.
- `backpressured_assignments` is not a number of assignments: it counts the workers that the demand, the headroom and the
  minimum ask for above the maximum and the quota, so that it is positive with nothing queued when the quota is below the
  minimum (`AutoscaleDemand.HeldBackWithoutQueue`). It is zero if and only if the pool settles with a clean worker for every
  queued assignment, the headroom beside them and at least the minimum: `AutoscaleDemand.NothingHeldBackIff`. The sum behind
  it saturates: it is that excess if and only if the demand is below 2^32 (`AutoscaleDemand.HeldBackIs`, with an input in
  `AutoscaleDemand.HeldBackIsCapped`).
- The weight of a tenant without work is forgotten: `FairQueueWeights.WeightIsForgotten`, with the exact condition in
  `FairQueueWeights.WeightKeptIff`.
- The cap of a deficit at 200 and the branch that puts a served tenant back at the front never take effect.
- The body decoder accepts size lines that section 7.1 of RFC 9112 does not have: with a plus sign
  (`ChunkedGrammar.SignedSizeIsAccepted`), with blanks before the digits or at the end, and with anything after a
  semicolon. An accepted body is one of the standard if and only if none of its size lines is of that kind. Of the
  standard's bodies it refuses exactly those beyond the limit, with a size line of more than 32 bytes or not UTF-8, or
  with trailer fields: `ChunkedGrammar.StandardBodyDecodes`.

## Model

| member | source | states |
|---|---|---|
| `FairQueueRuns.Conservation` | crates/sandbox-core/src/placement.rs:337-455 | from any good state, after any run of enqueue, cancel, dequeue, expire and weight calls: counter, key set, tenant map and schedule agree, all limits hold, deficits rest below 100, and what was queued plus what was accepted is exactly what is queued plus what was handed out, cancelled, returned as expired, or expired and dropped by a dequeue |
| `FairQueueRuns.NewIsEmpty` | crates/sandbox-core/src/placement.rs:288-299 | a new queue is such a good state and holds nothing |
| `FairQueueRuns.DequeueFindsWork` | crates/sandbox-core/src/placement.rs:389-423 | a dequeue returns nothing if and only if no queued item has a deadline after now, and what it returns has not expired: 100 turns per scheduled tenant always suffice |
| `FairQueueRuns.VisitApproaches` | crates/sandbox-core/src/placement.rs:395-420 | every turn that does not serve a scheduled tenant strictly lowers the measure (99 - deficit) * n + position, and never unschedules the tenant |
| `FairQueueTurns.VisitCountsDown` | crates/sandbox-core/src/placement.rs:395-408 | with rounds = ceil((100 - deficit) / weight), a turn that serves nobody lowers (rounds - 1) * scheduled tenants + position by exactly one for every scheduled tenant |
| `FairQueueTurns.ServesNext` | crates/sandbox-core/src/placement.rs:395-420 | the search hands out the oldest item of the tenant with the least such number, on the turn that number says, and nothing with fewer turns |
| `FairQueueTurns.DequeueServesNext` | crates/sandbox-core/src/placement.rs:389-423 | a dequeue hands out the oldest item of the tenant with the least such number once expired work is gone, and nothing if and only if nobody is left |
| `FairQueueTurns.TurnsDiffer` | crates/sandbox-core/src/placement.rs:395-420 | no two scheduled tenants have the same number, so there is one such tenant |
| `FairQueueExpiry.UnreportedIff` | crates/sandbox-core/src/placement.rs:389-444 | over any run after an item was accepted, until it is submitted again: it is gone without having been handed out, cancelled or returned as expired if and only if the first expiry pass or dequeue to find it past its deadline is a dequeue |
| `FairQueueExpiry.Ends` | crates/sandbox-core/src/placement.rs:389-444 | over such a run an expiry pass returns the item if and only if the first to find it is an expiry pass, and a dequeue drops it if and only if the first is a dequeue |
| `FairQueueExpiry.DroppedSilently` | crates/sandbox-core/src/placement.rs:389-390 | for all limits and work: accepted, dequeued at its deadline with nothing returned, and in no later run returned by anything |
| `FairQueueRuns.ArrivalOrder` | crates/sandbox-core/src/placement.rs:337-444 | over any run, what a tenant was handed followed by its backlog is a subsequence of its earlier backlog followed by what it submitted |
| `FairQueueFairness.NoStarvation` | crates/sandbox-core/src/placement.rs:389-423 | over any run of all operations during which a tenant stays backlogged and is not served, fewer than 100 * maximum_tenants items go to others |
| `FairQueueFairness.WeightedFairness` | crates/sandbox-core/src/placement.rs:395-420 | over any run in which tenants a and b stay scheduled with weights wa and wb, the difference of 100 * wb * served(a) and 100 * wa * served(b) is at most wa * wb + 99 * (wa + wb) |
| `FairQueueFairness.ServeLedger` | crates/sandbox-core/src/placement.rs:398-420 | 100 times the items a tenant is served plus its deficit grows by exactly its weight at every visit |
| `FairQueueFairness.ServeAlternates` | crates/sandbox-core/src/placement.rs:395-420 | during one search the visits of two scheduled tenants differ by exactly the change in which of them is ahead, so by at most one |
| `FairQueue.ShrinkKeepsInv` | crates/sandbox-core/src/placement.rs:366-387 | taking any part of a tenant's queue out keeps the representation invariant and removes exactly those items, dropping a tenant left with nothing |
| `FairQueue.EnqueueKeepsInv` | crates/sandbox-core/src/placement.rs:337-364 | an enqueue keeps the invariant and adds the item if it is accepted, and nothing if it is rejected |
| `FairQueueAdmission.AcceptedIff` | crates/sandbox-core/src/placement.rs:337-364 | an item is accepted if and only if it is valid, nothing queued has its key, fewer items than the limit are queued in all and for its tenant, and its tenant is known or there is room for one more; and exactly which rejection is given when one of these fails |
| `FairQueueAdmission.AcceptedJoinsEnd` | crates/sandbox-core/src/placement.rs:349-363 | an accepted item joins the end of its tenant's backlog, a tenant without work the end of the schedule with its weight and deficit kept, or with weight one if it is new; nothing else changes |
| `FairQueueAdmission.CancelTakesOne` | crates/sandbox-core/src/placement.rs:366-387 | a cancel returns nothing if and only if nothing queued has the key; otherwise the rest of the tenant's backlog keeps its order, weight, deficit and place, or the tenant is forgotten; nothing else changes |
| `FairQueueAdmission.WeightTakesEffect` | crates/sandbox-core/src/placement.rs:311-335 | a weight is accepted if and only if it is between 1 and 100 and the tenant is known or there is room; it is then the tenant's weight, and nothing else changes |
| `FairQueue.CancelKeepsInv` | crates/sandbox-core/src/placement.rs:366-387 | a cancel keeps the invariant and takes out exactly the item queued under the key, if there is one |
| `FairQueue.ExpireEffect` | crates/sandbox-core/src/placement.rs:425-444 | an expiry pass keeps the invariant, leaves each tenant its live items in order, and returns exactly the others |
| `FairQueue.SetTenantWeightKeepsInv` | crates/sandbox-core/src/placement.rs:311-335 | changing a weight keeps the invariant and every queued item |
| `BoundedFairQueues.Open` | crates/sandbox-core/src/placement.rs:288-299 | a queue is made if and only if the limits are valid, and is then empty and good |
| `BoundedFairQueues.BoundedFairQueue.SetTenantWeight` | crates/sandbox-core/src/placement.rs:311-335 | the in-place update is the specified one and keeps the object valid |
| `BoundedFairQueues.BoundedFairQueue.Enqueue` | crates/sandbox-core/src/placement.rs:337-364 | the in-place update and the answer are those of the queue as a value, which `FairQueueAdmission.AcceptedIff` pins down, and keep the object valid |
| `BoundedFairQueues.BoundedFairQueue.Cancel` | crates/sandbox-core/src/placement.rs:366-387 | searching tenants and positions finds the one item with the key; the update is the specified one |
| `BoundedFairQueues.BoundedFairQueue.Expire` | crates/sandbox-core/src/placement.rs:425-444 | the nested loops over tenants and items do the specified expiry pass |
| `BoundedFairQueues.BoundedFairQueue.Dequeue` | crates/sandbox-core/src/placement.rs:389-423 | the loop, with the deficit cap and the front branch in place, does the specified dequeue |
| `FairQueue.ReplaceScheduleOk` | crates/sandbox-core/src/placement.rs:446-455 | with a tenant left without work gone from map and schedule, the schedule still lists each tenant with work exactly once |
| `FairQueueWeights.WeightKeptIff` | crates/sandbox-core/src/placement.rs:366-455 | a step other than setting a tenant's weight leaves the weight as it was if and only if the tenant stays; it leaves exactly when a cancel names its only item, an expiry pass or a dequeue finds none of its items live, or a dequeue finds one live and the tenant next in line |
| `FairQueueWeights.ServedTenant` | crates/sandbox-core/src/placement.rs:389-423 | a dequeue hands out work of a tenant if and only if that tenant is next in line after expiry |
| `FairQueueWeights.ReturnsWithWeightOne` | crates/sandbox-core/src/placement.rs:337-364 | the only way back into the queue is an accepted enqueue, with weight one |
| `FairQueueWeights.WeightIsForgotten` | crates/sandbox-core/src/placement.rs:311-335 | for all limits, weights, times and work: set a weight, expire, enqueue, and the weight is one |
| `LeaseBooks.EpochsIncrease` | crates/sandbox-core/src/placement.rs:64-100 | over any list of calls, epochs assigned to one identity strictly increase |
| `LeaseBooks.OnlyLatestAssignment` | crates/sandbox-core/src/placement.rs:102-200 | renew, complete and quarantine succeed only with the worker and epoch of the latest assignment |
| `LeaseBooks.OneResultPerEpoch` | crates/sandbox-core/src/placement.rs:124-159 | two accepted completions of one identity and epoch carry the same digest and worker, however many calls lie between |
| `LeaseBooks.NoOvertaking` | crates/sandbox-core/src/placement.rs:64-100 | with a clock that does not go back, an identity is not assigned again before its granted or renewed lease ends unless its holder renewed, completed or was quarantined |
| `LeaseBooks.RejectionIsQuiet` | crates/sandbox-core/src/placement.rs:102-200 | a rejected call changes nothing, except that one rejected as expired fences exactly the lapsed lease it named |
| `LeaseBooks.RunAdvances` | crates/sandbox-core/src/placement.rs:64-200 | between any two points of a run no epoch falls or changes hands, and a lease no longer active keeps its state and digest within its epoch |
| `LeaseBooks.SuccessIsCurrent` | crates/sandbox-core/src/placement.rs:64-200 | a successful call leaves its identity with exactly the worker, epoch, state, expiry and digest that it names: assigned or renewed until now + lifetime, completed with the digest, or quarantined |
| `LeaseHistory.AssignAnswered` | crates/sandbox-core/src/placement.rs:64-100 | from the earlier calls and replies alone: an assignment is refused exactly for an invalid lifetime, a lease that still runs, or the last epoch; otherwise it is granted until now + lifetime, with the epoch after the last |
| `LeaseHistory.RenewAnswered` | crates/sandbox-core/src/placement.rs:102-122 | a renewal is granted if and only if its caller holds the latest assignment, unexpired and neither completed, quarantined nor fenced, and the lifetime is valid; it then runs until now + lifetime; and which rejection is given otherwise |
| `LeaseHistory.CompleteAnswered` | crates/sandbox-core/src/placement.rs:124-159 | a result is accepted exactly from the holder of a running lease, or again if it is the one accepted for that assignment; and which rejection is given otherwise |
| `LeaseHistory.QuarantineAnswered` | crates/sandbox-core/src/placement.rs:161-170 | a quarantine is accepted exactly from the holder, and the lease is then quarantined |
| `LeaseHistory.FencingAnswered` | crates/sandbox-core/src/placement.rs:172-181 | a fencing pass reports exactly the leases that ran out and were not settled, each once |
| `LeaseHistory.LeaseRuns` | crates/sandbox-core/src/placement.rs:64-122 | with a clock that does not go back and no other success for the identity, assigning it after a grant or renewal at t for l is refused as a conflict if and only if it is before t + l |
| `LeaseHistory.DigestsAre` | crates/sandbox-core/src/placement.rs:203-210 | a digest is valid exactly as the prefix and 64 lower-case hexadecimal digits |
| `LeaseBooks.LeaseBook.Assign` | crates/sandbox-core/src/placement.rs:64-100 | the in-place update and reply are the specified ones |
| `LeaseBooks.LeaseBook.Renew` | crates/sandbox-core/src/placement.rs:102-122 | the in-place update and reply are those of the book as a value, which `LeaseHistory.RenewAnswered` pins down |
| `LeaseBooks.LeaseBook.Complete` | crates/sandbox-core/src/placement.rs:124-159 | the in-place update and reply are the specified ones |
| `LeaseBooks.LeaseBook.Quarantine` | crates/sandbox-core/src/placement.rs:161-170 | the in-place update and reply are the specified ones |
| `LeaseBooks.LeaseBook.FenceExpired` | crates/sandbox-core/src/placement.rs:172-181 | the loop fences exactly the lapsed leases and returns them in key order |
| `Journals.JournalWriter.Commit` | bins/sandboxd/src/journal/writer.rs:26-90 | a group commit carries out exactly the first commands of the queue, in order: a replacement alone, or appends up to the next replacement, the 64th, the last that arrived in time, or the end |
| `Journals.AfterAdvance` | bins/sandboxd/src/journal/writer.rs:26-107 | writing some commands now and others later gives the file that writing them all at once gives |
| `Journals.AfterEnqueue` | bins/sandboxd/src/journal/mod.rs:85-110 | queueing a command changes no file that a crash could already leave, and adds its effect after all others |
| `JournalFiles.RepairTornTail` | bins/sandboxd/src/journal/reader.rs:53-97 | whatever bytes of an unfinished record follow whole ones, the repair leaves the whole ones; a scan over the longest record's length suffices |
| `JournalFiles.ReadRecords` | bins/sandboxd/src/journal/reader.rs:10-51 | a file torn anywhere reads as exactly its whole records, or is refused for the number of bytes or records |
| `JournalFiles.SplitJoin` | bins/sandboxd/src/journal/reader.rs:36-39 | splitting after newlines gives back the records that were written |
| `JournalFiles.CrashTears` | bins/sandboxd/src/journal/writer.rs:85-90 | however many bytes of a batch reach the disk, they are a prefix of its records and the beginning of the next |
| `JournalFiles.CrashReadsPrefix` | bins/sandboxd/src/journal/writer.rs:26-90 | a crash while a batch is written, with any number of its bytes on disk, leaves the lines of the file that some number of commands leaves, and the beginning of one more |
| `LedgerFiles.LedgerLine` | bins/sandboxd/src/assignment.rs:410-425 | every ledger record is encoded as one newline-terminated line within the record limit |
| `LedgerFiles.CacheLine` | bins/sandboxd/src/authorization/replay.rs:207-224 | every nonce record is encoded as one newline-terminated line within the record limit |
| `LedgerFiles.LedgerCrash` | bins/sandboxd/src/journal/reader.rs:10-97 | the bytes that any crash leaves of the ledger's file are the lines of a crash prefix of the ledger's runs and a torn rest |
| `LedgerFiles.CacheCrash` | bins/sandboxd/src/journal/reader.rs:10-97 | the same for the replay cache's file |
| `AssignmentLedgerRuns.CrashSafety` | bins/sandboxd/src/assignment.rs:105-184 | in every run of calls, flushes, compactions, recoveries and crashes: replaying all that is queued gives the entries in memory, and every crash prefix is within the record, byte and key limits of reload |
| `AssignmentLedgerRuns.EpochsNeverReissued` | bins/sandboxd/src/assignment.rs:105-184 | of two begins that reported success for one key, across any number of crashes and restarts, the one made later reported the strictly higher epoch, whichever returned first |
| `AssignmentLedgerRuns.TransferableLeftByRestore` | bins/sandboxd/src/assignment.rs:245-309 | in every reachable state, the only step that changes a transferable assignment is an accepted restore of its own snapshot at a higher epoch |
| `AssignmentLedgerRuns.TransferableUntilRestored` | bins/sandboxd/src/assignment.rs:245-335 | once reported, a transferable assignment stays exactly that through crashes, recoveries and refused restores, until a restore of its snapshot is accepted |
| `AssignmentLedgerRuns.SnapshotsFollowState` | bins/sandboxd/src/assignment.rs:245-309 | in every reachable state fencing, transferable and restoring records name a snapshot and provisioning, active and stopped ones do not |
| `LedgerHistory.BeginAnswered` | bins/sandboxd/src/assignment.rs:105-184 | in every run, from what the last restart found and the calls since: a begin is accepted if and only if no assignment of the key is under way, the epoch asked for is above all of its epochs, a transferable snapshot is restored as itself, and there is room; it logs the epoch asked for, or one above the highest, or 1; and which error is given otherwise |
| `LedgerHistory.BeginReports` | bins/sandboxd/src/assignment.rs:83-184 | a begin that returned success was called with exactly the epoch it reports, or with none and then reports one above the highest known |
| `LedgerHistory.ReportedIsCovered` | bins/sandboxd/src/assignment.rs:56-81 | across any restarts, the highest known epoch of a key is never below one that was reported |
| `LedgerHistory.FencingAnswered` | bins/sandboxd/src/assignment.rs:186-198 | fencing is accepted exactly for the active assignment of that epoch, and names the snapshot |
| `LedgerHistory.TransferableAnswered` | bins/sandboxd/src/assignment.rs:200-212 | a fence becomes transferable exactly with its own epoch and snapshot |
| `LedgerHistory.MarkAnswered` | bins/sandboxd/src/assignment.rs:236-309 | any other transition is accepted exactly if it is one of nine listed moves of the latest epoch; a failed record keeps its snapshot, an active or stopped one names none |
| `LedgerHistory.CurrentAnswered` | bins/sandboxd/src/assignment.rs:214-234 | a sandbox counts as current exactly if its latest assignment is active and of the epoch named, and that epoch is reported |
| `LedgerHistory.CallQueues` | bins/sandboxd/src/assignment.rs:160-184 | an accepted call queues its own record, and every 10,000th since the last compaction also a compaction of the entries; a refused call queues nothing |
| `AssignmentLedgers.WantedFollows` | bins/sandboxd/src/assignment.rs:105-309 | every record a call logs may legally follow the one it replaces; a begin raises the epoch; the ledger stays within 100,000 keys |
| `AssignmentLedgers.CompactedReplays` | bins/sandboxd/src/assignment.rs:350-358 | a compacted file replays to exactly the entries it was made from, one record each |
| `AssignmentLedgers.JournalAccepts` | bins/sandboxd/src/journal/mod.rs:85-110 | the journal's size limits never refuse a ledger record or a compacted ledger |
| `AssignmentLedgers.RecoveryIsFinal` | bins/sandboxd/src/assignment.rs:311-335 | after recovery no assignment counts as current, and recovering again changes nothing |
| `AssignmentLedgers.FailBusyFacts` | bins/sandboxd/src/assignment.rs:311-335 | failing what was under way keeps all records well formed and is a legal evolution of each |
| `AssignmentLedgerObjects.Load` | bins/sandboxd/src/assignment.rs:389-408 | a file loads if and only if it is within the limits, and then as its replay |
| `AssignmentLedgerObjects.OpenLedger` | bins/sandboxd/src/assignment.rs:56-81 | opening is refused if and only if the file does not load; otherwise the ledger holds its replay and has queued the compaction |
| `AssignmentLedgerObjects.AssignmentLedger.BeginOperation` | bins/sandboxd/src/assignment.rs:105-184 | update, queued record and due compaction are those of the ledger as a value, which `LedgerHistory.BeginAnswered` pins down; a success reports the epoch asked for, or the one after the key's last |
| `AssignmentLedgerObjects.AssignmentLedger.Transition` | bins/sandboxd/src/assignment.rs:245-309 | checks, in-place update and queued record are the specified ones for every pair of states |
| `AssignmentLedgerObjects.AssignmentLedger.RequireCurrent` | bins/sandboxd/src/assignment.rs:214-234 | the checks in order give the answer that `LedgerHistory.CurrentAnswered` pins down |
| `AssignmentLedgerObjects.AssignmentLedger.ReconcileAfterRecovery` | bins/sandboxd/src/assignment.rs:311-335 | the loop fails exactly the assignments under way and compacts only if there were any |
| `ReplayCacheRuns.AtMostOnce` | bins/sandboxd/src/authorization/replay.rs:88-140 | with a clock that does not go back, of two successful uses of one nonce, across any crashes and restarts, the later is at or after the expiry of the earlier |
| `ReplayHistory.UseAnswered` | bins/sandboxd/src/authorization/replay.rs:88-140 | in every run, from what the last restart found and the uses accepted since: a use is refused as a repetition if and only if an accepted use of the nonce has not expired, as too many if and only if it is none and 100,000 are live, and accepted otherwise |
| `ReplayHistory.UseQueues` | bins/sandboxd/src/authorization/replay.rs:107-140 | an accepted use queues its own record, and every 10,000th since the last compaction also a compaction of the live nonces; a refused one queues nothing |
| `ReplayHistory.LiveExactly` | bins/sandboxd/src/authorization/replay.rs:176-205 | a file reads without conflict if and only if no nonce is in it twice and live both times, and then as exactly the live ones |
| `ReplayCacheRuns.ReloadExactly` | bins/sandboxd/src/authorization/replay.rs:176-205 | what any crash point leaves is accepted by reload at any later time if and only if no record in it has expiry zero |
| `ReplayCacheRuns.ZeroExpiryBlocksReload` | bins/sandboxd/src/authorization/replay.rs:88-140 | accepting a nonce with expiry zero leaves a log that no later reload accepts |
| `ReplayCacheRuns.ReloadsIffNoZero` | bins/sandboxd/src/authorization/replay.rs:88-205 | every crash point of every state of a run can be reloaded at every later time if and only if no call of the run consumed a nonce with expiry zero |
| `ReplayCaches.CompactedLive` | bins/sandboxd/src/authorization/replay.rs:142-153 | a compacted file reads back as exactly the nonces still live |
| `ReplayCaches.LiveLater` | bins/sandboxd/src/authorization/replay.rs:176-205 | reading a good file later gives the same nonces less those expired since |
| `ReplayCaches.Load` | bins/sandboxd/src/authorization/replay.rs:176-205 | the loop accepts exactly the files within the limits without zero expiry or duplicate live nonce, and returns the live ones |
| `ReplayCaches.OpenCache` | bins/sandboxd/src/authorization/replay.rs:60-86 | opening is refused if and only if the file does not load; otherwise the cache holds the live nonces and has queued the compaction |
| `ReplayCaches.ReplayCache.Consume` | bins/sandboxd/src/authorization/replay.rs:88-140 | pruning, answer, queued record and due compaction are those of the cache as a value, which `ReplayHistory.UseAnswered` pins down |
| `ReplayCaches.ReplayCache.EnqueueCompaction` | bins/sandboxd/src/authorization/replay.rs:142-153 | the loop queues one record for each entry, in key order, and resets the count |
| `Envelopes.MaximumIsExact` | crates/sandbox-artifact/src/crypto.rs:37-46 | the checked arithmetic fails exactly when the envelope's true size exceeds 64 bits and gives that size otherwise |
| `Envelopes.HeaderRoundTrip` | crates/sandbox-artifact/src/crypto.rs:336-401 | a written header has its fixed length and is read back, whatever follows it |
| `Envelopes.Seal` | crates/sandbox-artifact/src/crypto.rs:103-214 | sealing succeeds if and only if the content is the one described and its chunks can be numbered, and writes header and chunks |
| `Envelopes.Open` | crates/sandbox-artifact/src/crypto.rs:216-323 | the loop over chunks gives the specified content or the specified error |
| `Envelopes.EnvelopeRoundTrip` | crates/sandbox-artifact/src/crypto.rs:103-323 | an envelope has exactly the computed size and opens to the content that was sealed, for every content of 1 byte to 2^32 chunks |
| `Envelopes.OpenedIsDescribed` | crates/sandbox-artifact/src/crypto.rs:216-323 | whatever opens has the described size and digest, and the envelope holds nothing beyond it |
| `ArtifactStore.MaterializesPublished` | crates/sandbox-artifact/src/repository.rs:351-456 | a snapshot that passed the checks of publish and whose pointer and blobs are stored passes all checks of materialize and yields exactly the staged names and bytes |
| `ArtifactStore.RestoresIffStored` | crates/sandbox-artifact/src/repository.rs:351-456 | a visible snapshot materializes if and only if its manifest and all its objects are stored |
| `ArtifactStore.SmallSnapshotIsPublishable` | crates/sandbox-artifact/src/repository.rs:112-263 | one container object and one sandbox object within the limits, on any unpopulated manifest with provenance, pass every check of publish |
| `PublicationChecks.PublishableIff` | crates/sandbox-artifact/src/repository.rs:112-263 | the checks made one by one, on running totals and on the manifest that is built, are met if and only if the manifest is of the scope, unpopulated and with its origin, there are 1 to the maximum objects, each acceptable on its own, with different names, together within the size limit, one of a container and one of the sandbox, and the manifest is not too long |
| `ArtifactStore.ManifestLoads` | crates/sandbox-artifact/src/repository.rs:559-641 | the pointer of a publish leads to the manifest it populated |
| `Artifacts.PopulateLists` | crates/sandbox-artifact/src/repository.rs:194-237 | filing staged objects under containers and sandbox lists each of them exactly once |
| `ArtifactRuns.EveryPointerRestores` | crates/sandbox-artifact/src/repository.rs:105-303 | in every run of interleaved publishes that may stop at any put, removals, and collections that do not overlap publishes, every pointer in the store materializes to exactly the files of the publish that put it |
| `ArtifactRuns.OnePublishPerReference` | crates/sandbox-artifact/src/repository.rs:265-290 | in every run whatever, between two successful publishes of one snapshot its reference was removed |
| `ArtifactRuns.ShownUntilRemoved` | crates/sandbox-artifact/src/repository.rs:468-477 | in every run whatever, a pointer stays unchanged until its removal |
| `ArtifactRuns.KeptInFlight` | crates/sandbox-artifact/src/repository.rs:141-530 | with scan, cutoff, marking and deletion of any number of collections interleaved with publishes: a blob, created or reused, with modified + grace >= publish start + 2 * timeout, and no earlier blob of its key marked by a collection with time left when it was put, stays stored and in that condition as long as the publish is under way and in time |
| `ArtifactRuns.KeptWhileShown` | crates/sandbox-artifact/src/repository.rs:265-530 | and from then on as long as the pointer that this publish puts is visible |
| `ArtifactRuns.KeptSnapshotRestores` | crates/sandbox-artifact/src/repository.rs:351-530 | a visible snapshot each of whose blobs was put in that condition materializes to its staged files at every point of every run |
| `ArtifactRuns.CreatedStays` | crates/sandbox-artifact/src/model.rs:70-104 | with grace of two timeouts, which the defaults grant, a blob that a publish creates while no collection with time left has its key marked is stored while that publish is under way and in time, and then while the snapshot it makes visible is referenced, whatever collections there are |
| `ArtifactRaces.KeptExactly` | crates/sandbox-artifact/src/repository.rs:514-530 | in every reachable state, a blob put late enough by a publish under way stays, in every continuation in which the publish makes its snapshot visible and until the reference goes, if and only if no collection with time left has marked an earlier blob of its key |
| `ArtifactRaces.MarkedIsLost` | crates/sandbox-artifact/src/repository.rs:518-530 | from every reachable state with a publish under way and a key marked by a collection with time left there is a continuation that finishes the publish and leaves its visible snapshot without that blob |
| `ArtifactRaces.LostUnlessKept` | crates/sandbox-artifact/src/repository.rs:514-530 | for all valid limits, publications, start times and modification times for which the condition fails, there is a run, with one collection at a time, in which the visible snapshot loses the blob and no longer materializes |
| `ArtifactRaces.OverlappingCollectionsLose` | crates/sandbox-artifact/src/repository.rs:518-530 | for all valid limits and publications there is a run with two collections at a time that deletes a blob the publish itself created, under its visible pointer |
| `ArtifactProgress.PublishCompletes` | crates/sandbox-artifact/src/repository.rs:105-303 | from every state a run can reach, whatever is under way, a publication that passes the checks and is not visible can be published: it materializes as staged, and only its keys were added |
| `ArtifactProgress.GarbageGoes` | crates/sandbox-artifact/src/repository.rs:479-530 | from every such state a blob that no reference leads to, past the grace period, can be collected, and nothing else need go, provided all references of its scope load |
| `ArtifactRepositories.Repository.Publish` | crates/sandbox-artifact/src/repository.rs:105-303 | uninterrupted, it succeeds if and only if the publication is valid and not yet visible; then it materializes as staged and only its keys were added; otherwise no pointer changes; nothing stored changes |
| `ArtifactRepositories.Repository.PutObjects` | crates/sandbox-artifact/src/repository.rs:141-234 | the loop stores exactly the objects up to the first refused one and builds the manifest that lists them |
| `ArtifactRepositories.Repository.Materialize` | crates/sandbox-artifact/src/repository.rs:351-456 | limits and loops give the specified files or the specified error |
| `ArtifactRepositories.Repository.RemoveReference` | crates/sandbox-artifact/src/repository.rs:468-477 | the snapshot is not found afterwards, every other snapshot materializes as before, and no blob goes |
| `ArtifactRepositories.Repository.GarbageCollect` | crates/sandbox-artifact/src/repository.rs:479-557 | uninterrupted, it deletes exactly what is older than the grace period among the unreachable objects, the staging leftovers and the transfer records of unreferenced snapshots of the scope, or nothing if some reference does not load |
| `ArtifactRepositories.CollectionKeepsSnapshots` | crates/sandbox-artifact/src/repository.rs:479-557 | after such a collection every snapshot of every scope materializes as before |
| `Transfers.TransferRecords.PublishGrant` | crates/sandbox-artifact/src/transfer.rs:32-110 | uninterrupted, an existing pointer decides; without one it succeeds exactly for stop-and-move, and the grant it reports can be read if and only if the grant slot was empty or held it; no existing record changes |
| `Transfers.UnreadableForGood` | crates/sandbox-artifact/src/transfer.rs:75-109 | a pointer over another manifest's grant stays unreadable and unclaimable as long as both are kept |
| `Transfers.TransferRecords.MakeClaim` | crates/sandbox-artifact/src/transfer.rs:112-174 | uninterrupted, the first eligible claim is kept, with the worker and epoch of the target that asked as its destination, and afterwards that claim and no other succeeds |
| `Transfers.ClaimedIff` | crates/sandbox-artifact/src/transfer.rs:112-174 | a claim succeeds if and only if the grant can be read, the target is the stopped sandbox on another worker at a higher epoch, and no claim is there but one that names this target; it names the manifest's source and the target's worker and epoch; and which error is given otherwise |
| `Transfers.ReadableIff` | crates/sandbox-artifact/src/transfer.rs:176-241 | a grant can be read if and only if it was made of this stop-and-move manifest and is stored with its pointer |
| `TransferRuns.OneDestination` | crates/sandbox-artifact/src/transfer.rs:112-174 | in every interleaving of grant publishers, claimers and collections stopping anywhere, all claims that succeed while the reference stays are the same claim, if at its start no collection that missed it could take the claim or one yet to be placed |
| `TransferRuns.OneTarget` | crates/sandbox-artifact/src/transfer.rs:112-174 | so two targets that both succeed in such a term are the same worker at the same epoch |
| `TransferRaces.OneDestinationExactly` | crates/sandbox-artifact/src/repository.rs:542-555 | when a snapshot is published again, with its grant readable or yet to be made, all claims of the new term agree in every continuation if and only if that condition holds |
| `TransferRaces.TwoUnlessSafe` | crates/sandbox-artifact/src/repository.rs:542-555 | from every such state that a run can reach and that fails it, whichever way, there is a continuation in which two destinations succeed |
| `TransferRuns.FirstTermUntouched` | crates/sandbox-artifact/src/repository.rs:542-555 | the first time a snapshot is referenced nothing is left from before and the condition holds for every record |
| `TransferRuns.RecordStays` | crates/sandbox-artifact/src/repository.rs:542-555 | a grant, pointer or claim whose slot satisfies the condition at the start of a term is not deleted or changed while the reference stays |
| `TransferRuns.ClaimMovesForward` | crates/sandbox-artifact/src/transfer.rs:112-142 | in every run a successful claim names scope, sandbox, snapshot, source worker and epoch of a stop-and-move manifest, and the worker and epoch of the very target that asked, another worker at a higher epoch |
| `TransferRuns.ClaimsReferencedSnapshot` | crates/sandbox-artifact/src/repository.rs:327-349 | with nothing left from before, the claim is of the manifest that the reference leads to |
| `TransferRuns.RetryIff` | crates/sandbox-artifact/src/transfer.rs:112-279 | once a claim has succeeded in a term whose claim slot was safe at its start, claiming again with the same target at any later point of the term gives the same claim if and only if the grant can be read there |
| `TransferRuns.RetrySucceeds` | crates/sandbox-artifact/src/transfer.rs:112-279 | with all three slots safe at the start of the term and the grant readable when the claim succeeded, claiming again at any later point gives the same claim |
| `TransferRaces.RetryFails` | crates/sandbox-artifact/src/transfer.rs:112-241 | for all valid limits, stop-and-move manifests and eligible targets there is a run, with all slots safe and no collection in the term, in which a claim succeeds and claiming again finds no grant |
| `TransferRuns.GrantStays` | crates/sandbox-artifact/src/transfer.rs:176-241 | a grant readable at one point of a term whose grant and pointer slots were safe at its start is readable, unchanged, at every later point |
| `TransferRuns.GrantReadableIff` | crates/sandbox-artifact/src/transfer.rs:75-109 | in any state, a grant that a step reports can be read afterwards if and only if the grant slot held it when the pointer was put: neither another manifest's grant, nor nothing because a collection came in between |
| `TransferRuns.GrantIsClaimable` | crates/sandbox-artifact/src/transfer.rs:32-174 | with those two slots safe, a reported grant that can be read can be claimed at every later point of the term: by any eligible target while there is no claim, and then by its owner |
| `TransferRuns.FirstTermClaims` | crates/sandbox-artifact/src/transfer.rs:112-174 | with nothing left from before, all slots are safe and the grant is readable whenever a claim succeeds |
| `TransferRuns.FirstTermGrants` | crates/sandbox-artifact/src/transfer.rs:32-110 | with nothing left from before, every reported grant can be read |
| `TransferRuns.EveryPublisherReports` | crates/sandbox-artifact/src/transfer.rs:32-110 | with nothing left from before, every grant publisher that gets to its last step reports the grant, whichever of them put it |
| `TransferSteps.UninterruptedClaim` | crates/sandbox-artifact/src/transfer.rs:112-174 | left alone, a claim of the interleaved model returns and stores exactly what the uninterrupted one does |
| `TransferSteps.UninterruptedGrant` | crates/sandbox-artifact/src/transfer.rs:32-110 | left alone, publishing a grant in the interleaved model does exactly what the uninterrupted call does |
| `TransferRaces.LeftoverGoes` | crates/sandbox-artifact/src/repository.rs:542-555 | from every reachable state without a reference, a transfer record past the grace period can be collected |
| `TransferRaces.LeftoverClaimIsLost` | crates/sandbox-artifact/src/repository.rs:542-555 | for all valid limits, stop-and-move manifests and eligible targets there is such a run from the start |
| `TransferRaces.LeftoverGrantBlocks` | crates/sandbox-artifact/src/transfer.rs:75-109 | for all pairs of stop-and-move manifests with different grants there is a run that reports the second's grant and leaves it unreadable and unclaimable |
| `Autoscale.Climbs` | crates/sandbox-core/src/autoscale.rs:257-309 | below its target a pool is, after n reconciliations, at start + n * scale-up rate or at the target, whichever is less |
| `Autoscale.Falls` | crates/sandbox-core/src/autoscale.rs:257-309 | idle with nothing queued, it falls by the scale-down rate to its floor and keeps the warm headroom clean |
| `Autoscale.Holds` | crates/sandbox-core/src/autoscale.rs:257-309 | otherwise at or above its target it stays |
| `Autoscale.NeverReverses` | crates/sandbox-core/src/autoscale.rs:257-309 | whatever the times, repeated reconciliation moves in one direction and never crosses the target |
| `Autoscale.ClimbTime` | crates/sandbox-core/src/autoscale.rs:257-309 | the target is reached after exactly ceil(gap / rate) reconciliations and no sooner |
| `Autoscale.FallTime` | crates/sandbox-core/src/autoscale.rs:257-309 | the floor is reached after exactly ceil(gap / rate) reconciliations and no sooner |
| `Autoscale.DemandAccountedFor` | crates/sandbox-core/src/autoscale.rs:257-309 | target plus backpressure is max(leased + queued + headroom, minimum), as far as 32 bits go; desired plus drained is current plus created; quota, maximum and warm headroom are respected |
| `AutoscaleDemand.DecisionIsExact` | crates/sandbox-core/src/autoscale.rs:257-309 | a decision is refused exactly for an invalid policy or observation; it creates the most workers within the rate up to min(max(leased + queued + headroom, minimum), min(maximum, quota)), and drains the most within the rate that an idle pool with nothing queued may lose down to that, keeping the headroom clean |
| `AutoscaleDemand.SettlesAtDemand` | crates/sandbox-core/src/autoscale.rs:257-309 | a pool below it is at min(max(leased + queued + headroom, minimum), min(maximum, quota)) after ceil(gap / rate) reconciliations and no sooner |
| `AutoscaleDemand.SettlesWhenIdle` | crates/sandbox-core/src/autoscale.rs:257-309 | an idle pool above it with nothing queued ends at it, or as far above as it takes to keep the headroom beside the leased workers |
| `AutoscaleDemand.HeldBackIs` | crates/sandbox-core/src/autoscale.rs:266-273 | what is reported as held back is the demand above min(maximum, quota) if and only if the demand fits in 32 bits, and is zero exactly when that is |
| `AutoscaleDemand.HeldBackIsCapped` | crates/sandbox-core/src/autoscale.rs:266-273 | for any queue, an input on which it is less |
| `AutoscaleDemand.NothingHeldBackIff` | crates/sandbox-core/src/autoscale.rs:257-309 | nothing is held back if and only if the pool settles with a clean worker for every queued assignment, the headroom beside them, and its minimum |
| `AutoscaleDemand.HeldBackWithoutQueue` | crates/sandbox-core/src/autoscale.rs:266-273 | with nothing queued and the quota below the minimum, something is reported as held back |
| `Controllers.BudgetAfterEveryPool` | bins/sandbox-autoscaler/src/controller.rs:86-172 | after any number of pools of a pass, wherever it stops, all workers together are within the budget or no more than at the start, and a pool that grew is within its maximum |
| `Controllers.PoolWithinBudget` | bins/sandbox-autoscaler/src/controller.rs:112-169 | a pool grows no further than the free slots and its maximum, and gives up only trailing workers that are not busy, keeping leased ones and headroom |
| `ControllerPass.StopsIff` | bins/sandbox-autoscaler/src/controller.rs:112-142 | a pool stops the pass exactly if a call fails, its policy is invalid, or its counts exceed its workers |
| `ControllerPass.GrowsAsAllowed` | bins/sandbox-autoscaler/src/controller.rs:113-157 | a pool grows by the most that its rate, its demand, its maximum and the free slots allow |
| `ControllerPass.ShrinksAsAllowed` | bins/sandbox-autoscaler/src/controller.rs:158-169 | an idle pool with nothing queued gives up the most that its rate, its demand or maximum, and the headroom allow, if none of that many trailing workers is unknown or busy and the clean ones are still clean, and otherwise none |
| `ControllerPass.ShortOnlyForCause` | bins/sandbox-autoscaler/src/controller.rs:112-169 | a pool left below leased + queued + headroom or its minimum has grown by its full rate, or has its maximum, or there is no free slot left |
| `ControllerPass.PassServes` | bins/sandbox-autoscaler/src/controller.rs:86-172 | the same of every pool at the end of a pass |
| `Controllers.Controller.TotalReplicas` | bins/sandbox-autoscaler/src/controller.rs:87-106 | the loop gives the sum of the replicas, or fails exactly when it overflows |
| `Controllers.Controller.DrainTrailing` | bins/sandbox-autoscaler/src/controller.rs:340-395 | all the trailing workers asked for go, or none, and none if one of them is unknown or busy or has ceased to be clean |
| `Controllers.Controller.ReconcilePool` | bins/sandbox-autoscaler/src/controller.rs:112-169 | scaling one pool is that of the pass as a value, which `ControllerPass.GrowsAsAllowed` and `ControllerPass.ShrinksAsAllowed` pin down, and the running total remains the true sum |
| `Controllers.Controller.ReconcileOnce` | bins/sandbox-autoscaler/src/controller.rs:86-172 | the pass is as specified and ends within the budget or with no more workers than before |
| `StartupOrders.StartupOrder` | crates/sandbox-oci/src/compiler.rs:428-454 | the loop gives the lexicographically least order in which every service follows its dependencies, or reports a cycle exactly when there is no order at all |
| `StartupOrders.OrderIffAcyclic` | crates/sandbox-oci/src/compiler.rs:229-237 | for dependencies that the compiler lets through, an order exists if and only if no cycle does |
| `StartupOrders.StuckHasCycle` | crates/sandbox-oci/src/compiler.rs:428-454 | services that wait only for one another contain a cycle |
| `StartupOrders.CompileOrder` | crates/sandbox-oci/src/compiler.rs:229-237 | dependencies are refused exactly when one names the service itself or none; otherwise the least order or, exactly on a cycle, an error |
| `ChunkedBodies.DecodeResponseBody` | bins/sandbox-broker/src/ingress.rs:263-306 | a plain body is returned exactly when it is within the limit and has the announced length, if one was announced; a chunked one goes through the specified loop |
| `ChunkedBodies.ParseSizeExactly` | bins/sandbox-broker/src/ingress.rs:285-289 | a line is read as size n if and only if it is the UTF-8 of blanks, perhaps a plus sign, hexadecimal digits of value n that fits, blanks, and nothing or a semicolon and anything |
| `ChunkedBodies.DecodesExactly` | bins/sandbox-gateway/src/ingress.rs:302-345 | a chunked body decodes to given data if and only if it consists of such lines of at most 32 bytes, each with data of its size, and a last one of size zero without trailers, and the data are those, within the limit |
| `ChunkedGrammar.StandardBodyDecodes` | bins/sandbox-broker/src/ingress.rs:263-306 | a body of section 7.1 of RFC 9112 decodes to its data if and only if it is within the limit, its size lines are UTF-8 of at most 32 bytes, and it has no trailer fields; otherwise it is refused |
| `ChunkedGrammar.AcceptedIsStandardIff` | bins/sandbox-broker/src/ingress.rs:263-306 | an accepted body is one of the standard if and only if all its size lines are |
| `ChunkedGrammar.StandardLineIff` | bins/sandbox-broker/src/ingress.rs:285-289 | an accepted size line is one of the standard if and only if nothing precedes the digits and what follows them are well-formed extensions |
| `ChunkedGrammar.SignedSizeIsAccepted` | bins/sandbox-gateway/src/ingress.rs:302-345 | for any data within the limit, the body with its size written with a plus sign is accepted and is none of the standard |
| `ChunkedBodies.BodyRoundTrip` | bins/sandbox-broker/src/ingress.rs:263-306 | any list of nonempty parts sent as chunks decodes to their concatenation, or is refused if and only if that exceeds the limit |
| `ChunkedBodies.HexRoundTrip` | bins/sandbox-broker/src/ingress.rs:263-306 | every size written in plain hexadecimal is read back |

## Left out

- OneDestinationExactly: exact for a snapshot published again as it was, with its grant readable or yet to be made; if
  another manifest takes its name, or a grant pointer is left without its grant, the condition is proved sufficient only
  (`TransferRuns.OneDestination`).
- The runs that lose a claim, a grant or a retry (`TransferRaces`) hold for a manifest whose blob is kept: a referenced
  manifest always loads there.
- A journal write that fails is treated as a crash: what a running daemon keeps in memory after a failed write, or after
  a call whose record could not be queued, is not modelled.
- Real cryptography, hashing and JSON: associated data and key derivation are opaque, and parsing stored JSON back is
  taken as the inverse of writing it.
- Volumes and object roles in snapshot manifests, and manifest fields that no operation reads.
- A listing of keys is one step, and a collection reads the pointer and the manifest of a snapshot in one step.
- The lengths of pointer and transfer records, the limit on listing entries, retries and timeouts of single requests.
- Multipart uploads of the S3 backend.
- `Repository.Publish` and `Repository.GarbageCollect` take one modification time for the whole call; `ArtifactRuns`
  has one for each put.
- The replay cache without a journal.
- A scaling request that fails after the cluster has applied it.
- Recovery fences, heartbeats, registration of workers, the Postgres store, HTTP and Kubernetes plumbing, file
  permissions, metrics and the command line.
- Worker slots, life cycle states, catalog and policy validators, network policies: checks on single values, with no
  protocol behind them.
