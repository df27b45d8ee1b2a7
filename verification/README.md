# fastdup: verified protocol models

fastdup is a deduplicating storage appliance. This project models, in Dafny 4.11,
the protocols of the appliance whose correctness is a property of whole runs, and
proves those properties. `dafny verify dfyconfig.toml` checks everything.

Each component has a model on values (a state, its transitions, an invariant, and
theorems over every run) and, where the source updates state in place, a class or
a method with loops whose contract equates it with that model.

- **Samba clone scheduler** (`CompletionFence`, `CloneContract`, `CloneScheduler`,
  `CloneSerializability`). A queue of at most 64 clone jobs, 8 of them running. A
  job starts only when no earlier queued job conflicts with it. Every interleaving
  is serializable in arrival order. A 64-bit mask per handle refines the set of
  outstanding operations and decides when CLOSE is safe.
- **Commit capacity governor** (`TokenSums`, `CommitCapacity`, `CommitWorld`,
  `CommitSafety`, `CommitRaces`). Reservations of three storage tiers move from in
  flight to active, frozen, completed and retired, each reservation a load, a limit
  test and an exchange that other steps may separate. The counters balance and no
  assertion fails in any run. The true free space covers what unretired claims may
  still write exactly in the runs without a stale exchange.
- **Online dependency proofs** (`ProofMap`, `DependencyProofs`, `OnlineProofs`,
  `ClaimOrder`). Active and Frozen proof sets with one budget, keys being
  published, and the checkpoint order of freeze, cancel and complete. No assertion
  can fire, and ascending claims cannot deadlock.
- **Exact publisher** (`ExactIndex`, `ExactPublisher`). Coalesced appends are
  equivalent to publishing one command at a time, and no fence is answered early.
- **Replay caches and their trace** (`CachePolicy`, `SieveRing`, `Sieve`,
  `S3Queues`, `S3Chances`, `S3Fifo`, `TraceFormat`, `TraceCodec`, `TraceReplay`).
  SIEVE as a linked list in a slot arena, S3-FIFO with its potential argument and what
  it does for a key, a canonical byte format, and the balance of every replay.
- **Range clones** (`ManifestExtents`, `CloneExtents`). Rewriting the manifest
  extents under a range into recipes preserves the bytes.
- **Pool identity** (`PoolStorage`, `PoolBinding`, `PoolInitializer`).
  Initialization of two roots under power losses that keep any subset of the
  directory changes not yet synced, and under killed processes that keep them all.
- **Online GC scheduling** (`GcPolicy`, `OnlineGc`, `GcScheduler`) and the
  **checkpoint trigger** (`DurabilitySupervisor`), over runs with a nondecreasing
  clock.

Six statements one might expect are false of the code. Each has concrete runs
that show it and the exact condition under which it holds.

- The capacity governor can promise the same free bytes twice. A reservation tests
  the limit against a counter value it loaded; an observation then lowers the limit
  and retires a written claim, another reservation brings the counter back to the
  loaded value, and the first exchange succeeds (`CommitRaces.StaleTestOvercommits`).
  Nothing is over-committed exactly when no exchange is stale, and in particular
  when no retirement falls between a test and its exchange
  (`CommitSafety.NeverOvercommitted`, `CommitSafety.UndisturbedNeverOvercommits`).
- A pool binding that an open has returned can be lost to a later power loss, exactly
  when the open read an identity that a killed process had published and not synced
  (`PoolBinding.ReturnedBindingCanBeLost`, `PoolBinding.OpenFinishes`,
  `PoolBinding.InitializationIsCrashSafe`).
- S3-FIFO can refuse an admission at every capacity above 85, and never does up to
  85 (`S3Queues.LargeCachesCanReject`, `S3Queues.SmallCachesNeverReject`).
- A forced GC run can lengthen the DATA wait, exactly when the delete interval is
  shorter than the base interval (`OnlineGc.ForcedCanLengthen`,
  `OnlineGc.ForcedKeepsWait`, and per run `OnlineGc.ForcedLengthensIff`).
- A joined append of the Exact publisher can repeat an entry, since entries with equal
  sort keys need not stand next to their equals. It names every key once exactly when
  its keys identify its entries (`ExactIndex.RepeatSurvives`,
  `ExactIndex.StrictIffKeysIdentify`).
- Merging a Frozen proof set back can put a claimed key into Active, exactly when
  Frozen holds a claimed key. That never happens to a freshly frozen set, which is
  the only one the coordinator cancels (`DependencyProofs.FrozenMayHoldAClaim`,
  `DependencyProofs.CancelSafeIffFrozenUnclaimed`).

Values from outside the modelled code are parameters: hash functions (the BLAKE3
digest and the proof map's hash), the clock and the minute of the day, entropy,
the chunk store, the outcome of a thread submission and the number of bytes a copy
reports. Unbounded integers are used throughout; 64-bit and 32-bit bounds are
written out where the source checks them.

What callers are assumed to do is stated where it is used. In `CommitWorld.CanStep`
a claim's Metadata covers its small-file bytes, writers stay within their claims, a
claim is given back only as far as it is unwritten, and Metadata that is released or
dropped was never written. A claim may be written while it is in flight, active,
frozen or uncheckpointed, up to the beginning of the first observation that may
retire it and not after. `CommitRaces.LateWriteOvercommits` and
`CommitRaces.DroppedMetadataMustBeUnwritten` show that these last two promises are
needed. In `ClaimOrder` each thread asks for keys in ascending order. In
`ExactPublisher` a command is never empty, since the senders return early on an empty
batch. In `GcScheduler` a time handed to the scheduler is one the clock can represent.

## Model

| member | source | states |
|---|---|---|
| `CompletionFence.EveryNumberCompletesOnce` | samba/vfs_fastdup/vfs_fastdup_contract.c:178-209 | over every run of accept and complete calls: a number completes at most once, exactly when it was accepted and is no longer outstanding, and `applied` counts the longest completed prefix |
| `CompletionFence.AcceptAddsOne` | samba/vfs_fastdup/vfs_fastdup_contract.c:178-189 | accepting adds the next number to the outstanding set, which did not hold it |
| `CompletionFence.CompleteRemovesOne` | samba/vfs_fastdup/vfs_fastdup_contract.c:190-205 | completion succeeds exactly for an outstanding number and removes that number only, whatever the order |
| `CompletionFence.SlideKeepsOutstanding` | samba/vfs_fastdup/vfs_fastdup_contract.c:199-203 | shifting the mask and advancing `applied` changes no outstanding number and ends with a clear low bit |
| `CompletionFence.AppliedIsLongestPrefix` | samba/vfs_fastdup/vfs_fastdup_contract.c:206-209 | the number after `applied` is outstanding, so the handle is close-ready exactly when nothing is |
| `CompletionFence.HandleFence.AcceptNext` | samba/vfs_fastdup/vfs_fastdup_contract.c:178-189 | refuses at 64 outstanding numbers or at the top of the counter, else returns the next number and adds it to the outstanding set |
| `CompletionFence.HandleFence.CompleteOne` | samba/vfs_fastdup/vfs_fastdup_contract.c:190-205 | the in-place mask update with its shifting loop completes exactly an outstanding number, else changes nothing |
| `CompletionFence.HandleFence.CloseReady` | samba/vfs_fastdup/vfs_fastdup_contract.c:206-209 | true exactly when no accepted number is outstanding |
| `CloneContract.Validate` | samba/vfs_fastdup/vfs_fastdup_contract.c:143-176 | a request passes exactly when it is nonempty, within the maximum, aligned, free of overflow, inside both files and not overlapping itself; each refusal names a rule the request breaks |
| `CloneContract.Copied` | samba/vfs_fastdup/vfs_fastdup.c:486-488 | the target keeps its size and attribute; exactly the copied range now holds the source bytes |
| `CloneContract.Perform` | samba/vfs_fastdup/vfs_fastdup.c:456-490 | a job changes no file but its target, and that only when the two files agree on carrying checksums, the ranges fit and bytes were copied; then the target is exactly the copied file |
| `CloneContract.AcceptedIff` | samba/vfs_fastdup/vfs_fastdup.c:456-485 | the worker accepts a job if and only if neither file carries checksums or both do, and its geometry and byte ranges fit the current sizes |
| `CloneContract.IntegrityRefusals` | samba/vfs_fastdup/vfs_fastdup.c:442-478 | a data error is answered exactly for an attribute that cannot be presented, a mismatch exactly for one plain and one checksummed file, both before any range is looked at |
| `CloneContract.Commute` | samba/vfs_fastdup/vfs_fastdup.c:433-441 | jobs the conflict test lets pass each other commute, and neither changes the other's verdict |
| `CloneScheduler.EnqueueKeeps` | samba/vfs_fastdup/vfs_fastdup.c:677-699 | an admitted job keeps the bounds, the arrival order, the no-overtaking rule and the fence bookkeeping |
| `CloneScheduler.ActivateKeeps` | samba/vfs_fastdup/vfs_fastdup.c:531-555 | starting an unblocked job keeps all of them |
| `CloneScheduler.FinishKeeps` | samba/vfs_fastdup/vfs_fastdup.c:491-508 | unlinking a finished job keeps all of them |
| `CloneScheduler.FinishAssertionHolds` | samba/vfs_fastdup/vfs_fastdup.c:491-508 | the assertion on the fence in `fastdup_clone_finish` holds for every queued job |
| `CloneScheduler.CloseReadyIffUntargeted` | samba/vfs_fastdup/vfs_fastdup.c:721-737 | a handle is close-ready exactly when no queued job targets it |
| `CloneScheduler.ActiveJobsNeverConflict` | samba/vfs_fastdup/vfs_fastdup.c:531-555 | two running jobs never conflict |
| `CloneScheduler.SettledMakesProgress` | samba/vfs_fastdup/vfs_fastdup.c:531-555 | after a pass a nonempty queue always has a running job, so some completion will schedule again |
| `CloneScheduler.RunsStayValid` | samba/vfs_fastdup/vfs_fastdup.c:491-555 | over every run pending equals the queue length, at most 64, and active the number of running jobs, at most 8 |
| `CloneScheduler.CloneQueue.IsBlocked` | samba/vfs_fastdup/vfs_fastdup.c:541-543 | the inner loop finds an earlier conflicting job exactly when there is one |
| `CloneScheduler.CloneQueue.StartAt` | samba/vfs_fastdup/vfs_fastdup.c:545-553 | one job is marked active and counted, or fails submission and leaves the queue and its fence at once |
| `CloneScheduler.CloneQueue.Schedule` | samba/vfs_fastdup/vfs_fastdup.c:531-555 | one pass reaches, by starts and failed submissions only, a state where eight jobs run or every waiting job has an earlier conflicting one |
| `CloneScheduler.CloneQueue.FinishAt` | samba/vfs_fastdup/vfs_fastdup.c:491-508 | unlinks the job, decrements both counters and completes its fence number |
| `CloneScheduler.CloneQueue.Done` | samba/vfs_fastdup/vfs_fastdup.c:509-530 | retires the returned job and leaves the queue settled again |
| `CloneScheduler.CloneQueue.AddFence` | samba/vfs_fastdup/vfs_fastdup.c:54-66 | a handle gets a zeroed fence on first use and keeps it afterwards |
| `CloneScheduler.CloneQueue.Append` | samba/vfs_fastdup/vfs_fastdup.c:677-698 | the job joins the tail with the next number of its target's fence |
| `CloneScheduler.CloneQueue.OffloadWrite` | samba/vfs_fastdup/vfs_fastdup.c:633-701 | which requests are refused and why: queued exactly with a valid range, resources, fewer than 64 jobs pending and a handle window below 64 numbers; a refusal leaves the queue and every fence as they were, an accepted job leaves the queue settled |
| `CloneScheduler.CloneQueue.Close` | samba/vfs_fastdup/vfs_fastdup.c:721-737 | close is allowed exactly when no queued job targets the handle |
| `CloneSerializability.Serializable` | samba/vfs_fastdup/vfs_fastdup.c:433-555 | for every interleaving of admissions, starts, checks, copies and retirements, files and verdicts are those of running the returned jobs one at a time in arrival order; what a verdict means is AcceptedIff and IntegrityRefusals |
| `CloneSerializability.InsertCommutes` | samba/vfs_fastdup/vfs_fastdup.c:433-441 | a job can be moved before later jobs it does not conflict with, changing neither the files nor any verdict |
| `CloneSerializability.StepKeeps` | samba/vfs_fastdup/vfs_fastdup.c:456-555 | each single step keeps the invariant behind serializability |
| `CommitSafety.NeverOvercommitted` | crates/fastdup-appliance/src/commit_capacity.rs:131-387 | over every run, with each load, limit test and exchange a step of its own: at every state the true free space of each tier covers its floor and everything unretired claims may still write, if and only if no exchange of the run is stale, that is, succeeds although more written bytes were retired on its tier since its test than the test and space gained since left room for |
| `CommitSafety.UndisturbedNeverOvercommits` | crates/fastdup-appliance/src/commit_capacity.rs:361-377 | in particular nothing is over-committed in any run where no retirement takes written bytes of a tier while a reservation on that tier stands between its test and its exchange |
| `CommitRaces.StaleTestOvercommits` | crates/fastdup-appliance/src/commit_capacity.rs:361-377 | the code does over-commit: for every n, a run from 2n free bytes in which an observation and a second reservation fall between the first one's test and exchange ends with n bytes free and 2n promised |
| `CommitSafety.ExchangeSafeIff` | crates/fastdup-appliance/src/commit_capacity.rs:361-377 | one exchange keeps the space safe if and only if it is not stale |
| `CommitSafety.AccountsHold` | crates/fastdup-appliance/src/commit_capacity.rs:131-387 | over every run, stale exchanges included: each counter is its floor plus every outstanding claim, no assertion of the governor fails, and no limit exceeds what is free plus what live claims have written |
| `CommitSafety.ClaimedWriteFits` | crates/fastdup-appliance/src/commit_capacity.rs:131-387 | in every run without a stale exchange, a claim of any kind (in flight, active, frozen or uncheckpointed) that stays within its bytes never finds its tier full and never eats the 64 MiB Metadata floor |
| `CommitSafety.CompletionOutlivesObservation` | crates/fastdup-appliance/src/commit_capacity.rs:145-205 | whatever else happens, a frozen claim that is open, or was completed after the last observation began, is held in full until another observation begins |
| `CommitSafety.UncompletedIsHeld` | crates/fastdup-appliance/src/commit_capacity.rs:145-205 | through any observations, a frozen generation holds exactly what was active at its cut until it is completed |
| `CommitSafety.CompletedIsRetired` | crates/fastdup-appliance/src/commit_capacity.rs:145-205 | the other half of the epoch rule: a claim completed before an observation begins is gone once that observation, or any later one, has made its frozen pass |
| `CommitRaces.LateWriteOvercommits` | crates/fastdup-appliance/src/commit_capacity.rs:145-205 | the epoch rule is needed: for every n, a claim that writes its n bytes after an observation that may retire it has sampled leads to an over-commit |
| `CommitRaces.DroppedMetadataMustBeUnwritten` | crates/fastdup-appliance/src/commit_capacity.rs:328-359 | the promise that dropped Metadata was never written is needed: for every n, a run without it over-commits |
| `CommitSafety.StepKeeps` | crates/fastdup-appliance/src/commit_capacity.rs:131-387 | each step of request path, coordinator, observation and writers keeps the accounts, and keeps a safe state safe exactly when it is no stale exchange |
| `CommitCapacity.FrozenRetiredConserves` | crates/fastdup-appliance/src/commit_capacity.rs:158-187 | retiring exactly the frozen claims completed before the observation keeps every counter equal to floor plus outstanding claims |
| `CommitCapacity.LeftoversRetiredConserves` | crates/fastdup-appliance/src/commit_capacity.rs:189-205 | so does retiring the uncheckpointed bucket, its small-file bytes on Metadata too |
| `CommitCapacity.FreezeConserves` | crates/fastdup-appliance/src/commit_capacity.rs:295-312 | moving the active claims under a token keeps the counters |
| `CommitCapacity.FinishUncheckpointedConserves` | crates/fastdup-appliance/src/commit_capacity.rs:328-359 | the bucket no checkpoint covers keeps the counters, its small-file bytes counted on Metadata too |
| `CommitCapacity.CommitCapacityGovernor.ReserveBounded` | crates/fastdup-appliance/src/commit_capacity.rs:361-377 | undisturbed, however many weak exchanges fail for no reason: what it reserves ends within the limit, what it refuses would have passed it, and a refusal changes nothing |
| `CommitRaces.AloneIsReserveBounded` | crates/fastdup-appliance/src/commit_capacity.rs:361-377 | load, test and exchange with nothing between them admit the same claims as the method, with the same effect, and a refusal leaves no trace |
| `CommitCapacity.CommitCapacityGovernor.SubtractReserved` | crates/fastdup-appliance/src/commit_capacity.rs:378-387 | in-flight bytes are given back without underflow |
| `CommitCapacity.CommitCapacityGovernor.TryReserve` | crates/fastdup-appliance/src/commit_capacity.rs:251-274 | reserves all three tiers or nothing: an admitted claim leaves every tier it charges within its limit, a refused one has a tier where reserved plus claim passes the limit and leaves every counter as it was |
| `CommitCapacity.CommitCapacityGovernor.Cancel` | crates/fastdup-appliance/src/commit_capacity.rs:275-280 | gives a whole in-flight claim back |
| `CommitCapacity.CommitCapacityGovernor.AcceptClaim` | crates/fastdup-appliance/src/commit_capacity.rs:281-289 | moves an in-flight claim into the active generation |
| `CommitCapacity.CommitCapacityGovernor.ReleaseMetadata` | crates/fastdup-appliance/src/commit_capacity.rs:290-294 | releases active Metadata and its reservation together |
| `CommitCapacity.CommitCapacityGovernor.FreezeCut` | crates/fastdup-appliance/src/commit_capacity.rs:295-312 | the active claims become the token's frozen claim |
| `CommitCapacity.CommitCapacityGovernor.CompleteCut` | crates/fastdup-appliance/src/commit_capacity.rs:313-327 | stamps the frozen claim with the current epoch |
| `CommitCapacity.CommitCapacityGovernor.FinishUncheckpointedActive` | crates/fastdup-appliance/src/commit_capacity.rs:328-359 | drops the Metadata no checkpoint will write and adds the physical claims, stamped with the current epoch, to their own bucket; the other counters stay |
| `CommitCapacity.CommitCapacityGovernor.BeginObservation` | crates/fastdup-appliance/src/commit_capacity.rs:131-136 | opens the next epoch |
| `CommitCapacity.CommitCapacityGovernor.RetainPass` | crates/fastdup-appliance/src/commit_capacity.rs:162-183 | the retain loop keeps exactly the unexpired claims and releases the sum of the others |
| `CommitCapacity.CommitCapacityGovernor.RetireFrozenClaims` | crates/fastdup-appliance/src/commit_capacity.rs:158-187 | the frozen half of an observation: expired claims leave the map and every counter, without underflow |
| `CommitCapacity.CommitCapacityGovernor.RetireUncheckpointedClaims` | crates/fastdup-appliance/src/commit_capacity.rs:189-205 | its other half: an expired bucket is emptied and taken off three counters, without underflow |
| `CommitCapacity.CommitCapacityGovernor.FinishObservation` | crates/fastdup-appliance/src/commit_capacity.rs:145-205 | installs the sample and retires exactly the claims completed before it began: what each counter loses is the sum of those claims, and the survivors are untouched |
| `CommitCapacity.CommitCapacityGovernor.FailObservation` | crates/fastdup-appliance/src/commit_capacity.rs:213-222 | a failed observation admits no nonempty claim any more and retires nothing |
| `ProofMap.GenerationProofMap.Find` | crates/fastdup-appliance/src/checkpoint.rs:191-199 | finds the ordinal of a key exactly when the map holds it, whatever the hash function does |
| `ProofMap.GenerationProofMap.Get` | crates/fastdup-appliance/src/checkpoint.rs:186-191 | reads the plain map |
| `ProofMap.GenerationProofMap.Insert` | crates/fastdup-appliance/src/checkpoint.rs:201-228 | stores the new location under its key, keeps every other proof and any recorded exact reuse of that key, and returns the replaced proof |
| `ProofMap.GenerationProofMap.IntoSortedValues` | crates/fastdup-appliance/src/checkpoint.rs:230-236 | lists every proof once, in ascending key order |
| `ProofMap.ListsUnique` | crates/fastdup-appliance/src/checkpoint.rs:230-236 | only one sequence lists a proof set that way, so the historical admission order is determined |
| `DependencyProofs.RunsNeverPanic` | crates/fastdup-appliance/src/checkpoint.rs:285-665 | no schedule of claims, publications, admissions and checkpoints in coordinator order trips an assertion, and every reachable state is sound |
| `DependencyProofs.ClaimedNeverActive` | crates/fastdup-appliance/src/checkpoint.rs:285-665 | in every reachable state a key being published is not Active, and both sets together hold at most 65,536 proofs |
| `DependencyProofs.NoAssertFires` | crates/fastdup-appliance/src/checkpoint.rs:447-665 | in a sound state every assertion of the step about to be taken holds |
| `DependencyProofs.StepKeeps` | crates/fastdup-appliance/src/checkpoint.rs:2364-2463 | each step of publishers and checkpoint coordinator keeps a state sound |
| `DependencyProofs.CancelSafeIffFrozenUnclaimed` | crates/fastdup-appliance/src/checkpoint.rs:447-473 | cancelling a freeze keeps claimed keys out of Active exactly when Frozen holds none of them |
| `DependencyProofs.FrozenMayHoldAClaim` | crates/fastdup-appliance/src/checkpoint.rs:373-431 | inside a commit Frozen can come to hold a claimed key, so a freeze kept from a failed commit must not be cancelled |
| `DependencyProofs.PinnedUntilComplete` | crates/fastdup-appliance/src/checkpoint.rs:281-299 | in every run a proved key stays proved as long as no commit completes while its only proof is Frozen |
| `DependencyProofs.PinnedStep` | crates/fastdup-appliance/src/checkpoint.rs:433-489 | a step lets go of a proved key exactly when it completes a generation and no newer proof is Active |
| `DependencyProofs.PublishedOnce` | crates/fastdup-appliance/src/checkpoint.rs:555-629 | a published chunk whose proof found room is Active with that proof and cannot be claimed for publication again before the commit that owns it completes |
| `DependencyProofs.RememberAllAdmits` | crates/fastdup-appliance/src/checkpoint.rs:605-629 | a batch of new keys is admitted in order exactly as far as the combined budget goes, each with its own proof, and nothing else changes |
| `DependencyProofs.BatchStaysNew` | crates/fastdup-appliance/src/checkpoint.rs:605-629 | each key of a finished batch is claimed and still unproved when its turn comes |
| `OnlineProofs.OnlineDependencyProofs.Admit` | crates/fastdup-appliance/src/checkpoint.rs:285-299 | admits exactly when the combined budget has room or the key is known to its set; the proof is then stored there and every other proof of both sets is as before |
| `OnlineProofs.OnlineDependencyProofs.RememberActive` | crates/fastdup-appliance/src/checkpoint.rs:373-431 | Active admission of a key nobody is publishing: stored in Active exactly when there is budget or Active knows the key |
| `OnlineProofs.OnlineDependencyProofs.RememberFrozen` | crates/fastdup-appliance/src/checkpoint.rs:373-431 | Frozen admission, which may name a key being published: stored in Frozen exactly when there is budget or Frozen knows the key |
| `OnlineProofs.OnlineDependencyProofs.FreezeForCommit` | crates/fastdup-appliance/src/checkpoint.rs:433-445 | Active becomes Frozen unless a failed commit left a Frozen set, which is kept |
| `OnlineProofs.OnlineDependencyProofs.CancelNewFreeze` | crates/fastdup-appliance/src/checkpoint.rs:447-473 | a fresh freeze is merged back: Active keeps its own proofs and gains every other Frozen one, within the budget; an old freeze is left alone |
| `OnlineProofs.OnlineDependencyProofs.CompleteFrozen` | crates/fastdup-appliance/src/checkpoint.rs:475-489 | the Frozen set is handed to history once each, in key order |
| `OnlineProofs.OnlineDependencyProofs.TryClaim` | crates/fastdup-appliance/src/checkpoint.rs:555-591 | one locked pass: acquires exactly an unproved, unclaimed key, waits exactly for a claimed one, else returns the proof it found |
| `OnlineProofs.OnlineDependencyProofs.FinishPublications` | crates/fastdup-appliance/src/checkpoint.rs:593-650 | the verified locations become Active in order exactly as far as the budget goes, each with its own proof, earlier proofs stay, then every claim is released, tripping no assertion |
| `OnlineProofs.OnlineDependencyProofs.AbandonPublications` | crates/fastdup-appliance/src/checkpoint.rs:652-665 | releases exactly the given claims |
| `ClaimOrder.NoDeadlock` | crates/fastdup-appliance/src/checkpoint.rs:549-591 | in every reachable state, whenever some thread is blocked, some claim holder can take a step of its own |
| `ClaimOrder.WaitEnds` | crates/fastdup-appliance/src/checkpoint.rs:549-591 | following who waits for whom from any blocked thread ends at a claim holder that is not blocked |
| `ClaimOrder.NoWaitCycle` | crates/fastdup-appliance/src/checkpoint.rs:549-591 | the wait-for relation has no cycle of any length |
| `ClaimOrder.OneOwner` | crates/fastdup-appliance/src/checkpoint.rs:702-748 | in every reachable state a key is being published exactly when one single thread owns its claim |
| `ClaimOrder.StepKeeps` | crates/fastdup-appliance/src/checkpoint.rs:555-665 | each move of any number of ascending claimants, and of the coordinator beside them, keeps ownership exact and ordered |
| `ExactPublisher.ExactPublicationWorker.Run` | crates/fastdup-appliance/src/checkpoint.rs:1303-1409 | the appended batches build the index that publishing each command singly builds, each fence is answered once, in order and only after everything before it was appended, and joined batches stay within both bounds, ascending and with no entry next to its equal |
| `ExactPublisher.ExactPublicationWorker.HandleOne` | crates/fastdup-appliance/src/checkpoint.rs:1303-1409 | each input keeps the log faithful; nothing but an addition leaves entries uncollected |
| `ExactPublisher.ExactPublicationWorker.Collect` | crates/fastdup-appliance/src/checkpoint.rs:1342-1381 | an addition that fits joins the buffer and appends nothing; one that does not makes the buffer's append first, then waits in a new buffer, or is published alone when it fills one by itself |
| `ExactPublisher.ExactPublicationWorker.FlushCollected` | crates/fastdup-appliance/src/checkpoint.rs:1289-1300 | the buffer is emptied into the log without losing or repeating an effect |
| `ExactPublisher.AppendIsBatch` | crates/fastdup-appliance/src/checkpoint.rs:1238-1287 | sorting and deduplicating a joined batch changes neither its entries as a set nor what its append does, and leaves it in order |
| `ExactIndex.ActiveIsSetInsertion` | crates/fastdup-appliance/src/checkpoint.rs:1238-1287 | appending additions inserts their Locations into a set; order and repetition do not matter |
| `ExactIndex.CanonicalSameUpdate` | crates/fastdup-appliance/src/checkpoint.rs:1246-1261 | the canonical form of a batch of additions is the same update |
| `ExactIndex.DedupIsStrict` | crates/fastdup-appliance/src/checkpoint.rs:1246-1261 | after sorting and deduplication no entry is repeated |
| `ExactIndex.StrictIffKeysIdentify` | crates/fastdup-appliance/src/checkpoint.rs:1246-1261 | a joined append names every key once if and only if its keys identify its entries |
| `ExactIndex.RepeatSurvives` | crates/fastdup-appliance/src/checkpoint.rs:1246-1261 | otherwise a repeated entry can survive: for every two entries that share a key, a batch whose dedup drops nothing |
| `SieveRing.ScanFindsFirstUnvisited` | crates/fastdup-appliance/src/proof_cache_trace.rs:756-784 | the hand's walk clears the visited entries it passes and stops at the first unvisited one in circular order |
| `SieveRing.AdmitEvictsFirstUnvisited` | crates/fastdup-appliance/src/proof_cache_trace.rs:746-804 | a full cache evicts exactly the first unvisited entry in hand order, leaving the hand at its newer neighbour, and refuses exactly when the first min(capacity, 256) are all visited, keeping every resident |
| `SieveRing.LookupProtects` | crates/fastdup-appliance/src/proof_cache_trace.rs:735-784 | a key just looked up is never the victim of the next admission and stays resident |
| `SieveRing.AccessMarks` | crates/fastdup-appliance/src/proof_cache_trace.rs:735-744 | a lookup marks the entry it finds and leaves every other entry and the hand alone |
| `SieveRing.AdmitWithRoom` | crates/fastdup-appliance/src/proof_cache_trace.rs:746-804 | with room to spare a new key arrives newest and unvisited, a resident one changes nothing, and nobody is disturbed |
| `SieveRing.AdmitKeeps` | crates/fastdup-appliance/src/proof_cache_trace.rs:746-804 | residency changes by the new key and at most one victim; bounds, distinctness and a live hand are kept |
| `Sieve.RemovedKeeps` | crates/fastdup-appliance/src/proof_cache_trace.rs:709-732 | unlinking a node keeps the arena a doubly linked list in bijection with its index, moves the hand off the victim and frees its slot |
| `Sieve.PushedKeeps` | crates/fastdup-appliance/src/proof_cache_trace.rs:786-804 | linking a new head reuses a free slot or grows the arena, and keeps the list, the index and the hand |
| `Sieve.VisitedKeeps` | crates/fastdup-appliance/src/proof_cache_trace.rs:735-744 | setting a visited bit keeps the arena well formed |
| `Sieve.ViewIsValid` | crates/fastdup-appliance/src/proof_cache_trace.rs:669-690 | every well-formed arena stands for a valid ring of at most `capacity` entries |
| `Sieve.SieveCache.Access` | crates/fastdup-appliance/src/proof_cache_trace.rs:735-744 | reports exactly whether the key is resident and sets the visited bit of the one node that holds it; no other slot and no link changes |
| `Sieve.SieveCache.FindVictim` | crates/fastdup-appliance/src/proof_cache_trace.rs:756-784 | the slot walk is the ring's walk |
| `Sieve.SieveCache.Evict` | crates/fastdup-appliance/src/proof_cache_trace.rs:756-785 | the walk and the unlinking together are the ring's eviction: one victim leaves and the hand moves before it, or nobody does |
| `Sieve.SieveCache.Remove` | crates/fastdup-appliance/src/proof_cache_trace.rs:709-732 | removes exactly the victim |
| `Sieve.SieveCache.PushFront` | crates/fastdup-appliance/src/proof_cache_trace.rs:786-804 | inserts the key at the head |
| `Sieve.SieveCache.Admit` | crates/fastdup-appliance/src/proof_cache_trace.rs:746-804 | the arena implementation admits, evicts and refuses as the ring does, within min(capacity, 256) steps |
| `S3Queues.SmallCachesNeverReject` | crates/fastdup-appliance/src/proof_cache_trace.rs:620-658 | with capacity at most 85 no admission is refused, and a full cache offered a new key evicts exactly one entry |
| `S3Queues.LargeCachesCanReject` | crates/fastdup-appliance/src/proof_cache_trace.rs:620-658 | 85 is exact: every larger capacity has a run of offers and lookups that ends in a refusal |
| `S3Queues.PotentialDrops` | crates/fastdup-appliance/src/proof_cache_trace.rs:556-608 | every step that does not evict lowers the number of small entries plus the uses left in main by exactly one |
| `S3Queues.PotentialBuysRoom` | crates/fastdup-appliance/src/proof_cache_trace.rs:620-634 | the loop finds a victim within one step more than that potential |
| `S3Queues.EvictOneKeeps` | crates/fastdup-appliance/src/proof_cache_trace.rs:556-608 | small and main keep partitioning the residents; the evicted keys stay distinct, bounded and non-resident; at most one resident leaves |
| `S3Queues.AdmitKeeps` | crates/fastdup-appliance/src/proof_cache_trace.rs:620-658 | an admission keeps the queues in order and accounts for every resident |
| `S3Queues.BusyMainRejects` | crates/fastdup-appliance/src/proof_cache_trace.rs:556-634 | a full main queue refuses while every entry still has uses to give up within the step limit |
| `S3Chances.TwoLookupsPromote` | crates/fastdup-appliance/src/proof_cache_trace.rs:556-590 | a new key at the front of a full small queue goes to the main queue exactly after two lookups or more; with fewer it leaves and is the newest remembered key |
| `S3Chances.LookupsBuyTurns` | crates/fastdup-appliance/src/proof_cache_trace.rs:591-618 | at the front of the main queue each lookup, three at most, buys one more turn; without one the key leaves and is not remembered |
| `S3Chances.SecondChance` | crates/fastdup-appliance/src/proof_cache_trace.rs:620-658 | a key offered again while it is remembered, and not next to be forgotten, goes to the main queue, whatever has to be evicted for it |
| `S3Chances.EvictedComesBackToMain` | crates/fastdup-appliance/src/proof_cache_trace.rs:570-658 | over one eviction and one offer: a key let go of the small queue and published again is back in main |
| `S3Chances.FirstChance` | crates/fastdup-appliance/src/proof_cache_trace.rs:635-657 | published for the first time, or forgotten since, a key goes to the small queue |
| `S3Chances.ReuseGoesToMain` | crates/fastdup-appliance/src/proof_cache_trace.rs:635-657 | an exact reuse goes to the main queue whatever is remembered of it |
| `S3Fifo.S3Cache.EvictNext` | crates/fastdup-appliance/src/proof_cache_trace.rs:556-608 | the in-place step pops a nonempty queue and is the modelled one; its impossible-state errors cannot occur |
| `S3Fifo.S3Cache.NoteEvicted` | crates/fastdup-appliance/src/proof_cache_trace.rs:583-587 | the trimming loop keeps the newest evicted keys up to the ghost target |
| `S3Fifo.S3Cache.MakeSpace` | crates/fastdup-appliance/src/proof_cache_trace.rs:628-634 | the bounded eviction loop counts steps and evictions and refuses at the limit as modelled |
| `S3Fifo.S3Cache.Place` | crates/fastdup-appliance/src/proof_cache_trace.rs:635-657 | a key seen among the evicted, or reused exactly, goes to main, any other to small |
| `S3Fifo.S3Cache.Offer` | crates/fastdup-appliance/src/proof_cache_trace.rs:620-658 | the whole admission is the modelled one |
| `S3Fifo.S3Cache.Touch` | crates/fastdup-appliance/src/proof_cache_trace.rs:612-618 | a hit raises the use count up to three |
| `TraceFormat.DecodeEncode` | crates/fastdup-appliance/src/proof_cache_trace.rs:129-248 | every valid trace is read back from its own image |
| `TraceFormat.EncodeDecode` | crates/fastdup-appliance/src/proof_cache_trace.rs:191-248 | whatever decodes is a valid trace whose image is the same bytes |
| `TraceFormat.AcceptsExactlyImages` | crates/fastdup-appliance/src/proof_cache_trace.rs:105-248 | decoding accepts exactly the images of valid traces, each as its one trace |
| `TraceFormat.ImageLayout` | crates/fastdup-appliance/src/proof_cache_trace.rs:129-183 | where everything is: magic, version, sizes, count and digest at their header offsets, and event i in its own 56 bytes, numbers little-endian |
| `TraceCodec.Encode` | crates/fastdup-appliance/src/proof_cache_trace.rs:129-183 | the buffer filled by offset ends up as the trace's image |
| `TraceCodec.PutRecord` | crates/fastdup-appliance/src/proof_cache_trace.rs:168-179 | one record is written in its place and nothing else changes |
| `TraceCodec.DecodeRecords` | crates/fastdup-appliance/src/proof_cache_trace.rs:220-247 | the record loop is the record grammar, errors included |
| `TraceCodec.Decode` | crates/fastdup-appliance/src/proof_cache_trace.rs:191-248 | the outcome, errors included, is the format's, and success means exactly an image |
| `TraceReplay.Replay` | crates/fastdup-appliance/src/proof_cache_trace.rs:399-483 | drives a new cache of the chosen policy, the SIEVE arena or the S3-FIFO queues, through its own operations: it fails exactly for a budget below one proof or a key admitted with two spans, and otherwise reports the reference tally; neither overflow nor an impossible policy state can occur |
| `TraceReplay.ReplayInto` | crates/fastdup-appliance/src/proof_cache_trace.rs:424-483 | the event loop over the live cache keeps it in step with the modelled policy and the tally with the reference |
| `TraceReplay.Remember` | crates/fastdup-appliance/src/proof_cache_trace.rs:485-496 | the span catalog refuses exactly a key admitted with another span and knows the span of every admitted key |
| `TraceReplay.Serve` | crates/fastdup-appliance/src/proof_cache_trace.rs:432-480 | one event through the live cache: the tally counts exactly what the modelled policy does with it, within 64 bits |
| `TraceReplay.ReplayBalances` | crates/fastdup-appliance/src/proof_cache_trace.rs:399-483 | hits and misses make up the lookups, each hit avoids at least a byte, residents are admissions less duplicates, refusals and evictions, never above capacity |
| `TraceReplay.TallyMeans` | crates/fastdup-appliance/src/proof_cache_trace.rs:432-480 | hits and misses are the lookups that find their key resident or not, the avoided and required bytes are the sums of the spans known for those keys at that moment, and the step count is the maximum over the admissions |
| `TraceReplay.EventsPlace` | crates/fastdup-appliance/src/proof_cache_trace.rs:432-480 | under S3-FIFO a published key starts in the small queue unless remembered, an exact reuse goes to main, and a lookup of a non-resident changes nothing |
| `TraceReplay.CatalogNext` | crates/fastdup-appliance/src/proof_cache_trace.rs:485-496 | the span catalog reports a conflict exactly when the key was admitted with another span, and gives the span of every known key |
| `TraceReplay.AdmitKeeps` | crates/fastdup-appliance/src/proof_cache_trace.rs:510-530 | both policies account for every resident and admit nothing but the offered key |
| `ManifestExtents.ValidatePartition` | crates/fastdup-format/src/manifest.rs:283-323 | accepts exactly the partitions whose extents are valid and whose lengths sum to the file length |
| `ManifestExtents.NewFlatRecipe` | crates/fastdup-store/src/manifest_reader.rs:74-108 | records the cumulative end of every extent, or none for a single one |
| `ManifestExtents.Intersecting` | crates/fastdup-store/src/manifest_reader.rs:110-128 | the window found by bisection and its start |
| `ManifestExtents.RangeIsIntersection` | crates/fastdup-store/src/manifest_reader.rs:110-128 | the window holds exactly the extents that intersect the range |
| `ManifestExtents.ReadRange` | crates/fastdup-store/src/manifest_reader.rs:161-178 | the window's extents at their file positions |
| `ManifestExtents.RangeAgrees` | crates/fastdup-store/src/manifest_reader.rs:161-178 | every located extent tells the truth about the file's bytes |
| `CloneExtents.CloneReproducesBytes` | crates/fastdup-appliance/src/manifest_file.rs:76-172 | an accepted clone tiles the range in order, stays inside its chunks, names its manifest and concatenates to the file's bytes, whoever looked the extents up |
| `CloneExtents.ValidFileClones` | crates/fastdup-appliance/src/manifest_file.rs:76-172 | in a valid manifest a range clones exactly when no hole lies under it, and nothing fails |
| `CloneExtents.RecipeExact` | crates/fastdup-appliance/src/manifest_file.rs:112-151 | whole chunk, slice and fill recipes stay inside their chunk and yield exactly the clipped bytes |
| `CloneExtents.PrepareLocated` | crates/fastdup-appliance/src/manifest_file.rs:92-171 | the loop with its early returns is the extent-by-extent walk |
| `CloneExtents.PreparedCloneExtents` | crates/fastdup-appliance/src/manifest_file.rs:76-172 | the whole call: which error for which bad range, none otherwise, and the bytes of a successful clone |
| `PoolBinding.InitializationIsCrashSafe` | crates/fastdup-appliance/src/pool_binding.rs:47-100 | from blank roots, after any number of attempts cut anywhere by power loss or a killed process, the next uninterrupted attempt returns both roots under one appliance and distinct pools and replaces no durable identity; it binds them for good if and only if the identities it read were durable, as they are whenever the last cut was a power loss |
| `PoolBinding.BindingIsForever` | crates/fastdup-appliance/src/pool_binding.rs:47-114 | once both identities are durable, every later attempt, however it ends, returns and leaves the same binding |
| `PoolBinding.ReturnedBindingCanBeLost` | crates/fastdup-appliance/src/pool_binding.rs:47-100 | a binding that was returned can be lost: from any blank roots, an attempt killed between publication and root sync, a successful open and a power loss leave the Metadata root without identity |
| `PoolBinding.OpenFinishes` | crates/fastdup-appliance/src/pool_binding.rs:47-100 | an uninterrupted open returns a consistent pair, bound if and only if what it read was durable |
| `PoolBinding.CutRecovers` | crates/fastdup-appliance/src/pool_binding.rs:47-100 | an attempt cut after any number of storage operations, by power loss or a killed process, leaves roots that can be opened and every durable identity |
| `PoolBinding.StageStep` | crates/fastdup-appliance/src/pool_binding.rs:232-258 | each storage operation of a publication can be carried out and advances it |
| `PoolBinding.StageCrash` | crates/fastdup-appliance/src/pool_binding.rs:232-258 | whatever a power loss keeps of a publication, the root holds that complete identity or none |
| `PoolBinding.OpenableBegins` | crates/fastdup-appliance/src/pool_binding.rs:47-100 | openable roots are never refused, and identities already there are kept |
| `PoolBinding.BegunIff` | crates/fastdup-appliance/src/pool_binding.rs:47-114 | a pair is taken on if and only if every identity present decodes under its own role, two identities share one appliance and differ in pool, and a root without one holds bootstrap names only; a refusal names a rule the pair breaks |
| `PoolBinding.OpenableIffAcceptable` | crates/fastdup-appliance/src/pool_binding.rs:47-114 | for roots at rest, the pairs an open takes on are exactly the ones the crash theorems start from |
| `PoolBinding.MetadataFirst` | crates/fastdup-appliance/src/pool_binding.rs:55-98 | the Data root is not touched before the Metadata root is finished |
| `PoolInitializer.StorageRoot.PublishIdentity` | crates/fastdup-appliance/src/pool_binding.rs:232-258 | whatever the root, the read-back finds the record just published and only the backend can stop the publication; from a root ready for it the identity ends durable |
| `PoolInitializer.StorageRoot.RequireBootstrapOnly` | crates/fastdup-appliance/src/pool_binding.rs:211-230 | accepts exactly roots that hold bootstrap names only |
| `PoolInitializer.Decide` | crates/fastdup-appliance/src/pool_binding.rs:51-98 | decides before the first mutation: succeeds exactly for an acceptable pair, and otherwise names a rule the pair breaks |
| `PoolInitializer.InitializeOrOpen` | crates/fastdup-appliance/src/pool_binding.rs:47-100 | a pair that is not acceptable, such as a populated root without identity, is refused for a rule it breaks and left untouched; an acceptable one can be stopped only by the backend, keeps every root that had an identity as it was, and ends with the records returned; openable roots are bound for good exactly when what was read was durable |
| `OnlineGc.SchedulerKeepsPromises` | crates/fastdup-appliance/src/online_gc.rs:733-866 | over every run with a nondecreasing clock, from any start: the waits stay in range, urgent admissions and window starts keep their distance, and the latch says what the poll history says |
| `OnlineGc.WindowIsCircular` | crates/fastdup-appliance/src/online_gc.rs:73-80 | a window, wrapping midnight or not, holds exactly the minutes reached going forward from its start before its end |
| `OnlineGc.WaitsKept` | crates/fastdup-appliance/src/online_gc.rs:558-584 | the DATA wait stays between the smaller of base and delete interval, and the maximum; it is due at most one wait ahead |
| `OnlineGc.WaitDoubles` | crates/fastdup-appliance/src/online_gc.rs:569-861 | in any run, whatever polls, metadata runs, immediate requests and forced runs lie between, k unforced DATA runs that do not pay off leave the wait doubled k times, capped at the maximum, as long as no poll sees a new delete and no run pays off |
| `OnlineGc.DeletesBringDataDue` | crates/fastdup-appliance/src/online_gc.rs:748-764 | a poll that sees new deletes leaves DATA due within the delete interval |
| `OnlineGc.ForcedLengthensIff` | crates/fastdup-appliance/src/online_gc.rs:569-584 | a forced run lengthens the wait exactly when it pays off while the wait is below the base |
| `OnlineGc.ForcedKeepsWait` | crates/fastdup-appliance/src/online_gc.rs:851-861 | with a delete interval not below the base, no forced DATA run ever lengthens the wait |
| `OnlineGc.ForcedCanLengthen` | crates/fastdup-appliance/src/online_gc.rs:748-861 | with any shorter delete interval, a delete followed by a profitable forced run does lengthen it |
| `OnlineGc.LatchKept` | crates/fastdup-appliance/src/online_gc.rs:765-770 | the pressure latch means: the high mark was reached and no later poll was at or below the low mark |
| `OnlineGc.UrgentKept` | crates/fastdup-appliance/src/online_gc.rs:777-866 | every urgent admission is at least the urgent interval after the start, every earlier urgent admission and every earlier immediate request, and happens under the latch |
| `OnlineGc.WindowKept` | crates/fastdup-appliance/src/online_gc.rs:790-824 | with a daily window, non-urgent DATA starts happen inside it and at least its interval apart, short of the last representable instant |
| `GcScheduler.AdaptivePhase.Record` | crates/fastdup-appliance/src/online_gc.rs:569-584 | the wait never passes the maximum, falls only to the base and only after a run that paid off, and the phase is due within one wait |
| `GcScheduler.OnlineGcScheduler.Observe` | crates/fastdup-appliance/src/online_gc.rs:740-770 | new deletes bring the DATA wait down to the delete interval and DATA due within it; the latch is on exactly when the high mark is reached, or it was on and usage is above the low mark; the activity time moves exactly with the operation counter; all waits stay in range |
| `GcScheduler.OnlineGcScheduler.Poll` | crates/fastdup-appliance/src/online_gc.rs:733-832 | what is due must be admitted and nothing else: under the latch everything, exactly a full urgent interval after whatever last restarted it; otherwise exactly the due phases, DATA under a daily window inside it and past its interval, as idle work exactly after the idle interval without activity |
| `GcScheduler.OnlineGcScheduler.RecordMetadataRun` | crates/fastdup-appliance/src/online_gc.rs:838-847 | the metadata wait stays between base and maximum and the phase is due within it; DATA is untouched |
| `GcScheduler.OnlineGcScheduler.RecordImmediateStart` | crates/fastdup-appliance/src/online_gc.rs:863-866 | whatever is observed, no poll admits an urgent quantum before the urgent interval has passed again |
| `GcScheduler.OnlineGcScheduler.RecordDataRun` | crates/fastdup-appliance/src/online_gc.rs:851-861 | the wait returns to the base exactly when the freed share of the used bytes of the last poll reaches the minimum, else doubles up to the maximum or stays when forced; it stays in range and the phase is due within it |
| `GcPolicy.SavingsAreAShare` | crates/fastdup-appliance/src/online_gc.rs:851-861 | a run reaches the minimum exactly when ten thousand times the freed bytes, saturating at 64 bits, are at least that many times the used bytes |
| `DurabilitySupervisor.NeverStale` | crates/fastdup-appliance/src/checkpoint_trigger.rs:83-107 | in every run the supervisor never waits once two seconds have passed since the last recorded attempt |
| `DurabilitySupervisor.WaitsAreShort` | crates/fastdup-appliance/src/checkpoint_trigger.rs:121-155 | every wait is positive and at most two seconds |
| `DurabilitySupervisor.CommitsIff` | crates/fastdup-appliance/src/checkpoint_trigger.rs:83-155 | a commit is due exactly when two dirty seconds, a half-second-old sealed container, eight sealed containers or two seconds since the last attempt are reached |
| `DurabilitySupervisor.WaitIsTight` | crates/fastdup-appliance/src/checkpoint_trigger.rs:147-155 | no wait is longer than needed: until it ends only the age of the last attempt can come due |
| `DurabilitySupervisor.WaitingEnds` | crates/fastdup-appliance/src/checkpoint_trigger.rs:83-155 | looking again exactly when told, with the same dirt and sealed container still there, commits |
| `DurabilitySupervisor.PausesIff` | crates/fastdup-appliance/src/checkpoint_trigger.rs:83-131 | admission is closed exactly when the unbroken streak of dirty observations began five seconds ago or more |
| `DurabilitySupervisor.PromptNeverPauses` | crates/fastdup-appliance/src/checkpoint_trigger.rs:83-155 | a caller that looks again no later than told never has to close admission |
| `DurabilitySupervisor.TrackedSince` | crates/fastdup-appliance/src/checkpoint_trigger.rs:88-112 | what the supervisor remembers is the start of the current dirty streak in the history |
| `DurabilitySupervisor.Supervisor.Observe` | crates/fastdup-appliance/src/checkpoint_trigger.rs:83-107 | waits exactly while nothing is due: last attempt and tracked dirt under two seconds old, sealed container under half a second, fewer than eight sealed; a wait is positive and at most two seconds; admission closes exactly at five seconds of tracked dirt; a commit names the first reason that holds |
| `DurabilitySupervisor.Supervisor.RecordCheckpointAttempt` | crates/fastdup-appliance/src/checkpoint_trigger.rs:109-112 | for two seconds afterwards only sealed containers can call for another attempt |

## Left out

- Samba runtime around the scheduler: request detachment, descriptors, memory
  contexts, callbacks that re-enter the scheduler, and writers other than queued
  clone jobs.
- The integrity attribute and control-code byte formats of the Samba module.
- CloneScheduler.CloneQueue.OffloadWrite: the token lookup, user switch and
  descriptor duplication are one flag that may fail; which error they report is not
  modelled.
- CloneSerializability.Serializable: a copy is one atomic step, and a job whose
  submission failed takes no part.
- CommitCapacity.CommitCapacityGovernor.ReserveBounded: the method itself runs
  undisturbed, with weak exchanges that may fail for no reason; other threads between
  its load, test and exchange are the steps of CommitWorld.
- CommitSafety.StepKeeps: within one retirement pass the three counters are reduced in
  one step, and memory orderings weaker than sequential consistency are not modelled.
- OnlineProofs.OnlineDependencyProofs.TryClaim: waiting on the condition variable is
  a result the caller retries; ClaimOrder models the waiting threads. The cancelled
  keys' data-reference guards, the historical cache behind completion and the trace
  recorder are not modelled.
- ExactPublisher.ExactPublicationWorker.Run: appends succeed; failed appends with the
  degraded flag, similarity batches and the overlay of recent entries are not
  modelled. A batch is sorted by one number standing for the ordered location fields.
- TraceReplay.Replay: allocation failure is not modelled.
- CloneExtents.PreparedCloneExtents: the file is backed by a flat manifest; for a
  manifest tree only CloneReproducesBytes applies, to whatever extents the tree
  walk returns. Allocation failure is not modelled.
- PoolBinding.InitializationIsCrashSafe: an attempt ends by success, refusal or
  crash; an input or output error that leaves the process running is not modelled.
  File contents are one complete record or bytes that do not decode.
- Pool audit without initialization, and the file-type checks on a real filesystem.
- OnlineGc.SchedulerKeepsPromises: the status counters of the scheduler are not modelled.
- Manifest trees, container and generation repositories, the metadata format and the
  namespace: used only through what the modelled code assumes of them.
- The control plane, authentication, telemetry, mount recovery, small-file policy and
  short decision functions such as the statfs and cache-window arithmetic: they would
  only add easy members.
