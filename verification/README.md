# Rollup starter: verified models

This project models the parts of the rollup starter repository that hold its hard logic, and proves what
they keep over all inputs and all runs.

- **Versioned replay** (`Ledger`, `Resync`, `ResyncGuarantees`, `ResyncProgress`). The acceptance test replays a rollup across
  several versions against recorded slot snapshots. The environment is adversarial: it chooses the slot
  notifications (in any order, also backwards), stream drops, shutdowns, reconnect failures and every answer of
  the ledger API, as a function of the number of fetches made so far. A run over a finite list of notifications
  that is not over yet is `Pending`, so statements about all runs are statements about all prefixes.
- **Snapshot files and plan** (`Decimals`, `SnapshotFiles`, `RunPlan`, `AppendGate`). File names and the
  directory scan, version height ranges, migration boundaries, and the two gates that decide whether a new
  version's data may be appended.
- **Append generation** (`Soak`, `SoakGuarantees`, `SoakEnds`, `RollupProcess`, `Append`). The soak run with its one-time
  backfill, throughput accounting and teardown, the escalating process shutdown, and the loop that is closed
  over any number of hard forks.
- **Workers** (`SoakWorkers`, `EvmWorkers`, `HeightErrors`). Worker id segments, worker keys, the
  compare-and-set workers against their contract, and the parser for rejected state assertions.
- **Slot generator** (`LcgPeriod`, `StorageTester`). The full-period theorem of Hull and Dobell (Knuth, The Art of
  Computer Programming, vol. 2, section 3.2.1.2, Theorem A) for moduli 2^w, applied to the storage tester.
- **Bytecode generator** (`MiniEvm`, `LargeBytecode`). A small EVM (Ethereum Yellow Paper, Appendix H.2) on which the
  generated creation code is run.
- **JSON transformer** (`JsonTypes`, `JsonGuarantees`, `JsonRoundTrip`, `JsonResults`). The type-directed `transform` of the
  generated bindings, against a declarative meaning of its types.

Code that works step by step is modelled by methods with the same loops, each proved equal to a specification
function; the guarantees are lemmas about those functions. `dafny verify dfyconfig.toml` checks everything.

Where code and documentation disagree, the code is modelled:

- The bytecode generator says its runtime is a single STOP. Its declared creation lengths (11, 12, 13) are shorter
  than the real headers (13, 15, 17), so deployed code starts with header bytes (`LargeBytecode.BeginsWithStopIff`,
  `LargeBytecode.TwoByteSizesUnderflow`). Only the deployed length is as promised.
- The no-progress guard is described as turning a crash loop into a hard error. For any notifications it bounds the
  reconnects by the slots still ahead plus what earlier notifications moved `checked` back
  (`ResyncProgress.RegressBoundsReconnects`). If they can move it back for ever there is no bound, even over recorded
  data with a healthy ledger, exactly if the data ends at slot 2 or later (`ResyncProgress.GuardIsEvadableIff`).
- A resync is described as finishing when the final recorded snapshot has been verified. If a snapshot is missing among
  trailing slots it finishes at the gap (`ResyncGuarantees.ExactIffCovered`). No batch is behind the gap then, unless the
  data ends at height 1 and its one batch is (`ResyncGuarantees.EarlyExitIsHarmlessIff`,
  `ResyncGuarantees.EarlyExitCanSkipABatch`).

## Model

| member | source | states |
|---|---|---|
| Ledger.PatchedComparisonIsReplay | scripts/acceptance-test/src/lib.rs:713-758 | The boundary patch plus the strict comparison accepts exactly the live slots that agree with the snapshot in every field, except the state root at a slot that carries a boundary batch: leniency is one field wide |
| ResyncGuarantees.AcceptedIff | scripts/acceptance-test/src/lib.rs:713-758 | For n versions of b blocks a live slot is accepted if and only if it equals its snapshot but for the root, and the root differs only where batches are carried that end at k*b with 1 <= k < n |
| ResyncGuarantees.MigratedRootsAreAccepted | scripts/acceptance-test/src/lib.rs:713-758 | A ledger that answers exactly, apart from roots of such slots, never ends a run in a mismatch, whatever the notifications |
| ResyncGuarantees.OtherDifferencesAreFatal | scripts/acceptance-test/src/lib.rs:713-758 | Any fetched answer that differs elsewhere, or in the root of another slot, is the last of its run and the run fails with that mismatch |
| SnapshotFiles.NameRoundTrip | scripts/acceptance-test/src/fetch_and_compare.rs:99-100 | The directory scan recovers every u64 slot number from the zero-padded name it is saved under, and no larger number |
| SnapshotFiles.ScannedNamesAre | scripts/acceptance-test/src/versioned_setup.rs:149-153 | The scan reads exactly the names made of "slot_", digits of the number (perhaps behind a plus sign) and "_with_children.json" |
| SnapshotFiles.ForeignNamesParse | scripts/acceptance-test/src/versioned_setup.rs:149-153 | The scan also accepts names saving never writes (other paddings, a plus sign), which have another spelling than the one the loader looks for |
| SnapshotFiles.SavingUpdatesOneNumber | scripts/acceptance-test/src/fetch_and_compare.rs:96-105 | Writing a snapshot file changes the slot map at exactly that slot number |
| SnapshotFiles.SnapshotDir.SaveSlotSnapshot | scripts/acceptance-test/src/fetch_and_compare.rs:96-105 | The directory afterwards holds the old slots with this one added or replaced, and one file changed |
| SnapshotFiles.ScanRecordedDataBounds | scripts/acceptance-test/src/versioned_setup.rs:139-176 | Whatever the order of directory entries: no bounds if no name parses, else the largest parsed number with its snapshot's batch end, or an error if the loader does not find that number |
| SnapshotFiles.ScanFindsLargestSavedSlot | scripts/acceptance-test/src/versioned_setup.rs:139-176 | On success the bounds are the largest saved slot and its cumulative batch end; the scan fails if and only if a foreign name outranks every saved slot |
| SnapshotFiles.SavingKeepsTheLead | scripts/acceptance-test/src/fetch_and_compare.rs:96-105 | If no foreign name outranks the saved slots, none does after another slot is saved |
| RunPlan.PrepareAcceptanceRunPlan | scripts/acceptance-test/src/versioned_setup.rs:483-513 | Recorded data is accepted if and only if it ends at (n-1)*B or n*B; version i (from 0) then starts at i*B+1 (the first at genesis) and stops at (i+1)*B, with 20 soak workers per version from salt 3 and 5 safety blocks |
| RunPlan.VersionRangesPartitionHistory | scripts/acceptance-test/src/versioned_setup.rs:507-513 | Every height in 1..n*B is produced by exactly one version and no other height by any; this survives every extension of the last stop height, which moves only the end; migration boundary counts are the non-last stop heights before and after |
| RunPlan.ExtendLastStopHeight | scripts/acceptance-test/src/versioned_setup.rs:689-704 | As many versions, all but the last unchanged, the last with the same start and a stop height larger by the extra blocks |
| RunPlan.ConsecutivePartitions | scripts/acceptance-test/src/versioned_setup.rs:507-513 | Any list of versions that follow one another without gap or overlap partitions the heights up to its last stop |
| AppendGate.GateByHeight | scripts/acceptance-test/src/bin/setup.rs:412-422 | The append gate in height terms, including the one end height (0) that saturation cannot tell from height 1 |
| AppendGate.GatesAgree | scripts/acceptance-test/src/bin/setup.rs:427-463 | On data the plan check accepts, the append gate answers "safe" for (n-1)*B, "already contains the last version" for n*B, and never "incomplete" |
| AppendGate.PrepareSetupRun | scripts/acceptance-test/src/bin/setup.rs:152-201 | The full decision table of the setup mode: from genesis, append, or refusal with its reason, as a function of the scan, the number of versions and the block span |
| Resync.ReconnectAfterHandover | scripts/acceptance-test/src/lib.rs:579-605 | Refuses exactly a second reconnect at the same compared slot; otherwise records the slot and attempts to reconnect |
| Resync.ResyncAndVerifySlots | scripts/acceptance-test/src/lib.rs:620-777 | The nested loops compute the outcome and fetch log of the replay machine, for every environment |
| ResyncGuarantees.ResyncCoverage | scripts/acceptance-test/src/lib.rs:639-769 | Ok with first new slot f: every slot below f with a snapshot was fetched live (with children exactly if its snapshot has them) and replayed it; every slot without one is below 10; across any reconnects and any backward moves of `checked` |
| ResyncGuarantees.MismatchesAreFatal | scripts/acceptance-test/src/lib.rs:724-758 | A run fails with a mismatch exactly when its last fetch did not replay its snapshot; in every other run all answered fetches replayed |
| ResyncGuarantees.ResyncIsDetermined | scripts/acceptance-test/src/lib.rs:639-769 | Confluence: apart from failures the environment causes, every run of the same directory and plan has the same outcome, at the unique frontier of the recorded data, with the batch number of the newest snapshot below it |
| ResyncGuarantees.FrontierIsUnique | scripts/acceptance-test/src/lib.rs:662-685 | The first gap from slot 10 on, or the slot after the final snapshot, is one well-defined place |
| ResyncGuarantees.VerdictInNumbers | scripts/acceptance-test/src/lib.rs:662-767 | The run succeeds at the frontier exactly if the newest snapshot before it ends at the recorded end height (without recorded data: at B) or later, or that height is at most 1; otherwise it names a missing snapshot, or too few batches at the final one |
| ResyncGuarantees.ResyncIsExact | scripts/acceptance-test/src/lib.rs:662-767 | With bounds from the same directory and slots 10..L covered, each Ok result is exactly (E-1 saturating, L+1), and the missing-snapshot exit and both batch-count failures are unreachable |
| ResyncGuarantees.ExactIffCovered | scripts/acceptance-test/src/lib.rs:662-767 | That exact result is prescribed if and only if no snapshot from slot 10 to L is missing |
| ResyncGuarantees.EarlyExitIsHarmlessIff | scripts/acceptance-test/src/lib.rs:662-685 | If a gap before L ends the replay successfully, no slot behind it moves the cumulative batch end (recorded ones are empty, missing ones carried nothing) if and only if E is not 1, or is 1 already before the gap |
| ResyncGuarantees.EarlyExitSkipsOnlyEmptySlots | scripts/acceptance-test/src/lib.rs:662-685 | For E other than 1: every snapshot behind such a gap is empty and ends at E |
| ResyncGuarantees.EarlyExitCanSkipABatch | scripts/acceptance-test/src/lib.rs:662-685 | For E = 1: one version of one block, recorded in slot 11 alone, is reported as resynced at slot 10 with no slot fetched |
| ResyncProgress.EachNotification | scripts/acceptance-test/src/lib.rs:639-769 | What each notification makes of a waiting run: a shutdown ends it, a dropped stream or an unanswered fetch is a hard error at the slot of the previous reconnect and one reconnect attempt elsewhere, and any other delivery moves `checked` or ends the run without a reconnect |
| ResyncProgress.StartupFailsIff | scripts/acceptance-test/src/lib.rs:629-633 | A run fails at startup exactly if the rollup does not come up |
| ResyncProgress.StepDecreases | scripts/acceptance-test/src/lib.rs:586-592 | (L - checked, reconnect still allowed) decreases lexicographically on every outer iteration that neither errors nor breaks, if the slot number moves forward; any other iteration loses at most its regress |
| ResyncProgress.RegressBoundsReconnects | scripts/acceptance-test/src/lib.rs:586-592 | For every sequence of notifications and every environment: reconnects are at most the slots ahead, plus one, plus the total regress (distance moved back, plus one, per backward step); a run that still waits has consumed a bounded number of notifications |
| ResyncProgress.ResyncTerminates | scripts/acceptance-test/src/lib.rs:639-769 | If delivered slot numbers increase strictly, or just exceed `checked`, a run is over after 2L+2 notifications and makes at most L+1 reconnects |
| ResyncProgress.StaleNotificationsEvadeTheGuard | scripts/acceptance-test/src/lib.rs:577-592 | Over recorded data that ends at slot 2 or later, with a ledger that always answers and replays it: stale notifications keep a run reconnecting 2n times for every n |
| ResyncProgress.GuardIsEvadableIff | scripts/acceptance-test/src/lib.rs:577-592 | In such an environment the number of reconnects is unbounded if and only if the data ends at slot 2 or later |
| ResyncProgress.HandoversAreBridged | scripts/acceptance-test/src/lib.rs:567-605 | If whatever the ledger answers replays the snapshots, a run survives any number of stream drops and ledger failures, none at the `checked` of the one before, and ends with the prescribed outcome |
| ResyncGuarantees.BoundaryCountHasOneCarrier | scripts/acceptance-test/src/lib.rs:723-732 | Each boundary count is carried by one slot; later slots with the same cumulative end are empty and compared strictly |
| ResyncGuarantees.RootLeniencyIsBounded | scripts/acceptance-test/src/lib.rs:731-751 | With chained batch ranges at most (versions - 1) slots skip the root comparison |
| RollupProcess.ManagedRollupProcess.Shutdown | scripts/acceptance-test/src/lib.rs:823-851 | Nothing for a reaped child; otherwise SIGTERM and a wait of 30 s, and if that runs out SIGKILL and 2 s more; the result is that of the wait that decided, Ok only for a reaped child |
| RollupProcess.ManagedRollupProcess.EnsureStopped | scripts/acceptance-test/src/lib.rs:853-872 | The same after a first wait of 30 s for a natural exit, which decides if it does not run out; waits total at most 62 s, below the 90 s top-level abort |
| RollupProcess.ManagedRollupProcess.Drop | scripts/acceptance-test/src/lib.rs:875-881 | Leaves the child reaped or sent SIGKILL |
| RollupProcess.CombineSoakErrors | scripts/acceptance-test/src/lib.rs:958-983 | None exactly when nothing failed; a lone error unchanged; otherwise every error is mentioned |
| Soak.BackfillMissingSnapshots | scripts/acceptance-test/src/lib.rs:477-501 | Fetches and saves, in order, exactly the slots of the range that have no snapshot, stopping at the first failed fetch |
| Soak.JoinTasks | scripts/acceptance-test/src/lib.rs:1203-1221 | A task that failed (unless near the end of the test) or panicked contributes its error; one that ended or was cancelled does not |
| Soak.Teardown | scripts/acceptance-test/src/lib.rs:1200-1238 | No error exactly if the run ended well, every joined task is tolerated and the process was stopped; otherwise each of these is mentioned. A failed run shuts the process down at once, any other waits for its exit first; a process already reaped is left alone |
| Soak.RunSoak | scripts/acceptance-test/src/lib.rs:985-1251 | The event loop and teardown: the directory and counters are those of the soak machine (whose ends and counts the SoakEnds rows state); the workers have the ids of the config; a report exactly after a clean end, a clean teardown and a successful stop, which a clean process exit guarantees; on every exit the process is reaped or sent SIGKILL, in the order the failure calls for; an error mentions its cause, every untolerated task failure and a failed stop; waits stay below the top-level abort; no foreign file name comes to outrank the saved slots |
| SoakEnds.EachEvent | scripts/acceptance-test/src/lib.rs:1048-1198 | Which event ends a run that is still going, and how: a non-zero exit, a panicked task, a stream error, a failed status query, a shutdown, a failed backfill and a missing start batch always in an error; a task failure, an early closed stream and a missing batch in an error unless fewer than 15 batches are missing |
| SoakEnds.RunEndsIff | scripts/acceptance-test/src/lib.rs:1048-1198 | For every event sequence: the run ends well if and only if the event that ends it is a successful exit, or, with fewer than 15 batches missing, a closed stream of a running process or a batch that cannot be fetched |
| SoakEnds.RunIsOver | scripts/acceptance-test/src/lib.rs:1200 | Events after the ending one change nothing |
| SoakEnds.CountsAreExact | scripts/acceptance-test/src/lib.rs:1124-1177 | A run still going has counted every slot with a batch behind the start batch, and every slot from the first of these on |
| SoakEnds.ReportCountsSlots | scripts/acceptance-test/src/lib.rs:1250-1253 | A run that ends well reports exactly the slots counted before the ending event |
| SoakEnds.EachSlotIsSaved | scripts/acceptance-test/src/lib.rs:1155-1189 | A handled slot changes the snapshots by its own: every interval-th counted one in full if it can be fetched, all others as delivered, and the first one after the backfill before it |
| SoakEnds.WithoutSavingNothingChanges | scripts/acceptance-test/src/lib.rs:1005-1012 | Without snapshot saving no run changes a snapshot, even with a backfill start |
| SoakGuarantees.BackfillIsContiguous | scripts/acceptance-test/src/lib.rs:477-501 | Backfilling keeps snapshots contiguous even if it fails half way, and completes the range if it succeeds |
| SoakGuarantees.BackfillAddsRange | scripts/acceptance-test/src/lib.rs:477-501 | Backfilling succeeds exactly if every missing slot below the observed one can be fetched, and adds fetched slots of that range only |
| SoakGuarantees.AppendKeepsContiguity | scripts/acceptance-test/src/lib.rs:1155-1189 | Over a consecutive slot stream, whatever slot is observed first and however the run ends, snapshots stay contiguous from s0 and no slot number is lost |
| SoakGuarantees.AppendKeepsContent | scripts/acceptance-test/src/lib.rs:477-501 | Every snapshot below the first observed slot keeps its content, so nothing recorded earlier changes unless the stream starts before its end |
| SoakGuarantees.WithoutBackfillAGapRemains | scripts/acceptance-test/src/lib.rs:901-906 | Without the backfill, a first observed slot beyond the recorded data leaves a gap |
| SoakGuarantees.AccountingStep | scripts/acceptance-test/src/lib.rs:1124-1156 | One slot of a chained stream: the count stays exact, never decreases, the saturating subtraction does not saturate, at most one batch is counted |
| SoakGuarantees.ThroughputIsExact | scripts/acceptance-test/src/lib.rs:1124-1177 | The reported transaction count is the sum over every batch after the throughput start batch up to the last one seen; counted batches exceed counted slots if and only if the first slot counts a batch and then fails to backfill, and never in a run that ends well |
| SoakGuarantees.BatchesExceedSlotsIff | scripts/acceptance-test/src/lib.rs:1124-1169 | For every event sequence: batches exceed slots, by one, exactly if the first slot counts a batch and the backfill it triggers fails, which ends the run with that error |
| SoakGuarantees.FailedBackfillLosesASlot | scripts/acceptance-test/src/lib.rs:1155-1169 | Such a run: one batch counted in no slot |
| SoakGuarantees.ThroughputAfterEverySlot | scripts/acceptance-test/src/lib.rs:1124-1177 | While a run is going, the same holds after every slot of the stream seen so far |
| Append.RunAppendGeneration | scripts/acceptance-test/src/bin/setup.rs:345-389 | The answer: waiting exactly if the replay or the soak loop waits; an error if the replay fails, the sequencer is not ready or the soak loop fails (mentioning its error); a report, that of the soak loop, exactly after a clean end and teardown. Workers have the ids of segment n-1; the files represent what replay and soak loop leave; no foreign name comes to outrank the saved slots; every exit leaves the process reaped or killed |
| Append.AppendOptionsInNumbers | scripts/acceptance-test/src/bin/setup.rs:227-237 | An append run for version n measures from batch (n-1)*B to stop height n*B, saves every snapshot and backfills from the first new slot |
| Append.ReportCountsNewVersion | scripts/acceptance-test/src/bin/setup.rs:374-388 | Its report counts the transactions of the batches from (n-1)*B+1 to the last one before the ending event, and the slots from the first that carries such a batch |
| Append.AppendableResyncsExactly | scripts/acceptance-test/src/bin/setup.rs:361-367 | Resyncing data that n-th version may be appended to can only report ((n-1)*B-1, L+1) |
| Append.AppendClosesTheLoop | scripts/acceptance-test/src/bin/setup.rs:345-389 | At every step of an append run snapshots stay contiguous from s0 and none is lost, nor changed if the first observed slot is new; if the last saved slot ends at n*B, the result is appendable data for n+1 versions |
| Append.GatesAcceptAppendable | scripts/acceptance-test/src/bin/setup.rs:152-194 | A setup run over appendable data is let through by scan, plan check and append gate, into append mode with the right bounds, if and only if no foreign file name outranks the saved slots; otherwise the scan fails |
| Append.AppendVersion | scripts/acceptance-test/src/bin/setup.rs:152-264 | A prepared setup run that appends, as performed over the directory: it answers as above, and is one of the forks of the next two rows; without an append run no file changes |
| Append.ForkKeepsAppendable | scripts/acceptance-test/src/bin/setup.rs:152-389 | One fork over appendable files: its setup run is let through by all gates, and leaves appendable files for n+1 versions |
| Append.AppendClosesOverAllForks | scripts/acceptance-test/src/bin/setup.rs:152-389 | From appendable files with no outranking foreign name, through any number k of forks: every setup run is let through by scan, plan check and append gate; afterwards the files are appendable for n+k versions, contiguous from the same s0, with no snapshot lost, and none changed if no soak run observes a recorded slot again |
| SoakWorkers.LastVersionTakesLastSegment | scripts/acceptance-test/src/versioned_setup.rs:677-687 | The append run's soak config is the last version's, on the salt of segment n-1 |
| SoakWorkers.AppendedWorkersAreNew | scripts/acceptance-test/src/versioned_setup.rs:667-687 | Its workers share no id with the workers of any historical version |
| SoakWorkers.SegmentsDisjointIff | scripts/acceptance-test/src/versioned_setup.rs:677-687 | Ids of all versions are pairwise distinct if and only if W*n is at most 2^32, whatever the base salt, even if sums wrap |
| SoakWorkers.IdsAreExact | scripts/soak-test/src/main.rs:71-78 | While base + W*n fits in u32 every id is the plain sum |
| SoakWorkers.SpawnWorkers | scripts/soak-test/src/main.rs:71-78 | The spawn loop gives worker i the id i + salt |
| HeightErrors.HeightRoundTrip | scripts/acceptance-test/src/state_consistency.rs:289-300 | Whatever text precedes the first marker, the printed height is recovered; digit runs that overflow u64 are rejected |
| HeightErrors.ExtractedHeightIsBehindFirstMarker | scripts/acceptance-test/src/state_consistency.rs:289-300 | A height is only ever read from the digits right behind the first marker |
| HeightErrors.TooLateIff | scripts/acceptance-test/src/state_consistency.rs:260-285 | The rejection counts as too late exactly when the reported height exceeds the expected one |
| HeightErrors.NotTooLateWithoutMarker | scripts/acceptance-test/src/state_consistency.rs:264-283 | Without a message, or without the marker in it, nothing is too late |
| EvmWorkers.DeriveWorkerKey | scripts/acceptance-test/src/evm_soak.rs:60-66 | Adds the index to the first key byte, wrapping, and changes no other byte |
| EvmWorkers.KeysInNumbers | scripts/acceptance-test/src/evm_soak.rs:76-87 | Pinned worker keys count from 10, unpinned ones from 60, modulo 256 on the first byte; an index above 255 is an error |
| EvmWorkers.KeysDistinctIff | scripts/acceptance-test/src/evm_soak.rs:76-87 | Despite byte wraparound all worker keys are distinct if and only if one group is empty, or there are at most 50 pinned and 206 unpinned workers |
| EvmWorkers.EvmStateConsistencyWorker | scripts/acceptance-test/src/evm_soak.rs:331-384 | A worker's transactions form one chain of increments modulo 2^256 on consecutive nonces, up to the first that is not accepted; a stop-height error is a clean end |
| EvmWorkers.StateConsistencyTester.Update | scripts/acceptance-test/evm-contracts/StateConsistencyTester.sol:9-13 | Moves the value only from the value it names, otherwise reverts and changes nothing |
| EvmWorkers.NoInterleavingReverts | scripts/acceptance-test/src/evm_soak.rs:354-383 | With one writer per contract no interleaving reverts; once a worker's accepted updates are executed, its expected value is the contract's: the start value plus the number of its updates accepted in the run, modulo 2^256 |
| EvmWorkers.SharedContractReverts | scripts/acceptance-test/evm-contracts/StateConsistencyTester.sol:9-13 | One writer per contract is necessary: two workers on one contract revert |
| LcgPeriod.PowerOfTwoSteps | foundry-tests/src/StorageTester.sol:31-33 | 2^k steps are x -> A*x + C with A = 1 modulo 2^(k+2) and C = 2^k times an odd number |
| LcgPeriod.FullPeriod | foundry-tests/src/StorageTester.sol:31-33 | A generator with a = 1 modulo 4 and odd c has full period modulo 2^w, for every w |
| StorageTester.SlotsFollowGenerator | foundry-tests/src/StorageTester.sol:20-33 | The first slot is 1664525*seed + 1013904223 modulo 2^32, and each next one the same of the one before |
| StorageTester.SlotsRepeatIff | foundry-tests/src/StorageTester.sol:20-33 | Two writes hit the same slot if and only if they are a multiple of 2^32 writes apart |
| StorageTester.WrittenSlotsAreDistinct | foundry-tests/src/StorageTester.sol:20-33 | n writes hit min(n, 2^32) distinct slots, all below 2^32, for every seed and every n |
| StorageTester.FullRunHitsEverySlot | foundry-tests/src/StorageTester.sol:20-29 | 2^32 writes hit every slot below 2^32, so also the contract's own variable |
| StorageTester.StorageTester.RandomSlotWrites | foundry-tests/src/StorageTester.sol:20-29 | Every slot of the run holds 42 afterwards and no other changes; reverts, changing nothing, exactly if there is a write and 1664525*seed + 1013904223 exceeds 2^256 - 1 |
| StorageTester.StorageTester.AlternatingReadWrite | foundry-tests/src/StorageTester.sol:11-18 | Returns (n*n - n)/2 and leaves n-1 in slot 0, or reverts if the sum exceeds 2^256 - 1 |
| StorageTester.SumFormula | foundry-tests/src/StorageTester.sol:11-18 | The sum of 0..n-1 is (n*n - n)/2 |
| LargeBytecode.CreationCodeReturnsWindow | foundry-tests/script/DeploymentTests.s.sol:125-133 | Running creation code on the EVM returns the code window of the encoded size that starts at the declared creation length |
| LargeBytecode.DeployedImage | foundry-tests/script/DeploymentTests.s.sol:111-140 | For every target size from 1: RETURN of exactly the encoded size, never reading past the code; 2, 3 or 4 header bytes, then only zeros |
| LargeBytecode.NoCodeForEmptyRuntime | foundry-tests/script/DeploymentTests.s.sol:135-137 | Generation fails exactly for size 0, where there is no first runtime byte to set |
| LargeBytecode.SizeIsExactIff | foundry-tests/script/DeploymentTests.s.sol:117-123 | The deployed size is the target size if and only if it is below 2^24 |
| LargeBytecode.BeginsWithStopIff | foundry-tests/script/DeploymentTests.s.sol:109-137 | The runtime begins with STOP if and only if the size is at most 255, or above 65535 and divisible by 256 |
| LargeBytecode.TwoByteSizesUnderflow | foundry-tests/script/DeploymentTests.s.sol:119-137 | For every size from 256 to 65535, calling the deployed code underflows the stack |
| JsonTypes.BuildTable | examples/metamask/src/types.ts:1274-1290 | The property table loop computes the table function, which the next JsonGuarantees and JsonResults rows describe |
| JsonTypes.TransformValue | examples/metamask/src/types.ts:1292-1371 | The recursive transformer with its loops over union members, table entries, additional keys and elements computes the transformer function |
| JsonGuarantees.TableHoldsLastProps | examples/metamask/src/types.ts:1274-1290 | The property table holds exactly the last property of each source name |
| JsonGuarantees.UnionIsFirstMatch | examples/metamask/src/types.ts:1298-1308 | A union's result is that of its first accepting member; it fails exactly if all members do |
| JsonGuarantees.AcceptsIffInhabits | examples/metamask/src/types.ts:1292-1371 | The transformer terminates on every value and accepts it if and only if it inhabits the declarative meaning of the type, which spells out the primitives by JavaScript type and reads a missing property as undefined |
| JsonResults.TableKeepsFirstPlaces | examples/metamask/src/types.ts:1274-1290 | The property table lists each name at the place of its first mention |
| JsonResults.TransformYields | examples/metamask/src/types.ts:1292-1371 | Whatever the transformer returns is the image that the type prescribes: unchanged for plain values, that of the first inhabited member for a union, element by element for an array; for an object every property under its other name, where the last one in table order and any additional key prevail, and no other key |
| JsonResults.CastYields | examples/metamask/src/types.ts:1373-1379 | cast reads json names and writes js names, uncast the reverse, each accepting exactly the values of the type and returning that image |
| JsonRoundTrip.TransformPads | examples/metamask/src/types.ts:1332-1348 | The transformer changes a value only by adding undefined-valued properties |
| JsonRoundTrip.PaddingGainsNothing | examples/metamask/src/types.ts:1298-1348 | Adding undefined properties never makes a type accept a value it rejected |
| JsonRoundTrip.TransformIsIdempotent | examples/metamask/src/types.ts:1292-1379 | What either direction returns, either direction accepts and returns unchanged |
| JsonRoundTrip.CastRoundTrip | examples/metamask/src/types.ts:1373-1379 | uncast(cast(v)) = cast(v) = cast(cast(v)) for every accepted v, and writing the result gives back the JSON value that was read |
| JsonRoundTrip.RenamingCanLoseData | examples/metamask/src/types.ts:1332-1348 | If a property is renamed to a name an additional property uses, the round trip loses it |

## Left out

- ResyncTerminates: assumes that delivered slot numbers exceed `checked`; RegressBoundsReconnects has no such condition, and GuardIsEvadableIff says when it is needed.
- HandoversAreBridged: assumes that every reconnect succeeds; a failed one ends the run as in the code.
- CastRoundTrip: assumes that json and js names coincide, as they do in every entry of the generated type map; RenamingCanLoseData shows why. The generated entries themselves are not written out; the theorem holds for every map of that shape.
- AcceptsIffInhabits: assumes that names stand for objects or enums, as in the generated type map; a name that stands for another name could loop for ever.
- LastVersionTakesLastSegment: wraps u32 overflow as a release build does; a debug build panics instead. The salts of a full run are those its comment states, since the soak manager is not part of this model.
- RunSoak: the soak manager between the run and the soak binary is not part of this model; the workers are taken to be spawned with the worker count and salt of the config that it is given.
- AppendClosesTheLoop: assumes that fetching slot n yields slot n, that the observed slots are consecutive, and (for the next round) that the version stopped at its stop height.
- AppendClosesOverAllForks: the same for each fork; that setup runs append is concluded. The MockDA database that goes with the files is only known to exist.
- ThroughputIsExact: assumes batch records of one history and chained batch ranges; a failed fetch of a record ends the run as in the code.
- u64 overflow of slot numbers, heights and counters is not modelled outside parsing and saturating operations; nor is a version without a stop height.
- Snapshots are typed slots: extra JSON fields, unparsable snapshot files and failing file writes are not part of this model.
- A shutdown or timeout during startup or a reconnect is a failed startup or reconnect; waiting times are modelled only for process exits.
- Building binaries, configuration templates, Postgres, Docker, the rollup manager and all HTTP traffic: only their outcomes appear, as environment choices.
- From-genesis generation and the manual setup: they check an external bank module against literals.
- SlotMonitor, the stream-draining loop and the API polling loop: counters and equality checks that would only add easy members.
- Throughput ratios (floating point), log output and the throughput file.
- The JSON transformer's error texts, dates, the `__proto__` key, the order of the keys of a result and of number-like property names, NaN, and the memoisation of property tables on the type objects (the tables are recomputed, with the same content).
- The second copy of the transformer in the other example: the same code.
- Gas, memory limits and EVM opcodes that creation code does not use; the 1024-entry stack limit, which it never nears.
- Hex coding of worker keys, and nonces on the contract side: each worker's accepted transactions execute in order.
