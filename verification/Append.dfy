/** Appending a version: resync the recorded versions, then generate the new one; and what that
    leaves for the next hard fork. */
module Append {
  import opened Common
  import opened Ledger
  import opened RunPlan
  import opened SoakWorkers
  import opened SnapshotFiles
  import opened AppendGate
  import opened RollupProcess
  import Resync
  import opened ResyncGuarantees
  import opened Soak
  import opened SoakGuarantees
  import opened SoakEnds

  const DEFAULT_THROUGHPUT_START_BATCH: nat := 3

  function StopAtHeight(plan: Plan): nat {
    if plan.versions == [] then 0 else plan.versions[|plan.versions| - 1].stopHeight
  }

  function ThroughputStartBatch(plan: Plan): nat {
    if plan.versions == [] then DEFAULT_THROUGHPUT_START_BATCH
    else match plan.versions[|plan.versions| - 1].startHeight
      case None => DEFAULT_THROUGHPUT_START_BATCH
      case Some(start) => SaturatingSub(start, 1)
  }

  function AppendOptions(plan: Plan, fullSlotSaveInterval: nat, firstNewSlot: nat): SoakOptions {
    SoakOptions(ThroughputStartBatch(plan), StopAtHeight(plan), fullSlotSaveInterval, true, Some(firstNewSlot))
  }

  /** One append run's environment. `remaining` is how the background tasks end at teardown. */
  datatype AppendEnvironment = AppendEnvironment(
    replay: Resync.Environment,
    notes: seq<Resync.Notification>,
    sequencerReady: bool,
    soak: SoakEnvironment,
    events: seq<SoakEvent>,
    remaining: seq<TaskResult>,
    fullSlotSaveInterval: nat)

  ghost predicate WellFormed(env: AppendEnvironment) {
    WellFormedEvents(env.events) && env.fullSlotSaveInterval >= 1 && env.soak.startsUp
  }

  function Replayed(plan: Plan, slots: map<nat, Slot>, env: AppendEnvironment): Resync.Outcome {
    Resync.Replay(Resync.Context(slots, plan, env.replay), env.notes).outcome
  }

  /** The snapshots after an append run over `slots`. */
  function SlotsAfterAppend(plan: Plan, slots: map<nat, Slot>, env: AppendEnvironment): map<nat, Slot>
    requires WellFormed(env)
  {
    match Replayed(plan, slots, env)
    case Resynced(_, first) =>
      if env.sequencerReady && plan.soak.stopHeights != [] then
        SoakLoop(env.soak, AppendOptions(plan, env.fullSlotSaveInterval, first), env.events, slots).slots
      else slots
    case _ => slots
  }

  /** What an append run makes of the snapshot files: they represent the slots that the replay and
      the soak loop leave, and the scan keeps finding the largest of them. */
  ghost predicate Generates(files: Files, plan: Plan, env: AppendEnvironment, files': Files)
    requires WellFormed(env)
  {
    && Numbered(files') == SlotsAfterAppend(plan, Numbered(files), env)
    && (SavedSlotsLead(files) ==> SavedSlotsLead(files'))
  }

  /** What an append run over `slots` answers: it waits exactly if the replay or the soak loop still
      waits; it reports exactly if the soak loop ended well, no task error is left and the process
      could be `stopped`; and otherwise it fails, with the error of the soak loop if there is one. */
  ghost predicate Answers(
      plan: Plan, slots: map<nat, Slot>, env: AppendEnvironment, r: SoakResult, stopped: Result<(), ProcessError>)
    requires WellFormed(env)
  {
    match Replayed(plan, slots, env)
    case Pending => r.Unfinished?
    case Failed(_) => r.SoakFailed?
    case Resynced(_, first) =>
      if !env.sequencerReady || plan.soak.stopHeights == [] then r.SoakFailed?
      else
        var o := AppendOptions(plan, env.fullSlotSaveInterval, first);
        var s := SoakLoop(env.soak, o, env.events, slots);
        match s.end
        case Running => r.Unfinished?
        case FinishedErr(message) => r.SoakFailed? && Mentions(r.message, message)
        case FinishedOk(processExited) =>
          && (processExited ==> stopped.Ok?)
          && if AllTolerated(env.remaining, NearEnd(o, s.c.batches)) && stopped.Ok?
             then r == Finished(ThroughputReport(s.c.txs, s.c.slots))
             else r.SoakFailed?
  }

  /** Resyncs the recorded versions, then soaks the last version with the workers of its own id
      segment; every exit leaves the rollup process reaped or killed, and workers are only spawned
      after a successful resync. */
  method RunAppendGeneration(
      plan: Plan, env: AppendEnvironment, dir: SnapshotDir, rollup: ManagedRollupProcess)
    returns (r: SoakResult, workerIds: seq<nat>, ghost stopped: Result<(), ProcessError>)
    requires WellFormed(env)
    modifies dir, rollup
    ensures Generates(old(dir.files), plan, env, dir.files)
    ensures Answers(plan, old(dir.Slots()), env, r, stopped)
    ensures !(Replayed(plan, old(dir.Slots()), env).Resynced? && env.sequencerReady) ==> dir.Slots() == old(dir.Slots())
    ensures r.Finished? || workerIds != [] ==>
      && Replayed(plan, old(dir.Slots()), env).Resynced?
      && plan.soak.stopHeights != []
      && AreWorkerIds(workerIds, LastVersionSoakConfig(plan.soak).value)
    ensures (r.Finished? || workerIds != []) && |plan.soak.stopHeights| < TWO_32 ==>
      && |workerIds| == plan.soak.numWorkers
      && forall i :: 0 <= i < |workerIds| ==>
           workerIds[i] == WorkerId(SegmentSalt(plan.soak, |plan.soak.stopHeights| - 1), i)
    ensures !r.Unfinished? ==> rollup.StoppedOrKilled()
  {
    hide Numbered, SavedSlotsLead, Wrap32, Mentions, AllTolerated, NearEnd, SoakLoop, StopsThenDrops, MentionsTasks;
    workerIds, stopped := [], Ok(());
    ghost var log;
    var outcome: Resync.Outcome;
    outcome, log := Resync.ResyncAndVerifySlots(Resync.Context(dir.Slots(), plan, env.replay), env.notes);
    match outcome {
      case Pending => return Unfinished, workerIds, stopped;
      case Failed(_) =>
        rollup.Drop();
        return SoakFailed("resync failed"), workerIds, stopped;
      case Resynced(_, firstNewSlot) =>
        if !env.sequencerReady {
          rollup.Drop();
          return SoakFailed("sequencer readiness"), workerIds, stopped;
        }
        var soakConfig := LastVersionSoakConfig(plan.soak);
        if soakConfig.None? {
          rollup.Drop();
          return SoakFailed("append requires at least one soak version"), workerIds, stopped;
        }
        r, workerIds, stopped :=
          RunSoak(env.soak, soakConfig.value, AppendOptions(plan, env.fullSlotSaveInterval, firstNewSlot),
                  env.events, env.remaining, dir, rollup);
        if |plan.soak.stopHeights| < TWO_32 {
          LastVersionTakesLastSegment(plan.soak);
        }
    }
  }

  // ---------------------------------------------------------------- the report and the plan

  /** The soak options of an append run, in numbers: it measures from the first batch of the new version
      (the first version would be measured from batch 3) to its stop height, saves all snapshots, and
      backfills from the first new slot. */
  lemma AppendOptionsInNumbers(
      plan: Plan, n: nat, b: nat, recorded: Option<RecordedDataBounds>, interval: nat, first: nat)
    requires n >= 1 && b >= 1 && IsPlanFor(plan, n, b, recorded)
    ensures AppendOptions(plan, interval, first)
         == SoakOptions(if n == 1 then 3 else (n - 1) * b, n * b, interval, true, Some(first))
  {
  }

  /** What a report of an append run says: it counts the transactions of all batches from the second
      one of version n up to the last batch of the slots before the event that ended the run; and of
      these slots, those from the first on that carries such a batch. */
  lemma ReportCountsNewVersion(
      plan: Plan, n: nat, b: nat, recorded: Option<RecordedDataBounds>, slots: map<nat, Slot>, env: AppendEnvironment,
      o: SoakOptions, history: nat -> nat, firstBatch: nat, report: ThroughputReport, stopped: Result<(), ProcessError>)
    returns (j: nat)
    requires n >= 2 && b >= 1 && IsPlanFor(plan, n, b, recorded) && WellFormed(env)
    requires Answers(plan, slots, env, Finished(report), stopped)
    requires Replayed(plan, slots, env).Resynced?
    requires o == AppendOptions(plan, env.fullSlotSaveInterval, Replayed(plan, slots, env).firstNewSlot)
    requires HonestBatches(env.soak, o, history) && ChainedSlots(env.events, 0, firstBatch)
    ensures j < |env.events| && EndsWellAt(env.soak, o, env.events, slots, j)
    ensures WellFormedEvents(env.events[..j])
    ensures report.numTxs == match LastBatchOf(env.events[..j], 0, None)
                             case None => 0
                             case Some(last) => TxsIn(history, (n - 1) * b + 1, last + 1)
    ensures report.numSlots == CountedSlots(o, env.events[..j])
  {
    hide HonestBatches, ChainedSlots, TxsIn, EndsWellAt, SoakLoop, CountedSlots, LastBatchOf;
    AppendOptionsInNumbers(plan, n, b, recorded, env.fullSlotSaveInterval, Replayed(plan, slots, env).firstNewSlot);
    hide IsPlanFor, Replayed, AppendOptions;
    RunEndsIff(env.soak, o, env.events, slots);
    j :| EndsWellAt(env.soak, o, env.events, slots, j);
    ReportCountsSlots(env.soak, o, env.events, slots, j);
    WellFormedParts(env.events, j);
    ChainedPrefix(env.events, 0, firstBatch, j);
    ThroughputAfterEverySlot(env.soak, o, history, env.events[..j], slots, firstBatch);
  }

  // ---------------------------------------------------------------- the loop closes

  ghost predicate IsLast(slots: map<nat, Slot>, last: nat) {
    last in slots && forall s :: s in slots ==> s <= last
  }

  ghost predicate EndsAtHeight(slots: map<nat, Slot>, height: nat) {
    exists last: nat :: IsLast(slots, last) && slots[last].batchEnd == height
  }

  /** Recorded data to which the n-th version of b blocks may be appended. */
  ghost predicate Appendable(slots: map<nat, Slot>, n: nat, b: nat, s0: nat) {
    && n >= 2 && b >= 1 && s0 <= Resync.WARMUP_SLOTS
    && ContiguousFrom(slots, s0)
    && EndsAtHeight(slots, (n - 1) * b)
  }

  lemma AppendableEnd(slots: map<nat, Slot>, n: nat, b: nat, s0: nat, bounds: RecordedDataBounds)
    requires Appendable(slots, n, b, s0) && BoundsOf(slots, bounds)
    ensures bounds.endRollupHeight == (n - 1) * b >= 1
  {
    hide ContiguousFrom;
    var last: nat :| IsLast(slots, last) && slots[last].batchEnd == (n - 1) * b;
    assert last == bounds.lastSlotNumber;
    MulMonotone(b, 0, n - 1);
  }

  /** Resyncing appendable data can only report its exact end. */
  lemma AppendableResyncsExactly(
      slots: map<nat, Slot>, n: nat, b: nat, s0: nat, plan: Plan, bounds: RecordedDataBounds, env: AppendEnvironment)
    requires Appendable(slots, n, b, s0) && BoundsOf(slots, bounds)
    requires IsPlanFor(plan, n, b, Some(bounds))
    requires Replayed(plan, slots, env).Resynced?
    ensures Replayed(plan, slots, env) == Resync.Resynced((n - 1) * b - 1, bounds.lastSlotNumber + 1)
  {
    hide Resync.Replay;
    var ctx := Resync.Context(slots, plan, env.replay);
    assert Covered(slots, bounds.lastSlotNumber);
    ResyncIsExact(ctx, env.notes);
    AppendableEnd(slots, n, b, s0, bounds);
  }

  /** Every slot is still there, with the same content. */
  ghost predicate Keeps(slots: map<nat, Slot>, slots': map<nat, Slot>) {
    forall s :: s in slots ==> s in slots' && slots'[s] == slots[s]
  }

  /** The soak run observes no slot of the recorded data again. */
  ghost predicate ObservesNewSlots(bounds: RecordedDataBounds, env: AppendEnvironment) {
    FirstSlot(env.events, 0).Some? ==> FirstSlot(env.events, 0).value > bounds.lastSlotNumber
  }

  /** One turn of the loop: at every step of an append run over a consecutive slot stream the
      snapshots stay contiguous from s0, whatever slot is observed first; if it is a new one, no
      recorded snapshot changes; and if the last saved slot ends at n*b, the result is appendable
      data for n+1 versions. */
  lemma AppendClosesTheLoop(
      slots: map<nat, Slot>, n: nat, b: nat, s0: nat, plan: Plan, bounds: RecordedDataBounds, env: AppendEnvironment)
    requires Appendable(slots, n, b, s0) && BoundsOf(slots, bounds)
    requires IsPlanFor(plan, n, b, Some(bounds))
    requires WellFormed(env) && HonestSlots(env.soak) && ConsecutiveSlots(env.events, 0, None)
    ensures var slots' := SlotsAfterAppend(plan, slots, env);
            && ContiguousFrom(slots', s0)
            && slots.Keys <= slots'.Keys
            && (ObservesNewSlots(bounds, env) ==> Keeps(slots, slots'))
            && (EndsAtHeight(slots', n * b) ==> Appendable(slots', n + 1, b, s0))
  {
    hide SoakLoop, IsPlanFor, Replayed, HonestSlots, ConsecutiveSlots, EndsAtHeight;
    if Replayed(plan, slots, env).Resynced? && env.sequencerReady {
      AppendableResyncsExactly(slots, n, b, s0, plan, bounds, env);
      var o := AppendOptions(plan, env.fullSlotSaveInterval, bounds.lastSlotNumber + 1);
      AppendKeepsContiguity(env.soak, o, env.events, slots, s0);
      AppendKeepsContent(env.soak, o, env.events, slots);
    }
  }

  /** The gates and appendable data: with a persistent MockDA, a setup run for n versions passes the
      scan, the plan check and the append gate, and goes into append mode, exactly if no foreign file
      name outranks the saved slots; otherwise the scan fails. */
  lemma GatesAcceptAppendable(
      files: Files, n: nat, b: nat, s0: nat, r: Result<PreparedSetupRun, SetupError>)
    requires Appendable(Numbered(files), n, b, s0)
    requires SetupReturns(files, n, b, r)
    ensures r.Ok? <==> SavedSlotsLead(files)
    ensures r.Ok? ==>
      && r.value.mode.AppendOnto?
      && IsPlanFor(r.value.plan, n, b, Some(r.value.mode.bounds))
      && BoundsOf(Numbered(files), r.value.mode.bounds)
      && r.value.mode.bounds.endRollupHeight == (n - 1) * b
    ensures r.Err? ==> r.error.Unreadable?
  {
    hide Numbered, SavedSlotsLead, IsPlanFor, ContiguousFrom, ScanReports;
    var scan :| ScanReports(files, scan) && SetupFollows(scan, n, b, r);
    ScanFindsLargestSavedSlot(files, scan);
    var last: nat :| IsLast(Numbered(files), last) && Numbered(files)[last].batchEnd == (n - 1) * b;
    if scan.Ok? {
      assert scan.value.Some?;
      assert scan.value.value.lastSlotNumber == last;
    }
  }

  // ---------------------------------------------------------------- any number of hard forks

  /** One hard fork: what preparing its setup run returns, and the environment of its append run. */
  datatype Fork = Fork(setup: Result<PreparedSetupRun, SetupError>, env: AppendEnvironment)

  predicate Appends(fork: Fork) {
    fork.setup.Ok? && fork.setup.value.mode.AppendOnto?
  }

  ghost predicate ForkObservesNewSlots(fork: Fork) {
    Appends(fork) && ObservesNewSlots(fork.setup.value.mode.bounds, fork.env)
  }

  /** A hard fork to n versions takes the files to `files'`: its setup run is prepared over the files,
      and if that chooses append mode, the append run generates the new version, which stops at its
      stop height. */
  ghost predicate IsFork(files: Files, n: nat, b: nat, fork: Fork, files': Files) {
    && SetupReturns(files, n, b, fork.setup)
    && WellFormed(fork.env) && HonestSlots(fork.env.soak) && ConsecutiveSlots(fork.env.events, 0, None)
    && (Appends(fork) ==>
          && Generates(files, fork.setup.value.plan, fork.env, files')
          && EndsAtHeight(Numbered(files'), n * b))
  }

  /** A setup run over a directory with a persistent MockDA, as performed: it is prepared, and in
      append mode the rollup is started (as process `pid`, unless that fails) and the new version
      generated. A run whose last saved slot ends at the stop height is a hard fork as above. */
  method AppendVersion(dir: SnapshotDir, n: nat, b: nat, env: AppendEnvironment, pid: Option<nat>)
    returns (setup: Result<PreparedSetupRun, SetupError>, r: Option<SoakResult>,
             ghost stopped: Result<(), ProcessError>)
    requires n >= 1 && b >= 1 && WellFormed(env)
    modifies dir
    ensures r.Some? <==> Appends(Fork(setup, env)) && pid.Some?
    ensures r.None? ==> dir.files == old(dir.files)
    ensures r.Some? ==> Answers(setup.value.plan, old(dir.Slots()), env, r.value, stopped)
    ensures pid.Some? && HonestSlots(env.soak) && ConsecutiveSlots(env.events, 0, None)
            && (r.Some? ==> EndsAtHeight(dir.Slots(), n * b))
            ==> IsFork(old(dir.files), n, b, Fork(setup, env), dir.files)
  {
    hide Numbered, Generates, SetupReturns, EndsAtHeight, HonestSlots, ConsecutiveSlots, Answers;
    r, stopped := None, Ok(());
    setup := PrepareSetupRun(dir.files, true, n, b);
    if setup.Ok? && setup.value.mode.AppendOnto? && pid.Some? {
      var rollup := new ManagedRollupProcess(pid.value);
      var generated, workerIds;
      generated, workerIds, stopped := RunAppendGeneration(setup.value.plan, env, dir, rollup);
      r := Some(generated);
    }
  }

  /** `dirs[k]` are the snapshot files before the k-th of the forks, for n + k versions. */
  ghost predicate IsForkHistory(dirs: seq<Files>, n: nat, b: nat, forks: seq<Fork>) {
    && |dirs| == |forks| + 1
    && forall k :: 0 <= k < |forks| ==> IsFork(dirs[k], n + k, b, forks[k], dirs[k + 1])
  }

  /** One fork over appendable files: the gates let it through, and leave appendable files. */
  lemma ForkKeepsAppendable(files: Files, n: nat, b: nat, s0: nat, fork: Fork, files': Files)
    requires Appendable(Numbered(files), n, b, s0) && SavedSlotsLead(files)
    requires IsFork(files, n, b, fork, files')
    ensures Appends(fork)
    ensures Appendable(Numbered(files'), n + 1, b, s0) && SavedSlotsLead(files')
    ensures Numbered(files).Keys <= Numbered(files').Keys
    ensures ForkObservesNewSlots(fork) ==> Keeps(Numbered(files), Numbered(files'))
  {
    hide Numbered, SavedSlotsLead, IsPlanFor, ContiguousFrom, EndsAtHeight, SlotsAfterAppend, ObservesNewSlots, Keeps;
    GatesAcceptAppendable(files, n, b, s0, fork.setup);
    AppendClosesTheLoop(
      Numbered(files), n, b, s0, fork.setup.value.plan, fork.setup.value.mode.bounds, fork.env);
  }

  /** The loop closes over any number of hard forks: starting from appendable files among which no
      foreign name outranks the saved slots, every setup run is let through by the scan, the plan
      check and the append gate; and after k forks the files are appendable for n + k versions,
      still contiguous from the same s0, with no snapshot lost, and none changed if no fork's soak run
      observes a recorded slot again. */
  lemma {:induction false} AppendClosesOverAllForks(
      dirs: seq<Files>, n: nat, b: nat, s0: nat, forks: seq<Fork>, k: nat)
    requires IsForkHistory(dirs, n, b, forks) && k <= |forks|
    requires Appendable(Numbered(dirs[0]), n, b, s0) && SavedSlotsLead(dirs[0])
    ensures forall j :: 0 <= j < k ==> Appends(forks[j])
    ensures Appendable(Numbered(dirs[k]), n + k, b, s0) && SavedSlotsLead(dirs[k])
    ensures Numbered(dirs[0]).Keys <= Numbered(dirs[k]).Keys
    ensures (forall j :: 0 <= j < k ==> ForkObservesNewSlots(forks[j])) ==>
      Keeps(Numbered(dirs[0]), Numbered(dirs[k]))
    decreases k
  {
    hide Numbered, SavedSlotsLead, Appendable, IsFork, Appends, ForkObservesNewSlots;
    if k == 0 {
    } else {
      AppendClosesOverAllForks(dirs, n, b, s0, forks, k - 1);
      ForkKeepsAppendable(dirs[k - 1], n + k - 1, b, s0, forks[k - 1], dirs[k]);
    }
  }
}
