/** The soak run: throughput accounting per slot, snapshot saving with a one-time backfill, and
    teardown. Events arrive in an order the environment chooses. */
module Soak {
  import opened Common
  import opened Ledger
  import opened SnapshotFiles
  import opened RollupProcess
  import opened SoakWorkers

  datatype SoakOptions = SoakOptions(
    throughputStartBatch: nat,
    rollupStopHeight: nat,
    fullSlotSaveInterval: nat,
    saveSlotSnapshots: bool,
    snapshotBackfillStart: Option<nat>)

  datatype ExitStatus = Success | NonZero

  datatype TaskResult = TaskOk | TaskFailed(message: string) | TaskPanicked | TaskCancelled

  datatype TryWait = HasExited(status: ExitStatus) | StillRunning | QueryFailed

  datatype SoakEvent =
    | RollupExited(status: Option<ExitStatus>)
    | TaskEnded(result: TaskResult)
    | StreamFailed
    | StreamClosed(process: TryWait)
    | NewSlot(slot: Slot)
    | ShutdownSignal

  /** `batch(i, b)` is the cumulative transaction count at the end of batch b, as fetched while
      handling event i; `reference(i)` the same for the throughput start batch; `slot(i, n)` is slot
      n fetched with children. None is an API error. */
  datatype SoakEnvironment = SoakEnvironment(
    startsUp: bool,
    batch: (nat, nat) -> Option<nat>,
    reference: nat -> Option<nat>,
    slot: (nat, nat) -> Option<Slot>)

  predicate IsVeryCloseToSoakTestEnd(numSoakBatches: nat, targetSoakBatches: nat) {
    SaturatingAdd64(numSoakBatches, 15) > targetSoakBatches
  }

  function TargetSoakBatches(o: SoakOptions): nat {
    SaturatingSub(o.rollupStopHeight, o.throughputStartBatch)
  }

  /** In numbers: fewer than 15 batches are missing. The addition saturates, so that a target of the
      largest u64 is never near. */
  predicate NearEnd(o: SoakOptions, batches: nat) {
    && batches + 15 > o.rollupStopHeight - o.throughputStartBatch
    && o.rollupStopHeight - o.throughputStartBatch < 0xFFFF_FFFF_FFFF_FFFF
  }

  lemma VeryCloseIsNearEnd(o: SoakOptions, batches: nat)
    ensures IsVeryCloseToSoakTestEnd(batches, TargetSoakBatches(o)) <==> NearEnd(o, batches)
  {
  }

  // ---------------------------------------------------------------- one slot

  /** The run's counters. `lastBatch` is bookkeeping for the specification only: the batch whose
      record was fetched last. */
  datatype Counters = Counters(
    txs: nat,
    slots: nat,
    batches: nat,
    previousTxs: Option<nat>,
    backfillFrom: Option<nat>,
    lastBatch: Option<nat>)

  function InitialCounters(o: SoakOptions): Counters {
    Counters(0, 0, 0, None, if o.saveSlotSnapshots then o.snapshotBackfillStart else None, None)
  }

  /** A run finishes well either on a successful exit of the process or, near the expected end of
      the test, while the process may still be running. */
  datatype SoakEnd = Running | FinishedOk(processExited: bool) | FinishedErr(message: string)

  datatype SoakState = SoakState(end: SoakEnd, c: Counters, slots: map<nat, Slot>)

  datatype Accounted = Accounted(end: SoakEnd, c: Counters)

  /** Accounting for one slot: the last batch of the slot, if any, moves the transaction count. */
  function Account(env: SoakEnvironment, o: SoakOptions, i: nat, slot: Slot, c: Counters): Accounted
    requires slot.batchStart <= slot.batchEnd
  {
    if slot.batchStart == slot.batchEnd then Accounted(Running, c)
    else
      var b := slot.batchEnd - 1;
      match env.batch(i, b)
      case None =>
        if IsVeryCloseToSoakTestEnd(c.batches, TargetSoakBatches(o)) then Accounted(FinishedOk(false), c)
        else Accounted(FinishedErr("failed to fetch batch"), c)
      case Some(txEnd) =>
        var c1 := c.(lastBatch := Some(b));
        if b >= o.throughputStartBatch && c.previousTxs.None? && env.reference(i).None? then
          Accounted(FinishedErr("failed to fetch throughput start batch"), c)
        else
          var c2 := if b >= o.throughputStartBatch && c.previousTxs.None?
                    then c1.(previousTxs := env.reference(i)) else c1;
          if b > o.throughputStartBatch && c2.previousTxs.Some? then
            Accounted(Running, c2.(txs := SaturatingSub(txEnd, c2.previousTxs.value), batches := c2.batches + 1))
          else Accounted(Running, c2)
  }

  datatype Backfilled = Backfilled(ok: bool, slots: map<nat, Slot>)

  /** Fetches and saves every slot of `[from, upTo)` that has no snapshot, in order. */
  function Backfill(env: SoakEnvironment, i: nat, slots: map<nat, Slot>, from: nat, upTo: nat): Backfilled
    decreases upTo - from
  {
    if from >= upTo then Backfilled(true, slots)
    else if from in slots then Backfill(env, i, slots, from + 1, upTo)
    else match env.slot(i, from)
      case None => Backfilled(false, slots)
      case Some(slot) => Backfill(env, i, slots[slot.number := slot], from + 1, upTo)
  }

  function SaveIfNeeded(o: SoakOptions, slots: map<nat, Slot>, slot: Slot): map<nat, Slot> {
    if o.saveSlotSnapshots then slots[slot.number := slot] else slots
  }

  /** Recording one accounted slot: the one-time backfill, the slot counter, the snapshot. */
  function Record(
      env: SoakEnvironment, o: SoakOptions, i: nat, slot: Slot, c: Counters, slots: map<nat, Slot>): SoakState
    requires o.fullSlotSaveInterval >= 1
  {
    var filled := if c.backfillFrom.Some? then Backfill(env, i, slots, c.backfillFrom.value, slot.number)
                  else Backfilled(true, slots);
    var c' := c.(backfillFrom := None);
    if !filled.ok then SoakState(FinishedErr("failed to backfill snapshot"), c', filled.slots)
    else if c'.batches == 0 then SoakState(Running, c', SaveIfNeeded(o, filled.slots, slot))
    else
      var c'' := c'.(slots := c'.slots + 1);
      var saved := if c''.slots % o.fullSlotSaveInterval == 0 && env.slot(i, slot.number).Some?
                   then env.slot(i, slot.number).value else slot;
      SoakState(Running, c'', SaveIfNeeded(o, filled.slots, saved))
  }

  function OnSlot(
      env: SoakEnvironment, o: SoakOptions, i: nat, slot: Slot, c: Counters, slots: map<nat, Slot>): SoakState
    requires slot.batchStart <= slot.batchEnd && o.fullSlotSaveInterval >= 1
  {
    var a := Account(env, o, i, slot, c);
    if a.end.Running? then Record(env, o, i, slot, a.c, slots) else SoakState(a.end, a.c, slots)
  }

  // ---------------------------------------------------------------- all events

  ghost predicate WellFormedEvents(events: seq<SoakEvent>) {
    forall k :: 0 <= k < |events| && events[k].NewSlot? ==> events[k].slot.batchStart <= events[k].slot.batchEnd
  }

  function OnEvent(
      env: SoakEnvironment, o: SoakOptions, i: nat, event: SoakEvent, c: Counters, slots: map<nat, Slot>): SoakState
    requires o.fullSlotSaveInterval >= 1
    requires event.NewSlot? ==> event.slot.batchStart <= event.slot.batchEnd
  {
    var close := IsVeryCloseToSoakTestEnd(c.batches, TargetSoakBatches(o));
    match event
    case RollupExited(None) => SoakState(FinishedErr("failed to wait for rollup process"), c, slots)
    case RollupExited(Some(status)) =>
      SoakState(if status == Success then FinishedOk(true) else FinishedErr("non-zero exit status"), c, slots)
    case TaskEnded(TaskOk) => SoakState(Running, c, slots)
    case TaskEnded(TaskFailed(message)) => SoakState(if close then Running else FinishedErr(message), c, slots)
    case TaskEnded(_) => SoakState(FinishedErr("background task panicked"), c, slots)
    case StreamFailed => SoakState(FinishedErr("slot stream error"), c, slots)
    case StreamClosed(HasExited(status)) =>
      SoakState(if status == Success then FinishedOk(true) else FinishedErr("non-zero exit status"), c, slots)
    case StreamClosed(StillRunning) =>
      SoakState(if close then FinishedOk(false) else FinishedErr("slot stream closed early"), c, slots)
    case StreamClosed(QueryFailed) => SoakState(FinishedErr("failed to query rollup status"), c, slots)
    case NewSlot(slot) => OnSlot(env, o, i, slot, c, slots)
    case ShutdownSignal => SoakState(FinishedErr("shutdown requested"), c, slots)
  }

  /** Handles `events[i..]` until one ends the run. */
  function RunEvents(
      env: SoakEnvironment, o: SoakOptions, events: seq<SoakEvent>, i: nat, c: Counters, slots: map<nat, Slot>): SoakState
    requires i <= |events| && WellFormedEvents(events) && o.fullSlotSaveInterval >= 1
    decreases |events| - i
  {
    if i == |events| then SoakState(Running, c, slots)
    else
      var s := OnEvent(env, o, i, events[i], c, slots);
      if s.end.Running? then RunEvents(env, o, events, i + 1, s.c, s.slots) else s
  }

  /** A whole event loop over a directory. */
  function SoakLoop(env: SoakEnvironment, o: SoakOptions, events: seq<SoakEvent>, slots: map<nat, Slot>): SoakState
    requires WellFormedEvents(events) && o.fullSlotSaveInterval >= 1
  {
    RunEvents(env, o, events, 0, InitialCounters(o), slots)
  }

  // ---------------------------------------------------------------- the run as performed

  method BackfillMissingSnapshots(env: SoakEnvironment, i: nat, dir: SnapshotDir, from: nat, upTo: u64)
    returns (ok: bool)
    modifies dir
    ensures Backfilled(ok, dir.Slots()) == Backfill(env, i, old(dir.Slots()), from, upTo)
    ensures old(SavedSlotsLead(dir.files)) ==> SavedSlotsLead(dir.files)
  {
    hide Numbered, SavedSlotsLead;
    var slotNumber := from;
    while slotNumber < upTo
      invariant from <= slotNumber
      invariant Backfill(env, i, old(dir.Slots()), from, upTo) == Backfill(env, i, dir.Slots(), slotNumber, upTo)
      invariant old(SavedSlotsLead(dir.files)) ==> SavedSlotsLead(dir.files)
      decreases upTo - slotNumber
    {
      var present := dir.HasSnapshot(slotNumber);
      if !present {
        var fetched := env.slot(i, slotNumber);
        if fetched.None? {
          return false;
        }
        dir.SaveSlotSnapshot(fetched.value);
      }
      slotNumber := slotNumber + 1;
    }
    ok := true;
  }

  datatype ThroughputReport = ThroughputReport(numTxs: nat, numSlots: nat)

  /** Unfinished: all events are consumed and the loop still waits for the next one. */
  datatype SoakResult = Finished(report: ThroughputReport) | SoakFailed(message: string) | Unfinished

  function ProcessErrorText(e: ProcessError): string {
    match e
    case NonZeroExit => "rollup process exited with non-zero status"
    case WaitError => "failed to wait for rollup process"
    case DidNotTerminate => "rollup process did not terminate after SIGKILL"
  }

  /** The accounting part of handling one slot. */
  method AccountSlot(
      env: SoakEnvironment, o: SoakOptions, i: nat, slot: Slot,
      numSoakTxs: nat, ghost numSoakSlots: nat, numSoakBatches: nat, numPreviousTxs: Option<nat>,
      ghost backfillFrom: Option<nat>, ghost lastBatch: Option<nat>)
    returns (end: SoakEnd, txs: nat, batches: nat, previousTxs: Option<nat>, ghost last: Option<nat>)
    requires slot.batchStart <= slot.batchEnd
    ensures Accounted(end, Counters(txs, numSoakSlots, batches, previousTxs, backfillFrom, last))
         == Account(env, o, i, slot,
                    Counters(numSoakTxs, numSoakSlots, numSoakBatches, numPreviousTxs, backfillFrom, lastBatch))
    ensures end != FinishedOk(true)
  {
    end, txs, batches, previousTxs, last := Running, numSoakTxs, numSoakBatches, numPreviousTxs, lastBatch;
    if slot.batchStart != slot.batchEnd {
      var batchNum := slot.batchEnd - 1;
      var batch := env.batch(i, batchNum);
      if batch.None? {
        end := if IsVeryCloseToSoakTestEnd(numSoakBatches, TargetSoakBatches(o)) then FinishedOk(false)
               else FinishedErr("failed to fetch batch");
        return;
      }
      if batchNum >= o.throughputStartBatch && previousTxs.None? {
        previousTxs := env.reference(i);
        if previousTxs.None? {
          end := FinishedErr("failed to fetch throughput start batch");
          return;
        }
      }
      last := Some(batchNum);
      if batchNum > o.throughputStartBatch && previousTxs.Some? {
        txs := SaturatingSub(batch.value, previousTxs.value);
        batches := batches + 1;
      }
    }
  }

  /** The recording part of handling one slot. */
  method RecordSlot(
      env: SoakEnvironment, o: SoakOptions, i: nat, slot: Slot,
      ghost numSoakTxs: nat, numSoakSlots: nat, numSoakBatches: nat, ghost numPreviousTxs: Option<nat>,
      backfillFrom: Option<nat>, ghost lastBatch: Option<nat>, dir: SnapshotDir)
    returns (end: SoakEnd, slots: nat, backfillFrom': Option<nat>)
    requires o.fullSlotSaveInterval >= 1
    modifies dir
    ensures SoakState(end, Counters(numSoakTxs, slots, numSoakBatches, numPreviousTxs, backfillFrom', lastBatch), dir.Slots())
         == Record(env, o, i, slot,
                   Counters(numSoakTxs, numSoakSlots, numSoakBatches, numPreviousTxs, backfillFrom, lastBatch),
                   old(dir.Slots()))
    ensures !end.FinishedOk?
    ensures old(SavedSlotsLead(dir.files)) ==> SavedSlotsLead(dir.files)
  {
    hide Numbered, FileName, Backfill, SavedSlotsLead;
    end, slots, backfillFrom' := Running, numSoakSlots, None;
    if backfillFrom.Some? {
      var filled := BackfillMissingSnapshots(env, i, dir, backfillFrom.value, slot.number);
      if !filled {
        end := FinishedErr("failed to backfill snapshot");
        return;
      }
    }
    var saved := slot;
    if numSoakBatches > 0 {
      slots := slots + 1;
      if slots % o.fullSlotSaveInterval == 0 {
        var full := env.slot(i, slot.number);
        if full.Some? {
          saved := full.value;
        }
      }
    }
    if o.saveSlotSnapshots {
      dir.SaveSlotSnapshot(saved);
    }
  }

  /** Every joined task ended without an error, was cancelled by the teardown itself, or failed near
      the end of the test. */
  ghost predicate AllTolerated(remaining: seq<TaskResult>, close: bool) {
    forall k :: 0 <= k < |remaining| ==>
      remaining[k].TaskOk? || remaining[k].TaskCancelled? || (remaining[k].TaskFailed? && close)
  }

  /** The text mentions every joined task that is not tolerated. */
  ghost predicate MentionsTasks(text: string, remaining: seq<TaskResult>, close: bool) {
    forall k :: 0 <= k < |remaining| ==>
      && (remaining[k].TaskFailed? && !close ==> Mentions(text, remaining[k].message))
      && (remaining[k].TaskPanicked? ==> Mentions(text, "background task panicked during shutdown"))
  }

  /** How a process that is not reaped yet is stopped: at once if the run failed, patiently if not. */
  ghost predicate IsStop(
      done: seq<Action>, failed: bool, reapedBefore: bool, reapedAfter: bool, stopped: Result<(), ProcessError>)
  {
    if reapedBefore then done == [] && stopped == Ok(())
    else if failed then IsShutdown(done, stopped, reapedAfter)
    else IsPatientShutdown(done, stopped, reapedAfter)
  }

  /** The process is stopped as above, unless it was reaped before; if it is not `reaped` even then,
      dropping it sends a last SIGKILL. */
  ghost predicate StopsThenDrops(all: seq<Action>, failed: bool, reaped: bool, stopped: Result<(), ProcessError>) {
    if reaped then IsStop(all, failed, true, true, stopped) || IsStop(all, failed, false, true, stopped)
    else all != [] && all[|all| - 1] == SigKill && IsStop(all[..|all| - 1], failed, false, false, stopped)
  }

  /** Collects the errors of the joined tasks. */
  method JoinTasks(remaining: seq<TaskResult>, close: bool) returns (errors: seq<string>)
    ensures errors == [] <==> AllTolerated(remaining, close)
    ensures forall k :: 0 <= k < |remaining| && remaining[k].TaskFailed? && !close ==> remaining[k].message in errors
    ensures forall k :: 0 <= k < |remaining| && remaining[k].TaskPanicked? ==>
      "background task panicked during shutdown" in errors
  {
    errors := [];
    for k := 0 to |remaining|
      invariant errors == [] <==> AllTolerated(remaining[..k], close)
      invariant forall j :: 0 <= j < k && remaining[j].TaskFailed? && !close ==> remaining[j].message in errors
      invariant forall j :: 0 <= j < k && remaining[j].TaskPanicked? ==>
        "background task panicked during shutdown" in errors
    {
      match remaining[k] {
        case TaskFailed(message) =>
          if !close {
            errors := errors + [message];
          }
        case TaskPanicked => errors := errors + ["background task panicked during shutdown"];
        case _ =>
      }
    }
    assert remaining[..|remaining|] == remaining;
  }

  /** Joins the aborted background tasks and stops the rollup process: None exactly if nothing
      failed, and otherwise everything that failed is mentioned. */
  method Teardown(
      primaryError: Option<string>, remaining: seq<TaskResult>, close: bool, rollup: ManagedRollupProcess)
    returns (r: Option<string>, ghost stopped: Result<(), ProcessError>)
    modifies rollup
    ensures r.None? <==> primaryError.None? && AllTolerated(remaining, close) && stopped.Ok?
    ensures primaryError.Some? ==> Mentions(r.value, primaryError.value)
    ensures MentionsTasks(if r.Some? then r.value else "", remaining, close)
    ensures stopped.Err? ==> Mentions(r.value, ProcessErrorText(stopped.error))
    ensures stopped.Ok? ==> rollup.id.None?
    ensures old(rollup.actions) <= rollup.actions
    ensures IsStop(rollup.actions[|old(rollup.actions)|..], primaryError.Some?, old(rollup.id).None?, rollup.id.None?, stopped)
    ensures rollup.waited <= old(rollup.waited) + 62
  {
    hide Mentions, KillsOnlyAfterGrace, IsShutdown, IsPatientShutdown, AllTolerated;
    var additionalErrors := JoinTasks(remaining, close);
    ghost var taskErrors := additionalErrors;
    var result: Result<(), ProcessError>;
    if primaryError.Some? {
      result := rollup.Shutdown();
    } else {
      result := rollup.EnsureStopped();
    }
    stopped := result;
    if result.Err? {
      additionalErrors := additionalErrors + [ProcessErrorText(result.error)];
      assert additionalErrors[|taskErrors|] == ProcessErrorText(result.error);
    }
    assert forall e :: e in taskErrors ==> e in additionalErrors;
    r := CombineSoakErrors(primaryError, additionalErrors);
  }

  /** Teardown at the end of a run, where the process is dropped. */
  method TeardownAndDrop(
      primaryError: Option<string>, remaining: seq<TaskResult>, close: bool, rollup: ManagedRollupProcess)
    returns (r: Option<string>, ghost stopped: Result<(), ProcessError>)
    modifies rollup
    ensures r.None? <==> primaryError.None? && AllTolerated(remaining, close) && stopped.Ok?
    ensures primaryError.Some? ==> Mentions(r.value, primaryError.value)
    ensures MentionsTasks(if r.Some? then r.value else "", remaining, close)
    ensures stopped.Err? ==> Mentions(r.value, ProcessErrorText(stopped.error))
    ensures stopped.Ok? ==> rollup.id.None?
    ensures old(rollup.id).None? ==> stopped.Ok?
    ensures old(rollup.actions) <= rollup.actions
    ensures StopsThenDrops(rollup.actions[|old(rollup.actions)|..], primaryError.Some?, rollup.id.None?, stopped)
    ensures rollup.StoppedOrKilled()
    ensures rollup.waited <= old(rollup.waited) + 62
  {
    hide Mentions, MentionsTasks, AllTolerated, IsShutdown, IsPatientShutdown, ProcessErrorText;
    r, stopped := Teardown(primaryError, remaining, close, rollup);
    ghost var done := rollup.actions[|old(rollup.actions)|..];
    rollup.Drop();
    ghost var all := rollup.actions[|old(rollup.actions)|..];
    assert all == done + (if rollup.id.Some? then [SigKill] else []);
    assert rollup.id.Some? ==> all[..|all| - 1] == done;
  }

  /** The soak run: the workers, the event loop, then teardown of the background tasks (which end
      with `remaining`) and of the rollup process, which is dropped on every exit. */
  method RunSoak(
      env: SoakEnvironment, config: SoakConfig, o: SoakOptions, events: seq<SoakEvent>, remaining: seq<TaskResult>,
      dir: SnapshotDir, rollup: ManagedRollupProcess)
    returns (r: SoakResult, workerIds: seq<nat>, ghost stopped: Result<(), ProcessError>)
    requires WellFormedEvents(events) && o.fullSlotSaveInterval >= 1
    modifies dir, rollup
    ensures !env.startsUp ==> r.SoakFailed? && dir.Slots() == old(dir.Slots()) && workerIds == []
    ensures env.startsUp ==> AreWorkerIds(workerIds, config)
    ensures env.startsUp ==>
      var s := SoakLoop(env, o, events, old(dir.Slots()));
      && dir.Slots() == s.slots
      && (r.Unfinished? <==> s.end.Running?)
      && (s.end.FinishedErr? ==> r.SoakFailed? && Mentions(r.message, s.end.message))
      && (r.Finished? ==> r.report == ThroughputReport(s.c.txs, s.c.slots) && rollup.id.None?)
    ensures env.startsUp && !r.Unfinished? ==>
      var s := SoakLoop(env, o, events, old(dir.Slots()));
      && (r.Finished? <==> s.end.FinishedOk? && AllTolerated(remaining, NearEnd(o, s.c.batches)) && stopped.Ok?)
      && (s.end == FinishedOk(true) ==> stopped.Ok?)
      && (stopped.Err? ==> r.SoakFailed? && Mentions(r.message, ProcessErrorText(stopped.error)))
      && MentionsTasks(if r.SoakFailed? then r.message else "", remaining, NearEnd(o, s.c.batches))
    ensures old(SavedSlotsLead(dir.files)) ==> SavedSlotsLead(dir.files)
    ensures old(rollup.actions) <= rollup.actions
    ensures env.startsUp && !r.Unfinished? ==>
      StopsThenDrops(rollup.actions[|old(rollup.actions)|..],
                     SoakLoop(env, o, events, old(dir.Slots())).end.FinishedErr?, rollup.id.None?, stopped)
    ensures !r.Unfinished? ==> rollup.StoppedOrKilled()
    ensures rollup.waited <= old(rollup.waited) + 62 < old(rollup.waited) + TOP_LEVEL_ABORT_SECS
  {
    hide Numbered, FileName, SavedSlotsLead, Account, Record, Mentions, MentionsTasks, AllTolerated, NearEnd,
      IsVeryCloseToSoakTestEnd, StopsThenDrops, ProcessErrorText;
    workerIds, stopped := [], Ok(());
    if !env.startsUp {
      rollup.Drop();
      r := SoakFailed("failed to start the soak run");
      return;
    }
    workerIds := SpawnWorkers(config.numWorkers, config.salt);
    var target := TargetSoakBatches(o);
    var backfillFrom := if o.saveSlotSnapshots then o.snapshotBackfillStart else None;
    var numSoakTxs: nat, numSoakSlots: nat, numSoakBatches: nat := 0, 0, 0;
    var numPreviousTxs: Option<nat> := None;
    ghost var lastBatch: Option<nat> := None;
    var end := Running;
    var i := 0;
    while i < |events| && end.Running?
      invariant 0 <= i <= |events|
      invariant rollup.waited == old(rollup.waited) && rollup.actions == old(rollup.actions)
      invariant end == FinishedOk(true) ==> rollup.id.None?
      invariant old(SavedSlotsLead(dir.files)) ==> SavedSlotsLead(dir.files)
      invariant var c := Counters(numSoakTxs, numSoakSlots, numSoakBatches, numPreviousTxs, backfillFrom, lastBatch);
        SoakLoop(env, o, events, old(dir.Slots()))
          == if end.Running? then RunEvents(env, o, events, i, c, dir.Slots()) else SoakState(end, c, dir.Slots())
      decreases |events| - i
    {
      var event := events[i];
      match event {
      case RollupExited(status) =>
        if status.None? {
          end := FinishedErr("failed to wait for rollup process");
        } else {
          rollup.Reaped();
          end := if status.value == Success then FinishedOk(true) else FinishedErr("non-zero exit status");
        }
      case TaskEnded(result) =>
        match result {
          case TaskOk =>
          case TaskFailed(message) =>
            if !IsVeryCloseToSoakTestEnd(numSoakBatches, target) {
              end := FinishedErr(message);
            }
          case _ => end := FinishedErr("background task panicked");
        }
      case StreamFailed => end := FinishedErr("slot stream error");
      case StreamClosed(process) =>
        match process {
          case HasExited(status) =>
            rollup.Reaped();
            end := if status == Success then FinishedOk(true) else FinishedErr("non-zero exit status");
          case StillRunning =>
            end := if IsVeryCloseToSoakTestEnd(numSoakBatches, target) then FinishedOk(false)
                   else FinishedErr("slot stream closed early");
          case QueryFailed => end := FinishedErr("failed to query rollup status");
        }
      case ShutdownSignal => end := FinishedErr("shutdown requested");
      case NewSlot(slot) =>
        end, numSoakTxs, numSoakBatches, numPreviousTxs, lastBatch :=
          AccountSlot(env, o, i, slot, numSoakTxs, numSoakSlots, numSoakBatches, numPreviousTxs, backfillFrom, lastBatch);
        if end.Running? {
          end, numSoakSlots, backfillFrom :=
            RecordSlot(env, o, i, slot, numSoakTxs, numSoakSlots, numSoakBatches, numPreviousTxs, backfillFrom, lastBatch, dir);
        }
      }
      i := i + 1;
    }
    if end.Running? {
      r := Unfinished;
      return;
    }
    var primaryError := if end.FinishedErr? then Some(end.message) else None;
    VeryCloseIsNearEnd(o, numSoakBatches);
    var combined;
    combined, stopped := TeardownAndDrop(primaryError, remaining, IsVeryCloseToSoakTestEnd(numSoakBatches, target), rollup);
    r := if combined.Some? then SoakFailed(combined.value)
         else Finished(ThroughputReport(numSoakTxs, numSoakSlots));
  }
}
