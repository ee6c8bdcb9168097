/** Replaying a rollup against its saved snapshots, across version handovers.

    The environment is adversarial: it chooses the notifications, whether each reconnect
    succeeds, and what the ledger API answers to each fetch. */
module Resync {
  import opened Common
  import opened Ledger
  import opened RunPlan

  /** Snapshots of slots below this number may be missing. */
  const WARMUP_SLOTS: nat := 10

  datatype Notification = Delivered(number: nat) | StreamDropped | ShutdownSignal

  /** `ledger(k, n, c)` answers the k-th fetch, for slot n, with children iff c; None is an API
      error. `reconnects(k)` says whether the k-th reconnect succeeds. */
  datatype Environment = Environment(
    startsUp: bool,
    ledger: (nat, nat, bool) -> Option<Slot>,
    reconnects: nat -> bool)

  datatype Context = Context(snapshots: map<nat, Slot>, plan: Plan, env: Environment)

  datatype Failure =
    | StartupFailed
    | ShutdownRequested
    | NoProgress(checked: nat)
    | ReconnectFailed
    | MissingSnapshot(slot: nat, found: nat)
    | TooFewBatches(slot: nat, found: nat)
    | SnapshotMismatch(slot: nat)

  /** Pending: all notifications are consumed and the run still waits for the next one. */
  datatype Outcome =
    | Resynced(latestBatch: nat, firstNewSlot: nat)
    | Failed(failure: Failure)
    | Pending

  datatype Fetch = Fetch(slot: nat, withChildren: bool, answer: Option<Slot>)

  // ---------------------------------------------------------------- one sweep over slots

  datatype SweepEnd =
    | SweptAll
    | ReachedEnd(firstNewSlot: nat)
    | LedgerDown(slot: nat)
    | Fatal(failure: Failure)

  datatype SweepResult = SweepResult(end: SweepEnd, latestBatch: nat, log: seq<Fetch>)

  function FetchSlot(ctx: Context, slot: nat, log: seq<Fetch>): Fetch
    requires slot in ctx.snapshots
  {
    var withChildren := ctx.snapshots[slot].batches != [];
    Fetch(slot, withChildren, ctx.env.ledger(|log|, slot, withChildren))
  }

  predicate Matches(ctx: Context, slot: nat, live: Slot)
    requires slot in ctx.snapshots
  {
    var snapshot := ctx.snapshots[slot];
    CompareAgainstSnapshot(live, PatchedSnapshot(snapshot, live, ctx.plan.MigrationBoundaryBatchCounts()))
  }

  /** Compares the slots `from..=upTo` with their snapshots, in order, until something stops it. */
  function Sweep(ctx: Context, from: nat, upTo: nat, latest: nat, log: seq<Fetch>): SweepResult
    decreases upTo + 1 - from
  {
    var expected := ctx.plan.ExpectedSetupBatches();
    if from > upTo then SweepResult(SweptAll, latest, log)
    else if from !in ctx.snapshots then
      if from < WARMUP_SLOTS then Sweep(ctx, from + 1, upTo, latest, log)
      else if latest < expected then SweepResult(Fatal(MissingSnapshot(from, latest)), latest, log)
      else SweepResult(ReachedEnd(from), latest, log)
    else
      var latest' := SaturatingSub(ctx.snapshots[from].batchEnd, 1);
      var fetch := FetchSlot(ctx, from, log);
      var log' := log + [fetch];
      if fetch.answer.None? then SweepResult(LedgerDown(from), latest', log')
      else if !Matches(ctx, from, fetch.answer.value) then
        SweepResult(Fatal(SnapshotMismatch(from)), latest', log')
      else if Some(from) == ctx.plan.LastRecordedSlot() then
        if latest' < expected then SweepResult(Fatal(TooFewBatches(from, latest')), latest', log')
        else SweepResult(ReachedEnd(from + 1), latest', log')
      else Sweep(ctx, from + 1, upTo, latest', log')
  }

  // ---------------------------------------------------------------- the outer loop

  datatype State = State(
    checked: nat,
    latestBatch: nat,
    lastReconnectAt: Option<nat>,
    reconnects: nat,
    log: seq<Fetch>)

  datatype StepResult = Continue(st: State) | Stop(outcome: Outcome, st: State)

  const INITIAL_STATE := State(0, 0, None, 0, [])

  function Reconnect(ctx: Context, st: State): StepResult {
    if st.lastReconnectAt == Some(st.checked) then Stop(Failed(NoProgress(st.checked)), st)
    else
      var st' := st.(lastReconnectAt := Some(st.checked), reconnects := st.reconnects + 1);
      if ctx.env.reconnects(st.reconnects) then Continue(st') else Stop(Failed(ReconnectFailed), st')
  }

  function Step(ctx: Context, st: State, note: Notification): StepResult {
    match note
    case ShutdownSignal => Stop(Failed(ShutdownRequested), st)
    case StreamDropped => Reconnect(ctx, st)
    case Delivered(n) =>
      var r := Sweep(ctx, st.checked, n, st.latestBatch, st.log);
      var st' := st.(latestBatch := r.latestBatch, log := r.log);
      match r.end
      case SweptAll => Continue(st'.(checked := n))
      case ReachedEnd(f) => Stop(Resynced(r.latestBatch, f), st')
      case LedgerDown(_) => Reconnect(ctx, st')
      case Fatal(failure) => Stop(Failed(failure), st')
  }

  function Run(ctx: Context, st: State, notes: seq<Notification>): (r: StepResult)
    ensures r.Stop?
    decreases |notes|
  {
    if notes == [] then Stop(Pending, st)
    else
      var r := Step(ctx, st, notes[0]);
      if r.Stop? then r else Run(ctx, r.st, notes[1..])
  }

  /** A whole resync: the outcome of a run and the fetches it made. */
  function Replay(ctx: Context, notes: seq<Notification>): (r: StepResult)
    ensures r.Stop?
  {
    if !ctx.env.startsUp then Stop(Failed(StartupFailed), INITIAL_STATE)
    else Run(ctx, INITIAL_STATE, notes)
  }

  method ReconnectAfterHandover(env: Environment, checked: nat, lastReconnectAt: Option<nat>, attempts: nat)
    returns (failure: Option<Failure>, lastReconnectAt': Option<nat>, attempts': nat)
    ensures lastReconnectAt == Some(checked) ==>
              failure == Some(NoProgress(checked)) && lastReconnectAt' == lastReconnectAt && attempts' == attempts
    ensures lastReconnectAt != Some(checked) ==>
              && lastReconnectAt' == Some(checked)
              && attempts' == attempts + 1
              && failure == if env.reconnects(attempts) then None else Some(ReconnectFailed)
  {
    if lastReconnectAt == Some(checked) {
      return Some(NoProgress(checked)), lastReconnectAt, attempts;
    }
    lastReconnectAt', attempts' := Some(checked), attempts + 1;
    failure := if env.reconnects(attempts) then None else Some(ReconnectFailed);
  }

  /** The replay as the tool performs it: an outer loop over notifications and an inner loop over
      slot numbers, updating the same variables. */
  method ResyncAndVerifySlots(ctx: Context, notes: seq<Notification>)
    returns (outcome: Outcome, ghost log: seq<Fetch>)
    ensures outcome == Replay(ctx, notes).outcome
    ensures log == Replay(ctx, notes).st.log
  {
    log := [];
    if !ctx.env.startsUp {
      return Failed(StartupFailed), log;
    }
    var expectedSetupBatches := ctx.plan.ExpectedSetupBatches();
    var lastRecordedSlot := ctx.plan.LastRecordedSlot();
    var boundaryCounts := ctx.plan.MigrationBoundaryBatchCounts();
    var checked: nat, latestBatch: nat, attempts: nat, fetches: nat := 0, 0, 0, 0;
    var lastReconnectAt: Option<nat> := None;
    var i := 0;
    while i < |notes|
      invariant 0 <= i <= |notes|
      invariant fetches == |log|
      invariant Run(ctx, INITIAL_STATE, notes)
             == Run(ctx, State(checked, latestBatch, lastReconnectAt, attempts, log), notes[i..])
    {
      var note := notes[i];
      i := i + 1;
      var failure: Option<Failure>;
      if note.ShutdownSignal? {
        return Failed(ShutdownRequested), log;
      }
      if note.StreamDropped? {
        failure, lastReconnectAt, attempts := ReconnectAfterHandover(ctx.env, checked, lastReconnectAt, attempts);
        if failure.Some? {
          return Failed(failure.value), log;
        }
        continue;
      }
      ghost var st := State(checked, latestBatch, lastReconnectAt, attempts, log);
      var slotNumber := checked;
      var interrupted := false;
      while slotNumber <= note.number
        invariant checked <= slotNumber
        invariant fetches == |log|
        invariant Sweep(ctx, st.checked, note.number, st.latestBatch, st.log)
               == Sweep(ctx, slotNumber, note.number, latestBatch, log)
        decreases note.number + 1 - slotNumber
      {
        if slotNumber !in ctx.snapshots {
          if slotNumber < WARMUP_SLOTS {
            slotNumber := slotNumber + 1;
            continue;
          } else if latestBatch < expectedSetupBatches {
            return Failed(MissingSnapshot(slotNumber, latestBatch)), log;
          } else {
            return Resynced(latestBatch, slotNumber), log;
          }
        }
        var snapshot := ctx.snapshots[slotNumber];
        latestBatch := SaturatingSub(snapshot.batchEnd, 1);
        var includeChildren := snapshot.batches != [];
        var answer := ctx.env.ledger(fetches, slotNumber, includeChildren);
        log := log + [Fetch(slotNumber, includeChildren, answer)];
        fetches := fetches + 1;
        if answer.None? {
          interrupted := true;
          break;
        }
        var live := answer.value;
        if IsMigrationBoundary(snapshot, boundaryCounts) && snapshot.stateRoot != live.stateRoot {
          snapshot := snapshot.(stateRoot := live.stateRoot);
        }
        if !CompareAgainstSnapshot(live, snapshot) {
          return Failed(SnapshotMismatch(slotNumber)), log;
        }
        if Some(slotNumber) == lastRecordedSlot {
          if latestBatch < expectedSetupBatches {
            return Failed(TooFewBatches(slotNumber, latestBatch)), log;
          }
          return Resynced(latestBatch, slotNumber + 1), log;
        }
        slotNumber := slotNumber + 1;
      }
      if interrupted {
        failure, lastReconnectAt, attempts := ReconnectAfterHandover(ctx.env, checked, lastReconnectAt, attempts);
        if failure.Some? {
          return Failed(failure.value), log;
        }
        continue;
      }
      checked := note.number;
    }
    outcome := Pending;
  }
}
