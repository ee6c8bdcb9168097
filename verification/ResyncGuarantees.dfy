/** What every resync run guarantees, whatever the environment does. */
module ResyncGuarantees {
  import opened Common
  import opened Ledger
  import opened RunPlan
  import opened Resync

  // ---------------------------------------------------------------- coverage

  /** Every fetch in the log is the environment's own answer to it. */
  ghost predicate Authentic(ctx: Context, log: seq<Fetch>) {
    forall k :: 0 <= k < |log| ==>
      log[k].answer == ctx.env.ledger(k, log[k].slot, log[k].withChildren)
  }

  /** Some fetch in the log returned a live slot that replays the snapshot of `slot`. */
  ghost predicate FetchedAndReplayed(ctx: Context, log: seq<Fetch>, slot: nat)
    requires slot in ctx.snapshots
  {
    exists k :: 0 <= k < |log| && log[k].slot == slot && log[k].answer.Some?
             && log[k].withChildren == (ctx.snapshots[slot].batches != [])
             && Replays(log[k].answer.value, ctx.snapshots[slot], ctx.plan.MigrationBoundaryBatchCounts())
  }

  ghost predicate Handled(ctx: Context, log: seq<Fetch>, slot: nat) {
    if slot in ctx.snapshots then FetchedAndReplayed(ctx, log, slot) else slot < WARMUP_SLOTS
  }

  lemma HandledStaysHandled(ctx: Context, log: seq<Fetch>, log': seq<Fetch>, slot: nat)
    requires log <= log' && Handled(ctx, log, slot)
    ensures Handled(ctx, log', slot)
  {
    if slot in ctx.snapshots {
      var k :| 0 <= k < |log| && log[k].slot == slot && log[k].answer.Some?
             && log[k].withChildren == (ctx.snapshots[slot].batches != [])
             && Replays(log[k].answer.value, ctx.snapshots[slot], ctx.plan.MigrationBoundaryBatchCounts());
      assert log'[k] == log[k];
    }
  }

  /** One sweep handles every slot it passes, and keeps what was handled before. */
  lemma {:induction false} SweepHandles(ctx: Context, from: nat, upTo: nat, latest: nat, log: seq<Fetch>)
    requires Authentic(ctx, log)
    requires forall s: nat :: s < from ==> Handled(ctx, log, s)
    ensures var r := Sweep(ctx, from, upTo, latest, log);
            && log <= r.log
            && Authentic(ctx, r.log)
            && (r.end.SweptAll? ==> forall s: nat :: s < from || s <= upTo ==> Handled(ctx, r.log, s))
            && (r.end.ReachedEnd? ==> forall s: nat :: s < r.end.firstNewSlot ==> Handled(ctx, r.log, s))
            && (forall s: nat :: s < from ==> Handled(ctx, r.log, s))
    decreases upTo + 1 - from
  {
    if from > upTo {
    } else if from !in ctx.snapshots {
      if from < WARMUP_SLOTS {
        SweepHandles(ctx, from + 1, upTo, latest, log);
      }
    } else {
      var fetch := FetchSlot(ctx, from, log);
      var log' := log + [fetch];
      forall s: nat | s < from ensures Handled(ctx, log', s) {
        HandledStaysHandled(ctx, log, log', s);
      }
      if fetch.answer.Some? && Matches(ctx, from, fetch.answer.value) {
        PatchedComparisonIsReplay(fetch.answer.value, ctx.snapshots[from], ctx.plan.MigrationBoundaryBatchCounts());
        assert log'[|log|] == fetch;
        assert Handled(ctx, log', from);
        SweepHandles(ctx, from + 1, upTo, SaturatingSub(ctx.snapshots[from].batchEnd, 1), log');
      }
    }
  }

  lemma {:induction false} RunHandles(ctx: Context, st: State, notes: seq<Notification>)
    requires Authentic(ctx, st.log)
    requires forall s: nat :: s < st.checked ==> Handled(ctx, st.log, s)
    ensures var r := Run(ctx, st, notes);
            && Authentic(ctx, r.st.log)
            && (r.outcome.Resynced? ==> forall s: nat :: s < r.outcome.firstNewSlot ==> Handled(ctx, r.st.log, s))
    decreases |notes|
  {
    if notes == [] {
    } else {
      if notes[0].Delivered? {
        SweepHandles(ctx, st.checked, notes[0].number, st.latestBatch, st.log);
      }
      var r := Step(ctx, st, notes[0]);
      if r.Continue? {
        RunHandles(ctx, r.st, notes[1..]);
      }
    }
  }

  /** Coverage: when a run returns Ok, every slot before the reported one that has a snapshot was
      fetched live and replayed it, and every slot without one is a warmup slot. */
  lemma ResyncCoverage(ctx: Context, notes: seq<Notification>)
    ensures var r := Replay(ctx, notes);
            && Authentic(ctx, r.st.log)
            && (r.outcome.Resynced? ==>
                forall s: nat :: s < r.outcome.firstNewSlot ==>
                  if s in ctx.snapshots then FetchedAndReplayed(ctx, r.st.log, s) else s < WARMUP_SLOTS)
  {
    RunHandles(ctx, INITIAL_STATE, notes);
    var r := Replay(ctx, notes);
    if r.outcome.Resynced? {
      forall s: nat | s < r.outcome.firstNewSlot
        ensures if s in ctx.snapshots then FetchedAndReplayed(ctx, r.st.log, s) else s < WARMUP_SLOTS
      {
        assert Handled(ctx, r.st.log, s);
      }
    }
  }

  // ---------------------------------------------------------------- mismatches are fatal

  /** Every answered fetch in the log replays its snapshot. */
  ghost predicate AllReplay(ctx: Context, log: seq<Fetch>) {
    forall k :: 0 <= k < |log| && log[k].answer.Some? ==>
      && log[k].slot in ctx.snapshots
      && Replays(log[k].answer.value, ctx.snapshots[log[k].slot], ctx.plan.MigrationBoundaryBatchCounts())
  }

  /** The log ends with the fetch of `slot`, and that answer does not replay its snapshot. */
  ghost predicate EndsInMismatch(ctx: Context, log: seq<Fetch>, slot: nat) {
    && slot in ctx.snapshots
    && log != []
    && log[|log| - 1].slot == slot
    && log[|log| - 1].answer.Some?
    && !Replays(log[|log| - 1].answer.value, ctx.snapshots[slot], ctx.plan.MigrationBoundaryBatchCounts())
    && AllReplay(ctx, log[..|log| - 1])
  }

  ghost predicate MismatchIff(ctx: Context, failure: Option<Failure>, log: seq<Fetch>) {
    if failure.Some? && failure.value.SnapshotMismatch? then EndsInMismatch(ctx, log, failure.value.slot)
    else AllReplay(ctx, log)
  }

  function FailureOfSweep(end: SweepEnd): Option<Failure> {
    match end
    case Fatal(failure) => Some(failure)
    case _ => None
  }

  lemma {:induction false} SweepStopsAtMismatch(ctx: Context, from: nat, upTo: nat, latest: nat, log: seq<Fetch>)
    requires AllReplay(ctx, log)
    ensures var r := Sweep(ctx, from, upTo, latest, log); MismatchIff(ctx, FailureOfSweep(r.end), r.log)
    decreases upTo + 1 - from
  {
    if from > upTo {
    } else if from !in ctx.snapshots {
      if from < WARMUP_SLOTS {
        SweepStopsAtMismatch(ctx, from + 1, upTo, latest, log);
      }
    } else {
      var fetch := FetchSlot(ctx, from, log);
      var log' := log + [fetch];
      assert log'[..|log|] == log;
      if fetch.answer.Some? {
        PatchedComparisonIsReplay(fetch.answer.value, ctx.snapshots[from], ctx.plan.MigrationBoundaryBatchCounts());
        if Matches(ctx, from, fetch.answer.value) {
          SweepStopsAtMismatch(ctx, from + 1, upTo, SaturatingSub(ctx.snapshots[from].batchEnd, 1), log');
        }
      }
    }
  }

  lemma {:induction false} RunStopsAtMismatch(ctx: Context, st: State, notes: seq<Notification>)
    requires AllReplay(ctx, st.log)
    ensures var r := Run(ctx, st, notes);
            MismatchIff(ctx, if r.outcome.Failed? then Some(r.outcome.failure) else None, r.st.log)
    decreases |notes|
  {
    if notes == [] {
    } else {
      if notes[0].Delivered? {
        SweepStopsAtMismatch(ctx, st.checked, notes[0].number, st.latestBatch, st.log);
      }
      var r := Step(ctx, st, notes[0]);
      if r.Continue? {
        RunStopsAtMismatch(ctx, r.st, notes[1..]);
      }
    }
  }

  /** Content mismatches are always fatal: a run fails with a mismatch at slot s exactly when its
      last fetch answered s with something that does not replay the snapshot; in every other run,
      each answered fetch replayed. No reconnect ever hides a mismatch. */
  lemma MismatchesAreFatal(ctx: Context, notes: seq<Notification>)
    ensures var r := Replay(ctx, notes);
            if r.outcome.Failed? && r.outcome.failure.SnapshotMismatch?
            then EndsInMismatch(ctx, r.st.log, r.outcome.failure.slot)
            else AllReplay(ctx, r.st.log)
  {
    RunStopsAtMismatch(ctx, INITIAL_STATE, notes);
  }

  // ---------------------------------------------------------------- the verdict is determined

  predicate Gap(ctx: Context, s: nat) {
    s >= WARMUP_SLOTS && s !in ctx.snapshots
  }

  predicate FinalSnapshot(ctx: Context, s: nat) {
    s in ctx.snapshots && ctx.plan.LastRecordedSlot() == Some(s)
  }

  /** The cumulative batch end of the newest snapshot below `bound`. */
  function EndBelow(ctx: Context, bound: nat): nat {
    if bound == 0 then 0
    else if bound - 1 in ctx.snapshots then ctx.snapshots[bound - 1].batchEnd
    else EndBelow(ctx, bound - 1)
  }

  /** The batch number that the replay has found in the snapshots below `bound`. */
  function LatestBelow(ctx: Context, bound: nat): nat {
    SaturatingSub(EndBelow(ctx, bound), 1)
  }

  ghost predicate NothingStopsBelow(ctx: Context, bound: nat) {
    forall s: nat :: s < bound ==> !Gap(ctx, s) && !FinalSnapshot(ctx, s)
  }

  /** `f` is where the recorded data ends: the first gap, or the slot after the final snapshot. */
  ghost predicate IsFrontier(ctx: Context, f: nat) {
    || (Gap(ctx, f) && NothingStopsBelow(ctx, f))
    || (f > 0 && FinalSnapshot(ctx, f - 1) && NothingStopsBelow(ctx, f - 1))
  }

  lemma FrontierIsUnique(ctx: Context, f: nat, g: nat)
    requires IsFrontier(ctx, f) && IsFrontier(ctx, g)
    ensures f == g
  {
  }

  /** The outcome that the directory and the plan alone prescribe at the frontier `f`. */
  function Verdict(ctx: Context, f: nat): Outcome {
    var found := LatestBelow(ctx, f);
    if found >= ctx.plan.ExpectedSetupBatches() then Resynced(found, f)
    else if f > 0 && FinalSnapshot(ctx, f - 1) then Failed(TooFewBatches(f - 1, found))
    else Failed(MissingSnapshot(f, found))
  }

  /** Failures that only the environment can cause. */
  predicate EnvironmentFailure(failure: Failure) {
    failure.StartupFailed? || failure.ShutdownRequested? || failure.NoProgress? || failure.ReconnectFailed?
    || failure.SnapshotMismatch?
  }

  ghost predicate IsVerdict(ctx: Context, outcome: Outcome) {
    exists f: nat :: IsFrontier(ctx, f) && outcome == Verdict(ctx, f)
  }

  predicate Knows(ctx: Context, q: nat, latest: nat) {
    latest == LatestBelow(ctx, q)
  }

  /** Invariant of the loops: `latest` belongs to the slots below `q`, and none of those ends the
      replay, except that slot q-1 may be the final snapshot whose fetch just failed. */
  ghost predicate Tracks(ctx: Context, at: nat, q: nat, latest: nat) {
    && at <= q
    && Knows(ctx, q, latest)
    && NothingStopsBelow(ctx, at)
    && (forall s: nat :: s < q ==> !Gap(ctx, s))
    && (forall s: nat :: s + 1 < q ==> !FinalSnapshot(ctx, s))
  }

  lemma {:induction false} SweepReachesVerdict(ctx: Context, from: nat, upTo: nat, latest: nat, log: seq<Fetch>, q: nat)
    returns (q': nat)
    requires Tracks(ctx, from, q, latest)
    ensures var r := Sweep(ctx, from, upTo, latest, log);
            match r.end
            case SweptAll => Tracks(ctx, Max(from, upTo + 1), q', r.latestBatch)
            case LedgerDown(s) => Tracks(ctx, from, q', r.latestBatch)
            case ReachedEnd(f) => IsFrontier(ctx, f) && Resynced(r.latestBatch, f) == Verdict(ctx, f)
            case Fatal(failure) => failure.SnapshotMismatch? || IsVerdict(ctx, Failed(failure))
    decreases upTo + 1 - from
  {
    q' := q;
    if from > upTo {
    } else if from !in ctx.snapshots {
      if from < WARMUP_SLOTS {
        q' := SweepReachesVerdict(ctx, from + 1, upTo, latest, log, Max(q, from + 1));
      } else {
        assert IsFrontier(ctx, from);
        assert q == from;
      }
    } else {
      var latest' := SaturatingSub(ctx.snapshots[from].batchEnd, 1);
      var fetch := FetchSlot(ctx, from, log);
      if fetch.answer.None? {
        q' := from + 1;
      } else if Matches(ctx, from, fetch.answer.value) {
        if FinalSnapshot(ctx, from) {
          assert IsFrontier(ctx, from + 1);
        } else {
          q' := SweepReachesVerdict(ctx, from + 1, upTo, latest', log + [fetch], from + 1);
        }
      }
    }
  }

  lemma {:induction false} RunReachesVerdict(ctx: Context, st: State, notes: seq<Notification>, q: nat)
    requires Tracks(ctx, st.checked, q, st.latestBatch)
    ensures var outcome := Run(ctx, st, notes).outcome;
            || outcome.Pending?
            || (outcome.Failed? && EnvironmentFailure(outcome.failure))
            || IsVerdict(ctx, outcome)
    decreases |notes|
  {
    if notes == [] {
    } else {
      var q' := q;
      if notes[0].Delivered? {
        q' := SweepReachesVerdict(ctx, st.checked, notes[0].number, st.latestBatch, st.log, q);
      }
      var r := Step(ctx, st, notes[0]);
      if r.Continue? {
        RunReachesVerdict(ctx, r.st, notes[1..], q');
      }
    }
  }

  /** Confluence: apart from failures the environment causes, every run of the same directory and
      plan ends with the one outcome they prescribe, at the one frontier they have. */
  lemma ResyncIsDetermined(ctx: Context, notes: seq<Notification>)
    ensures var outcome := Replay(ctx, notes).outcome;
            || outcome.Pending?
            || (outcome.Failed? && EnvironmentFailure(outcome.failure))
            || (exists f: nat :: IsFrontier(ctx, f) && outcome == Verdict(ctx, f)
                              && forall g: nat :: IsFrontier(ctx, g) ==> g == f)
  {
    RunReachesVerdict(ctx, INITIAL_STATE, notes, 0);
    var outcome := Replay(ctx, notes).outcome;
    if IsVerdict(ctx, outcome) {
      var f: nat :| IsFrontier(ctx, f) && outcome == Verdict(ctx, f);
      forall g: nat | IsFrontier(ctx, g) ensures g == f {
        FrontierIsUnique(ctx, f, g);
      }
    }
  }

  /** When the data suffices, in numbers: the newest snapshot before the frontier ends at the
      recorded end height (without recorded bounds, at the end of the first version) or later. */
  lemma VerdictInNumbers(ctx: Context, n: nat, b: nat, f: nat)
    requires n >= 1 && b >= 1 && IsPlanFor(ctx.plan, n, b, ctx.plan.recorded)
    ensures var end := if ctx.plan.recorded.Some? then ctx.plan.recorded.value.endRollupHeight else b;
            if EndBelow(ctx, f) >= end || end <= 1 then
              Verdict(ctx, f) == Resynced(if EndBelow(ctx, f) == 0 then 0 else EndBelow(ctx, f) - 1, f)
            else if ctx.plan.recorded.Some? && ctx.plan.recorded.value.lastSlotNumber in ctx.snapshots
                    && f == ctx.plan.recorded.value.lastSlotNumber + 1 then
              Verdict(ctx, f).Failed? && Verdict(ctx, f).failure.TooFewBatches?
            else
              Verdict(ctx, f).Failed? && Verdict(ctx, f).failure.MissingSnapshot?
  {
  }

  // ---------------------------------------------------------------- exactness

  /** The plan's bounds were derived from this very directory. */
  ghost predicate BoundsOf(snapshots: map<nat, Slot>, bounds: RecordedDataBounds) {
    && bounds.lastSlotNumber in snapshots
    && bounds.endRollupHeight == snapshots[bounds.lastSlotNumber].batchEnd
    && forall s :: s in snapshots ==> s <= bounds.lastSlotNumber
  }

  ghost predicate Covered(snapshots: map<nat, Slot>, last: nat) {
    forall s: nat :: WARMUP_SLOTS <= s <= last ==> s in snapshots
  }

  lemma {:induction false} LatestBelowAtSnapshot(ctx: Context, s: nat)
    requires s in ctx.snapshots
    ensures LatestBelow(ctx, s + 1) == SaturatingSub(ctx.snapshots[s].batchEnd, 1)
  {
  }

  /** With bounds from its own directory, the replay is prescribed to return exactly
      (E - 1, L + 1) if and only if no snapshot from slot 10 to L is missing. */
  lemma ExactIffCovered(ctx: Context, f: nat)
    requires ctx.plan.recorded.Some? && BoundsOf(ctx.snapshots, ctx.plan.recorded.value)
    requires IsFrontier(ctx, f)
    ensures Covered(ctx.snapshots, ctx.plan.recorded.value.lastSlotNumber)
       <==> Verdict(ctx, f) == Resynced(SaturatingSub(ctx.plan.recorded.value.endRollupHeight, 1),
                                        ctx.plan.recorded.value.lastSlotNumber + 1)
  {
    var bounds := ctx.plan.recorded.value;
    var last := bounds.lastSlotNumber;
    assert FinalSnapshot(ctx, last);
    LatestBelowAtSnapshot(ctx, last);
    if Covered(ctx.snapshots, last) {
      assert IsFrontier(ctx, last + 1);
      FrontierIsUnique(ctx, f, last + 1);
    } else {
      var s: nat :| WARMUP_SLOTS <= s <= last && s !in ctx.snapshots;
      assert Gap(ctx, s);
    }
  }

  /** Exactness: if the bounds come from the directory and it covers slots 10..L, then a run that
      is not stopped by the environment returns exactly (E - 1, L + 1); in particular neither the
      missing-snapshot exit nor either batch-count failure is reachable. */
  lemma ResyncIsExact(ctx: Context, notes: seq<Notification>)
    requires ctx.plan.recorded.Some? && BoundsOf(ctx.snapshots, ctx.plan.recorded.value)
    requires Covered(ctx.snapshots, ctx.plan.recorded.value.lastSlotNumber)
    ensures var outcome := Replay(ctx, notes).outcome;
            var bounds := ctx.plan.recorded.value;
            || outcome.Pending?
            || (outcome.Failed? && EnvironmentFailure(outcome.failure))
            || outcome == Resynced(SaturatingSub(bounds.endRollupHeight, 1), bounds.lastSlotNumber + 1)
  {
    ResyncIsDetermined(ctx, notes);
    var outcome := Replay(ctx, notes).outcome;
    if !outcome.Pending? && !(outcome.Failed? && EnvironmentFailure(outcome.failure)) {
      var f: nat :| IsFrontier(ctx, f) && outcome == Verdict(ctx, f);
      ExactIffCovered(ctx, f);
    }
  }

  // ---------------------------------------------------------------- which roots may differ

  /** The slot carries batches, and the last of them closes version k of b blocks. */
  predicate ClosesVersion(slot: Slot, k: nat, b: nat) {
    slot.batchStart != slot.batchEnd && slot.batchEnd == k * b
  }

  /** A migration between two of n versions rewrites the root of this slot. */
  ghost predicate RootIsMigrated(slot: Slot, n: nat, b: nat) {
    exists k: nat :: 1 <= k < n && ClosesVersion(slot, k, b)
  }

  lemma BoundaryCountsCloseVersions(plan: Plan, n: nat, b: nat, recorded: Option<RecordedDataBounds>, slot: Slot)
    requires n >= 1 && b >= 1 && IsPlanFor(plan, n, b, recorded)
    ensures slot.batchStart != slot.batchEnd && slot.batchEnd in plan.MigrationBoundaryBatchCounts()
       <==> RootIsMigrated(slot, n, b)
  {
    var counts := plan.MigrationBoundaryBatchCounts();
    if slot.batchStart != slot.batchEnd && slot.batchEnd in counts {
      var i :| 0 <= i < |counts| && counts[i] == slot.batchEnd;
      assert ClosesVersion(slot, i + 1, b);
    }
    if RootIsMigrated(slot, n, b) {
      var k: nat :| 1 <= k < n && ClosesVersion(slot, k, b);
      assert counts[k - 1] == slot.batchEnd;
    }
  }

  /** Which live slots are accepted, for n versions of b blocks: those that equal their snapshot but
      for the root, and whose root differs only at a slot with batches that end at k*b, 1 <= k < n. */
  lemma AcceptedIff(plan: Plan, n: nat, b: nat, recorded: Option<RecordedDataBounds>, live: Slot, snapshot: Slot)
    requires n >= 1 && b >= 1 && IsPlanFor(plan, n, b, recorded)
    ensures CompareAgainstSnapshot(live, PatchedSnapshot(snapshot, live, plan.MigrationBoundaryBatchCounts()))
       <==> && live.(stateRoot := snapshot.stateRoot) == snapshot
            && (live.stateRoot != snapshot.stateRoot ==> RootIsMigrated(snapshot, n, b))
  {
    PatchedComparisonIsReplay(live, snapshot, plan.MigrationBoundaryBatchCounts());
    BoundaryCountsCloseVersions(plan, n, b, recorded, snapshot);
  }

  /** Every answer of the ledger equals the snapshot, except for roots that a migration rewrites. */
  ghost predicate ExactButForMigratedRoots(ctx: Context, n: nat, b: nat) {
    forall k: nat, s: nat, c: bool :: s in ctx.snapshots && ctx.env.ledger(k, s, c).Some? ==>
      var live, snapshot := ctx.env.ledger(k, s, c).value, ctx.snapshots[s];
      && live.(stateRoot := snapshot.stateRoot) == snapshot
      && (live.stateRoot != snapshot.stateRoot ==> RootIsMigrated(snapshot, n, b))
  }

  /** Migrated roots are never mismatches: whatever the notifications and the timing of the
      migrations, such a ledger never fails the replay. */
  lemma MigratedRootsAreAccepted(ctx: Context, n: nat, b: nat, notes: seq<Notification>)
    requires n >= 1 && b >= 1 && IsPlanFor(ctx.plan, n, b, ctx.plan.recorded)
    requires ExactButForMigratedRoots(ctx, n, b)
    ensures var outcome := Replay(ctx, notes).outcome;
            !(outcome.Failed? && outcome.failure.SnapshotMismatch?)
  {
    hide PatchedSnapshot, IsPlanFor;
    var r := Replay(ctx, notes);
    MismatchesAreFatal(ctx, notes);
    ResyncCoverage(ctx, notes);
    hide Replay;
    if r.outcome.Failed? && r.outcome.failure.SnapshotMismatch? {
      var last := r.st.log[|r.st.log| - 1];
      assert last.answer == ctx.env.ledger(|r.st.log| - 1, last.slot, last.withChildren);
      BoundaryCountsCloseVersions(ctx.plan, n, b, ctx.plan.recorded, ctx.snapshots[last.slot]);
      assert false;
    }
  }

  /** Any other difference is: a fetch in the log of a run whose answer differs in another field, or
      in the root of a slot that closes no version, is the last one, and the run fails with it. */
  lemma OtherDifferencesAreFatal(ctx: Context, n: nat, b: nat, notes: seq<Notification>, k: nat)
    requires n >= 1 && b >= 1 && IsPlanFor(ctx.plan, n, b, ctx.plan.recorded)
    requires k < |Replay(ctx, notes).st.log| && Replay(ctx, notes).st.log[k].answer.Some?
    requires Replay(ctx, notes).st.log[k].slot in ctx.snapshots
    requires var live, snapshot := Replay(ctx, notes).st.log[k].answer.value, ctx.snapshots[Replay(ctx, notes).st.log[k].slot];
             || live.(stateRoot := snapshot.stateRoot) != snapshot
             || (live.stateRoot != snapshot.stateRoot && !RootIsMigrated(snapshot, n, b))
    ensures k == |Replay(ctx, notes).st.log| - 1
    ensures Replay(ctx, notes).outcome == Failed(SnapshotMismatch(Replay(ctx, notes).st.log[k].slot))
  {
    hide PatchedSnapshot, IsPlanFor;
    var log := Replay(ctx, notes).st.log;
    MismatchesAreFatal(ctx, notes);
    BoundaryCountsCloseVersions(ctx.plan, n, b, ctx.plan.recorded, ctx.snapshots[log[k].slot]);
    assert forall j :: 0 <= j < |log| - 1 ==> log[..|log| - 1][j] == log[j];
  }

  // ---------------------------------------------------------------- root leniency

  /** Slots in order: each range is well formed, and starts at or after every earlier end. */
  ghost predicate Chained(snapshots: map<nat, Slot>) {
    && (forall s :: s in snapshots ==> snapshots[s].batchStart <= snapshots[s].batchEnd)
    && (forall s, t :: s in snapshots && t in snapshots && s < t ==> snapshots[s].batchEnd <= snapshots[t].batchStart)
  }

  /** The slots whose state root the replay does not compare. */
  function LenientSlots(snapshots: map<nat, Slot>, boundaryCounts: seq<nat>): set<nat> {
    set s | s in snapshots && snapshots[s].batchStart != snapshots[s].batchEnd && snapshots[s].batchEnd in boundaryCounts
  }

  /** Each boundary count is carried by at most one slot; in particular the empty slots behind a
      boundary, which share its cumulative end, are compared strictly. */
  lemma BoundaryCountHasOneCarrier(snapshots: map<nat, Slot>, boundaryCounts: seq<nat>, s: nat, t: nat)
    requires Chained(snapshots)
    requires s in LenientSlots(snapshots, boundaryCounts) && t in snapshots
    requires snapshots[t].batchEnd == snapshots[s].batchEnd
    ensures t == s || t !in LenientSlots(snapshots, boundaryCounts)
    ensures t > s ==> snapshots[t].batchStart == snapshots[t].batchEnd
  {
  }

  /** With chained ranges, at most one slot per boundary count skips the root comparison. */
  lemma {:induction false} LenientSlotsAreFew(snapshots: map<nat, Slot>, boundaryCounts: seq<nat>)
    requires Chained(snapshots)
    ensures |LenientSlots(snapshots, boundaryCounts)| <= |boundaryCounts|
    decreases |boundaryCounts|
  {
    var all := LenientSlots(snapshots, boundaryCounts);
    if boundaryCounts == [] {
      assert all == {};
    } else {
      var fewer := LenientSlots(snapshots, boundaryCounts[1..]);
      LenientSlotsAreFew(snapshots, boundaryCounts[1..]);
      if all - fewer != {} {
        var s :| s in all - fewer;
        forall t | t in all ensures t == s || t in fewer {
          if t !in fewer {
            BoundaryCountHasOneCarrier(snapshots, boundaryCounts, s, t);
          }
        }
        assert all <= fewer + {s};
        CardinalityMonotone(all, fewer + {s});
      } else {
        assert forall s :: s in all && s !in fewer ==> s in all - fewer;
        CardinalityMonotone(all, fewer);
      }
    }
  }

  lemma {:induction false} CardinalityMonotone(a: set<nat>, b: set<nat>)
    requires a <= b
    ensures |a| <= |b|
    decreases a
  {
    if a == {} {
    } else {
      var x :| x in a;
      CardinalityMonotone(a - {x}, b - {x});
    }
  }

  /** Root leniency is bounded by the version count: at most (versions - 1) slots ever skip the
      root comparison. */
  lemma RootLeniencyIsBounded(ctx: Context)
    requires Chained(ctx.snapshots)
    ensures |LenientSlots(ctx.snapshots, ctx.plan.MigrationBoundaryBatchCounts())|
         <= SaturatingSub(|ctx.plan.versions|, 1)
  {
    LenientSlotsAreFew(ctx.snapshots, ctx.plan.MigrationBoundaryBatchCounts());
  }

  // ---------------------------------------------------------------- gaps

  lemma {:induction false} EndBelowWitness(ctx: Context, bound: nat) returns (s: nat)
    requires EndBelow(ctx, bound) > 0
    ensures s < bound && s in ctx.snapshots && ctx.snapshots[s].batchEnd == EndBelow(ctx, bound)
    decreases bound
  {
    if bound - 1 in ctx.snapshots {
      s := bound - 1;
    } else {
      s := EndBelowWitness(ctx, bound - 1);
    }
  }

  /** No snapshot behind `gap` carries a batch, and neither can the missing slots: the cumulative
      batch end no longer moves. */
  ghost predicate NoBatchBehind(ctx: Context, gap: nat) {
    forall s: nat :: s in ctx.snapshots && s > gap ==>
      ctx.snapshots[s].batchStart == ctx.snapshots[s].batchEnd == EndBelow(ctx, gap)
  }

  /** The blind spot: a gap among the recorded slots ends the replay early, and successfully if the
      expected batch count was reached before it. Then nothing behind the gap, which is never looked
      at, can carry a batch, with one exception: data that ends at height 1, whose only batch comes
      behind the gap. There the saturating "batches seen" cannot tell batch 0 from no batch. */
  lemma EarlyExitIsHarmlessIff(ctx: Context, gap: nat)
    requires ctx.plan.recorded.Some? && BoundsOf(ctx.snapshots, ctx.plan.recorded.value)
    requires Chained(ctx.snapshots)
    requires gap < ctx.plan.recorded.value.lastSlotNumber && IsFrontier(ctx, gap)
    requires Verdict(ctx, gap).Resynced?
    ensures NoBatchBehind(ctx, gap)
       <==> ctx.plan.recorded.value.endRollupHeight != 1 || EndBelow(ctx, gap) == 1
  {
    var last, end := ctx.plan.recorded.value.lastSlotNumber, ctx.plan.recorded.value.endRollupHeight;
    if EndBelow(ctx, gap) > 0 {
      var m := EndBelowWitness(ctx, gap);
      assert ctx.snapshots[m].batchEnd <= ctx.snapshots[last].batchStart <= end;
    }
    if end != 1 || EndBelow(ctx, gap) == 1 {
      assert EndBelow(ctx, gap) == end;
      forall s: nat | s in ctx.snapshots && s > gap
        ensures ctx.snapshots[s].batchStart == ctx.snapshots[s].batchEnd == end
      {
        EndsStayBelow(ctx, gap, s, last);
      }
    }
  }

  /** Between the newest snapshot before `gap` and the last one, batch ends do not decrease. */
  lemma EndsStayBelow(ctx: Context, gap: nat, s: nat, last: nat)
    requires Chained(ctx.snapshots) && s in ctx.snapshots && last in ctx.snapshots && gap < s <= last
    ensures EndBelow(ctx, gap) <= ctx.snapshots[s].batchStart <= ctx.snapshots[s].batchEnd
         <= ctx.snapshots[last].batchEnd
  {
    if EndBelow(ctx, gap) > 0 {
      var m := EndBelowWitness(ctx, gap);
    }
    if s < last {
      assert ctx.snapshots[s].batchEnd <= ctx.snapshots[last].batchStart;
    }
  }

  /** In particular every snapshot behind the gap is empty, unless the data ends at height 1. */
  lemma EarlyExitSkipsOnlyEmptySlots(ctx: Context, gap: nat, s: nat)
    requires ctx.plan.recorded.Some? && BoundsOf(ctx.snapshots, ctx.plan.recorded.value)
    requires ctx.plan.recorded.value.endRollupHeight != 1 && Chained(ctx.snapshots)
    requires gap < ctx.plan.recorded.value.lastSlotNumber && IsFrontier(ctx, gap)
    requires Verdict(ctx, gap).Resynced?
    requires s in ctx.snapshots && s > gap
    ensures ctx.snapshots[s].batchStart == ctx.snapshots[s].batchEnd == ctx.plan.recorded.value.endRollupHeight
  {
    EarlyExitIsHarmlessIff(ctx, gap);
    EndsStayBelow(ctx, gap, ctx.plan.recorded.value.lastSlotNumber, ctx.plan.recorded.value.lastSlotNumber);
  }

  /** One version of one block, recorded in a single slot that carries its only batch. */
  function OneBatchBehindAGap(plan: Plan, env: Environment): Context {
    var carrier := Slot(11, "", "", 0, 1, 0, "", "", []);
    Context(map[11 := carrier], plan, env)
  }

  /** At end height 1 the early exit does skip a batch: slot 10 is missing, and the replay reports
      success there without ever looking at slot 11. */
  lemma EarlyExitCanSkipABatch(plan: Plan, env: Environment)
    requires IsPlanFor(plan, 1, 1, Some(RecordedDataBounds(11, 1))) && env.startsUp
    ensures var ctx := OneBatchBehindAGap(plan, env);
            && BoundsOf(ctx.snapshots, plan.recorded.value) && Chained(ctx.snapshots) && IsFrontier(ctx, 10)
            && Replay(ctx, [Delivered(10)]).outcome == Verdict(ctx, 10) == Resynced(0, 10)
            && Replay(ctx, [Delivered(10)]).st.log == []
            && ctx.snapshots[11].CarriesBatches()
  {
    var ctx := OneBatchBehindAGap(plan, env);
    EmptyBelow(ctx, 10);
    EmptySlotsAreSkipped(ctx, 0, 10, 0, []);
  }

  lemma {:induction false} EmptyBelow(ctx: Context, bound: nat)
    requires forall s :: s in ctx.snapshots ==> s >= bound
    ensures EndBelow(ctx, bound) == 0
    decreases bound
  {
    if bound == 0 {
    } else {
      EmptyBelow(ctx, bound - 1);
    }
  }

  lemma {:induction false} EmptySlotsAreSkipped(ctx: Context, from: nat, upTo: nat, latest: nat, log: seq<Fetch>)
    requires from <= upTo <= WARMUP_SLOTS && forall s :: s in ctx.snapshots ==> s >= upTo
    ensures Sweep(ctx, from, upTo, latest, log) == Sweep(ctx, upTo, upTo, latest, log)
    decreases upTo - from
  {
    if from == upTo {
    } else {
      EmptySlotsAreSkipped(ctx, from + 1, upTo, latest, log);
    }
  }
}
