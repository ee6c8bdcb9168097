/** When a resync run ends: how often it can reconnect, which notifications end it, and which
    interruptions it survives. */
module ResyncProgress {
  import opened Common
  import opened Ledger
  import opened Resync
  import opened ResyncGuarantees

  // ---------------------------------------------------------------- one notification more

  /** A run that waits after some notifications goes on from there with the next ones. */
  lemma {:induction false} RunGoesOn(ctx: Context, st: State, notes: seq<Notification>, more: seq<Notification>)
    requires Run(ctx, st, notes).outcome.Pending?
    ensures Run(ctx, st, notes + more) == Run(ctx, Run(ctx, st, notes).st, more)
    decreases |notes|
  {
    hide Sweep;
    if notes == [] {
      assert notes + more == more;
    } else {
      assert (notes + more)[1..] == notes[1..] + more;
      RunGoesOn(ctx, Step(ctx, st, notes[0]).st, notes[1..], more);
    }
  }

  /** An interruption of a run in state `st`: a hard error if the previous one found the same slot
      checked, and otherwise one more reconnect attempt. */
  ghost predicate Reconnects(ctx: Context, st: State, r: StepResult)
    requires r.Stop?
  {
    && r.st.checked == st.checked
    && if st.lastReconnectAt == Some(st.checked) then
         r.outcome == Failed(NoProgress(st.checked)) && r.st.reconnects == st.reconnects
       else
         && r.st.lastReconnectAt == Some(st.checked) && r.st.reconnects == st.reconnects + 1
         && r.outcome == if ctx.env.reconnects(st.reconnects) then Pending else Failed(ReconnectFailed)
  }

  /** What each notification makes of a run that waits for it. A shutdown ends it; a dropped stream
      interrupts it, and so does a fetch that is not answered; without one, the delivered slot is
      checked next, or the run is over without a reconnect. */
  lemma EachNotification(ctx: Context, notes: seq<Notification>, note: Notification)
    requires Replay(ctx, notes).outcome.Pending?
    ensures var st, r := Replay(ctx, notes).st, Replay(ctx, notes + [note]);
            && st.log <= r.st.log
            && (note.ShutdownSignal? ==> r.outcome == Failed(ShutdownRequested) && r.st == st)
            && (note.StreamDropped? ==> Reconnects(ctx, st, r) && r.st.log == st.log)
            && (note.Delivered? ==>
                  if |r.st.log| > |st.log| && r.st.log[|r.st.log| - 1].answer.None? then Reconnects(ctx, st, r)
                  else
                    && r.st.reconnects == st.reconnects && r.st.lastReconnectAt == st.lastReconnectAt
                    && r.st.checked == (if r.outcome.Pending? then note.number else st.checked)
                    && !(r.outcome.Failed? && (r.outcome.failure.NoProgress? || r.outcome.failure.ReconnectFailed?
                                               || r.outcome.failure.ShutdownRequested?)))
  {
    RunGoesOn(ctx, INITIAL_STATE, notes, [note]);
    var st := Replay(ctx, notes).st;
    assert Run(ctx, st, [note]) == if Step(ctx, st, note).Stop? then Step(ctx, st, note)
                                   else Run(ctx, Step(ctx, st, note).st, []);
    if note.Delivered? {
      SweepEndsAtFailedFetch(ctx, st.checked, note.number, st.latestBatch, st.log);
    }
    hide Run, Sweep;
  }

  /** A sweep is interrupted exactly if its last fetch is not answered. */
  lemma {:induction false} SweepEndsAtFailedFetch(
      ctx: Context, from: nat, upTo: nat, latest: nat, log: seq<Fetch>)
    ensures var r := Sweep(ctx, from, upTo, latest, log);
            && log <= r.log
            && (r.end.LedgerDown? <==> |r.log| > |log| && r.log[|r.log| - 1].answer.None?)
            && (r.end.Fatal? ==> r.end.failure.MissingSnapshot? || r.end.failure.TooFewBatches? || r.end.failure.SnapshotMismatch?)
    decreases upTo + 1 - from
  {
    hide Matches;
    if from > upTo {
    } else if from !in ctx.snapshots {
      if from < WARMUP_SLOTS {
        SweepEndsAtFailedFetch(ctx, from + 1, upTo, latest, log);
      }
    } else {
      var fetch := FetchSlot(ctx, from, log);
      SweepEndsAtFailedFetch(ctx, from + 1, upTo, SaturatingSub(ctx.snapshots[from].batchEnd, 1), log + [fetch]);
    }
  }

  /** A run fails at startup exactly if the rollup does not come up. */
  lemma StartupFailsIff(ctx: Context, notes: seq<Notification>)
    ensures Replay(ctx, notes).outcome == Failed(StartupFailed) <==> !ctx.env.startsUp
  {
    if ctx.env.startsUp {
      NoLateStartupFailure(ctx, INITIAL_STATE, notes);
    }
  }

  lemma {:induction false} NoLateStartupFailure(ctx: Context, st: State, notes: seq<Notification>)
    ensures Run(ctx, st, notes).outcome != Failed(StartupFailed)
    decreases |notes|
  {
    if notes == [] {
    } else {
      if notes[0].Delivered? {
        SweepEndsAtFailedFetch(ctx, st.checked, notes[0].number, st.latestBatch, st.log);
      }
      hide Sweep;
      var r := Step(ctx, st, notes[0]);
      if r.Continue? {
        NoLateStartupFailure(ctx, r.st, notes[1..]);
      }
    }
  }

  // ---------------------------------------------------------------- a bound for all notifications

  /** 1 if a reconnect at the current slot is still allowed, else 0. */
  function ReconnectCredit(st: State): nat {
    if st.lastReconnectAt == Some(st.checked) then 0 else 1
  }

  /** How far one step moves `checked` back, plus one; 0 if it does not. */
  function StepRegress(st: State, st': State): nat {
    if st'.checked < st.checked then st.checked - st'.checked + 1 else 0
  }

  /** The regress of all steps of a run. */
  function Regress(ctx: Context, st: State, notes: seq<Notification>): nat
    decreases |notes|
  {
    if notes == [] then 0
    else
      var r := Step(ctx, st, notes[0]);
      if r.Stop? then 0 else StepRegress(st, r.st) + Regress(ctx, r.st, notes[1..])
  }

  /** How many notifications of a run name the slot that is already checked, without interruption. */
  function Repeats(ctx: Context, st: State, notes: seq<Notification>): nat
    decreases |notes|
  {
    if notes == [] then 0
    else
      var r := Step(ctx, st, notes[0]);
      if r.Stop? then 0
      else
        (if r.st.checked == st.checked && r.st.reconnects == st.reconnects then 1 else 0)
        + Repeats(ctx, r.st, notes[1..])
  }

  lemma {:induction false} SweepMeetsFinalSnapshot(
      ctx: Context, from: nat, upTo: nat, latest: nat, log: seq<Fetch>, last: nat)
    requires FinalSnapshot(ctx, last) && from <= last <= upTo
    ensures !Sweep(ctx, from, upTo, latest, log).end.SweptAll?
    decreases last - from
  {
    if from !in ctx.snapshots {
      if from < WARMUP_SLOTS {
        SweepMeetsFinalSnapshot(ctx, from + 1, upTo, latest, log, last);
      }
    } else if from == last {
    } else {
      var fetch := FetchSlot(ctx, from, log);
      SweepMeetsFinalSnapshot(ctx, from + 1, upTo, SaturatingSub(ctx.snapshots[from].batchEnd, 1), log + [fetch], last);
    }
  }

  /** The measure: (L - checked, reconnect still allowed) decreases lexicographically on every
      outer iteration that neither errors nor breaks, if the slot number moves forward. In general
      a step spends no more than its regress allows. */
  lemma StepDecreases(ctx: Context, st: State, note: Notification, last: nat)
    requires FinalSnapshot(ctx, last) && st.checked <= last
    requires Step(ctx, st, note).Continue?
    ensures var st' := Step(ctx, st, note).st;
            && st'.checked <= last
            && ((note.Delivered? ==> note.number > st.checked) ==>
                  || last - st'.checked < last - st.checked
                  || (st'.checked == st.checked && ReconnectCredit(st') < ReconnectCredit(st)))
            && st'.reconnects + last - st'.checked + ReconnectCredit(st')
                 <= st.reconnects + last - st.checked + ReconnectCredit(st) + StepRegress(st, st')
  {
    if note.Delivered? && note.number >= last {
      SweepMeetsFinalSnapshot(ctx, st.checked, note.number, st.latestBatch, st.log, last);
    }
  }

  /** What the no-progress guard achieves, for every sequence of notifications: the reconnects are
      bounded by the slots still ahead plus the regress, and the notifications of a run that still
      waits by twice that plus the repeats. */
  lemma {:induction false} RegressBoundsReconnects(ctx: Context, st: State, notes: seq<Notification>, last: nat)
    requires FinalSnapshot(ctx, last) && st.checked <= last
    ensures var r := Run(ctx, st, notes);
            var regress := Regress(ctx, st, notes);
            && r.st.reconnects <= st.reconnects + last - st.checked + ReconnectCredit(st) + regress
            && (r.outcome.Pending? ==>
                  |notes| <= 2 * (last - st.checked) + ReconnectCredit(st) + 2 * regress + Repeats(ctx, st, notes))
    decreases |notes|
  {
    hide Sweep;
    if notes == [] {
    } else {
      var r := Step(ctx, st, notes[0]);
      if r.Continue? {
        StepDecreases(ctx, st, notes[0], last);
        RegressBoundsReconnects(ctx, r.st, notes[1..], last);
      }
    }
  }

  // ---------------------------------------------------------------- termination

  /** Every slot number delivered during the run exceeds what had been checked by then. */
  ghost predicate Progressing(ctx: Context, st: State, notes: seq<Notification>)
    decreases |notes|
  {
    notes != [] ==>
      && (notes[0].Delivered? ==> notes[0].number > st.checked)
      && (Step(ctx, st, notes[0]).Continue? ==> Progressing(ctx, Step(ctx, st, notes[0]).st, notes[1..]))
  }

  lemma {:induction false} ProgressHasNoRegress(ctx: Context, st: State, notes: seq<Notification>)
    requires Progressing(ctx, st, notes)
    ensures Regress(ctx, st, notes) == 0 && Repeats(ctx, st, notes) == 0
    decreases |notes|
  {
    hide Sweep;
    if notes == [] {
    } else {
      var r := Step(ctx, st, notes[0]);
      if r.Continue? {
        ProgressHasNoRegress(ctx, r.st, notes[1..]);
      }
    }
  }

  /** The delivered slot numbers increase strictly, from above `from`. */
  predicate Ascending(notes: seq<Notification>, from: nat)
    decreases |notes|
  {
    notes != [] ==>
      if notes[0].Delivered? then notes[0].number > from && Ascending(notes[1..], notes[0].number)
      else Ascending(notes[1..], from)
  }

  lemma {:induction false} AscendingIsProgressing(ctx: Context, st: State, notes: seq<Notification>, from: nat)
    requires Ascending(notes, from) && st.checked <= from
    ensures Progressing(ctx, st, notes)
    decreases |notes|
  {
    hide Sweep;
    if notes == [] {
    } else {
      var r := Step(ctx, st, notes[0]);
      if r.Continue? {
        AscendingIsProgressing(ctx, r.st, notes[1..], if notes[0].Delivered? then notes[0].number else from);
      }
    }
  }

  /** Termination: if every delivered slot number exceeds `checked`, and so whenever the delivered
      numbers increase strictly, a run over recorded data ending at slot L is over after at most
      2L + 2 notifications and makes at most L + 1 reconnects. */
  lemma ResyncTerminates(ctx: Context, notes: seq<Notification>, last: nat)
    requires FinalSnapshot(ctx, last)
    requires Ascending(notes, 0) || Progressing(ctx, INITIAL_STATE, notes)
    ensures var r := Replay(ctx, notes);
            && (|notes| >= 2 * last + 2 ==> !r.outcome.Pending?)
            && r.st.reconnects <= last + 1
  {
    if Ascending(notes, 0) {
      AscendingIsProgressing(ctx, INITIAL_STATE, notes, 0);
    }
    ProgressHasNoRegress(ctx, INITIAL_STATE, notes);
    RegressBoundsReconnects(ctx, INITIAL_STATE, notes, last);
  }

  // ---------------------------------------------------------------- when the guard can be evaded

  /** Whatever the ledger answers replays the snapshot; it may also fail to answer. */
  ghost predicate Faithful(ctx: Context) {
    forall k: nat, s: nat, c: bool :: s in ctx.snapshots && ctx.env.ledger(k, s, c).Some? ==>
      Replays(ctx.env.ledger(k, s, c).value, ctx.snapshots[s], ctx.plan.MigrationBoundaryBatchCounts())
  }

  ghost predicate AlwaysAnswers(ctx: Context) {
    forall k: nat, s: nat, c: bool :: s in ctx.snapshots ==> ctx.env.ledger(k, s, c).Some?
  }

  ghost predicate AlwaysReconnects(ctx: Context) {
    forall k: nat :: ctx.env.reconnects(k)
  }

  /** The best environment there is: the rollup replays its history and is always reachable. */
  ghost predicate Healthy(ctx: Context) {
    ctx.env.startsUp && Faithful(ctx) && AlwaysAnswers(ctx) && AlwaysReconnects(ctx)
  }

  lemma {:induction false} FaithfulSweepMatches(ctx: Context, from: nat, upTo: nat, latest: nat, log: seq<Fetch>)
    requires Faithful(ctx)
    ensures var end := Sweep(ctx, from, upTo, latest, log).end;
            && !(end.Fatal? && end.failure.SnapshotMismatch?)
            && (AlwaysAnswers(ctx) ==> !end.LedgerDown?)
    decreases upTo + 1 - from
  {
    if from > upTo {
    } else if from !in ctx.snapshots {
      if from < WARMUP_SLOTS {
        FaithfulSweepMatches(ctx, from + 1, upTo, latest, log);
      }
    } else {
      var fetch := FetchSlot(ctx, from, log);
      assert fetch.answer == ctx.env.ledger(|log|, from, fetch.withChildren);
      if fetch.answer.Some? {
        PatchedComparisonIsReplay(fetch.answer.value, ctx.snapshots[from], ctx.plan.MigrationBoundaryBatchCounts());
        FaithfulSweepMatches(
          ctx, from + 1, upTo, SaturatingSub(ctx.snapshots[from].batchEnd, 1), log + [fetch]);
      }
    }
  }

  /** Stale notifications that move `checked` back and forth between slots 0 and 1, with a drop at
      each. */
  function StaleNotifications(n: nat): seq<Notification> {
    if n == 0 then [] else [StreamDropped, Delivered(1), StreamDropped, Delivered(0)] + StaleNotifications(n - 1)
  }

  lemma RunContinues(ctx: Context, st: State, notes: seq<Notification>, st': State)
    requires notes != [] && Step(ctx, st, notes[0]) == Continue(st')
    ensures Run(ctx, st, notes) == Run(ctx, st', notes[1..])
  {
  }

  /** Slots 0 and 1 pass without ending the run. */
  lemma FirstSlotsPass(ctx: Context, latest: nat, log: seq<Fetch>, last: nat)
    requires Healthy(ctx) && FinalSnapshot(ctx, last) && last >= 2
    ensures Sweep(ctx, 0, 1, latest, log).end.SweptAll?
  {
    FaithfulSweepMatches(ctx, 0, 1, latest, log);
    var latest', log' := latest, log;
    if 0 in ctx.snapshots {
      latest', log' := SaturatingSub(ctx.snapshots[0].batchEnd, 1), log + [FetchSlot(ctx, 0, log)];
    }
    FaithfulSweepMatches(ctx, 1, 1, latest', log');
    assert Sweep(ctx, 0, 1, latest, log) == Sweep(ctx, 1, 1, latest', log');
  }

  /** The no-progress guard does not bound the reconnects: even over recorded data and in the best
      environment, stale notifications keep a run reconnecting, twice a round. */
  lemma {:induction false} StaleNotificationsEvadeTheGuard(ctx: Context, st: State, n: nat, last: nat)
    requires Healthy(ctx) && FinalSnapshot(ctx, last) && last >= 2
    requires st.checked == 0 && st.lastReconnectAt != Some(0)
    ensures var r := Run(ctx, st, StaleNotifications(n));
            r.outcome.Pending? && r.st.reconnects == st.reconnects + 2 * n
    decreases n
  {
    if n == 0 {
    } else {
      var notes := StaleNotifications(n);
      var st1 := st.(lastReconnectAt := Some(0), reconnects := st.reconnects + 1);
      FirstSlotsPass(ctx, st.latestBatch, st.log, last);
      var swept := Sweep(ctx, 0, 1, st.latestBatch, st.log);
      hide Sweep;
      var st2 := st1.(checked := 1, latestBatch := swept.latestBatch, log := swept.log);
      var st3 := st2.(lastReconnectAt := Some(1), reconnects := st.reconnects + 2);
      var st4 := st3.(checked := 0);
      assert Step(ctx, st3, Delivered(0)) == Continue(st4) by {
        EmptySweep(ctx, 1, 0, st3.latestBatch, st3.log);
      }
      RunContinues(ctx, st, notes, st1);
      RunContinues(ctx, st1, notes[1..], st2);
      RunContinues(ctx, st2, notes[1..][1..], st3);
      RunContinues(ctx, st3, notes[1..][1..][1..], st4);
      assert notes[1..][1..][1..][1..] == StaleNotifications(n - 1);
      StaleNotificationsEvadeTheGuard(ctx, st4, n - 1, last);
    }
  }

  lemma EmptySweep(ctx: Context, from: nat, upTo: nat, latest: nat, log: seq<Fetch>)
    requires from > upTo
    ensures Sweep(ctx, from, upTo, latest, log) == SweepResult(SweptAll, latest, log)
  {
  }

  /** With at most one slot to move to, nothing can move back. */
  lemma {:induction false} NoRoomNoRegress(ctx: Context, st: State, notes: seq<Notification>, last: nat)
    requires FinalSnapshot(ctx, last) && last <= 1 && st.checked == 0
    ensures Regress(ctx, st, notes) == 0
    decreases |notes|
  {
    hide Sweep;
    if notes == [] {
    } else {
      var r := Step(ctx, st, notes[0]);
      if r.Continue? {
        if notes[0].Delivered? && notes[0].number >= last {
          SweepMeetsFinalSnapshot(ctx, 0, notes[0].number, st.latestBatch, st.log, last);
        }
        NoRoomNoRegress(ctx, r.st, notes[1..], last);
      }
    }
  }

  ghost predicate SomeRunReconnects(ctx: Context, n: nat) {
    exists notes :: Replay(ctx, notes).st.reconnects >= n
  }

  /** The guard bounds the reconnects of every run in a healthy environment exactly when the
      recorded data ends at slot 0 or 1. */
  lemma GuardIsEvadableIff(ctx: Context, last: nat)
    requires Healthy(ctx) && FinalSnapshot(ctx, last)
    ensures (forall n: nat :: SomeRunReconnects(ctx, n)) <==> last >= 2
  {
    if last >= 2 {
      forall n: nat ensures SomeRunReconnects(ctx, n) {
        StaleNotificationsEvadeTheGuard(ctx, INITIAL_STATE, n, last);
        assert Replay(ctx, StaleNotifications(n)).st.reconnects >= n;
      }
    } else {
      forall notes ensures Replay(ctx, notes).st.reconnects <= 2 {
        NoRoomNoRegress(ctx, INITIAL_STATE, notes, last);
        RegressBoundsReconnects(ctx, INITIAL_STATE, notes, last);
      }
      assert !SomeRunReconnects(ctx, 3);
    }
  }

  // ---------------------------------------------------------------- handovers are bridged

  /** The stream drops, or the ledger fails to answer a fetch of the sweep. */
  predicate Interrupts(ctx: Context, st: State, note: Notification) {
    || note.StreamDropped?
    || (note.Delivered? && Sweep(ctx, st.checked, note.number, st.latestBatch, st.log).end.LedgerDown?)
  }

  /** Some notification gets to the frontier `f` uninterrupted, there is no shutdown before it, and
      no interruption finds `checked` where the previous one did. */
  ghost predicate Survivable(ctx: Context, st: State, notes: seq<Notification>, f: nat)
    decreases |notes|
  {
    && notes != []
    && !notes[0].ShutdownSignal?
    && if Interrupts(ctx, st, notes[0]) then
         st.lastReconnectAt != Some(st.checked) && Survivable(ctx, Step(ctx, st, notes[0]).st, notes[1..], f)
       else
         || notes[0].number >= f
         || (notes[0].number + 1 == f && FinalSnapshot(ctx, notes[0].number))
         || Survivable(ctx, Step(ctx, st, notes[0]).st, notes[1..], f)
  }

  /** An uninterrupted sweep over a faithful ledger: the run goes on, or has its verdict; at the
      frontier it cannot go on. */
  lemma UninterruptedSweep(ctx: Context, st: State, n: nat, q: nat, f: nat) returns (q': nat)
    requires Faithful(ctx) && IsFrontier(ctx, f) && Tracks(ctx, st.checked, q, st.latestBatch)
    requires !Interrupts(ctx, st, Delivered(n))
    ensures var r := Step(ctx, st, Delivered(n));
            && (r.Stop? ==> r.outcome == Verdict(ctx, f))
            && (r.Continue? ==> Tracks(ctx, r.st.checked, q', r.st.latestBatch))
            && (n >= f || (n + 1 == f && FinalSnapshot(ctx, n)) ==> r.Stop?)
  {
    q' := SweepReachesVerdict(ctx, st.checked, n, st.latestBatch, st.log, q);
    FaithfulSweepMatches(ctx, st.checked, n, st.latestBatch, st.log);
    hide Sweep, Verdict;
    var r := Step(ctx, st, Delivered(n));
    if r.Stop? {
      var g: nat :| IsFrontier(ctx, g) && r.outcome == Verdict(ctx, g);
      FrontierIsUnique(ctx, f, g);
    }
  }

  lemma {:induction false} FaithfulRunReachesVerdict(ctx: Context, st: State, notes: seq<Notification>, q: nat, f: nat)
    requires Faithful(ctx) && AlwaysReconnects(ctx)
    requires IsFrontier(ctx, f) && Tracks(ctx, st.checked, q, st.latestBatch)
    requires Survivable(ctx, st, notes, f)
    ensures Run(ctx, st, notes).outcome == Verdict(ctx, f)
    decreases |notes|
  {
    hide Verdict, Faithful, IsFrontier;
    var r := Step(ctx, st, notes[0]);
    match notes[0]
    case StreamDropped => FaithfulRunReachesVerdict(ctx, r.st, notes[1..], q, f);
    case Delivered(n) =>
      var q': nat;
      if Interrupts(ctx, st, notes[0]) {
        q' := SweepReachesVerdict(ctx, st.checked, n, st.latestBatch, st.log, q);
      } else {
        q' := UninterruptedSweep(ctx, st, n, q, f);
      }
      if r.Continue? {
        FaithfulRunReachesVerdict(ctx, r.st, notes[1..], q', f);
      }
  }

  /** Handovers are bridged: if whatever the ledger answers replays the snapshots, a run survives any
      number of stream drops and ledger failures, as long as none finds `checked` where the one before
      did, and then ends with the prescribed outcome. */
  lemma HandoversAreBridged(ctx: Context, notes: seq<Notification>, f: nat)
    requires ctx.env.startsUp && Faithful(ctx) && AlwaysReconnects(ctx)
    requires IsFrontier(ctx, f) && Survivable(ctx, INITIAL_STATE, notes, f)
    ensures Replay(ctx, notes).outcome == Verdict(ctx, f)
  {
    FaithfulRunReachesVerdict(ctx, INITIAL_STATE, notes, 0, f);
  }
}
