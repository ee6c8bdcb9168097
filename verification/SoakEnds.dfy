/** How a soak run ends, what it counts and what it saves, event by event and in plain terms. */
module SoakEnds {
  import opened Common
  import opened Ledger
  import opened Soak
  import opened SoakGuarantees

  // ---------------------------------------------------------------- one event more

  /** Events behind the first `n` only matter to a run that gets there. */
  lemma {:induction false} RunSplits(
      env: SoakEnvironment, o: SoakOptions, events: seq<SoakEvent>, more: seq<SoakEvent>, i: nat,
      c: Counters, slots: map<nat, Slot>)
    requires i <= |events| && WellFormedEvents(events) && WellFormedEvents(events + more) && o.fullSlotSaveInterval >= 1
    ensures var s := RunEvents(env, o, events, i, c, slots);
            RunEvents(env, o, events + more, i, c, slots)
              == if s.end.Running? then RunEvents(env, o, events + more, |events|, s.c, s.slots) else s
    decreases |events| - i
  {
    hide OnEvent;
    if i == |events| {
    } else {
      assert (events + more)[i] == events[i];
      var s := OnEvent(env, o, i, events[i], c, slots);
      if s.end.Running? {
        RunSplits(env, o, events, more, i + 1, s.c, s.slots);
      }
    }
  }

  /** A run that is over stays as it is. */
  lemma RunIsOver(
      env: SoakEnvironment, o: SoakOptions, events: seq<SoakEvent>, more: seq<SoakEvent>, slots: map<nat, Slot>)
    requires WellFormedEvents(events) && WellFormedEvents(events + more) && o.fullSlotSaveInterval >= 1
    requires !SoakLoop(env, o, events, slots).end.Running?
    ensures SoakLoop(env, o, events + more, slots) == SoakLoop(env, o, events, slots)
  {
    RunSplits(env, o, events, more, 0, InitialCounters(o), slots);
  }

  /** A run that goes on handles the next event in the state it has reached. */
  lemma RunGoesOn(
      env: SoakEnvironment, o: SoakOptions, events: seq<SoakEvent>, event: SoakEvent, slots: map<nat, Slot>)
    requires WellFormedEvents(events + [event]) && WellFormedEvents(events) && o.fullSlotSaveInterval >= 1
    requires SoakLoop(env, o, events, slots).end.Running?
    requires event.NewSlot? ==> event.slot.batchStart <= event.slot.batchEnd
    ensures var s := SoakLoop(env, o, events, slots);
            SoakLoop(env, o, events + [event], slots) == OnEvent(env, o, |events|, event, s.c, s.slots)
  {
    RunSplits(env, o, events, [event], 0, InitialCounters(o), slots);
    hide OnEvent;
    var s := SoakLoop(env, o, events, slots);
    assert (events + [event])[|events|] == event;
    var s' := OnEvent(env, o, |events|, event, s.c, s.slots);
    assert RunEvents(env, o, events + [event], |events| + 1, s'.c, s'.slots) == SoakState(Running, s'.c, s'.slots);
  }

  lemma WellFormedParts(events: seq<SoakEvent>, n: nat)
    requires WellFormedEvents(events) && n <= |events|
    ensures WellFormedEvents(events[..n])
    ensures events[..n] + events[n..] == events
    ensures n < |events| ==> events[..n] + [events[n]] == events[..n + 1]
  {
  }

  // ---------------------------------------------------------------- how a run ends

  /** The slot carries batches, and the record of its last batch cannot be fetched. */
  predicate BatchIsMissing(env: SoakEnvironment, i: nat, slot: Slot) {
    slot.batchStart < slot.batchEnd && env.batch(i, slot.batchEnd - 1).None?
  }

  /** The events that end a run well, as event number `i` after `batches` counted batches: the
      process exits with success; or, near the end of the test, the stream closes while the process
      is still running, or a batch cannot be fetched. */
  predicate EndsWell(env: SoakEnvironment, o: SoakOptions, i: nat, event: SoakEvent, batches: nat) {
    || event == RollupExited(Some(Success))
    || event == StreamClosed(HasExited(Success))
    || (event == StreamClosed(StillRunning) && NearEnd(o, batches))
    || (event.NewSlot? && BatchIsMissing(env, i, event.slot) && NearEnd(o, batches))
  }

  /** The slot is the first to need the throughput start batch, and that cannot be fetched. */
  predicate ReferenceIsMissing(env: SoakEnvironment, o: SoakOptions, i: nat, slot: Slot, previousTxs: Option<nat>) {
    && slot.batchStart < slot.batchEnd && slot.batchEnd > o.throughputStartBatch
    && previousTxs.None? && env.reference(i).None?
  }

  /** The events that end a run in an error, in the state that it has reached. */
  predicate EndsBadly(env: SoakEnvironment, o: SoakOptions, i: nat, event: SoakEvent, s: SoakState) {
    match event
    case RollupExited(status) => status != Some(Success)
    case TaskEnded(result) => result.TaskPanicked? || result.TaskCancelled? || (result.TaskFailed? && !NearEnd(o, s.c.batches))
    case StreamFailed => true
    case StreamClosed(HasExited(status)) => status == NonZero
    case StreamClosed(StillRunning) => !NearEnd(o, s.c.batches)
    case StreamClosed(QueryFailed) => true
    case ShutdownSignal => true
    case NewSlot(slot) =>
      if BatchIsMissing(env, i, slot) then !NearEnd(o, s.c.batches)
      else
        || ReferenceIsMissing(env, o, i, slot, s.c.previousTxs)
        || (s.c.backfillFrom.Some? && !Backfill(env, i, s.slots, s.c.backfillFrom.value, slot.number).ok)
  }

  lemma SlotEnds(
      env: SoakEnvironment, o: SoakOptions, i: nat, slot: Slot, s: SoakState)
    requires slot.batchStart <= slot.batchEnd && o.fullSlotSaveInterval >= 1
    ensures var end := OnSlot(env, o, i, slot, s.c, s.slots).end;
            && (end.FinishedOk? <==> EndsWell(env, o, i, NewSlot(slot), s.c.batches))
            && (end.FinishedErr? <==> EndsBadly(env, o, i, NewSlot(slot), s))
            && end != FinishedOk(true)
  {
    hide Backfill, SaveIfNeeded, IsVeryCloseToSoakTestEnd, NearEnd;
    VeryCloseIsNearEnd(o, s.c.batches);
  }

  /** What each event makes of a run that is still going: it ends well, in an error, or goes on. */
  lemma EachEvent(
      env: SoakEnvironment, o: SoakOptions, events: seq<SoakEvent>, event: SoakEvent, slots: map<nat, Slot>)
    requires WellFormedEvents(events + [event]) && WellFormedEvents(events) && o.fullSlotSaveInterval >= 1
    requires SoakLoop(env, o, events, slots).end.Running?
    requires event.NewSlot? ==> event.slot.batchStart <= event.slot.batchEnd
    ensures var s, s' := SoakLoop(env, o, events, slots), SoakLoop(env, o, events + [event], slots);
            && (s'.end.FinishedOk? <==> EndsWell(env, o, |events|, event, s.c.batches))
            && (s'.end.FinishedErr? <==> EndsBadly(env, o, |events|, event, s))
            && (s'.end == FinishedOk(true) <==>
                  event == RollupExited(Some(Success)) || event == StreamClosed(HasExited(Success)))
            && (s'.end.FinishedErr? && event.TaskEnded? && event.result.TaskFailed? ==>
                  s'.end.message == event.result.message)
  {
    RunGoesOn(env, o, events, event, slots);
    var s := SoakLoop(env, o, events, slots);
    VeryCloseIsNearEnd(o, s.c.batches);
    if event.NewSlot? {
      SlotEnds(env, o, |events|, event.slot, s);
    }
    hide SoakLoop, OnSlot, IsVeryCloseToSoakTestEnd, NearEnd, Backfill;
  }

  /** Event `j` is the one that ends the run, and it ends it well. */
  ghost predicate EndsWellAt(
      env: SoakEnvironment, o: SoakOptions, events: seq<SoakEvent>, slots: map<nat, Slot>, j: nat)
    requires WellFormedEvents(events) && o.fullSlotSaveInterval >= 1
  {
    && j < |events|
    && SoakLoop(env, o, events[..j], slots).end.Running?
    && EndsWell(env, o, j, events[j], SoakLoop(env, o, events[..j], slots).c.batches)
  }

  ghost predicate EndsBadlyAt(
      env: SoakEnvironment, o: SoakOptions, events: seq<SoakEvent>, slots: map<nat, Slot>, j: nat)
    requires WellFormedEvents(events) && o.fullSlotSaveInterval >= 1
  {
    && j < |events|
    && SoakLoop(env, o, events[..j], slots).end.Running?
    && EndsBadly(env, o, j, events[j], SoakLoop(env, o, events[..j], slots))
  }

  lemma EndingEventDecides(
      env: SoakEnvironment, o: SoakOptions, events: seq<SoakEvent>, slots: map<nat, Slot>, j: nat)
    requires WellFormedEvents(events) && o.fullSlotSaveInterval >= 1
    ensures EndsWellAt(env, o, events, slots, j) ==> SoakLoop(env, o, events, slots).end.FinishedOk?
    ensures EndsBadlyAt(env, o, events, slots, j) ==> SoakLoop(env, o, events, slots).end.FinishedErr?
  {
    hide SoakLoop, EndsWell, EndsBadly;
    if EndsWellAt(env, o, events, slots, j) || EndsBadlyAt(env, o, events, slots, j) {
      WellFormedParts(events, j);
      WellFormedParts(events, j + 1);
      EachEvent(env, o, events[..j], events[j], slots);
      RunIsOver(env, o, events[..j + 1], events[j + 1..], slots);
    }
  }

  lemma {:induction false} SomeEventEnds(
      env: SoakEnvironment, o: SoakOptions, events: seq<SoakEvent>, slots: map<nat, Slot>, n: nat) returns (j: nat)
    requires WellFormedEvents(events) && o.fullSlotSaveInterval >= 1 && n <= |events|
    ensures var end := SoakLoop(env, o, events[..n], slots).end;
            && (end.FinishedOk? ==> j < n && EndsWellAt(env, o, events, slots, j))
            && (end.FinishedErr? ==> j < n && EndsBadlyAt(env, o, events, slots, j))
    decreases n
  {
    j := 0;
    if n == 0 {
    } else {
      hide EndsWell, EndsBadly;
      WellFormedParts(events, n - 1);
      WellFormedParts(events, n);
      if SoakLoop(env, o, events[..n - 1], slots).end.Running? {
        EachEvent(env, o, events[..n - 1], events[n - 1], slots);
        j := n - 1;
      } else {
        RunIsOver(env, o, events[..n - 1], [events[n - 1]], slots);
        j := SomeEventEnds(env, o, events, slots, n - 1);
      }
    }
  }

  /** How a run ends, for every event sequence: well exactly if the event that ends it is a successful
      exit, or, near the end of the test, a closed stream or a batch that cannot be fetched; and in an
      error exactly if it is one of the others that end a run. */
  lemma RunEndsIff(env: SoakEnvironment, o: SoakOptions, events: seq<SoakEvent>, slots: map<nat, Slot>)
    requires WellFormedEvents(events) && o.fullSlotSaveInterval >= 1
    ensures SoakLoop(env, o, events, slots).end.FinishedOk? <==> exists j :: EndsWellAt(env, o, events, slots, j)
    ensures SoakLoop(env, o, events, slots).end.FinishedErr? <==> exists j :: EndsBadlyAt(env, o, events, slots, j)
  {
    hide SoakLoop, EndsWellAt, EndsBadlyAt;
    assert events[..|events|] == events;
    var j := SomeEventEnds(env, o, events, slots, |events|);
    forall j
      ensures EndsWellAt(env, o, events, slots, j) ==> SoakLoop(env, o, events, slots).end.FinishedOk?
      ensures EndsBadlyAt(env, o, events, slots, j) ==> SoakLoop(env, o, events, slots).end.FinishedErr?
    {
      EndingEventDecides(env, o, events, slots, j);
    }
  }

  // ---------------------------------------------------------------- what a run counts

  /** The slot carries a batch behind the throughput start batch. */
  predicate CarriesCountedBatch(o: SoakOptions, event: SoakEvent) {
    event.NewSlot? && event.slot.batchStart < event.slot.batchEnd && event.slot.batchEnd > o.throughputStartBatch + 1
  }

  function CountedBatches(o: SoakOptions, events: seq<SoakEvent>): nat {
    if events == [] then 0
    else CountedBatches(o, events[..|events| - 1]) + (if CarriesCountedBatch(o, events[|events| - 1]) then 1 else 0)
  }

  /** The slots from the first one on that carries a counted batch. */
  function CountedSlots(o: SoakOptions, events: seq<SoakEvent>): nat {
    if events == [] then 0
    else
      CountedSlots(o, events[..|events| - 1])
      + (if events[|events| - 1].NewSlot? && CountedBatches(o, events) > 0 then 1 else 0)
  }

  /** The slot that is saved while handling slot event `i` as the n-th counted slot (0: none counted
      yet): every `interval`-th one with all its children, if it can be fetched. */
  function SavedAs(env: SoakEnvironment, interval: nat, i: nat, slot: Slot, n: nat): Slot
    requires interval >= 1
  {
    if n > 0 && n % interval == 0 && env.slot(i, slot.number).Some? then env.slot(i, slot.number).value else slot
  }

  lemma SlotCounts(env: SoakEnvironment, o: SoakOptions, i: nat, slot: Slot, s: SoakState)
    requires slot.batchStart <= slot.batchEnd && o.fullSlotSaveInterval >= 1
    requires OnSlot(env, o, i, slot, s.c, s.slots).end.Running?
    requires s.c.batches == 0 ==> s.c.slots == 0
    ensures var s' := OnSlot(env, o, i, slot, s.c, s.slots);
            && s'.c.batches == s.c.batches + (if CarriesCountedBatch(o, NewSlot(slot)) then 1 else 0)
            && s'.c.slots == s.c.slots + (if s'.c.batches > 0 then 1 else 0)
            && s'.c.backfillFrom == None
            && var filled := if s.c.backfillFrom.Some?
                             then Backfill(env, i, s.slots, s.c.backfillFrom.value, slot.number).slots else s.slots;
               var saved := SavedAs(env, o.fullSlotSaveInterval, i, slot, s'.c.slots);
               s'.slots == if o.saveSlotSnapshots then filled[saved.number := saved] else filled
  {
    hide Backfill, IsVeryCloseToSoakTestEnd;
  }

  lemma OtherEventCounts(
      env: SoakEnvironment, o: SoakOptions, i: nat, event: SoakEvent, s: SoakState)
    requires !event.NewSlot? && o.fullSlotSaveInterval >= 1
    ensures var s' := OnEvent(env, o, i, event, s.c, s.slots); s'.c == s.c && s'.slots == s.slots
  {
    hide IsVeryCloseToSoakTestEnd;
  }

  /** Counting: a run that is still going has counted every batch-carrying slot behind the throughput
      start batch, and every slot from the first of these on. */
  lemma {:induction false} CountsAreExact(
      env: SoakEnvironment, o: SoakOptions, events: seq<SoakEvent>, slots: map<nat, Slot>)
    requires WellFormedEvents(events) && o.fullSlotSaveInterval >= 1
    requires SoakLoop(env, o, events, slots).end.Running?
    ensures var c := SoakLoop(env, o, events, slots).c;
            c.batches == CountedBatches(o, events) && c.slots == CountedSlots(o, events)
            && (CountedBatches(o, events) == 0 ==> CountedSlots(o, events) == 0)
    decreases |events|
  {
    if events == [] {
    } else {
      var front, last := events[..|events| - 1], events[|events| - 1];
      WellFormedParts(events, |events| - 1);
      assert events == front + [last];
      if !SoakLoop(env, o, front, slots).end.Running? {
        RunIsOver(env, o, front, [last], slots);
      }
      CountsAreExact(env, o, front, slots);
      RunGoesOn(env, o, front, last, slots);
      var s := SoakLoop(env, o, front, slots);
      if last.NewSlot? {
        SlotCounts(env, o, |front|, last.slot, s);
      } else {
        OtherEventCounts(env, o, |front|, last, s);
      }
      hide SoakLoop, OnSlot;
    }
  }

  lemma {:induction false} ChainedPrefix(events: seq<SoakEvent>, i: nat, end: nat, n: nat)
    requires ChainedSlots(events, i, end) && n <= |events|
    ensures ChainedSlots(events[..n], i, end)
    decreases |events| - i
  {
    if i >= n {
    } else {
      ChainedPrefix(events, i + 1, if events[i].NewSlot? then events[i].slot.batchEnd else end, n);
    }
  }

  /** The report: a run that event `j` ends well reports the slots counted before that event. */
  lemma ReportCountsSlots(
      env: SoakEnvironment, o: SoakOptions, events: seq<SoakEvent>, slots: map<nat, Slot>, j: nat)
    requires WellFormedEvents(events) && o.fullSlotSaveInterval >= 1
    requires EndsWellAt(env, o, events, slots, j)
    ensures j < |events|
    ensures var s := SoakLoop(env, o, events, slots);
            && SoakLoop(env, o, events[..j], slots).end.Running?
            && s.c == SoakLoop(env, o, events[..j], slots).c
            && s.c.slots == CountedSlots(o, events[..j])
            && s.c.batches == CountedBatches(o, events[..j])
  {
    hide EndsBadly, CountedSlots, CountedBatches;
    WellFormedParts(events, j);
    WellFormedParts(events, j + 1);
    CountsAreExact(env, o, events[..j], slots);
    EachEvent(env, o, events[..j], events[j], slots);
    RunIsOver(env, o, events[..j + 1], events[j + 1..], slots);
    RunGoesOn(env, o, events[..j], events[j], slots);
    EndingEventCountsNothing(env, o, j, events[j], SoakLoop(env, o, events[..j], slots));
    hide SoakLoop;
  }

  lemma EndingEventCountsNothing(env: SoakEnvironment, o: SoakOptions, i: nat, event: SoakEvent, s: SoakState)
    requires o.fullSlotSaveInterval >= 1
    requires event.NewSlot? ==> event.slot.batchStart <= event.slot.batchEnd
    requires OnEvent(env, o, i, event, s.c, s.slots).end.FinishedOk?
    ensures OnEvent(env, o, i, event, s.c, s.slots).c == s.c
  {
    hide Backfill, IsVeryCloseToSoakTestEnd, SaveIfNeeded;
  }

  // ---------------------------------------------------------------- what a run saves

  /** The first slot that a run with snapshot saving and a backfill start handles fills the gap. */
  ghost predicate FillsGap(o: SoakOptions, events: seq<SoakEvent>) {
    && o.saveSlotSnapshots && o.snapshotBackfillStart.Some?
    && forall k :: 0 <= k < |events| ==> !events[k].NewSlot?
  }

  lemma {:induction false} BackfillIsPending(
      env: SoakEnvironment, o: SoakOptions, events: seq<SoakEvent>, slots: map<nat, Slot>)
    requires WellFormedEvents(events) && o.fullSlotSaveInterval >= 1
    requires SoakLoop(env, o, events, slots).end.Running?
    ensures SoakLoop(env, o, events, slots).c.backfillFrom
         == if FillsGap(o, events) then o.snapshotBackfillStart else None
    decreases |events|
  {
    if events == [] {
    } else {
      var front, last := events[..|events| - 1], events[|events| - 1];
      WellFormedParts(events, |events| - 1);
      assert events == front + [last];
      if !SoakLoop(env, o, front, slots).end.Running? {
        RunIsOver(env, o, front, [last], slots);
      }
      BackfillIsPending(env, o, front, slots);
      RunGoesOn(env, o, front, last, slots);
      CountsAreExact(env, o, front, slots);
      var s := SoakLoop(env, o, front, slots);
      if last.NewSlot? {
        SlotCounts(env, o, |front|, last.slot, s);
      } else {
        OtherEventCounts(env, o, |front|, last, s);
        assert FillsGap(o, events) <==> FillsGap(o, front);
      }
      hide SoakLoop, OnSlot;
    }
  }

  /** Saving: each slot that a run handles without ending is saved, in full every `interval`-th
      counted time; the first one after the backfill of the slots before it; nothing else is. */
  lemma EachSlotIsSaved(
      env: SoakEnvironment, o: SoakOptions, events: seq<SoakEvent>, slot: Slot, slots: map<nat, Slot>)
    requires WellFormedEvents(events) && o.fullSlotSaveInterval >= 1 && slot.batchStart <= slot.batchEnd
    requires WellFormedEvents(events + [NewSlot(slot)]) && o.saveSlotSnapshots
    requires SoakLoop(env, o, events + [NewSlot(slot)], slots).end.Running?
    ensures var before := SoakLoop(env, o, events, slots).slots;
            var filled := if FillsGap(o, events)
                          then Backfill(env, |events|, before, o.snapshotBackfillStart.value, slot.number).slots
                          else before;
            var saved := SavedAs(env, o.fullSlotSaveInterval, |events|, slot, CountedSlots(o, events + [NewSlot(slot)]));
            SoakLoop(env, o, events + [NewSlot(slot)], slots).slots == filled[saved.number := saved]
  {
    hide CountedSlots, CountedBatches, SavedAs;
    if !SoakLoop(env, o, events, slots).end.Running? {
      RunIsOver(env, o, events, [NewSlot(slot)], slots);
    }
    var s := SoakLoop(env, o, events, slots);
    RunGoesOn(env, o, events, NewSlot(slot), slots);
    CountsAreExact(env, o, events, slots);
    CountsAreExact(env, o, events + [NewSlot(slot)], slots);
    BackfillIsPending(env, o, events, slots);
    SlotCounts(env, o, |events|, slot, s);
    hide SoakLoop, OnSlot, Backfill;
  }

  lemma SlotIsNotSaved(
      env: SoakEnvironment, o: SoakOptions, i: nat, slot: Slot, c: Counters, slots: map<nat, Slot>)
    requires slot.batchStart <= slot.batchEnd && o.fullSlotSaveInterval >= 1
    requires !o.saveSlotSnapshots && c.backfillFrom.None?
    ensures var s := OnSlot(env, o, i, slot, c, slots); s.slots == slots && s.c.backfillFrom.None?
  {
    hide Backfill, IsVeryCloseToSoakTestEnd;
  }

  /** Without snapshot saving no run changes any snapshot. */
  lemma {:induction false} NothingIsSaved(
      env: SoakEnvironment, o: SoakOptions, events: seq<SoakEvent>, i: nat, c: Counters, slots: map<nat, Slot>)
    requires i <= |events| && WellFormedEvents(events) && o.fullSlotSaveInterval >= 1
    requires !o.saveSlotSnapshots && c.backfillFrom.None?
    ensures RunEvents(env, o, events, i, c, slots).slots == slots
    decreases |events| - i
  {
    hide OnSlot, IsVeryCloseToSoakTestEnd;
    if i == |events| {
    } else {
      var s := OnEvent(env, o, i, events[i], c, slots);
      if events[i].NewSlot? {
        SlotIsNotSaved(env, o, i, events[i].slot, c, slots);
      }
      if s.end.Running? {
        NothingIsSaved(env, o, events, i + 1, s.c, s.slots);
      }
    }
  }

  lemma WithoutSavingNothingChanges(
      env: SoakEnvironment, o: SoakOptions, events: seq<SoakEvent>, slots: map<nat, Slot>)
    requires WellFormedEvents(events) && o.fullSlotSaveInterval >= 1 && !o.saveSlotSnapshots
    ensures SoakLoop(env, o, events, slots).slots == slots
  {
    NothingIsSaved(env, o, events, 0, InitialCounters(o), slots);
  }
}
