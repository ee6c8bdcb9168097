/** What every soak run keeps: contiguous snapshots in append mode, and exact throughput counts. */
module SoakGuarantees {
  import opened Common
  import opened Ledger
  import opened Soak

  // ---------------------------------------------------------------- contiguity

  /** From slot `s0` on, no snapshot is missing below a present one. */
  ghost predicate ContiguousFrom(slots: map<nat, Slot>, s0: nat) {
    forall s: nat, t: nat :: s0 <= s <= t && t in slots ==> s in slots
  }

  /** Fetching slot n yields slot n. */
  ghost predicate HonestSlots(env: SoakEnvironment) {
    forall i: nat, n: nat :: env.slot(i, n).Some? ==> env.slot(i, n).value.number == n
  }

  /** The delivered slot numbers are consecutive, starting at `next` if that is known. */
  ghost predicate ConsecutiveSlots(events: seq<SoakEvent>, i: nat, next: Option<nat>)
    decreases |events| - i
  {
    i < |events| ==>
      if events[i].NewSlot? then
        && (next.Some? ==> events[i].slot.number == next.value)
        && ConsecutiveSlots(events, i + 1, Some(events[i].slot.number + 1))
      else ConsecutiveSlots(events, i + 1, next)
  }

  /** Backfilling the gap before `upTo` fills it from the left; even if a fetch fails half way, what
      is saved by then is contiguous. */
  lemma {:induction false} BackfillIsContiguous(
      env: SoakEnvironment, i: nat, slots: map<nat, Slot>, s0: nat, from: nat, upTo: nat)
    requires HonestSlots(env) && ContiguousFrom(slots, s0)
    requires forall s: nat :: s0 <= s < from ==> s in slots
    ensures var r := Backfill(env, i, slots, from, upTo);
            && ContiguousFrom(r.slots, s0)
            && slots.Keys <= r.slots.Keys
            && (r.ok ==> forall s: nat :: s0 <= s < upTo ==> s in r.slots)
    decreases upTo - from
  {
    if from >= upTo {
    } else if from in slots {
      BackfillIsContiguous(env, i, slots, s0, from + 1, upTo);
    } else if env.slot(i, from).Some? {
      var slot := env.slot(i, from).value;
      BackfillIsContiguous(env, i, slots[slot.number := slot], s0, from + 1, upTo);
    }
  }

  /** The loop's contiguity invariant: before the first slot the backfill start is pending and
      everything below it is there; afterwards everything below the next expected slot is. */
  ghost predicate Gapless(c: Counters, slots: map<nat, Slot>, s0: nat, next: Option<nat>) {
    && ContiguousFrom(slots, s0)
    && (next.None? <==> c.backfillFrom.Some?)
    && forall s: nat :: s0 <= s < (if next.Some? then next.value else c.backfillFrom.value) ==> s in slots
  }

  lemma SlotKeepsContiguity(
      env: SoakEnvironment, o: SoakOptions, i: nat, slot: Slot, c: Counters, slots: map<nat, Slot>,
      s0: nat, next: Option<nat>)
    requires slot.batchStart <= slot.batchEnd && o.fullSlotSaveInterval >= 1 && o.saveSlotSnapshots
    requires HonestSlots(env) && Gapless(c, slots, s0, next)
    requires next.Some? ==> slot.number == next.value
    ensures var s := OnSlot(env, o, i, slot, c, slots);
            && ContiguousFrom(s.slots, s0)
            && slots.Keys <= s.slots.Keys
            && (s.end.Running? ==> slot.number in s.slots && Gapless(s.c, s.slots, s0, Some(slot.number + 1)))
  {
    var a := Account(env, o, i, slot, c);
    assert a.c.backfillFrom == c.backfillFrom;
    if c.backfillFrom.Some? {
      BackfillIsContiguous(env, i, slots, s0, c.backfillFrom.value, slot.number);
    }
  }

  lemma {:induction false} EventsKeepContiguity(
      env: SoakEnvironment, o: SoakOptions, events: seq<SoakEvent>, i: nat, c: Counters, slots: map<nat, Slot>,
      s0: nat, next: Option<nat>)
    requires i <= |events| && WellFormedEvents(events) && o.fullSlotSaveInterval >= 1 && o.saveSlotSnapshots
    requires HonestSlots(env) && Gapless(c, slots, s0, next) && ConsecutiveSlots(events, i, next)
    ensures var s := RunEvents(env, o, events, i, c, slots);
            ContiguousFrom(s.slots, s0) && slots.Keys <= s.slots.Keys
    decreases |events| - i
  {
    if i == |events| {
    } else {
      var s := OnEvent(env, o, i, events[i], c, slots);
      var next' := next;
      if events[i].NewSlot? {
        SlotKeepsContiguity(env, o, i, events[i].slot, c, slots, s0, next);
        next' := Some(events[i].slot.number + 1);
      }
      if s.end.Running? {
        EventsKeepContiguity(env, o, events, i + 1, s.c, s.slots, s0, next');
      }
    }
  }

  /** Contiguity of an append run: from snapshots that are contiguous from s0 up to just below the
      backfill start, any run over a consecutive slot stream leaves them contiguous from s0 and
      loses none, whatever slot is observed first and however the run ends. Every prefix of the
      events is itself such a run, so this holds after every step. */
  lemma AppendKeepsContiguity(
      env: SoakEnvironment, o: SoakOptions, events: seq<SoakEvent>, slots: map<nat, Slot>, s0: nat)
    requires WellFormedEvents(events) && o.fullSlotSaveInterval >= 1
    requires o.saveSlotSnapshots && o.snapshotBackfillStart.Some?
    requires HonestSlots(env) && ConsecutiveSlots(events, 0, None)
    requires ContiguousFrom(slots, s0)
    requires forall s: nat :: s0 <= s < o.snapshotBackfillStart.value ==> s in slots
    ensures var s := SoakLoop(env, o, events, slots);
            ContiguousFrom(s.slots, s0) && slots.Keys <= s.slots.Keys
  {
    EventsKeepContiguity(env, o, events, 0, InitialCounters(o), slots, s0, None);
  }

  // ---------------------------------------------------------------- contents

  /** Every snapshot below `bound` is still there, with the same content. */
  ghost predicate KeepsBelow(slots: map<nat, Slot>, slots': map<nat, Slot>, bound: nat) {
    forall s: nat :: s in slots && s < bound ==> s in slots' && slots'[s] == slots[s]
  }

  /** The number of the first slot delivered from event `i` on. */
  function FirstSlot(events: seq<SoakEvent>, i: nat): Option<nat>
    decreases |events| - i
  {
    if i >= |events| then None
    else if events[i].NewSlot? then Some(events[i].slot.number)
    else FirstSlot(events, i + 1)
  }

  /** Backfilling overwrites nothing. */
  lemma {:induction false} BackfillKeepsContent(
      env: SoakEnvironment, i: nat, slots: map<nat, Slot>, from: nat, upTo: nat, bound: nat)
    requires HonestSlots(env)
    ensures KeepsBelow(slots, Backfill(env, i, slots, from, upTo).slots, bound)
    decreases upTo - from
  {
    if from >= upTo {
    } else if from in slots {
      BackfillKeepsContent(env, i, slots, from + 1, upTo, bound);
    } else if env.slot(i, from).Some? {
      var slot := env.slot(i, from).value;
      BackfillKeepsContent(env, i, slots[slot.number := slot], from + 1, upTo, bound);
    }
  }

  /** What backfilling adds: it succeeds exactly if every missing slot of the range can be fetched, and
      what it adds are fetched slots of the range. */
  lemma {:induction false} BackfillAddsRange(
      env: SoakEnvironment, i: nat, slots: map<nat, Slot>, from: nat, upTo: nat)
    requires HonestSlots(env)
    ensures var r := Backfill(env, i, slots, from, upTo);
            && (r.ok <==> forall s: nat :: from <= s < upTo && s !in slots ==> env.slot(i, s).Some?)
            && (forall s: nat :: s in r.slots && s !in slots ==> from <= s < upTo && env.slot(i, s) == Some(r.slots[s]))
    decreases upTo - from
  {
    if from >= upTo {
    } else if from in slots {
      BackfillAddsRange(env, i, slots, from + 1, upTo);
    } else if env.slot(i, from).Some? {
      var slot := env.slot(i, from).value;
      var slots' := slots[slot.number := slot];
      BackfillAddsRange(env, i, slots', from + 1, upTo);
      BackfillKeepsContent(env, i, slots', from + 1, upTo, from + 1);
    }
  }

  lemma SlotKeepsContent(
      env: SoakEnvironment, o: SoakOptions, i: nat, slot: Slot, c: Counters, slots: map<nat, Slot>, bound: nat)
    requires slot.batchStart <= slot.batchEnd && o.fullSlotSaveInterval >= 1
    requires HonestSlots(env) && slot.number >= bound
    ensures KeepsBelow(slots, OnSlot(env, o, i, slot, c, slots).slots, bound)
  {
    var a := Account(env, o, i, slot, c);
    if a.c.backfillFrom.Some? {
      BackfillKeepsContent(env, i, slots, a.c.backfillFrom.value, slot.number, bound);
    }
    hide Account, Backfill;
  }

  lemma {:induction false} EventsKeepContent(
      env: SoakEnvironment, o: SoakOptions, events: seq<SoakEvent>, i: nat, c: Counters, slots: map<nat, Slot>,
      next: Option<nat>, bound: nat)
    requires i <= |events| && WellFormedEvents(events) && o.fullSlotSaveInterval >= 1
    requires HonestSlots(env) && ConsecutiveSlots(events, i, next)
    requires var first := if next.Some? then next else FirstSlot(events, i);
             first.Some? ==> first.value >= bound
    ensures KeepsBelow(slots, RunEvents(env, o, events, i, c, slots).slots, bound)
    decreases |events| - i
  {
    if i == |events| {
    } else {
      var s := OnEvent(env, o, i, events[i], c, slots);
      var next' := next;
      if events[i].NewSlot? {
        SlotKeepsContent(env, o, i, events[i].slot, c, slots, bound);
        next' := Some(events[i].slot.number + 1);
      }
      hide OnSlot;
      if s.end.Running? {
        EventsKeepContent(env, o, events, i + 1, s.c, s.slots, next', bound);
      }
    }
  }

  /** Contents of an append run: every snapshot below the first observed slot keeps its content; so
      if that slot is not before the backfill start, nothing that was recorded earlier changes. */
  lemma AppendKeepsContent(env: SoakEnvironment, o: SoakOptions, events: seq<SoakEvent>, slots: map<nat, Slot>)
    requires WellFormedEvents(events) && o.fullSlotSaveInterval >= 1
    requires HonestSlots(env) && ConsecutiveSlots(events, 0, None)
    ensures var slots' := SoakLoop(env, o, events, slots).slots;
            forall s: nat :: s in slots && (FirstSlot(events, 0).None? || s < FirstSlot(events, 0).value) ==>
              s in slots' && slots'[s] == slots[s]
  {
    var slots' := SoakLoop(env, o, events, slots).slots;
    forall s: nat | s in slots && (FirstSlot(events, 0).None? || s < FirstSlot(events, 0).value)
      ensures s in slots' && slots'[s] == slots[s]
    {
      EventsKeepContent(env, o, events, 0, InitialCounters(o), slots, None, s + 1);
    }
  }

  /** The backfill is needed: without it, observing a first slot beyond the recorded data leaves a
      gap. */
  lemma WithoutBackfillAGapRemains(
      env: SoakEnvironment, o: SoakOptions, slot: Slot, slots: map<nat, Slot>, s0: nat, last: nat)
    requires o.saveSlotSnapshots && o.snapshotBackfillStart.None? && o.fullSlotSaveInterval >= 1
    requires slot.batchStart == slot.batchEnd
    requires s0 <= last && (forall s :: s in slots ==> s <= last) && slot.number > last + 1
    ensures !ContiguousFrom(SoakLoop(env, o, [NewSlot(slot)], slots).slots, s0)
  {
    var events := [NewSlot(slot)];
    var s := OnSlot(env, o, 0, slot, InitialCounters(o), slots);
    assert RunEvents(env, o, events, 1, s.c, s.slots) == SoakState(Running, s.c, s.slots);
    assert slot.number in s.slots && last + 1 !in s.slots;
  }

  // ---------------------------------------------------------------- throughput accounting

  /** The number of transactions in the batches `from..upTo` of a history. */
  function TxsIn(history: nat -> nat, from: nat, upTo: nat): nat
    decreases upTo
  {
    if from >= upTo then 0 else TxsIn(history, from, upTo - 1) + history(upTo - 1)
  }

  lemma {:induction false} TxsSplit(history: nat -> nat, from: nat, mid: nat, upTo: nat)
    requires from <= mid <= upTo
    ensures TxsIn(history, from, upTo) == TxsIn(history, from, mid) + TxsIn(history, mid, upTo)
    decreases upTo
  {
    if mid == upTo {
    } else {
      TxsSplit(history, from, mid, upTo - 1);
    }
  }

  /** Fetched batch records report the cumulative transaction counts of one history. */
  ghost predicate HonestBatches(env: SoakEnvironment, o: SoakOptions, history: nat -> nat) {
    && (forall i: nat, b: nat :: env.batch(i, b).Some? ==> env.batch(i, b).value == TxsIn(history, 0, b + 1))
    && (forall i: nat :: env.reference(i).Some? ==>
          env.reference(i).value == TxsIn(history, 0, o.throughputStartBatch + 1))
  }

  /** The accounting invariant: the count is the sum over all batches after the start batch, up to
      the last one fetched, and zero before any is counted. */
  ghost predicate CountsAllTxs(o: SoakOptions, history: nat -> nat, c: Counters) {
    && (c.previousTxs.Some? ==> c.previousTxs.value == TxsIn(history, 0, o.throughputStartBatch + 1))
    && (c.previousTxs.Some? <==> c.lastBatch.Some? && c.lastBatch.value >= o.throughputStartBatch)
    && (c.batches > 0 <==> c.lastBatch.Some? && c.lastBatch.value > o.throughputStartBatch)
    && c.txs == (if c.batches == 0 then 0
                 else TxsIn(history, o.throughputStartBatch + 1, c.lastBatch.value + 1))
  }

  /** Slots chain their batch ranges: each starts where the previous one ended. */
  ghost predicate ChainedSlots(events: seq<SoakEvent>, i: nat, end: nat)
    decreases |events| - i
  {
    i < |events| ==>
      if events[i].NewSlot? then
        events[i].slot.batchStart == end && ChainedSlots(events, i + 1, events[i].slot.batchEnd)
      else ChainedSlots(events, i + 1, end)
  }

  /** The last fetched batch precedes the chain's current end. */
  ghost predicate Behind(c: Counters, end: nat) {
    c.lastBatch.Some? ==> c.lastBatch.value < end
  }

  /** One slot of the chain: the count stays exact, does not decrease, and the saturating
      subtraction does not saturate. */
  lemma AccountingStep(
      env: SoakEnvironment, o: SoakOptions, history: nat -> nat, i: nat, slot: Slot, c: Counters)
    requires slot.batchStart <= slot.batchEnd
    requires HonestBatches(env, o, history) && CountsAllTxs(o, history, c) && Behind(c, slot.batchStart)
    ensures var a := Account(env, o, i, slot, c);
            && CountsAllTxs(o, history, a.c)
            && Behind(a.c, slot.batchEnd)
            && c.txs <= a.c.txs
            && c.batches <= a.c.batches <= c.batches + 1
            && a.c.slots == c.slots
            && (!a.end.Running? ==> a.c == c)
            && (a.end.Running? && slot.batchStart < slot.batchEnd ==> a.c.lastBatch == Some(slot.batchEnd - 1))
            && (a.c.batches > c.batches ==>
                  a.c.txs + a.c.previousTxs.value == env.batch(i, slot.batchEnd - 1).value)
  {
    hide TxsIn;
    if slot.batchStart < slot.batchEnd {
      var b, start := slot.batchEnd - 1, o.throughputStartBatch;
      if b > start {
        TxsSplit(history, 0, start + 1, b + 1);
        if c.batches > 0 {
          TxsSplit(history, start + 1, c.lastBatch.value + 1, b + 1);
        }
      }
    }
  }

  /** Recording leaves the transaction and batch counts alone. */
  lemma RecordKeepsCounts(
      env: SoakEnvironment, o: SoakOptions, i: nat, slot: Slot, c: Counters, slots: map<nat, Slot>)
    requires o.fullSlotSaveInterval >= 1
    ensures var c' := Record(env, o, i, slot, c, slots).c;
            c'.txs == c.txs && c'.batches == c.batches && c'.previousTxs == c.previousTxs && c'.lastBatch == c.lastBatch
  {
    hide Backfill, SaveIfNeeded;
  }

  lemma EventKeepsAccounting(
      env: SoakEnvironment, o: SoakOptions, history: nat -> nat, i: nat, event: SoakEvent,
      c: Counters, slots: map<nat, Slot>, end: nat)
    requires o.fullSlotSaveInterval >= 1
    requires HonestBatches(env, o, history) && CountsAllTxs(o, history, c) && Behind(c, end)
    requires event.NewSlot? ==> end == event.slot.batchStart <= event.slot.batchEnd
    ensures var s := OnEvent(env, o, i, event, c, slots);
            && CountsAllTxs(o, history, s.c)
            && c.txs <= s.c.txs
            && Behind(s.c, if event.NewSlot? then event.slot.batchEnd else end)
  {
    hide TxsIn, HonestBatches, IsVeryCloseToSoakTestEnd;
    if event.NewSlot? {
      AccountingStep(env, o, history, i, event.slot, c);
      RecordKeepsCounts(env, o, i, event.slot, Account(env, o, i, event.slot, c).c, slots);
      hide Account, Record;
    }
  }

  lemma {:induction false} EventsKeepAccounting(
      env: SoakEnvironment, o: SoakOptions, history: nat -> nat, events: seq<SoakEvent>, i: nat,
      c: Counters, slots: map<nat, Slot>, end: nat)
    requires i <= |events| && WellFormedEvents(events) && o.fullSlotSaveInterval >= 1
    requires HonestBatches(env, o, history) && CountsAllTxs(o, history, c) && Behind(c, end)
    requires ChainedSlots(events, i, end)
    ensures var s := RunEvents(env, o, events, i, c, slots);
            CountsAllTxs(o, history, s.c) && c.txs <= s.c.txs
    decreases |events| - i
  {
    hide OnEvent, HonestBatches, CountsAllTxs, Behind;
    if i == |events| {
    } else {
      var s := OnEvent(env, o, i, events[i], c, slots);
      EventKeepsAccounting(env, o, history, i, events[i], c, slots, end);
      if s.end.Running? {
        EventsKeepAccounting(env, o, history, events, i + 1, s.c, s.slots,
                             if events[i].NewSlot? then events[i].slot.batchEnd else end);
      }
    }
  }

  // ---------------------------------------------------------------- batches and slots

  /** An event after which a run that has counted nothing yet just goes on. */
  predicate IsQuiet(o: SoakOptions, event: SoakEvent) {
    && event.TaskEnded?
    && (|| event.result.TaskOk?
        || (event.result.TaskFailed? && NearEnd(o, 0)))
  }

  /** The first slot counts a batch, but the backfill it triggers fails. */
  predicate CountsThenFailsToBackfill(
      env: SoakEnvironment, o: SoakOptions, slots: map<nat, Slot>, i: nat, slot: Slot)
  {
    && slot.batchStart != slot.batchEnd && slot.batchEnd > o.throughputStartBatch + 1
    && env.batch(i, slot.batchEnd - 1).Some? && env.reference(i).Some?
    && o.saveSlotSnapshots && o.snapshotBackfillStart.Some?
    && !Backfill(env, i, slots, o.snapshotBackfillStart.value, slot.number).ok
  }

  /** That slot is the one of event `j`. */
  predicate FailsAt(env: SoakEnvironment, o: SoakOptions, events: seq<SoakEvent>, slots: map<nat, Slot>, j: nat) {
    && j < |events|
    && (forall k :: 0 <= k < j ==> IsQuiet(o, events[k]))
    && events[j].NewSlot? && CountsThenFailsToBackfill(env, o, slots, j, events[j].slot)
  }

  lemma FirstSlotCounts(env: SoakEnvironment, o: SoakOptions, i: nat, slot: Slot, slots: map<nat, Slot>)
    requires slot.batchStart <= slot.batchEnd && o.fullSlotSaveInterval >= 1
    ensures var s := OnSlot(env, o, i, slot, InitialCounters(o), slots);
            && s.c.batches <= s.c.slots + 1
            && (s.c.batches > s.c.slots <==> CountsThenFailsToBackfill(env, o, slots, i, slot))
            && (s.c.batches > s.c.slots ==> s.end == FinishedErr("failed to backfill snapshot"))
            && (s.end.Running? ==> s.c.backfillFrom.None?)
  {
    hide Backfill, SaveIfNeeded, IsVeryCloseToSoakTestEnd;
  }

  lemma LaterEventKeepsCounts(
      env: SoakEnvironment, o: SoakOptions, i: nat, event: SoakEvent, c: Counters, slots: map<nat, Slot>)
    requires event.NewSlot? ==> event.slot.batchStart <= event.slot.batchEnd
    requires o.fullSlotSaveInterval >= 1 && c.backfillFrom.None? && c.batches <= c.slots
    ensures var s := OnEvent(env, o, i, event, c, slots); s.c.backfillFrom.None? && s.c.batches <= s.c.slots
  {
    hide Backfill, SaveIfNeeded, IsVeryCloseToSoakTestEnd;
  }

  lemma {:induction false} LaterEventsKeepCounts(
      env: SoakEnvironment, o: SoakOptions, events: seq<SoakEvent>, i: nat, c: Counters, slots: map<nat, Slot>)
    requires i <= |events| && WellFormedEvents(events) && o.fullSlotSaveInterval >= 1
    requires c.backfillFrom.None? && c.batches <= c.slots
    ensures var s := RunEvents(env, o, events, i, c, slots); s.c.batches <= s.c.slots
    decreases |events| - i
  {
    hide OnEvent;
    if i == |events| {
    } else {
      var s := OnEvent(env, o, i, events[i], c, slots);
      LaterEventKeepsCounts(env, o, i, events[i], c, slots);
      if s.end.Running? {
        LaterEventsKeepCounts(env, o, events, i + 1, s.c, s.slots);
      }
    }
  }

  lemma EventBeforeFirstSlot(env: SoakEnvironment, o: SoakOptions, i: nat, event: SoakEvent, slots: map<nat, Slot>)
    requires o.fullSlotSaveInterval >= 1 && !event.NewSlot?
    ensures var s := OnEvent(env, o, i, event, InitialCounters(o), slots);
            && s.c == InitialCounters(o) && s.slots == slots
            && (s.end.Running? <==> IsQuiet(o, event))
  {
  }

  lemma {:induction false} CountsUpToFirstSlot(
      env: SoakEnvironment, o: SoakOptions, events: seq<SoakEvent>, i: nat, slots: map<nat, Slot>)
    requires i <= |events| && WellFormedEvents(events) && o.fullSlotSaveInterval >= 1
    requires forall k :: 0 <= k < i ==> IsQuiet(o, events[k])
    ensures var s := RunEvents(env, o, events, i, InitialCounters(o), slots);
            && s.c.batches <= s.c.slots + 1
            && (s.c.batches > s.c.slots <==> exists j :: FailsAt(env, o, events, slots, j))
            && (s.c.batches > s.c.slots ==> s.end == FinishedErr("failed to backfill snapshot"))
    decreases |events| - i
  {
    hide CountsThenFailsToBackfill, OnSlot;
    if i == |events| {
    } else if events[i].NewSlot? {
      FirstSlotCounts(env, o, i, events[i].slot, slots);
      var s := OnSlot(env, o, i, events[i].slot, InitialCounters(o), slots);
      if s.end.Running? {
        LaterEventsKeepCounts(env, o, events, i + 1, s.c, s.slots);
      }
      assert FailsAt(env, o, events, slots, i) <==> CountsThenFailsToBackfill(env, o, slots, i, events[i].slot);
      assert forall j :: FailsAt(env, o, events, slots, j) ==> j == i;
    } else {
      EventBeforeFirstSlot(env, o, i, events[i], slots);
      hide OnEvent;
      if IsQuiet(o, events[i]) {
        CountsUpToFirstSlot(env, o, events, i + 1, slots);
      }
    }
  }

  /** Each counted batch has its counted slot, except in one case: the run's first slot counts a
      batch and the backfill it triggers then fails, which ends the run before the slot is counted. */
  lemma BatchesExceedSlotsIff(env: SoakEnvironment, o: SoakOptions, events: seq<SoakEvent>, slots: map<nat, Slot>)
    requires WellFormedEvents(events) && o.fullSlotSaveInterval >= 1
    ensures var s := SoakLoop(env, o, events, slots);
            && s.c.batches <= s.c.slots + 1
            && (s.c.batches > s.c.slots <==> exists j :: FailsAt(env, o, events, slots, j))
            && (s.c.batches > s.c.slots ==> s.end == FinishedErr("failed to backfill snapshot"))
  {
    CountsUpToFirstSlot(env, o, events, 0, slots);
  }

  /** Such a run: slot 2 carries the first counted batch, and slot 1 cannot be fetched. */
  lemma FailedBackfillLosesASlot(env: SoakEnvironment)
    requires env.batch(0, 2).Some? && env.reference(0).Some? && env.slot(0, 1).None?
    ensures var events := [NewSlot(Slot(2, "", "", 2, 3, 0, "", "", []))];
            var s := SoakLoop(env, SoakOptions(1, 30, 1, true, Some(1)), events, map[]);
            s.c.batches == 1 && s.c.slots == 0
  {
    var o, slot := SoakOptions(1, 30, 1, true, Some(1)), Slot(2, "", "", 2, 3, 0, "", "", []);
    assert !Backfill(env, 0, map[], 1, 2).ok;
    assert FailsAt(env, o, [NewSlot(slot)], map[], 0);
    BatchesExceedSlotsIff(env, o, [NewSlot(slot)], map[]);
  }

  // ---------------------------------------------------------------- the report

  /** Throughput telescopes: over any chained slot stream, whether slots carry several batches or
      none, the reported transaction count is the sum over every batch after the throughput start
      batch up to the last one seen; and no more batches than slots are counted, except in the one
      case of a failed first backfill. */
  lemma ThroughputIsExact(
      env: SoakEnvironment, o: SoakOptions, history: nat -> nat, events: seq<SoakEvent>,
      slots: map<nat, Slot>, firstBatch: nat)
    requires WellFormedEvents(events) && o.fullSlotSaveInterval >= 1
    requires HonestBatches(env, o, history) && ChainedSlots(events, 0, firstBatch)
    ensures var s := SoakLoop(env, o, events, slots);
            && s.c.txs == (match s.c.lastBatch
                           case None => 0
                           case Some(last) => TxsIn(history, o.throughputStartBatch + 1, last + 1))
            && (s.c.batches <= s.c.slots <==> forall j :: !FailsAt(env, o, events, slots, j))
            && (!s.end.FinishedErr? ==> s.c.batches <= s.c.slots)
  {
    hide RunEvents, FailsAt, HonestBatches, ChainedSlots;
    EventsKeepAccounting(env, o, history, events, 0, InitialCounters(o), slots, firstBatch);
    BatchesExceedSlotsIff(env, o, events, slots);
  }

  /** The last fetched batch of a run that is still going is the last batch of its stream. */
  function LastBatchOf(events: seq<SoakEvent>, i: nat, last: Option<nat>): Option<nat>
    requires WellFormedEvents(events)
    decreases |events| - i
  {
    if i >= |events| then last
    else if events[i].NewSlot? && events[i].slot.batchStart < events[i].slot.batchEnd then
      LastBatchOf(events, i + 1, Some(events[i].slot.batchEnd - 1))
    else LastBatchOf(events, i + 1, last)
  }

  lemma RunningSlotSawItsBatch(
      env: SoakEnvironment, o: SoakOptions, i: nat, slot: Slot, c: Counters, slots: map<nat, Slot>)
    requires slot.batchStart <= slot.batchEnd && o.fullSlotSaveInterval >= 1
    requires OnSlot(env, o, i, slot, c, slots).end.Running?
    ensures OnSlot(env, o, i, slot, c, slots).c.lastBatch
         == if slot.batchStart < slot.batchEnd then Some(slot.batchEnd - 1) else c.lastBatch
  {
    hide Backfill, SaveIfNeeded, IsVeryCloseToSoakTestEnd;
  }

  lemma {:induction false} RunningRunSawEveryBatch(
      env: SoakEnvironment, o: SoakOptions, events: seq<SoakEvent>, i: nat, c: Counters, slots: map<nat, Slot>)
    requires i <= |events| && WellFormedEvents(events) && o.fullSlotSaveInterval >= 1
    requires RunEvents(env, o, events, i, c, slots).end.Running?
    ensures RunEvents(env, o, events, i, c, slots).c.lastBatch == LastBatchOf(events, i, c.lastBatch)
    decreases |events| - i
  {
    hide Account, Record, OnSlot;
    if i == |events| {
    } else {
      var s := OnEvent(env, o, i, events[i], c, slots);
      if events[i].NewSlot? {
        RunningSlotSawItsBatch(env, o, i, events[i].slot, c, slots);
      }
      RunningRunSawEveryBatch(env, o, events, i + 1, s.c, s.slots);
    }
  }

  /** After every slot of a run that is still going, the count covers the stream seen so far. */
  lemma ThroughputAfterEverySlot(
      env: SoakEnvironment, o: SoakOptions, history: nat -> nat, events: seq<SoakEvent>,
      slots: map<nat, Slot>, firstBatch: nat)
    requires WellFormedEvents(events) && o.fullSlotSaveInterval >= 1
    requires HonestBatches(env, o, history) && ChainedSlots(events, 0, firstBatch)
    requires SoakLoop(env, o, events, slots).end.Running?
    ensures SoakLoop(env, o, events, slots).c.txs
         == match LastBatchOf(events, 0, None)
            case None => 0
            case Some(last) => TxsIn(history, o.throughputStartBatch + 1, last + 1)
  {
    ThroughputIsExact(env, o, history, events, slots, firstBatch);
    RunningRunSawEveryBatch(env, o, events, 0, InitialCounters(o), slots);
  }
}
