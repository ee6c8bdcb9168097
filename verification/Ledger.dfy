/** Slot records as the ledger API reports them, and their comparison with a saved snapshot. */
module Ledger {
  import opened Common

  datatype Batch = Batch(number: u64, hash: string, txs: seq<string>)

  /** A slot. Snapshots are mostly saved slim, that is, with `batches` empty. */
  datatype Slot = Slot(
    number: u64,
    hash: string,
    stateRoot: string,
    batchStart: u64,
    batchEnd: u64,
    timestamp: u64,
    finality: string,
    kind: string,
    batches: seq<Batch>)
  {
    /** True if the slot's batch range is non-empty, whether or not the batches are attached. */
    predicate CarriesBatches() {
      batchStart != batchEnd
    }
  }

  /** True if the slot closes a version: it carries the batch that ends on a boundary count. */
  predicate IsMigrationBoundary(snapshot: Slot, boundaryCounts: seq<nat>) {
    snapshot.CarriesBatches() && snapshot.batchEnd in boundaryCounts
  }

  /** The snapshot as it is handed to the comparison: at a boundary slot, a differing state root
      is overwritten with the live one. */
  function PatchedSnapshot(snapshot: Slot, live: Slot, boundaryCounts: seq<nat>): Slot {
    if IsMigrationBoundary(snapshot, boundaryCounts) && snapshot.stateRoot != live.stateRoot
    then snapshot.(stateRoot := live.stateRoot)
    else snapshot
  }

  predicate CompareAgainstSnapshot(live: Slot, snapshot: Slot) {
    live == snapshot
  }

  /** What it means for a live slot to replay a snapshot: every field agrees, except that a slot
      whose own batches end on a boundary count may report another state root. */
  ghost predicate Replays(live: Slot, snapshot: Slot, boundaryCounts: seq<nat>) {
    && live.number == snapshot.number
    && live.hash == snapshot.hash
    && live.batchStart == snapshot.batchStart
    && live.batchEnd == snapshot.batchEnd
    && live.timestamp == snapshot.timestamp
    && live.finality == snapshot.finality
    && live.kind == snapshot.kind
    && live.batches == snapshot.batches
    && (|| live.stateRoot == snapshot.stateRoot
        || (snapshot.batchStart != snapshot.batchEnd && snapshot.batchEnd in boundaryCounts))
  }

  /** The patched comparison accepts exactly the replaying slots: leniency is one field wide. */
  lemma PatchedComparisonIsReplay(live: Slot, snapshot: Slot, boundaryCounts: seq<nat>)
    ensures CompareAgainstSnapshot(live, PatchedSnapshot(snapshot, live, boundaryCounts))
       <==> Replays(live, snapshot, boundaryCounts)
  {
    if Replays(live, snapshot, boundaryCounts) {
      assert live == snapshot.(stateRoot := live.stateRoot);
    }
  }
}
