/** The versioned run plan: where each rollup version starts and stops, what the recorded data
    is expected to hold, and which batch counts are migration boundaries. */
module RunPlan {
  import opened Common
  import opened SoakWorkers

  const SOAK_NUM_WORKERS: nat := 20
  const SOAK_SALT: nat := 3
  const SOAK_SAFETY_STOP_BLOCKS: nat := 5

  /** A version runs from its start height (None: genesis) to its stop height. */
  datatype RollupVersion = RollupVersion(startHeight: Option<nat>, stopHeight: nat)

  datatype RecordedDataBounds = RecordedDataBounds(lastSlotNumber: nat, endRollupHeight: nat)

  datatype PlanError = OutOfSync(end: nat)

  datatype Plan = Plan(
    versions: seq<RollupVersion>,
    soak: SoakConfig,
    recorded: Option<RecordedDataBounds>,
    blocksPerVersion: nat)
  {
    /** The highest batch number the recorded data should contain: batch numbers lag heights by one. */
    function ExpectedSetupBatches(): nat {
      SaturatingSub(
        match recorded
        case Some(bounds) => bounds.endRollupHeight
        case None => blocksPerVersion,
        1)
    }

    function LastRecordedSlot(): Option<nat> {
      match recorded
      case Some(bounds) => Some(bounds.lastSlotNumber)
      case None => None
    }

    function MigrationBoundaryBatchCounts(): seq<nat> {
      seq(SaturatingSub(|versions|, 1), i requires 0 <= i => (i + 1) * blocksPerVersion)
    }
  }

  lemma {:induction false} BoundaryOfAcceptedEnd(end: nat, n: nat, b: nat)
    requires n >= 1 && b >= 1
    ensures end % b == 0 && n - 1 <= end / b <= n <==> end == (n - 1) * b || end == n * b
  {
    assert end == b * (end / b) + end % b;
    if end == (n - 1) * b {
      QuotientOfMultiple(n - 1, b);
    }
    if end == n * b {
      QuotientOfMultiple(n, b);
    }
  }

  lemma {:induction false} QuotientOfMultiple(q: nat, b: nat)
    requires b >= 1
    ensures (q * b) % b == 0 && (q * b) / b == q
  {
    var x := q * b;
    assert x == b * (x / b) + x % b;
    MulMonotone(b, x / b, q);
    MulMonotone(b, q, x / b);
  }

  /** Builds the plan for `numVersions` versions, rejecting recorded data that does not end on a
      version boundary or does not cover all non-last versions. */
  method PrepareAcceptanceRunPlan(
      numVersions: nat, blocksPerVersion: nat, recorded: Option<RecordedDataBounds>)
    returns (r: Result<Plan, PlanError>)
    requires numVersions >= 1 && blocksPerVersion >= 1
    ensures r.Ok? <==> recorded.Some? ==>
              || recorded.value.endRollupHeight == (numVersions - 1) * blocksPerVersion
              || recorded.value.endRollupHeight == numVersions * blocksPerVersion
    ensures r.Err? ==> recorded.Some? && r.error == OutOfSync(recorded.value.endRollupHeight)
    ensures r.Ok? ==> IsPlanFor(r.value, numVersions, blocksPerVersion, recorded)
  {
    if recorded.Some? {
      var end := recorded.value.endRollupHeight;
      var isVersionBoundary := end % blocksPerVersion == 0;
      var coveredVersions := end / blocksPerVersion;
      BoundaryOfAcceptedEnd(end, numVersions, blocksPerVersion);
      if !isVersionBoundary || coveredVersions < SaturatingSub(numVersions, 1) || coveredVersions > numVersions {
        return Err(OutOfSync(end));
      }
    }
    var managerVersions: seq<RollupVersion>, soakVersions: seq<nat> := [], [];
    for idx := 0 to numVersions
      invariant |managerVersions| == |soakVersions| == idx
      invariant forall i :: 0 <= i < idx ==>
        && managerVersions[i].startHeight == (if i == 0 then None else Some(i * blocksPerVersion + 1))
        && managerVersions[i].stopHeight == (i + 1) * blocksPerVersion
      invariant forall i :: 0 <= i < idx ==> soakVersions[i] == managerVersions[i].stopHeight
    {
      var stopHeight := (idx + 1) * blocksPerVersion;
      var startHeight := if idx == 0 then None else Some(idx * blocksPerVersion + 1);
      managerVersions := managerVersions + [RollupVersion(startHeight, stopHeight)];
      soakVersions := soakVersions + [stopHeight];
    }
    var soak := SoakConfig(SOAK_NUM_WORKERS, SOAK_SALT, soakVersions, SOAK_SAFETY_STOP_BLOCKS);
    r := Ok(Plan(managerVersions, soak, recorded, blocksPerVersion));
  }

  /** The plan for n versions of b blocks: version i (from 0) produces the heights i*b + 1 to
      (i + 1)*b, and 20 soak workers per version take their ids from salt 3 on. */
  ghost predicate IsPlanFor(
      plan: Plan, numVersions: nat, blocksPerVersion: nat, recorded: Option<RecordedDataBounds>) {
    && |plan.versions| == |plan.soak.stopHeights| == numVersions
    && (forall i :: 0 <= i < numVersions ==>
          && plan.versions[i].startHeight == (if i == 0 then None else Some(i * blocksPerVersion + 1))
          && plan.versions[i].stopHeight == (i + 1) * blocksPerVersion)
    && (forall i :: 0 <= i < numVersions ==> plan.soak.stopHeights[i] == plan.versions[i].stopHeight)
    && plan.soak.numWorkers == 20
    && plan.soak.salt == 3
    && plan.soak.safetyStopBlocks == 5
    && plan.recorded == recorded
    && plan.blocksPerVersion == blocksPerVersion
  }

  /** The same versions, except that the last one stops `extraBlocks` later. */
  ghost predicate IsExtension(versions: seq<RollupVersion>, extraBlocks: nat, extended: seq<RollupVersion>) {
    && |extended| == |versions|
    && (forall i :: 0 <= i < |versions| - 1 ==> extended[i] == versions[i])
    && (versions != [] ==>
          && extended[|versions| - 1].startHeight == versions[|versions| - 1].startHeight
          && extended[|versions| - 1].stopHeight == versions[|versions| - 1].stopHeight + extraBlocks)
  }

  method ExtendLastStopHeight(versions: seq<RollupVersion>, extraBlocks: nat) returns (extended: seq<RollupVersion>)
    ensures IsExtension(versions, extraBlocks, extended)
  {
    if extraBlocks == 0 {
      return versions;
    }
    extended := versions;
    if extended != [] {
      var last := |extended| - 1;
      extended := extended[last := extended[last].(stopHeight := extended[last].stopHeight + extraBlocks)];
    }
  }

  // ---------------------------------------------------------------- ranges partition history

  /** The version is the one that produces height `h`. */
  predicate Produces(version: RollupVersion, h: nat) {
    (match version.startHeight case None => 1 case Some(start) => start) <= h <= version.stopHeight
  }

  predicate IsProducer(versions: seq<RollupVersion>, h: nat, i: nat) {
    i < |versions| && Produces(versions[i], h)
  }

  ghost predicate HasOneProducer(versions: seq<RollupVersion>, h: nat) {
    exists i: nat :: IsProducer(versions, h, i) && forall j: nat :: IsProducer(versions, h, j) ==> j == i
  }

  /** Every height from 1 to `end` has exactly one producing version, and no other height has any. */
  ghost predicate PartitionsHistory(versions: seq<RollupVersion>, end: nat) {
    && (forall h: nat :: 1 <= h <= end ==> HasOneProducer(versions, h))
    && (forall h: nat, i: nat :: IsProducer(versions, h, i) ==> 1 <= h <= end)
  }

  /** Versions follow one another without gap or overlap. */
  ghost predicate Consecutive(versions: seq<RollupVersion>) {
    && |versions| > 0
    && versions[0].startHeight == None
    && versions[0].stopHeight >= 1
    && (forall i :: 0 <= i < |versions| - 1 ==>
          && versions[i + 1].startHeight == Some(versions[i].stopHeight + 1)
          && versions[i].stopHeight < versions[i + 1].stopHeight)
  }

  lemma {:induction false} StopsIncrease(versions: seq<RollupVersion>, i: nat, j: nat)
    requires Consecutive(versions) && i < j < |versions|
    ensures versions[i].stopHeight < versions[j].stopHeight
    ensures versions[j].startHeight.Some? && versions[i].stopHeight < versions[j].startHeight.value
    decreases j - i
  {
    if i + 1 == j {
    } else {
      StopsIncrease(versions, i, j - 1);
    }
  }

  lemma {:induction false} SomeVersionProduces(versions: seq<RollupVersion>, upTo: nat, h: nat) returns (i: nat)
    requires Consecutive(versions) && upTo < |versions| && 1 <= h <= versions[upTo].stopHeight
    ensures IsProducer(versions, h, i)
    decreases upTo
  {
    if upTo > 0 && h <= versions[upTo - 1].stopHeight {
      i := SomeVersionProduces(versions, upTo - 1, h);
    } else {
      assert upTo > 0 ==> versions[upTo - 1 + 1].startHeight == Some(versions[upTo - 1].stopHeight + 1);
      i := upTo;
    }
  }

  lemma ProducerIsUnique(versions: seq<RollupVersion>, h: nat, i: nat, j: nat)
    requires Consecutive(versions) && IsProducer(versions, h, i) && IsProducer(versions, h, j)
    ensures i == j
  {
    if i < j {
      StopsIncrease(versions, i, j);
    } else if j < i {
      StopsIncrease(versions, j, i);
    }
  }

  lemma ProducerIsInRange(versions: seq<RollupVersion>, h: nat, i: nat)
    requires Consecutive(versions) && IsProducer(versions, h, i)
    ensures 1 <= h <= versions[|versions| - 1].stopHeight
  {
    if i > 0 {
      StopsIncrease(versions, 0, i);
    }
    if i < |versions| - 1 {
      StopsIncrease(versions, i, |versions| - 1);
    }
  }

  lemma ConsecutivePartitions(versions: seq<RollupVersion>)
    requires Consecutive(versions)
    ensures PartitionsHistory(versions, versions[|versions| - 1].stopHeight)
  {
    var n := |versions|;
    forall h: nat | 1 <= h <= versions[n - 1].stopHeight ensures HasOneProducer(versions, h) {
      var i := SomeVersionProduces(versions, n - 1, h);
      forall j: nat | IsProducer(versions, h, j) ensures j == i {
        ProducerIsUnique(versions, h, i, j);
      }
    }
    forall h: nat, i: nat | IsProducer(versions, h, i) ensures 1 <= h <= versions[n - 1].stopHeight {
      ProducerIsInRange(versions, h, i);
    }
  }

  lemma PlannedVersionsAreConsecutive(plan: Plan, n: nat, b: nat, recorded: Option<RecordedDataBounds>)
    requires n >= 1 && b >= 1 && IsPlanFor(plan, n, b, recorded)
    ensures Consecutive(plan.versions) && plan.versions[n - 1].stopHeight == n * b
  {
    forall i | 0 <= i < n - 1 ensures plan.versions[i].stopHeight < plan.versions[i + 1].stopHeight {
      MulMonotone(b, i + 1, i + 2);
    }
  }

  lemma ExtensionStaysConsecutive(versions: seq<RollupVersion>, extra: nat, extended: seq<RollupVersion>)
    requires Consecutive(versions) && IsExtension(versions, extra, extended)
    ensures Consecutive(extended)
  {
  }

  /** The counts at which a migration runs are the stop heights of the non-last versions. */
  ghost predicate BoundariesAreStops(plan: Plan, versions: seq<RollupVersion>) {
    && |plan.MigrationBoundaryBatchCounts()| == |versions| - 1
    && forall i :: 0 <= i < |versions| - 1 ==> plan.MigrationBoundaryBatchCounts()[i] == versions[i].stopHeight
  }

  /** The planned ranges partition the heights 1..n*b; extending the last stop height by any amount
      keeps this; and the migration boundary counts are the non-last stop heights before and after. */
  lemma VersionRangesPartitionHistory(
      plan: Plan, n: nat, b: nat, recorded: Option<RecordedDataBounds>, extra: nat, extended: seq<RollupVersion>)
    requires n >= 1 && b >= 1 && IsPlanFor(plan, n, b, recorded) && IsExtension(plan.versions, extra, extended)
    ensures PartitionsHistory(plan.versions, n * b) && BoundariesAreStops(plan, plan.versions)
    ensures PartitionsHistory(extended, n * b + extra) && BoundariesAreStops(plan, extended)
  {
    PlannedVersionsAreConsecutive(plan, n, b, recorded);
    ConsecutivePartitions(plan.versions);
    ExtensionStaysConsecutive(plan.versions, extra, extended);
    ConsecutivePartitions(extended);
  }
}
