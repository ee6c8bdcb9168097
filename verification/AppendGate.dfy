/** Deciding whether a new version's data may be appended to the recorded data. */
module AppendGate {
  import opened Common
  import opened RunPlan
  import opened SnapshotFiles

  datatype AppendBoundaryCheck = SafeToAppend | NoSnapshots | AlreadyContainsLastVersion | Incomplete

  function ClassifyAppendBoundary(maxBatch: Option<nat>, prevStopHeight: nat): AppendBoundaryCheck {
    match maxBatch
    case None => NoSnapshots
    case Some(batch) =>
      var expectedMaxBatch := SaturatingSub(prevStopHeight, 1);
      if batch < expectedMaxBatch then Incomplete
      else if batch == expectedMaxBatch then SafeToAppend
      else AlreadyContainsLastVersion
  }

  function ValidateAppendBoundary(recorded: Option<RecordedDataBounds>, plan: Plan): AppendBoundaryCheck
    requires |plan.versions| > 1
  {
    var prevStopHeight := plan.versions[|plan.versions| - 2].stopHeight;
    var maxBatch := match recorded
      case None => None
      case Some(bounds) => Some(SaturatingSub(bounds.endRollupHeight, 1));
    ClassifyAppendBoundary(maxBatch, prevStopHeight)
  }

  /** The gate in terms of heights. Saturation makes it blind to the one block below height 1: by
      itself it would also let through data that ends at height 0. */
  lemma GateByHeight(end: nat, prevStopHeight: nat)
    ensures var check := ClassifyAppendBoundary(Some(SaturatingSub(end, 1)), prevStopHeight);
            && (check == SafeToAppend <==> end == prevStopHeight || (end <= 1 && prevStopHeight <= 1))
            && (check == AlreadyContainsLastVersion <==> end > prevStopHeight && end > 1)
            && (check == Incomplete <==> end < prevStopHeight && prevStopHeight > 1)
            && check != NoSnapshots
  {
  }

  /** The two gates agree: data that the plan check accepts ends at (n-1)*b or n*b; the append gate
      then answers "safe" in the first case, "already contains" in the second, never "incomplete". */
  lemma GatesAgree(plan: Plan, n: nat, b: nat, bounds: RecordedDataBounds)
    requires n >= 2 && b >= 1 && IsPlanFor(plan, n, b, Some(bounds))
    requires bounds.endRollupHeight == (n - 1) * b || bounds.endRollupHeight == n * b
    ensures ValidateAppendBoundary(Some(bounds), plan)
         == if bounds.endRollupHeight == (n - 1) * b then SafeToAppend else AlreadyContainsLastVersion
  {
    var end := bounds.endRollupHeight;
    assert plan.versions[n - 2].stopHeight == (n - 1) * b;
    assert n * b == (n - 1) * b + b;
    assert (n - 1) * b >= 1 by {
      assert (n - 1) * b == (n - 2) * b + b;
    }
    GateByHeight(end, (n - 1) * b);
  }

  // ---------------------------------------------------------------- choosing the setup mode

  datatype SetupError =
    | Unreadable(slot: nat)
    | DataOutOfSync(end: nat)
    | Refused(reason: AppendBoundaryCheck)

  datatype SetupMode = FromGenesis | AppendOnto(bounds: RecordedDataBounds)

  datatype PreparedSetupRun = PreparedSetupRun(plan: Plan, mode: SetupMode)

  /** How a persistent MockDA's setup run follows from the directory scan, for n versions of b blocks. */
  ghost predicate SetupFollows(
      scan: Result<Option<RecordedDataBounds>, ScanError>, n: nat, b: nat, r: Result<PreparedSetupRun, SetupError>) {
    match scan
    case Err(FinalSnapshotUnreadable(slot)) => r == Err(Unreadable(slot))
    case Ok(None) =>
      if n > 1 then r == Err(Refused(NoSnapshots)) else r.Ok? && r.value.mode == FromGenesis
    case Ok(Some(bounds)) =>
      if bounds.endRollupHeight == (n - 1) * b then
        && r.Ok?
        && r.value.plan.recorded == Some(bounds)
        && r.value.mode == if n > 1 then AppendOnto(bounds) else FromGenesis
      else if bounds.endRollupHeight == n * b then
        if n > 1 then r == Err(Refused(AlreadyContainsLastVersion)) else r.Ok? && r.value.mode == FromGenesis
      else r == Err(DataOutOfSync(bounds.endRollupHeight))
  }

  /** What a setup run over a directory with a persistent MockDA is prepared to do. */
  ghost predicate SetupReturns(files: Files, n: nat, b: nat, r: Result<PreparedSetupRun, SetupError>) {
    && (r.Ok? ==> IsPlanFor(r.value.plan, n, b, r.value.plan.recorded))
    && exists scan :: ScanReports(files, scan) && SetupFollows(scan, n, b, r)
  }

  /** Prepares a setup run over the snapshot directory: from genesis without a persistent MockDA or
      with a single version, and otherwise appending, if the data ends where the last version begins. */
  method PrepareSetupRun(files: Files, hasPersistentMockDa: bool, numVersions: nat, blocksPerVersion: nat)
    returns (r: Result<PreparedSetupRun, SetupError>)
    requires numVersions >= 1 && blocksPerVersion >= 1
    ensures !hasPersistentMockDa ==> r.Ok? && r.value.mode == FromGenesis && r.value.plan.recorded == None
    ensures r.Ok? ==> IsPlanFor(r.value.plan, numVersions, blocksPerVersion, r.value.plan.recorded)
    ensures hasPersistentMockDa ==> SetupReturns(files, numVersions, blocksPerVersion, r)
  {
    var recorded: Option<RecordedDataBounds> := None;
    if hasPersistentMockDa {
      var scan := ScanRecordedDataBounds(files);
      if scan.Err? {
        return Err(Unreadable(scan.error.slot));
      }
      recorded := scan.value;
    }
    var planned := PrepareAcceptanceRunPlan(numVersions, blocksPerVersion, recorded);
    if planned.Err? {
      return Err(DataOutOfSync(planned.error.end));
    }
    var plan := planned.value;
    if hasPersistentMockDa && |plan.versions| > 1 {
      var check := ValidateAppendBoundary(recorded, plan);
      if recorded.Some? {
        GatesAgree(plan, numVersions, blocksPerVersion, recorded.value);
      }
      if check != SafeToAppend {
        return Err(Refused(check));
      }
      return Ok(PreparedSetupRun(plan, AppendOnto(recorded.value)));
    }
    r := Ok(PreparedSetupRun(plan, FromGenesis));
  }
}
