/** The managed rollup process: graceful shutdown, escalation to SIGKILL, and drop. */
module RollupProcess {
  import opened Common
  import opened Decimals

  const GRACEFUL_SHUTDOWN_SECS: nat := 30
  const FORCED_SHUTDOWN_SECS: nat := 2
  const TOP_LEVEL_ABORT_SECS: nat := 90

  datatype WaitOutcome = Exited(success: bool) | WaitFailed | TimedOut

  /** What is done to the child, in order. A wait records its limit in seconds and how it ended. */
  datatype Action = SigTerm | SigKill | Wait(limit: nat, outcome: WaitOutcome)

  datatype ProcessError = NonZeroExit | WaitError | DidNotTerminate

  /** A SIGKILL comes only after a SIGTERM followed by a full grace period. */
  predicate KillsOnlyAfterGrace(actions: seq<Action>) {
    forall k :: 0 <= k < |actions| && actions[k] == SigKill ==>
      k >= 2 && actions[k - 2] == SigTerm && actions[k - 1] == Wait(30, TimedOut)
  }

  lemma WaitingFirstKeepsGrace(wait: Action, rest: seq<Action>)
    requires wait.Wait? && KillsOnlyAfterGrace(rest)
    ensures KillsOnlyAfterGrace([wait] + rest)
    ensures SigKill in rest ==> SigKill in [wait] + rest
  {
    var all := [wait] + rest;
    forall k | 0 <= k < |all| && all[k] == SigKill
      ensures k >= 2 && all[k - 2] == SigTerm && all[k - 1] == Wait(30, TimedOut)
    {
      assert rest[k - 1] == SigKill;
    }
  }

  /** The result that a wait which did not run out decides. */
  ghost predicate Decides(outcome: WaitOutcome, r: Result<(), ProcessError>) {
    match outcome
    case Exited(success) => r == if success then Ok(()) else Err(NonZeroExit)
    case WaitFailed => r == Err(WaitError)
    case TimedOut => false
  }

  /** `done` is a graceful shutdown with result `r`: SIGTERM and 30 seconds; and if they run out with
      the child not `reaped` meanwhile, SIGKILL and 2 more seconds. */
  ghost predicate IsShutdown(done: seq<Action>, r: Result<(), ProcessError>, reaped: bool) {
    && |done| >= 2 && done[0] == SigTerm && done[1].Wait? && done[1].limit == 30
    && if |done| == 2 then
         Decides(done[1].outcome, r) || (done[1].outcome.TimedOut? && reaped && r == Ok(()))
       else
         && |done| == 4 && done[1].outcome.TimedOut? && done[2] == SigKill
         && done[3].Wait? && done[3].limit == 2
         && (Decides(done[3].outcome, r) || (done[3].outcome.TimedOut? && r == Err(DidNotTerminate)))
  }

  /** The same, after first waiting 30 seconds for a natural exit. */
  ghost predicate IsPatientShutdown(done: seq<Action>, r: Result<(), ProcessError>, reaped: bool) {
    && |done| >= 1 && done[0].Wait? && done[0].limit == 30
    && if |done| == 1 then
         Decides(done[0].outcome, r) || (done[0].outcome.TimedOut? && reaped && r == Ok(()))
       else
         done[0].outcome.TimedOut? && IsShutdown(done[1..], r, reaped)
  }

  class ManagedRollupProcess {
    /** The child's pid; None once the child has been reaped. */
    var id: Option<nat>
    ghost var actions: seq<Action>
    /** The limits of all waits so far, added up. */
    ghost var waited: nat

    constructor (pid: nat)
      ensures id == Some(pid) && actions == [] && waited == 0
    {
      id := Some(pid);
      actions, waited := [], 0;
    }

    /** Stopped for good: reaped, or sent a signal it cannot survive. */
    ghost predicate StoppedOrKilled()
      reads this
    {
      id.None? || SigKill in actions
    }

    /** A wait or a status query outside this class saw the child exit. */
    method Reaped()
      modifies this
      ensures id.None? && actions == old(actions) && waited == old(waited)
    {
      id := None;
    }

    method RequestShutdown()
      modifies this
      ensures id == old(id)
      ensures actions == if id.Some? then old(actions) + [SigTerm] else old(actions)
      ensures waited == old(waited)
    {
      if id.Some? {
        actions := actions + [SigTerm];
      }
    }

    /** Waits for the exit up to `limit` seconds; the operating system chooses the outcome. */
    method WaitForExit(limit: nat) returns (outcome: WaitOutcome)
      modifies this
      ensures outcome.Exited? ==> id.None?
      ensures outcome.WaitFailed? ==> id == old(id)
      ensures id == old(id) || id.None?
      ensures actions == old(actions) + [Wait(limit, outcome)]
      ensures waited == old(waited) + limit
    {
      outcome := *;
      var reapedMeanwhile := *;
      if outcome.Exited? || (outcome.TimedOut? && reapedMeanwhile) {
        id := None;
      }
      actions := actions + [Wait(limit, outcome)];
      waited := waited + limit;
    }

    /** SIGTERM, a grace period, SIGKILL, a short wait; Ok only if the child has been reaped. */
    method Shutdown() returns (r: Result<(), ProcessError>)
      modifies this
      ensures r.Ok? ==> id.None?
      ensures id == old(id) || id.None?
      ensures old(actions) <= actions
      ensures var done := actions[|old(actions)|..];
              && (old(id).None? ==> r == Ok(()) && done == [])
              && (old(id).Some? ==> IsShutdown(done, r, id.None?))
              && KillsOnlyAfterGrace(done)
              && waited <= old(waited) + 32
              && (r == Err(DidNotTerminate) ==> SigKill in done)
              && (r == Err(NonZeroExit) ==> id.None?)
    {
      if id.None? {
        return Ok(());
      }
      RequestShutdown();
      var outcome := WaitForExit(GRACEFUL_SHUTDOWN_SECS);
      assert actions[|old(actions)|..] == [SigTerm, Wait(GRACEFUL_SHUTDOWN_SECS, outcome)];
      match outcome {
        case Exited(success) => return if success then Ok(()) else Err(NonZeroExit);
        case WaitFailed => return Err(WaitError);
        case TimedOut =>
      }
      if id.None? {
        return Ok(());
      }
      actions := actions + [SigKill];
      outcome := WaitForExit(FORCED_SHUTDOWN_SECS);
      assert actions[|old(actions)|..] == [SigTerm, Wait(GRACEFUL_SHUTDOWN_SECS, TimedOut), SigKill,
                                           Wait(FORCED_SHUTDOWN_SECS, outcome)];
      r := match outcome
        case Exited(success) => if success then Ok(()) else Err(NonZeroExit)
        case WaitFailed => Err(WaitError)
        case TimedOut => Err(DidNotTerminate);
    }

    /** Waits for a natural exit first, then shuts down; total waiting stays below the top-level
        abort timeout. */
    method EnsureStopped() returns (r: Result<(), ProcessError>)
      modifies this
      ensures r.Ok? ==> id.None?
      ensures id == old(id) || id.None?
      ensures old(actions) <= actions
      ensures var done := actions[|old(actions)|..];
              && (old(id).None? ==> r == Ok(()) && done == [])
              && (old(id).Some? ==> IsPatientShutdown(done, r, id.None?))
              && KillsOnlyAfterGrace(done)
              && waited - old(waited) <= 62 < TOP_LEVEL_ABORT_SECS == 90
              && (r == Err(DidNotTerminate) ==> SigKill in done)
              && (r == Err(NonZeroExit) ==> id.None?)
    {
      if id.None? {
        return Ok(());
      }
      var outcome := WaitForExit(GRACEFUL_SHUTDOWN_SECS);
      assert actions[|old(actions)|..] == [Wait(GRACEFUL_SHUTDOWN_SECS, outcome)];
      match outcome {
        case Exited(success) => return if success then Ok(()) else Err(NonZeroExit);
        case WaitFailed => return Err(WaitError);
        case TimedOut =>
      }
      if id.None? {
        return Ok(());
      }
      ghost var before := actions;
      r := Shutdown();
      ghost var rest := actions[|before|..];
      WaitingFirstKeepsGrace(Wait(GRACEFUL_SHUTDOWN_SECS, TimedOut), rest);
      assert actions[|old(actions)|..] == [Wait(GRACEFUL_SHUTDOWN_SECS, TimedOut)] + rest;
    }

    method Drop()
      modifies this
      ensures id == old(id)
      ensures actions == if id.Some? then old(actions) + [SigKill] else old(actions)
      ensures waited == old(waited)
      ensures StoppedOrKilled()
    {
      if id.Some? {
        actions := actions + [SigKill];
      }
    }
  }

  // ---------------------------------------------------------------- combining errors

  ghost predicate Mentions(text: string, part: string) {
    exists i: nat, j: nat :: i <= j <= |text| && text[i..j] == part
  }

  lemma MentionsInContext(before: string, text: string, after: string, part: string)
    requires Mentions(text, part)
    ensures Mentions(before + text + after, part)
  {
    var i: nat, j: nat :| i <= j <= |text| && text[i..j] == part;
    var whole := before + text + after;
    assert whole[|before| + i..|before| + j] == part;
  }

  function Join(messages: seq<string>): string {
    if messages == [] then ""
    else if |messages| == 1 then messages[0]
    else messages[0] + "\n" + Join(messages[1..])
  }

  lemma {:induction false} JoinMentions(messages: seq<string>, k: nat, part: string)
    requires k < |messages| && Mentions(messages[k], part)
    ensures Mentions(Join(messages), part)
    decreases |messages|
  {
    if |messages| == 1 {
    } else {
      if k == 0 {
        MentionsInContext("", messages[0], "\n" + Join(messages[1..]), part);
        assert "" + messages[0] + ("\n" + Join(messages[1..])) == Join(messages);
      } else {
        JoinMentions(messages[1..], k - 1, part);
        MentionsInContext(messages[0] + "\n", Join(messages[1..]), "", part);
        assert messages[0] + "\n" + Join(messages[1..]) + "" == Join(messages);
      }
    }
  }

  lemma LabelledMentions(heading: string, err: string)
    ensures Mentions(heading + err, err)
  {
    assert (heading + err)[|heading|..|heading + err|] == err;
  }

  lemma MentionsItself(err: string)
    ensures Mentions(err, err)
  {
    assert err[0..|err|] == err;
  }

  /** None exactly when nothing failed; a lone error passes through unchanged; otherwise the
      combined error mentions every one of them. */
  method CombineSoakErrors(primary: Option<string>, additional: seq<string>) returns (r: Option<string>)
    ensures r.None? <==> primary.None? && additional == []
    ensures primary.Some? && additional == [] ==> r == primary
    ensures primary.None? && |additional| == 1 ==> r == Some(additional[0])
    ensures primary.Some? ==> Mentions(r.value, primary.value)
    ensures forall k :: 0 <= k < |additional| ==> Mentions(r.value, additional[k])
  {
    if primary.None? && |additional| == 0 {
      return None;
    }
    if primary.Some? && |additional| == 0 {
      MentionsItself(primary.value);
      return primary;
    }
    if primary.None? && |additional| == 1 {
      MentionsItself(additional[0]);
      return Some(additional[0]);
    }
    var messages: seq<string> := [];
    if primary.Some? {
      LabelledMentions("Primary error: ", primary.value);
      messages := ["Primary error: " + primary.value];
    }
    ghost var first := |messages|;
    for idx := 0 to |additional|
      invariant |messages| == first + idx
      invariant primary.Some? ==> first == 1 && Mentions(messages[0], primary.value)
      invariant forall k :: 0 <= k < idx ==> Mentions(messages[first + k], additional[k])
    {
      LabelledMentions("Additional error " + Decimal(idx + 1) + ": ", additional[idx]);
      messages := messages + ["Additional error " + Decimal(idx + 1) + ": " + additional[idx]];
    }
    if primary.Some? {
      JoinMentions(messages, 0, primary.value);
    }
    forall k | 0 <= k < |additional| ensures Mentions(Join(messages), additional[k]) {
      JoinMentions(messages, first + k, additional[k]);
    }
    r := Some(Join(messages));
  }
}
