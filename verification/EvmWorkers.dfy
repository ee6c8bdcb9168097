/** The EVM consistency workers: how their keys are derived, and the lockstep between each worker
    and its contract under every interleaving of submission and execution. */
module EvmWorkers {
  import opened Common

  // ---------------------------------------------------------------- worker keys

  const PINNED_WORKER_KEY_OFFSET: nat := 10
  const UNPINNED_WORKER_KEY_OFFSET: nat := 60

  type Key = k: seq<byte> | |k| == 32 witness seq(32, _ => 0)

  /** `key_bytes[0] = key_bytes[0].wrapping_add(worker_idx)`. */
  method DeriveWorkerKey(rootKey: Key, workerIdx: byte) returns (key: Key)
    ensures key[0] == if rootKey[0] + workerIdx < 256 then rootKey[0] + workerIdx else rootKey[0] + workerIdx - 256
    ensures key[1..] == rootKey[1..]
  {
    var keyBytes := new byte[32](i requires 0 <= i < 32 => rootKey[i]);
    keyBytes[0] := (keyBytes[0] + workerIdx) % 256;
    key := keyBytes[..];
  }

  function KeyWithOffset(rootKey: Key, offset: nat): Key {
    rootKey[0 := (rootKey[0] + offset) % 256]
  }

  /** None: the index does not fit in a byte. */
  function WorkerKeyForIndex(rootKey: Key, offset: nat, idx: nat): Option<Key> {
    if idx < 256 then Some(KeyWithOffset(rootKey, (offset + idx) % 256)) else None
  }

  function PinnedWorkerKey(rootKey: Key, idx: nat): Option<Key> {
    WorkerKeyForIndex(rootKey, PINNED_WORKER_KEY_OFFSET, idx)
  }

  function UnpinnedWorkerKey(rootKey: Key, idx: nat): Option<Key> {
    WorkerKeyForIndex(rootKey, UNPINNED_WORKER_KEY_OFFSET, idx)
  }

  /** Worker keys in numbers: pinned ones count from 10, unpinned ones from 60, on the first byte only;
      an index above 255 has none. */
  lemma KeysInNumbers(rootKey: Key, idx: nat)
    ensures PinnedWorkerKey(rootKey, idx) == if idx <= 255 then Some(rootKey[0 := (rootKey[0] + 10 + idx) % 256]) else None
    ensures UnpinnedWorkerKey(rootKey, idx) == if idx <= 255 then Some(rootKey[0 := (rootKey[0] + 60 + idx) % 256]) else None
  {
  }

  /** The keys of all workers, pinned ones first. */
  function WorkerKey(rootKey: Key, pinned: nat, idx: nat): Option<Key> {
    if idx < pinned then PinnedWorkerKey(rootKey, idx) else UnpinnedWorkerKey(rootKey, idx - pinned)
  }

  ghost predicate KeysDistinct(rootKey: Key, pinned: nat, unpinned: nat) {
    forall i: nat, j: nat :: i < pinned + unpinned && j < pinned + unpinned && i != j ==>
      WorkerKey(rootKey, pinned, i) != WorkerKey(rootKey, pinned, j)
  }

  /** The byte that is added to the root key's first byte for a worker. */
  function WorkerOffset(pinned: nat, idx: nat): nat {
    (if idx < pinned then PINNED_WORKER_KEY_OFFSET + idx else UNPINNED_WORKER_KEY_OFFSET + (idx - pinned)) % 256
  }

  lemma KeyOfWorker(rootKey: Key, pinned: nat, unpinned: nat, i: nat)
    requires pinned <= 256 && unpinned <= 256 && i < pinned + unpinned
    ensures WorkerKey(rootKey, pinned, i) == Some(KeyWithOffset(rootKey, WorkerOffset(pinned, i)))
  {
    hide KeyWithOffset;
  }

  lemma ByteSumsDiffer(x: byte, a: byte, b: byte)
    requires a != b
    ensures (x + a) % 256 != (x + b) % 256
  {
  }

  lemma KeysDiffer(rootKey: Key, a: byte, b: byte)
    requires a != b
    ensures KeyWithOffset(rootKey, a) != KeyWithOffset(rootKey, b)
  {
    ByteSumsDiffer(rootKey[0], a, b);
    assert KeyWithOffset(rootKey, a)[0] == (rootKey[0] + a) % 256;
    assert KeyWithOffset(rootKey, b)[0] == (rootKey[0] + b) % 256;
  }

  lemma OffsetsDecide(rootKey: Key, pinned: nat, unpinned: nat, i: nat, j: nat)
    requires pinned <= 256 && unpinned <= 256 && i < pinned + unpinned && j < pinned + unpinned
    ensures WorkerKey(rootKey, pinned, i) == WorkerKey(rootKey, pinned, j)
       <==> WorkerOffset(pinned, i) == WorkerOffset(pinned, j)
  {
    KeyOfWorker(rootKey, pinned, unpinned, i);
    KeyOfWorker(rootKey, pinned, unpinned, j);
    hide WorkerKey, KeyWithOffset;
    if WorkerOffset(pinned, i) != WorkerOffset(pinned, j) {
      KeysDiffer(rootKey, WorkerOffset(pinned, i), WorkerOffset(pinned, j));
    }
  }

  lemma OffsetsDistinct(pinned: nat, unpinned: nat, i: nat, j: nat)
    requires pinned <= 256 && unpinned <= 256 && i < j < pinned + unpinned
    requires pinned == 0 || unpinned == 0 || (pinned <= 50 && unpinned <= 206)
    ensures WorkerOffset(pinned, i) != WorkerOffset(pinned, j)
  {
  }

  lemma OffsetsCollide(pinned: nat, unpinned: nat) returns (i: nat, j: nat)
    requires 0 < pinned <= 256 && 0 < unpinned <= 256 && (pinned > 50 || unpinned > 206)
    ensures i < j < pinned + unpinned && WorkerOffset(pinned, i) == WorkerOffset(pinned, j)
  {
    i, j := if pinned > 50 then 50 else 0, if pinned > 50 then pinned else pinned + 206;
  }

  /** Despite byte wraparound, all worker keys are pairwise distinct exactly when there are no pinned
      workers or no unpinned ones, or at most 50 pinned and 206 unpinned. */
  lemma KeysDistinctIff(rootKey: Key, pinned: nat, unpinned: nat)
    requires pinned <= 256 && unpinned <= 256
    ensures KeysDistinct(rootKey, pinned, unpinned)
       <==> pinned == 0 || unpinned == 0 || (pinned <= 50 && unpinned <= 206)
  {
    hide WorkerKey, WorkerOffset;
    if pinned == 0 || unpinned == 0 || (pinned <= 50 && unpinned <= 206) {
      forall i: nat, j: nat | i < pinned + unpinned && j < pinned + unpinned && i != j
        ensures WorkerKey(rootKey, pinned, i) != WorkerKey(rootKey, pinned, j)
      {
        OffsetsDecide(rootKey, pinned, unpinned, i, j);
        if i < j {
          OffsetsDistinct(pinned, unpinned, i, j);
        } else {
          OffsetsDistinct(pinned, unpinned, j, i);
        }
      }
    } else {
      var i, j := OffsetsCollide(pinned, unpinned);
      OffsetsDecide(rootKey, pinned, unpinned, i, j);
    }
  }

  // ---------------------------------------------------------------- the contract

  /** `update` moves the value only from the value it names; otherwise it reverts. */
  class StateConsistencyTester {
    var value: nat

    constructor (initial: nat)
      ensures value == initial
    {
      value := initial;
    }

    method Update(oldValue: nat, newValue: nat) returns (ok: bool)
      modifies this
      ensures ok <==> oldValue == old(value)
      ensures value == if ok then newValue else old(value)
    {
      if oldValue != value {
        return false;
      }
      value := newValue;
      ok := true;
    }
  }

  function Executed(value: nat, oldValue: nat, newValue: nat): (bool, nat) {
    if oldValue == value then (true, newValue) else (false, value)
  }

  // ---------------------------------------------------------------- one worker

  datatype Tx = Tx(oldValue: nat, newValue: nat)

  /** What the sequencer answers to a submitted transaction. */
  datatype SendResult = Accepted | StopHeightReached | OtherError

  datatype WorkerEnd = StillRunning | ShutDown | WorkerFailed

  function Successor(x: nat): nat {
    (x + 1) % TWO_256
  }

  /** The number of answers before the first one that is not an acceptance. */
  function AcceptedPrefix(answers: seq<SendResult>): (k: nat)
    ensures k <= |answers|
    ensures forall i :: 0 <= i < k ==> answers[i] == Accepted
    ensures k < |answers| ==> answers[k] != Accepted
  {
    if answers == [] || answers[0] != Accepted then 0 else 1 + AcceptedPrefix(answers[1..])
  }

  /** A worker that read `value` and `nonce` at its start. Its transactions form one chain of
      increments on consecutive nonces, up to and including the first one that is not accepted. */
  method EvmStateConsistencyWorker(value: nat, nonce: nat, answers: seq<SendResult>)
    returns (end: WorkerEnd, sent: seq<(nat, Tx)>)
    requires value < TWO_256 && nonce < TWO_64
    ensures var k := AcceptedPrefix(answers);
            && |sent| == (if k < |answers| then k + 1 else k)
            && (forall i :: 0 <= i < |sent| ==>
                  && sent[i].0 == (if nonce + i <= 0xFFFF_FFFF_FFFF_FFFF then nonce + i else 0xFFFF_FFFF_FFFF_FFFF)
                  && sent[i].1 == Tx((value + i) % TWO_256, (value + i + 1) % TWO_256))
            && end == if k == |answers| then StillRunning
                      else if answers[k] == StopHeightReached then ShutDown else WorkerFailed
  {
    var expectedValue, currentNonce := value, nonce;
    sent := [];
    for i := 0 to |answers|
      invariant forall j :: 0 <= j < i ==> answers[j] == Accepted
      invariant expectedValue == (value + i) % TWO_256 && currentNonce == SaturatingAdd64(nonce, i)
      invariant |sent| == i
      invariant forall j :: 0 <= j < i ==>
        sent[j] == (SaturatingAdd64(nonce, j), Tx((value + j) % TWO_256, (value + j + 1) % TWO_256))
    {
      var newValue := Successor(expectedValue);
      SuccessorOfSum(value, i);
      sent := sent + [(currentNonce, Tx(expectedValue, newValue))];
      match answers[i]
      case Accepted =>
        currentNonce := SaturatingAdd64(currentNonce, 1);
        expectedValue := newValue;
      case StopHeightReached => return ShutDown, sent;
      case OtherError => return WorkerFailed, sent;
    }
    end := StillRunning;
  }

  lemma SuccessorOfSum(base: nat, n: nat)
    ensures Successor((base + n) % TWO_256) == (base + (n + 1)) % TWO_256
  {
  }

  // ---------------------------------------------------------------- the system

  /** One worker: the value it expects, and its accepted transactions that are not executed yet. */
  datatype Worker = Worker(target: nat, expected: nat, pending: seq<Tx>, accepted: nat)

  /** `reverted` is set once any executed transaction reverts. */
  datatype System = System(contracts: seq<nat>, workers: seq<Worker>, reverted: bool)

  /** A worker submits its next update, which the sequencer accepts or rejects; or the oldest pending
      transaction of a worker executes. */
  datatype Action = Submit(worker: nat, accepted: bool) | Execute(worker: nat)

  ghost predicate WellFormed(s: System) {
    forall w :: 0 <= w < |s.workers| ==> s.workers[w].target < |s.contracts|
  }

  function Act(s: System, a: Action): (s': System)
    requires WellFormed(s)
    ensures WellFormed(s')
  {
    if a.worker >= |s.workers| then s
    else
      var w := s.workers[a.worker];
      match a
      case Submit(_, false) => s
      case Submit(_, true) =>
        var tx := Tx(w.expected, Successor(w.expected));
        s.(workers := s.workers[a.worker :=
          w.(expected := tx.newValue, pending := w.pending + [tx], accepted := w.accepted + 1)])
      case Execute(_) =>
        if w.pending == [] then s
        else
          var (ok, value) := Executed(s.contracts[w.target], w.pending[0].oldValue, w.pending[0].newValue);
          s.(contracts := s.contracts[w.target := value],
             workers := s.workers[a.worker := w.(pending := w.pending[1..])],
             reverted := s.reverted || !ok)
  }

  function RunSystem(s: System, actions: seq<Action>): (s': System)
    requires WellFormed(s)
    ensures WellFormed(s')
    decreases |actions|
  {
    if actions == [] then s else RunSystem(Act(s, actions[0]), actions[1..])
  }

  /** Each worker has a contract to itself. */
  ghost predicate OneWriterEach(s: System) {
    forall v, w :: 0 <= v < |s.workers| && 0 <= w < |s.workers| && v != w ==>
      s.workers[v].target != s.workers[w].target
  }

  /** At start each worker has read its contract's value and nothing is pending. */
  ghost predicate Starts(s: System) {
    && WellFormed(s)
    && !s.reverted
    && (forall c :: 0 <= c < |s.contracts| ==> s.contracts[c] < TWO_256)
    && (forall w :: 0 <= w < |s.workers| ==>
          && s.workers[w].pending == []
          && s.workers[w].accepted == 0
          && s.workers[w].expected == s.contracts[s.workers[w].target])
  }

  /** The pending transactions lead step by step from the contract's value to the expected one. */
  ghost predicate Leads(value: nat, pending: seq<Tx>, expected: nat)
    decreases |pending|
  {
    if pending == [] then expected == value
    else
      && pending[0] == Tx(value, Successor(value))
      && Leads(Successor(value), pending[1..], expected)
  }

  lemma {:induction false} LeadsOneFurther(value: nat, pending: seq<Tx>, expected: nat)
    requires Leads(value, pending, expected)
    ensures Leads(value, pending + [Tx(expected, Successor(expected))], Successor(expected))
    decreases |pending|
  {
    var longer := pending + [Tx(expected, Successor(expected))];
    if pending != [] {
      LeadsOneFurther(Successor(value), pending[1..], expected);
      assert longer[1..] == pending[1..] + [Tx(expected, Successor(expected))];
    } else {
      assert longer[1..] == [];
    }
  }

  /** The number of updates that the sequencer accepts from worker `w`. */
  function AcceptedUpdates(actions: seq<Action>, w: nat): nat {
    if actions == [] then 0
    else (if actions[0] == Submit(w, true) then 1 else 0) + AcceptedUpdates(actions[1..], w)
  }

  lemma {:induction false} AcceptedIsCounted(s: System, actions: seq<Action>, w: nat)
    requires WellFormed(s) && w < |s.workers|
    ensures |RunSystem(s, actions).workers| == |s.workers|
    ensures RunSystem(s, actions).workers[w].accepted == s.workers[w].accepted + AcceptedUpdates(actions, w)
    decreases |actions|
  {
    if actions == [] {
    } else {
      AcceptedIsCounted(Act(s, actions[0]), actions[1..], w);
    }
  }

  ghost predicate Lockstep(s: System, start: System) {
    && WellFormed(s)
    && OneWriterEach(s)
    && !s.reverted
    && |s.workers| == |start.workers|
    && |s.contracts| == |start.contracts|
    && (forall w :: 0 <= w < |s.workers| ==>
          && s.workers[w].target == start.workers[w].target
          && Leads(s.contracts[s.workers[w].target], s.workers[w].pending, s.workers[w].expected)
          && s.workers[w].expected == (start.workers[w].expected + s.workers[w].accepted) % TWO_256)
  }

  lemma LockstepStep(s: System, start: System, a: Action)
    requires WellFormed(start) && Lockstep(s, start)
    ensures Lockstep(Act(s, a), start)
  {
    if a.worker < |s.workers| && a.Submit? && a.accepted {
      var w := s.workers[a.worker];
      LeadsOneFurther(s.contracts[w.target], w.pending, w.expected);
      SuccessorOfSum(start.workers[a.worker].expected, w.accepted);
    }
  }

  lemma {:induction false} RunKeepsLockstep(s: System, start: System, actions: seq<Action>)
    requires WellFormed(start) && Lockstep(s, start)
    ensures Lockstep(RunSystem(s, actions), start)
    decreases |actions|
  {
    if actions == [] {
    } else {
      LockstepStep(s, start, actions[0]);
      RunKeepsLockstep(Act(s, actions[0]), start, actions[1..]);
    }
  }

  /** Lockstep: with one writer per contract, no update reverts in any interleaving; and once a
      worker's accepted transactions are executed, its expected value is the contract's value, which
      is the start value plus the number of accepted updates, modulo 2^256. */
  lemma NoInterleavingReverts(start: System, actions: seq<Action>)
    requires Starts(start) && OneWriterEach(start)
    ensures var s := RunSystem(start, actions);
            && !s.reverted
            && |s.workers| == |start.workers| && |s.contracts| == |start.contracts|
            && forall w :: 0 <= w < |s.workers| && s.workers[w].pending == [] ==>
                 && s.contracts[start.workers[w].target] == s.workers[w].expected
                 && s.workers[w].expected
                      == (start.contracts[start.workers[w].target] + AcceptedUpdates(actions, w)) % TWO_256
  {
    hide Act, RunSystem, AcceptedUpdates, Starts, Lockstep, OneWriterEach;
    StartIsLockstep(start);
    RunKeepsLockstep(start, start, actions);
    var s := RunSystem(start, actions);
    LockstepShape(s, start);
    forall w | 0 <= w < |s.workers| && s.workers[w].pending == []
      ensures s.contracts[start.workers[w].target] == s.workers[w].expected
      ensures s.workers[w].expected
           == (start.contracts[start.workers[w].target] + AcceptedUpdates(actions, w)) % TWO_256
    {
      DrainedAfterRun(start, actions, w);
    }
  }

  lemma DrainedAfterRun(start: System, actions: seq<Action>, w: nat)
    requires WellFormed(start) && w < |start.workers|
    requires start.workers[w].accepted == 0
    requires start.workers[w].expected == start.contracts[start.workers[w].target]
    requires Lockstep(RunSystem(start, actions), start) && RunSystem(start, actions).workers[w].pending == []
    ensures var s := RunSystem(start, actions);
            && s.contracts[start.workers[w].target] == s.workers[w].expected
            && s.workers[w].expected == Advanced(start.contracts[start.workers[w].target], AcceptedUpdates(actions, w))
  {
    hide RunSystem, AcceptedUpdates, Lockstep, Advanced;
    AcceptedIsCounted(start, actions, w);
    DrainedWorker(RunSystem(start, actions), start, w);
  }

  lemma StartIsLockstep(start: System)
    requires Starts(start) && OneWriterEach(start)
    ensures Lockstep(start, start)
    ensures forall w :: 0 <= w < |start.workers| ==>
      start.workers[w].accepted == 0 && start.workers[w].expected == start.contracts[start.workers[w].target]
  {
  }

  /** The value after k increments. */
  function Advanced(value: nat, k: nat): nat {
    (value + k) % TWO_256
  }

  lemma LockstepShape(s: System, start: System)
    requires WellFormed(start) && Lockstep(s, start)
    ensures !s.reverted && |s.workers| == |start.workers| && |s.contracts| == |start.contracts|
  {
  }

  lemma DrainedWorker(s: System, start: System, w: nat)
    requires WellFormed(start) && Lockstep(s, start) && w < |s.workers| && s.workers[w].pending == []
    ensures s.contracts[start.workers[w].target] == s.workers[w].expected
         == Advanced(start.workers[w].expected, s.workers[w].accepted)
  {
  }

  /** One writer per contract is necessary: two workers on one contract revert after two updates. */
  lemma SharedContractReverts(start: System, v: nat, w: nat)
    requires Starts(start) && v < |start.workers| && w < |start.workers| && v != w
    requires start.workers[v].target == start.workers[w].target
    ensures RunSystem(start, [Submit(v, true)] + ([Execute(v)] + ([Submit(w, true)] + ([Execute(w)] + [])))).reverted
  {
    var s1 := Act(start, Submit(v, true));
    var s2 := Act(s1, Execute(v));
    var s3 := Act(s2, Submit(w, true));
    var x := start.contracts[start.workers[v].target];
    assert x < TWO_256 && Successor(x) != x;
    assert s2.contracts[start.workers[v].target] == Successor(x);
    assert s3.workers[w].pending == [Tx(x, Successor(x))];
    assert Act(s3, Execute(w)).reverted;
    hide Act;
    RunsFirst(start, Submit(v, true), [Execute(v)] + ([Submit(w, true)] + ([Execute(w)] + [])));
    RunsFirst(s1, Execute(v), [Submit(w, true)] + ([Execute(w)] + []));
    RunsFirst(s2, Submit(w, true), [Execute(w)] + []);
    RunsFirst(s3, Execute(w), []);
  }

  lemma RunsFirst(s: System, a: Action, rest: seq<Action>)
    requires WellFormed(s)
    ensures RunSystem(s, [a] + rest) == RunSystem(Act(s, a), rest)
  {
    assert ([a] + rest)[1..] == rest;
  }
}
