/** What every run of validations from a fresh framework keeps. */
module ShieldRuns {
  import opened Newest
  import opened Options
  import opened Shield

  datatype Request = Request(action: Action, systemState: Snapshot)

  function Run(requests: seq<Request>): (s: State) {
    if requests == [] then FRESH
    else
      var last := requests[|requests| - 1];
      Validate(Run(requests[..|requests| - 1]), last.action, last.systemState).0
  }

  function VerdictOf(requests: seq<Request>, j: nat): (v: Verdict)
    requires j < |requests|
  {
    Validate(Run(requests[..j]), requests[j].action, requests[j].systemState).1
  }

  lemma {:induction false} BaseRisks(kind: Kind)
    ensures kind == DeleteFile ==> BaseRisk(kind) == 375
    ensures kind == KillService ==> BaseRisk(kind) == 150
    ensures kind == RebootSystem ==> BaseRisk(kind) == 600
    ensures kind in {ClearCache, NetworkDisconnect} ==> BaseRisk(kind) == 75
    ensures kind in {ReadCpuStats, ReadMemoryStats} ==> BaseRisk(kind) == 0
    ensures kind in {FormatDisk, NetworkSend, Shutdown} ==> BaseRisk(kind) == 300
    ensures kind.Other? ==> BaseRisk(kind) == 500
  {
    assert |{Memory, Cpu}| == 2 && |{Disk, Memory, Cpu, Network}| == 4;
  }

  /** A deletion that would fail in the sandbox. */
  predicate FailingDelete(r: Request) {
    && r.action.kind == DeleteFile
    && (var n := CountOf(r.action.parameters); n.None? || r.systemState.fileCount < n.value)
  }

  function FailingDeletes(requests: seq<Request>): (n: nat) {
    if requests == [] then 0
    else FailingDeletes(requests[..|requests| - 1]) + if FailingDelete(requests[|requests| - 1]) then 1 else 0
  }

  /** What learning has come to after a run: the failing deletions, up to four. */
  ghost predicate LearnedOnlyDeletes(s: State, failures: nat) {
    && failures <= 4 && |s.failures| == failures
    && (forall i :: 0 <= i < |s.failures| ==> s.failures[i] == Failure(DeleteFile, 375 + 100 * i))
    && s.adjustments == if failures == 0 then map[] else map[DeleteFile := 100 * failures]
  }

  /** One validation against a framework that has learned `failures` failures. */
  lemma {:induction false} OneValidation(s: State, r: Request, failures: nat)
    requires LearnedOnlyDeletes(s, failures)
    ensures var (s', v) := Validate(s, r.action, r.systemState);
            && LearnedOnlyDeletes(s', if FailingDelete(r) && failures < 4 then failures + 1 else failures)
            && v.riskScore == BaseRisk(r.action.kind) + (if r.action.kind == DeleteFile then 100 * failures else 0)
            && (v.mode == Blocked <==> FailingDelete(r) || (r.action.kind == DeleteFile && failures == 4))
            && (v.tested <==> v.riskScore >= 300 && !(r.action.kind == DeleteFile && failures == 4))
  {
    BaseRisks(r.action.kind);
  }

  /** Over every run, only deletions are ever recorded as failures, and exactly the first four that
      fail; the learned adjustment of a type is 0.1 per recorded failure, so it never exceeds 0.4 and
      the cap of 0.5 is never reached. */
  lemma {:induction false} OnlyDeletesAreLearned(requests: seq<Request>)
    ensures LearnedOnlyDeletes(Run(requests), Min(4, FailingDeletes(requests)))
  {
    if requests != [] {
      var k := |requests| - 1;
      OnlyDeletesAreLearned(requests[..k]);
      OneValidation(Run(requests[..k]), requests[k], Min(4, FailingDeletes(requests[..k])));
    }
  }

  /** The number of recorded failures of a type. */
  function FailureCount(failures: seq<Failure>, kind: Kind): (n: nat) {
    if failures == [] then 0
    else FailureCount(failures[..|failures| - 1], kind) + if failures[|failures| - 1].kind == kind then 1 else 0
  }

  lemma {:induction false} AllOfOneKind(failures: seq<Failure>, kind: Kind)
    requires forall i :: 0 <= i < |failures| ==> failures[i].kind == DeleteFile
    ensures FailureCount(failures, kind) == if kind == DeleteFile then |failures| else 0
  {
    if failures != [] {
      AllOfOneKind(failures[..|failures| - 1], kind);
    }
  }

  lemma {:induction false} AdjustmentIsTenthPerFailure(requests: seq<Request>, kind: Kind)
    ensures Learned(Run(requests).adjustments, kind) == 100 * FailureCount(Run(requests).failures, kind) <= 400
  {
    OnlyDeletesAreLearned(requests);
    AllOfOneKind(Run(requests).failures, kind);
  }

  /** The verdict of every validation of every run, in closed form: its risk is the base risk of its
      type, plus, for a deletion, 0.1 for each of up to four earlier failing deletions; it is blocked
      exactly if it is a deletion that fails, or comes after four that did. */
  lemma {:induction false} VerdictInClosedForm(requests: seq<Request>, j: nat)
    requires j < |requests|
    ensures var v, kind := VerdictOf(requests, j), requests[j].action.kind;
            var failures := Min(4, FailingDeletes(requests[..j]));
            && v.riskScore == BaseRisk(kind) + (if kind == DeleteFile then 100 * failures else 0)
            && (v.mode == Blocked <==> FailingDelete(requests[j]) || (kind == DeleteFile && failures == 4))
            && (v.mode != Blocked ==> v.mode == ModeFor(v.riskScore))
  {
    OnlyDeletesAreLearned(requests[..j]);
    OneValidation(Run(requests[..j]), requests[j], Min(4, FailingDeletes(requests[..j])));
  }

  lemma {:induction false} FailingDeletesGrow(requests: seq<Request>, more: seq<Request>)
    ensures FailingDeletes(requests) <= FailingDeletes(requests + more)
  {
    if more == [] {
      assert requests + more == requests;
    } else {
      FailingDeletesGrow(requests, more[..|more| - 1]);
      assert (requests + more)[..|requests + more| - 1] == requests + more[..|more| - 1];
    }
  }

  /** The risk of a type never decreases as a run goes on. */
  lemma {:induction false} RiskNeverDecreases(requests: seq<Request>, more: seq<Request>, kind: Kind)
    ensures RiskScore(Run(requests), kind) <= RiskScore(Run(requests + more), kind)
  {
    OnlyDeletesAreLearned(requests);
    OnlyDeletesAreLearned(requests + more);
    FailingDeletesGrow(requests, more);
  }

  // --------------------------------------------------------------------------------------------
  // Snapshots

  /** The snapshots of a run, one for each validation. */
  function Taken(requests: seq<Request>): (snapshots: seq<Snapshot>)
    ensures |snapshots| == |requests|
    ensures forall i :: 0 <= i < |requests| ==> snapshots[i] == requests[i].systemState
  {
    seq(|requests|, i requires 0 <= i < |requests| => requests[i].systemState)
  }

  /** The rollback manager holds the snapshots of the last ten validations, in order. */
  lemma {:induction false} SnapshotsAreTheLast(requests: seq<Request>)
    ensures Run(requests).snapshots == Last(Taken(requests), MAX_SNAPSHOTS)
  {
    if requests != [] {
      var front, last := requests[..|requests| - 1], requests[|requests| - 1];
      SnapshotsAreTheLast(front);
      assert Taken(requests) == Taken(front) + [last.systemState];
      PushedIsLast(Taken(front), last.systemState, MAX_SNAPSHOTS);
    }
  }

  /** The validation whose snapshot is at the position given to validation `j`, after `k` of them. */
  function Named(k: nat, j: nat): (n: int) {
    k - Min(k, MAX_SNAPSHOTS) + Min(j, MAX_SNAPSHOTS - 1)
  }

  lemma {:induction false} IdOfValidation(requests: seq<Request>, j: nat)
    requires j < |requests|
    ensures VerdictOf(requests, j).snapshotId == Min(j, MAX_SNAPSHOTS - 1)
  {
    SnapshotsAreTheLast(requests[..j]);
  }

  lemma {:induction false} PositionInLastTen(k: nat, j: nat)
    requires j < k
    ensures 0 <= Min(j, MAX_SNAPSHOTS - 1) < Min(k, MAX_SNAPSHOTS)
    ensures 0 <= Named(k, j) < k
    ensures Named(k, j) == j <==> k <= MAX_SNAPSHOTS || j == k - 1
  {
  }

  lemma {:induction false} SnapshotAtPosition(requests: seq<Request>, j: nat, id: nat)
    requires j < |requests| && id == Min(j, MAX_SNAPSHOTS - 1)
    ensures id < |Run(requests).snapshots| && 0 <= Named(|requests|, j) < |requests|
    ensures Run(requests).snapshots[id] == requests[Named(|requests|, j)].systemState
  {
    PositionInLastTen(|requests|, j);
    SnapshotsAreTheLast(requests);
  }

  /** The `snapshot_id` a validation returned still names its own snapshot after `k` validations
      exactly if no snapshot has been dropped yet or it is the newest. */
  lemma {:induction false} SnapshotIdNamesItsOwnIff(requests: seq<Request>, j: nat)
    requires j < |requests|
    ensures var id, k := VerdictOf(requests, j).snapshotId, |requests|;
            && 0 <= id < |Run(requests).snapshots| && 0 <= Named(k, j) < k
            && Run(requests).snapshots[id] == requests[Named(k, j)].systemState
            && (Named(k, j) == j <==> k <= MAX_SNAPSHOTS || j == k - 1)
  {
    IdOfValidation(requests, j);
    PositionInLastTen(|requests|, j);
    SnapshotAtPosition(requests, j, Min(j, MAX_SNAPSHOTS - 1));
  }

  // --------------------------------------------------------------------------------------------
  // The sandbox

  /** An action in the sandbox changes nothing outside the hardware its risk is charged for, and there
      takes off what it says: 10 of memory down to none, the number of files asked for while that leaves
      no fewer than none, one service, or the network. */
  lemma {:induction false} SandboxStaysWithinCharge(a: Action, s: Snapshot)
    requires RunInShadow(a, s).Some?
    ensures var t, hw := RunInShadow(a, s).value, AffectedHardware(a.kind);
            && t.timestamp == s.timestamp && t.cpuUsage == s.cpuUsage && t.diskUsage == s.diskUsage
            && (Disk !in hw ==> t.fileCount == s.fileCount)
            && (Memory !in hw ==> t.memoryUsage == s.memoryUsage)
            && (Cpu !in hw ==> t.services == s.services)
            && (Network !in hw ==> t.networkActive == s.networkActive)
    ensures var t := RunInShadow(a, s).value;
            && (a.kind == DeleteFile ==>
                  CountOf(a.parameters) == Some(s.fileCount - t.fileCount) && t.fileCount >= 0.0)
            && (a.kind == ClearCache ==>
                  t.memoryUsage >= 0.0
                  && (t.memoryUsage == s.memoryUsage - 10.0 || (t.memoryUsage == 0.0 && s.memoryUsage < 10.0)))
            && t.services.Keys == s.services.Keys
            && (a.kind == KillService ==> a.parameters.Dict? && a.parameters.service in t.services)
            && (forall k :: k in s.services && t.services[k] != s.services[k] ==>
                  a.kind == KillService && k == a.parameters.service && t.services[k] == "stopped")
            && (a.kind == KillService ==> t.services[a.parameters.service] == "stopped")
            && (a.kind == NetworkDisconnect ==> !t.networkActive)
  {
    var hw := AffectedHardware(a.kind);
    match a.kind {
      case ClearCache => assert hw == {Memory};
      case DeleteFile => assert hw == {Disk};
      case KillService =>
        var t := RunInShadow(a, s).value;
        assert t.services.Keys == s.services.Keys + {a.parameters.service} == s.services.Keys;
      case NetworkDisconnect => assert hw == {Network};
      case _ =>
    }
  }
}
