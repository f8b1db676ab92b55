/** The SHIELD framework's objects, proved against the pipeline's function. */
module ShieldFramework {
  import opened Newest
  import opened Options
  import opened Shield

  /** A sandbox over a deep copy of a snapshot: what runs in it never reaches the snapshot. */
  class ShadowEnvironment {
    var shadowState: Snapshot
    var actionsTested: seq<bool>
    var errorsDetected: nat

    constructor (realState: Snapshot)
      ensures shadowState == realState && actionsTested == [] && errorsDetected == 0
    {
      shadowState := realState;
      actionsTested := [];
      errorsDetected := 0;
    }

    /** `execute_shadow`. The file count is lowered before it is checked, so a failed deletion leaves
        the sandbox, and only the sandbox, with a negative count. */
    method ExecuteShadow(a: Action) returns (success: bool)
      modifies this
      ensures success <==> RunInShadow(a, old(shadowState)).Some?
      ensures success ==> shadowState == RunInShadow(a, old(shadowState)).value
      ensures actionsTested == old(actionsTested) + [success]
      ensures errorsDetected == old(errorsDetected) + (if success then 0 else 1)
    {
      success := true;
      if a.kind == ClearCache {
        var m := shadowState.memoryUsage - 10.0;
        shadowState := shadowState.(memoryUsage := if m > 0.0 then m else 0.0);
      } else if a.kind == DeleteFile {
        var n := CountOf(a.parameters);
        if n.None? {
          success := false;
        } else {
          shadowState := shadowState.(fileCount := shadowState.fileCount - n.value);
          success := shadowState.fileCount >= 0.0;
        }
      } else if a.kind == KillService {
        if a.parameters.Dict? && a.parameters.service in shadowState.services {
          shadowState := shadowState.(services := shadowState.services[a.parameters.service := "stopped"]);
        } else {
          success := false;
        }
      } else if a.kind == NetworkDisconnect {
        shadowState := shadowState.(networkActive := false);
      }
      if !success {
        errorsDetected := errorsDetected + 1;
      }
      actionsTested := actionsTested + [success];
    }
  }

  class FailureLearningSystem {
    var failureHistory: seq<Failure>
    var riskAdjustments: map<Kind, nat>

    constructor ()
      ensures failureHistory == [] && riskAdjustments == map[]
    {
      failureHistory := [];
      riskAdjustments := map[];
    }

    method RecordFailure(a: Action, riskScore: nat)
      modifies this
      ensures failureHistory == old(failureHistory) + [Failure(a.kind, riskScore)]
      ensures riskAdjustments == Raised(old(riskAdjustments), a.kind)
    {
      failureHistory := failureHistory + [Failure(a.kind, riskScore)];
      if a.kind !in riskAdjustments {
        riskAdjustments := riskAdjustments[a.kind := 0];
      }
      riskAdjustments := riskAdjustments[a.kind := riskAdjustments[a.kind] + 100];
      riskAdjustments := riskAdjustments[a.kind := Min(500, riskAdjustments[a.kind])];
    }
  }

  class RollbackManager {
    var snapshots: seq<Snapshot>

    constructor ()
      ensures snapshots == []
    {
      snapshots := [];
    }

    method CreateSnapshot(snapshot: Snapshot)
      modifies this
      ensures snapshots == Pushed(old(snapshots), snapshot, MAX_SNAPSHOTS)
    {
      snapshots := snapshots + [snapshot];
      if |snapshots| > MAX_SNAPSHOTS {
        snapshots := snapshots[1..];
      }
    }

    /** `rollback_to_snapshot`: Python's indexing, where -1 is the newest; `None` is an exception. */
    method RollbackToSnapshot(index: int) returns (r: Option<Snapshot>)
      ensures r == if 0 <= index < |snapshots| then Some(snapshots[index])
                   else if -|snapshots| <= index < 0 then Some(snapshots[|snapshots| + index])
                   else None
    {
      if snapshots == [] {
        return None;
      }
      var i := if index < 0 then |snapshots| + index else index;
      r := if 0 <= i < |snapshots| then Some(snapshots[i]) else None;
    }
  }

  class SHIELDFramework {
    const learning: FailureLearningSystem
    const rollback: RollbackManager
    var escalationHistory: seq<Mode>
    var validationCount: nat
    var blockedCount: nat
    var shadowTestedCount: nat

    ghost function Abs(): (s: State)
      reads this, learning, rollback
    {
      State(learning.riskAdjustments, learning.failureHistory, rollback.snapshots, validationCount,
            blockedCount, shadowTestedCount, escalationHistory)
    }

    constructor ()
      ensures Abs() == FRESH && fresh(learning) && fresh(rollback)
    {
      learning := new FailureLearningSystem();
      rollback := new RollbackManager();
      escalationHistory := [];
      validationCount, blockedCount, shadowTestedCount := 0, 0, 0;
    }

    method ShouldEscalate(riskScore: nat) returns (mode: Mode)
      modifies this`escalationHistory
      ensures mode == ModeFor(riskScore) && escalationHistory == old(escalationHistory) + [mode]
    {
      mode := ModeFor(riskScore);
      escalationHistory := escalationHistory + [mode];
    }

    /** `validate_action`. */
    method ValidateAction(a: Action, systemState: Snapshot) returns (v: Verdict)
      modifies this, learning, rollback
      ensures Abs() == Validate(old(Abs()), a, systemState).0
      ensures v == Validate(old(Abs()), a, systemState).1
    {
      validationCount := validationCount + 1;
      rollback.CreateSnapshot(systemState);
      var riskScore := HardwareRisk(a.kind);
      riskScore := riskScore + IrreversibilityRisk(a.kind);
      riskScore := riskScore + Learned(learning.riskAdjustments, a.kind);
      riskScore := Min(1000, riskScore);
      var mode := ShouldEscalate(riskScore);
      var tested := mode == Shadow || mode == ApprovalRequired;
      if tested {
        var shadow := new ShadowEnvironment(systemState);
        var success := shadow.ExecuteShadow(a);
        shadowTestedCount := shadowTestedCount + 1;
        if !success {
          mode := Blocked;
          learning.RecordFailure(a, riskScore);
        }
      }
      if mode == Blocked {
        blockedCount := blockedCount + 1;
      }
      v := Verdict(riskScore, mode, tested, |rollback.snapshots| - 1);
    }
  }
}
