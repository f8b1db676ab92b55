/** The SHIELD validation pipeline: what one validation does. Risks are in thousandths. */
module Shield {
  import opened Newest
  import opened Options

  /** The action types the tables name; any other, or none at all, is `Other`. */
  datatype Kind =
    | ReadCpuStats | ReadMemoryStats | ClearCache | DeleteFile | KillService | NetworkDisconnect
    | RebootSystem | FormatDisk | NetworkSend | Shutdown | Other(name: string)

  datatype Count = NoCount | Number(n: real) | NotANumber

  datatype Parameters = NoParameters | NotADict | Dict(count: Count, service: string)

  datatype Action = Action(kind: Kind, parameters: Parameters)

  /** The state a snapshot records, with the memory use as a real number. */
  datatype Snapshot = Snapshot(timestamp: int, cpuUsage: real, memoryUsage: real, diskUsage: real,
                               networkActive: bool, fileCount: real, services: map<string, string>)

  datatype Mode = Automatic | Shadow | ApprovalRequired | Blocked

  // --------------------------------------------------------------------------------------------
  // H and I: the tables

  datatype Hardware = Disk | Memory | Cpu | Network

  function AffectedHardware(kind: Kind): (hw: set<Hardware>) {
    match kind
    case DeleteFile => {Disk}
    case ClearCache => {Memory}
    case KillService => {Memory, Cpu}
    case NetworkDisconnect => {Network}
    case RebootSystem => {Disk, Memory, Cpu, Network}
    case _ => {}
  }

  /** The number of affected parts over four, times 0.3. */
  function HardwareRisk(kind: Kind): (risk: nat) {
    |AffectedHardware(kind)| * 300 / 4
  }

  function IrreversibilityRisk(kind: Kind): (risk: nat) {
    match kind
    case DeleteFile | FormatDisk | NetworkSend | RebootSystem | Shutdown => 300
    case ReadCpuStats | ReadMemoryStats | ClearCache | KillService | NetworkDisconnect => 0
    case Other(_) => 500
  }

  function BaseRisk(kind: Kind): (risk: nat) {
    HardwareRisk(kind) + IrreversibilityRisk(kind)
  }

  // --------------------------------------------------------------------------------------------
  // S: the sandbox

  /** `params.get("count", 1)` where it must be a number. */
  function CountOf(p: Parameters): (n: Option<real>) {
    match p
    case NoParameters => Some(1.0)
    case NotADict => None
    case Dict(count, _) =>
      match count
      case NoCount => Some(1.0)
      case Number(n) => Some(n)
      case NotANumber => None
  }

  /** The state after an action in the sandbox, or `None` for the exception it raises. */
  function RunInShadow(a: Action, s: Snapshot): (after: Option<Snapshot>) {
    match a.kind
    case ClearCache =>
      Some(s.(memoryUsage := if s.memoryUsage - 10.0 > 0.0 then s.memoryUsage - 10.0 else 0.0))
    case DeleteFile =>
      var n := CountOf(a.parameters);
      if n.None? || s.fileCount - n.value < 0.0 then None else Some(s.(fileCount := s.fileCount - n.value))
    case KillService =>
      if a.parameters.Dict? && a.parameters.service in s.services
      then Some(s.(services := s.services[a.parameters.service := "stopped"]))
      else None
    case NetworkDisconnect => Some(s.(networkActive := false))
    case _ => Some(s)
  }

  // --------------------------------------------------------------------------------------------
  // L: learning, and E: escalation

  datatype Failure = Failure(kind: Kind, riskScore: nat)

  function Min(a: int, b: int): (m: int) {
    if a < b then a else b
  }

  /** The state of the whole framework. */
  datatype State = State(adjustments: map<Kind, nat>, failures: seq<Failure>, snapshots: seq<Snapshot>,
                         validations: nat, blocked: nat, shadowTested: nat, escalations: seq<Mode>)

  const FRESH: State := State(map[], [], [], 0, 0, 0, [])

  function Learned(adjustments: map<Kind, nat>, kind: Kind): (risk: nat) {
    if kind in adjustments then adjustments[kind] else 0
  }

  /** One more failure of a type raises its adjustment by 0.1, up to 0.5. */
  function Raised(adjustments: map<Kind, nat>, kind: Kind): (adjustments': map<Kind, nat>) {
    adjustments[kind := Min(500, Learned(adjustments, kind) + 100)]
  }

  function RiskScore(s: State, kind: Kind): (risk: nat) {
    Min(1000, BaseRisk(kind) + Learned(s.adjustments, kind))
  }

  function ModeFor(risk: nat): (m: Mode) {
    if risk < 300 then Automatic
    else if risk < 500 then Shadow
    else if risk < 700 then ApprovalRequired
    else Blocked
  }

  const MAX_SNAPSHOTS: nat := 10

  // --------------------------------------------------------------------------------------------
  // The pipeline

  datatype Verdict = Verdict(riskScore: nat, mode: Mode, tested: bool, snapshotId: int)

  /** `validate_action` as a function of the state before it. */
  function Validate(s: State, a: Action, snapshot: Snapshot): (r: (State, Verdict)) {
    var risk := RiskScore(s, a.kind);
    var decided := ModeFor(risk);
    var tested := decided == Shadow || decided == ApprovalRequired;
    var failed := tested && RunInShadow(a, snapshot).None?;
    var mode := if failed then Blocked else decided;
    var snapshots := Pushed(s.snapshots, snapshot, MAX_SNAPSHOTS);
    (State(if failed then Raised(s.adjustments, a.kind) else s.adjustments,
           if failed then s.failures + [Failure(a.kind, risk)] else s.failures,
           snapshots, s.validations + 1, s.blocked + (if mode == Blocked then 1 else 0),
           s.shadowTested + (if tested then 1 else 0), s.escalations + [decided]),
     Verdict(risk, mode, tested, |snapshots| - 1))
  }
}
