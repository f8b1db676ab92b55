/** The four agents and the orchestrator that routes a query to one of them. Confidences are in
    hundredths. */
module Router {
  import opened Options
  import opened Strings

  /** Unicode lower-casing and character classes, as far as the router relies on them. */
  datatype Text = Text(lower: string -> string, isSpace: char -> bool, isDigit: char -> bool)
  {
    /** The four letters of "help" are neither white space nor digits. */
    predicate Sane() {
      forall c :: c in "help" ==> !isSpace(c) && !isDigit(c)
    }
  }

  datatype SystemState = SystemState(cpu: real, memory: real, disk: real, networkActive: bool, connections: nat,
                                     pending: nat, lastCommand: string, timestamp: int)

  datatype Agent = DeviceManager | NetworkAgent | FileSystem | UserInteraction

  /** What a response says, with the numbers it is formatted from. */
  datatype Answer =
    | CpuUsage(cpu: real) | MemoryUsage(memory: real) | PowerStatus | ThermalStatus
    | NetworkStatus(active: bool, connections: nat) | NetworkSpeed
    | DiskUsage(disk: real, pending: nat) | PendingOperations(pending: nat) | FileSystemHealthy(pending: nat)
    | DeletionNeedsApproval
    | AvailableCommands | RunningNormally | Processing(query: string)

  datatype Response = Response(agent: Agent, answer: Option<Answer>, trustLevel: nat, confidence: nat)

  function NoResponse(agent: Agent): (r: Response) {
    Response(agent, None, 0, 0)
  }

  // --------------------------------------------------------------------------------------------
  // The agents

  function DeviceQuery(text: Text, s: SystemState, query: string): (r: Response) {
    var q := text.lower(query);
    if Contains(q, "cpu") || Contains(q, "processor") then Response(DeviceManager, Some(CpuUsage(s.cpu)), 0, 95)
    else if Contains(q, "memory") || Contains(q, "ram") then
      Response(DeviceManager, Some(MemoryUsage(s.memory)), 0, 95)
    else if Contains(q, "power") || Contains(q, "battery") then Response(DeviceManager, Some(PowerStatus), 1, 90)
    else if Contains(q, "temperature") || Contains(q, "thermal") || Contains(q, "heat") then
      Response(DeviceManager, Some(ThermalStatus), 0, 95)
    else NoResponse(DeviceManager)
  }

  function NetworkQuery(text: Text, s: SystemState, query: string): (r: Response) {
    var q := text.lower(query);
    if Contains(q, "network") || Contains(q, "internet") || Contains(q, "connection") || Contains(q, "connected")
       || Contains(q, "wifi") || Contains(q, "ethernet") then
      Response(NetworkAgent, Some(NetworkStatus(s.networkActive, s.connections)), 0, 95)
    else if Contains(q, "download") || Contains(q, "upload") || Contains(q, "speed") || Contains(q, "bandwidth") then
      Response(NetworkAgent, Some(NetworkSpeed), 1, 85)
    else NoResponse(NetworkAgent)
  }

  function FileSystemQuery(text: Text, s: SystemState, query: string): (r: Response) {
    var q := text.lower(query);
    if Contains(q, "disk") || Contains(q, "storage") || Contains(q, "space") || Contains(q, "drive")
       || Contains(q, "partition") then
      Response(FileSystem, Some(DiskUsage(s.disk, s.pending)), 0, 95)
    else if Contains(q, "pending") || Contains(q, "operations") || Contains(q, "activity") then
      Response(FileSystem, Some(PendingOperations(s.pending)), 0, 95)
    else if Contains(q, "file") || Contains(q, "folder") || Contains(q, "directory") then
      Response(FileSystem, Some(FileSystemHealthy(s.pending)), 0, 90)
    else if Contains(q, "delete") || Contains(q, "remove") || Contains(q, "erase") then
      Response(FileSystem, Some(DeletionNeedsApproval), 3, 95)
    else NoResponse(FileSystem)
  }

  /** The words on which the user agent defers to a specialist. */
  predicate HasSpecialistKeyword(q: string) {
    || Contains(q, "cpu") || Contains(q, "memory") || Contains(q, "ram") || Contains(q, "power")
    || Contains(q, "battery") || Contains(q, "temperature")
    || Contains(q, "network") || Contains(q, "internet") || Contains(q, "connection") || Contains(q, "speed")
    || Contains(q, "disk") || Contains(q, "storage") || Contains(q, "space") || Contains(q, "file")
    || Contains(q, "delete") || Contains(q, "pending")
  }

  function UserQuery(text: Text, query: string): (r: Response) {
    var q := Strip(text.lower(query), text.isSpace);
    if |q| < 2 then NoResponse(UserInteraction)
    else if forall i :: 0 <= i < |q| ==> text.isDigit(q[i]) then NoResponse(UserInteraction)
    else if Contains(q, "help") then Response(UserInteraction, Some(AvailableCommands), 0, 100)
    else if (Contains(q, "status") || Contains(q, "how")) && !HasSpecialistKeyword(q) then
      Response(UserInteraction, Some(RunningNormally), 0, 80)
    else if HasSpecialistKeyword(q) then Response(UserInteraction, None, 0, 10)
    else Response(UserInteraction, Some(Processing(query)), 1, 50)
  }

  function Ask(text: Text, s: SystemState, agent: Agent, query: string): (r: Response)
    ensures r.agent == agent
  {
    match agent
    case DeviceManager => DeviceQuery(text, s, query)
    case NetworkAgent => NetworkQuery(text, s, query)
    case FileSystem => FileSystemQuery(text, s, query)
    case UserInteraction => UserQuery(text, query)
  }

  const AGENTS: seq<Agent> := [DeviceManager, NetworkAgent, FileSystem, UserInteraction]

  // --------------------------------------------------------------------------------------------
  // Selection

  function Priority(agent: Agent): (p: nat) {
    match agent
    case UserInteraction => 4
    case DeviceManager => 3
    case NetworkAgent => 2
    case FileSystem => 2
  }

  predicate MoreConfident(a: Response, b: Response) {
    a.confidence > b.confidence
  }

  /** By priority, then by confidence. */
  predicate Outranks(a: Response, b: Response) {
    Priority(a.agent) > Priority(b.agent)
    || (Priority(a.agent) == Priority(b.agent) && a.confidence > b.confidence)
  }

  /** The first of the best: Python's `max`, and the head of its stable sort in reverse. */
  function FirstBest(rs: seq<Response>, beats: (Response, Response) -> bool): (r: Response)
    requires rs != []
    ensures r in rs
  {
    if |rs| == 1 then rs[0]
    else
      var rest := FirstBest(rs[1..], beats);
      if beats(rest, rs[0]) then rest else rs[0]
  }

  function Those(rs: seq<Response>, above: nat): (some: seq<Response>)
    ensures forall r :: r in some <==> r in rs && r.confidence > above
  {
    if rs == [] then []
    else Those(rs[..|rs| - 1], above) + if rs[|rs| - 1].confidence > above then [rs[|rs| - 1]] else []
  }

  datatype Routed = Unhandled | Handled(selected: Response, conflict: bool, candidates: nat)

  function Route(responses: seq<Response>): (r: Routed) {
    var high := Those(responses, 70);
    if responses == [] then Unhandled
    else if |high| > 1 then Handled(FirstBest(high, Outranks), true, |responses|)
    else Handled(FirstBest(responses, MoreConfident), false, |responses|)
  }

  /** The responses the orchestrator collects from some agents, in their order. */
  function CollectedFrom(text: Text, s: SystemState, query: string, agents: seq<Agent>): (rs: seq<Response>) {
    if agents == [] then []
    else
      var response := Ask(text, s, agents[|agents| - 1], query);
      CollectedFrom(text, s, query, agents[..|agents| - 1]) + if response.confidence > 0 then [response] else []
  }

  function Collected(text: Text, s: SystemState, query: string): (rs: seq<Response>) {
    CollectedFrom(text, s, query, AGENTS)
  }

  class MainOrchestrator {
    const text: Text
    var systemState: SystemState
    var queryCount: nat
    var conflictCount: nat

    constructor (text: Text, now: int)
      ensures this.text == text && queryCount == 0 && conflictCount == 0
      ensures systemState == SystemState(35.0, 60.0, 72.0, true, 12, 3, "", now)
    {
      this.text := text;
      systemState := SystemState(35.0, 60.0, 72.0, true, 12, 3, "", now);
      queryCount, conflictCount := 0, 0;
    }

    /** `update_system_state` for the one field the orchestrator sets. */
    method UpdateLastCommand(command: string, now: int)
      modifies this`systemState
      ensures systemState == old(systemState).(lastCommand := command, timestamp := now)
    {
      systemState := systemState.(lastCommand := command);
      systemState := systemState.(timestamp := now);
    }

    /** `process_user_query`. */
    method ProcessUserQuery(query: string, now: int) returns (r: Routed)
      modifies this
      ensures systemState == old(systemState).(lastCommand := query, timestamp := now)
      ensures r == Route(Collected(text, systemState, query))
      ensures queryCount == old(queryCount) + 1
      ensures conflictCount == old(conflictCount) + (if r.Handled? && r.conflict then 1 else 0)
    {
      queryCount := queryCount + 1;
      UpdateLastCommand(query, now);
      var responses: seq<Response> := [];
      var agents := AGENTS;
      for i := 0 to |agents|
        invariant responses == CollectedFrom(text, systemState, query, agents[..i])
      {
        assert agents[..i + 1][..i] == agents[..i];
        var response := Ask(text, systemState, agents[i], query);
        if response.confidence > 0 {
          responses := responses + [response];
        }
      }
      assert agents[..|agents|] == agents;
      if responses == [] {
        return Unhandled;
      }
      var high := Those(responses, 70);
      if |high| > 1 {
        conflictCount := conflictCount + 1;
        r := Handled(FirstBest(high, Outranks), true, |responses|);
      } else {
        r := Handled(FirstBest(responses, MoreConfident), false, |responses|);
      }
    }
  }
}
