/**
 The crash-evidence artifact of `p15-7-crash-evidence.py`: one document that records a run's
 progress through fourteen phases. Each invocation validates the stored document, appends
 one checkpoint and replaces the document as a whole, or changes nothing.
 */
module CrashEvidence {
  import opened Wrappers

  const PHASES: seq<string> := [
    "fault_armed",
    "terminal_state_observed",
    "endpoint_present_pre_crash",
    "process_identity_armed",
    "process_killed",
    "process_restarted",
    "repair_lock_acquired",
    "contending_create_waiting",
    "contending_create_started",
    "orphan_discovered",
    "repair_completed",
    "contending_create_accepted",
    "accounting_verified",
    "completed"
  ]

  type Values = map<string, string>

  /** A checkpoint is the JSON object that is appended: phase, status, extra values, context. */
  type Checkpoint = map<string, string>

  datatype Document = Document(
    runId: Option<string>,
    sourceSha: Option<string>,
    serverId: Option<string>,
    endpointId: Option<string>,
    targetId: Option<string>,
    status: Option<string>,
    phase: Option<string>,
    failurePhase: Option<string>,
    checkpoints: seq<Checkpoint>)

  /** What an absent file reads as. */
  const EMPTY := Document(None, None, None, None, None, None, None, None, [])

  datatype Context = Context(
    runId: string,
    sourceSha: string,
    serverId: Option<string>,
    endpointId: Option<string>,
    targetId: Option<string>)

  datatype Error =
    | InvalidPhase
    | InvalidStatus
    | Terminal
    | IllegalPrefix
    | IllegalCheckpointStatus
    | PrematurePass
    | IllegalTransition
    | WrongStart
    | WrongFailurePhase
    | NoRunId
    | BadSourceSha
    | ContextChanged
    | TargetMismatch

  datatype Result<T> = Ok(value: T) | Err(error: Error)

  function Get(m: map<string, string>, key: string): Option<string> {
    if key in m then Some(m[key]) else None
  }

  predicate IsStatus(s: string) {
    s == "running" || s == "failed" || s == "passed"
  }

  // ----- validate_transition -----

  function CheckpointError(index: nat, c: Checkpoint): Option<Error> {
    if index >= |PHASES| || Get(c, "phase") != Some(PHASES[index]) then Some(IllegalPrefix)
    else if Get(c, "status").None? || !IsStatus(c["status"]) then Some(IllegalCheckpointStatus)
    else if c["status"] == "passed" && c["phase"] != "completed" then Some(PrematurePass)
    else None
  }

  /** The first complaint about a stored history, from `index` on. */
  function HistoryError(checkpoints: seq<Checkpoint>, index: nat): Option<Error>
    requires index <= |checkpoints|
    decreases |checkpoints| - index
  {
    if index == |checkpoints| then None
    else
      var e := CheckpointError(index, checkpoints[index]);
      if e.Some? then e else HistoryError(checkpoints, index + 1)
  }

  function NextPhase(phase: string): Option<string> {
    NextFrom(phase, 0)
  }

  function NextFrom(phase: string, i: nat): Option<string>
    requires i < |PHASES|
    decreases |PHASES| - i
  {
    if i + 1 == |PHASES| then None
    else if PHASES[i] == phase then Some(PHASES[i + 1])
    else NextFrom(phase, i + 1)
  }

  function StepError(checkpoints: seq<Checkpoint>, phase: string, status: string): Option<Error> {
    if checkpoints == [] then (if phase == PHASES[0] then None else Some(WrongStart))
    else
      var last := checkpoints[|checkpoints| - 1];
      var previous := Get(last, "phase");
      if previous == Some(phase) && status == "failed" && Get(last, "status") == Some("running") then None
      else if previous.Some? && NextPhase(previous.value) == Some(phase) then None
      else Some(IllegalTransition)
  }

  function TransitionError(current: Document, phase: string, status: string, values: Values): Option<Error> {
    if phase !in PHASES then Some(InvalidPhase)
    else if !IsStatus(status) then Some(InvalidStatus)
    else if current.status == Some("failed") || current.status == Some("passed") then Some(Terminal)
    else if HistoryError(current.checkpoints, 0).Some? then HistoryError(current.checkpoints, 0)
    else if StepError(current.checkpoints, phase, status).Some? then StepError(current.checkpoints, phase, status)
    else if status == "passed" && phase != "completed" then Some(PrematurePass)
    else if status == "failed" && "failure_phase" in values && values["failure_phase"] != phase then Some(WrongFailurePhase)
    else None
  }

  // ----- validate_context -----

  function ContextValue(values: Values, key: string, current: Option<string>): Option<string> {
    if key in values then Some(values[key]) else current
  }

  /** An empty value counts as none. */
  function NonBlank(value: Option<string>): Option<string> {
    if value.Some? && value.value != "" then value else None
  }

  predicate IsHex(c: char) {
    '0' <= c <= '9' || 'a' <= c <= 'f' || 'A' <= c <= 'F'
  }

  predicate IsSha(s: string) {
    |s| == 40 && forall c :: c in s ==> IsHex(c)
  }

  predicate Changed(old': Option<string>, new': Option<string>) {
    old'.Some? && new'.Some? && old' != new'
  }

  function ValidateContext(values: Values, current: Document): Result<Context> {
    var runId := NonBlank(ContextValue(values, "run_id", current.runId));
    var sha := NonBlank(ContextValue(values, "source_sha", current.sourceSha));
    if runId.None? then Err(NoRunId)
    else if sha.None? || !IsSha(sha.value) then Err(BadSourceSha)
    else
      var server := NonBlank(ContextValue(values, "server_id", current.serverId));
      var endpoint := NonBlank(ContextValue(values, "endpoint_id", current.endpointId));
      var target := NonBlank(ContextValue(values, "target_resource_id", current.targetId));
      if Changed(current.runId, runId) || Changed(current.sourceSha, sha)
         || Changed(current.serverId, server) || Changed(current.endpointId, endpoint)
      then Err(ContextChanged)
      else if server.Some? && target.Some? && server != target then Err(TargetMismatch)
      else Ok(Context(runId.value, sha.value, server, endpoint, target))
  }

  // ----- main -----

  function Entry(key: string, value: Option<string>): map<string, string> {
    if value.Some? then map[key := value.value] else map[]
  }

  function ContextMap(c: Context): map<string, string> {
    map["run_id" := c.runId, "source_sha" := c.sourceSha]
    + Entry("server_id", c.serverId) + Entry("endpoint_id", c.endpointId) + Entry("target_resource_id", c.targetId)
  }

  /** Later entries win, as in the dict display of the source. */
  function MakeCheckpoint(phase: string, status: string, values: Values, context: Context): Checkpoint {
    map["phase" := phase, "status" := status] + values + ContextMap(context)
  }

  function OrElse(a: Option<string>, b: Option<string>): Option<string> {
    if a.Some? then a else b
  }

  function Extend(current: Document, phase: string, status: string, values: Values, context: Context): Document {
    Document(
      Some(context.runId),
      Some(context.sourceSha),
      OrElse(context.serverId, current.serverId),
      OrElse(context.endpointId, current.endpointId),
      OrElse(context.targetId, current.targetId),
      Some(status),
      Some(phase),
      if status == "failed" then Some(phase) else if phase == "completed" then None else current.failurePhase,
      current.checkpoints + [MakeCheckpoint(phase, status, values, context)])
  }

  function Record(current: Document, phase: string, status: string, values: Values): Result<Document> {
    var e := TransitionError(current, phase, status, values);
    if e.Some? then Err(e.value)
    else
      match ValidateContext(values, current)
      case Err(error) => Err(error)
      case Ok(context) => Ok(Extend(current, phase, status, values, context))
  }

  class EvidenceFile {
    var document: Document

    constructor ()
      ensures document == EMPTY
    {
      document := EMPTY;
    }

    /** One invocation: the document is replaced when everything validates, and untouched otherwise. */
    method Invoke(phase: string, status: string, values: Values) returns (error: Option<Error>)
      modifies this
      ensures Record(old(document), phase, status, values) ==
              if error.None? then Ok(document) else Err(error.value)
      ensures error.Some? ==> document == old(document)
    {
      error := ValidateTransition(document, phase, status, values);
      if error.Some? {
        return;
      }
      match ValidateContext(values, document) {
        case Err(e) => return Some(e);
        case Ok(context) =>
          document := Extend(document, phase, status, values, context);
      }
    }
  }

  /** The whole stored history is validated before the next step is looked at. */
  method ValidateTransition(current: Document, phase: string, status: string, values: Values)
    returns (error: Option<Error>)
    ensures error == TransitionError(current, phase, status, values)
  {
    if phase !in PHASES {
      return Some(InvalidPhase);
    }
    if !IsStatus(status) {
      return Some(InvalidStatus);
    }
    if current.status == Some("failed") || current.status == Some("passed") {
      return Some(Terminal);
    }
    var checkpoints := current.checkpoints;
    for index := 0 to |checkpoints|
      invariant HistoryError(checkpoints, 0) == HistoryError(checkpoints, index)
    {
      error := CheckpointError(index, checkpoints[index]);
      if error.Some? {
        return;
      }
    }
    error := StepError(checkpoints, phase, status);
    if error.Some? {
      return;
    }
    if status == "passed" && phase != "completed" {
      return Some(PrematurePass);
    }
    if status == "failed" && "failure_phase" in values && values["failure_phase"] != phase {
      return Some(WrongFailurePhase);
    }
    return None;
  }
}
