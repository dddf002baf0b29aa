/** The evidence document over whole runs of invocations. */
module CrashEvidenceTheorems {
  import opened Wrappers
  import opened CrashEvidence

  datatype Call = Call(phase: string, status: string, values: Values)

  /** A rejected call leaves the document as it is. */
  function After(doc: Document, call: Call): Document {
    var r := Record(doc, call.phase, call.status, call.values);
    if r.Ok? then r.value else doc
  }

  function AfterAll(doc: Document, calls: seq<Call>): Document
    decreases |calls|
  {
    if calls == [] then doc else AfterAll(After(doc, calls[0]), calls[1..])
  }

  predicate SameIfGiven(values: Values, key: string, value: string) {
    key in values ==> values[key] == value
  }

  /** Extra values that name the checkpoint's own fields repeat what those fields hold. */
  predicate Clean(call: Call) {
    SameIfGiven(call.values, "phase", call.phase) && SameIfGiven(call.values, "status", call.status)
  }

  predicate AllClean(calls: seq<Call>) {
    forall i :: 0 <= i < |calls| ==> Clean(calls[i])
  }

  // ----- Phases -----

  /** The fourteen phases, in the order in which a run goes through them. */
  const LEGAL_ORDER: seq<string> := [
    "fault_armed", "terminal_state_observed", "endpoint_present_pre_crash", "process_identity_armed",
    "process_killed", "process_restarted", "repair_lock_acquired", "contending_create_waiting",
    "contending_create_started", "orphan_discovered", "repair_completed", "contending_create_accepted",
    "accounting_verified", "completed"
  ]

  lemma OrderIsPhases()
    ensures LEGAL_ORDER == PHASES && |PHASES| == 14
  {
  }

  lemma PhasesAreDistinct()
    ensures |PHASES| == 14
    ensures forall i, j :: 0 <= i < j < |PHASES| ==> PHASES[i] != PHASES[j]
  {
  }

  lemma {:induction false} NextIsSuccessor(i: nat, k: nat)
    requires k <= i < |PHASES| - 1
    ensures NextFrom(PHASES[i], k) == Some(PHASES[i + 1])
    decreases i - k
  {
    PhasesAreDistinct();
    if k < i {
      NextIsSuccessor(i, k + 1);
    }
  }

  lemma {:induction false} LastHasNoNext(k: nat)
    requires k < |PHASES|
    ensures NextFrom(PHASES[|PHASES| - 1], k) == None
    decreases |PHASES| - k
  {
    PhasesAreDistinct();
    if k + 1 < |PHASES| {
      LastHasNoNext(k + 1);
    }
  }

  // ----- The invariant -----

  predicate IsCheckpoint(c: Checkpoint, phase: string, status: string) {
    Get(c, "phase") == Some(phase) && Get(c, "status") == Some(status)
  }

  /** A run of phases from the first one on, all still running. */
  predicate RunningPrefix(cs: seq<Checkpoint>) {
    |cs| <= |PHASES| && forall i :: 0 <= i < |cs| ==> IsCheckpoint(cs[i], PHASES[i], "running")
  }

  /**
   The history is a prefix of the phases in order with at most one terminal checkpoint, the
   last; a failure may repeat the last running phase. The head fields mirror the last checkpoint.
   */
  predicate Coherent(doc: Document) {
    var n := |doc.checkpoints|;
    if n == 0 then doc.status.None?
    else
      && doc.status.Some? && doc.phase.Some? && IsStatus(doc.status.value)
      && RunningPrefix(doc.checkpoints[..n - 1])
      && IsCheckpoint(doc.checkpoints[n - 1], doc.phase.value, doc.status.value)
      && (|| (n <= |PHASES| && doc.phase.value == PHASES[n - 1])
          || (doc.status.value == "failed" && n >= 2 && doc.phase.value == PHASES[n - 2]))
      && (doc.status.value == "passed" ==> doc.phase.value == "completed")
      && (doc.status.value == "failed" ==> doc.failurePhase == doc.phase)
      && doc.runId.Some? && doc.sourceSha.Some? && IsSha(doc.sourceSha.value)
  }

  lemma {:induction false} RunningHistoryIsLegal(cs: seq<Checkpoint>, k: nat)
    requires RunningPrefix(cs) && k <= |cs|
    ensures HistoryError(cs, k) == None
    decreases |cs| - k
  {
    if k < |cs| {
      assert IsCheckpoint(cs[k], PHASES[k], "running");
      RunningHistoryIsLegal(cs, k + 1);
    }
  }

  lemma ContextKeys(context: Context)
    ensures "phase" !in ContextMap(context) && "status" !in ContextMap(context)
  {
  }

  /** The checkpoint's own fields are what the extra values say, if they say anything. */
  lemma CheckpointFields(phase: string, status: string, values: Values, context: Context)
    ensures var c := MakeCheckpoint(phase, status, values, context);
            && Get(c, "phase") == Some(if "phase" in values then values["phase"] else phase)
            && Get(c, "status") == Some(if "status" in values then values["status"] else status)
  {
    hide ContextMap;
    ContextKeys(context);
    assert "phase"[0] != "status"[0];
  }

  /** A coherent document that is not terminal is a running prefix. */
  lemma RunningHistory(doc: Document)
    requires Coherent(doc) && doc.status != Some("failed") && doc.status != Some("passed")
    ensures RunningPrefix(doc.checkpoints)
  {
    hide PHASES;
    PhasesAreDistinct();
    var n := |doc.checkpoints|;
    if n > 0 {
      var last := doc.checkpoints[n - 1];
      assert doc.checkpoints == doc.checkpoints[..n - 1] + [last];
      assert IsCheckpoint(last, PHASES[n - 1], "running");
    }
  }

  /** After a running prefix exactly the next phase and a failure of the last one are legal. */
  lemma NextOfLast(cs: seq<Checkpoint>, phase: string, status: string)
    requires RunningPrefix(cs)
    ensures StepError(cs, phase, status).None? <==>
            || (|cs| < |PHASES| && phase == PHASES[|cs|])
            || (status == "failed" && cs != [] && phase == PHASES[|cs| - 1])
  {
    PhasesAreDistinct();
    hide PHASES;
    var n := |cs|;
    if 0 < n {
      assert IsCheckpoint(cs[n - 1], PHASES[n - 1], "running");
      if n < |PHASES| {
        NextIsSuccessor(n - 1, 0);
      } else {
        LastHasNoNext(0);
      }
    }
  }

  /** Which step an accepted call takes: the next phase in order, or a failure of the last one. */
  lemma AcceptedStep(doc: Document, call: Call)
    requires Coherent(doc) && Record(doc, call.phase, call.status, call.values).Ok?
    ensures RunningPrefix(doc.checkpoints)
    ensures (|doc.checkpoints| < |PHASES| && call.phase == PHASES[|doc.checkpoints|])
            || (call.status == "failed" && doc.checkpoints != [] && call.phase == PHASES[|doc.checkpoints| - 1])
  {
    hide PHASES, ValidateContext, Extend, HistoryError, StepError, Coherent, RunningPrefix;
    RunningHistory(doc);
    NextOfLast(doc.checkpoints, call.phase, call.status);
  }

  lemma {:induction false} LegalLast(cs: seq<Checkpoint>, k: nat, i: nat)
    requires k <= i < |cs| && HistoryError(cs, k).None?
    ensures CheckpointError(i, cs[i]).None?
    decreases i - k
  {
    if k < i {
      LegalLast(cs, k + 1, i);
    }
  }

  /** What acceptance says about the call and the document it writes. */
  lemma AcceptedCall(doc: Document, call: Call) returns (context: Context)
    requires Record(doc, call.phase, call.status, call.values).Ok?
    ensures After(doc, call) == Extend(doc, call.phase, call.status, call.values, context)
    ensures IsStatus(call.status) && (call.status == "passed" ==> call.phase == "completed")
    ensures IsSha(context.sourceSha) && context.runId != ""
  {
    hide PHASES, HistoryError, StepError, Extend, Changed, IsSha, IsStatus;
    context := ValidateContext(call.values, doc).value;
  }

  lemma ExtendIsCoherent(doc: Document, call: Call, context: Context)
    requires RunningPrefix(doc.checkpoints)
    requires (|doc.checkpoints| < |PHASES| && call.phase == PHASES[|doc.checkpoints|])
             || (call.status == "failed" && doc.checkpoints != [] && call.phase == PHASES[|doc.checkpoints| - 1])
    requires IsStatus(call.status) && (call.status == "passed" ==> call.phase == "completed")
    requires IsSha(context.sourceSha)
    ensures Coherent(Extend(doc, call.phase, call.status, call.values, context)) <==> Clean(call)
  {
    hide PHASES, MakeCheckpoint, RunningPrefix, IsSha, IsStatus;
    CheckpointFields(call.phase, call.status, call.values, context);
    var cs := Extend(doc, call.phase, call.status, call.values, context).checkpoints;
    assert cs[..|cs| - 1] == doc.checkpoints;
  }

  /** An accepted call keeps the document coherent exactly when it is clean. */
  lemma CoherentIffClean(doc: Document, call: Call)
    requires Coherent(doc) && Record(doc, call.phase, call.status, call.values).Ok?
    ensures Coherent(After(doc, call)) <==> Clean(call)
  {
    hide PHASES, Coherent, Extend, RunningPrefix, TransitionError, ValidateContext;
    AcceptedStep(doc, call);
    var context := AcceptedCall(doc, call);
    ExtendIsCoherent(doc, call, context);
  }

  lemma StepKeepsCoherent(doc: Document, call: Call)
    requires Coherent(doc) && Clean(call)
    ensures Coherent(After(doc, call))
  {
    hide Coherent, Record;
    if Record(doc, call.phase, call.status, call.values).Ok? {
      CoherentIffClean(doc, call);
    }
  }

  /** Every document that a run of clean calls produces is coherent. */
  lemma {:induction false} RunsAreCoherent(doc: Document, calls: seq<Call>)
    requires Coherent(doc) && AllClean(calls)
    ensures Coherent(AfterAll(doc, calls))
    decreases |calls|
  {
    if calls != [] {
      assert Clean(calls[0]);
      StepKeepsCoherent(doc, calls[0]);
      forall i | 0 <= i < |calls[1..]|
        ensures Clean(calls[1..][i])
      {
        assert calls[1..][i] == calls[i + 1];
      }
      RunsAreCoherent(After(doc, calls[0]), calls[1..]);
    }
  }

  // ----- What it means -----

  /** A passed document went through all fourteen phases once, in order. */
  lemma PassedMeansAllPhases(calls: seq<Call>)
    requires AllClean(calls)
    ensures var doc := AfterAll(EMPTY, calls);
            doc.status == Some("passed") ==>
              |doc.checkpoints| == 14
              && forall i :: 0 <= i < 14 ==> Get(doc.checkpoints[i], "phase") == Some(LEGAL_ORDER[i])
  {
    RunsAreCoherent(EMPTY, calls);
    PhasesAreDistinct();
    OrderIsPhases();
    var doc := AfterAll(EMPTY, calls);
    if doc.status == Some("passed") {
      var n := |doc.checkpoints|;
      assert doc.checkpoints == doc.checkpoints[..n - 1] + [doc.checkpoints[n - 1]];
      assert PHASES[|PHASES| - 1] == "completed";
    }
  }

  /** The history is a prefix of the phases, but for one repeated last phase when it failed. */
  lemma HistoryIsPrefix(calls: seq<Call>, i: nat)
    requires AllClean(calls) && i < |AfterAll(EMPTY, calls).checkpoints|
    ensures var doc := AfterAll(EMPTY, calls);
            var n := |doc.checkpoints|;
            || (i < 14 && Get(doc.checkpoints[i], "phase") == Some(LEGAL_ORDER[i]))
            || (i == n - 1 && i > 0 && doc.status == Some("failed")
                && Get(doc.checkpoints[i], "phase") == Get(doc.checkpoints[i - 1], "phase"))
  {
    PhasesAreDistinct();
    OrderIsPhases();
    hide PHASES, LEGAL_ORDER, AfterAll, After;
    RunsAreCoherent(EMPTY, calls);
    var doc := AfterAll(EMPTY, calls);
    var n := |doc.checkpoints|;
    var before := doc.checkpoints[..n - 1];
    if i < n - 1 {
      assert before[i] == doc.checkpoints[i] && IsCheckpoint(before[i], PHASES[i], "running");
    } else if i > 0 {
      assert before[i - 1] == doc.checkpoints[i - 1] && IsCheckpoint(before[i - 1], PHASES[i - 1], "running");
    }
  }

  predicate Keeps(old': Option<string>, new': Option<string>) {
    old'.Some? ==> new' == old'
  }

  /** From one document to a later one: checkpoints are only appended and identities only added. */
  predicate Extends(old': Document, new': Document) {
    && old'.checkpoints <= new'.checkpoints
    && Keeps(old'.runId, new'.runId) && Keeps(old'.sourceSha, new'.sourceSha)
    && Keeps(old'.serverId, new'.serverId) && Keeps(old'.endpointId, new'.endpointId)
  }

  /** Over any calls whatever, the history is append-only and no identity changes once it is set. */
  lemma {:induction false} RunsOnlyExtend(doc: Document, calls: seq<Call>)
    ensures Extends(doc, AfterAll(doc, calls))
    decreases |calls|
  {
    hide After, Extends;
    if calls == [] {
      ExtendsItself(doc);
    } else {
      var next := After(doc, calls[0]);
      StepOnlyExtends(doc, calls[0]);
      RunsOnlyExtend(next, calls[1..]);
      ExtendsTransitively(doc, next, AfterAll(doc, calls));
    }
  }

  lemma StepOnlyExtends(doc: Document, call: Call)
    ensures Extends(doc, After(doc, call))
  {
    hide TransitionError, MakeCheckpoint, IsSha;
  }

  lemma ExtendsItself(doc: Document)
    ensures Extends(doc, doc)
  {
  }

  lemma ExtendsTransitively(a: Document, b: Document, c: Document)
    requires Extends(a, b) && Extends(b, c)
    ensures Extends(a, c)
  {
  }

  /** A failed or passed document is final. */
  lemma {:induction false} TerminalAbsorbs(doc: Document, calls: seq<Call>)
    requires doc.status == Some("failed") || doc.status == Some("passed")
    ensures AfterAll(doc, calls) == doc
    decreases |calls|
  {
    if calls != [] {
      TerminalAbsorbs(After(doc, calls[0]), calls[1..]);
    }
  }

  // ----- Extra values that name the checkpoint's own fields -----

  /** The extra values leave a checkpoint that a later call can go on from. */
  predicate Resumable(call: Call) {
    && SameIfGiven(call.values, "phase", call.phase)
    && ("status" in call.values ==>
          call.values["status"] == "running" || (call.values["status"] == "failed" && call.phase != "completed"))
  }

  /** One more legal checkpoint after a running prefix. */
  lemma {:induction false} LongerHistoryIsLegal(cs: seq<Checkpoint>, c: Checkpoint, k: nat)
    requires RunningPrefix(cs) && CheckpointError(|cs|, c).None? && k <= |cs|
    ensures HistoryError(cs + [c], k) == None
    decreases |cs| - k
  {
    hide CheckpointError;
    if k < |cs| {
      assert (cs + [c])[k] == cs[k];
      RunningIsLegal(cs, k);
      LongerHistoryIsLegal(cs, c, k + 1);
    } else {
      assert HistoryError(cs + [c], k + 1) == None;
    }
  }

  lemma RunningIsLegal(cs: seq<Checkpoint>, k: nat)
    requires RunningPrefix(cs) && k < |cs|
    ensures CheckpointError(k, cs[k]).None?
  {
    assert IsCheckpoint(cs[k], PHASES[k], "running");
  }

  /** With a blank target the stored identities are always in order. */
  lemma BlankTargetContext(doc: Document)
    requires doc.runId.Some? && doc.runId.value != "" && doc.sourceSha.Some? && IsSha(doc.sourceSha.value)
    ensures ValidateContext(map["target_resource_id" := ""], doc).Ok?
  {
    hide IsSha;
    assert |doc.sourceSha.value| == 40 by {
      ShaIsNotBlank(doc.sourceSha.value);
    }
  }

  lemma ShaIsNotBlank(sha: string)
    requires IsSha(sha)
    ensures |sha| == 40
  {
  }

  /** A later call that goes on: the next phase, or after the last one its failure. */
  lemma LaterCallIsAccepted(doc: Document, cs: seq<Checkpoint>, c: Checkpoint) returns (next: Call)
    requires doc.checkpoints == cs + [c] && doc.status == Some("running")
    requires RunningPrefix(cs) && |cs| < |PHASES| && CheckpointError(|cs|, c).None?
    requires |cs| == |PHASES| - 1 ==> Get(c, "status") == Some("running")
    requires doc.runId.Some? && doc.runId.value != "" && doc.sourceSha.Some? && IsSha(doc.sourceSha.value)
    ensures Record(doc, next.phase, next.status, next.values).Ok?
  {
    hide PHASES, HistoryError, RunningPrefix, ValidateContext, Extend, IsSha;
    var values := map["target_resource_id" := ""];
    assert "failure_phase" !in values by {
      assert "failure_phase"[0] != "target_resource_id"[0];
    }
    PhasesAreDistinct();
    LongerHistoryIsLegal(cs, c, 0);
    BlankTargetContext(doc);
    if |cs| < |PHASES| - 1 {
      next := Call(PHASES[|cs| + 1], "running", values);
      NextIsSuccessor(|cs|, 0);
    } else {
      next := Call(PHASES[|cs|], "failed", values);
    }
  }

  lemma LaterCallNeeds(doc: Document, cs: seq<Checkpoint>, c: Checkpoint, next: Call)
    requires doc.checkpoints == cs + [c]
    requires Record(doc, next.phase, next.status, next.values).Ok?
    ensures doc.status != Some("failed") && doc.status != Some("passed")
    ensures CheckpointError(|cs|, c).None?
    ensures |cs| == |PHASES| - 1 ==> Get(c, "status") == Some("running")
  {
    hide PHASES, HistoryError, ValidateContext, Extend;
    PhasesAreDistinct();
    LegalLast(doc.checkpoints, 0, |cs|);
    if |cs| == |PHASES| - 1 {
      LastHasNoNext(0);
    }
  }

  /**
   Extra values can replace the phase and the status in the stored checkpoint, and the call that
   does it is accepted. Some later call is accepted exactly when the call was a running one and
   left a checkpoint to go on from; otherwise the document is blocked for good.
   */
  lemma BlockedIffNotResumable(doc: Document, call: Call)
    requires Coherent(doc) && Record(doc, call.phase, call.status, call.values).Ok?
    ensures (exists next: Call :: Record(After(doc, call), next.phase, next.status, next.values).Ok?)
            <==> call.status == "running" && Resumable(call)
  {
    hide PHASES, HistoryError, StepError, ValidateContext, MakeCheckpoint, RunningPrefix, Record;
    PhasesAreDistinct();
    LastPhase();
    AcceptedStep(doc, call);
    var context := AcceptedCall(doc, call);
    CheckpointFields(call.phase, call.status, call.values, context);
    var cs, after := doc.checkpoints, After(doc, call);
    var c := MakeCheckpoint(call.phase, call.status, call.values, context);
    if call.status == "running" && Resumable(call) {
      var next := LaterCallIsAccepted(after, cs, c);
    }
    forall next: Call | Record(after, next.phase, next.status, next.values).Ok?
      ensures call.status == "running" && Resumable(call)
    {
      LaterCallNeeds(after, cs, c, next);
    }
  }

  lemma LastPhase()
    ensures PHASES[|PHASES| - 1] == "completed"
  {
  }

  // ----- Target and server -----

  predicate TargetMatches(doc: Document) {
    doc.serverId.Some? && doc.targetId.Some? ==> doc.serverId == doc.targetId
  }

  /** An explicitly blank value hides a stored identity from the comparison but does not erase it. */
  predicate BlankHidesMismatch(doc: Document, values: Values) {
    || (&& Get(values, "server_id") == Some("") && doc.serverId.Some?
        && NonBlank(Get(values, "target_resource_id")).Some?
        && Get(values, "target_resource_id") != doc.serverId)
    || (&& Get(values, "target_resource_id") == Some("") && doc.targetId.Some?
        && NonBlank(Get(values, "server_id")).Some?
        && Get(values, "server_id") != doc.targetId)
  }

  predicate NoBlankIds(doc: Document) {
    doc.serverId != Some("") && doc.targetId != Some("")
  }

  /** An accepted call makes target and server disagree exactly when a blank value hid one of them. */
  lemma TargetMismatchExactly(doc: Document, call: Call)
    requires TargetMatches(doc) && NoBlankIds(doc)
    requires Record(doc, call.phase, call.status, call.values).Ok?
    ensures NoBlankIds(After(doc, call))
    ensures TargetMatches(After(doc, call)) <==> !BlankHidesMismatch(doc, call.values)
  {
    hide TransitionError, MakeCheckpoint, IsSha;
  }

  /** Any running document with a server accepts such a call: a blank server next to a foreign target. */
  lemma BlankServerIsAccepted(doc: Document, target: string)
    requires Coherent(doc) && doc.status == Some("running") && |doc.checkpoints| < |PHASES|
    requires doc.runId != Some("") && doc.serverId.Some? && doc.serverId != Some("")
    requires target != "" && doc.serverId != Some(target)
    ensures var values := map["server_id" := "", "target_resource_id" := target];
            var call := Call(PHASES[|doc.checkpoints|], "running", values);
            Record(doc, call.phase, call.status, call.values).Ok? && !TargetMatches(After(doc, call))
  {
    hide PHASES, MakeCheckpoint, HistoryError, StepError, ValidateContext, Coherent;
    var n := |doc.checkpoints|;
    var values := map["server_id" := "", "target_resource_id" := target];
    NextPhaseIsAccepted(doc, n, values);
    BlankServerContext(doc, values, target);
  }

  /** A running document takes the next phase, whatever the values. */
  lemma NextPhaseIsAccepted(doc: Document, n: nat, values: Values)
    requires Coherent(doc) && doc.status == Some("running") && n == |doc.checkpoints| < |PHASES|
    ensures TransitionError(doc, PHASES[n], "running", values).None?
    ensures NonBlank(doc.sourceSha) == doc.sourceSha && doc.runId.Some? && doc.sourceSha.Some? && IsSha(doc.sourceSha.value)
  {
    hide PHASES;
    PhasesAreDistinct();
    var last := doc.checkpoints[n - 1];
    assert doc.checkpoints == doc.checkpoints[..n - 1] + [last];
    assert RunningPrefix(doc.checkpoints);
    RunningHistoryIsLegal(doc.checkpoints, 0);
    NextIsSuccessor(n - 1, 0);
  }

  lemma BlankServerContext(doc: Document, values: Values, target: string)
    requires values == map["server_id" := "", "target_resource_id" := target]
    requires doc.runId.Some? && doc.runId != Some("") && target != ""
    requires doc.sourceSha.Some? && NonBlank(doc.sourceSha) == doc.sourceSha && IsSha(doc.sourceSha.value)
    ensures var r := ValidateContext(values, doc);
            r.Ok? && r.value.serverId.None? && r.value.targetId == Some(target)
  {
  }

  // ----- What is accepted and what it writes -----

  /** What a call goes by under a key: what it is given, or else what is stored; nothing is "". */
  function InForce(values: Values, key: string, stored: Option<string>): string {
    if key in values then values[key] else if stored.Some? then stored.value else ""
  }

  predicate FortyHexDigits(s: string) {
    |s| == 40 && forall i :: 0 <= i < 40 ==> s[i] in "0123456789abcdefABCDEF"
  }

  /** The call is given another value than the stored one. */
  predicate Replaces(values: Values, key: string, stored: Option<string>) {
    key in values && values[key] != "" && stored.Some? && stored.value != values[key]
  }

  predicate IdentitiesInOrder(doc: Document, values: Values) {
    && InForce(values, "run_id", doc.runId) != ""
    && FortyHexDigits(InForce(values, "source_sha", doc.sourceSha))
    && !Replaces(values, "run_id", doc.runId) && !Replaces(values, "source_sha", doc.sourceSha)
    && !Replaces(values, "server_id", doc.serverId) && !Replaces(values, "endpoint_id", doc.endpointId)
    && var server, target := InForce(values, "server_id", doc.serverId), InForce(values, "target_resource_id", doc.targetId);
       (server == "" || target == "" || server == target)
  }

  predicate PhaseInOrder(doc: Document, phase: string, status: string) {
    var n := |doc.checkpoints|;
    || (n < 14 && phase == LEGAL_ORDER[n])
    || (status == "failed" && 0 < n <= 14 && phase == LEGAL_ORDER[n - 1])
  }

  lemma HexDigit(c: char)
    ensures IsHex(c) <==> c in "0123456789abcdefABCDEF"
  {
  }

  lemma ShaIsFortyHexDigits(s: string)
    ensures IsSha(s) <==> FortyHexDigits(s)
  {
    forall c
      ensures IsHex(c) <==> c in "0123456789abcdefABCDEF"
    {
      HexDigit(c);
    }
  }

  lemma ContextExactly(doc: Document, values: Values)
    ensures ValidateContext(values, doc).Ok? <==> IdentitiesInOrder(doc, values)
  {
    hide IsSha, FortyHexDigits;
    var sha := InForce(values, "source_sha", doc.sourceSha);
    ShaIsFortyHexDigits(sha);
    assert IsSha(sha) ==> sha != "" by {
      if IsSha(sha) {
        ShaIsNotBlank(sha);
      }
    }
  }

  /**
   When a call is accepted: the document is still running, the phase is the next of the fourteen
   or the last one failing, only the end may pass, and the identities are in order.
   */
  lemma AcceptedExactly(doc: Document, call: Call)
    requires Coherent(doc)
    ensures Record(doc, call.phase, call.status, call.values).Ok? <==>
            && doc.status != Some("failed") && doc.status != Some("passed")
            && (call.status == "running" || call.status == "failed" || (call.status == "passed" && call.phase == "completed"))
            && PhaseInOrder(doc, call.phase, call.status)
            && (call.status == "failed" && "failure_phase" in call.values ==> call.values["failure_phase"] == call.phase)
            && IdentitiesInOrder(doc, call.values)
  {
    hide PHASES, LEGAL_ORDER, Coherent, HistoryError, StepError, ValidateContext, IdentitiesInOrder, Extend, RunningPrefix;
    OrderIsPhases();
    ContextExactly(doc, call.values);
    if doc.status != Some("failed") && doc.status != Some("passed") {
      RunningHistory(doc);
      RunningHistoryIsLegal(doc.checkpoints, 0);
      NextOfLast(doc.checkpoints, call.phase, call.status);
      ShortHistory(doc.checkpoints);
    }
  }

  lemma ShortHistory(cs: seq<Checkpoint>)
    requires RunningPrefix(cs)
    ensures |cs| <= |PHASES|
  {
  }

  /** An accepted call appends one checkpoint, with every value it was given, and records what is in force. */
  lemma AcceptedIsRecorded(doc: Document, call: Call)
    requires Record(doc, call.phase, call.status, call.values).Ok?
    ensures var after := After(doc, call);
            && |after.checkpoints| == |doc.checkpoints| + 1 && doc.checkpoints <= after.checkpoints
            && after.status == Some(call.status) && after.phase == Some(call.phase)
            && (call.status == "failed" ==> after.failurePhase == Some(call.phase))
            && after.runId == Some(InForce(call.values, "run_id", doc.runId))
            && after.sourceSha == Some(InForce(call.values, "source_sha", doc.sourceSha))
            && Recorded(call.values, "server_id", doc.serverId, after.serverId)
            && Recorded(call.values, "endpoint_id", doc.endpointId, after.endpointId)
            && Recorded(call.values, "target_resource_id", doc.targetId, after.targetId)
    ensures var last := After(doc, call).checkpoints[|doc.checkpoints|];
            && (forall key :: key in call.values ==> key in last && last[key] == call.values[key])
            && ("phase" !in call.values ==> Get(last, "phase") == Some(call.phase))
            && ("status" !in call.values ==> Get(last, "status") == Some(call.status))
  {
    hide TransitionError, IsSha, MakeCheckpoint;
    var context := ValidateContext(call.values, doc).value;
    CheckpointFields(call.phase, call.status, call.values, context);
    CheckpointKeepsValues(doc, call, context);
  }

  /** A value that is given and not blank is recorded; otherwise the stored one stays. */
  predicate Recorded(values: Values, key: string, before: Option<string>, after: Option<string>) {
    after == if key in values && values[key] != "" then Some(values[key]) else before
  }

  lemma CheckpointKeepsValues(doc: Document, call: Call, context: Context)
    requires ValidateContext(call.values, doc) == Ok(context)
    ensures var c := MakeCheckpoint(call.phase, call.status, call.values, context);
            forall key :: key in call.values ==> key in c && c[key] == call.values[key]
  {
    hide IsSha;
    ContextRepeatsValues(doc, call.values, context);
  }

  lemma ContextRepeatsValues(doc: Document, values: Values, context: Context)
    requires ValidateContext(values, doc) == Ok(context)
    ensures forall key :: key in values && key in ContextMap(context) ==> ContextMap(context)[key] == values[key]
  {
    hide IsSha;
  }
}
