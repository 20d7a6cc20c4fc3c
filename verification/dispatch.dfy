/**
 One run of `dispatch_module` (src/cli.rs) as a trace of events: the code against a monitor that says
 which events may follow which, and what the monitor guarantees about every run.
 */
module Dispatch {
  import opened Json

  // ----- exit codes -----

  const EXIT_SUCCESS := 0
  const EXIT_MODULE_EXECUTE_ERROR := 1
  const EXIT_INVALID_INPUT := 2
  const EXIT_MODULE_NOT_FOUND := 44
  const EXIT_SCHEMA_VALIDATION_ERROR := 45
  const EXIT_APPROVAL_DENIED := 46
  const EXIT_ACL_DENIED := 77
  const EXIT_SIGINT := 130

  /** `map_apcore_error_to_exit_code` */
  function ErrorExitCode(code: string): int {
    match code
    case "MODULE_NOT_FOUND" => 44
    case "MODULE_LOAD_ERROR" => 44
    case "MODULE_DISABLED" => 44
    case "DEPENDENCY_NOT_FOUND" => 44
    case "DEPENDENCY_VERSION_MISMATCH" => 44
    case "SCHEMA_VALIDATION_ERROR" => 45
    case "APPROVAL_DENIED" => 46
    case "APPROVAL_TIMEOUT" => 46
    case "APPROVAL_PENDING" => 46
    case "CONFIG_NOT_FOUND" => 47
    case "CONFIG_INVALID" => 47
    case "ACL_RULE_ERROR" => 47
    case "SCHEMA_CIRCULAR_REF" => 48
    case "ACL_DENIED" => 77
    case "CONFIG_NAMESPACE_RESERVED" => 78
    case "CONFIG_NAMESPACE_DUPLICATE" => 78
    case "CONFIG_ENV_PREFIX_CONFLICT" => 78
    case "CONFIG_ENV_MAP_CONFLICT" => 78
    case "CONFIG_MOUNT_ERROR" => 66
    case "CONFIG_BIND_ERROR" => 65
    case "ERROR_FORMATTER_DUPLICATE" => 70
    case _ => 1
  }

  /** Which error codes share an exit code; every other code exits with 1. */
  lemma ErrorCodesByExit(code: string)
    ensures ErrorExitCode(code) == 44 <==>
            code in {"MODULE_NOT_FOUND", "MODULE_LOAD_ERROR", "MODULE_DISABLED", "DEPENDENCY_NOT_FOUND",
                     "DEPENDENCY_VERSION_MISMATCH"}
    ensures ErrorExitCode(code) == 45 <==> code == "SCHEMA_VALIDATION_ERROR"
    ensures ErrorExitCode(code) == 46 <==> code in {"APPROVAL_DENIED", "APPROVAL_TIMEOUT", "APPROVAL_PENDING"}
    ensures ErrorExitCode(code) == 47 <==> code in {"CONFIG_NOT_FOUND", "CONFIG_INVALID", "ACL_RULE_ERROR"}
    ensures ErrorExitCode(code) == 48 <==> code == "SCHEMA_CIRCULAR_REF"
    ensures ErrorExitCode(code) == 65 <==> code == "CONFIG_BIND_ERROR"
    ensures ErrorExitCode(code) == 66 <==> code == "CONFIG_MOUNT_ERROR"
    ensures ErrorExitCode(code) == 70 <==> code == "ERROR_FORMATTER_DUPLICATE"
    ensures ErrorExitCode(code) == 77 <==> code == "ACL_DENIED"
    ensures ErrorExitCode(code) == 78 <==>
            code in {"CONFIG_NAMESPACE_RESERVED", "CONFIG_NAMESPACE_DUPLICATE", "CONFIG_ENV_PREFIX_CONFLICT",
                     "CONFIG_ENV_MAP_CONFLICT"}
    ensures ErrorExitCode(code) in {1, 44, 45, 46, 47, 48, 65, 66, 70, 77, 78}
  {
  }

  // ----- events and their monitor -----

  datatype ExecPath = Script | Sandboxed | InProcess

  datatype Approver = ByFlag | ByVariable | ByOperator

  datatype Event =
    | AclChecked(allowed: bool)
    | ApprovalRequired
    | ApprovalGiven(approver: Approver)
    | GatePassed
    | Started(path: ExecPath)
    | Finished(code: int)
    | Printed
    | Audited(success: bool, code: int)
    | Exited(code: int)

  datatype Policy = Policy(needsAcl: bool, auditing: bool)

  datatype State = State(
    refused: bool, allowed: bool, asked: bool, approved: bool, gated: bool, started: bool,
    finished: Option<int>, audited: bool, exited: Option<int>)

  const START := State(false, false, false, false, false, false, None, false, None)

  /** Whether an event may happen now, and the state after it. */
  function Step(p: Policy, s: State, e: Event): Option<State> {
    if s.exited.Some? then None
    else
      match e
      case AclChecked(allowed) =>
        if s.started then None else Some(s.(allowed := s.allowed || allowed, refused := s.refused || !allowed))
      case ApprovalRequired =>
        if s.asked || s.gated then None else Some(s.(asked := true))
      case ApprovalGiven(_) =>
        if !s.asked || s.approved || s.gated then None else Some(s.(approved := true))
      case GatePassed =>
        if s.gated || s.refused || s.asked != s.approved then None else Some(s.(gated := true))
      case Started(_) =>
        if s.started || !s.gated || s.refused || (p.needsAcl && !s.allowed) then None else Some(s.(started := true))
      case Finished(code) =>
        if !s.started || s.finished.Some? then None else Some(s.(finished := Some(code)))
      case Printed =>
        if s.finished == Some(EXIT_SUCCESS) && !s.audited then Some(s) else None
      case Audited(success, code) =>
        if s.audited || s.finished != Some(code) || success != (code == EXIT_SUCCESS) || !p.auditing then None
        else Some(s.(audited := true))
      case Exited(code) =>
        if s.finished.Some? && (s.finished != Some(code) || s.audited != p.auditing) then None
        else if s.started && s.finished.None? && code != EXIT_SIGINT then None
        else Some(s.(exited := Some(code)))
  }

  function After(p: Policy, events: seq<Event>): Option<State> {
    if events == [] then Some(START)
    else
      var s := After(p, events[..|events| - 1]);
      if s.None? then None else Step(p, s.value, events[|events| - 1])
  }

  // ----- what every permitted run guarantees -----

  predicate HasStarted(events: seq<Event>) {
    exists e | e in events :: e.Started?
  }

  predicate HasApproval(events: seq<Event>) {
    exists e | e in events :: e.ApprovalGiven?
  }

  predicate HasAudited(events: seq<Event>) {
    exists e | e in events :: e.Audited?
  }

  /** The state records what has happened. */
  ghost predicate Records(s: State, events: seq<Event>) {
    && (s.allowed <==> AclChecked(true) in events)
    && (s.refused <==> AclChecked(false) in events)
    && (s.asked <==> ApprovalRequired in events)
    && (s.approved <==> HasApproval(events))
    && (s.gated <==> GatePassed in events)
    && (s.started <==> HasStarted(events))
    && (s.audited <==> HasAudited(events))
    && (forall c :: s.finished == Some(c) <==> Finished(c) in events)
    && (forall c :: s.exited == Some(c) <==> Exited(c) in events)
  }

  lemma {:induction false} StateRecords(p: Policy, events: seq<Event>)
    requires After(p, events).Some?
    ensures Records(After(p, events).value, events)
  {
    if events != [] {
      var init, last := events[..|events| - 1], events[|events| - 1];
      StateRecords(p, init);
      assert events == init + [last];
      RecordsStep(p, After(p, init).value, init, last);
    }
  }

  lemma Recorded(init: seq<Event>, e: Event)
    ensures HasStarted(init + [e]) <==> HasStarted(init) || e.Started?
    ensures HasApproval(init + [e]) <==> HasApproval(init) || e.ApprovalGiven?
    ensures HasAudited(init + [e]) <==> HasAudited(init) || e.Audited?
  {
    assert e in init + [e];
    assert forall x | x in init :: x in init + [e];
  }

  lemma RecordsStep(p: Policy, s: State, init: seq<Event>, e: Event)
    requires Records(s, init) && Step(p, s, e).Some?
    ensures Records(Step(p, s, e).value, init + [e])
  {
    hide HasStarted, HasApproval, HasAudited;
    forall x
      ensures x in init + [e] <==> x in init || x == e
    {
    }
    Recorded(init, e);
  }

  /** Every prefix of a permitted run is permitted, and its next event was allowed by the monitor. */
  lemma {:induction false} PrefixPermitted(p: Policy, events: seq<Event>, i: nat)
    requires After(p, events).Some? && i < |events|
    ensures After(p, events[..i]).Some? && Step(p, After(p, events[..i]).value, events[i]).Some?
  {
    if i < |events| - 1 {
      var init := events[..|events| - 1];
      PrefixPermitted(p, init, i);
      assert init[..i] == events[..i];
    }
  }

  /** Event `i` of a permitted run, with what had happened before it. */
  lemma EventInContext(p: Policy, events: seq<Event>, i: nat) returns (s: State)
    requires After(p, events).Some? && i < |events|
    ensures After(p, events[..i]) == Some(s) && Records(s, events[..i]) && Step(p, s, events[i]).Some?
  {
    PrefixPermitted(p, events, i);
    StateRecords(p, events[..i]);
    s := After(p, events[..i]).value;
  }

  /** Executions and audit records do not come twice, and nothing follows an exit. */
  lemma NotTwice(p: Policy, events: seq<Event>, i: nat, j: nat)
    requires After(p, events).Some? && i < j < |events|
    ensures events[i].Started? ==> !events[j].Started?
    ensures events[i].Audited? ==> !events[j].Audited?
    ensures !events[i].Exited?
  {
    var s := EventInContext(p, events, j);
    assert events[..j][i] == events[i];
  }

  lemma OneStart(p: Policy, events: seq<Event>, i: nat, j: nat)
    requires After(p, events).Some? && i < |events| && j < |events| && events[i].Started? && events[j].Started?
    ensures i == j
  {
    hide After;
    if i < j {
      NotTwice(p, events, i, j);
    } else if j < i {
      NotTwice(p, events, j, i);
    }
  }

  /** Where the gate asked for approval, it did so before the target started, and got it. */
  lemma ApprovalComesFirst(p: Policy, events: seq<Event>, i: nat)
    requires After(p, events).Some? && i < |events| && events[i].Started?
    ensures ApprovalRequired in events ==> HasApproval(events[..i])
  {
    hide After, Step, Records;
    var s := EventInContext(p, events, i);
    StateIsConsistent(p, events[..i]);
    StartNeedsGate(p, s, events[i]);
    RecordsGate(s, events[..i]);
    if ApprovalRequired in events && ApprovalRequired !in events[..i] {
      assert events == events[..i] + events[i..];
      var k :| 0 <= k < |events[i..]| && events[i..][k] == ApprovalRequired;
      var t := EventInContext(p, events, i + k);
      assert events[..i] <= events[..i + k];
      RecordsGate(t, events[..i + k]);
      NoQuestionAfterGate(p, t);
    }
  }

  lemma StartNeedsGate(p: Policy, s: State, e: Event)
    requires Step(p, s, e).Some? && e.Started?
    ensures s.gated
  {
  }

  lemma NoQuestionAfterGate(p: Policy, s: State)
    ensures s.gated ==> Step(p, s, ApprovalRequired).None?
  {
  }

  lemma RecordsGate(s: State, events: seq<Event>)
    requires Records(s, events)
    ensures s.refused <==> AclChecked(false) in events
    ensures s.started <==> HasStarted(events)
    ensures s.audited <==> HasAudited(events)
    ensures s.gated <==> GatePassed in events
    ensures s.asked <==> ApprovalRequired in events
    ensures s.approved <==> HasApproval(events)
  {
  }

  /**
   The target is executed at most once, only after the approval gate passed and never after a refusal;
   where the executor's own ACL is bypassed, an allow decision came first, and where the gate asked for
   approval, the approval did.
   */
  lemma ExecutionIsGuarded(p: Policy, events: seq<Event>, i: nat)
    requires After(p, events).Some? && i < |events| && events[i].Started?
    ensures GatePassed in events[..i]
    ensures AclChecked(false) !in events[..i]
    ensures p.needsAcl ==> AclChecked(true) in events[..i]
    ensures ApprovalRequired in events ==> HasApproval(events[..i])
    ensures forall j :: 0 <= j < |events| && events[j].Started? ==> j == i
  {
    hide After, HasApproval;
    forall j | 0 <= j < |events| && events[j].Started?
      ensures j == i
    {
      OneStart(p, events, i, j);
    }
    ApprovalComesFirst(p, events, i);
    var s := EventInContext(p, events, i);
  }

  /** Every execution in the trace takes this path. */
  ghost predicate OnlyPath(path: ExecPath, events: seq<Event>) {
    forall e | e in events && e.Started? :: e.path == path
  }

  lemma OnePath(p: Policy, events: seq<Event>, path: ExecPath)
    requires After(p, events).Some? && Started(path) in events
    ensures OnlyPath(path, events)
  {
    hide After;
    var i :| 0 <= i < |events| && events[i] == Started(path);
    forall e | e in events && e.Started?
      ensures e.path == path
    {
      var j :| 0 <= j < |events| && events[j] == e;
      OneStart(p, events, i, j);
    }
  }

  /** What holds of every state the monitor reaches. */
  ghost predicate Consistent(p: Policy, s: State) {
    && (s.gated ==> s.asked == s.approved)
    && (s.finished.Some? ==> s.started)
    && (s.audited ==> s.finished.Some? && p.auditing)
  }

  lemma StepKeepsConsistent(p: Policy, s: State, e: Event)
    requires Consistent(p, s) && Step(p, s, e).Some?
    ensures Consistent(p, Step(p, s, e).value)
  {
  }

  lemma {:induction false} StateIsConsistent(p: Policy, events: seq<Event>)
    requires After(p, events).Some?
    ensures Consistent(p, After(p, events).value)
  {
    hide Step, Consistent;
    if events == [] {
      StartIsConsistent(p);
    } else {
      StateIsConsistent(p, events[..|events| - 1]);
      StepKeepsConsistent(p, After(p, events[..|events| - 1]).value, events[|events| - 1]);
    }
  }

  lemma StartIsConsistent(p: Policy)
    ensures Consistent(p, START)
  {
  }

  /**
   At most one audit record, written after the execution it describes, with the code the process exits
   with, and marked a success exactly when that code is 0.
   */
  lemma AuditIsTruthful(p: Policy, events: seq<Event>, i: nat)
    requires After(p, events).Some? && i < |events| && events[i].Audited?
    ensures HasStarted(events[..i]) && Finished(events[i].code) in events[..i]
    ensures events[i].success <==> events[i].code == EXIT_SUCCESS
    ensures forall c :: Exited(c) in events ==> c == events[i].code
    ensures forall j :: 0 <= j < |events| && events[j].Audited? ==> j == i
  {
    hide After, HasApproval;
    forall j | 0 <= j < |events| && events[j].Audited?
      ensures j == i
    {
      if j < i {
        NotTwice(p, events, j, i);
      } else if i < j {
        NotTwice(p, events, i, j);
      }
    }
    var s := EventInContext(p, events, i);
    FinishedWasStarted(p, events[..i]);
    forall c | Exited(c) in events
      ensures c == events[i].code
    {
      var j: nat :| j < |events| && events[j] == Exited(c);
      if j > i {
        var t := EventInContext(p, events, j);
        assert events[..i] <= events[..j];
        assert Finished(events[i].code) in events[..j];
      }
    }
  }

  lemma FinishedWasStarted(p: Policy, events: seq<Event>)
    requires After(p, events).Some?
    ensures After(p, events).value.finished.Some? ==> HasStarted(events)
  {
    StateRecords(p, events);
    StateIsConsistent(p, events);
  }

  /** A run that ended: a finished execution was audited if auditing is on, and nothing else ever is. */
  lemma AuditIsComplete(p: Policy, events: seq<Event>, code: int)
    requires After(p, events).Some? && Exited(code) in events
    ensures HasAudited(events) <==> p.auditing && exists c :: Finished(c) in events
    ensures HasStarted(events) && !(exists c :: Finished(c) in events) ==> code == EXIT_SIGINT
  {
    var i :| 0 <= i < |events| && events[i] == Exited(code);
    if i < |events| - 1 {
      NotTwice(p, events, i, |events| - 1);
    }
    var s := EventInContext(p, events, i);
    assert events == events[..i] + [events[i]];
    StateRecords(p, events);
    var t := After(p, events).value;
    assert events[..|events| - 1] == events[..i];
    StateIsConsistent(p, events[..i]);
    assert forall c :: t.finished == Some(c) <==> Finished(c) in events;
    if t.finished.Some? {
      assert Finished(t.finished.value) in events;
    }
  }

  // ----- the code -----

  datatype Answer = Approved | Denied | TimedOut

  /** How an execution ends: a value, an error carrying an apcore code, another error, or an interrupt. */
  datatype Outcome = Done | ModuleFailed(code: string) | OtherFailed | Interrupted

  datatype AclDecision = AclDecision(deny: bool, approvalRequired: bool)

  /** Everything the run depends on and does not control. ACL decisions do not change during a run. */
  datatype Env = Env(
    idValid: bool, found: bool, inputOk: bool,
    dryRun: bool, preflightValid: bool, preflightCode: int,
    hasProperties: bool, schemaValid: bool,
    stream: bool, trace: bool, sandbox: bool, script: bool,
    acl: Option<AclDecision>,
    annotations: Option<bool>,
    autoApprove: bool, envApprove: bool, tty: bool, answer: Answer,
    outcome: Outcome, auditing: bool)

  /** Scripts and the sandbox do not carry the executor's ACL. */
  predicate BypassesExecutorAcl(env: Env) {
    env.script || env.sandbox
  }

  function PolicyOf(env: Env): Policy {
    Policy(BypassesExecutorAcl(env) && env.acl.Some?, env.auditing)
  }

  /** `annotations` is the descriptor's own demand for approval, if it has an annotations object at all. */
  predicate RequiresApproval(annotations: Option<bool>) {
    annotations == Some(true)
  }

  /** Where the executor's own ACL is bypassed, the matching rule of the attached one may demand an approval. */
  predicate AclDemandsApproval(env: Env) {
    BypassesExecutorAcl(env) && env.acl.Some? && env.acl.value.approvalRequired
  }

  /** The gate is meant to fire on the union of the two demands. */
  predicate ApprovalDemanded(env: Env) {
    RequiresApproval(env.annotations) || AclDemandsApproval(env)
  }

  /** An ACL rule that demands approval rewrites the annotation, where there are annotations to rewrite. */
  function EffectiveAnnotations(env: Env): Option<bool> {
    if AclDemandsApproval(env) && env.annotations.Some? then Some(true) else env.annotations
  }

  /** `--yes`, the environment variable, or an operator at a terminal. */
  function Approval(env: Env): Option<Approver> {
    if env.autoApprove then Some(ByFlag)
    else if env.envApprove then Some(ByVariable)
    else if env.tty && env.answer.Approved? then Some(ByOperator)
    else None
  }

  /** Nothing stops the run before the access decision. */
  predicate Proceeds(env: Env) {
    env.idValid && env.found && env.inputOk && !env.dryRun && (env.hasProperties ==> env.schemaValid)
  }

  function PathOf(env: Env): ExecPath {
    if env.stream then (if env.script then Script else InProcess)
    else if env.trace then InProcess
    else if env.script then Script
    else if env.sandbox then Sandboxed
    else InProcess
  }

  /** Only a call in process reports the module's own error code; an enabled sandbox never passes one through. */
  function FailureCode(path: ExecPath, outcome: Outcome): int {
    if path.InProcess? && outcome.ModuleFailed? then ErrorExitCode(outcome.code) else EXIT_MODULE_EXECUTE_ERROR
  }

  /** The attached ACL is consulted and refuses. */
  predicate Refuses(env: Env) {
    EarlyExit(env).None? && BypassesExecutorAcl(env) && env.acl.Some? && env.acl.value.deny
  }

  predicate Asks(env: Env) {
    RequiresApproval(EffectiveAnnotations(env))
  }

  /** The exit code of a run whose target was started. */
  function EndCode(env: Env): int {
    match env.outcome
    case Done => EXIT_SUCCESS
    case Interrupted => EXIT_SIGINT
    case _ => FailureCode(PathOf(env), env.outcome)
  }

  /** The exit code of a run that is stopped before the ACL check, if it is stopped there. */
  function EarlyExit(env: Env): Option<int> {
    if !env.idValid then Some(EXIT_INVALID_INPUT)
    else if !env.found then Some(EXIT_MODULE_NOT_FOUND)
    else if !env.inputOk then Some(EXIT_INVALID_INPUT)
    else if env.dryRun then Some(if env.preflightValid then EXIT_SUCCESS else env.preflightCode)
    else if env.hasProperties && !env.schemaValid then Some(EXIT_SCHEMA_VALIDATION_ERROR)
    else None
  }

  lemma AfterOneMore(p: Policy, events: seq<Event>, e: Event)
    ensures After(p, events + [e]) == if After(p, events).None? then None else Step(p, After(p, events).value, e)
  {
    assert (events + [e])[..|events|] == events;
  }

  /** No error maps to exit code 0. */
  lemma FailureIsNotSuccess(path: ExecPath, outcome: Outcome)
    ensures FailureCode(path, outcome) != EXIT_SUCCESS
  {
  }

  /** The end of a finished execution: print before audit on success, audit before the error message on failure. */
  method Report(env: Env, code: int, before: seq<Event>) returns (events: seq<Event>)
    requires After(PolicyOf(env), before).Some?
    requires var s := After(PolicyOf(env), before).value;
             s.started && s.finished.None? && !s.audited && s.exited.None?
    requires !env.outcome.Interrupted? && (env.outcome.Done? <==> code == EXIT_SUCCESS)
    ensures before <= events
    ensures After(PolicyOf(env), events) ==
            Some(After(PolicyOf(env), before).value
                 .(finished := Some(code), audited := env.auditing, exited := Some(code)))
  {
    hide After;
    var p := PolicyOf(env);
    AfterOneMore(p, before, Finished(code));
    events := before + [Finished(code)];
    if env.outcome.Done? {
      AfterOneMore(p, events, Printed);
      events := events + [Printed];
    }
    if env.auditing {
      AfterOneMore(p, events, Audited(env.outcome.Done?, code));
      events := events + [Audited(env.outcome.Done?, code)];
    }
    AfterOneMore(p, events, Exited(code));
    events := events + [Exited(code)];
  }

  /** Runs the target and reports. */
  method ExecuteAndReport(env: Env, before: seq<Event>) returns (events: seq<Event>, code: int)
    requires After(PolicyOf(env), before).Some?
    requires var s := After(PolicyOf(env), before).value;
             s.gated && !s.refused && !s.started && s.finished.None? && !s.audited && s.exited.None?
    requires PolicyOf(env).needsAcl ==> After(PolicyOf(env), before).value.allowed
    ensures After(PolicyOf(env), events).Some? && before <= events
    ensures Exited(code) in events && Started(PathOf(env)) in events
    ensures code == EndCode(env)
    ensures var s, t := After(PolicyOf(env), before).value, After(PolicyOf(env), events).value;
            t.started && t.asked == s.asked && t.approved == s.approved && t.refused == s.refused
    ensures After(PolicyOf(env), events).value.audited <==> env.auditing && !env.outcome.Interrupted?
  {
    hide After, PathOf, FailureCode;
    var p := PolicyOf(env);
    events := before;
    var path := PathOf(env);
    if path.Sandboxed? && env.acl.Some? {
      // the sandbox repeats the check before it spawns
      AfterOneMore(p, events, AclChecked(true));
      events := events + [AclChecked(true)];
    }
    AfterOneMore(p, events, Started(path));
    events := events + [Started(path)];
    if env.outcome.Interrupted? {
      code := EXIT_SIGINT;
      AfterOneMore(p, events, Exited(code));
      events := events + [Exited(code)];
    } else {
      code := if env.outcome.Done? then EXIT_SUCCESS else FailureCode(path, env.outcome);
      FailureIsNotSuccess(path, env.outcome);
      ghost var running := events;
      events := Report(env, code, events);
      assert Started(path) in running && running <= events;
    }
    StateRecords(p, events);
  }

  /** The approval gate (src/approval.rs): it lets the run go on, or ends it. */
  method PassGate(env: Env, annotations: Option<bool>, before: seq<Event>) returns (events: seq<Event>, passed: bool)
    requires After(PolicyOf(env), before).Some?
    requires var s := After(PolicyOf(env), before).value; s == START.(allowed := s.allowed)
    ensures passed <==> !RequiresApproval(annotations) || Approval(env).Some?
    ensures After(PolicyOf(env), events).Some? && before <= events
    ensures var s, t := After(PolicyOf(env), before).value, After(PolicyOf(env), events).value;
            t == s.(asked := RequiresApproval(annotations), approved := RequiresApproval(annotations) && passed,
                    gated := passed)
  {
    hide After;
    var p := PolicyOf(env);
    events := before;
    if RequiresApproval(annotations) {
      AfterOneMore(p, events, ApprovalRequired);
      events := events + [ApprovalRequired];
      var approval := Approval(env);
      if approval.None? {
        return events, false;
      }
      AfterOneMore(p, events, ApprovalGiven(approval.value));
      events := events + [ApprovalGiven(approval.value)];
    }
    AfterOneMore(p, events, GatePassed);
    events := events + [GatePassed];
    passed := true;
  }

  /** One run in terms of the monitor's last state. */
  method Run(env: Env) returns (events: seq<Event>, code: int)
    ensures After(PolicyOf(env), events).Some? && Exited(code) in events
    ensures EarlyExit(env).Some? ==> events == [Exited(code)] && code == EarlyExit(env).value
    ensures After(PolicyOf(env), events).value.refused <==> Refuses(env)
    ensures After(PolicyOf(env), events).value.asked <==> EarlyExit(env).None? && !Refuses(env) && Asks(env)
    ensures After(PolicyOf(env), events).value.approved <==>
            After(PolicyOf(env), events).value.asked && Approval(env).Some?
    ensures After(PolicyOf(env), events).value.started <==>
            EarlyExit(env).None? && !Refuses(env) && (Asks(env) ==> Approval(env).Some?)
    ensures After(PolicyOf(env), events).value.audited <==>
            After(PolicyOf(env), events).value.started && env.auditing && !env.outcome.Interrupted?
    ensures Refuses(env) ==> code == EXIT_ACL_DENIED
    ensures EarlyExit(env).None? && !Refuses(env) && !After(PolicyOf(env), events).value.started ==>
              code == EXIT_APPROVAL_DENIED
    ensures After(PolicyOf(env), events).value.started ==> Started(PathOf(env)) in events && code == EndCode(env)
  {
    hide After, PathOf, EndCode, Approval;
    var p := PolicyOf(env);
    AfterNothing(p);
    events := [];
    code := 0;
    var early := EarlyExit(env);
    if early.Some? {
      code := early.value;
      AfterOneMore(p, [], Exited(code));
      events := [] + [Exited(code)];
      return;
    }
    var annotations := env.annotations;
    if BypassesExecutorAcl(env) && env.acl.Some? {
      var decision := env.acl.value;
      AfterOneMore(p, events, AclChecked(!decision.deny));
      events := events + [AclChecked(!decision.deny)];
      if decision.deny {
        code := EXIT_ACL_DENIED;
        AfterOneMore(p, events, Exited(code));
        events := events + [Exited(code)];
        return;
      }
      if decision.approvalRequired && annotations.Some? {
        annotations := Some(true);
      }
    }
    var passed;
    events, passed := PassGate(env, annotations, events);
    if !passed {
      code := EXIT_APPROVAL_DENIED;
      AfterOneMore(p, events, Exited(code));
      events := events + [Exited(code)];
      return;
    }
    events, code := ExecuteAndReport(env, events);
  }

  /**
   The whole of one run over what it depends on: where it stops before the gate and with which code, when the
   gate asks and for what it opens, when and where the target starts, and how the run ends.
   */
  method DispatchModule(env: Env) returns (events: seq<Event>, code: int)
    ensures After(PolicyOf(env), events).Some? && Exited(code) in events
    // stops before the gate
    ensures !env.idValid ==> code == 2
    ensures env.idValid && !env.found ==> code == 44
    ensures env.idValid && env.found && !env.inputOk ==> code == 2
    ensures env.idValid && env.found && env.inputOk && env.dryRun ==>
              code == if env.preflightValid then 0 else env.preflightCode
    ensures env.idValid && env.found && env.inputOk && !env.dryRun && env.hasProperties && !env.schemaValid ==>
              code == 45
    ensures !env.idValid || !env.found || !env.inputOk || env.dryRun || (env.hasProperties && !env.schemaValid) ==>
              events == [Exited(code)]
    ensures env.dryRun ==> !HasStarted(events) && !HasAudited(events) && ApprovalRequired !in events
    // the access decision, where the executor's own is bypassed
    ensures AclChecked(false) in events <==>
            Proceeds(env) && (env.script || env.sandbox) && env.acl.Some? && env.acl.value.deny
    ensures AclChecked(false) in events ==> code == 77 && !HasStarted(events) && ApprovalRequired !in events
    // the gate
    ensures ApprovalRequired in events <==>
            && Proceeds(env) && AclChecked(false) !in events
            && (env.annotations == Some(true)
                || ((env.script || env.sandbox) && env.acl.Some? && env.acl.value.approvalRequired
                    && env.annotations.Some?))
    ensures HasApproval(events) <==>
            && ApprovalRequired in events
            && (env.autoApprove || env.envApprove || (env.tty && env.answer == Approved))
    ensures ApprovalRequired in events && !HasApproval(events) ==> code == 46
    ensures HasStarted(events) <==>
            && Proceeds(env) && AclChecked(false) !in events
            && (ApprovalRequired in events ==> HasApproval(events))
    // the execution
    ensures Started(Script) in events <==> HasStarted(events) && env.script && (env.stream || !env.trace)
    ensures Started(Sandboxed) in events <==>
            HasStarted(events) && env.sandbox && !env.script && !env.stream && !env.trace
    ensures Started(InProcess) in events <==>
            && HasStarted(events)
            && (if env.script then env.trace && !env.stream else !env.sandbox || env.stream || env.trace)
    ensures HasStarted(events) && env.outcome.Done? ==> code == 0
    ensures HasStarted(events) && env.outcome.Interrupted? ==> code == 130
    ensures HasStarted(events) && env.outcome.OtherFailed? ==> code == 1
    ensures HasStarted(events) && env.outcome.ModuleFailed? ==>
              code == if Started(InProcess) in events then ErrorExitCode(env.outcome.code) else 1
    ensures HasAudited(events) <==> HasStarted(events) && env.auditing && !env.outcome.Interrupted?
    // the intended approval against the one asked for
    ensures Proceeds(env) && AclChecked(false) !in events ==>
              ((ApprovalRequired in events <==> ApprovalDemanded(env)) <==>
               (env.annotations.Some? || !AclDemandsApproval(env)))
    ensures HasStarted(events) && ApprovalDemanded(env) && !HasApproval(events) <==>
            Proceeds(env) && AclChecked(false) !in events && AclDemandsApproval(env) && env.annotations.None?
  {
    hide After, ErrorExitCode, Records;
    events, code := Run(env);
    StateRecords(PolicyOf(env), events);
    RecordsGate(After(PolicyOf(env), events).value, events);
    if HasStarted(events) {
      OnePath(PolicyOf(env), events, PathOf(env));
    }
  }

  lemma AfterNothing(p: Policy)
    ensures After(p, []) == Some(START)
  {
  }

  /**
   A sandboxed run whose ACL rule demands an approval and whose descriptor has no annotations: whatever
   terminal and answer there are, the target starts and nobody was asked.
   */
  method UnapprovedRun(tty: bool, answer: Answer, outcome: Outcome, auditing: bool)
    returns (env: Env, events: seq<Event>, code: int)
    ensures env.tty == tty && env.answer == answer && env.outcome == outcome && env.auditing == auditing
    ensures ApprovalDemanded(env) && !env.autoApprove && !env.envApprove
    ensures After(PolicyOf(env), events).Some? && Started(Sandboxed) in events
    ensures ApprovalRequired !in events && !HasApproval(events)
  {
    env := Env(true, true, true, false, true, EXIT_SUCCESS, false, true, false, false, true, false,
               Some(AclDecision(false, true)), None, false, false, tty, answer, outcome, auditing);
    events, code := DispatchModule(env);
  }
}
