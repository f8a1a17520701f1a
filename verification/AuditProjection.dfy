/** Audit events projected from other tables, and their id scheme (packages/core/src/audit/projection.ts, reader.ts). */
module AuditProjection {
  import opened Prelude

  datatype Payload =
    | Empty
    | Json(text: string)
    | Started(runType: string, repoUrl: string)
    | Failed(errorMessage: Option<string>, status: string)
    | Reason(reason: Option<string>)
    | Requested(approvalId: string, action: string, reason_: string)
    | Resolved(approvalId: string, action: string, status: string)
    | Budget(threshold: int, date: string)

  datatype AuditEvent = AuditEvent(
    id: string, timestamp: int, eventType: string, actor: string, actorType: string,
    scope: Option<string>, runId: Option<string>, issueId: Option<string>,
    inputTokens: int, outputTokens: int, payload: Payload)

  datatype RunRow = RunRow(
    id: string, issueId: string, status: string, startedAt: int, completedAt: Option<int>,
    totalInputTokens: int, totalOutputTokens: int, runType: string, parentRunId: Option<string>,
    linearTeamId: Option<string>, repoUrl: string, autoMerged: Option<bool>, autoMergeReason: Option<string>,
    errorMessage: Option<string>)

  datatype ApprovalRow = ApprovalRow(
    id: string, issueId: string, action: string, reason: string, status: string, createdAt: int, resolvedAt: Option<int>)

  datatype AlertRow = AlertRow(id: string, date: string, scope: string, threshold: int, firedAt: int)

  /** The four tables; a native row reads back as the event it stores. */
  datatype Db = Db(native: seq<AuditEvent>, runs: seq<RunRow>, approvals: seq<ApprovalRow>, alerts: seq<AlertRow>)

  /** A string that JavaScript treats as true: present and not empty. */
  predicate Truthy(s: Option<string>) {
    s.Some? && s.value != ""
  }

  // ---------------------------------------------------------------- projection.ts

  const PROJ := "proj_"
  const RUN_SKIPPED := "proj_run_auto_merge_skipped_"
  const RUN_MERGED := "proj_run_auto_merged_"
  const RUN_STARTED := "proj_run_started_"
  const RUN_COMPLETED := "proj_run_completed_"
  const RUN_FAILED := "proj_run_failed_"
  const APPROVAL_REQUESTED := "proj_approval_requested_"
  const APPROVAL_RESOLVED := "proj_approval_resolved_"
  const BUDGET_ALERT := "proj_budget_alert_"

  function ScopeForRun(row: RunRow): string {
    if Truthy(row.linearTeamId) then "team:" + row.linearTeamId.value else "repo:" + row.repoUrl
  }

  function ActorForRun(row: RunRow): (string, string) {
    if row.runType == "review-feedback" then ("github-webhook", "webhook")
    else if Truthy(row.parentRunId) then ("pm-agent", "pm-agent")
    else ("linear-webhook", "webhook")
  }

  function RunEvent(row: RunRow, prefix: string, timestamp: int, eventType: string, inTok: int, outTok: int, payload: Payload): AuditEvent {
    AuditEvent(prefix + row.id, timestamp, eventType, ActorForRun(row).0, ActorForRun(row).1, Some(ScopeForRun(row)),
               Some(row.id), Some(row.issueId), inTok, outTok, payload)
  }

  function EndOf(row: RunRow): int {
    if row.completedAt.Some? then row.completedAt.value else row.startedAt
  }

  function FinishEvents(row: RunRow): seq<AuditEvent> {
    if row.completedAt.None? then []
    else if row.status == "completed" then
      [RunEvent(row, RUN_COMPLETED, row.completedAt.value, "run.completed", row.totalInputTokens, row.totalOutputTokens, Empty)]
    else if row.status == "failed" || row.status == "retriable" then
      [RunEvent(row, RUN_FAILED, row.completedAt.value, "run.failed", row.totalInputTokens, row.totalOutputTokens, Failed(row.errorMessage, row.status))]
    else []
  }

  function MergeEvents(row: RunRow): seq<AuditEvent> {
    if row.autoMerged == Some(true) then
      [RunEvent(row, RUN_MERGED, EndOf(row), "run.auto_merged", 0, 0, Reason(row.autoMergeReason))]
    else if row.autoMerged == Some(false) && Truthy(row.autoMergeReason) then
      [RunEvent(row, RUN_SKIPPED, EndOf(row), "run.auto_merge_skipped", 0, 0, Reason(row.autoMergeReason))]
    else []
  }

  function RunEvents(row: RunRow): seq<AuditEvent> {
    [RunEvent(row, RUN_STARTED, row.startedAt, "run.started", 0, 0, Started(row.runType, row.repoUrl))] + FinishEvents(row) + MergeEvents(row)
  }

  /** The event that a run begins with. */
  function RunStarted(row: RunRow): AuditEvent {
    RunEvents(row)[0]
  }

  predicate HasType(events: seq<AuditEvent>, eventType: string) {
    exists e :: e in events && e.eventType == eventType
  }

  /** Which events a run has, and what all of them carry: its ids, its start or end time, and an id of its own. */
  ghost predicate ProjectsRun(row: RunRow, events: seq<AuditEvent>) {
    && |events| >= 1 && events[0].eventType == "run.started" && events[0].timestamp == row.startedAt
    && (forall e :: e in events ==> e.runId == Some(row.id) && e.issueId == Some(row.issueId))
    && (forall e :: e in events && e != events[0] ==>
          e.timestamp == (if row.completedAt.Some? then row.completedAt.value else row.startedAt) && e.eventType != "run.started")
    && (HasType(events, "run.completed") <==> row.completedAt.Some? && row.status == "completed")
    && (HasType(events, "run.failed") <==> row.completedAt.Some? && (row.status == "failed" || row.status == "retriable"))
    && (HasType(events, "run.auto_merged") <==> row.autoMerged == Some(true))
    && (HasType(events, "run.auto_merge_skipped") <==>
          row.autoMerged == Some(false) && row.autoMergeReason.Some? && row.autoMergeReason.value != "")
    && (forall e, f :: e in events && f in events && (e.id == f.id || e.eventType == f.eventType) ==> e == f)
  }

  /** Who did it, in which scope, at what cost, and what else is told. */
  ghost predicate TellsRun(row: RunRow, e: AuditEvent) {
    var feedback, child := row.runType == "review-feedback", row.parentRunId.Some? && row.parentRunId.value != "";
    var finish := e.eventType == "run.completed" || e.eventType == "run.failed";
    && e.actor == (if feedback then "github-webhook" else if child then "pm-agent" else "linear-webhook")
    && e.actorType == (if !feedback && child then "pm-agent" else "webhook")
    && e.scope == (match row.linearTeamId
                   case None => Some("repo:" + row.repoUrl)
                   case Some(team) => Some(if team == "" then "repo:" + row.repoUrl else "team:" + team))
    && e.inputTokens == (if finish then row.totalInputTokens else 0) && e.outputTokens == (if finish then row.totalOutputTokens else 0)
    && (e.eventType == "run.started" ==> e.id == "proj_run_started_" + row.id && e.payload == Started(row.runType, row.repoUrl))
    && (e.eventType == "run.completed" ==> e.id == "proj_run_completed_" + row.id && e.payload == Empty)
    && (e.eventType == "run.failed" ==> e.id == "proj_run_failed_" + row.id && e.payload == Failed(row.errorMessage, row.status))
    && (e.eventType == "run.auto_merged" ==> e.id == "proj_run_auto_merged_" + row.id && e.payload == Reason(row.autoMergeReason))
    && (e.eventType == "run.auto_merge_skipped" ==> e.id == "proj_run_auto_merge_skipped_" + row.id && e.payload == Reason(row.autoMergeReason))
  }

  lemma RunEventsTell(row: RunRow)
    ensures forall e :: e in RunEvents(row) ==> TellsRun(row, e)
  {
    RunEventTypes(row);
    forall e | e in RunEvents(row)
      ensures TellsRun(row, e)
    {
      assert e == RunEvents(row)[0] || e in FinishEvents(row) || e in MergeEvents(row);
    }
  }

  lemma RunEventsProject(row: RunRow)
    ensures ProjectsRun(row, RunEvents(row))
  {
    RowIdsDiffer(row);
    RunEventTypes(row);
    var events := RunEvents(row);
    assert |FinishEvents(row)| <= 1 && |MergeEvents(row)| <= 1;
    if FinishEvents(row) != [] {
      assert FinishEvents(row)[0] in events;
    }
    if MergeEvents(row) != [] {
      assert MergeEvents(row)[0] in events;
    }
  }

  /** The five types differ in length. */
  lemma RunEventTypes(row: RunRow)
    ensures forall e :: e in RunEvents(row) ==>
              && (e == RunEvents(row)[0] <==> |e.eventType| == 11)
              && (e in FinishEvents(row) <==> |e.eventType| == 13 || |e.eventType| == 10)
              && (e in MergeEvents(row) <==> |e.eventType| == 15 || |e.eventType| == 22)
  {
    assert |"run.started"| == 11 && |"run.completed"| == 13 && |"run.failed"| == 10;
    assert |"run.auto_merged"| == 15 && |"run.auto_merge_skipped"| == 22;
  }

  method ProjectPipelineRun(row: RunRow) returns (events: seq<AuditEvent>)
    ensures events == RunEvents(row)
    ensures ProjectsRun(row, events) && forall e :: e in events ==> TellsRun(row, e)
  {
    RunEventsProject(row);
    RunEventsTell(row);
    events := [RunEvent(row, RUN_STARTED, row.startedAt, "run.started", 0, 0, Started(row.runType, row.repoUrl))];
    if row.completedAt.Some? && row.status == "completed" {
      events := events + [RunEvent(row, RUN_COMPLETED, row.completedAt.value, "run.completed", row.totalInputTokens, row.totalOutputTokens, Empty)];
    }
    if row.completedAt.Some? && (row.status == "failed" || row.status == "retriable") {
      events := events + [RunEvent(row, RUN_FAILED, row.completedAt.value, "run.failed", row.totalInputTokens, row.totalOutputTokens,
                                   Failed(row.errorMessage, row.status))];
    }
    if row.autoMerged == Some(true) {
      events := events + [RunEvent(row, RUN_MERGED, EndOf(row), "run.auto_merged", 0, 0, Reason(row.autoMergeReason))];
    } else if row.autoMerged == Some(false) && Truthy(row.autoMergeReason) {
      events := events + [RunEvent(row, RUN_SKIPPED, EndOf(row), "run.auto_merge_skipped", 0, 0, Reason(row.autoMergeReason))];
    }
  }

  function ApprovalEvent(row: ApprovalRow, prefix: string, timestamp: int, eventType: string, payload: Payload): AuditEvent {
    AuditEvent(prefix + row.id, timestamp, eventType, "pm-agent", "pm-agent", None, None, Some(row.issueId), 0, 0, payload)
  }

  function ApprovalEvents(row: ApprovalRow): seq<AuditEvent> {
    [ApprovalEvent(row, APPROVAL_REQUESTED, row.createdAt, "pm.approval_requested", Requested(row.id, row.action, row.reason))] +
    if row.resolvedAt.None? then []
    else [ApprovalEvent(row, APPROVAL_RESOLVED, row.resolvedAt.value, "pm.approval_resolved", Resolved(row.id, row.action, row.status))]
  }

  /** The event that an approval begins with. */
  function ApprovalRequested(row: ApprovalRow): AuditEvent {
    ApprovalEvents(row)[0]
  }

  function AlertEvent(row: AlertRow): AuditEvent {
    AuditEvent(BUDGET_ALERT + row.id, row.firedAt, "budget.alert_fired", "pm-agent", "pm-agent", Some(row.scope), None, None, 0, 0,
               Budget(row.threshold, row.date))
  }

  /** The events of an approval: its request, and its resolution once it has one, both by the agent and in no scope. */
  ghost predicate ProjectsApproval(row: ApprovalRow, events: seq<AuditEvent>) {
    && |events| == (if row.resolvedAt.Some? then 2 else 1)
    && (forall e :: e in events ==>
          && e.actor == "pm-agent" && e.actorType == "pm-agent" && e.scope.None? && e.runId.None? && e.issueId == Some(row.issueId)
          && e.inputTokens == 0 && e.outputTokens == 0)
    && events[0].id == "proj_approval_requested_" + row.id && events[0].eventType == "pm.approval_requested"
    && events[0].timestamp == row.createdAt && events[0].payload == Requested(row.id, row.action, row.reason)
    && (row.resolvedAt.Some? ==>
          && events[1].id == "proj_approval_resolved_" + row.id && events[1].eventType == "pm.approval_resolved"
          && events[1].timestamp == row.resolvedAt.value && events[1].payload == Resolved(row.id, row.action, row.status))
  }

  lemma ApprovalEventsProject(row: ApprovalRow)
    ensures ProjectsApproval(row, ApprovalEvents(row))
  {
    var events := ApprovalEvents(row);
    assert events[0] in events;
  }

  lemma AlertEventProjects(row: AlertRow)
    ensures var e := AlertEvent(row);
            && e.id == "proj_budget_alert_" + row.id && e.eventType == "budget.alert_fired" && e.timestamp == row.firedAt
            && e.actor == "pm-agent" && e.actorType == "pm-agent" && e.scope == Some(row.scope) && e.runId.None? && e.issueId.None?
            && e.inputTokens == 0 && e.outputTokens == 0 && e.payload == Budget(row.threshold, row.date)
  {
  }

  // ---------------------------------------------------------------- all events of a database

  function RunsEvents(rows: seq<RunRow>): seq<AuditEvent> {
    if rows == [] then [] else RunEvents(rows[0]) + RunsEvents(rows[1..])
  }

  function ApprovalsEvents(rows: seq<ApprovalRow>): seq<AuditEvent> {
    if rows == [] then [] else ApprovalEvents(rows[0]) + ApprovalsEvents(rows[1..])
  }

  function AlertsEvents(rows: seq<AlertRow>): seq<AuditEvent> {
    if rows == [] then [] else [AlertEvent(rows[0])] + AlertsEvents(rows[1..])
  }

  /** The list `merged`, for the rows that were fetched. */
  function Merged(db: Db): seq<AuditEvent> {
    db.native + RunsEvents(db.runs) + ApprovalsEvents(db.approvals) + AlertsEvents(db.alerts)
  }

  /** Where an event of `Merged` comes from. */
  ghost predicate FromRows(e: AuditEvent, db: Db) {
    || e in db.native
    || (exists r :: r in db.runs && e in RunEvents(r))
    || (exists a :: a in db.approvals && e in ApprovalEvents(a))
    || (exists a :: a in db.alerts && e == AlertEvent(a))
  }

  lemma {:induction false} RunsEventsFrom(rows: seq<RunRow>, e: AuditEvent)
    ensures e in RunsEvents(rows) <==> exists r :: r in rows && e in RunEvents(r)
  {
    if rows != [] {
      RunsEventsFrom(rows[1..], e);
      assert forall r :: r in rows <==> r == rows[0] || r in rows[1..];
    }
  }

  lemma {:induction false} ApprovalsEventsFrom(rows: seq<ApprovalRow>, e: AuditEvent)
    ensures e in ApprovalsEvents(rows) <==> exists r :: r in rows && e in ApprovalEvents(r)
  {
    if rows != [] {
      ApprovalsEventsFrom(rows[1..], e);
      assert forall r :: r in rows <==> r == rows[0] || r in rows[1..];
    }
  }

  lemma {:induction false} AlertsEventsFrom(rows: seq<AlertRow>, e: AuditEvent)
    ensures e in AlertsEvents(rows) <==> exists r :: r in rows && e == AlertEvent(r)
  {
    if rows != [] {
      AlertsEventsFrom(rows[1..], e);
      assert forall r :: r in rows <==> r == rows[0] || r in rows[1..];
    }
  }

  lemma MergedFrom(db: Db, e: AuditEvent)
    ensures e in Merged(db) <==> FromRows(e, db)
  {
    RunsEventsFrom(db.runs, e);
    ApprovalsEventsFrom(db.approvals, e);
    AlertsEventsFrom(db.alerts, e);
  }

  // ---------------------------------------------------------------- findAuditEventById

  function FindNative(rows: seq<AuditEvent>, id: string): Option<AuditEvent> {
    if rows == [] then None else if rows[0].id == id then Some(rows[0]) else FindNative(rows[1..], id)
  }

  function FindRun(rows: seq<RunRow>, id: string): Option<RunRow> {
    if rows == [] then None else if rows[0].id == id then Some(rows[0]) else FindRun(rows[1..], id)
  }

  function FindApproval(rows: seq<ApprovalRow>, id: string): Option<ApprovalRow> {
    if rows == [] then None else if rows[0].id == id then Some(rows[0]) else FindApproval(rows[1..], id)
  }

  function FindAlert(rows: seq<AlertRow>, id: string): Option<AlertRow> {
    if rows == [] then None else if rows[0].id == id then Some(rows[0]) else FindAlert(rows[1..], id)
  }

  function FromRun(db: Db, id: string, prefix: string): Option<AuditEvent>
    requires prefix <= id
  {
    match FindRun(db.runs, id[|prefix|..])
    case None => None
    case Some(row) => FindNative(RunEvents(row), id)
  }

  function FromApproval(db: Db, id: string, prefix: string): Option<AuditEvent>
    requires prefix <= id
  {
    match FindApproval(db.approvals, id[|prefix|..])
    case None => None
    case Some(row) => FindNative(ApprovalEvents(row), id)
  }

  function FindAuditEventById(db: Db, id: string): Option<AuditEvent> {
    if !(PROJ <= id) then FindNative(db.native, id)
    else if RUN_SKIPPED <= id then FromRun(db, id, RUN_SKIPPED)
    else if RUN_MERGED <= id then FromRun(db, id, RUN_MERGED)
    else if RUN_STARTED <= id then FromRun(db, id, RUN_STARTED)
    else if RUN_COMPLETED <= id then FromRun(db, id, RUN_COMPLETED)
    else if RUN_FAILED <= id then FromRun(db, id, RUN_FAILED)
    else if APPROVAL_REQUESTED <= id then FromApproval(db, id, APPROVAL_REQUESTED)
    else if APPROVAL_RESOLVED <= id then FromApproval(db, id, APPROVAL_RESOLVED)
    else if BUDGET_ALERT <= id then
      (match FindAlert(db.alerts, id[|BUDGET_ALERT|..])
       case None => None
       case Some(row) => Some(AlertEvent(row)))
    else None
  }

  /** Primary keys, and native ids that stay out of the reserved `proj_` name space. */
  ghost predicate Keyed(db: Db) {
    && (forall e, f :: e in db.native && f in db.native && e.id == f.id ==> e == f)
    && (forall r, s :: r in db.runs && s in db.runs && r.id == s.id ==> r == s)
    && (forall r, s :: r in db.approvals && s in db.approvals && r.id == s.id ==> r == s)
    && (forall r, s :: r in db.alerts && s in db.alerts && r.id == s.id ==> r == s)
    && (forall e :: e in db.native ==> !(PROJ <= e.id))
  }

  lemma {:induction false} FindNativeFinds(rows: seq<AuditEvent>, id: string)
    ensures match FindNative(rows, id)
            case Some(e) => e in rows && e.id == id
            case None => forall e :: e in rows ==> e.id != id
  {
    if rows != [] {
      FindNativeFinds(rows[1..], id);
    }
  }

  lemma {:induction false} FindRunFinds(rows: seq<RunRow>, id: string)
    ensures match FindRun(rows, id)
            case Some(e) => e in rows && e.id == id
            case None => forall e :: e in rows ==> e.id != id
  {
    if rows != [] {
      FindRunFinds(rows[1..], id);
    }
  }

  lemma {:induction false} FindApprovalFinds(rows: seq<ApprovalRow>, id: string)
    ensures match FindApproval(rows, id)
            case Some(e) => e in rows && e.id == id
            case None => forall e :: e in rows ==> e.id != id
  {
    if rows != [] {
      FindApprovalFinds(rows[1..], id);
    }
  }

  lemma {:induction false} FindAlertFinds(rows: seq<AlertRow>, id: string)
    ensures match FindAlert(rows, id)
            case Some(e) => e in rows && e.id == id
            case None => forall e :: e in rows ==> e.id != id
  {
    if rows != [] {
      FindAlertFinds(rows[1..], id);
    }
  }

  /** Two strings that differ at some index of a prefix are not in the prefix relation. */
  lemma Differs(p: string, q: string, k: nat, x: string)
    requires k < |p| && k < |q| && p[k] != q[k]
    ensures !(p <= q + x)
  {
    assert (q + x)[k] == q[k];
  }

  lemma Suffix(p: string, x: string)
    ensures p <= p + x && (p + x)[|p|..] == x
  {
  }

  /** No prefix of a later branch is shadowed by an earlier one: each id is decoded with the prefix it was made with. */
  lemma DecodesPrefix(db: Db, x: string)
    ensures FindAuditEventById(db, RUN_SKIPPED + x) == FromRun(db, RUN_SKIPPED + x, RUN_SKIPPED)
    ensures FindAuditEventById(db, RUN_MERGED + x) == FromRun(db, RUN_MERGED + x, RUN_MERGED)
    ensures FindAuditEventById(db, RUN_STARTED + x) == FromRun(db, RUN_STARTED + x, RUN_STARTED)
  {
    Suffix(RUN_SKIPPED, x);
    Suffix(RUN_MERGED, x);
    Suffix(RUN_STARTED, x);
    assert RUN_SKIPPED[19] == '_' && RUN_MERGED[19] == 'd';
    Differs(RUN_SKIPPED, RUN_MERGED, 19, x);
    assert RUN_SKIPPED[9] == 'a' == RUN_MERGED[9] && RUN_STARTED[9] == 's';
    Differs(RUN_SKIPPED, RUN_STARTED, 9, x);
    Differs(RUN_MERGED, RUN_STARTED, 9, x);
    assert PROJ <= RUN_SKIPPED && PROJ <= RUN_MERGED && PROJ <= RUN_STARTED;
  }

  lemma DecodesFinish(db: Db, x: string)
    ensures FindAuditEventById(db, RUN_COMPLETED + x) == FromRun(db, RUN_COMPLETED + x, RUN_COMPLETED)
    ensures FindAuditEventById(db, RUN_FAILED + x) == FromRun(db, RUN_FAILED + x, RUN_FAILED)
  {
    Suffix(RUN_COMPLETED, x);
    Suffix(RUN_FAILED, x);
    assert RUN_SKIPPED[9] == 'a' == RUN_MERGED[9] && RUN_STARTED[9] == 's' && RUN_COMPLETED[9] == 'c' && RUN_FAILED[9] == 'f';
    Differs(RUN_SKIPPED, RUN_COMPLETED, 9, x);
    Differs(RUN_MERGED, RUN_COMPLETED, 9, x);
    Differs(RUN_STARTED, RUN_COMPLETED, 9, x);
    Differs(RUN_SKIPPED, RUN_FAILED, 9, x);
    Differs(RUN_MERGED, RUN_FAILED, 9, x);
    Differs(RUN_STARTED, RUN_FAILED, 9, x);
    Differs(RUN_COMPLETED, RUN_FAILED, 9, x);
    assert PROJ <= RUN_COMPLETED && PROJ <= RUN_FAILED;
  }

  lemma NotARun(q: string, x: string)
    requires |q| > 5 && q[5] != 'r'
    ensures !(RUN_SKIPPED <= q + x) && !(RUN_MERGED <= q + x) && !(RUN_STARTED <= q + x) && !(RUN_COMPLETED <= q + x) && !(RUN_FAILED <= q + x)
  {
    assert RUN_SKIPPED[5] == RUN_MERGED[5] == RUN_STARTED[5] == RUN_COMPLETED[5] == RUN_FAILED[5] == 'r';
    Differs(RUN_SKIPPED, q, 5, x);
    Differs(RUN_MERGED, q, 5, x);
    Differs(RUN_STARTED, q, 5, x);
    Differs(RUN_COMPLETED, q, 5, x);
    Differs(RUN_FAILED, q, 5, x);
  }

  lemma DecodesOthers(db: Db, x: string)
    ensures FindAuditEventById(db, APPROVAL_REQUESTED + x) == FromApproval(db, APPROVAL_REQUESTED + x, APPROVAL_REQUESTED)
    ensures FindAuditEventById(db, APPROVAL_RESOLVED + x) == FromApproval(db, APPROVAL_RESOLVED + x, APPROVAL_RESOLVED)
    ensures FindAuditEventById(db, BUDGET_ALERT + x) ==
            match FindAlert(db.alerts, x) { case None => None case Some(row) => Some(AlertEvent(row)) }
  {
    Suffix(APPROVAL_REQUESTED, x);
    Suffix(APPROVAL_RESOLVED, x);
    Suffix(BUDGET_ALERT, x);
    assert APPROVAL_REQUESTED[5] == 'a' == APPROVAL_RESOLVED[5] && BUDGET_ALERT[5] == 'b';
    NotARun(APPROVAL_REQUESTED, x);
    NotARun(APPROVAL_RESOLVED, x);
    NotARun(BUDGET_ALERT, x);
    assert APPROVAL_REQUESTED[16] == 'q' && APPROVAL_RESOLVED[16] == 's';
    Differs(APPROVAL_REQUESTED, APPROVAL_RESOLVED, 16, x);
    Differs(APPROVAL_REQUESTED, BUDGET_ALERT, 5, x);
    Differs(APPROVAL_RESOLVED, BUDGET_ALERT, 5, x);
    assert PROJ <= APPROVAL_REQUESTED && PROJ <= APPROVAL_RESOLVED && PROJ <= BUDGET_ALERT;
  }

  const PREFIXES := {RUN_SKIPPED, RUN_MERGED, RUN_STARTED, RUN_COMPLETED, RUN_FAILED, APPROVAL_REQUESTED, APPROVAL_RESOLVED, BUDGET_ALERT}

  /** The eight prefixes are prefix-free, whatever row id follows. */
  lemma PrefixFree(p: string, q: string, x: string)
    requires p in PREFIXES && q in PREFIXES && p != q
    ensures !(p <= q + x)
  {
    assert RUN_SKIPPED[5] == RUN_MERGED[5] == RUN_STARTED[5] == RUN_COMPLETED[5] == RUN_FAILED[5] == 'r';
    assert RUN_SKIPPED[9] == 'a' == RUN_MERGED[9] && RUN_STARTED[9] == 's' && RUN_COMPLETED[9] == 'c' && RUN_FAILED[9] == 'f';
    assert RUN_SKIPPED[19] == '_' && RUN_MERGED[19] == 'd';
    assert APPROVAL_REQUESTED[5] == 'a' == APPROVAL_RESOLVED[5] && BUDGET_ALERT[5] == 'b';
    assert APPROVAL_REQUESTED[16] == 'q' && APPROVAL_RESOLVED[16] == 's';
    Differs(p, q, if p[5] != q[5] then 5 else if p[5] == 'a' then 16 else if p[9] != q[9] then 9 else 19, x);
  }

  /** Events of one row have different ids. */
  lemma RowIdsDiffer(row: RunRow)
    ensures forall e, f :: e in RunEvents(row) && f in RunEvents(row) && e.id == f.id ==> e == f
  {
    assert RUN_STARTED[9] == 's' && RUN_COMPLETED[9] == 'c' && RUN_FAILED[9] == 'f' && RUN_MERGED[9] == 'a' == RUN_SKIPPED[9];
    forall e | e in RunEvents(row)
      ensures |e.id| > 9 && (e.id[9] == 's' || e.id[9] == 'c' || e.id[9] == 'f' || e.id[9] == 'a')
      ensures e == RunEvents(row)[0] <==> e.id[9] == 's'
      ensures e in FinishEvents(row) <==> e.id[9] == 'c' || e.id[9] == 'f'
      ensures e in MergeEvents(row) <==> e.id[9] == 'a'
    {
    }
    assert |FinishEvents(row)| <= 1 && |MergeEvents(row)| <= 1;
  }

  lemma ApprovalIdsDiffer(row: ApprovalRow)
    ensures forall e, f :: e in ApprovalEvents(row) && f in ApprovalEvents(row) && e.id == f.id ==> e == f
  {
    assert APPROVAL_REQUESTED[16] == 'q' && APPROVAL_RESOLVED[16] == 's';
    assert forall e :: e in ApprovalEvents(row) ==> |e.id| > 16 && (e == ApprovalEvents(row)[0] <==> e.id[16] == 'q');
  }

  lemma RunEventFound(db: Db, row: RunRow, e: AuditEvent, prefix: string)
    requires Keyed(db) && row in db.runs && e in RunEvents(row) && e.id == prefix + row.id
    ensures prefix <= e.id && FromRun(db, e.id, prefix) == Some(e)
  {
    Suffix(prefix, row.id);
    FindRunFinds(db.runs, row.id);
    FindNativeFinds(RunEvents(row), e.id);
    RowIdsDiffer(row);
  }

  lemma ApprovalEventFound(db: Db, row: ApprovalRow, e: AuditEvent, prefix: string)
    requires Keyed(db) && row in db.approvals && e in ApprovalEvents(row) && e.id == prefix + row.id
    ensures prefix <= e.id && FromApproval(db, e.id, prefix) == Some(e)
  {
    Suffix(prefix, row.id);
    FindApprovalFinds(db.approvals, row.id);
    FindNativeFinds(ApprovalEvents(row), e.id);
    ApprovalIdsDiffer(row);
  }

  lemma RunPrefix(row: RunRow, e: AuditEvent) returns (prefix: string)
    requires e in RunEvents(row)
    ensures prefix in [RUN_STARTED, RUN_COMPLETED, RUN_FAILED, RUN_MERGED, RUN_SKIPPED] && e.id == prefix + row.id
  {
    if e in FinishEvents(row) {
      prefix := if row.status == "completed" then RUN_COMPLETED else RUN_FAILED;
    } else if e in MergeEvents(row) {
      prefix := if row.autoMerged == Some(true) then RUN_MERGED else RUN_SKIPPED;
    } else {
      prefix := RUN_STARTED;
    }
  }

  lemma RunEventFoundAgain(db: Db, r: RunRow, e: AuditEvent)
    requires Keyed(db) && r in db.runs && e in RunEvents(r) && e !in db.native
    ensures FindAuditEventById(db, e.id) == Some(e)
  {
    var prefix := RunPrefix(r, e);
    RunEventFound(db, r, e, prefix);
    DecodesPrefix(db, r.id);
    DecodesFinish(db, r.id);
  }

  lemma ApprovalEventFoundAgain(db: Db, a: ApprovalRow, e: AuditEvent)
    requires Keyed(db) && a in db.approvals && e in ApprovalEvents(a) && e !in db.native
    ensures FindAuditEventById(db, e.id) == Some(e)
  {
    var prefix := if e == ApprovalEvents(a)[0] then APPROVAL_REQUESTED else APPROVAL_RESOLVED;
    ApprovalEventFound(db, a, e, prefix);
    DecodesOthers(db, a.id);
  }

  /** Every event, native or projected, is found again unchanged by its id. */
  lemma FoundAgain(db: Db, e: AuditEvent)
    requires Keyed(db) && e in Merged(db)
    ensures FindAuditEventById(db, e.id) == Some(e)
  {
    MergedFrom(db, e);
    if e in db.native {
      FindNativeFinds(db.native, e.id);
    } else if r :| r in db.runs && e in RunEvents(r) {
      RunEventFoundAgain(db, r, e);
    } else if a :| a in db.approvals && e in ApprovalEvents(a) {
      ApprovalEventFoundAgain(db, a, e);
    } else {
      var a :| a in db.alerts && e == AlertEvent(a);
      DecodesOthers(db, a.id);
      FindAlertFinds(db.alerts, a.id);
    }
  }

  /** And nothing else is ever returned. */
  lemma FoundIsStored(db: Db, id: string)
    ensures match FindAuditEventById(db, id)
            case Some(e) => e in Merged(db) && e.id == id
            case None => true
  {
    FindNativeFinds(db.native, id);
    if FindAuditEventById(db, id).Some? {
      var e := FindAuditEventById(db, id).value;
      MergedFrom(db, e);
      if RUN_SKIPPED <= id {
        FromRunStored(db, id, RUN_SKIPPED);
      } else if RUN_MERGED <= id {
        FromRunStored(db, id, RUN_MERGED);
      } else if RUN_STARTED <= id {
        FromRunStored(db, id, RUN_STARTED);
      } else if RUN_COMPLETED <= id {
        FromRunStored(db, id, RUN_COMPLETED);
      } else if RUN_FAILED <= id {
        FromRunStored(db, id, RUN_FAILED);
      } else if APPROVAL_REQUESTED <= id {
        FromApprovalStored(db, id, APPROVAL_REQUESTED);
      } else if APPROVAL_RESOLVED <= id {
        FromApprovalStored(db, id, APPROVAL_RESOLVED);
      } else if BUDGET_ALERT <= id {
        FindAlertFinds(db.alerts, id[|BUDGET_ALERT|..]);
      }
    }
  }

  lemma FromRunStored(db: Db, id: string, prefix: string)
    requires prefix <= id
    ensures FromRun(db, id, prefix).Some? ==> FromRows(FromRun(db, id, prefix).value, db) && FromRun(db, id, prefix).value.id == id
  {
    FindRunFinds(db.runs, id[|prefix|..]);
    var r := FindRun(db.runs, id[|prefix|..]);
    if r.Some? {
      FindNativeFinds(RunEvents(r.value), id);
    }
  }

  lemma FromApprovalStored(db: Db, id: string, prefix: string)
    requires prefix <= id
    ensures FromApproval(db, id, prefix).Some? ==> FromRows(FromApproval(db, id, prefix).value, db) && FromApproval(db, id, prefix).value.id == id
  {
    FindApprovalFinds(db.approvals, id[|prefix|..]);
    var r := FindApproval(db.approvals, id[|prefix|..]);
    if r.Some? {
      FindNativeFinds(ApprovalEvents(r.value), id);
    }
  }

  /** The lookup inverts the id scheme in both directions, so ids are unique over all four sources. */
  lemma FindExact(db: Db, id: string, e: AuditEvent)
    requires Keyed(db)
    ensures FindAuditEventById(db, id) == Some(e) <==> e in Merged(db) && e.id == id
  {
    FoundIsStored(db, id);
    if e in Merged(db) && e.id == id {
      FoundAgain(db, e);
    }
  }
}
