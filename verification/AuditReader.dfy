/** Listing audit events page by page (packages/core/src/audit/reader.ts). */
module AuditReader {
  import opened Prelude
  import opened AuditProjection

  /** The full-text test `q` is a parameter: a predicate on events. */
  datatype Filters = Filters(
    from: Option<int>, to: Option<int>, scope: Option<string>, eventTypes: seq<string>,
    actor: Option<string>, runId: Option<string>, issueId: Option<string>, q: Option<AuditEvent -> bool>)

  datatype Cursor = Cursor(ts: int, id: string)

  // ---------------------------------------------------------------- the order of events

  /** `a < b` on JavaScript strings. */
  predicate StrLess(a: string, b: string) {
    if b == "" then false
    else if a == "" then true
    else a[0] < b[0] || (a[0] == b[0] && StrLess(a[1..], b[1..]))
  }

  lemma {:induction false} StrTotal(a: string, b: string)
    ensures StrLess(a, b) || a == b || StrLess(b, a)
    ensures !(StrLess(a, b) && StrLess(b, a)) && !StrLess(a, a)
  {
    if a != "" {
      StrTotal(a[1..], a[1..]);
      if b != "" {
        StrTotal(a[1..], b[1..]);
        assert a == [a[0]] + a[1..] && b == [b[0]] + b[1..];
      }
    }
  }

  lemma {:induction false} StrTransitive(a: string, b: string, c: string)
    requires StrLess(a, b) && StrLess(b, c)
    ensures StrLess(a, c)
  {
    if a != "" {
      if a[0] == b[0] == c[0] {
        StrTransitive(a[1..], b[1..], c[1..]);
      }
    }
  }

  /** Strictly earlier in the listing order reversed: older, or as old with a smaller id. */
  predicate Below(e: AuditEvent, ts: int, id: string) {
    e.timestamp < ts || (e.timestamp == ts && StrLess(e.id, id))
  }

  predicate Less(a: AuditEvent, b: AuditEvent) {
    Below(a, b.timestamp, b.id)
  }

  predicate BelowCursor(e: AuditEvent, cursor: Option<Cursor>) {
    cursor.None? || Below(e, cursor.value.ts, cursor.value.id)
  }

  ghost predicate Descending(es: seq<AuditEvent>) {
    forall i, j :: 0 <= i < j < |es| ==> Less(es[j], es[i])
  }

  lemma LessTransitive(a: AuditEvent, b: AuditEvent, c: AuditEvent)
    requires Less(a, b) && Less(b, c)
    ensures Less(a, c)
  {
    if a.timestamp == b.timestamp == c.timestamp {
      StrTransitive(a.id, b.id, c.id);
    }
  }

  lemma LessTotal(a: AuditEvent, b: AuditEvent)
    ensures a.id != b.id ==> Less(a, b) || Less(b, a)
    ensures !(Less(a, b) && Less(b, a)) && !Less(a, a)
  {
    StrTotal(a.id, b.id);
    StrTotal(a.id, a.id);
  }

  /** Dictionary order by character codes: a proper prefix comes first. */
  ghost predicate Before(a: string, b: string) {
    exists i :: 0 <= i <= |a| && i < |b| && a[..i] == b[..i] && (i == |a| || a[i] < b[i])
  }

  lemma {:induction false} LessIsBefore(a: string, b: string)
    ensures StrLess(a, b) <==> Before(a, b)
  {
    if b != "" && a == "" {
      assert a[..0] == b[..0];
    } else if a != "" && b != "" {
      LessIsBefore(a[1..], b[1..]);
      if i :| 0 <= i <= |a| && i < |b| && a[..i] == b[..i] && (i == |a| || a[i] < b[i]) {
        assert i > 0 ==> a[0] == a[..i][0] == b[..i][0] == b[0] && a[1..][..i - 1] == a[..i][1..] == b[..i][1..] == b[1..][..i - 1];
        if i > 0 {
          assert Before(a[1..], b[1..]);
        }
      }
      if StrLess(a, b) && a[0] == b[0] {
        var i :| 0 <= i <= |a[1..]| && i < |b[1..]| && a[1..][..i] == b[1..][..i] && (i == |a[1..]| || a[1..][i] < b[1..][i]);
        assert a[..i + 1] == [a[0]] + a[1..][..i] == b[..i + 1];
      } else if StrLess(a, b) {
        assert a[..0] == b[..0];
      }
    }
  }

  /** Newest first, and of the same time the greater id first. */
  ghost predicate NewestFirst(es: seq<AuditEvent>) {
    forall i, j :: 0 <= i < j < |es| ==>
      es[i].timestamp > es[j].timestamp || (es[i].timestamp == es[j].timestamp && Before(es[j].id, es[i].id))
  }

  lemma DescendingIsNewestFirst(es: seq<AuditEvent>)
    ensures Descending(es) <==> NewestFirst(es)
  {
    forall i, j | 0 <= i < j < |es|
      ensures StrLess(es[j].id, es[i].id) <==> Before(es[j].id, es[i].id)
    {
      LessIsBefore(es[j].id, es[i].id);
    }
  }

  // ---------------------------------------------------------------- filters

  predicate Passes(want: Option<string>, have: Option<string>) {
    !Truthy(want) || have == want
  }

  /** The conditions pushed into every time-bounded query. */
  predicate InTime(t: int, f: Filters, cursor: Option<Cursor>) {
    && (f.from.Some? ==> f.from.value <= t)
    && (f.to.Some? ==> t <= f.to.value)
    && (cursor.Some? ==> t <= cursor.value.ts)
  }

  predicate NativeFilter(e: AuditEvent, f: Filters) {
    && (f.from.Some? ==> f.from.value <= e.timestamp)
    && (f.to.Some? ==> e.timestamp <= f.to.value)
    && Passes(f.scope, e.scope)
    && (f.eventTypes != [] ==> e.eventType in f.eventTypes)
    && Passes(f.runId, e.runId) && Passes(f.issueId, e.issueId)
  }

  predicate NativeWhere(e: AuditEvent, f: Filters, cursor: Option<Cursor>) {
    NativeFilter(e, f) && (cursor.Some? ==> e.timestamp <= cursor.value.ts)
  }

  predicate RunWhere(r: RunRow, f: Filters, cursor: Option<Cursor>) {
    InTime(r.startedAt, f, cursor) && (Truthy(f.runId) ==> r.id == f.runId.value) && (Truthy(f.issueId) ==> r.issueId == f.issueId.value)
  }

  /** Approvals never have a scope, so the query is skipped when one is asked for. */
  predicate ApprovalWhere(r: ApprovalRow, f: Filters, cursor: Option<Cursor>) {
    !Truthy(f.scope) && InTime(r.createdAt, f, cursor)
  }

  predicate AlertWhere(r: AlertRow, f: Filters, cursor: Option<Cursor>) {
    InTime(r.firedAt, f, cursor) && (Truthy(f.scope) ==> r.scope == f.scope.value)
  }

  predicate StartsWith(s: string, p: string) { p <= s }

  predicate Matches(e: AuditEvent, f: Filters) {
    && NativeFilter(e, f)
    && (Truthy(f.actor) ==> StartsWith(e.actor, f.actor.value))
    && (f.q.Some? ==> f.q.value(e))
  }

  /** What the filters ask of an event; an empty string or list asks nothing. */
  ghost predicate Admits(e: AuditEvent, f: Filters) {
    && (f.from.Some? ==> e.timestamp >= f.from.value)
    && (f.to.Some? ==> e.timestamp <= f.to.value)
    && (f.eventTypes != [] ==> e.eventType in f.eventTypes)
    && (f.scope.Some? && f.scope.value != "" ==> e.scope == f.scope)
    && (f.runId.Some? && f.runId.value != "" ==> e.runId == f.runId)
    && (f.issueId.Some? && f.issueId.value != "" ==> e.issueId == f.issueId)
    && (f.actor.Some? ==> |f.actor.value| <= |e.actor| && e.actor[..|f.actor.value|] == f.actor.value)
    && (f.q.Some? ==> f.q.value(e))
  }

  lemma MatchesAdmitted(e: AuditEvent, f: Filters)
    ensures Matches(e, f) <==> Admits(e, f)
  {
    assert f.actor == Some("") ==> e.actor[..0] == "";
  }

  /** `merged.filter(...)`. */
  function Filter(es: seq<AuditEvent>, f: Filters, cursor: Option<Cursor>): seq<AuditEvent> {
    if es == [] then []
    else (if Matches(es[0], f) && BelowCursor(es[0], cursor) then [es[0]] else []) + Filter(es[1..], f, cursor)
  }

  function Insert(es: seq<AuditEvent>, e: AuditEvent): seq<AuditEvent> {
    if es == [] || Less(e, es[|es| - 1]) then es + [e] else Insert(es[..|es| - 1], e) + [es[|es| - 1]]
  }

  /** `filtered.sort(...)`: descending by (timestamp, id). */
  function Sort(es: seq<AuditEvent>): seq<AuditEvent> {
    if es == [] then [] else Insert(Sort(es[..|es| - 1]), es[|es| - 1])
  }

  /** The rows that the four queries returned. */
  type Fetched = Db

  function Page(fetched: Fetched, f: Filters, cursor: Option<Cursor>, limit: nat): (seq<AuditEvent>, Option<Cursor>)
    requires limit > 0
  {
    var filtered := Sort(Filter(Merged(fetched), f, cursor));
    if |filtered| > limit then
      (filtered[..limit], Some(Cursor(filtered[limit - 1].timestamp, filtered[limit - 1].id)))
    else (filtered, None)
  }

  // ---------------------------------------------------------------- what SQL may return

  /** `WHERE where ORDER BY key DESC LIMIT n`, rows of equal key in any order. */
  ghost predicate IsQuery<R(!new)>(rows: seq<R>, table: seq<R>, where: R -> bool, key: R -> int, n: nat) {
    && (forall i, j :: 0 <= i < j < |rows| ==> rows[i] != rows[j] && key(rows[i]) >= key(rows[j]))
    && (forall r :: r in rows ==> r in table && where(r))
    && |rows| <= n
    && (forall r :: r in table && where(r) && r !in rows ==> |rows| == n && forall s :: s in rows ==> key(s) >= key(r))
  }

  ghost predicate IsFetch(db: Db, fetched: Fetched, f: Filters, cursor: Option<Cursor>, limit: nat) {
    && IsQuery(fetched.native, db.native, (e: AuditEvent) => NativeWhere(e, f, cursor), (e: AuditEvent) => e.timestamp, 4 * limit)
    && IsQuery(fetched.runs, db.runs, (r: RunRow) => RunWhere(r, f, cursor), (r: RunRow) => r.startedAt, 4 * limit)
    && IsQuery(fetched.approvals, db.approvals, (r: ApprovalRow) => ApprovalWhere(r, f, cursor), (r: ApprovalRow) => r.createdAt, 4 * limit)
    && IsQuery(fetched.alerts, db.alerts, (r: AlertRow) => AlertWhere(r, f, cursor), (r: AlertRow) => r.firedAt, 4 * limit)
  }

  /** The rows are those of the table with `where`, but for older ones beyond the first `n`. */
  ghost predicate Newest<R(!new)>(rows: seq<R>, table: seq<R>, where: R -> bool, key: R -> int, n: nat) {
    && |rows| <= n
    && (forall r :: r in rows ==> r in table && where(r))
    && (forall r :: r in table && where(r) && r !in rows ==> |rows| == n && forall s :: s in rows ==> key(s) >= key(r))
  }

  /** What the queries ask of their rows: every filter that a column can answer, and no approval at all when a scope is asked. */
  lemma NativeFetchMeans(db: Db, fetched: Fetched, f: Filters, cursor: Option<Cursor>, limit: nat)
    requires IsFetch(db, fetched, f, cursor, limit)
    ensures Newest(fetched.native, db.native, (e: AuditEvent) =>
              Admits(e, f.(actor := None, q := None)) && (cursor.Some? ==> e.timestamp <= cursor.value.ts), (e: AuditEvent) => e.timestamp, 4 * limit)
  {
    forall e
      ensures NativeWhere(e, f, cursor) <==> Admits(e, f.(actor := None, q := None)) && (cursor.Some? ==> e.timestamp <= cursor.value.ts)
    {
      assert NativeFilter(e, f) <==> NativeFilter(e, f.(actor := None, q := None));
      MatchesAdmitted(e, f.(actor := None, q := None));
    }
  }

  lemma RunFetchMeans(db: Db, fetched: Fetched, f: Filters, cursor: Option<Cursor>, limit: nat)
    requires IsFetch(db, fetched, f, cursor, limit)
    ensures Newest(fetched.runs, db.runs, (r: RunRow) =>
              && (f.from.Some? ==> f.from.value <= r.startedAt) && (f.to.Some? ==> r.startedAt <= f.to.value)
              && (cursor.Some? ==> r.startedAt <= cursor.value.ts)
              && (f.runId.Some? && f.runId.value != "" ==> r.id == f.runId.value)
              && (f.issueId.Some? && f.issueId.value != "" ==> r.issueId == f.issueId.value), (r: RunRow) => r.startedAt, 4 * limit)
  {
  }

  lemma ApprovalFetchMeans(db: Db, fetched: Fetched, f: Filters, cursor: Option<Cursor>, limit: nat)
    requires IsFetch(db, fetched, f, cursor, limit)
    ensures Newest(fetched.approvals, db.approvals, (r: ApprovalRow) =>
              && (f.scope.None? || f.scope.value == "")
              && (f.from.Some? ==> f.from.value <= r.createdAt) && (f.to.Some? ==> r.createdAt <= f.to.value)
              && (cursor.Some? ==> r.createdAt <= cursor.value.ts), (r: ApprovalRow) => r.createdAt, 4 * limit)
  {
  }

  lemma AlertFetchMeans(db: Db, fetched: Fetched, f: Filters, cursor: Option<Cursor>, limit: nat)
    requires IsFetch(db, fetched, f, cursor, limit)
    ensures Newest(fetched.alerts, db.alerts, (r: AlertRow) =>
              && (f.from.Some? ==> f.from.value <= r.firedAt) && (f.to.Some? ==> r.firedAt <= f.to.value)
              && (cursor.Some? ==> r.firedAt <= cursor.value.ts)
              && (f.scope.Some? && f.scope.value != "" ==> r.scope == f.scope.value), (r: AlertRow) => r.firedAt, 4 * limit)
  {
  }

  // ---------------------------------------------------------------- filter and sort

  lemma {:induction false} FilterKeeps(es: seq<AuditEvent>, f: Filters, cursor: Option<Cursor>)
    ensures forall e :: e in Filter(es, f, cursor) <==> e in es && Admits(e, f) && BelowCursor(e, cursor)
  {
    if es != [] {
      MatchesAdmitted(es[0], f);
      FilterKeeps(es[1..], f, cursor);
      assert forall e :: e in es <==> e == es[0] || e in es[1..];
    }
  }

  ghost predicate DistinctIds(es: seq<AuditEvent>) {
    forall i, j :: 0 <= i < j < |es| ==> es[i].id != es[j].id
  }

  lemma {:induction false} FilterDistinct(es: seq<AuditEvent>, f: Filters, cursor: Option<Cursor>)
    requires DistinctIds(es)
    ensures DistinctIds(Filter(es, f, cursor))
  {
    if es != [] {
      FilterDistinct(es[1..], f, cursor);
      FilterKeeps(es[1..], f, cursor);
      forall e | e in es[1..]
        ensures e.id != es[0].id
      {
        var j :| 1 <= j < |es| && es[j] == e;
      }
    }
  }

  lemma {:induction false} InsertFacts(es: seq<AuditEvent>, e: AuditEvent)
    requires Descending(es) && forall x :: x in es ==> x.id != e.id
    ensures |Insert(es, e)| == |es| + 1
    ensures forall x :: x in Insert(es, e) <==> x in es || x == e
    ensures Descending(Insert(es, e))
  {
    if es != [] {
      var init, last := es[..|es| - 1], es[|es| - 1];
      assert es == init + [last];
      assert forall x :: x in es <==> x in init || x == last;
      LessTotal(e, last);
      if Less(e, last) {
        forall i | 0 <= i < |es|
          ensures Less(e, es[i])
        {
          if i < |es| - 1 {
            LessTransitive(e, last, es[i]);
          }
        }
      } else {
        InsertFacts(init, e);
        var r := Insert(init, e);
        forall i | 0 <= i < |r|
          ensures Less(last, r[i])
        {
          assert r[i] in r;
          if r[i] != e {
            var j :| 0 <= j < |init| && init[j] == r[i];
          }
        }
      }
    }
  }

  lemma {:induction false} SortFacts(es: seq<AuditEvent>)
    requires DistinctIds(es)
    ensures |Sort(es)| == |es|
    ensures forall x :: x in Sort(es) <==> x in es
    ensures Descending(Sort(es))
  {
    if es != [] {
      var init, last := es[..|es| - 1], es[|es| - 1];
      assert es == init + [last];
      SortFacts(init);
      InsertFacts(Sort(init), last);
    }
  }

  // ---------------------------------------------------------------- one page, any truncation

  /** An event the filters and the cursor admit, from any row of the database. */
  ghost predicate Remaining(e: AuditEvent, db: Db, f: Filters, cursor: Option<Cursor>) {
    e in Merged(db) && Admits(e, f) && BelowCursor(e, cursor)
  }

  lemma FetchedMerge(db: Db, fetched: Fetched, f: Filters, cursor: Option<Cursor>, limit: nat, e: AuditEvent)
    requires IsFetch(db, fetched, f, cursor, limit) && e in Merged(fetched)
    ensures e in Merged(db)
  {
    MergedFrom(fetched, e);
    MergedFrom(db, e);
  }

  ghost predicate NoRepeats<R(!new)>(rows: seq<R>) {
    forall i, j :: 0 <= i < j < |rows| ==> rows[i] != rows[j]
  }

  ghost predicate Distinct(db: Db) {
    NoRepeats(db.native) && NoRepeats(db.runs) && NoRepeats(db.approvals) && NoRepeats(db.alerts)
  }

  lemma SameIdSameEvent(db: Db, e: AuditEvent, g: AuditEvent)
    requires Keyed(db) && e in Merged(db) && g in Merged(db) && e.id == g.id
    ensures e == g
  {
    FindExact(db, e.id, e);
    FindExact(db, e.id, g);
  }

  lemma ConcatDistinct(db: Db, a: seq<AuditEvent>, b: seq<AuditEvent>)
    requires Keyed(db) && forall e :: e in a || e in b ==> e in Merged(db)
    requires DistinctIds(a) && DistinctIds(b)
    requires forall e, g :: e in a && g in b ==> e != g
    ensures DistinctIds(a + b)
  {
    forall i, j | 0 <= i < |a| && 0 <= j < |b|
      ensures a[i].id != b[j].id
    {
      if a[i].id == b[j].id {
        assert a[i] in a && b[j] in b;
        SameIdSameEvent(db, a[i], b[j]);
      }
    }
  }

  lemma RowDistinct(row: RunRow)
    ensures DistinctIds(RunEvents(row))
  {
    assert RUN_STARTED[9] == 's' && RUN_COMPLETED[9] == 'c' && RUN_FAILED[9] == 'f' && RUN_MERGED[9] == 'a' == RUN_SKIPPED[9];
    var es := RunEvents(row);
    var k := 1 + |FinishEvents(row)|;
    assert es[0].id[9] == 's';
    assert forall i :: 1 <= i < k ==> es[i].id[9] == 'c' || es[i].id[9] == 'f';
    assert forall i :: k <= i < |es| ==> es[i].id[9] == 'a';
    assert k <= 2 && |es| <= k + 1;
  }

  lemma {:induction false} RunsDistinct(db: Db, rows: seq<RunRow>)
    requires Keyed(db) && NoRepeats(rows) && forall r :: r in rows ==> r in db.runs
    ensures DistinctIds(RunsEvents(rows))
  {
    if rows != [] {
      RunsDistinct(db, rows[1..]);
      RowDistinct(rows[0]);
      RunsOfRows(db, [rows[0]]);
      RunsOfRows(db, rows[1..]);
      assert RunsEvents([rows[0]]) == RunEvents(rows[0]);
      assert forall r :: r in rows[1..] ==> r.id != rows[0].id;
      ConcatDistinct(db, RunEvents(rows[0]), RunsEvents(rows[1..]));
    }
  }

  lemma RunsOfRows(db: Db, rows: seq<RunRow>)
    requires forall r :: r in rows ==> r in db.runs
    ensures forall e :: e in RunsEvents(rows) ==> e in Merged(db) && e.runId.Some? && exists r :: r in rows && r.id == e.runId.value
  {
    forall e | e in RunsEvents(rows)
      ensures e in Merged(db) && e.runId.Some? && exists r :: r in rows && r.id == e.runId.value
    {
      RunsEventsFrom(rows, e);
      var r :| r in rows && e in RunEvents(r);
      MergedFrom(db, e);
      RunIdOf(r, e);
    }
  }

  lemma RunIdOf(row: RunRow, e: AuditEvent)
    requires e in RunEvents(row)
    ensures e.runId == Some(row.id)
  {
  }

  lemma {:induction false} ApprovalsDistinct(db: Db, rows: seq<ApprovalRow>)
    requires Keyed(db) && NoRepeats(rows) && forall r :: r in rows ==> r in db.approvals
    ensures DistinctIds(ApprovalsEvents(rows))
  {
    if rows != [] {
      ApprovalsDistinct(db, rows[1..]);
      ApprovalRowDistinct(rows[0]);
      ApprovalsOfRows(db, [rows[0]]);
      ApprovalsOfRows(db, rows[1..]);
      assert ApprovalsEvents([rows[0]]) == ApprovalEvents(rows[0]);
      assert forall r :: r in rows[1..] ==> r.id != rows[0].id;
      ConcatDistinct(db, ApprovalEvents(rows[0]), ApprovalsEvents(rows[1..]));
    }
  }

  lemma ApprovalRowDistinct(row: ApprovalRow)
    ensures DistinctIds(ApprovalEvents(row))
  {
    assert APPROVAL_REQUESTED[16] == 'q' && APPROVAL_RESOLVED[16] == 's';
    var es := ApprovalEvents(row);
    assert es[0].id[16] == 'q' && (|es| > 1 ==> |es| == 2 && es[1].id[16] == 's');
  }

  lemma ApprovalsOfRows(db: Db, rows: seq<ApprovalRow>)
    requires forall r :: r in rows ==> r in db.approvals
    ensures forall e :: e in ApprovalsEvents(rows) ==>
              e in Merged(db) && e.runId.None? && e.scope.None? && exists r :: r in rows && ApprovalOf(e) == Some(r.id)
  {
    forall e | e in ApprovalsEvents(rows)
      ensures e in Merged(db) && e.runId.None? && e.scope.None? && exists r :: r in rows && ApprovalOf(e) == Some(r.id)
    {
      ApprovalsEventsFrom(rows, e);
      var r :| r in rows && e in ApprovalEvents(r);
      MergedFrom(db, e);
      assert ApprovalOf(e) == Some(r.id);
    }
  }

  function ApprovalOf(e: AuditEvent): Option<string> {
    match e.payload
    case Requested(id, _, _) => Some(id)
    case Resolved(id, _, _) => Some(id)
    case _ => None
  }

  lemma {:induction false} AlertsDistinct(db: Db, rows: seq<AlertRow>)
    requires Keyed(db) && NoRepeats(rows) && forall r :: r in rows ==> r in db.alerts
    ensures DistinctIds(AlertsEvents(rows))
    ensures forall e :: e in AlertsEvents(rows) ==> e in Merged(db) && e.runId.None? && e.scope.Some?
  {
    if rows != [] {
      var a, b := [AlertEvent(rows[0])], AlertsEvents(rows[1..]);
      AlertsDistinct(db, rows[1..]);
      MergedFrom(db, a[0]);
      forall g | g in b
        ensures g.id != a[0].id
      {
        OtherAlert(db, rows, g);
      }
    }
  }

  lemma OtherAlert(db: Db, rows: seq<AlertRow>, g: AuditEvent)
    requires Keyed(db) && NoRepeats(rows) && (forall r :: r in rows ==> r in db.alerts) && rows != [] && g in AlertsEvents(rows[1..])
    ensures g.id != AlertEvent(rows[0]).id
  {
    AlertsEventsFrom(rows[1..], g);
    var r :| r in rows[1..] && g == AlertEvent(r);
    var j :| 1 <= j < |rows| && rows[j] == r;
    assert rows[0] in rows && rows[0] != rows[j] && rows[0].id != r.id;
    Suffix(BUDGET_ALERT, r.id);
    Suffix(BUDGET_ALERT, rows[0].id);
  }

  lemma {:induction false} NativeDistinct(rows: seq<AuditEvent>)
    requires NoRepeats(rows) && forall e, g :: e in rows && g in rows && e.id == g.id ==> e == g
    ensures DistinctIds(rows)
  {
    forall i, j | 0 <= i < j < |rows|
      ensures rows[i].id != rows[j].id
    {
      assert rows[i] in rows && rows[j] in rows;
    }
  }

  lemma RunIdReserved(row: RunRow, g: AuditEvent)
    requires g in RunEvents(row)
    ensures PROJ <= g.id
  {
    var prefix := RunPrefix(row, g);
    assert PROJ <= prefix;
    Suffix(prefix, row.id);
  }

  lemma ApprovalIdReserved(row: ApprovalRow, g: AuditEvent)
    requires g in ApprovalEvents(row)
    ensures PROJ <= g.id
  {
    assert PROJ <= APPROVAL_REQUESTED && PROJ <= APPROVAL_RESOLVED;
  }

  lemma NativeApart(db: Db, e: AuditEvent, g: AuditEvent)
    requires Keyed(db) && e in db.native
    requires g in RunsEvents(db.runs) || g in ApprovalsEvents(db.approvals) || g in AlertsEvents(db.alerts)
    ensures e != g
  {
    RunsEventsFrom(db.runs, g);
    ApprovalsEventsFrom(db.approvals, g);
    AlertsEventsFrom(db.alerts, g);
    if r :| r in db.runs && g in RunEvents(r) {
      RunIdReserved(r, g);
    } else if a :| a in db.approvals && g in ApprovalEvents(a) {
      ApprovalIdReserved(a, g);
    } else {
      assert PROJ <= BUDGET_ALERT;
    }
  }

  /** Ids are unique over all four sources, because each table is keyed and the prefixes decode. */
  lemma MergedDistinct(db: Db)
    requires Keyed(db) && Distinct(db)
    ensures DistinctIds(Merged(db))
  {
    var a, b, c, d := db.native, RunsEvents(db.runs), ApprovalsEvents(db.approvals), AlertsEvents(db.alerts);
    NativeDistinct(a);
    RunsDistinct(db, db.runs);
    RunsOfRows(db, db.runs);
    ApprovalsDistinct(db, db.approvals);
    ApprovalsOfRows(db, db.approvals);
    AlertsDistinct(db, db.alerts);
    assert forall e :: e in a ==> e in Merged(db);
    forall e, g | e in a && (g in b || g in c || g in d)
      ensures e != g
    {
      NativeApart(db, e, g);
    }
    ConcatDistinct(db, a, b);
    ConcatDistinct(db, a + b, c);
    ConcatDistinct(db, a + b + c, d);
  }

  lemma FetchedKeyed(db: Db, fetched: Fetched, f: Filters, cursor: Option<Cursor>, limit: nat)
    requires IsFetch(db, fetched, f, cursor, limit) && Keyed(db)
    ensures Keyed(fetched) && Distinct(fetched)
  {
  }

  /** `filtered`, sorted: the admitted events of the fetched rows, in strictly descending order. */
  lemma SortedFilter(db: Db, fetched: Fetched, f: Filters, cursor: Option<Cursor>, limit: nat)
    requires Keyed(db) && IsFetch(db, fetched, f, cursor, limit)
    ensures var filtered := Sort(Filter(Merged(fetched), f, cursor));
            && Descending(filtered)
            && (forall e :: e in filtered <==> e in Merged(fetched) && Admits(e, f) && BelowCursor(e, cursor))
            && (forall e :: e in filtered ==> Remaining(e, db, f, cursor))
  {
    FetchedKeyed(db, fetched, f, cursor, limit);
    MergedDistinct(fetched);
    FilterDistinct(Merged(fetched), f, cursor);
    FilterKeeps(Merged(fetched), f, cursor);
    SortFacts(Filter(Merged(fetched), f, cursor));
    forall e | e in Merged(fetched)
      ensures e in Merged(db)
    {
      FetchedMerge(db, fetched, f, cursor, limit, e);
    }
  }

  /**
   * Whatever the queries truncate, a page is strictly descending, holds only events that the filters and
   * the cursor admit, and its next cursor, if any, is its last event.
   */
  lemma PageSafe(db: Db, fetched: Fetched, f: Filters, cursor: Option<Cursor>, limit: nat)
    requires Keyed(db) && limit > 0 && IsFetch(db, fetched, f, cursor, limit)
    ensures var (page, next) := Page(fetched, f, cursor, limit);
            && Descending(page) && NewestFirst(page) && |page| <= limit
            && (forall e :: e in page ==> Remaining(e, db, f, cursor))
            && (next.Some? ==> |page| == limit && next.value == Cursor(page[limit - 1].timestamp, page[limit - 1].id))
  {
    SortedFilter(db, fetched, f, cursor, limit);
    DescendingIsNewestFirst(Page(fetched, f, cursor, limit).0);
  }
}
