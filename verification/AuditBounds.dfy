/** How much of the four tables a page may leave unread: bounds under which a row that was cut off is older than the whole page. */
module AuditBounds {
  import opened Prelude
  import opened AuditProjection
  import opened AuditReader

  // ---------------------------------------------------------------- hypotheses

  /** The native rows the filters admit that share one timestamp. */
  function Ties(db: Db, f: Filters, t: int): set<AuditEvent> {
    set e | e in db.native && NativeFilter(e, f) && e.timestamp == t
  }

  ghost predicate TieBound(db: Db, f: Filters, limit: nat) {
    forall t :: 2 * |Ties(db, f, t)| <= 3 * limit + 1
  }

  /** Every filter is one that the native query can apply itself. */
  predicate FiltersInSql(f: Filters) {
    !Truthy(f.actor) && f.q.None?
  }

  /** The runs that SQL admits which began between two times, both included. */
  function RunsBetween(db: Db, f: Filters, lo: int, hi: int): set<RunRow> {
    set r | r in db.runs && RunWhere(r, f, None) && lo <= r.startedAt <= hi
  }

  function ApprovalsBetween(db: Db, f: Filters, lo: int, hi: int): set<ApprovalRow> {
    set r | r in db.approvals && ApprovalWhere(r, f, None) && lo <= r.createdAt <= hi
  }

  function AlertsBetween(db: Db, f: Filters, lo: int, hi: int): set<AlertRow> {
    set r | r in db.alerts && AlertWhere(r, f, None) && lo <= r.firedAt <= hi
  }

  /**
   * For an event of a run to be shown although the run may be cut off: not too many runs began from that run's start to the
   * event, and each run that SQL admits has a first event that the filters admit.
   */
  ghost predicate RunCovered(db: Db, f: Filters, limit: nat, r: RunRow, e: AuditEvent) {
    && 2 * |RunsBetween(db, f, r.startedAt, e.timestamp)| <= 3 * limit + 1
    && forall s :: s in db.runs && RunWhere(s, f, None) ==> Admits(RunStarted(s), f)
  }

  ghost predicate ApprovalCovered(db: Db, f: Filters, limit: nat, r: ApprovalRow, e: AuditEvent) {
    && 2 * |ApprovalsBetween(db, f, r.createdAt, e.timestamp)| <= 3 * limit + 1
    && forall s :: s in db.approvals && ApprovalWhere(s, f, None) ==> Admits(ApprovalRequested(s), f)
  }

  ghost predicate AlertCovered(db: Db, f: Filters, limit: nat, r: AlertRow) {
    && 2 * |AlertsBetween(db, f, r.firedAt, r.firedAt)| <= 3 * limit + 1
    && forall s :: s in db.alerts && AlertWhere(s, f, None) ==> Admits(AlertEvent(s), f)
  }

  /** Each projected table fits one fetch, or each of its events to be shown is covered. */
  ghost predicate RunsBound(db: Db, f: Filters, limit: nat) {
    || |set r | r in db.runs && RunWhere(r, f, None)| <= 4 * limit
    || forall r, e :: r in db.runs && RunWhere(r, f, None) && e in RunEvents(r) && Admits(e, f) ==> RunCovered(db, f, limit, r, e)
  }

  ghost predicate ApprovalsBound(db: Db, f: Filters, limit: nat) {
    || |set r | r in db.approvals && ApprovalWhere(r, f, None)| <= 4 * limit
    || forall r, e :: r in db.approvals && ApprovalWhere(r, f, None) && e in ApprovalEvents(r) && Admits(e, f) ==> ApprovalCovered(db, f, limit, r, e)
  }

  ghost predicate AlertsBound(db: Db, f: Filters, limit: nat) {
    || |set r | r in db.alerts && AlertWhere(r, f, None)| <= 4 * limit
    || forall r :: r in db.alerts && AlertWhere(r, f, None) && Admits(AlertEvent(r), f) ==> AlertCovered(db, f, limit, r)
  }

  ghost predicate ProjectedBound(db: Db, f: Filters, limit: nat) {
    RunsBound(db, f, limit) && ApprovalsBound(db, f, limit) && AlertsBound(db, f, limit)
  }

  /** A row is selected by the time it was created, so its later events must not be older than that. */
  ghost predicate RowsPrecedeEvents(db: Db) {
    && (forall r :: r in db.runs && r.completedAt.Some? ==> r.startedAt <= r.completedAt.value)
    && (forall r :: r in db.approvals && r.resolvedAt.Some? ==> r.createdAt <= r.resolvedAt.value)
  }

  /** For the same reason no row created before `from` may have an event that the filters admit. */
  ghost predicate NoneStraddles(db: Db, f: Filters) {
    f.from.Some? ==>
      && (forall r, e :: r in db.runs && r.startedAt < f.from.value && e in RunEvents(r) ==> !Admits(e, f))
      && (forall r, e :: r in db.approvals && r.createdAt < f.from.value && e in ApprovalEvents(r) ==> !Admits(e, f))
  }

  /** The native query is never cut off at all. */
  ghost predicate NativeFits(db: Db, f: Filters, limit: nat) {
    |set e | e in db.native && NativeFilter(e, f)| <= 4 * limit
  }

  ghost predicate Bounds(db: Db, f: Filters, limit: nat) {
    && ProjectedBound(db, f, limit) && RowsPrecedeEvents(db)
    && (NativeFits(db, f, limit) || (FiltersInSql(f) && TieBound(db, f, limit)))
  }

  ghost predicate Fits(db: Db, f: Filters, limit: nat) {
    Bounds(db, f, limit) && NoneStraddles(db, f)
  }

  // ---------------------------------------------------------------- where a missing event comes from

  lemma {:induction false} SeqSetSize<R>(rows: seq<R>)
    requires forall i, j :: 0 <= i < j < |rows| ==> rows[i] != rows[j]
    ensures |set r | r in rows| == |rows|
  {
    if rows == [] {
      assert (set r | r in rows) == {};
    } else {
      var init, last := rows[..|rows| - 1], rows[|rows| - 1];
      SeqSetSize(init);
      assert (set r | r in rows) == (set r | r in init) + {last};
    }
  }

  lemma {:induction false} SubsetSize<R>(a: set<R>, b: set<R>)
    requires a <= b
    ensures |a| <= |b|
  {
    if a != {} {
      var x :| x in a;
      SubsetSize(a - {x}, b - {x});
    }
  }

  lemma NothingDropped<R(!new)>(rows: seq<R>, table: seq<R>, where: R -> bool, key: R -> int, n: nat, all: set<R>, r: R)
    requires IsQuery(rows, table, where, key, n)
    requires |all| <= n && forall s :: s in table && where(s) ==> s in all
    requires r in table && where(r)
    ensures r in rows
  {
    if r !in rows {
      SeqSetSize(rows);
      var got := (set s | s in rows) + {r};
      SubsetSize(got, all);
    }
  }

  /** An event that a fetch misses comes from a row that its query selected and cut off. */
  lemma MissingIsCutOff(db: Db, fetched: Fetched, f: Filters, cursor: Option<Cursor>, limit: nat, e: AuditEvent)
    requires IsFetch(db, fetched, f, cursor, limit) && RowsPrecedeEvents(db) && NoneStraddles(db, f)
    requires Remaining(e, db, f, cursor) && e !in Merged(fetched)
    ensures || (e in db.native && NativeWhere(e, f, cursor) && e !in fetched.native)
            || (exists r :: r in db.runs && RunWhere(r, f, cursor) && r !in fetched.runs && e in RunEvents(r))
            || (exists r :: r in db.approvals && ApprovalWhere(r, f, cursor) && r !in fetched.approvals && e in ApprovalEvents(r))
            || (exists r :: r in db.alerts && AlertWhere(r, f, cursor) && r !in fetched.alerts && e == AlertEvent(r))
  {
    MergedFrom(db, e);
    if e in db.native {
      NotNative(fetched, e);
      NativeSelected(f, cursor, e);
    } else if r :| r in db.runs && e in RunEvents(r) {
      RunSelected(db, f, cursor, r, e);
      NotOfRun(fetched, r, e);
    } else if a :| a in db.approvals && e in ApprovalEvents(a) {
      ApprovalSelected(db, f, cursor, a, e);
      NotOfApproval(fetched, a, e);
    } else {
      var a :| a in db.alerts && e == AlertEvent(a);
      NotOfAlert(fetched, a, e);
      AlertSelected(f, cursor, a);
    }
  }

  lemma NotNative(fetched: Fetched, e: AuditEvent)
    requires e !in Merged(fetched)
    ensures e !in fetched.native
  {
    MergedFrom(fetched, e);
  }

  lemma NotOfRun(fetched: Fetched, r: RunRow, e: AuditEvent)
    requires e !in Merged(fetched) && e in RunEvents(r)
    ensures r !in fetched.runs
  {
    MergedFrom(fetched, e);
  }

  lemma NotOfApproval(fetched: Fetched, r: ApprovalRow, e: AuditEvent)
    requires e !in Merged(fetched) && e in ApprovalEvents(r)
    ensures r !in fetched.approvals
  {
    MergedFrom(fetched, e);
  }

  lemma NotOfAlert(fetched: Fetched, r: AlertRow, e: AuditEvent)
    requires e !in Merged(fetched) && e == AlertEvent(r)
    ensures r !in fetched.alerts
  {
    MergedFrom(fetched, e);
  }

  lemma NativeSelected(f: Filters, cursor: Option<Cursor>, e: AuditEvent)
    requires Admits(e, f) && BelowCursor(e, cursor)
    ensures NativeWhere(e, f, cursor)
  {
  }

  lemma AlertSelected(f: Filters, cursor: Option<Cursor>, r: AlertRow)
    requires Admits(AlertEvent(r), f) && BelowCursor(AlertEvent(r), cursor)
    ensures AlertWhere(r, f, cursor)
  {
  }

  lemma RunSelected(db: Db, f: Filters, cursor: Option<Cursor>, r: RunRow, e: AuditEvent)
    requires RowsPrecedeEvents(db) && NoneStraddles(db, f) && r in db.runs && e in RunEvents(r)
    requires Admits(e, f) && BelowCursor(e, cursor)
    ensures RunWhere(r, f, cursor)
  {
    RunEventTimes(r, e);
  }

  lemma ApprovalSelected(db: Db, f: Filters, cursor: Option<Cursor>, r: ApprovalRow, e: AuditEvent)
    requires RowsPrecedeEvents(db) && NoneStraddles(db, f) && r in db.approvals && e in ApprovalEvents(r)
    requires Admits(e, f) && BelowCursor(e, cursor)
    ensures ApprovalWhere(r, f, cursor)
  {
  }

  lemma RunEventTimes(r: RunRow, e: AuditEvent)
    requires e in RunEvents(r)
    ensures e.timestamp == r.startedAt || (r.completedAt.Some? && e.timestamp == r.completedAt.value)
    ensures e.runId == Some(r.id) && e.issueId == Some(r.issueId)
  {
  }

  // ---------------------------------------------------------------- what a truncated query still guarantees

  /** Fetched rows of a later time than `t`, and earlier than the cursor. */
  ghost function Newer<R(!new)>(rows: seq<R>, key: R -> int, cursor: Option<Cursor>, t: int): set<R> {
    set r | r in rows && key(r) > t && (cursor.Some? ==> key(r) < cursor.value.ts)
  }

  /** Fetched rows earlier than the cursor: none of them was on a page before. */
  ghost function Unpassed<R(!new)>(rows: seq<R>, key: R -> int, cursor: Option<Cursor>): set<R> {
    set r | r in rows && (cursor.Some? ==> key(r) < cursor.value.ts)
  }

  /** Fetched rows of the cursor's own time, which an earlier page may have shown. */
  ghost function AtCursor<R(!new)>(rows: seq<R>, key: R -> int, cursor: Option<Cursor>): set<R> {
    set r | r in rows && cursor.Some? && key(r) == cursor.value.ts
  }

  ghost function UpTo<R(!new)>(rows: seq<R>, key: R -> int, t: int): set<R> {
    set r | r in rows && key(r) <= t
  }

  lemma RowsSplit<R(!new)>(rows: seq<R>, key: R -> int, cursor: Option<Cursor>, t: int)
    requires forall i, j :: 0 <= i < j < |rows| ==> rows[i] != rows[j]
    requires cursor.Some? ==> forall r :: r in rows ==> key(r) <= cursor.value.ts
    ensures |rows| <= |Newer(rows, key, cursor, t)| + |UpTo(rows, key, t)| + |AtCursor(rows, key, cursor)|
    ensures |rows| <= |Unpassed(rows, key, cursor)| + |AtCursor(rows, key, cursor)|
  {
    SeqSetSize(rows);
    CoverSize((set r | r in rows), Newer(rows, key, cursor, t), UpTo(rows, key, t), AtCursor(rows, key, cursor));
    CoverSize((set r | r in rows), Unpassed(rows, key, cursor), AtCursor(rows, key, cursor), {});
  }

  lemma CoverSize<R(!new)>(kept: set<R>, a: set<R>, b: set<R>, c: set<R>)
    requires forall r :: r in kept ==> r in a || r in b || r in c
    ensures |kept| <= |a| + |b| + |c|
  {
    SubsetSize(kept, a + b + c);
  }

  /**
   * When row `r` was cut off, and not too many rows lie between it and `t`, nor at the time of the cursor, then at least a page
   * of newer rows than `t` was fetched that no page has shown, and more than a page in all.
   */
  lemma EnoughNewer<R(!new)>(rows: seq<R>, table: seq<R>, where: R -> bool, key: R -> int, cursor: Option<Cursor>, limit: nat,
                             r: R, t: int, window: set<R>, ties: set<R>)
    requires limit > 0 && IsQuery(rows, table, where, key, 4 * limit)
    requires r in table && where(r) && r !in rows && r in window
    requires forall s :: s in table && where(s) && key(r) <= key(s) <= t ==> s in window
    requires cursor.Some? ==> forall s :: s in table && where(s) ==> key(s) <= cursor.value.ts && (key(s) == cursor.value.ts ==> s in ties)
    requires 2 * |window| <= 3 * limit + 1 && 2 * |ties| <= 3 * limit + 1
    ensures |Newer(rows, key, cursor, t)| >= limit && |Unpassed(rows, key, cursor)| > limit
  {
    RowsSplit(rows, key, cursor, t);
    SubsetSize(UpTo(rows, key, t) + {r}, window);
    SubsetSize(AtCursor(rows, key, cursor), ties);
  }

  /** In a descending list, k members newer than `t` push everything as old as `t` to index k or later. */
  lemma NewerComeFirst(es: seq<AuditEvent>, some: set<AuditEvent>, t: int, k: nat)
    requires Descending(es) && |some| >= k > 0 && forall e :: e in some ==> e in es && e.timestamp > t
    ensures |es| >= k && es[k - 1].timestamp > t
  {
    assert forall i, j :: 0 <= i < j < |es| ==> Less(es[j], es[i]) && es[j].timestamp <= es[i].timestamp;
    var n := if |es| < k then |es| else k - 1;
    if |es| < k || es[n].timestamp <= t {
      var head := es[..n];
      forall e | e in some
        ensures e in head
      {
        var i :| 0 <= i < |es| && es[i] == e;
        assert i < n;
        assert head[i] == e;
      }
      SubsetSize(some, set e | e in head);
      ListSize(head);
    }
  }

  lemma {:induction false} ListSize<R>(rows: seq<R>)
    ensures |set r | r in rows| <= |rows|
  {
    if rows == [] {
      assert (set r | r in rows) == {};
    } else {
      var init, last := rows[..|rows| - 1], rows[|rows| - 1];
      ListSize(init);
      assert (set r | r in rows) == (set r | r in init) + {last};
    }
  }

  lemma {:induction false} ImageSize<R(!new)>(rows: set<R>, first: R -> AuditEvent)
    requires forall r, s :: r in rows && s in rows && first(r) == first(s) ==> r == s
    ensures |set r | r in rows :: first(r)| == |rows|
  {
    if rows != {} {
      var x :| x in rows;
      ImageSize(rows - {x}, first);
      assert (set r | r in rows :: first(r)) == (set r | r in rows - {x} :: first(r)) + {first(x)};
    }
  }

  /** So many new rows fill a page with their first events. */
  lemma NewerFillPage<R(!new)>(filtered: seq<AuditEvent>, rows: seq<R>, key: R -> int, first: R -> AuditEvent, cursor: Option<Cursor>, limit: nat, t: int)
    requires limit > 0 && Descending(filtered)
    requires |Newer(rows, key, cursor, t)| >= limit && |Unpassed(rows, key, cursor)| > limit
    requires forall r :: r in Unpassed(rows, key, cursor) ==> first(r) in filtered && first(r).timestamp == key(r)
    requires forall r, s :: r in rows && s in rows && first(r) == first(s) ==> r == s
    ensures |filtered| > limit && filtered[limit - 1].timestamp > t
  {
    var a, b := Newer(rows, key, cursor, t), Unpassed(rows, key, cursor);
    ImageSize(a, first);
    ImageSize(b, first);
    assert forall r :: r in a ==> r in b;
    NewerComeFirst(filtered, set r | r in a :: first(r), t, limit);
    SubsetSize(set r | r in b :: first(r), set e | e in filtered);
    ListSize(filtered);
  }

  // ---------------------------------------------------------------- one page

  /** The page, when a row was cut off: more than full, and entirely newer than the event that the row would have given. */
  ghost predicate PageIsNewer(fetched: Fetched, f: Filters, cursor: Option<Cursor>, limit: nat, e: AuditEvent)
    requires limit > 0
  {
    var filtered := Sort(Filter(Merged(fetched), f, cursor));
    |filtered| > limit && filtered[limit - 1].timestamp > e.timestamp
  }

  /** The rows of a projected table, with the event that each begins with. */
  ghost predicate BeginsWith<R(!new)>(rows: seq<R>, key: R -> int, first: R -> AuditEvent, cursor: Option<Cursor>, filtered: seq<AuditEvent>) {
    && (forall s :: s in rows && (cursor.Some? ==> key(s) < cursor.value.ts) ==> first(s) in filtered && first(s).timestamp == key(s))
    && (forall s, u :: s in rows && u in rows && first(s) == first(u) ==> s == u)
  }

  /** What was said of a row that is cut off, for a table that does not fit one fetch: the page is full of newer first events. */
  lemma CutOffFills<R(!new)>(rows: seq<R>, table: seq<R>, where: R -> bool, admits: R -> bool, key: R -> int, first: R -> AuditEvent,
                             between: (int, int) -> set<R>, filtered: seq<AuditEvent>, cursor: Option<Cursor>, limit: nat, r: R, t: int)
    requires limit > 0 && IsQuery(rows, table, where, key, 4 * limit) && Descending(filtered) && BeginsWith(rows, key, first, cursor, filtered)
    requires r in table && where(r) && r !in rows && key(r) <= t
    requires forall s :: where(s) ==> admits(s) && (cursor.Some? ==> key(s) <= cursor.value.ts)
    requires forall lo, hi, s :: s in between(lo, hi) <==> s in table && admits(s) && lo <= key(s) <= hi
    requires 2 * |between(key(r), t)| <= 3 * limit + 1 && forall s :: s in table && admits(s) ==> 2 * |between(key(s), key(s))| <= 3 * limit + 1
    ensures |filtered| > limit && filtered[limit - 1].timestamp > t
  {
    var ties := if cursor.Some? then between(cursor.value.ts, cursor.value.ts) else {};
    assert 2 * |ties| <= 3 * limit + 1 by {
      if ties != {} {
        var s :| s in ties;
        assert s in table && admits(s) && key(s) == cursor.value.ts;
      }
    }
    EnoughNewer(rows, table, where, key, cursor, limit, r, t, between(key(r), t), ties);
    NewerFillPage(filtered, rows, key, first, cursor, limit, t);
  }

  /** The filtered list, newest first, with everything that was fetched and passes. */
  ghost predicate Complete(fetched: Fetched, f: Filters, cursor: Option<Cursor>, filtered: seq<AuditEvent>) {
    && Descending(filtered)
    && forall e :: e in Merged(fetched) && Admits(e, f) && BelowCursor(e, cursor) ==> e in filtered
  }

  lemma FilteredComplete(db: Db, fetched: Fetched, f: Filters, cursor: Option<Cursor>, limit: nat)
    requires Keyed(db) && IsFetch(db, fetched, f, cursor, limit)
    ensures Complete(fetched, f, cursor, Sort(Filter(Merged(fetched), f, cursor)))
  {
    SortedFilter(db, fetched, f, cursor, limit);
  }

  // ---------------------------------------------------------------- native rows

  lemma NativeBegins(db: Db, fetched: Fetched, f: Filters, cursor: Option<Cursor>, filtered: seq<AuditEvent>)
    requires Complete(fetched, f, cursor, filtered) && FiltersInSql(f) && forall g :: g in fetched.native ==> NativeFilter(g, f)
    ensures BeginsWith(fetched.native, (g: AuditEvent) => g.timestamp, (g: AuditEvent) => g, cursor, filtered)
  {
    forall g | g in fetched.native && (cursor.Some? ==> g.timestamp < cursor.value.ts)
      ensures g in filtered
    {
      MergedFrom(fetched, g);
    }
  }

  lemma NativeDropped(db: Db, fetched: Fetched, f: Filters, cursor: Option<Cursor>, limit: nat, e: AuditEvent)
    requires IsQuery(fetched.native, db.native, (g: AuditEvent) => NativeWhere(g, f, cursor), (g: AuditEvent) => g.timestamp, 4 * limit)
    requires e in db.native && NativeWhere(e, f, cursor) && e !in fetched.native
    ensures !NativeFits(db, f, limit)
  {
    if NativeFits(db, f, limit) {
      NothingDropped(fetched.native, db.native, (g: AuditEvent) => NativeWhere(g, f, cursor), (g: AuditEvent) => g.timestamp, 4 * limit,
                     (set g | g in db.native && NativeFilter(g, f)), e);
    }
  }

  lemma NativeCutOff(db: Db, fetched: Fetched, f: Filters, cursor: Option<Cursor>, limit: nat, filtered: seq<AuditEvent>, e: AuditEvent)
    requires Keyed(db) && limit > 0 && Complete(fetched, f, cursor, filtered) && IsQuery(fetched.native, db.native, (g: AuditEvent) => NativeWhere(g, f, cursor), (g: AuditEvent) => g.timestamp, 4 * limit)
    requires FiltersInSql(f) && TieBound(db, f, limit)
    requires e in db.native && NativeWhere(e, f, cursor) && e !in fetched.native
    ensures |filtered| > limit && filtered[limit - 1].timestamp > e.timestamp
  {
    var ties := if cursor.Some? then Ties(db, f, cursor.value.ts) else {};
    NativeBegins(db, fetched, f, cursor, filtered);
    EnoughNewer(fetched.native, db.native, (g: AuditEvent) => NativeWhere(g, f, cursor), (g: AuditEvent) => g.timestamp, cursor, limit,
                e, e.timestamp, Ties(db, f, e.timestamp), ties);
    NewerFillPage(filtered, fetched.native, (g: AuditEvent) => g.timestamp, (g: AuditEvent) => g, cursor, limit, e.timestamp);
  }

  // ---------------------------------------------------------------- runs

  ghost predicate RunsStart(db: Db, f: Filters) {
    forall s :: s in db.runs && RunWhere(s, f, None) ==> Admits(RunStarted(s), f)
  }

  lemma RunBegins(db: Db, fetched: Fetched, f: Filters, cursor: Option<Cursor>, filtered: seq<AuditEvent>, s: RunRow)
    requires Complete(fetched, f, cursor, filtered) && RunsStart(db, f)
    requires s in fetched.runs && s in db.runs && RunWhere(s, f, cursor) && (cursor.Some? ==> s.startedAt < cursor.value.ts)
    ensures RunStarted(s) in filtered
  {
    MergedFrom(fetched, RunStarted(s));
  }

  lemma RunsBegin(db: Db, fetched: Fetched, f: Filters, cursor: Option<Cursor>, filtered: seq<AuditEvent>)
    requires Keyed(db) && Complete(fetched, f, cursor, filtered) && RunsStart(db, f)
    requires forall s :: s in fetched.runs ==> s in db.runs && RunWhere(s, f, cursor)
    ensures BeginsWith(fetched.runs, (s: RunRow) => s.startedAt, RunStarted, cursor, filtered)
  {
    forall s | s in fetched.runs && (cursor.Some? ==> s.startedAt < cursor.value.ts)
      ensures RunStarted(s) in filtered
    {
      RunBegins(db, fetched, f, cursor, filtered, s);
    }
    forall r, s | r in fetched.runs && s in fetched.runs && RunStarted(r) == RunStarted(s)
      ensures r == s
    {
      assert RunStarted(r).runId == Some(r.id) && RunStarted(s).runId == Some(s.id);
    }
  }

  /** What the bound says when the table does not fit. */
  lemma RunsCovered(db: Db, f: Filters, limit: nat, r: RunRow, e: AuditEvent)
    requires RunsBound(db, f, limit) && |set s | s in db.runs && RunWhere(s, f, None)| > 4 * limit
    requires r in db.runs && RunWhere(r, f, None) && e in RunEvents(r) && Admits(e, f)
    ensures RunsStart(db, f) && 2 * |RunsBetween(db, f, r.startedAt, e.timestamp)| <= 3 * limit + 1
    ensures forall s :: s in db.runs && RunWhere(s, f, None) ==> 2 * |RunsBetween(db, f, s.startedAt, s.startedAt)| <= 3 * limit + 1
  {
    assert RunCovered(db, f, limit, r, e);
    forall s | s in db.runs && RunWhere(s, f, None)
      ensures 2 * |RunsBetween(db, f, s.startedAt, s.startedAt)| <= 3 * limit + 1
    {
      assert RunStarted(s) in RunEvents(s) && RunCovered(db, f, limit, s, RunStarted(s));
    }
  }

  lemma RunDropped(db: Db, fetched: Fetched, f: Filters, cursor: Option<Cursor>, limit: nat, r: RunRow)
    requires IsQuery(fetched.runs, db.runs, (s: RunRow) => RunWhere(s, f, cursor), (s: RunRow) => s.startedAt, 4 * limit)
    requires r in db.runs && RunWhere(r, f, cursor) && r !in fetched.runs
    ensures |set s | s in db.runs && RunWhere(s, f, None)| > 4 * limit
  {
    if |set s | s in db.runs && RunWhere(s, f, None)| <= 4 * limit {
      NothingDropped(fetched.runs, db.runs, (s: RunRow) => RunWhere(s, f, cursor), (s: RunRow) => s.startedAt, 4 * limit,
                     (set s | s in db.runs && RunWhere(s, f, None)), r);
    }
  }

  lemma RunsFill(db: Db, fetched: Fetched, f: Filters, cursor: Option<Cursor>, limit: nat, filtered: seq<AuditEvent>, r: RunRow, t: int)
    requires limit > 0 && Descending(filtered) && BeginsWith(fetched.runs, (s: RunRow) => s.startedAt, RunStarted, cursor, filtered)
    requires IsQuery(fetched.runs, db.runs, (s: RunRow) => RunWhere(s, f, cursor), (s: RunRow) => s.startedAt, 4 * limit)
    requires r in db.runs && RunWhere(r, f, cursor) && r !in fetched.runs && r.startedAt <= t
    requires 2 * |RunsBetween(db, f, r.startedAt, t)| <= 3 * limit + 1
    requires forall s :: s in db.runs && RunWhere(s, f, None) ==> 2 * |RunsBetween(db, f, s.startedAt, s.startedAt)| <= 3 * limit + 1
    ensures |filtered| > limit && filtered[limit - 1].timestamp > t
  {
    CutOffFills(fetched.runs, db.runs, (s: RunRow) => RunWhere(s, f, cursor), (s: RunRow) => RunWhere(s, f, None), (s: RunRow) => s.startedAt,
                RunStarted, (lo, hi) => RunsBetween(db, f, lo, hi), filtered, cursor, limit, r, t);
  }

  lemma RunCutOff(db: Db, fetched: Fetched, f: Filters, cursor: Option<Cursor>, limit: nat, filtered: seq<AuditEvent>, r: RunRow, e: AuditEvent)
    requires Keyed(db) && limit > 0 && Complete(fetched, f, cursor, filtered) && RunsBound(db, f, limit)
    requires IsQuery(fetched.runs, db.runs, (s: RunRow) => RunWhere(s, f, cursor), (s: RunRow) => s.startedAt, 4 * limit)
    requires r in db.runs && RunWhere(r, f, cursor) && r !in fetched.runs && e in RunEvents(r) && Admits(e, f) && r.startedAt <= e.timestamp
    ensures |filtered| > limit && filtered[limit - 1].timestamp > e.timestamp
  {
    RunDropped(db, fetched, f, cursor, limit, r);
    RunsCovered(db, f, limit, r, e);
    RunsBegin(db, fetched, f, cursor, filtered);
    RunsFill(db, fetched, f, cursor, limit, filtered, r, e.timestamp);
  }

  // ---------------------------------------------------------------- approvals

  ghost predicate ApprovalsStart(db: Db, f: Filters) {
    forall s :: s in db.approvals && ApprovalWhere(s, f, None) ==> Admits(ApprovalRequested(s), f)
  }

  lemma ApprovalBegins(db: Db, fetched: Fetched, f: Filters, cursor: Option<Cursor>, filtered: seq<AuditEvent>, s: ApprovalRow)
    requires Complete(fetched, f, cursor, filtered) && ApprovalsStart(db, f)
    requires s in fetched.approvals && s in db.approvals && ApprovalWhere(s, f, cursor) && (cursor.Some? ==> s.createdAt < cursor.value.ts)
    ensures ApprovalRequested(s) in filtered
  {
    MergedFrom(fetched, ApprovalRequested(s));
  }

  lemma ApprovalsBegin(db: Db, fetched: Fetched, f: Filters, cursor: Option<Cursor>, filtered: seq<AuditEvent>)
    requires Keyed(db) && Complete(fetched, f, cursor, filtered) && ApprovalsStart(db, f)
    requires forall s :: s in fetched.approvals ==> s in db.approvals && ApprovalWhere(s, f, cursor)
    ensures BeginsWith(fetched.approvals, (s: ApprovalRow) => s.createdAt, ApprovalRequested, cursor, filtered)
  {
    forall s | s in fetched.approvals && (cursor.Some? ==> s.createdAt < cursor.value.ts)
      ensures ApprovalRequested(s) in filtered
    {
      ApprovalBegins(db, fetched, f, cursor, filtered, s);
    }
    forall r, s | r in fetched.approvals && s in fetched.approvals && ApprovalRequested(r) == ApprovalRequested(s)
      ensures r == s
    {
      assert ApprovalOf(ApprovalRequested(r)) == Some(r.id) && ApprovalOf(ApprovalRequested(s)) == Some(s.id);
    }
  }

  lemma ApprovalsCovered(db: Db, f: Filters, limit: nat, r: ApprovalRow, e: AuditEvent)
    requires ApprovalsBound(db, f, limit) && |set s | s in db.approvals && ApprovalWhere(s, f, None)| > 4 * limit
    requires r in db.approvals && ApprovalWhere(r, f, None) && e in ApprovalEvents(r) && Admits(e, f)
    ensures ApprovalsStart(db, f) && 2 * |ApprovalsBetween(db, f, r.createdAt, e.timestamp)| <= 3 * limit + 1
    ensures forall s :: s in db.approvals && ApprovalWhere(s, f, None) ==> 2 * |ApprovalsBetween(db, f, s.createdAt, s.createdAt)| <= 3 * limit + 1
  {
    assert ApprovalCovered(db, f, limit, r, e);
    forall s | s in db.approvals && ApprovalWhere(s, f, None)
      ensures 2 * |ApprovalsBetween(db, f, s.createdAt, s.createdAt)| <= 3 * limit + 1
    {
      assert ApprovalRequested(s) in ApprovalEvents(s) && ApprovalCovered(db, f, limit, s, ApprovalRequested(s));
    }
  }

  lemma ApprovalDropped(db: Db, fetched: Fetched, f: Filters, cursor: Option<Cursor>, limit: nat, r: ApprovalRow)
    requires IsQuery(fetched.approvals, db.approvals, (s: ApprovalRow) => ApprovalWhere(s, f, cursor), (s: ApprovalRow) => s.createdAt, 4 * limit)
    requires r in db.approvals && ApprovalWhere(r, f, cursor) && r !in fetched.approvals
    ensures |set s | s in db.approvals && ApprovalWhere(s, f, None)| > 4 * limit
  {
    if |set s | s in db.approvals && ApprovalWhere(s, f, None)| <= 4 * limit {
      NothingDropped(fetched.approvals, db.approvals, (s: ApprovalRow) => ApprovalWhere(s, f, cursor), (s: ApprovalRow) => s.createdAt, 4 * limit,
                     (set s | s in db.approvals && ApprovalWhere(s, f, None)), r);
    }
  }

  lemma ApprovalsFill(db: Db, fetched: Fetched, f: Filters, cursor: Option<Cursor>, limit: nat, filtered: seq<AuditEvent>, r: ApprovalRow, t: int)
    requires limit > 0 && Descending(filtered) && BeginsWith(fetched.approvals, (s: ApprovalRow) => s.createdAt, ApprovalRequested, cursor, filtered)
    requires IsQuery(fetched.approvals, db.approvals, (s: ApprovalRow) => ApprovalWhere(s, f, cursor), (s: ApprovalRow) => s.createdAt, 4 * limit)
    requires r in db.approvals && ApprovalWhere(r, f, cursor) && r !in fetched.approvals && r.createdAt <= t
    requires 2 * |ApprovalsBetween(db, f, r.createdAt, t)| <= 3 * limit + 1
    requires forall s :: s in db.approvals && ApprovalWhere(s, f, None) ==> 2 * |ApprovalsBetween(db, f, s.createdAt, s.createdAt)| <= 3 * limit + 1
    ensures |filtered| > limit && filtered[limit - 1].timestamp > t
  {
    CutOffFills(fetched.approvals, db.approvals, (s: ApprovalRow) => ApprovalWhere(s, f, cursor), (s: ApprovalRow) => ApprovalWhere(s, f, None), (s: ApprovalRow) => s.createdAt,
                ApprovalRequested, (lo, hi) => ApprovalsBetween(db, f, lo, hi), filtered, cursor, limit, r, t);
  }

  lemma ApprovalCutOff(db: Db, fetched: Fetched, f: Filters, cursor: Option<Cursor>, limit: nat, filtered: seq<AuditEvent>, r: ApprovalRow, e: AuditEvent)
    requires Keyed(db) && limit > 0 && Complete(fetched, f, cursor, filtered) && ApprovalsBound(db, f, limit)
    requires IsQuery(fetched.approvals, db.approvals, (s: ApprovalRow) => ApprovalWhere(s, f, cursor), (s: ApprovalRow) => s.createdAt, 4 * limit)
    requires r in db.approvals && ApprovalWhere(r, f, cursor) && r !in fetched.approvals && e in ApprovalEvents(r) && Admits(e, f) && r.createdAt <= e.timestamp
    ensures |filtered| > limit && filtered[limit - 1].timestamp > e.timestamp
  {
    ApprovalDropped(db, fetched, f, cursor, limit, r);
    ApprovalsCovered(db, f, limit, r, e);
    ApprovalsBegin(db, fetched, f, cursor, filtered);
    ApprovalsFill(db, fetched, f, cursor, limit, filtered, r, e.timestamp);
  }

  // ---------------------------------------------------------------- alerts

  ghost predicate AlertsStart(db: Db, f: Filters) {
    forall s :: s in db.alerts && AlertWhere(s, f, None) ==> Admits(AlertEvent(s), f)
  }

  lemma AlertBegins(db: Db, fetched: Fetched, f: Filters, cursor: Option<Cursor>, filtered: seq<AuditEvent>, s: AlertRow)
    requires Complete(fetched, f, cursor, filtered) && AlertsStart(db, f)
    requires s in fetched.alerts && s in db.alerts && AlertWhere(s, f, cursor) && (cursor.Some? ==> s.firedAt < cursor.value.ts)
    ensures AlertEvent(s) in filtered
  {
    MergedFrom(fetched, AlertEvent(s));
  }

  lemma AlertsBegin(db: Db, fetched: Fetched, f: Filters, cursor: Option<Cursor>, filtered: seq<AuditEvent>)
    requires Keyed(db) && Complete(fetched, f, cursor, filtered) && AlertsStart(db, f)
    requires forall s :: s in fetched.alerts ==> s in db.alerts && AlertWhere(s, f, cursor)
    ensures BeginsWith(fetched.alerts, (s: AlertRow) => s.firedAt, AlertEvent, cursor, filtered)
  {
    forall s | s in fetched.alerts && (cursor.Some? ==> s.firedAt < cursor.value.ts)
      ensures AlertEvent(s) in filtered
    {
      AlertBegins(db, fetched, f, cursor, filtered, s);
    }
    forall r, s | r in fetched.alerts && s in fetched.alerts && AlertEvent(r) == AlertEvent(s)
      ensures r == s
    {
      Suffix(BUDGET_ALERT, r.id);
      Suffix(BUDGET_ALERT, s.id);
    }
  }

  lemma AlertsCovered(db: Db, f: Filters, limit: nat, r: AlertRow)
    requires AlertsBound(db, f, limit) && |set s | s in db.alerts && AlertWhere(s, f, None)| > 4 * limit
    requires r in db.alerts && AlertWhere(r, f, None) && Admits(AlertEvent(r), f)
    ensures AlertsStart(db, f)
    ensures forall s :: s in db.alerts && AlertWhere(s, f, None) ==> 2 * |AlertsBetween(db, f, s.firedAt, s.firedAt)| <= 3 * limit + 1
  {
    assert AlertCovered(db, f, limit, r);
    forall s | s in db.alerts && AlertWhere(s, f, None)
      ensures 2 * |AlertsBetween(db, f, s.firedAt, s.firedAt)| <= 3 * limit + 1
    {
      assert AlertCovered(db, f, limit, s);
    }
  }

  lemma AlertDropped(db: Db, fetched: Fetched, f: Filters, cursor: Option<Cursor>, limit: nat, r: AlertRow)
    requires IsQuery(fetched.alerts, db.alerts, (s: AlertRow) => AlertWhere(s, f, cursor), (s: AlertRow) => s.firedAt, 4 * limit)
    requires r in db.alerts && AlertWhere(r, f, cursor) && r !in fetched.alerts
    ensures |set s | s in db.alerts && AlertWhere(s, f, None)| > 4 * limit
  {
    if |set s | s in db.alerts && AlertWhere(s, f, None)| <= 4 * limit {
      NothingDropped(fetched.alerts, db.alerts, (s: AlertRow) => AlertWhere(s, f, cursor), (s: AlertRow) => s.firedAt, 4 * limit,
                     (set s | s in db.alerts && AlertWhere(s, f, None)), r);
    }
  }

  lemma AlertsFill(db: Db, fetched: Fetched, f: Filters, cursor: Option<Cursor>, limit: nat, filtered: seq<AuditEvent>, r: AlertRow)
    requires limit > 0 && Descending(filtered) && BeginsWith(fetched.alerts, (s: AlertRow) => s.firedAt, AlertEvent, cursor, filtered)
    requires IsQuery(fetched.alerts, db.alerts, (s: AlertRow) => AlertWhere(s, f, cursor), (s: AlertRow) => s.firedAt, 4 * limit)
    requires r in db.alerts && AlertWhere(r, f, cursor) && r !in fetched.alerts
    requires 2 * |AlertsBetween(db, f, r.firedAt, r.firedAt)| <= 3 * limit + 1
    requires forall s :: s in db.alerts && AlertWhere(s, f, None) ==> 2 * |AlertsBetween(db, f, s.firedAt, s.firedAt)| <= 3 * limit + 1
    ensures |filtered| > limit && filtered[limit - 1].timestamp > r.firedAt
  {
    CutOffFills(fetched.alerts, db.alerts, (s: AlertRow) => AlertWhere(s, f, cursor), (s: AlertRow) => AlertWhere(s, f, None), (s: AlertRow) => s.firedAt,
                AlertEvent, (lo, hi) => AlertsBetween(db, f, lo, hi), filtered, cursor, limit, r, r.firedAt);
  }

  lemma AlertCutOff(db: Db, fetched: Fetched, f: Filters, cursor: Option<Cursor>, limit: nat, filtered: seq<AuditEvent>, r: AlertRow)
    requires Keyed(db) && limit > 0 && Complete(fetched, f, cursor, filtered) && AlertsBound(db, f, limit)
    requires IsQuery(fetched.alerts, db.alerts, (s: AlertRow) => AlertWhere(s, f, cursor), (s: AlertRow) => s.firedAt, 4 * limit)
    requires r in db.alerts && AlertWhere(r, f, cursor) && r !in fetched.alerts && Admits(AlertEvent(r), f)
    ensures |filtered| > limit && filtered[limit - 1].timestamp > r.firedAt
  {
    AlertDropped(db, fetched, f, cursor, limit, r);
    AlertsCovered(db, f, limit, r);
    AlertsBegin(db, fetched, f, cursor, filtered);
    AlertsFill(db, fetched, f, cursor, limit, filtered, r);
  }

  /** Only the time range restricts anything. */
  predicate OnlyTimeFilters(f: Filters) {
    !Truthy(f.scope) && f.eventTypes == [] && !Truthy(f.actor) && !Truthy(f.runId) && !Truthy(f.issueId) && f.q.None?
  }

  /** With a time range only, or no filter at all, the filters admit the first event of each row that SQL admits. */
  lemma TimeFiltersAdmitStarts(db: Db, f: Filters)
    requires OnlyTimeFilters(f)
    ensures RunsStart(db, f) && ApprovalsStart(db, f) && AlertsStart(db, f)
  {
    forall s | s in db.runs && RunWhere(s, f, None)
      ensures Admits(RunStarted(s), f)
    {
      assert RunStarted(s).timestamp == s.startedAt;
    }
  }

  // ---------------------------------------------------------------- all four tables

  lemma NativeMissing(db: Db, fetched: Fetched, f: Filters, cursor: Option<Cursor>, limit: nat, e: AuditEvent)
    requires Keyed(db) && limit > 0 && IsFetch(db, fetched, f, cursor, limit) && (NativeFits(db, f, limit) || (FiltersInSql(f) && TieBound(db, f, limit)))
    requires e in db.native && NativeWhere(e, f, cursor) && e !in fetched.native
    ensures PageIsNewer(fetched, f, cursor, limit, e)
  {
    FilteredComplete(db, fetched, f, cursor, limit);
    NativeDropped(db, fetched, f, cursor, limit, e);
    NativeCutOff(db, fetched, f, cursor, limit, Sort(Filter(Merged(fetched), f, cursor)), e);
  }

  lemma RunMissing(db: Db, fetched: Fetched, f: Filters, cursor: Option<Cursor>, limit: nat, r: RunRow, e: AuditEvent)
    requires Keyed(db) && limit > 0 && IsFetch(db, fetched, f, cursor, limit) && RunsBound(db, f, limit)
    requires r in db.runs && RunWhere(r, f, cursor) && r !in fetched.runs && e in RunEvents(r) && Admits(e, f) && r.startedAt <= e.timestamp
    ensures PageIsNewer(fetched, f, cursor, limit, e)
  {
    FilteredComplete(db, fetched, f, cursor, limit);
    RunCutOff(db, fetched, f, cursor, limit, Sort(Filter(Merged(fetched), f, cursor)), r, e);
  }

  lemma ApprovalMissing(db: Db, fetched: Fetched, f: Filters, cursor: Option<Cursor>, limit: nat, r: ApprovalRow, e: AuditEvent)
    requires Keyed(db) && limit > 0 && IsFetch(db, fetched, f, cursor, limit) && ApprovalsBound(db, f, limit)
    requires r in db.approvals && ApprovalWhere(r, f, cursor) && r !in fetched.approvals && e in ApprovalEvents(r) && Admits(e, f)
    requires r.createdAt <= e.timestamp
    ensures PageIsNewer(fetched, f, cursor, limit, e)
  {
    FilteredComplete(db, fetched, f, cursor, limit);
    ApprovalCutOff(db, fetched, f, cursor, limit, Sort(Filter(Merged(fetched), f, cursor)), r, e);
  }

  lemma AlertMissing(db: Db, fetched: Fetched, f: Filters, cursor: Option<Cursor>, limit: nat, r: AlertRow, e: AuditEvent)
    requires Keyed(db) && limit > 0 && IsFetch(db, fetched, f, cursor, limit) && AlertsBound(db, f, limit)
    requires r in db.alerts && AlertWhere(r, f, cursor) && r !in fetched.alerts && e == AlertEvent(r) && Admits(e, f)
    ensures PageIsNewer(fetched, f, cursor, limit, e)
  {
    FilteredComplete(db, fetched, f, cursor, limit);
    AlertCutOff(db, fetched, f, cursor, limit, Sort(Filter(Merged(fetched), f, cursor)), r);
  }

  lemma EventsFollow(db: Db)
    requires RowsPrecedeEvents(db)
    ensures forall r, e :: r in db.runs && e in RunEvents(r) ==> r.startedAt <= e.timestamp
    ensures forall r, e :: r in db.approvals && e in ApprovalEvents(r) ==> r.createdAt <= e.timestamp
  {
    forall r, e | r in db.runs && e in RunEvents(r)
      ensures r.startedAt <= e.timestamp
    {
      RunEventTimes(r, e);
    }
  }

  lemma PageIsNewerThanCut(db: Db, fetched: Fetched, f: Filters, cursor: Option<Cursor>, limit: nat, e: AuditEvent)
    requires Keyed(db) && limit > 0 && IsFetch(db, fetched, f, cursor, limit) && Fits(db, f, limit)
    requires Remaining(e, db, f, cursor) && e !in Merged(fetched)
    ensures PageIsNewer(fetched, f, cursor, limit, e)
  {
    MissingIsCutOff(db, fetched, f, cursor, limit, e);
    EventsFollow(db);
    if e in db.native && NativeWhere(e, f, cursor) && e !in fetched.native {
      NativeMissing(db, fetched, f, cursor, limit, e);
    } else if r :| r in db.runs && RunWhere(r, f, cursor) && r !in fetched.runs && e in RunEvents(r) {
      RunMissing(db, fetched, f, cursor, limit, r, e);
    } else if a :| a in db.approvals && ApprovalWhere(a, f, cursor) && a !in fetched.approvals && e in ApprovalEvents(a) {
      ApprovalMissing(db, fetched, f, cursor, limit, a, e);
    } else {
      var a :| a in db.alerts && AlertWhere(a, f, cursor) && a !in fetched.alerts && e == AlertEvent(a);
      AlertMissing(db, fetched, f, cursor, limit, a, e);
    }
  }
}
