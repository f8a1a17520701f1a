/** Walking the audit log with a cursor: completeness of pages and of whole walks. */
module AuditPaging {
  import opened Prelude
  import opened AuditProjection
  import opened AuditReader
  import opened AuditBounds

  // ---------------------------------------------------------------- one page

  lemma FetchedIsShown(db: Db, fetched: Fetched, f: Filters, cursor: Option<Cursor>, limit: nat, e: AuditEvent)
    requires Keyed(db) && limit > 0 && IsFetch(db, fetched, f, cursor, limit) && e in Merged(fetched) && Remaining(e, db, f, cursor)
    ensures var (page, next) := Page(fetched, f, cursor, limit);
            e in page || (next.Some? && BelowCursor(e, next))
  {
    SortedFilter(db, fetched, f, cursor, limit);
    var filtered := Sort(Filter(Merged(fetched), f, cursor));
    var i :| 0 <= i < |filtered| && filtered[i] == e;
    if i >= limit {
      assert Less(filtered[i], filtered[limit - 1]);
    }
  }

  /**
   * A page misses nothing: an event still to come is on the page, or below its last event with a cursor
   * set, even when a query was cut off in the middle of a run of equal timestamps.
   */
  lemma PageComplete(db: Db, fetched: Fetched, f: Filters, cursor: Option<Cursor>, limit: nat, e: AuditEvent)
    requires Keyed(db) && limit > 0 && IsFetch(db, fetched, f, cursor, limit) && Fits(db, f, limit)
    requires Remaining(e, db, f, cursor)
    ensures var (page, next) := Page(fetched, f, cursor, limit);
            e in page || (next.Some? && BelowCursor(e, next))
  {
    if e in Merged(fetched) {
      FetchedIsShown(db, fetched, f, cursor, limit, e);
    } else {
      PageIsNewerThanCut(db, fetched, f, cursor, limit, e);
    }
  }

  // ---------------------------------------------------------------- why the hypotheses are there

  /** An event that the filters admit, of a run or an approval created before `from`. */
  ghost predicate Straddles(db: Db, f: Filters, e: AuditEvent) {
    && f.from.Some? && Admits(e, f)
    && ((exists r :: r in db.runs && r.startedAt < f.from.value && e in RunEvents(r))
        || (exists r :: r in db.approvals && r.createdAt < f.from.value && e in ApprovalEvents(r)))
  }

  /** A run that started before `from` and ended after it: its closing events match the filters and are on no page, ever. */
  lemma StraddlingRunIsLost(db: Db, fetched: Fetched, f: Filters, cursor: Option<Cursor>, limit: nat, r: RunRow, e: AuditEvent)
    requires Keyed(db) && limit > 0 && IsFetch(db, fetched, f, cursor, limit)
    requires f.from.Some? && r in db.runs && r.startedAt < f.from.value
    requires e in RunEvents(r) && Admits(e, f)
    ensures e in Merged(db) && e !in Page(fetched, f, cursor, limit).0
  {
    MergedFrom(db, e);
    SortedFilter(db, fetched, f, cursor, limit);
    if e in Merged(fetched) {
      FetchedKeyed(db, fetched, f, cursor, limit);
      var s := RunSource(fetched, r, e);
    }
  }

  /** The same for an approval that was requested before `from` and resolved after it. */
  lemma StraddlingApprovalIsLost(db: Db, fetched: Fetched, f: Filters, cursor: Option<Cursor>, limit: nat, r: ApprovalRow, e: AuditEvent)
    requires Keyed(db) && limit > 0 && IsFetch(db, fetched, f, cursor, limit)
    requires f.from.Some? && r in db.approvals && r.createdAt < f.from.value
    requires e in ApprovalEvents(r) && Admits(e, f)
    ensures e in Merged(db) && e !in Page(fetched, f, cursor, limit).0
  {
    MergedFrom(db, e);
    SortedFilter(db, fetched, f, cursor, limit);
    if e in Merged(fetched) {
      FetchedKeyed(db, fetched, f, cursor, limit);
      var s := ApprovalSource(fetched, r, e);
    }
  }

  /** An event projected from a run can only come from the row with that run's id. */
  lemma RunSource(db: Db, r: RunRow, e: AuditEvent) returns (s: RunRow)
    requires Keyed(db) && e in RunEvents(r) && e in Merged(db)
    ensures s in db.runs && s.id == r.id
  {
    MergedFrom(db, e);
    RunIdReserved(r, e);
    RunEventTimes(r, e);
    s :| s in db.runs && e in RunEvents(s);
    RunEventTimes(s, e);
  }

  lemma ApprovalSource(db: Db, r: ApprovalRow, e: AuditEvent) returns (s: ApprovalRow)
    requires Keyed(db) && e in ApprovalEvents(r) && e in Merged(db)
    ensures s in db.approvals && s.id == r.id
  {
    MergedFrom(db, e);
    ApprovalShape(r, e);
    NoOtherShape(db, e);
    s :| s in db.approvals && e in ApprovalEvents(s);
    SameApproval(s, r, e);
  }

  lemma ApprovalShape(r: ApprovalRow, e: AuditEvent)
    requires e in ApprovalEvents(r)
    ensures PROJ <= e.id && e.runId.None? && e.scope.None?
  {
    ApprovalIdReserved(r, e);
  }

  /** Native ids are not reserved, events of runs name their run, and those of alerts have a scope. */
  lemma NoOtherShape(db: Db, e: AuditEvent)
    requires Keyed(db) && PROJ <= e.id && e.runId.None? && e.scope.None?
    ensures e !in db.native
    ensures forall r :: r in db.runs ==> e !in RunEvents(r)
    ensures forall a :: a in db.alerts ==> e != AlertEvent(a)
  {
    forall r | r in db.runs
      ensures e !in RunEvents(r)
    {
      if e in RunEvents(r) {
        RunEventTimes(r, e);
      }
    }
  }

  lemma SameApproval(s: ApprovalRow, r: ApprovalRow, e: AuditEvent)
    requires e in ApprovalEvents(s) && e in ApprovalEvents(r)
    ensures s.id == r.id
  {
    Suffix(APPROVAL_REQUESTED, r.id);
    Suffix(APPROVAL_REQUESTED, s.id);
    Suffix(APPROVAL_RESOLVED, r.id);
    Suffix(APPROVAL_RESOLVED, s.id);
    Differs(APPROVAL_REQUESTED, APPROVAL_RESOLVED, 18, s.id);
    Differs(APPROVAL_REQUESTED, APPROVAL_RESOLVED, 18, r.id);
  }

  /** When nothing that was fetched matches, the walk ends there, whatever the cut left behind. */
  lemma NothingMatches(fetched: Fetched, f: Filters, cursor: Option<Cursor>, limit: nat)
    requires limit > 0 && forall e :: e in Merged(fetched) ==> !Admits(e, f)
    ensures Page(fetched, f, cursor, limit) == ([], None)
  {
    FilterNothing(Merged(fetched), f, cursor);
  }

  lemma {:induction false} FilterNothing(es: seq<AuditEvent>, f: Filters, cursor: Option<Cursor>)
    requires forall e :: e in es ==> !Admits(e, f)
    ensures Filter(es, f, cursor) == []
  {
    if es != [] {
      MatchesAdmitted(es[0], f);
      FilterNothing(es[1..], f, cursor);
    }
  }

  // ---------------------------------------------------------------- whole walks

  /** All events of a walk whose queries returned `fetches`, one per page. */
  function Walk(fetches: seq<Fetched>, f: Filters, cursor: Option<Cursor>, limit: nat): seq<AuditEvent>
    requires limit > 0
  {
    if fetches == [] then []
    else
      var (page, next) := Page(fetches[0], f, cursor, limit);
      page + if next.None? then [] else Walk(fetches[1..], f, next, limit)
  }

  /** A legal answer of the database's four queries at a cursor. */
  ghost function Answers(db: Db, f: Filters, limit: nat): (Fetched, Option<Cursor>) -> bool {
    (fetched: Fetched, cursor: Option<Cursor>) => IsFetch(db, fetched, f, cursor, limit)
  }

  /** Every query of the walk got an admissible answer at the cursor it was asked. */
  ghost predicate Answered(ok: (Fetched, Option<Cursor>) -> bool, fetches: seq<Fetched>, f: Filters, cursor: Option<Cursor>, limit: nat)
    requires limit > 0
  {
    fetches == [] ||
    (ok(fetches[0], cursor) && Answered(ok, fetches[1..], f, Page(fetches[0], f, cursor, limit).1, limit))
  }

  /** The walk goes on only while there is a cursor. */
  predicate StopsAtEnd(fetches: seq<Fetched>, f: Filters, cursor: Option<Cursor>, limit: nat)
    requires limit > 0
  {
    fetches == [] ||
    (var next := Page(fetches[0], f, cursor, limit).1;
     if next.None? then |fetches| == 1 else StopsAtEnd(fetches[1..], f, next, limit))
  }

  /** A walk over one database that does not change. */
  ghost predicate Legal(db: Db, fetches: seq<Fetched>, f: Filters, cursor: Option<Cursor>, limit: nat)
    requires limit > 0
  {
    Answered(Answers(db, f, limit), fetches, f, cursor, limit) && StopsAtEnd(fetches, f, cursor, limit)
  }

  /** The last page had no next cursor. */
  predicate Finished(fetches: seq<Fetched>, f: Filters, cursor: Option<Cursor>, limit: nat)
    requires limit > 0
  {
    fetches != [] &&
    (var next := Page(fetches[0], f, cursor, limit).1;
     next.None? || Finished(fetches[1..], f, next, limit))
  }

  /** A page, and the rest of the walk below its last event. */
  lemma PageThenRest(db: Db, f: Filters, cursor: Option<Cursor>, limit: nat, page: seq<AuditEvent>, next: Cursor, rest: seq<AuditEvent>)
    requires limit > 0 && |page| == limit && Descending(page) && Descending(rest)
    requires next == Cursor(page[limit - 1].timestamp, page[limit - 1].id)
    requires forall e :: e in page ==> Remaining(e, db, f, cursor)
    requires forall e :: e in rest ==> Remaining(e, db, f, Some(next))
    ensures Descending(page + rest) && forall e :: e in page + rest ==> Remaining(e, db, f, cursor)
  {
    forall i, j | 0 <= i < |page| && 0 <= j < |rest|
      ensures Less(rest[j], page[i])
    {
      RestBelow(db, f, cursor, limit, page, next, rest[j], i);
    }
    forall e | e in rest
      ensures Remaining(e, db, f, cursor)
    {
      RestBelow(db, f, cursor, limit, page, next, e, 0);
    }
  }

  /** Paging never repeats or goes back, for any filters and any truncation. */
  lemma {:induction false} WalkSafe(db: Db, fetches: seq<Fetched>, f: Filters, cursor: Option<Cursor>, limit: nat)
    requires Keyed(db) && limit > 0 && Legal(db, fetches, f, cursor, limit)
    ensures Descending(Walk(fetches, f, cursor, limit))
    ensures forall e :: e in Walk(fetches, f, cursor, limit) ==> Remaining(e, db, f, cursor)
  {
    if fetches != [] {
      var (page, next) := Page(fetches[0], f, cursor, limit);
      PageSafe(db, fetches[0], f, cursor, limit);
      if next.Some? {
        WalkSafe(db, fetches[1..], f, next, limit);
        PageThenRest(db, f, cursor, limit, page, next.value, Walk(fetches[1..], f, next, limit));
      } else {
        assert page + [] == page;
      }
    }
  }

  lemma RestBelow(db: Db, f: Filters, cursor: Option<Cursor>, limit: nat, page: seq<AuditEvent>, next: Cursor, e: AuditEvent, i: nat)
    requires limit > 0 && |page| == limit && Descending(page) && i < |page|
    requires next == Cursor(page[limit - 1].timestamp, page[limit - 1].id)
    requires forall x :: x in page ==> Remaining(x, db, f, cursor)
    requires Remaining(e, db, f, Some(next))
    ensures Less(e, page[i]) && Remaining(e, db, f, cursor)
  {
    var last := page[limit - 1];
    assert Less(e, last) && last in page;
    if i < limit - 1 {
      LessTransitive(e, last, page[i]);
    }
    if cursor.Some? {
      BelowTransitive(e, last, cursor.value);
    }
  }

  lemma BelowTransitive(a: AuditEvent, b: AuditEvent, c: Cursor)
    requires Less(a, b) && Below(b, c.ts, c.id)
    ensures Below(a, c.ts, c.id)
  {
    if a.timestamp == b.timestamp == c.ts {
      StrTransitive(a.id, b.id, c.id);
    }
  }

  /** Paging is complete: under the bounds, a finished walk has delivered every matching event of all four sources. */
  lemma {:induction false} WalkComplete(db: Db, fetches: seq<Fetched>, f: Filters, cursor: Option<Cursor>, limit: nat, e: AuditEvent)
    requires Keyed(db) && limit > 0 && Legal(db, fetches, f, cursor, limit) && Finished(fetches, f, cursor, limit)
    requires Fits(db, f, limit) && Remaining(e, db, f, cursor)
    ensures e in Walk(fetches, f, cursor, limit)
  {
    PageComplete(db, fetches[0], f, cursor, limit, e);
    var (page, next) := Page(fetches[0], f, cursor, limit);
    if e !in page {
      WalkComplete(db, fetches[1..], f, next, limit, e);
    }
  }

  /** What a walk has to deliver. */
  ghost predicate ShowsAll(db: Db, es: seq<AuditEvent>, f: Filters) {
    forall e :: e in es <==> e in Merged(db) && Admits(e, f)
  }

  /** An event that straddles `from` is on no page of any walk. */
  lemma {:induction false} StraddlerNeverShown(db: Db, fetches: seq<Fetched>, f: Filters, cursor: Option<Cursor>, limit: nat, e: AuditEvent)
    requires Keyed(db) && limit > 0 && Legal(db, fetches, f, cursor, limit) && Straddles(db, f, e)
    ensures e in Merged(db)
    ensures e !in Walk(fetches, f, cursor, limit)
  {
    if fetches == [] {
      MergedFrom(db, e);
    } else {
      if r :| r in db.runs && r.startedAt < f.from.value && e in RunEvents(r) {
        StraddlingRunIsLost(db, fetches[0], f, cursor, limit, r, e);
      } else {
        var r :| r in db.approvals && r.createdAt < f.from.value && e in ApprovalEvents(r);
        StraddlingApprovalIsLost(db, fetches[0], f, cursor, limit, r, e);
      }
      var next := Page(fetches[0], f, cursor, limit).1;
      if next.Some? {
        StraddlerNeverShown(db, fetches[1..], f, next, limit, e);
      }
    }
  }

  /**
   * Under the bounds, every legal walk that ended is newest first, and is exactly the list of all matching events
   * if and only if no run or approval created before `from` has an event that matches.
   */
  lemma WalkExact(db: Db, fetches: seq<Fetched>, f: Filters, limit: nat)
    requires Keyed(db) && limit > 0 && Legal(db, fetches, f, None, limit) && Finished(fetches, f, None, limit) && Bounds(db, f, limit)
    ensures Descending(Walk(fetches, f, None, limit)) && NewestFirst(Walk(fetches, f, None, limit))
    ensures ShowsAll(db, Walk(fetches, f, None, limit), f) <==> NoneStraddles(db, f)
  {
    WalkSafe(db, fetches, f, None, limit);
    DescendingIsNewestFirst(Walk(fetches, f, None, limit));
    if NoneStraddles(db, f) {
      forall e | e in Merged(db) && Admits(e, f)
        ensures e in Walk(fetches, f, None, limit)
      {
        WalkComplete(db, fetches, f, None, limit, e);
      }
    } else {
      var e := Straddler(db, f);
      StraddlerNeverShown(db, fetches, f, None, limit, e);
    }
  }

  lemma Straddler(db: Db, f: Filters) returns (e: AuditEvent)
    requires !NoneStraddles(db, f)
    ensures Straddles(db, f, e)
  {
    if r, g :| r in db.runs && r.startedAt < f.from.value && g in RunEvents(r) && Admits(g, f) {
      e := g;
    } else {
      var r, g :| r in db.approvals && r.createdAt < f.from.value && g in ApprovalEvents(r) && Admits(g, f);
      e := g;
    }
  }

  // ---------------------------------------------------------------- why the bound on projected tables is there

  /** The runs that began after a given time. */
  function RunsAfter(db: Db, f: Filters, t: int): set<RunRow> {
    set s | s in db.runs && RunWhere(s, f, None) && s.startedAt > t
  }

  lemma OldRunNotFetched(db: Db, fetched: Fetched, f: Filters, limit: nat, r: RunRow)
    requires limit > 0 && IsFetch(db, fetched, f, None, limit) && 4 * limit <= |RunsAfter(db, f, r.startedAt)|
    ensures r !in fetched.runs
  {
    if r in fetched.runs {
      forall s | s in RunsAfter(db, f, r.startedAt)
        ensures s in fetched.runs
      {
        assert RunWhere(s, f, None);
      }
      ListSize(fetched.runs);
      SubsetSize(RunsAfter(db, f, r.startedAt) + {r}, set s | s in fetched.runs);
    }
  }

  lemma LongRunNotFetched(db: Db, fetched: Fetched, f: Filters, limit: nat, r: RunRow, e: AuditEvent)
    requires Keyed(db) && limit > 0 && IsFetch(db, fetched, f, None, limit) && r in db.runs && e in RunEvents(r)
    requires 4 * limit <= |RunsAfter(db, f, r.startedAt)|
    ensures e !in Merged(fetched)
  {
    OldRunNotFetched(db, fetched, f, limit, r);
    if e in Merged(fetched) {
      FetchedKeyed(db, fetched, f, None, limit);
      var s := RunSource(fetched, r, e);
    }
  }

  /** The first page is older than the event, and so is all that follows. */
  lemma FirstPageMisses(db: Db, fetched: Fetched, f: Filters, limit: nat, r: RunRow, e: AuditEvent)
    requires Keyed(db) && limit > 0 && IsFetch(db, fetched, f, None, limit)
    requires r in db.runs && e in RunEvents(r) && 4 * limit <= |RunsAfter(db, f, r.startedAt)|
    requires forall g :: g in Merged(db) && g !in RunEvents(r) ==> g.timestamp < e.timestamp
    ensures var (page, next) := Page(fetched, f, None, limit); e !in page && (next.Some? ==> !BelowCursor(e, next))
  {
    var (page, next) := Page(fetched, f, None, limit);
    PageSafe(db, fetched, f, None, limit);
    FirstPageOlder(db, fetched, f, limit, r, e);
    if next.Some? {
      assert page[limit - 1] in page;
    }
  }

  /** A run that began before 4 × limit others, and ends after everything else: its last events are on no page of any walk. */
  lemma LongRunIsLost(db: Db, fetches: seq<Fetched>, f: Filters, limit: nat, r: RunRow, e: AuditEvent)
    requires Keyed(db) && limit > 0 && Legal(db, fetches, f, None, limit)
    requires r in db.runs && e in RunEvents(r) && 4 * limit <= |RunsAfter(db, f, r.startedAt)|
    requires forall g :: g in Merged(db) && g !in RunEvents(r) ==> g.timestamp < e.timestamp
    ensures e !in Walk(fetches, f, None, limit)
  {
    if fetches != [] {
      var next := Page(fetches[0], f, None, limit).1;
      FirstPageMisses(db, fetches[0], f, limit, r, e);
      if next.Some? {
        NotBelowNotShown(db, fetches[1..], f, next, limit, e);
      }
    }
  }

  lemma NotBelowNotShown(db: Db, fetches: seq<Fetched>, f: Filters, cursor: Option<Cursor>, limit: nat, e: AuditEvent)
    requires Keyed(db) && limit > 0 && Legal(db, fetches, f, cursor, limit) && !BelowCursor(e, cursor)
    ensures e !in Walk(fetches, f, cursor, limit)
  {
    WalkSafe(db, fetches, f, cursor, limit);
  }

  lemma FirstPageOlder(db: Db, fetched: Fetched, f: Filters, limit: nat, r: RunRow, e: AuditEvent)
    requires Keyed(db) && limit > 0 && IsFetch(db, fetched, f, None, limit)
    requires r in db.runs && e in RunEvents(r) && 4 * limit <= |RunsAfter(db, f, r.startedAt)|
    requires forall g :: g in Merged(db) && g !in RunEvents(r) ==> g.timestamp < e.timestamp
    ensures forall g :: g in Page(fetched, f, None, limit).0 ==> g.timestamp < e.timestamp
  {
    SortedFilter(db, fetched, f, None, limit);
    forall g | g in Merged(fetched)
      ensures g in Merged(db) && g !in RunEvents(r)
    {
      FetchedMerge(db, fetched, f, None, limit, g);
      if g in RunEvents(r) {
        LongRunNotFetched(db, fetched, f, limit, r, g);
      }
    }
  }

  /** The walk ends: every page but the last delivers new events, and there are only so many. */
  lemma WalkTerminates(db: Db, fetches: seq<Fetched>, f: Filters, cursor: Option<Cursor>, limit: nat)
    requires Keyed(db) && limit > 0 && Legal(db, fetches, f, cursor, limit)
    ensures |fetches| <= |Merged(db)| + 1
  {
    WalkGrows(db, fetches, f, cursor, limit);
    WalkSafe(db, fetches, f, cursor, limit);
    var es := Walk(fetches, f, cursor, limit);
    forall i, j | 0 <= i < j < |es|
      ensures es[i] != es[j]
    {
      LessTotal(es[i], es[j]);
    }
    SeqSetSize(es);
    SubsetSize(set e | e in es, set e | e in Merged(db));
    ListSize(Merged(db));
  }

  lemma {:induction false} WalkGrows(db: Db, fetches: seq<Fetched>, f: Filters, cursor: Option<Cursor>, limit: nat)
    requires Keyed(db) && limit > 0 && Legal(db, fetches, f, cursor, limit)
    ensures |fetches| <= |Walk(fetches, f, cursor, limit)| + 1
  {
    if fetches != [] {
      PageSafe(db, fetches[0], f, cursor, limit);
      var next := Page(fetches[0], f, cursor, limit).1;
      if next.Some? {
        WalkGrows(db, fetches[1..], f, next, limit);
      }
    }
  }
}
