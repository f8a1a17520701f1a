/** Legal walks exist for every database, filter, cursor and page size. */
module AuditWalks {
  import opened Prelude
  import opened AuditProjection
  import opened AuditReader
  import opened AuditBounds
  import opened AuditPaging

  // ---------------------------------------------------------------- a query has an answer

  function InsertBy<R>(rows: seq<R>, r: R, key: R -> int): seq<R> {
    if rows == [] || key(rows[|rows| - 1]) >= key(r) then rows + [r]
    else InsertBy(rows[..|rows| - 1], r, key) + [rows[|rows| - 1]]
  }

  ghost predicate SortedDistinct<R(!new)>(rows: seq<R>, key: R -> int) {
    forall i, j :: 0 <= i < j < |rows| ==> rows[i] != rows[j] && key(rows[i]) >= key(rows[j])
  }

  lemma {:induction false} InsertByMembers<R(!new)>(rows: seq<R>, r: R, key: R -> int)
    ensures |InsertBy(rows, r, key)| == |rows| + 1
    ensures forall x :: x in InsertBy(rows, r, key) <==> x in rows || x == r
  {
    if rows != [] && key(rows[|rows| - 1]) < key(r) {
      var init, last := rows[..|rows| - 1], rows[|rows| - 1];
      InsertByMembers(init, r, key);
      assert rows == init + [last];
    }
  }

  lemma SnocSorted<R(!new)>(rows: seq<R>, last: R, key: R -> int)
    requires SortedDistinct(rows, key) && forall x :: x in rows ==> x != last && key(x) >= key(last)
    ensures SortedDistinct(rows + [last], key)
  {
  }

  lemma {:induction false} InsertByFacts<R(!new)>(rows: seq<R>, r: R, key: R -> int)
    requires SortedDistinct(rows, key) && r !in rows
    ensures SortedDistinct(InsertBy(rows, r, key), key) && |InsertBy(rows, r, key)| == |rows| + 1
    ensures forall x :: x in InsertBy(rows, r, key) <==> x in rows || x == r
  {
    InsertByMembers(rows, r, key);
    if rows != [] && key(rows[|rows| - 1]) < key(r) {
      var init, last := rows[..|rows| - 1], rows[|rows| - 1];
      InsertByFacts(init, r, key);
      forall x | x in InsertBy(init, r, key)
        ensures x != last && key(x) >= key(last)
      {
        if x in init {
          var i :| 0 <= i < |init| && init[i] == x;
        }
      }
      SnocSorted(InsertBy(init, r, key), last, key);
    } else {
      forall x | x in rows
        ensures x != r && key(x) >= key(r)
      {
        var i :| 0 <= i < |rows| && rows[i] == x;
      }
      SnocSorted(rows, r, key);
    }
  }

  /** One more row in the table: it is left out, appended to the answer, or takes the place of the last row. */
  lemma OneMoreRow<R(!new)>(rows: seq<R>, table: seq<R>, r: R, where: R -> bool, key: R -> int, n: nat) returns (all: seq<R>)
    requires IsQuery(rows, table, where, key, n)
    ensures IsQuery(all, table + [r], where, key, n)
  {
    assert forall x :: x in table + [r] <==> x in table || x == r;
    all := rows;
    if where(r) && r !in rows && r !in table {
      if |rows| < n {
        InsertByFacts(rows, r, key);
        all := InsertBy(rows, r, key);
      } else if n > 0 && key(rows[n - 1]) < key(r) {
        all := ReplaceLast(rows, table, r, where, key, n);
      }
    }
  }

  lemma ReplaceLast<R(!new)>(rows: seq<R>, table: seq<R>, r: R, where: R -> bool, key: R -> int, n: nat) returns (all: seq<R>)
    requires IsQuery(rows, table, where, key, n) && |rows| == n > 0 && r !in rows && r !in table && where(r) && key(rows[n - 1]) < key(r)
    ensures IsQuery(all, table + [r], where, key, n)
  {
    var init, last := rows[..n - 1], rows[n - 1];
    assert rows == init + [last];
    assert forall x :: x in rows <==> x in init || x == last;
    InsertByFacts(init, r, key);
    all := InsertBy(init, r, key);
    forall x | x in all
      ensures key(x) >= key(last)
    {
      if x in init {
        var i :| 0 <= i < n - 1 && init[i] == x;
        assert rows[i] == x;
      }
    }
    forall x | x in table + [r] && where(x) && x !in all
      ensures key(x) <= key(last)
    {
      assert last in rows;
    }
    assert last !in init;
  }

  lemma {:induction false} QueryExists<R(!new)>(table: seq<R>, where: R -> bool, key: R -> int, n: nat) returns (rows: seq<R>)
    ensures IsQuery(rows, table, where, key, n)
  {
    if table == [] {
      rows := [];
    } else {
      rows := QueryExists(table[..|table| - 1], where, key, n);
      rows := OneMoreRow(rows, table[..|table| - 1], table[|table| - 1], where, key, n);
      assert table[..|table| - 1] + [table[|table| - 1]] == table;
    }
  }

  lemma FetchExists(db: Db, f: Filters, cursor: Option<Cursor>, limit: nat) returns (fetched: Fetched)
    ensures IsFetch(db, fetched, f, cursor, limit)
  {
    var native := QueryExists(db.native, (e: AuditEvent) => NativeWhere(e, f, cursor), (e: AuditEvent) => e.timestamp, 4 * limit);
    var runs := QueryExists(db.runs, (r: RunRow) => RunWhere(r, f, cursor), (r: RunRow) => r.startedAt, 4 * limit);
    var approvals := QueryExists(db.approvals, (r: ApprovalRow) => ApprovalWhere(r, f, cursor), (r: ApprovalRow) => r.createdAt, 4 * limit);
    var alerts := QueryExists(db.alerts, (r: AlertRow) => AlertWhere(r, f, cursor), (r: AlertRow) => r.firedAt, 4 * limit);
    fetched := Db(native, runs, approvals, alerts);
  }

  // ---------------------------------------------------------------- the walk that a query function determines

  /** What the four queries return, page by page, until there is no next cursor or the page cap is reached. */
  function Fetches(query: Option<Cursor> -> Fetched, f: Filters, cursor: Option<Cursor>, limit: nat, pages: nat): seq<Fetched>
    requires limit > 0
    decreases pages
  {
    if pages == 0 then []
    else
      var next := Page(query(cursor), f, cursor, limit).1;
      if next.None? then [query(cursor)] else [query(cursor)] + Fetches(query, f, next, limit, pages - 1)
  }

  lemma FetchesNext(query: Option<Cursor> -> Fetched, f: Filters, cursor: Option<Cursor>, limit: nat, pages: nat)
    requires limit > 0 && pages > 0
    ensures var fetches, next := Fetches(query, f, cursor, limit, pages), Page(query(cursor), f, cursor, limit).1;
            && fetches != [] && fetches[0] == query(cursor)
            && fetches[1..] == if next.None? then [] else Fetches(query, f, next, limit, pages - 1)
  {
  }

  /** One more page in front of a walk that asks and stops as it should. */
  lemma PageInFront(ok: (Fetched, Option<Cursor>) -> bool, fetched: Fetched, rest: seq<Fetched>, f: Filters, cursor: Option<Cursor>, next: Option<Cursor>, limit: nat)
    requires limit > 0 && ok(fetched, cursor) && next == Page(fetched, f, cursor, limit).1
    requires if next.None? then rest == [] else Answered(ok, rest, f, next, limit) && StopsAtEnd(rest, f, next, limit)
    ensures Answered(ok, [fetched] + rest, f, cursor, limit) && StopsAtEnd([fetched] + rest, f, cursor, limit)
    ensures Finished([fetched] + rest, f, cursor, limit) <==> next.None? || Finished(rest, f, next, limit)
  {
    assert ([fetched] + rest)[1..] == rest;
  }

  ghost predicate WellAsked(ok: (Fetched, Option<Cursor>) -> bool, fetches: seq<Fetched>, f: Filters, cursor: Option<Cursor>, limit: nat, pages: nat)
    requires limit > 0
  {
    && Answered(ok, fetches, f, cursor, limit) && StopsAtEnd(fetches, f, cursor, limit)
    && (Finished(fetches, f, cursor, limit) || |fetches| == pages)
  }

  lemma WellAskedNext(ok: (Fetched, Option<Cursor>) -> bool, all: seq<Fetched>, fetched: Fetched, rest: seq<Fetched>, f: Filters, cursor: Option<Cursor>,
                      next: Option<Cursor>, limit: nat, pages: nat, more: nat)
    requires limit > 0 && ok(fetched, cursor) && next == Page(fetched, f, cursor, limit).1 && all == [fetched] + rest && pages == more + 1
    requires if next.None? then rest == [] else WellAsked(ok, rest, f, next, limit, more)
    ensures WellAsked(ok, all, f, cursor, limit, pages)
  {
    PageInFront(ok, fetched, rest, f, cursor, next, limit);
  }

  /** What comes after the first page. */
  function RestOf(query: Option<Cursor> -> Fetched, f: Filters, next: Option<Cursor>, limit: nat, pages: nat): seq<Fetched>
    requires limit > 0
  {
    if next.None? then [] else Fetches(query, f, next, limit, pages)
  }

  lemma FetchesUnfold(query: Option<Cursor> -> Fetched, f: Filters, cursor: Option<Cursor>, next: Option<Cursor>, limit: nat, pages: nat)
    requires limit > 0 && next == Page(query(cursor), f, cursor, limit).1
    ensures Fetches(query, f, cursor, limit, pages + 1) == [query(cursor)] + RestOf(query, f, next, limit, pages)
  {
  }

  lemma {:induction false} FetchesAnswered(ok: (Fetched, Option<Cursor>) -> bool, query: Option<Cursor> -> Fetched, f: Filters, cursor: Option<Cursor>,
                                           limit: nat, pages: nat)
    requires limit > 0 && forall c :: ok(query(c), c)
    ensures WellAsked(ok, Fetches(query, f, cursor, limit, pages), f, cursor, limit, pages)
    decreases pages
  {
    if pages > 0 {
      var next := Page(query(cursor), f, cursor, limit).1;
      if next.Some? {
        FetchesAnswered(ok, query, f, next, limit, pages - 1);
      }
      FetchesUnfold(query, f, cursor, next, limit, pages - 1);
      WellAskedNext(ok, Fetches(query, f, cursor, limit, pages), query(cursor), RestOf(query, f, next, limit, pages - 1), f, cursor, next, limit,
                    pages, pages - 1);
    }
  }

  // ---------------------------------------------------------------- existence

  ghost function AnswerAt(db: Db, f: Filters, limit: nat, cursor: Option<Cursor>): (fetched: Fetched)
    ensures IsFetch(db, fetched, f, cursor, limit)
  {
    AnyFetch(db, f, cursor, limit);
    var fetched :| IsFetch(db, fetched, f, cursor, limit);
    fetched
  }

  lemma AnyFetch(db: Db, f: Filters, cursor: Option<Cursor>, limit: nat)
    ensures exists fetched: Fetched :: IsFetch(db, fetched, f, cursor, limit)
  {
    var fetched := FetchExists(db, f, cursor, limit);
  }

  /** From every cursor there is a legal walk that ends. */
  lemma LegalWalkExists(db: Db, f: Filters, cursor: Option<Cursor>, limit: nat) returns (fetches: seq<Fetched>)
    requires Keyed(db) && limit > 0
    ensures Legal(db, fetches, f, cursor, limit) && Finished(fetches, f, cursor, limit)
  {
    var query := (c: Option<Cursor>) => AnswerAt(db, f, limit, c);
    fetches := Fetches(query, f, cursor, limit, |Merged(db)| + 2);
    FetchesAnswered(Answers(db, f, limit), query, f, cursor, limit, |Merged(db)| + 2);
    WalkTerminates(db, fetches, f, cursor, limit);
  }

  /** Every legal walk from the start that ended shows all matching events. */
  ghost predicate AllWalksExact(db: Db, f: Filters, limit: nat)
    requires limit > 0
  {
    forall fetches: seq<Fetched> :: Legal(db, fetches, f, None, limit) && Finished(fetches, f, None, limit) ==>
      ShowsAll(db, Walk(fetches, f, None, limit), f)
  }

  /** Under the bounds, paging with a `from` filter is complete if and only if no matching event straddles it. */
  lemma WalksExactWithin(db: Db, f: Filters, limit: nat)
    requires Keyed(db) && limit > 0 && Bounds(db, f, limit)
    ensures AllWalksExact(db, f, limit) <==> NoneStraddles(db, f)
  {
    var some := LegalWalkExists(db, f, None, limit);
    WalkExact(db, some, f, limit);
    forall fetches: seq<Fetched> | Legal(db, fetches, f, None, limit) && Finished(fetches, f, None, limit)
      ensures ShowsAll(db, Walk(fetches, f, None, limit), f) <==> NoneStraddles(db, f)
    {
      WalkExact(db, fetches, f, limit);
    }
  }

  // ---------------------------------------------------------------- walks that miss an event

  ghost predicate Misses(db: Db, f: Filters, cursor: Option<Cursor>, limit: nat, lost: AuditEvent, fetches: seq<Fetched>)
    requires limit > 0
  {
    && Legal(db, fetches, f, cursor, limit) && Finished(fetches, f, cursor, limit)
    && lost !in Walk(fetches, f, cursor, limit)
  }

  /** A page that does not show the event. */
  ghost predicate PageMisses(db: Db, f: Filters, fetched: Fetched, cursor: Option<Cursor>, next: Option<Cursor>, limit: nat, lost: AuditEvent)
    requires limit > 0
  {
    && IsFetch(db, fetched, f, cursor, limit)
    && next == Page(fetched, f, cursor, limit).1 && lost !in Page(fetched, f, cursor, limit).0
  }

  lemma MissesOn(db: Db, f: Filters, fetched: Fetched, cursor: Option<Cursor>, next: Option<Cursor>, limit: nat, lost: AuditEvent, rest: seq<Fetched>)
    requires limit > 0 && PageMisses(db, f, fetched, cursor, next, limit, lost)
    requires if next.None? then rest == [] else Misses(db, f, next, limit, lost, rest)
    ensures Misses(db, f, cursor, limit, lost, [fetched] + rest)
  {
    PageInFront(Answers(db, f, limit), fetched, rest, f, cursor, next, limit);
    assert ([fetched] + rest)[1..] == rest;
  }

  /** Once a page has passed by an event, no later page shows it. */
  lemma PassedBy(db: Db, f: Filters, cursor: Option<Cursor>, limit: nat, lost: AuditEvent) returns (rest: seq<Fetched>)
    requires Keyed(db) && limit > 0 && !BelowCursor(lost, cursor)
    ensures Misses(db, f, cursor, limit, lost, rest)
  {
    rest := LegalWalkExists(db, f, cursor, limit);
    WalkSafe(db, rest, f, cursor, limit);
  }

  /** Some legal walk from the cursor misses the event. */
  ghost predicate Doomed(db: Db, f: Filters, cursor: Option<Cursor>, limit: nat, lost: AuditEvent)
    requires limit > 0
  {
    exists fetches :: Misses(db, f, cursor, limit, lost, fetches)
  }

  lemma DoomedOn(db: Db, f: Filters, fetched: Fetched, cursor: Option<Cursor>, next: Option<Cursor>, limit: nat, lost: AuditEvent)
    requires Keyed(db) && limit > 0 && PageMisses(db, f, fetched, cursor, next, limit, lost)
    requires next.None? || !BelowCursor(lost, next) || Doomed(db, f, next, limit, lost)
    ensures Doomed(db, f, cursor, limit, lost)
  {
    var rest: seq<Fetched> := [];
    if next.Some? {
      if Doomed(db, f, next, limit, lost) {
        rest :| Misses(db, f, next, limit, lost, rest);
      } else {
        rest := PassedBy(db, f, next, limit, lost);
      }
    }
    MissesOn(db, f, fetched, cursor, next, limit, lost, rest);
  }

  lemma DoomedFromTheStart(db: Db, f: Filters, cursor: Option<Cursor>, limit: nat, lost: AuditEvent)
    requires limit > 0 && cursor.None? && Doomed(db, f, cursor, limit, lost) && lost in Merged(db) && Admits(lost, f)
    ensures !AllWalksExact(db, f, limit)
  {
    assert cursor == None;
    var fetches :| Misses(db, f, cursor, limit, lost, fetches);
    assert Misses(db, f, None, limit, lost, fetches);
  }

  // ---------------------------------------------------------------- an instance

  /** A run that began before `from` and completed after it, alone in the log. */
  lemma StraddlingRunExample(r: RunRow, from: int, limit: nat)
    requires limit > 0 && r.status == "completed" && r.completedAt.Some? && r.startedAt < from <= r.completedAt.value
    ensures var db, f := Db([], [r], [], []), Filters(Some(from), None, None, [], None, None, None, None);
            Keyed(db) && Bounds(db, f, limit) && !AllWalksExact(db, f, limit)
  {
    var db, f := Db([], [r], [], []), Filters(Some(from), None, None, [], None, None, None, None);
    var e := RunEvents(r)[1];
    OneRunFits(r, f, limit);
    assert Admits(e, f);
    assert r in db.runs && e in RunEvents(r);
    assert !NoneStraddles(db, f);
    WalksExactWithin(db, f, limit);
  }

  lemma OneRunFits(r: RunRow, f: Filters, limit: nat)
    requires limit > 0 && (r.completedAt.Some? ==> r.startedAt <= r.completedAt.value)
    ensures Keyed(Db([], [r], [], [])) && Bounds(Db([], [r], [], []), f, limit)
  {
    var db := Db([], [r], [], []);
    SubsetSize(set s | s in db.runs && RunWhere(s, f, None), {r});
    assert (set s | s in db.approvals && ApprovalWhere(s, f, None)) == {};
    assert (set s | s in db.alerts && AlertWhere(s, f, None)) == {};
    assert (set e | e in db.native && NativeFilter(e, f)) == {};
  }
}
