/** The bounds under which paging is complete are the best possible, for every page size and from the first page on. */
module AuditTieBound {
  import opened Prelude
  import opened AuditProjection
  import opened AuditReader
  import opened AuditBounds
  import opened AuditPaging
  import opened AuditWalks

  const NO_FILTERS := Filters(None, None, None, [], None, None, None, None)

  function As(n: nat): string {
    if n == 0 then "" else ['a'] + As(n - 1)
  }

  lemma {:induction false} AsOrdered(i: nat, j: nat)
    ensures |As(i)| == i
    ensures StrLess(As(i), As(j)) <==> i < j
    ensures !(PROJ <= As(i))
  {
    if i > 0 {
      assert PROJ[0] == 'p' && As(i)[0] == 'a';
      AsOrdered(i - 1, if j > 0 then j - 1 else 0);
      assert As(i)[1..] == As(i - 1);
      if j > 0 {
        assert As(j)[1..] == As(j - 1);
      }
    }
  }

  // ---------------------------------------------------------------- events in four runs of ties

  /** How many events there are at times 0, 1, 2 and 3; ids grow with time. */
  datatype Layout = Layout(low: nat, middle: nat, tight: nat, top: nat)

  function Base(l: Layout): nat { l.low + l.middle }
  function Old(l: Layout): nat { l.low + l.middle + l.tight }
  function Size(l: Layout): nat { Old(l) + l.top }

  function TimeOf(i: nat, l: Layout): int {
    if i < l.low then 0 else if i < l.low + l.middle then 1 else if i < Old(l) then 2 else 3
  }

  function Ev(i: nat, l: Layout): AuditEvent {
    AuditEvent(As(i), TimeOf(i, l), "t", "x", "system", None, None, None, 0, 0, Empty)
  }

  /** Events hi - 1 down to lo. */
  function Slice(l: Layout, hi: nat, lo: nat): seq<AuditEvent>
    requires lo <= hi
  {
    seq(hi - lo, k requires 0 <= k < hi - lo => Ev(hi - 1 - k, l))
  }

  function Log(l: Layout): Db {
    Db(Slice(l, Size(l), 0), [], [], [])
  }

  /** The cursor that a page ending with event c leaves; none before the first page. */
  function CursorAt(c: nat, l: Layout): Option<Cursor> {
    if c == Size(l) then None else Some(Cursor(TimeOf(c, l), As(c)))
  }

  lemma EvOrdered(i: nat, j: nat, l: Layout)
    ensures Less(Ev(i, l), Ev(j, l)) <==> i < j
    ensures i < j ==> TimeOf(i, l) <= TimeOf(j, l)
    ensures Ev(i, l) == Ev(j, l) <==> i == j
    ensures Ev(i, l).id == Ev(j, l).id <==> i == j
  {
    AsOrdered(i, j);
    AsOrdered(j, i);
  }

  lemma SliceMembers(l: Layout, hi: nat, lo: nat)
    requires lo <= hi
    ensures forall e :: e in Slice(l, hi, lo) <==> exists i: nat :: lo <= i < hi && e == Ev(i, l)
  {
    forall e
      ensures e in Slice(l, hi, lo) <==> exists i: nat :: lo <= i < hi && e == Ev(i, l)
    {
      if i: nat :| lo <= i < hi && e == Ev(i, l) {
        assert Slice(l, hi, lo)[hi - 1 - i] == e;
      }
    }
  }

  lemma SliceDescends(l: Layout, hi: nat, lo: nat)
    requires lo <= hi
    ensures Descending(Slice(l, hi, lo))
  {
    forall i, j | 0 <= i < j < hi - lo
      ensures Less(Slice(l, hi, lo)[j], Slice(l, hi, lo)[i])
    {
      EvOrdered(hi - 1 - j, hi - 1 - i, l);
    }
  }

  lemma LogKeyed(l: Layout)
    ensures Keyed(Log(l))
  {
    SliceMembers(l, Size(l), 0);
    forall i: nat, j: nat
      ensures As(i) == As(j) ==> i == j
      ensures !(PROJ <= As(i))
    {
      AsOrdered(i, j);
      AsOrdered(j, i);
    }
  }

  lemma MergedNative(rows: seq<AuditEvent>)
    ensures Merged(Db(rows, [], [], [])) == rows
  {
  }

  lemma TiesBounded(l: Layout, t: int, k: nat)
    requires l.low <= k && l.middle <= k && l.tight <= k && l.top <= k
    ensures |Ties(Log(l), NO_FILTERS, t)| <= k
  {
    var hi := if t == 0 then l.low else if t == 1 then Base(l) else if t == 2 then Old(l) else Size(l);
    var lo := if t == 0 then 0 else if t == 1 then l.low else if t == 2 then Base(l) else Old(l);
    var part := Slice(l, hi, lo);
    SliceMembers(l, Size(l), 0);
    SliceMembers(l, hi, lo);
    var ties := Ties(Log(l), NO_FILTERS, t);
    SubsetSize(ties, set e | e in part);
    ListSize(part);
  }

  lemma NothingProjected(db: Db, f: Filters, limit: nat)
    requires db.runs == [] && db.approvals == [] && db.alerts == []
    ensures ProjectedBound(db, f, limit) && RowsPrecedeEvents(db)
  {
    assert (set r | r in db.runs && RunWhere(r, f, None)) == {};
    assert (set r | r in db.approvals && ApprovalWhere(r, f, None)) == {};
    assert (set r | r in db.alerts && AlertWhere(r, f, None)) == {};
  }

  // ---------------------------------------------------------------- what the page of an answer is

  /** A descending list is determined by its members. */
  lemma {:induction false} DescendingUnique(a: seq<AuditEvent>, b: seq<AuditEvent>)
    requires Descending(a) && Descending(b) && forall e :: e in a <==> e in b
    ensures a == b
  {
    SameEmptiness(a, b);
    if a != [] {
      assert a[0] in b && b[0] in a;
      var i :| 0 <= i < |b| && b[i] == a[0];
      var j :| 0 <= j < |a| && a[j] == b[0];
      LessTotal(a[0], b[0]);
      assert a[0] == b[0];
      TailMembers(a);
      TailMembers(b);
      DescendingUnique(a[1..], b[1..]);
    }
  }

  lemma SameEmptiness<T(!new)>(a: seq<T>, b: seq<T>)
    requires forall x :: x in a <==> x in b
    ensures a == [] <==> b == []
  {
    assert |a| > 0 ==> a[0] in a;
    assert |b| > 0 ==> b[0] in b;
  }

  lemma TailMembers(a: seq<AuditEvent>)
    requires a != [] && Descending(a)
    ensures Descending(a[1..]) && forall e :: e in a[1..] <==> e in a && e != a[0]
  {
    forall e | e in a && e != a[0]
      ensures e in a[1..]
    {
      var i :| 0 <= i < |a| && a[i] == e;
      assert a[1..][i - 1] == e;
    }
    forall e | e in a[1..]
      ensures e in a && e != a[0]
    {
      var i :| 0 <= i < |a| - 1 && a[1..][i] == e;
      assert Less(a[i + 1], a[0]);
      LessTotal(a[0], a[0]);
    }
  }

  /** Of the rows fetched at the cursor of event c, the page is drawn from those below it. */
  lemma PageFrom(l: Layout, rows: seq<AuditEvent>, c: nat, limit: nat, filtered: seq<AuditEvent>)
    requires limit > 0 && c <= Size(l) && IsFetch(Log(l), Db(rows, [], [], []), NO_FILTERS, CursorAt(c, l), limit)
    requires Descending(filtered) && forall e :: e in filtered <==> e in rows && BelowCursor(e, CursorAt(c, l))
    ensures Page(Db(rows, [], [], []), NO_FILTERS, CursorAt(c, l), limit) ==
            if |filtered| > limit then (filtered[..limit], Some(Cursor(filtered[limit - 1].timestamp, filtered[limit - 1].id)))
            else (filtered, None)
  {
    var fetched, cursor := Db(rows, [], [], []), CursorAt(c, l);
    LogKeyed(l);
    MergedNative(rows);
    SortedFilter(Log(l), fetched, NO_FILTERS, cursor, limit);
    DescendingUnique(Sort(Filter(Merged(fetched), NO_FILTERS, cursor)), filtered);
  }

  lemma BelowAt(l: Layout, i: nat, c: nat)
    requires i < Size(l) && c <= Size(l)
    ensures BelowCursor(Ev(i, l), CursorAt(c, l)) <==> i < c
  {
    if c < Size(l) {
      EvOrdered(i, c, l);
    }
  }

  /** The rows at a cursor's time or before: all, or those up to time 2. */
  function Upto(l: Layout, c: nat): nat {
    if c < Old(l) then Old(l) else Size(l)
  }

  lemma WhereAt(l: Layout, i: nat, c: nat)
    requires Base(l) <= c <= Size(l) && i < Size(l)
    ensures NativeWhere(Ev(i, l), NO_FILTERS, CursorAt(c, l)) <==> i < Upto(l, c)
  {
    if c < Size(l) && i < c {
      EvOrdered(i, c, l);
    }
  }

  // ---------------------------------------------------------------- the pages that go well

  function FirstFetched(l: Layout, c: nat, limit: nat): nat {
    if Upto(l, c) > 4 * limit then Upto(l, c) - 4 * limit else 0
  }

  lemma SliceIsFetch(l: Layout, c: nat, limit: nat)
    requires Base(l) <= c <= Size(l)
    ensures IsFetch(Log(l), Db(Slice(l, Upto(l, c), FirstFetched(l, c, limit)), [], [], []), NO_FILTERS, CursorAt(c, l), limit)
  {
    var hi, lo := Upto(l, c), FirstFetched(l, c, limit);
    SliceMembers(l, Size(l), 0);
    SliceMembers(l, hi, lo);
    forall i: nat | i < Size(l)
      ensures NativeWhere(Ev(i, l), NO_FILTERS, CursorAt(c, l)) <==> i < hi
    {
      WhereAt(l, i, c);
    }
    forall i: nat, j: nat
      ensures i < j ==> TimeOf(i, l) <= TimeOf(j, l) && Ev(i, l) != Ev(j, l)
    {
      EvOrdered(i, j, l);
    }
  }

  /** A page of the newest rows, when more than a page of them is below the cursor. */
  lemma GoodPage(l: Layout, from: nat, c: nat, limit: nat)
    requires limit > 0 && c == from + limit && Base(l) <= c <= Size(l) && FirstFetched(l, c, limit) < from
    ensures Page(Db(Slice(l, Upto(l, c), FirstFetched(l, c, limit)), [], [], []), NO_FILTERS, CursorAt(c, l), limit)
            == (Slice(l, c, from), CursorAt(from, l))
  {
    var hi, lo := Upto(l, c), FirstFetched(l, c, limit);
    SliceIsFetch(l, c, limit);
    SliceBelow(l, c, hi, lo);
    SliceDescends(l, c, lo);
    PageFrom(l, Slice(l, hi, lo), c, limit, Slice(l, c, lo));
    assert Slice(l, c, lo)[..limit] == Slice(l, c, from);
    assert Slice(l, c, lo)[limit - 1] == Ev(from, l);
  }

  lemma SliceBelow(l: Layout, c: nat, hi: nat, lo: nat)
    requires lo <= c <= hi <= Size(l)
    ensures forall e :: e in Slice(l, c, lo) <==> e in Slice(l, hi, lo) && BelowCursor(e, CursorAt(c, l))
  {
    SliceMembers(l, hi, lo);
    SliceMembers(l, c, lo);
    forall i: nat | i < Size(l)
      ensures BelowCursor(Ev(i, l), CursorAt(c, l)) <==> i < c
    {
      BelowAt(l, i, c);
    }
  }

  // ---------------------------------------------------------------- the page that skips an event

  /** The events below `hi` except event `low - 1`, the newest of the oldest ones. */
  function Skipping(l: Layout, hi: nat): seq<AuditEvent>
    requires 0 < l.low <= hi
  {
    Slice(l, hi, l.low) + Slice(l, l.low - 1, 0)
  }

  lemma SkippingMembers(l: Layout, hi: nat)
    requires 0 < l.low <= hi
    ensures forall e :: e in Skipping(l, hi) <==> exists i: nat :: i < hi && i != l.low - 1 && e == Ev(i, l)
  {
    SliceMembers(l, hi, l.low);
    SliceMembers(l, l.low - 1, 0);
  }

  lemma SkippingDescends(l: Layout, hi: nat)
    requires 0 < l.low <= hi
    ensures Descending(Skipping(l, hi))
  {
    var a, b := Slice(l, hi, l.low), Slice(l, l.low - 1, 0);
    SliceDescends(l, hi, l.low);
    SliceDescends(l, l.low - 1, 0);
    forall i, j | 0 <= i < |a| && 0 <= j < |b|
      ensures Less(b[j], a[i])
    {
      EvOrdered(l.low - 2 - j, hi - 1 - i, l);
    }
  }

  /** All rows up to time 2 but one. */
  function Cut(l: Layout): seq<AuditEvent>
    requires l.low > 0
  {
    Skipping(l, Old(l))
  }

  lemma CutIsFetch(l: Layout, limit: nat)
    requires Old(l) == 4 * limit + 1 && 0 < l.low && 0 < l.tight
    ensures IsFetch(Log(l), Db(Cut(l), [], [], []), NO_FILTERS, CursorAt(Base(l), l), limit)
  {
    SkippingMembers(l, Old(l));
    SkippingDescends(l, Old(l));
    SliceMembers(l, Size(l), 0);
    forall i: nat | i < Size(l)
      ensures NativeWhere(Ev(i, l), NO_FILTERS, CursorAt(Base(l), l)) <==> i < Old(l)
    {
      WhereAt(l, i, Base(l));
    }
    forall i, j | 0 <= i < j < |Cut(l)|
      ensures Cut(l)[i] != Cut(l)[j] && Cut(l)[i].timestamp >= Cut(l)[j].timestamp
    {
      LessTotal(Cut(l)[i], Cut(l)[j]);
    }
  }

  lemma SkippingBelow(l: Layout, e: AuditEvent)
    requires 0 < l.low
    ensures e in Skipping(l, Base(l)) <==> e in Cut(l) && BelowCursor(e, CursorAt(Base(l), l))
  {
    var c := Base(l);
    SkippingMembers(l, Old(l));
    SkippingMembers(l, c);
    forall i: nat | i < Size(l)
      ensures BelowCursor(Ev(i, l), CursorAt(c, l)) <==> i < c
    {
      BelowAt(l, i, c);
    }
  }

  lemma SkippingAt(l: Layout, limit: nat)
    requires limit > 0 && 0 < l.low && l.middle < limit < l.middle + l.low - 1
    ensures |Skipping(l, Base(l))| == l.middle + l.low - 1
    ensures Skipping(l, Base(l))[limit - 1] == Ev(l.low - 2 - (limit - 1 - l.middle), l)
  {
  }

  lemma LostNotIn(l: Layout, es: seq<AuditEvent>)
    requires 0 < l.low && forall e :: e in es ==> exists i: nat :: i != l.low - 1 && e == Ev(i, l)
    ensures Ev(l.low - 1, l) !in es
  {
    if Ev(l.low - 1, l) in es {
      var i: nat :| i != l.low - 1 && Ev(l.low - 1, l) == Ev(i, l);
      EvOrdered(i, l.low - 1, l);
    }
  }

  /** The page that the cut gives: of what is below the cursor. */
  lemma CutPage(l: Layout, limit: nat)
    requires limit > 0 && Old(l) == 4 * limit + 1 && 0 < l.low && 0 < l.tight
    ensures var filtered := Skipping(l, Base(l));
            Page(Db(Cut(l), [], [], []), NO_FILTERS, CursorAt(Base(l), l), limit) ==
            if |filtered| > limit then (filtered[..limit], Some(Cursor(filtered[limit - 1].timestamp, filtered[limit - 1].id)))
            else (filtered, None)
  {
    CutIsFetch(l, limit);
    SkippingDescends(l, Base(l));
    forall e
      ensures e in Skipping(l, Base(l)) <==> e in Cut(l) && BelowCursor(e, CursorAt(Base(l), l))
    {
      SkippingBelow(l, e);
    }
    PageFrom(l, Cut(l), Base(l), limit, Skipping(l, Base(l)));
  }

  /** The event that was cut off is neither on the page nor below its cursor. */
  lemma CutLoses(l: Layout, limit: nat)
    requires limit > 0 && Old(l) == 4 * limit + 1 && 0 < l.low && 0 < l.tight && l.middle < limit
    ensures var (page, next) := Page(Db(Cut(l), [], [], []), NO_FILTERS, CursorAt(Base(l), l), limit);
            Ev(l.low - 1, l) !in page && (next.Some? ==> !BelowCursor(Ev(l.low - 1, l), next))
  {
    CutPage(l, limit);
    SkippingMembers(l, Base(l));
    LostNotIn(l, Skipping(l, Base(l)));
    if |Skipping(l, Base(l))| > limit {
      SkippingAt(l, limit);
      EvOrdered(l.low - 1, l.low - 2 - (limit - 1 - l.middle), l);
    }
  }

  // ---------------------------------------------------------------- the whole walk

  /** Three pages of newest rows end between time 2 and time 1; the fourth is drawn from the cut. */
  function Aligned(l: Layout, limit: nat): bool {
    && limit > 0 && Old(l) == 4 * limit + 1 && 0 < l.low && 0 < l.tight && l.middle < limit
    && l.tight + l.top == 3 * limit
  }

  lemma NotOnPage(l: Layout, from: nat, c: nat)
    requires 0 < l.low <= from <= c
    ensures Ev(l.low - 1, l) !in Slice(l, c, from)
  {
    SliceMembers(l, c, from);
    LostNotIn(l, Slice(l, c, from));
  }

  /** The page of newest rows from `c` down to `from`. */
  lemma GoodPageMisses(l: Layout, from: nat, c: nat, limit: nat) returns (fetched: Fetched)
    requires Aligned(l, limit) && Base(l) <= from && c == from + limit <= Size(l)
    ensures PageMisses(Log(l), NO_FILTERS, fetched, CursorAt(c, l), CursorAt(from, l), limit, Ev(l.low - 1, l))
  {
    fetched := Db(Slice(l, Upto(l, c), FirstFetched(l, c, limit)), [], [], []);
    SliceIsFetch(l, c, limit);
    GoodPage(l, from, c, limit);
    NotOnPage(l, from, c);
  }

  lemma CutPageMisses(l: Layout, limit: nat) returns (fetched: Fetched, next: Option<Cursor>)
    requires Aligned(l, limit)
    ensures PageMisses(Log(l), NO_FILTERS, fetched, CursorAt(Base(l), l), next, limit, Ev(l.low - 1, l))
    ensures next.Some? ==> !BelowCursor(Ev(l.low - 1, l), next)
  {
    fetched := Db(Cut(l), [], [], []);
    next := Page(fetched, NO_FILTERS, CursorAt(Base(l), l), limit).1;
    CutIsFetch(l, limit);
    CutLoses(l, limit);
  }

  lemma LostIsThere(l: Layout)
    requires 0 < l.low
    ensures Ev(l.low - 1, l) in Merged(Log(l)) && Admits(Ev(l.low - 1, l), NO_FILTERS)
  {
    SliceMembers(l, Size(l), 0);
    MergedNative(Slice(l, Size(l), 0));
  }

  ghost predicate DoomedAt(l: Layout, c: nat, limit: nat)
    requires limit > 0 && 0 < l.low
  {
    c <= Size(l) && Doomed(Log(l), NO_FILTERS, CursorAt(c, l), limit, Ev(l.low - 1, l))
  }

  lemma DoomedAtCut(l: Layout, limit: nat)
    requires Aligned(l, limit)
    ensures DoomedAt(l, Base(l), limit)
  {
    var d, next := CutPageMisses(l, limit);
    LogKeyed(l);
    DoomedOn(Log(l), NO_FILTERS, d, CursorAt(Base(l), l), next, limit, Ev(l.low - 1, l));
  }

  lemma DoomedBefore(l: Layout, from: nat, c: nat, limit: nat)
    requires Aligned(l, limit) && Base(l) <= from && c == from + limit <= Size(l) && DoomedAt(l, from, limit)
    ensures DoomedAt(l, c, limit)
  {
    var a := GoodPageMisses(l, from, c, limit);
    LogKeyed(l);
    DoomedOn(Log(l), NO_FILTERS, a, CursorAt(c, l), CursorAt(from, l), limit, Ev(l.low - 1, l));
  }

  /** The position with `pages` pages of newest rows above the cut. */
  function Mark(l: Layout, pages: nat, limit: nat): nat {
    if pages == 0 then Base(l) else Mark(l, pages - 1, limit) + limit
  }

  lemma {:induction false} MarkGrows(l: Layout, pages: nat, limit: nat)
    ensures Base(l) <= Mark(l, pages, limit)
  {
    if pages > 0 {
      MarkGrows(l, pages - 1, limit);
    }
  }

  lemma {:induction false} DoomedUp(l: Layout, pages: nat, limit: nat)
    requires Aligned(l, limit) && Mark(l, pages, limit) <= Size(l)
    ensures DoomedAt(l, Mark(l, pages, limit), limit)
  {
    if pages == 0 {
      DoomedAtCut(l, limit);
    } else {
      DoomedUp(l, pages - 1, limit);
      MarkGrows(l, pages - 1, limit);
      DoomedBefore(l, Mark(l, pages - 1, limit), Mark(l, pages, limit), limit);
    }
  }

  lemma DoomedAtTop(l: Layout, c: nat, limit: nat)
    requires Aligned(l, limit) && c == Size(l) && DoomedAt(l, c, limit)
    ensures !AllWalksExact(Log(l), NO_FILTERS, limit)
  {
    LostIsThere(l);
    DoomedFromTheStart(Log(l), NO_FILTERS, CursorAt(c, l), limit, Ev(l.low - 1, l));
  }

  lemma LogLoses(l: Layout, limit: nat)
    requires Aligned(l, limit)
    ensures !AllWalksExact(Log(l), NO_FILTERS, limit)
  {
    assert Mark(l, 3, limit) == Mark(l, 2, limit) + limit == Mark(l, 1, limit) + 2 * limit == Size(l);
    DoomedUp(l, 3, limit);
    DoomedAtTop(l, Mark(l, 3, limit), limit);
  }

  function Worst(limit: nat): Layout {
    var tight := (3 * limit + 1) / 2 + 1;
    var middle := if 4 * limit + 1 >= 2 * tight then 4 * limit + 1 - 2 * tight else 0;
    Layout(4 * limit + 1 - middle - tight, middle, tight, if 3 * limit >= tight then 3 * limit - tight else 0)
  }

  lemma WorstIsAligned(limit: nat, k: nat)
    requires limit > 0 && 2 * k > 3 * limit + 1
    ensures var l := Worst(limit); Aligned(l, limit) && l.low <= k && l.middle <= k && l.tight <= k && l.top <= k
  {
  }

  /** The hypotheses of completeness without filters, with at most `k` native rows at any time. */
  ghost predicate TiesWithin(db: Db, k: nat, limit: nat) {
    && Keyed(db) && ProjectedBound(db, NO_FILTERS, limit) && RowsPrecedeEvents(db)
    && forall t :: |Ties(db, NO_FILTERS, t)| <= k
  }

  /** One tie more and completeness is lost: a database and a legal walk from the first page to the end that skips an event. */
  lemma BeyondTheBound(limit: nat, k: nat) returns (db: Db)
    requires limit > 0 && 2 * k > 3 * limit + 1
    ensures TiesWithin(db, k, limit) && !AllWalksExact(db, NO_FILTERS, limit)
  {
    var l := Worst(limit);
    db := Log(l);
    WorstIsAligned(limit, k);
    LogKeyed(l);
    NothingProjected(db, NO_FILTERS, limit);
    forall t
      ensures |Ties(db, NO_FILTERS, t)| <= k
    {
      TiesBounded(l, t, k);
    }
    LogLoses(l, limit);
  }

  /** The tie bound is exact: paging is complete for every database with at most `k` ties if and only if 2k <= 3 × limit + 1. */
  lemma TieBoundExact(limit: nat, k: nat)
    requires limit > 0
    ensures (forall db: Db :: TiesWithin(db, k, limit) ==> AllWalksExact(db, NO_FILTERS, limit)) <==> 2 * k <= 3 * limit + 1
  {
    if 2 * k <= 3 * limit + 1 {
      forall db: Db | TiesWithin(db, k, limit)
        ensures AllWalksExact(db, NO_FILTERS, limit)
      {
        assert TieBound(db, NO_FILTERS, limit);
        WalksExactWithin(db, NO_FILTERS, limit);
      }
    } else {
      var db := BeyondTheBound(limit, k);
    }
  }

  // ---------------------------------------------------------------- filters that SQL does not apply

  /** Only `actor` and the text search restrict anything: both are applied after the cut at 4 × limit. */
  predicate OnlyPostFilters(f: Filters) {
    f.from.None? && f.to.None? && !Truthy(f.scope) && f.eventTypes == [] && !Truthy(f.runId) && !Truthy(f.issueId)
  }

  function AtPlace(e: AuditEvent, i: nat): AuditEvent {
    e.(id := As(i), timestamp := 0 - i)
  }

  /** The filter refuses the one kind of event and admits the other, at any place. */
  ghost predicate Tells(f: Filters, x: AuditEvent, y: AuditEvent) {
    forall i: nat :: !Admits(AtPlace(x, i), f) && Admits(AtPlace(y, i), f)
  }

  /** Newest first: n refused events and an admitted one after them. */
  function Sparse(n: nat, m: nat, x: AuditEvent, y: AuditEvent): Db {
    Db(SparseRows(n, m, x, y), [], [], [])
  }

  function SparseRows(n: nat, m: nat, x: AuditEvent, y: AuditEvent): seq<AuditEvent> {
    seq(m, i requires 0 <= i < m => AtPlace(if i < n then x else y, i))
  }

  /** The row at the place that a timestamp stands for. */
  predicate InPlace(e: AuditEvent, n: nat, m: nat, x: AuditEvent, y: AuditEvent) {
    var i := 0 - e.timestamp;
    0 <= i < m && e == AtPlace(if i < n then x else y, i)
  }

  lemma SparseMembers(n: nat, m: nat, x: AuditEvent, y: AuditEvent, e: AuditEvent)
    ensures e in SparseRows(n, m, x, y) <==> InPlace(e, n, m, x, y)
  {
    var rows := SparseRows(n, m, x, y);
    if e in rows {
      var i :| 0 <= i < m && rows[i] == e;
      assert e == AtPlace(if i < n then x else y, i);
    }
    if InPlace(e, n, m, x, y) {
      assert rows[0 - e.timestamp] == e;
    }
  }

  lemma SparseKeyed(n: nat, m: nat, x: AuditEvent, y: AuditEvent)
    ensures Keyed(Sparse(n, m, x, y))
  {
    forall e | e in SparseRows(n, m, x, y)
      ensures InPlace(e, n, m, x, y) && e.id == As(0 - e.timestamp)
    {
      SparseMembers(n, m, x, y, e);
    }
    forall i: nat, j: nat
      ensures As(i) == As(j) ==> i == j
      ensures !(PROJ <= As(i))
    {
      AsOrdered(i, j);
      AsOrdered(j, i);
    }
  }

  lemma SparseFront(n: nat, x: AuditEvent, y: AuditEvent, i: nat, j: nat)
    requires i < j < n
    ensures var rows := SparseRows(n, n, x, y); rows[i] != rows[j] && rows[i].timestamp > rows[j].timestamp
  {
    assert SparseRows(n, n, x, y)[i] == AtPlace(x, i) && SparseRows(n, n, x, y)[j] == AtPlace(x, j);
  }

  lemma SparseRest(n: nat, m: nat, x: AuditEvent, y: AuditEvent, f: Filters, e: AuditEvent)
    requires OnlyPostFilters(f) && m == n + 1
    ensures e in SparseRows(n, n, x, y) ==> e in SparseRows(n, m, x, y) && NativeWhere(e, f, None) && e.timestamp > 0 - n
    ensures e in SparseRows(n, m, x, y) && e !in SparseRows(n, n, x, y) ==> e.timestamp == 0 - n
  {
    SparseMembers(n, n, x, y, e);
    SparseMembers(n, m, x, y, e);
  }

  lemma SparseCut(n: nat, m: nat, x: AuditEvent, y: AuditEvent, f: Filters, limit: nat)
    requires n == 4 * limit && m == n + 1 && OnlyPostFilters(f)
    ensures IsFetch(Sparse(n, m, x, y), Sparse(n, n, x, y), f, None, limit)
  {
    var rows, table := SparseRows(n, n, x, y), SparseRows(n, m, x, y);
    forall i, j | 0 <= i < j < |rows|
      ensures rows[i] != rows[j] && rows[i].timestamp >= rows[j].timestamp
    {
      SparseFront(n, x, y, i, j);
    }
    forall e
      ensures e in rows ==> e in table && NativeWhere(e, f, None) && e.timestamp > 0 - n
      ensures e in table && e !in rows ==> e.timestamp == 0 - n
    {
      SparseRest(n, m, x, y, f, e);
    }
  }

  lemma SparsePage(n: nat, x: AuditEvent, y: AuditEvent, f: Filters, limit: nat)
    requires limit > 0 && Tells(f, x, y)
    ensures Page(Sparse(n, n, x, y), f, None, limit) == ([], None)
  {
    MergedNative(SparseRows(n, n, x, y));
    forall e | e in SparseRows(n, n, x, y)
      ensures !Admits(e, f)
    {
      SparseMembers(n, n, x, y, e);
      var i: nat := 0 - e.timestamp;
      assert e == AtPlace(x, i);
    }
    NothingMatches(Sparse(n, n, x, y), f, None, limit);
  }

  lemma LastIsThere(n: nat, m: nat, x: AuditEvent, y: AuditEvent, f: Filters)
    requires Tells(f, x, y) && n < m
    ensures AtPlace(y, n) in Merged(Sparse(n, m, x, y)) && Admits(AtPlace(y, n), f)
  {
    MergedNative(SparseRows(n, m, x, y));
    var rows := SparseRows(n, m, x, y);
    assert rows[n] == AtPlace(y, n) && rows[n] in rows;
  }

  /** A legal answer ends the walk with an empty first page although a matching event is behind the cut. */
  lemma SparseLoses(n: nat, m: nat, x: AuditEvent, y: AuditEvent, f: Filters, limit: nat)
    requires limit > 0 && n == 4 * limit && m == n + 1 && OnlyPostFilters(f) && Tells(f, x, y)
    ensures !AllWalksExact(Sparse(n, m, x, y), f, limit)
  {
    SparsePageMisses(n, m, x, y, f, limit);
    SparseKeyed(n, m, x, y);
    DoomedOn(Sparse(n, m, x, y), f, Sparse(n, n, x, y), None, None, limit, AtPlace(y, n));
    LastIsThere(n, m, x, y, f);
    DoomedFromTheStart(Sparse(n, m, x, y), f, None, limit, AtPlace(y, n));
  }

  lemma SparsePageMisses(n: nat, m: nat, x: AuditEvent, y: AuditEvent, f: Filters, limit: nat)
    requires limit > 0 && n == 4 * limit && m == n + 1 && OnlyPostFilters(f) && Tells(f, x, y)
    ensures PageMisses(Sparse(n, m, x, y), f, Sparse(n, n, x, y), None, None, limit, AtPlace(y, n))
  {
    SparseCut(n, m, x, y, f, limit);
    SparsePage(n, x, y, f, limit);
  }

  /** The hypotheses of completeness with at most `bound` native rows that SQL admits. */
  ghost predicate NativeWithin(db: Db, f: Filters, bound: nat, limit: nat) {
    && Keyed(db) && ProjectedBound(db, f, limit) && RowsPrecedeEvents(db)
    && |set e | e in db.native && NativeFilter(e, f)| <= bound
  }

  lemma SparseIsWithin(n: nat, m: nat, x: AuditEvent, y: AuditEvent, f: Filters, bound: nat, limit: nat)
    requires m <= bound
    ensures NativeWithin(Sparse(n, m, x, y), f, bound, limit)
  {
    var db := Sparse(n, m, x, y);
    SparseKeyed(n, m, x, y);
    NothingProjected(db, f, limit);
    SubsetSize(set e | e in db.native && NativeFilter(e, f), set e | e in db.native);
    ListSize(db.native);
  }

  lemma OneFetchIsEnough(db: Db, f: Filters, bound: nat, limit: nat)
    requires limit > 0 && bound <= 4 * limit && f.from.None? && NativeWithin(db, f, bound, limit)
    ensures AllWalksExact(db, f, limit)
  {
    WalksExactWithin(db, f, limit);
  }

  /**
   * For a filter that SQL does not apply, the size bound is exact: paging is complete for every database with at
   * most `bound` native rows if and only if one fetch of 4 × limit rows holds them all.
   */
  lemma PostFilterBoundExact(f: Filters, x: AuditEvent, y: AuditEvent, limit: nat, bound: nat)
    requires limit > 0 && OnlyPostFilters(f) && Tells(f, x, y)
    ensures (forall db: Db :: NativeWithin(db, f, bound, limit) ==> AllWalksExact(db, f, limit)) <==> bound <= 4 * limit
  {
    if bound <= 4 * limit {
      forall db: Db | NativeWithin(db, f, bound, limit)
        ensures AllWalksExact(db, f, limit)
      {
        OneFetchIsEnough(db, f, bound, limit);
      }
    } else {
      var db := OneFetchIsNotEnough(f, x, y, limit, bound);
    }
  }

  lemma OneFetchIsNotEnough(f: Filters, x: AuditEvent, y: AuditEvent, limit: nat, bound: nat) returns (db: Db)
    requires limit > 0 && OnlyPostFilters(f) && Tells(f, x, y) && 4 * limit < bound
    ensures NativeWithin(db, f, bound, limit) && !AllWalksExact(db, f, limit)
  {
    var n, m := 4 * limit, 4 * limit + 1;
    db := Sparse(n, m, x, y);
    SparseIsWithin(n, m, x, y, f, bound, limit);
    SparseLoses(n, m, x, y, f, limit);
  }

  /** So for every `actor` prefix. */
  lemma ActorBoundExact(actor: string, limit: nat, bound: nat)
    requires limit > 0 && actor != ""
    ensures var f := Filters(None, None, None, [], Some(actor), None, None, None);
            ((forall db: Db :: NativeWithin(db, f, bound, limit) ==> AllWalksExact(db, f, limit)) <==> bound <= 4 * limit)
  {
    var f := Filters(None, None, None, [], Some(actor), None, None, None);
    var x := AuditEvent("", 0, "t", "", "system", None, None, None, 0, 0, Empty);
    var y := x.(actor := actor);
    assert forall i: nat :: AtPlace(x, i).actor == "" && AtPlace(y, i).actor == actor;
    PostFilterBoundExact(f, x, y, limit, bound);
  }
}
