/** Answering cost queries live, from the rollup table, or from both (packages/core/src/cost/aggregate.ts). */
module CostAggregate {
  import opened Prelude
  import opened CostGrouping
  import opened CostModel
  import opened CostRollup
  import opened CostHistory
  import opened CostAnswers

  const UNASSIGNED_KEY := "team:unassigned"
  const UNASSIGNED_TEAM := "(unassigned)"

  function NormalizeTeamId(id: Option<string>): (string, string) {
    if id.None? || id.value == "" then (UNASSIGNED_KEY, UNASSIGNED_TEAM) else ("team:" + id.value, id.value)
  }

  function TeamKey(k: BucketKey): string { NormalizeTeamId(Some(k.linearTeamId)).0 }
  function TeamLabel(k: BucketKey): string { NormalizeTeamId(Some(k.linearTeamId)).1 }
  function RepoKey(k: BucketKey): string { "repo:" + k.repoUrl }
  function RepoLabel(k: BucketKey): string { k.repoUrl }
  function PipelineKey(k: BucketKey): string { "pipeline:" + k.pipelineKey }
  function PipelineLabel(k: BucketKey): string { k.pipelineKey }
  function DayKey(k: BucketKey): int { k.day }

  function FinalizeRoi(m: Metrics, hourlyRate: real): Roi {
    if m.dollars == 0.0 then (if m.timeSavedHours > 0.0 then Infinite else Finite(0.0))
    else Finite(m.timeSavedHours * hourlyRate / m.dollars)
  }

  function HourlyRate(config: CostConfig): real {
    if config.hourlyEngRate.Some? then config.hourlyEngRate.value else 50.0
  }

  function SnapToUtcDayStart(t: int): int { DayOf(t) * DAY }

  // ---------------------------------------------------------------- bucket maps

  /** Create the bucket on first sight, then add: the key keeps the label it was first seen with. */
  function Bump(rows: map<string, BreakdownRow>, key: string, name: string, m: Metrics): map<string, BreakdownRow> {
    var row := if key in rows then rows[key] else BreakdownRow(key, name, ZERO, Finite(0.0));
    rows[key := row.(m := Add(row.m, m))]
  }

  function BumpDay(rows: map<int, DailyRow>, day: int, m: Metrics): map<int, DailyRow> {
    var r := if day in rows then rows[day] else DailyRow(day, 0, 0, 0.0, 0.0);
    rows[day := DailyRow(day, r.runs + m.runs, r.prsMerged + m.prsMerged, r.dollars + m.dollars, r.timeSavedHours + m.timeSavedHours)]
  }

  function Buckets(items: seq<Item<BucketKey>>, key: BucketKey -> string, name: BucketKey -> string): map<string, BreakdownRow> {
    if items == [] then map[]
    else
      var last := items[|items| - 1];
      Bump(Buckets(items[..|items| - 1], key, name), key(last.key), name(last.key), last.m)
  }

  function Days(items: seq<Item<BucketKey>>): map<int, DailyRow> {
    if items == [] then map[]
    else
      var last := items[|items| - 1];
      BumpDay(Days(items[..|items| - 1]), last.key.day, last.m)
  }

  function Finalize(rows: map<string, BreakdownRow>, hourlyRate: real): map<string, BreakdownRow> {
    map k | k in rows :: rows[k].(roi := FinalizeRoi(rows[k].m, hourlyRate))
  }

  /** The result of folding a list of keyed metrics, in list order. */
  function Fold(items: seq<Item<BucketKey>>, window: Window, hourlyRate: real, truncated: bool): AggregateResult {
    Result(Sum(items), Buckets(items, TeamKey, TeamLabel), Buckets(items, RepoKey, RepoLabel),
           Buckets(items, PipelineKey, PipelineLabel), Days(items), window, hourlyRate, truncated)
  }

  function Result(m: Metrics, byTeam: map<string, BreakdownRow>, byRepo: map<string, BreakdownRow>, byPipeline: map<string, BreakdownRow>,
                  byDay: map<int, DailyRow>, window: Window, hourlyRate: real, truncated: bool): AggregateResult {
    AggregateResult(Summary(window, m, FinalizeRoi(m, hourlyRate), truncated),
                    Finalize(byTeam, hourlyRate), Finalize(byRepo, hourlyRate), Finalize(byPipeline, hourlyRate), byDay)
  }

  function ToDaily(day: int, m: Metrics): DailyRow {
    DailyRow(day, m.runs, m.prsMerged, m.dollars, m.timeSavedHours)
  }

  /** The bucket map of a fold is the group-by table. */
  lemma {:induction false} BucketsGroup(items: seq<Item<BucketKey>>, key: BucketKey -> string, name: BucketKey -> string)
    ensures Buckets(items, key, name).Keys == Group(Rekey(items, key)).Keys
    ensures forall k :: k in Buckets(items, key, name) ==>
              var row := Buckets(items, key, name)[k];
              row.key == k && row.m == Group(Rekey(items, key))[k] && row.roi == Finite(0.0)
  {
    if items != [] {
      var init, last := items[..|items| - 1], items[|items| - 1];
      BucketsGroup(init, key, name);
      assert init + [last] == items;
      GroupSnoc(init, last, key);
    }
  }

  lemma {:induction false} DaysGroup(items: seq<Item<BucketKey>>)
    ensures Days(items).Keys == Group(Rekey(items, DayKey)).Keys
    ensures forall d :: d in Days(items) ==> Days(items)[d] == ToDaily(d, Group(Rekey(items, DayKey))[d])
  {
    if items != [] {
      var init, last := items[..|items| - 1], items[|items| - 1];
      DaysGroup(init);
      assert init + [last] == items;
      GroupSnoc(init, last, DayKey);
    }
  }

  // ---------------------------------------------------------------- a fold shows its items

  /** The label of a bucket is that of the first item filed under its key. */
  lemma {:induction false} LabelIsFirst(items: seq<Item<BucketKey>>, key: BucketKey -> string, name: BucketKey -> string, k: string)
    ensures k in Buckets(items, key, name) <==> Filed(items, key, k) != []
    ensures k in Buckets(items, key, name) ==> Buckets(items, key, name)[k].name == name(Filed(items, key, k)[0].key)
  {
    if items != [] {
      LabelIsFirst(items[..|items| - 1], key, name, k);
    }
  }

  lemma RoiIsRoi(m: Metrics, rate: real, hourlyEngRate: Option<real>)
    requires rate == if hourlyEngRate.Some? then hourlyEngRate.value else 50.0
    ensures IsRoi(FinalizeRoi(m, rate), m, hourlyEngRate)
  {
  }

  lemma BucketsList(items: seq<Item<BucketKey>>, key: BucketKey -> string, name: BucketKey -> string, rate: real, hourlyEngRate: Option<real>,
                    f: BucketKey -> string, n: BucketKey -> string)
    requires rate == if hourlyEngRate.Some? then hourlyEngRate.value else 50.0
    requires (forall k :: f(k) == key(k)) && (forall k :: n(k) == name(k))
    ensures Lists(Finalize(Buckets(items, key, name), rate), items, f, n, hourlyEngRate)
  {
    var rows := Finalize(Buckets(items, key, name), rate);
    BucketsGroup(items, key, name);
    forall k
      ensures k in rows <==> Filed(items, f, k) != []
      ensures k in rows ==> IsRow(rows[k], k, Filed(items, f, k), n, hourlyEngRate)
    {
      FiledAgain(items, f, key, k);
      LabelIsFirst(items, key, name, k);
      FiledTotals(items, key, k);
      if k in rows {
        RoiIsRoi(rows[k].m, rate, hourlyEngRate);
      }
    }
  }

  lemma DaysList(items: seq<Item<BucketKey>>)
    ensures ListsDays(Days(items), items)
  {
    DaysGroup(items);
    var day := (k: BucketKey) => k.day;
    forall d
      ensures d in Days(items) <==> Filed(items, day, d) != []
      ensures d in Days(items) ==> IsDay(Days(items)[d], d, Filed(items, day, d))
    {
      FiledAgain(items, day, DayKey, d);
      FiledTotals(items, DayKey, d);
    }
  }

  lemma FoldShows(items: seq<Item<BucketKey>>, window: Window, rate: real, hourlyEngRate: Option<real>, truncated: bool)
    requires rate == if hourlyEngRate.Some? then hourlyEngRate.value else 50.0
    ensures Shows(Fold(items, window, rate, truncated), items, window, hourlyEngRate)
  {
    SumTotals(items);
    RoiIsRoi(Sum(items), rate, hourlyEngRate);
    BucketsList(items, TeamKey, TeamLabel, rate, hourlyEngRate,
                (k: BucketKey) => if k.linearTeamId == "" then "team:unassigned" else "team:" + k.linearTeamId,
                (k: BucketKey) => if k.linearTeamId == "" then "(unassigned)" else k.linearTeamId);
    BucketsList(items, RepoKey, RepoLabel, rate, hourlyEngRate, (k: BucketKey) => "repo:" + k.repoUrl, (k: BucketKey) => k.repoUrl);
    BucketsList(items, PipelineKey, PipelineLabel, rate, hourlyEngRate, (k: BucketKey) => "pipeline:" + k.pipelineKey, (k: BucketKey) => k.pipelineKey);
    DaysList(items);
  }

  // ---------------------------------------------------------------- live aggregation

  function CompletedAt(run: Run): int {
    if run.completedAt.Some? then run.completedAt.value else 0
  }

  predicate NewestFirst(runs: seq<Run>) {
    forall i, j :: 0 <= i < j < |runs| ==> CompletedAt(runs[i]) >= CompletedAt(runs[j])
  }

  function InsertNewestFirst(runs: seq<Run>, run: Run): seq<Run> {
    if runs == [] || CompletedAt(runs[|runs| - 1]) >= CompletedAt(run) then runs + [run]
    else InsertNewestFirst(runs[..|runs| - 1], run) + [runs[|runs| - 1]]
  }

  /** `runs.sort((a, b) => tb - ta)`, stable. */
  function SortNewestFirst(runs: seq<Run>): seq<Run> {
    if runs == [] then []
    else InsertNewestFirst(SortNewestFirst(runs[..|runs| - 1]), runs[|runs| - 1])
  }

  lemma {:induction false} InsertPermutes(runs: seq<Run>, run: Run)
    ensures multiset(InsertNewestFirst(runs, run)) == multiset(runs) + multiset{run}
    ensures |InsertNewestFirst(runs, run)| == |runs| + 1
  {
    if runs != [] {
      InsertPermutes(runs[..|runs| - 1], run);
      assert runs == runs[..|runs| - 1] + [runs[|runs| - 1]];
    }
  }

  lemma {:induction false} InsertSorts(runs: seq<Run>, run: Run)
    requires NewestFirst(runs)
    ensures NewestFirst(InsertNewestFirst(runs, run))
    ensures var r := InsertNewestFirst(runs, run);
            r != [] && (CompletedAt(r[|r| - 1]) == CompletedAt(run) || (runs != [] && CompletedAt(r[|r| - 1]) == CompletedAt(runs[|runs| - 1])))
  {
    if runs != [] {
      InsertSorts(runs[..|runs| - 1], run);
    }
  }

  lemma {:induction false} SortFacts(runs: seq<Run>)
    ensures NewestFirst(SortNewestFirst(runs)) && multiset(SortNewestFirst(runs)) == multiset(runs)
    ensures |SortNewestFirst(runs)| == |runs|
  {
    if runs != [] {
      var sorted := SortNewestFirst(runs[..|runs| - 1]);
      SortFacts(runs[..|runs| - 1]);
      assert runs == runs[..|runs| - 1] + [runs[|runs| - 1]];
      InsertPermutes(sorted, runs[|runs| - 1]);
      InsertSorts(sorted, runs[|runs| - 1]);
    }
  }

  function Truncate(sel: seq<Run>, maxRuns: nat): (kept: seq<Run>)
    ensures |kept| == if |sel| > maxRuns then maxRuns else |sel|
    ensures |sel| <= maxRuns ==> kept == sel
    ensures AllCompleted(sel) ==> AllCompleted(kept)
    ensures forall r :: r in kept ==> r in sel
  {
    SortFacts(sel);
    if |sel| > maxRuns then
      var sorted := SortNewestFirst(sel);
      SameElements(sorted, sel);
      sorted[..maxRuns]
    else sel
  }

  lemma SameElements<T>(a: seq<T>, b: seq<T>)
    requires multiset(a) == multiset(b)
    ensures forall x :: x in a ==> x in b
  {
    forall x | x in a
      ensures x in b
    {
      assert x in multiset(a);
    }
  }

  function Dropped(sel: seq<Run>, maxRuns: nat): (dropped: seq<Run>)
    ensures forall r :: r in dropped ==> r in sel
  {
    SortFacts(sel);
    if |sel| > maxRuns then
      var sorted := SortNewestFirst(sel);
      SameElements(sorted, sel);
      sorted[maxRuns..]
    else []
  }

  /** The cap loses no run silently: kept and dropped make up the selection, and none dropped is newer than one kept. */
  lemma TruncateKeepsNewest(sel: seq<Run>, maxRuns: nat)
    ensures multiset(Truncate(sel, maxRuns) + Dropped(sel, maxRuns)) == multiset(sel)
    ensures forall i, j :: 0 <= i < |Truncate(sel, maxRuns)| && 0 <= j < |Dropped(sel, maxRuns)| ==>
              CompletedAt(Truncate(sel, maxRuns)[i]) >= CompletedAt(Dropped(sel, maxRuns)[j])
  {
    SortFacts(sel);
    if |sel| > maxRuns {
      SplitAt(SortNewestFirst(sel), maxRuns);
    } else {
      assert sel + [] == sel;
    }
  }

  lemma SplitAt<T>(s: seq<T>, n: nat)
    requires n <= |s|
    ensures s[..n] + s[n..] == s
  {
  }

  /** The runs of a window in some order: SQL promises none. */
  ghost predicate IsSelection(sel: seq<Run>, runs: seq<Run>, from: int, to: int) {
    AllCompleted(sel) && multiset(sel) == multiset(Select(runs, from, to))
  }

  method SelectRuns(runs: seq<Run>, from: int, to: int) returns (sel: seq<Run>)
    ensures IsSelection(sel, runs, from, to)
  {
    var todo := Select(runs, from, to);
    sel := [];
    while todo != []
      invariant multiset(sel) + multiset(todo) == multiset(Select(runs, from, to))
      invariant AllCompleted(sel) && AllCompleted(todo)
      decreases |todo|
    {
      var i :| 0 <= i < |todo|;
      assert todo == todo[..i] + ([todo[i]] + todo[i + 1..]);
      assert todo[i] in todo;
      sel := sel + [todo[i]];
      todo := todo[..i] + todo[i + 1..];
    }
  }

  /** The live answer when the query returns `sel`. */
  function AllResult(sel: seq<Run>, config: CostConfig, maxRuns: nat, window: Window): AggregateResult
    requires AllCompleted(sel)
  {
    Fold(Items(Truncate(sel, maxRuns), config), window, HourlyRate(config), |sel| > maxRuns > 0)
  }

  /** The live answer for some order of the window's runs. */
  ghost predicate IsAllResult(r: AggregateResult, runs: seq<Run>, from: int, to: int, config: CostConfig, maxRuns: nat) {
    exists sel :: IsSelection(sel, runs, from, to) && r == AllResult(sel, config, maxRuns, Window(from, to))
  }

  method AggregateAll(runs: seq<Run>, from: int, to: int, config: CostConfig, maxRuns: nat) returns (r: AggregateResult)
    ensures IsAllResult(r, runs, from, to, config, maxRuns)
    ensures AnswersAll(r, runs, from, to, config, maxRuns)
  {
    var sel := SelectRuns(runs, from, to);
    var kept := Truncate(sel, maxRuns);
    if |kept| == 0 {
      r := AggregateResult(Summary(Window(from, to), ZERO, Finite(0.0), false), map[], map[], map[], map[]);
    } else {
      r := FoldRuns(kept, Window(from, to), config, |sel| > maxRuns);
    }
    assert r == AllResult(sel, config, maxRuns, Window(from, to));
    AllAnswers(r, sel, runs, from, to, config, maxRuns);
  }

  lemma CutsSelection(sel: seq<Run>, runs: seq<Run>, from: int, to: int, maxRuns: nat)
    requires IsSelection(sel, runs, from, to)
    ensures IsWindow(Truncate(sel, maxRuns) + Dropped(sel, maxRuns), runs, from, to)
    ensures IsCut(Truncate(sel, maxRuns), Dropped(sel, maxRuns), maxRuns)
    ensures |sel| > maxRuns > 0 <==> Truncate(sel, maxRuns) != [] && Dropped(sel, maxRuns) != []
  {
    TruncateKeepsNewest(sel, maxRuns);
    SelectIsWindow(runs, from, to);
    SortFacts(sel);
  }

  lemma AllAnswers(r: AggregateResult, sel: seq<Run>, runs: seq<Run>, from: int, to: int, config: CostConfig, maxRuns: nat)
    requires IsSelection(sel, runs, from, to) && r == AllResult(sel, config, maxRuns, Window(from, to))
    ensures AnswersAll(r, runs, from, to, config, maxRuns)
  {
    var kept, dropped := Truncate(sel, maxRuns), Dropped(sel, maxRuns);
    CutsSelection(sel, runs, from, to, maxRuns);
    ItemsAreRunItems(kept, config);
    FoldShows(Items(kept, config), Window(from, to), HourlyRate(config), config.hourlyEngRate, |sel| > maxRuns > 0);
    assert IsWindow(kept + dropped, runs, from, to) && AreRunItems(Items(kept, config), kept, config);
  }

  method FoldRuns(runs: seq<Run>, window: Window, config: CostConfig, truncated: bool) returns (r: AggregateResult)
    requires AllCompleted(runs)
    ensures r == Fold(Items(runs, config), window, HourlyRate(config), truncated)
    ensures exists items :: AreRunItems(items, runs, config) && Shows(r, items, window, config.hourlyEngRate)
  {
    ghost var items := Items(runs, config);
    var m := ZERO;
    var byTeam: map<string, BreakdownRow>, byRepo: map<string, BreakdownRow>, byPipeline: map<string, BreakdownRow> := map[], map[], map[];
    var byDay: map<int, DailyRow> := map[];
    for i := 0 to |runs|
      invariant m == Sum(items[..i]) && byDay == Days(items[..i])
      invariant byTeam == Buckets(items[..i], TeamKey, TeamLabel)
      invariant byRepo == Buckets(items[..i], RepoKey, RepoLabel)
      invariant byPipeline == Buckets(items[..i], PipelineKey, PipelineLabel)
    {
      assert runs[i] in runs;
      var run := runs[i];
      var item := RunItem(run, DayOf(run.completedAt.value), config);
      FoldNext(items, i);
      m := Add(m, item.m);
      byDay := BumpDay(byDay, item.key.day, item.m);
      var (teamKey, teamLabel) := NormalizeTeamId(run.linearTeamId);
      byTeam := Bump(byTeam, teamKey, teamLabel, item.m);
      byRepo := Bump(byRepo, "repo:" + run.repoUrl, run.repoUrl, item.m);
      byPipeline := Bump(byPipeline, "pipeline:" + run.pipelineKey, run.pipelineKey, item.m);
    }
    assert items[..|runs|] == items;
    r := Result(m, byTeam, byRepo, byPipeline, byDay, window, HourlyRate(config), truncated);
    ItemsAreRunItems(runs, config);
    FoldShows(items, window, HourlyRate(config), config.hourlyEngRate, truncated);
  }

  lemma FoldNext(items: seq<Item<BucketKey>>, i: nat)
    requires i < |items|
    ensures var a, b, key, m := items[..i], items[..i + 1], items[i].key, items[i].m;
            && Sum(b) == Add(Sum(a), m)
            && Days(b) == BumpDay(Days(a), key.day, m)
            && Buckets(b, TeamKey, TeamLabel) == Bump(Buckets(a, TeamKey, TeamLabel), TeamKey(key), TeamLabel(key), m)
            && Buckets(b, RepoKey, RepoLabel) == Bump(Buckets(a, RepoKey, RepoLabel), RepoKey(key), RepoLabel(key), m)
            && Buckets(b, PipelineKey, PipelineLabel) == Bump(Buckets(a, PipelineKey, PipelineLabel), PipelineKey(key), PipelineLabel(key), m)
  {
    assert items[..i + 1][..i] == items[..i];
  }

  // ---------------------------------------------------------------- the rollup table

  /** `WHERE date >= fromDay AND date < toDay`. */
  function RollupWindow(table: map<BucketKey, Metrics>, fromDay: int, toDay: int): map<BucketKey, Metrics> {
    map k | k in table && fromDay <= k.day < toDay :: table[k]
  }

  /** The rows of a table in some order: SQL promises none. */
  method SelectRows(table: map<BucketKey, Metrics>) returns (rows: seq<Item<BucketKey>>)
    ensures Enumerates(rows, table)
  {
    rows := [];
    var todo := table.Keys;
    while todo != {}
      invariant todo <= table.Keys
      invariant Enumerates(rows, table - todo)
    {
      var k :| k in todo;
      RowNext(rows, table, todo, k);
      rows := rows + [Item(k, table[k])];
      todo := todo - {k};
    }
    assert table - {} == table;
  }

  lemma RowNext(rows: seq<Item<BucketKey>>, table: map<BucketKey, Metrics>, todo: set<BucketKey>, k: BucketKey)
    requires todo <= table.Keys && k in todo && Enumerates(rows, table - todo)
    ensures Enumerates(rows + [Item(k, table[k])], table - (todo - {k}))
  {
    var longer := rows + [Item(k, table[k])];
    forall l | l in table - (todo - {k})
      ensures HasKey(longer, l)
    {
      if l == k {
        assert longer[|rows|].key == l;
      } else {
        assert HasKey(rows, l);
        var i :| 0 <= i < |rows| && rows[i].key == l;
        assert longer[i].key == l;
      }
    }
  }

  method AggregateFromRollups(rows: seq<Item<BucketKey>>, window: Window, hourlyRate: real) returns (r: AggregateResult)
    ensures r == Fold(rows, window, hourlyRate, false)
    ensures Shows(r, rows, window, Some(hourlyRate)) && !r.summary.truncated
  {
    var m := ZERO;
    var byTeam: map<string, BreakdownRow>, byRepo: map<string, BreakdownRow>, byPipeline: map<string, BreakdownRow> := map[], map[], map[];
    var byDay: map<int, DailyRow> := map[];
    for i := 0 to |rows|
      invariant m == Sum(rows[..i]) && byDay == Days(rows[..i])
      invariant byTeam == Buckets(rows[..i], TeamKey, TeamLabel)
      invariant byRepo == Buckets(rows[..i], RepoKey, RepoLabel)
      invariant byPipeline == Buckets(rows[..i], PipelineKey, PipelineLabel)
    {
      var row := rows[i];
      FoldNext(rows, i);
      m := Add(m, row.m);
      byDay := BumpDay(byDay, row.key.day, row.m);
      var teamId := if row.key.linearTeamId == "" then None else Some(row.key.linearTeamId);
      var (teamKey, teamLabel) := NormalizeTeamId(teamId);
      byTeam := Bump(byTeam, teamKey, teamLabel, row.m);
      byRepo := Bump(byRepo, "repo:" + row.key.repoUrl, row.key.repoUrl, row.m);
      byPipeline := Bump(byPipeline, "pipeline:" + row.key.pipelineKey, row.key.pipelineKey, row.m);
    }
    assert rows[..|rows|] == rows;
    r := Result(m, byTeam, byRepo, byPipeline, byDay, window, hourlyRate, false);
    FoldShows(rows, window, hourlyRate, Some(hourlyRate), false);
  }

  // ---------------------------------------------------------------- merging

  function MergeRows(a: map<string, BreakdownRow>, b: map<string, BreakdownRow>): map<string, BreakdownRow> {
    map k | k in a.Keys + b.Keys ::
      if k in a && k in b then a[k].(m := Add(a[k].m, b[k].m)) else if k in a then a[k] else b[k]
  }

  function AddDaily(a: DailyRow, b: DailyRow): DailyRow {
    DailyRow(a.day, a.runs + b.runs, a.prsMerged + b.prsMerged, a.dollars + b.dollars, a.timeSavedHours + b.timeSavedHours)
  }

  function MergeDays(a: map<int, DailyRow>, b: map<int, DailyRow>): map<int, DailyRow> {
    map d | d in a.Keys + b.Keys :: if d in a && d in b then AddDaily(a[d], b[d]) else if d in a then a[d] else b[d]
  }

  method MergeBreakdowns(a: map<string, BreakdownRow>, b: map<string, BreakdownRow>, hourlyRate: real) returns (merged: map<string, BreakdownRow>)
    ensures merged == Finalize(MergeRows(a, b), hourlyRate)
    ensures Merges(merged, a, b, Some(hourlyRate))
  {
    var byKey: map<string, BreakdownRow> := map[];
    var todo := a.Keys;
    while todo != {}
      invariant todo <= a.Keys && byKey == a - todo
    {
      var k :| k in todo;
      byKey := byKey[k := a[k]];
      todo := todo - {k};
    }
    todo := b.Keys;
    while todo != {}
      invariant todo <= b.Keys && byKey == MergeRows(a, b - todo)
    {
      var k :| k in todo;
      byKey := byKey[k := if k in byKey then byKey[k].(m := Add(byKey[k].m, b[k].m)) else b[k]];
      todo := todo - {k};
      assert byKey.Keys == MergeRows(a, b - todo).Keys;
    }
    assert b - {} == b;
    merged := Finalize(byKey, hourlyRate);
    MergedRows(merged, a, b, hourlyRate);
  }

  lemma MergedRows(merged: map<string, BreakdownRow>, a: map<string, BreakdownRow>, b: map<string, BreakdownRow>, hourlyRate: real)
    requires merged == Finalize(MergeRows(a, b), hourlyRate)
    ensures Merges(merged, a, b, Some(hourlyRate))
  {
    forall k | k in merged
      ensures Totals(merged[k].m, Entry(a, k) + Entry(b, k)) && IsRoi(merged[k].roi, merged[k].m, Some(hourlyRate))
    {
      RoiIsRoi(merged[k].m, hourlyRate, Some(hourlyRate));
      SumTotals(Entry(a, k) + Entry(b, k));
      SumEntries(Entry(a, k), Entry(b, k));
    }
  }

  lemma SumEntries(a: seq<Item<string>>, b: seq<Item<string>>)
    requires |a| <= 1 && |b| <= 1
    ensures Sum(a + b) == if a == [] && b == [] then ZERO else if a == [] then b[0].m else if b == [] then a[0].m else Add(a[0].m, b[0].m)
  {
    SumConcat(a, b);
  }

  method MergeDailyRows(a: map<int, DailyRow>, b: map<int, DailyRow>) returns (merged: map<int, DailyRow>)
    ensures merged == MergeDays(a, b)
  {
    merged := map[];
    var todo: set<int> := a.Keys;
    while todo != {}
      invariant todo <= a.Keys && merged == a - todo
    {
      ghost var some := Inhabited(todo);
      var d :| d in todo;
      merged := merged[d := a[d]];
      todo := todo - {d};
    }
    todo := b.Keys;
    while todo != {}
      invariant todo <= b.Keys && merged == MergeDays(a, b - todo)
    {
      ghost var some := Inhabited(todo);
      var d :| d in todo;
      merged := merged[d := if d in merged then AddDaily(merged[d], b[d]) else b[d]];
      todo := todo - {d};
      assert merged.Keys == MergeDays(a, b - todo).Keys;
    }
    assert b - {} == b;
  }

  // ---------------------------------------------------------------- the hybrid query

  function RollupCutoff(to: int, now: int): int {
    var today := SnapToUtcDayStart(now);
    if to <= today then to else today
  }

  /** What the hybrid query answers when its rollup rows come back as `rows` and today's runs as `live`. */
  function HybridResult(live: seq<Run>, rows: seq<Item<BucketKey>>, from: int, to: int, now: int, config: CostConfig, maxRuns: nat): AggregateResult
    requires AllCompleted(live)
  {
    if to <= SnapToUtcDayStart(now) then Fold(rows, Window(from, to), HourlyRate(config), false)
    else Fold(rows + Items(Truncate(live, maxRuns), config), Window(from, to), HourlyRate(config), |live| > maxRuns > 0)
  }

  /** The hybrid answer for some order of the stored rows and of today's runs. */
  ghost predicate IsHybridResult(r: AggregateResult, table: map<BucketKey, Metrics>, runs: seq<Run>, from: int, to: int, now: int,
                                 config: CostConfig, maxRuns: nat) {
    exists rows, live ::
      && Enumerates(rows, RollupWindow(table, DayOf(from), DayOf(RollupCutoff(to, now))))
      && IsSelection(live, runs, SnapToUtcDayStart(now), to)
      && r == HybridResult(live, rows, from, to, now, config, maxRuns)
  }

  /** With rollups enabled and a window that starts before today; otherwise the source calls `AggregateAll`. */
  method AggregateHybrid(db: CostDb, from: int, to: int, now: int, config: CostConfig, maxRuns: nat) returns (r: AggregateResult)
    ensures from >= SnapToUtcDayStart(now) ==> IsAllResult(r, db.pipelineRuns, from, to, config, maxRuns)
    ensures from < SnapToUtcDayStart(now) ==> IsHybridResult(r, db.costRollupsDaily, db.pipelineRuns, from, to, now, config, maxRuns)
    ensures from / 86_400_000 >= now / 86_400_000 ==> AnswersAll(r, db.pipelineRuns, from, to, config, maxRuns)
    ensures from / 86_400_000 < now / 86_400_000 ==> AnswersHybrid(r, db.costRollupsDaily, db.pipelineRuns, from, to, now, config, maxRuns)
  {
    var hourlyRate := HourlyRate(config);
    var today := SnapToUtcDayStart(now);
    if from >= today {
      r := AggregateAll(db.pipelineRuns, from, to, config, maxRuns);
      return;
    }
    var rows := SelectRows(RollupWindow(db.costRollupsDaily, DayOf(from), DayOf(RollupCutoff(to, now))));
    var rollupPart := AggregateFromRollups(rows, Window(from, to), hourlyRate);
    if to <= today {
      r := rollupPart;
      ghost var live := Select(db.pipelineRuns, today, to);
      assert IsSelection(live, db.pipelineRuns, today, to) && r == HybridResult(live, rows, from, to, now, config, maxRuns);
      HybridAnswers(r, rows, live, db.costRollupsDaily, db.pipelineRuns, from, to, now, config, maxRuns);
      return;
    }
    var livePart := AggregateAll(db.pipelineRuns, today, to, config, maxRuns);
    ghost var live :| IsSelection(live, db.pipelineRuns, today, to) && livePart == AllResult(live, config, maxRuns, Window(today, to));
    var m := Add(rollupPart.summary.m, livePart.summary.m);
    var byTeam := MergeBreakdowns(rollupPart.byTeam, livePart.byTeam, hourlyRate);
    var byRepo := MergeBreakdowns(rollupPart.byRepo, livePart.byRepo, hourlyRate);
    var byPipeline := MergeBreakdowns(rollupPart.byPipeline, livePart.byPipeline, hourlyRate);
    var byDay := MergeDailyRows(rollupPart.byDay, livePart.byDay);
    r := AggregateResult(Summary(Window(from, to), m, FinalizeRoi(m, hourlyRate), livePart.summary.truncated), byTeam, byRepo, byPipeline, byDay);
    MergeIsFold(rows, Items(Truncate(live, maxRuns), config), Window(today, to), Window(from, to), hourlyRate, livePart.summary.truncated);
    assert r == HybridResult(live, rows, from, to, now, config, maxRuns);
    HybridAnswers(r, rows, live, db.costRollupsDaily, db.pipelineRuns, from, to, now, config, maxRuns);
  }

  lemma PastDays(table: map<BucketKey, Metrics>, from: int, to: int, now: int)
    ensures RollupWindow(table, DayOf(from), DayOf(RollupCutoff(to, now)))
         == map k | k in table && from < (k.day + 1) * 86_400_000 <= to && (k.day + 1) * 86_400_000 <= now :: table[k]
  {
  }

  lemma HybridAnswers(r: AggregateResult, rows: seq<Item<BucketKey>>, live: seq<Run>, table: map<BucketKey, Metrics>, runs: seq<Run>,
                      from: int, to: int, now: int, config: CostConfig, maxRuns: nat)
    requires Enumerates(rows, RollupWindow(table, DayOf(from), DayOf(RollupCutoff(to, now))))
    requires IsSelection(live, runs, SnapToUtcDayStart(now), to) && r == HybridResult(live, rows, from, to, now, config, maxRuns)
    ensures AnswersHybrid(r, table, runs, from, to, now, config, maxRuns)
  {
    var kept, dropped := Truncate(live, maxRuns), Dropped(live, maxRuns);
    var items := Items(kept, config);
    PastDays(table, from, to, now);
    CutsSelection(live, runs, SnapToUtcDayStart(now), to, maxRuns);
    ItemsAreRunItems(kept, config);
    FoldShows(rows + items, Window(from, to), HourlyRate(config), config.hourlyEngRate, |live| > maxRuns > 0);
    if to <= SnapToUtcDayStart(now) {
      SelectNothing(runs, SnapToUtcDayStart(now), to);
      assert multiset(live) == multiset{};
      assert rows + items == rows;
    }
    assert IsWindow(kept + dropped, runs, now / 86_400_000 * 86_400_000, to) && AreRunItems(items, kept, config);
  }

  lemma {:induction false} BucketsConcat(a: seq<Item<BucketKey>>, b: seq<Item<BucketKey>>, key: BucketKey -> string, name: BucketKey -> string)
    ensures Buckets(a + b, key, name) == MergeRows(Buckets(a, key, name), Buckets(b, key, name))
  {
    if b == [] {
      assert a + b == a;
      assert MergeRows(Buckets(a, key, name), map[]).Keys == Buckets(a, key, name).Keys;
    } else {
      var init, last := b[..|b| - 1], b[|b| - 1];
      assert (a + b)[..|a + b| - 1] == a + init;
      BucketsConcat(a, init, key, name);
      BumpMerge(Buckets(a, key, name), Buckets(init, key, name), key(last.key), name(last.key), last.m);
    }
  }

  lemma BumpMerge(a: map<string, BreakdownRow>, b: map<string, BreakdownRow>, key: string, name: string, m: Metrics)
    ensures Bump(MergeRows(a, b), key, name, m) == MergeRows(a, Bump(b, key, name, m))
  {
    var l, r := Bump(MergeRows(a, b), key, name, m), MergeRows(a, Bump(b, key, name, m));
    assert l.Keys == r.Keys;
    forall k | k in l
      ensures l[k] == r[k]
    {
    }
  }

  lemma {:induction false} DaysConcat(a: seq<Item<BucketKey>>, b: seq<Item<BucketKey>>)
    ensures Days(a + b) == MergeDays(Days(a), Days(b))
  {
    if b == [] {
      assert a + b == a;
      assert MergeDays(Days(a), map[]).Keys == Days(a).Keys;
    } else {
      var init, last := b[..|b| - 1], b[|b| - 1];
      assert (a + b)[..|a + b| - 1] == a + init;
      DaysConcat(a, init);
      DaysKeyed(a);
      BumpDayMerge(Days(a), Days(init), last.key.day, last.m);
    }
  }

  lemma {:induction false} DaysKeyed(items: seq<Item<BucketKey>>)
    ensures forall d :: d in Days(items) ==> Days(items)[d].day == d
  {
    if items != [] {
      DaysKeyed(items[..|items| - 1]);
    }
  }

  lemma BumpDayMerge(a: map<int, DailyRow>, b: map<int, DailyRow>, day: int, m: Metrics)
    requires forall d :: d in a ==> a[d].day == d
    ensures BumpDay(MergeDays(a, b), day, m) == MergeDays(a, BumpDay(b, day, m))
  {
    var l, r := BumpDay(MergeDays(a, b), day, m), MergeDays(a, BumpDay(b, day, m));
    assert l.Keys == r.Keys;
    forall d | d in l
      ensures l[d] == r[d]
    {
    }
  }

  lemma FinalizeMerge(a: map<string, BreakdownRow>, b: map<string, BreakdownRow>, hourlyRate: real)
    ensures Finalize(MergeRows(Finalize(a, hourlyRate), Finalize(b, hourlyRate)), hourlyRate) == Finalize(MergeRows(a, b), hourlyRate)
  {
    var x, y := MergeRows(Finalize(a, hourlyRate), Finalize(b, hourlyRate)), MergeRows(a, b);
    assert x.Keys == y.Keys;
    forall k | k in y
      ensures x[k].(roi := FinalizeRoi(x[k].m, hourlyRate)) == y[k].(roi := FinalizeRoi(y[k].m, hourlyRate))
    {
    }
  }

  /** Merging the results of two folds is the fold over both lists: rows, labels, totals and ROI included. */
  lemma MergeIsFold(a: seq<Item<BucketKey>>, b: seq<Item<BucketKey>>, windowB: Window, window: Window, hourlyRate: real, truncated: bool)
    ensures var x, y, r := Fold(a, window, hourlyRate, false), Fold(b, windowB, hourlyRate, truncated), Fold(a + b, window, hourlyRate, truncated);
            && r.byTeam == Finalize(MergeRows(x.byTeam, y.byTeam), hourlyRate)
            && r.byRepo == Finalize(MergeRows(x.byRepo, y.byRepo), hourlyRate)
            && r.byPipeline == Finalize(MergeRows(x.byPipeline, y.byPipeline), hourlyRate)
            && r.byDay == MergeDays(x.byDay, y.byDay)
            && r.summary.m == Add(x.summary.m, y.summary.m)
  {
    BucketsConcat(a, b, TeamKey, TeamLabel);
    BucketsConcat(a, b, RepoKey, RepoLabel);
    BucketsConcat(a, b, PipelineKey, PipelineLabel);
    FinalizeMerge(Buckets(a, TeamKey, TeamLabel), Buckets(b, TeamKey, TeamLabel), hourlyRate);
    FinalizeMerge(Buckets(a, RepoKey, RepoLabel), Buckets(b, RepoKey, RepoLabel), hourlyRate);
    FinalizeMerge(Buckets(a, PipelineKey, PipelineLabel), Buckets(b, PipelineKey, PipelineLabel), hourlyRate);
    DaysConcat(a, b);
    SumConcat(a, b);
  }
}
