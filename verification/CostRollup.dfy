/** The materialised per-day table and the code that fills it (packages/core/src/cost/rollup.ts). */
module CostRollup {
  import opened Prelude
  import opened CostGrouping
  import opened CostModel

  /** The `|`-joined string that files a run into a bucket; the date is the same for the whole day. */
  function Join(k: BucketKey): string {
    k.pipelineKey + "|" + k.linearTeamId + "|" + k.repoUrl
  }

  /** The key fields a bucket keeps: those of the first item filed under its joined string. */
  function FirstKeys(items: seq<Item<BucketKey>>): set<BucketKey> {
    if items == [] then {}
    else
      var init, last := items[..|items| - 1], items[|items| - 1];
      if Join(last.key) in Group(Rekey(init, Join)) then FirstKeys(init) else FirstKeys(init) + {last.key}
  }

  /** The rows one roll of a day upserts. */
  function WrittenRows(items: seq<Item<BucketKey>>): map<BucketKey, Metrics> {
    FirstKeysJoin(items);
    map k | k in FirstKeys(items) :: Group(Rekey(items, Join))[Join(k)]
  }

  function RollDay(table: map<BucketKey, Metrics>, runs: seq<Run>, day: int, config: CostConfig): map<BucketKey, Metrics> {
    table + WrittenRows(DayItems(runs, day, config))
  }

  function RollDays(table: map<BucketKey, Metrics>, runs: seq<Run>, days: seq<int>, config: CostConfig): map<BucketKey, Metrics> {
    if days == [] then table
    else RollDay(RollDays(table, runs, days[..|days| - 1], config), runs, days[|days| - 1], config)
  }

  /** How many rows the rolls of `days` write altogether. */
  function RowsWritten(runs: seq<Run>, days: seq<int>, config: CostConfig): nat {
    if days == [] then 0
    else RowsWritten(runs, days[..|days| - 1], config) + |WrittenRows(DayItems(runs, days[|days| - 1], config))|
  }

  function Ceiling(x: real): (n: int)
    ensures n as real - 1.0 < x <= n as real
  {
    if x == x.Floor as real then x.Floor else x.Floor + 1
  }

  /** The inclusive range [first, last]. */
  function DateRange(first: int, last: int): seq<int> {
    seq(if last < first then 0 else last - first + 1, i => first + i)
  }

  /** `SELECT max(date)`: NULL on an empty table. */
  ghost predicate IsLatest(latest: Option<int>, table: map<BucketKey, Metrics>) {
    match latest
    case None => table == map[]
    case Some(d) => (forall k :: k in table ==> k.day <= d) && (exists k :: k in table && k.day == d)
  }

  /** The first day that a tick rolls: the one after the latest stored day, but not before the window, and never past yesterday's own. */
  function RestartDay(latest: Option<int>, yesterday: int, maxBackfillDays: int): int {
    var capped := yesterday - (maxBackfillDays - 1);
    if latest.None? then capped
    else if latest.value == yesterday then yesterday
    else if latest.value + 1 > capped then latest.value + 1 else capped
  }

  function DatesToRoll(latest: Option<int>, yesterday: int, maxBackfillDays: int): seq<int> {
    DateRange(RestartDay(latest, yesterday, maxBackfillDays), yesterday)
  }

  lemma InDateRange(first: int, last: int, d: int)
    ensures d in DateRange(first, last) <==> first <= d <= last
  {
    if first <= d <= last {
      assert DateRange(first, last)[d - first] == d;
    }
  }

  /** A day of the window is rolled unless a row of that day or a later one is stored; yesterday is rolled even then. */
  lemma DatesToRollMembers(latest: Option<int>, yesterday: int, maxBackfillDays: int, d: int)
    requires maxBackfillDays > 0
    ensures d in DatesToRoll(latest, yesterday, maxBackfillDays) <==>
            && yesterday - maxBackfillDays < d <= yesterday
            && (latest.None? || latest.value < d || latest.value == d == yesterday)
  {
    InDateRange(RestartDay(latest, yesterday, maxBackfillDays), yesterday, d);
  }

  ghost function Latest(table: map<BucketKey, Metrics>): (latest: Option<int>)
    ensures IsLatest(latest, table)
  {
    if table == map[] then None
    else
      LatestExists(table.Keys);
      var k0 :| k0 in table && forall k :: k in table ==> k.day <= k0.day;
      Some(k0.day)
  }

  lemma {:induction false} LatestExists(keys: set<BucketKey>)
    requires keys != {}
    ensures exists k0 :: k0 in keys && forall k :: k in keys ==> k.day <= k0.day
  {
    var k1 :| k1 in keys;
    if keys != {k1} {
      var rest := keys - {k1};
      LatestExists(rest);
      var k0 :| k0 in rest && forall k :: k in rest ==> k.day <= k0.day;
      var top := if k0.day < k1.day then k1 else k0;
      assert forall k :: k in keys ==> k in rest || k == k1;
      assert forall k :: k in keys ==> k.day <= top.day;
    }
  }

  lemma LatestUnique(latest: Option<int>, table: map<BucketKey, Metrics>)
    requires IsLatest(latest, table)
    ensures latest == Latest(table)
  {
  }

  /** The table after one `recomputeCostRollups` at time `now`. */
  ghost function Recompute(table: map<BucketKey, Metrics>, runs: seq<Run>, now: int, maxBackfillDays: int, config: CostConfig): map<BucketKey, Metrics> {
    RollDays(table, runs, DatesToRoll(Latest(table), DayOf(now) - 1, maxBackfillDays), config)
  }

  // ---------------------------------------------------------------- the joined bucket key

  /** Two keys of one day meet in a bucket exactly when their joined strings agree; that must mean they are equal. */
  ghost predicate NoCollision(items: seq<Item<BucketKey>>) {
    forall i, j :: 0 <= i < |items| && 0 <= j < |items| && Join(items[i].key) == Join(items[j].key) ==> items[i].key == items[j].key
  }

  lemma HasKeySnoc(items: seq<Item<BucketKey>>, item: Item<BucketKey>)
    ensures HasKey(items + [item], item.key) && forall k :: HasKey(items, k) ==> HasKey(items + [item], k)
  {
    forall k | HasKey(items, k)
      ensures HasKey(items + [item], k)
    {
      var i :| 0 <= i < |items| && items[i].key == k;
      assert (items + [item])[i].key == k;
    }
    assert (items + [item])[|items|].key == item.key;
  }

  lemma {:induction false} FirstKeysJoin(items: seq<Item<BucketKey>>)
    ensures forall k :: k in FirstKeys(items) ==> Join(k) in Group(Rekey(items, Join))
    ensures forall k, l :: k in FirstKeys(items) && l in FirstKeys(items) && Join(k) == Join(l) ==> k == l
    ensures forall j :: j in Group(Rekey(items, Join)) ==> exists k :: k in FirstKeys(items) && Join(k) == j
  {
    if items != [] {
      var init, last := items[..|items| - 1], items[|items| - 1];
      FirstKeysJoin(init);
      assert init + [last] == items;
      GroupSnoc(init, last, Join);
      FirstKeysSnoc(init, last);
    }
  }

  lemma {:induction false} FirstKeysPresent(items: seq<Item<BucketKey>>)
    ensures forall k :: k in FirstKeys(items) ==> HasKey(items, k)
  {
    if items != [] {
      var init, last := items[..|items| - 1], items[|items| - 1];
      FirstKeysPresent(init);
      HasKeySnoc(init, last);
      assert init + [last] == items;
    }
  }

  lemma {:induction false} CollisionFreeKey(items: seq<Item<BucketKey>>, k: BucketKey)
    requires forall i :: 0 <= i < |items| && Join(items[i].key) == Join(k) ==> items[i].key == k
    ensures k in Group(items) <==> Join(k) in Group(Rekey(items, Join))
    ensures k in Group(items) ==> Group(Rekey(items, Join))[Join(k)] == Group(items)[k]
  {
    if items != [] {
      var init, last := items[..|items| - 1], items[|items| - 1];
      CollisionFreeKey(init, k);
      GroupRow(items, k);
      assert Rekey(items, Join)[..|Rekey(items, Join)| - 1] == Rekey(init, Join);
      GroupRow(Rekey(items, Join), Join(k));
    }
  }

  lemma CollisionFreeKeys(items: seq<Item<BucketKey>>)
    requires NoCollision(items)
    ensures WrittenRows(items) == Group(items)
  {
    FirstKeysJoin(items);
    FirstKeysPresent(items);
    GroupKeys(items);
    forall k | HasKey(items, k)
      ensures k in FirstKeys(items) && Group(Rekey(items, Join))[Join(k)] == Group(items)[k]
    {
      CollisionFreeKey(items, k);
      var first :| first in FirstKeys(items) && Join(first) == Join(k);
    }
    assert WrittenRows(items).Keys == Group(items).Keys;
  }

  /**
   * A roll writes the group-by of the day's runs if and only if no two of them with
   * different (pipeline, team, repo) triples have the same `|`-joined string.
   */
  lemma RollIsGroupBy(items: seq<Item<BucketKey>>)
    ensures WrittenRows(items) == Group(items) <==> NoCollision(items)
  {
    FirstKeysJoin(items);
    GroupKeys(items);
    if NoCollision(items) {
      CollisionFreeKeys(items);
    } else {
      var i, j :| 0 <= i < |items| && 0 <= j < |items| && Join(items[i].key) == Join(items[j].key) && items[i].key != items[j].key;
      assert HasKey(items, items[i].key) && HasKey(items, items[j].key);
      assert items[i].key !in WrittenRows(items) || items[j].key !in WrittenRows(items);
    }
  }

  /** Keys whose pipeline and team contain no `|` never collide; the repo url may contain any character. */
  lemma JoinInjective(k: BucketKey, l: BucketKey)
    requires '|' !in k.pipelineKey && '|' !in k.linearTeamId && '|' !in l.pipelineKey && '|' !in l.linearTeamId
    requires Join(k) == Join(l) && k.day == l.day
    ensures k == l
  {
    var kt, lt := k.linearTeamId + "|" + k.repoUrl, l.linearTeamId + "|" + l.repoUrl;
    assert Join(k) == k.pipelineKey + ("|" + kt) && Join(l) == l.pipelineKey + ("|" + lt);
    SplitAtBar(k.pipelineKey, kt, l.pipelineKey, lt);
    assert kt == k.linearTeamId + ("|" + k.repoUrl) && lt == l.linearTeamId + ("|" + l.repoUrl);
    SplitAtBar(k.linearTeamId, k.repoUrl, l.linearTeamId, l.repoUrl);
  }

  lemma SplitAtBar(a: string, x: string, b: string, y: string)
    requires '|' !in a && '|' !in b
    requires a + ("|" + x) == b + ("|" + y)
    ensures a == b && x == y
  {
    var s := a + ("|" + x);
    assert forall i :: 0 <= i < |a| ==> s[i] == a[i];
    assert forall i :: 0 <= i < |b| ==> s[i] == b[i];
    assert s[|a|] == '|' && s[|b|] == '|';
    assert a == s[..|a|] && b == s[..|b|];
    assert x == s[|a| + 1..] && y == s[|b| + 1..];
  }

  /** A pipeline or team containing `|` really loses a row: two different buckets are filed as one. */
  lemma BarCollision(m: Metrics)
    ensures var a, b := BucketKey(0, "x|y", "z", "r"), BucketKey(0, "x", "y|z", "r");
            WrittenRows([Item(a, m), Item(b, m)]) != Group([Item(a, m), Item(b, m)])
  {
    var a, b := BucketKey(0, "x|y", "z", "r"), BucketKey(0, "x", "y|z", "r");
    var items := [Item(a, m), Item(b, m)];
    assert Join(a) == "x|y|z|r" == Join(b);
    assert items[0].key != items[1].key by {
      assert |items[0].key.pipelineKey| != |items[1].key.pipelineKey|;
    }
    RollIsGroupBy(items);
  }

  // ---------------------------------------------------------------- upserts

  function Upserts(table: map<BucketKey, Metrics>, rows: seq<Item<BucketKey>>): map<BucketKey, Metrics> {
    if rows == [] then table
    else Upserts(table, rows[..|rows| - 1])[rows[|rows| - 1].key := rows[|rows| - 1].m]
  }

  /** `INSERT ... ON CONFLICT DO UPDATE` of distinct keys overwrites exactly those rows, in any order. */
  lemma {:induction false} UpsertsOverride(table: map<BucketKey, Metrics>, rows: seq<Item<BucketKey>>, written: map<BucketKey, Metrics>)
    requires Enumerates(rows, written)
    ensures Upserts(table, rows) == table + written
    decreases |rows|
  {
    if rows == [] {
      assert forall k :: k in written ==> HasKey(rows, k);
      assert written == map[];
    } else {
      DropRow(rows, written);
      UpsertsOverride(table, rows[..|rows| - 1], written - {rows[|rows| - 1].key});
    }
  }

  // ---------------------------------------------------------------- the code

  method GenerateDateRange(firstDate: int, endDate: int) returns (dates: seq<int>)
    ensures dates == DateRange(firstDate, endDate)
  {
    dates := [];
    var d := firstDate;
    while d <= endDate
      invariant firstDate <= d <= endDate + 1 || (d == firstDate && endDate < firstDate)
      invariant dates == DateRange(firstDate, d - 1)
    {
      dates := dates + [d];
      d := d + 1;
    }
  }

  method PickDates(latestDate: Option<int>, yesterday: int, maxBackfillDays: int) returns (datesToRoll: seq<int>)
    requires maxBackfillDays > 0
    ensures datesToRoll == DatesToRoll(latestDate, yesterday, maxBackfillDays)
    ensures forall i, j :: 0 <= i < j < |datesToRoll| ==> datesToRoll[i] < datesToRoll[j]
    ensures forall d :: d in datesToRoll <==>
              && yesterday - maxBackfillDays < d <= yesterday
              && (latestDate.None? || latestDate.value < d || latestDate.value == d == yesterday)
  {
    if latestDate.None? {
      var firstDate := yesterday - (maxBackfillDays - 1);
      datesToRoll := GenerateDateRange(firstDate, yesterday);
    } else if latestDate.value < yesterday {
      var rawFirstDate := latestDate.value + 1;
      var cappedFirstDate := yesterday - (maxBackfillDays - 1);
      var firstDate := if rawFirstDate > cappedFirstDate then rawFirstDate else cappedFirstDate;
      datesToRoll := GenerateDateRange(firstDate, yesterday);
    } else if latestDate.value == yesterday {
      datesToRoll := [yesterday];
    } else {
      datesToRoll := [];
    }
    forall d
      ensures d in DatesToRoll(latestDate, yesterday, maxBackfillDays) <==>
              && yesterday - maxBackfillDays < d <= yesterday
              && (latestDate.None? || latestDate.value < d || latestDate.value == d == yesterday)
    {
      DatesToRollMembers(latestDate, yesterday, maxBackfillDays, d);
    }
  }

  method RunItem(run: Run, day: int, config: CostConfig) returns (item: Item<BucketKey>)
    requires run.completedAt.Some? && DayOf(run.completedAt.value) == day
    ensures item == Item(KeyOf(run), MetricsOf(run, config))
  {
    var cost := ComputeRunCost(run, config);
    var prsMerged := if IsMergedPr(run) then 1 else 0;
    item := Item(BucketKey(day, run.pipelineKey, TeamOf(run), run.repoUrl),
                 Metrics(1, prsMerged, cost.inputTokens, cost.outputTokens, cost.dollars, cost.timeSavedHours));
  }

  /** The `buckets` map of one day, with the insertion order its values are listed in. */
  method FillBuckets(runs: seq<Run>, day: int, config: CostConfig) returns (order: seq<string>, buckets: map<string, Item<BucketKey>>)
    requires AllCompleted(runs) && forall r :: r in runs ==> DayOf(r.completedAt.value) == day
    ensures ListsBuckets(order, buckets)
    ensures HoldsBuckets(buckets, Items(runs, config))
  {
    ghost var items := Items(runs, config);
    order, buckets := [], map[];
    for i := 0 to |runs|
      invariant ListsBuckets(order, buckets)
      invariant HoldsBuckets(buckets, items[..i])
    {
      assert runs[i] in runs;
      var item := RunItem(runs[i], day, config);
      var key := Join(item.key);
      BucketNext(order, buckets, items[..i], items[i]);
      TakeNext(items, i);
      var b := if key !in buckets then item else buckets[key].(m := Add(buckets[key].m, item.m));
      order := if key in buckets then order else order + [key];
      buckets := buckets[key := b];
    }
    assert items[..|runs|] == items;
  }

  class CostDb {
    var pipelineRuns: seq<Run>
    var costRollupsDaily: map<BucketKey, Metrics>

    constructor (runs: seq<Run>)
      ensures pipelineRuns == runs && costRollupsDaily == map[]
    {
      pipelineRuns, costRollupsDaily := runs, map[];
    }

    method RollOneDay(day: int, config: CostConfig) returns (rowsWritten: nat)
      modifies this`costRollupsDaily
      ensures costRollupsDaily == RollDay(old(costRollupsDaily), pipelineRuns, day, config)
      ensures rowsWritten == |WrittenRows(DayItems(pipelineRuns, day, config))|
    {
      var runs := Select(pipelineRuns, day * DAY, (day + 1) * DAY);
      ghost var items := Items(runs, config);
      if |runs| == 0 {
        return 0;
      }
      forall r | r in runs
        ensures DayOf(r.completedAt.value) == day
      {
        SameDay(r.completedAt.value, day);
      }
      var order, buckets := FillBuckets(runs, day, config);
      UpsertBuckets(order, buckets);
      WritesRows(old(costRollupsDaily), order, buckets, items);
      rowsWritten := |order|;
    }

    method UpsertBuckets(order: seq<string>, buckets: map<string, Item<BucketKey>>)
      requires forall key :: key in order ==> key in buckets
      modifies this`costRollupsDaily
      ensures costRollupsDaily == Upserts(old(costRollupsDaily), Rows(order, buckets))
    {
      for p := 0 to |order|
        invariant costRollupsDaily == Upserts(old(costRollupsDaily), Rows(order[..p], buckets))
      {
        var b := buckets[order[p]];
        costRollupsDaily := costRollupsDaily[b.key := b.m];
        assert Rows(order[..p + 1], buckets) == Rows(order[..p], buckets) + [b];
        InSnoc(Rows(order[..p], buckets), b, b);
      }
      assert order[..|order|] == order;
    }

    method RecomputeCostRollups(now: int, maxBackfillDays: int, config: CostConfig) returns (rowsWritten: nat)
      requires maxBackfillDays > 0
      modifies this`costRollupsDaily
      ensures costRollupsDaily == Recompute(old(costRollupsDaily), pipelineRuns, now, maxBackfillDays, config)
      ensures rowsWritten ==
              RowsWritten(pipelineRuns, DatesToRoll(Latest(old(costRollupsDaily)), DayOf(now) - 1, maxBackfillDays), config)
    {
      var yesterday := DayOf(now) - 1;
      var latest := SelectMaxDate();
      LatestUnique(latest, costRollupsDaily);
      var datesToRoll := PickDates(latest, yesterday, maxBackfillDays);
      rowsWritten := RollAll(datesToRoll, config);
    }

    /** None when `days` is not positive, which the source refuses with an error. */
    method BackfillCostRollups(now: int, days: real, config: CostConfig) returns (r: Option<(nat, int)>)
      modifies this`costRollupsDaily
      ensures r.None? <==> days <= 0.0
      ensures r.None? ==> costRollupsDaily == old(costRollupsDaily)
      ensures r.Some? ==>
                var n, y := r.value.1, DayOf(now) - 1;
                && n == Ceiling(days)
                && r.value.0 == RowsWritten(pipelineRuns, DateRange(y - (n - 1), y), config)
                && costRollupsDaily == RollDays(old(costRollupsDaily), pipelineRuns, DateRange(y - (n - 1), y), config)
    {
      if days <= 0.0 {
        return None;
      }
      var clampedDays := Ceiling(days);
      var yesterday := DayOf(now) - 1;
      var datesToRoll := GenerateDateRange(yesterday - (clampedDays - 1), yesterday);
      var rowsWritten := RollAll(datesToRoll, config);
      r := Some((rowsWritten, |datesToRoll|));
    }

    method RollAll(dates: seq<int>, config: CostConfig) returns (rowsWritten: nat)
      modifies this`costRollupsDaily
      ensures costRollupsDaily == RollDays(old(costRollupsDaily), pipelineRuns, dates, config)
      ensures rowsWritten == RowsWritten(pipelineRuns, dates, config)
    {
      rowsWritten := 0;
      for i := 0 to |dates|
        invariant costRollupsDaily == RollDays(old(costRollupsDaily), pipelineRuns, dates[..i], config)
        invariant rowsWritten == RowsWritten(pipelineRuns, dates[..i], config)
      {
        var n := RollOneDay(dates[i], config);
        rowsWritten := rowsWritten + n;
        assert dates[..i + 1][..i] == dates[..i];
      }
      assert dates[..|dates|] == dates;
    }

    method SelectMaxDate() returns (latest: Option<int>)
      ensures IsLatest(latest, costRollupsDaily)
    {
      if costRollupsDaily == map[] {
        return None;
      }
      LatestExists(costRollupsDaily.Keys);
      var k0 :| k0 in costRollupsDaily && forall k :: k in costRollupsDaily ==> k.day <= k0.day;
      latest := Some(k0.day);
    }
  }

  lemma SameDay(t: int, day: int)
    requires day * DAY <= t < (day + 1) * DAY
    ensures DayOf(t) == day
  {
  }

  // ---------------------------------------------------------------- the buckets of one day

  ghost predicate ListsBuckets(order: seq<string>, buckets: map<string, Item<BucketKey>>) {
    && (forall i, j :: 0 <= i < j < |order| ==> order[i] != order[j])
    && (forall i :: 0 <= i < |order| ==> order[i] in buckets)
    && (forall key :: key in buckets ==> key in order)
  }

  ghost predicate HoldsBuckets(buckets: map<string, Item<BucketKey>>, items: seq<Item<BucketKey>>) {
    Holds(buckets, Group(Rekey(items, Join)), FirstKeys(items))
  }

  ghost predicate Holds(buckets: map<string, Item<BucketKey>>, sums: map<string, Metrics>, firsts: set<BucketKey>) {
    && buckets.Keys == sums.Keys
    && (forall key :: key in buckets ==> Join(buckets[key].key) == key && buckets[key].key in firsts && buckets[key].m == sums[key])
  }

  lemma HoldsNext(buckets: map<string, Item<BucketKey>>, sums: map<string, Metrics>, firsts: set<BucketKey>, item: Item<BucketKey>)
    requires Holds(buckets, sums, firsts)
    ensures var key := Join(item.key);
            var b := if key !in buckets then item else buckets[key].(m := Add(buckets[key].m, item.m));
            Holds(buckets[key := b], MapAdd(sums, map[key := item.m]), if key in sums then firsts else firsts + {item.key})
  {
  }

  lemma FirstKeysSnoc(items: seq<Item<BucketKey>>, item: Item<BucketKey>)
    ensures FirstKeys(items + [item]) == if Join(item.key) in Group(Rekey(items, Join)) then FirstKeys(items) else FirstKeys(items) + {item.key}
  {
    InSnoc(items, item, item);
  }

  lemma HoldNext(buckets: map<string, Item<BucketKey>>, items: seq<Item<BucketKey>>, item: Item<BucketKey>)
    requires HoldsBuckets(buckets, items)
    ensures var key := Join(item.key);
            var b := if key !in buckets then item else buckets[key].(m := Add(buckets[key].m, item.m));
            HoldsBuckets(buckets[key := b], items + [item])
  {
    GroupSnoc(items, item, Join);
    FirstKeysSnoc(items, item);
    HoldsNext(buckets, Group(Rekey(items, Join)), FirstKeys(items), item);
  }

  lemma BucketNext(order: seq<string>, buckets: map<string, Item<BucketKey>>, items: seq<Item<BucketKey>>, item: Item<BucketKey>)
    requires ListsBuckets(order, buckets) && HoldsBuckets(buckets, items)
    ensures var key := Join(item.key);
            var b := if key !in buckets then item else buckets[key].(m := Add(buckets[key].m, item.m));
            && HoldsBuckets(buckets[key := b], items + [item])
            && ListsBuckets(if key in buckets then order else order + [key], buckets[key := b])
  {
    var key := Join(item.key);
    HoldNext(buckets, items, item);
    ListNext(order, buckets, key, if key !in buckets then item else buckets[key].(m := Add(buckets[key].m, item.m)));
  }

  lemma ListNext(order: seq<string>, buckets: map<string, Item<BucketKey>>, key: string, b: Item<BucketKey>)
    requires ListsBuckets(order, buckets)
    ensures ListsBuckets(if key in buckets then order else order + [key], buckets[key := b])
  {
    if key !in buckets {
      var longer := order + [key];
      forall other | other in order || other == key
        ensures other in longer
      {
        if other in order {
          var i :| 0 <= i < |order| && order[i] == other;
          assert longer[i] == other;
        } else {
          assert longer[|order|] == other;
        }
      }
    }
  }

  function Rows(order: seq<string>, buckets: map<string, Item<BucketKey>>): seq<Item<BucketKey>>
    requires forall key :: key in order ==> key in buckets
  {
    seq(|order|, q requires 0 <= q < |order| => buckets[order[q]])
  }

  lemma WritesRows(table: map<BucketKey, Metrics>, order: seq<string>, buckets: map<string, Item<BucketKey>>, items: seq<Item<BucketKey>>)
    requires ListsBuckets(order, buckets) && HoldsBuckets(buckets, items)
    ensures Upserts(table, Rows(order, buckets)) == table + WrittenRows(items)
    ensures |order| == |WrittenRows(items)|
  {
    BucketsAreRows(order, buckets, items);
    UpsertsOverride(table, Rows(order, buckets), WrittenRows(items));
    EnumerationSize(Rows(order, buckets), WrittenRows(items));
  }

  lemma BucketsAreRows(order: seq<string>, buckets: map<string, Item<BucketKey>>, items: seq<Item<BucketKey>>)
    requires ListsBuckets(order, buckets) && HoldsBuckets(buckets, items)
    ensures Enumerates(Rows(order, buckets), WrittenRows(items))
  {
    var rows := Rows(order, buckets);
    FirstKeysJoin(items);
    forall i | 0 <= i < |rows|
      ensures Join(rows[i].key) == order[i] && rows[i].key in WrittenRows(items) && WrittenRows(items)[rows[i].key] == rows[i].m
    {
      assert order[i] in buckets;
    }
    forall k | k in WrittenRows(items)
      ensures HasKey(rows, k)
    {
      assert Join(k) in buckets;
      var i :| 0 <= i < |order| && order[i] == Join(k);
      assert rows[i].key == k;
    }
  }

  lemma {:induction false} EnumerationSize<K>(rows: seq<Item<K>>, table: map<K, Metrics>)
    requires Enumerates(rows, table)
    ensures |rows| == |table|
    decreases |rows|
  {
    if rows == [] {
      assert forall k :: k in table ==> HasKey(rows, k);
      assert table.Keys == {};
    } else {
      var key := rows[|rows| - 1].key;
      DropRow(rows, table);
      EnumerationSize(rows[..|rows| - 1], table - {key});
      assert table == (table - {key})[key := table[key]];
    }
  }
}
