/** The fast form of a cost query refines the simple one. */
module CostTheorems {
  import opened Prelude
  import opened CostGrouping
  import opened CostModel
  import opened CostRollup
  import opened CostHistory
  import opened CostAnswers
  import opened CostAggregate
  import opened CostOrder

  // ---------------------------------------------------------------- windows of runs

  /** Cutting a window in two and merging the halves changes no group, wherever the runs lie in the table. */
  lemma {:induction false} WindowSplits<J>(runs: seq<Run>, from: int, mid: int, to: int, config: CostConfig, f: BucketKey -> J)
    requires from <= mid <= to
    ensures Group(Rekey(WindowItems(runs, from, to, config), f)) ==
            MapAdd(Group(Rekey(WindowItems(runs, from, mid, config), f)), Group(Rekey(WindowItems(runs, mid, to, config), f)))
  {
    if runs == [] {
      MapAddEmpty<J>(map[]);
    } else {
      var init, last := runs[..|runs| - 1], runs[|runs| - 1];
      WindowSplits(init, from, mid, to, config, f);
      var a, b := Group(Rekey(WindowItems(init, from, mid, config), f)), Group(Rekey(WindowItems(init, mid, to, config), f));
      WindowSnoc(runs, from, mid, config, f);
      WindowSnoc(runs, mid, to, config, f);
      WindowSnoc(runs, from, to, config, f);
      if InWindow(last, from, to) {
        AddLast(a, b, map[f(KeyOf(last)) := MetricsOf(last, config)]);
      }
    }
  }

  lemma WindowSnoc<J>(runs: seq<Run>, from: int, to: int, config: CostConfig, f: BucketKey -> J)
    requires runs != []
    ensures var last := runs[|runs| - 1];
            var before := WindowItems(runs[..|runs| - 1], from, to, config);
            Group(Rekey(WindowItems(runs, from, to, config), f)) ==
              if InWindow(last, from, to) then MapAdd(Group(Rekey(before, f)), map[f(KeyOf(last)) := MetricsOf(last, config)])
              else Group(Rekey(before, f))
  {
    var init, last := runs[..|runs| - 1], runs[|runs| - 1];
    if InWindow(last, from, to) {
      ItemsSnoc(Select(init, from, to), last, config);
      GroupSnoc(WindowItems(init, from, to, config), Item(KeyOf(last), MetricsOf(last, config)), f);
    }
  }

  lemma {:induction false} RekeySame<K>(items: seq<Item<K>>)
    ensures Rekey(items, Same<K>) == items
  {
    if items != [] {
      RekeySame(items[..|items| - 1]);
      assert items == items[..|items| - 1] + [items[|items| - 1]];
    }
  }

  lemma RowStored(table: map<BucketKey, Metrics>, items: seq<Item<BucketKey>>, k: BucketKey)
    ensures (k in table <==> Filed(items, Same<BucketKey>, k) != []) && (k in table ==> Totals(table[k], Filed(items, Same<BucketKey>, k)))
       <==> (k in table <==> k in Group(items)) && (k in table ==> table[k] == Group(items)[k])
  {
    RekeySame(items);
    FiledTotals(items, Same<BucketKey>, k);
    if k in table && k in Group(items) && Totals(table[k], Filed(items, Same<BucketKey>, k)) {
      TotalsUnique(table[k], Group(items)[k], Filed(items, Same<BucketKey>, k));
    }
  }

  lemma SameDayRows(table: map<BucketKey, Metrics>, g: map<BucketKey, Metrics>, day: int)
    requires forall k :: k in g ==> k.day == day
    ensures DayRows(table, day) == g <==> forall k: BucketKey | k.day == day :: (k in table <==> k in g) && (k in table ==> table[k] == g[k])
  {
    if forall k: BucketKey | k.day == day :: (k in table <==> k in g) && (k in table ==> table[k] == g[k]) {
      assert DayRows(table, day).Keys == g.Keys;
    }
  }

  lemma GroupStores(table: map<BucketKey, Metrics>, items: seq<Item<BucketKey>>, day: int)
    requires forall i :: 0 <= i < |items| ==> items[i].key.day == day
    ensures DayRows(table, day) == Group(items) <==> StoresItems(table, items, day)
  {
    GroupKeys(items);
    forall k | k in Group(items)
      ensures k.day == day
    {
      assert HasKey(items, k);
    }
    SameDayRows(table, Group(items), day);
    forall k: BucketKey
      ensures (k in table <==> Filed(items, Same<BucketKey>, k) != []) && (k in table ==> Totals(table[k], Filed(items, Same<BucketKey>, k)))
         <==> (k in table <==> k in Group(items)) && (k in table ==> table[k] == Group(items)[k])
    {
      RowStored(table, items, k);
    }
  }

  lemma DayStores(table: map<BucketKey, Metrics>, runs: seq<Run>, day: int, config: CostConfig, sel: seq<Run>, items: seq<Item<BucketKey>>)
    requires IsWindow(sel, runs, day * 86_400_000, (day + 1) * 86_400_000) && AreRunItems(items, sel, config)
    ensures ExactDay(table, runs, day, config) <==> StoresItems(table, items, day)
  {
    var stored := Select(runs, day * DAY, (day + 1) * DAY);
    SelectIsWindow(runs, day * DAY, (day + 1) * DAY);
    RunItemsAreItems(items, sel, config);
    assert multiset(sel) == multiset(stored);
    ItemDays(items, sel, day, config);
    GroupStores(table, items, day);
    ItemsPermute(sel, stored, config);
    GroupPermutes(items, Items(stored, config), Same<BucketKey>);
    RekeySame(items);
    RekeySame(Items(stored, config));
  }

  /** What it means that a day is exact, in terms of the runs and the config. */
  lemma ExactDayMeans(table: map<BucketKey, Metrics>, runs: seq<Run>, day: int, config: CostConfig)
    ensures ExactDay(table, runs, day, config) <==> StoresDay(table, runs, day, config)
  {
    var sel := Select(runs, day * DAY, (day + 1) * DAY);
    SelectIsWindow(runs, day * DAY, (day + 1) * DAY);
    ItemsAreRunItems(sel, config);
    DayStores(table, runs, day, config, sel, Items(sel, config));
    forall other, items | IsWindow(other, runs, day * 86_400_000, (day + 1) * 86_400_000) && AreRunItems(items, other, config)
      ensures ExactDay(table, runs, day, config) <==> StoresItems(table, items, day)
    {
      DayStores(table, runs, day, config, other, items);
    }
  }

  lemma ItemDays(items: seq<Item<BucketKey>>, sel: seq<Run>, day: int, config: CostConfig)
    requires AreRunItems(items, sel, config)
    requires forall r :: r in multiset(sel) ==> r.completedAt.Some? && day * DAY <= r.completedAt.value < (day + 1) * DAY
    ensures forall i :: 0 <= i < |items| ==> items[i].key.day == day
  {
    forall i | 0 <= i < |items|
      ensures items[i].key.day == day
    {
      assert sel[i] in multiset(sel) && IsRunItem(items[i], sel[i], config);
    }
  }

  /** Days that are exact one by one are exact as a window: the stored rows are the group-by of the window's runs. */
  lemma {:induction false} WindowExact(table: map<BucketKey, Metrics>, runs: seq<Run>, fromDay: int, toDay: int, config: CostConfig)
    requires forall d :: fromDay <= d < toDay ==> ExactDay(table, runs, d, config)
    ensures RollupWindow(table, fromDay, toDay) == Group(WindowItems(runs, fromDay * DAY, toDay * DAY, config))
    decreases toDay - fromDay
  {
    if toDay <= fromDay {
      SelectNothing(runs, fromDay * DAY, toDay * DAY);
      assert RollupWindow(table, fromDay, toDay) == map[];
    } else {
      var mid := toDay - 1;
      WindowExact(table, runs, fromDay, mid, config);
      WindowSplits(runs, fromDay * DAY, mid * DAY, toDay * DAY, config, Same<BucketKey>);
      RekeySame(WindowItems(runs, fromDay * DAY, toDay * DAY, config));
      RekeySame(WindowItems(runs, fromDay * DAY, mid * DAY, config));
      RekeySame(WindowItems(runs, mid * DAY, toDay * DAY, config));
      assert ExactDay(table, runs, mid, config);
      LastDayJoins(table, fromDay, mid);
    }
  }

  lemma LastDayJoins(table: map<BucketKey, Metrics>, fromDay: int, mid: int)
    requires fromDay <= mid
    ensures RollupWindow(table, fromDay, mid + 1) == MapAdd(RollupWindow(table, fromDay, mid), DayRows(table, mid))
  {
  }

  // ---------------------------------------------------------------- figures

  /** For one grouping: stored rows of the past plus live runs of today give the table of the whole window. */
  lemma HybridGroups<J>(rows: seq<Item<BucketKey>>, runs: seq<Run>, from: int, mid: int, to: int, config: CostConfig, f: BucketKey -> J)
    requires from <= mid <= to
    requires Enumerates(rows, Group(WindowItems(runs, from, mid, config)))
    ensures Group(Rekey(rows + WindowItems(runs, mid, to, config), f)) == Group(Rekey(WindowItems(runs, from, to, config), f))
  {
    var past, live := WindowItems(runs, from, mid, config), WindowItems(runs, mid, to, config);
    Regroup(rows, past, f);
    RekeyConcat(rows, live, f);
    GroupConcat(Rekey(rows, f), Rekey(live, f));
    WindowSplits(runs, from, mid, to, config, f);
  }

  lemma HybridSameGroups(rows: seq<Item<BucketKey>>, runs: seq<Run>, from: int, mid: int, to: int, config: CostConfig)
    requires from <= mid <= to
    requires Enumerates(rows, Group(WindowItems(runs, from, mid, config)))
    ensures SameGroups(rows + WindowItems(runs, mid, to, config), WindowItems(runs, from, to, config))
  {
    HybridGroups(rows, runs, from, mid, to, config, TeamKey);
    HybridGroups(rows, runs, from, mid, to, config, RepoKey);
    HybridGroups(rows, runs, from, mid, to, config, PipelineKey);
    HybridGroups(rows, runs, from, mid, to, config, DayKey);
    HybridGroups(rows, runs, from, mid, to, config, Whole<BucketKey>);
    SumFromGroup(rows + WindowItems(runs, mid, to, config), WindowItems(runs, from, to, config));
  }

  /** The stored rows count every run once. */
  lemma RowsCount(rows: seq<Item<BucketKey>>, runs: seq<Run>, from: int, to: int, config: CostConfig)
    requires Enumerates(rows, Group(WindowItems(runs, from, to, config)))
    ensures Sum(rows).runs == |Select(runs, from, to)|
  {
    var items := WindowItems(runs, from, to, config);
    Regroup(rows, items, Whole<BucketKey>);
    SumFromGroup(rows, items);
    SumCounts(Select(runs, from, to), config);
  }

  // ---------------------------------------------------------------- the theorem

  /** The window end as the hybrid query reads it: a day boundary when it lies in the past. */
  function SnapTo(to: int, now: int): int {
    if to <= SnapToUtcDayStart(now) then SnapToUtcDayStart(to) else to
  }

  /** In whatever orders the queries return their runs, the hybrid answer shows the figures of live aggregation over the snapped window. */
  ghost predicate AnswersLive(runs: seq<Run>, rows: seq<Item<BucketKey>>, from: int, to: int, now: int, config: CostConfig, maxRuns: nat, window: Window) {
    forall live, sel :: IsSelection(live, runs, SnapToUtcDayStart(now), to) && IsSelection(sel, runs, SnapToUtcDayStart(from), SnapTo(to, now)) ==>
      SameFigures(HybridResult(live, rows, from, to, now, config, maxRuns), AllResult(sel, config, maxRuns, window))
  }

  /**
   * A check on the selected runs: the cap bites neither side, or there is no past run and it bites both alike, cutting between
   * no two runs of one completion time that differ.
   */
  ghost predicate CapHarmless(runs: seq<Run>, from: int, to: int, now: int, config: CostConfig, maxRuns: nat) {
    var today := SnapToUtcDayStart(now);
    || |Select(runs, SnapToUtcDayStart(from), SnapTo(to, now))| <= maxRuns
    || (to > today && Select(runs, SnapToUtcDayStart(from), today) == [] && CapClean(Select(runs, today, to), maxRuns, config))
  }

  /**
   * With exact rollups for the completed days of the window, the hybrid answer has the same totals, ROI,
   * team, repo, pipeline and day rows as live aggregation over the window snapped to whole UTC days,
   * if and only if the row cap is harmless.
   */
  lemma HybridRefinesLive(table: map<BucketKey, Metrics>, runs: seq<Run>, rows: seq<Item<BucketKey>>,
                          from: int, to: int, now: int, config: CostConfig, maxRuns: nat, window: Window)
    requires from < SnapToUtcDayStart(now)
    requires forall d :: DayOf(from) <= d < DayOf(RollupCutoff(to, now)) ==> ExactDay(table, runs, d, config)
    requires Enumerates(rows, RollupWindow(table, DayOf(from), DayOf(RollupCutoff(to, now))))
    ensures AnswersLive(runs, rows, from, to, now, config, maxRuns, window) <==> CapHarmless(runs, from, to, now, config, maxRuns)
  {
    RowsAreWindow(table, runs, rows, from, to, now, config);
    if to <= SnapToUtcDayStart(now) {
      PastOnly(runs, rows, from, to, now, config, maxRuns, window);
    } else {
      PastAndToday(runs, rows, from, to, now, config, maxRuns, window);
    }
  }

  lemma RowsAreWindow(table: map<BucketKey, Metrics>, runs: seq<Run>, rows: seq<Item<BucketKey>>, from: int, to: int, now: int, config: CostConfig)
    requires forall d :: DayOf(from) <= d < DayOf(RollupCutoff(to, now)) ==> ExactDay(table, runs, d, config)
    requires Enumerates(rows, RollupWindow(table, DayOf(from), DayOf(RollupCutoff(to, now))))
    ensures Enumerates(rows, Group(WindowItems(runs, SnapToUtcDayStart(from), SnapToUtcDayStart(RollupCutoff(to, now)), config)))
    ensures SnapToUtcDayStart(SnapToUtcDayStart(now)) == SnapToUtcDayStart(now)
  {
    WindowExact(table, runs, DayOf(from), DayOf(RollupCutoff(to, now)), config);
  }

  lemma Answer(runs: seq<Run>, rows: seq<Item<BucketKey>>, from: int, to: int, now: int, config: CostConfig, maxRuns: nat, window: Window, live: seq<Run>, sel: seq<Run>)
    requires AnswersLive(runs, rows, from, to, now, config, maxRuns, window)
    requires IsSelection(live, runs, SnapToUtcDayStart(now), to) && IsSelection(sel, runs, SnapToUtcDayStart(from), SnapTo(to, now))
    ensures SameFigures(HybridResult(live, rows, from, to, now, config, maxRuns), AllResult(sel, config, maxRuns, window))
  {
  }

  lemma SelectionSize(sel: seq<Run>, runs: seq<Run>, from: int, to: int, config: CostConfig)
    requires IsSelection(sel, runs, from, to)
    ensures |sel| == |Select(runs, from, to)|
    ensures SameGroups(Items(sel, config), WindowItems(runs, from, to, config))
  {
    PermutedCompleted(Select(runs, from, to), sel);
    PermutedRuns(sel, Select(runs, from, to), config);
  }

  /** Without today, the stored rows are compared with the capped selection. */
  lemma PastOnly(runs: seq<Run>, rows: seq<Item<BucketKey>>, from: int, to: int, now: int, config: CostConfig, maxRuns: nat, window: Window)
    requires from < SnapToUtcDayStart(now) && to <= SnapToUtcDayStart(now)
    requires Enumerates(rows, Group(WindowItems(runs, SnapToUtcDayStart(from), SnapToUtcDayStart(to), config)))
    ensures AnswersLive(runs, rows, from, to, now, config, maxRuns, window) <==> CapHarmless(runs, from, to, now, config, maxRuns)
  {
    var a, b := SnapToUtcDayStart(from), SnapToUtcDayStart(to);
    if |Select(runs, a, b)| <= maxRuns {
      PastRows(rows, runs, a, b, config);
      forall live, sel | IsSelection(live, runs, SnapToUtcDayStart(now), to) && IsSelection(sel, runs, a, b)
        ensures SameFigures(HybridResult(live, rows, from, to, now, config, maxRuns), AllResult(sel, config, maxRuns, window))
      {
        SelectionSize(sel, runs, a, b, config);
        GroupsGiveFigures(rows, Items(sel, config), Window(from, to), window, HourlyRate(config), false, false);
      }
    } else if AnswersLive(runs, rows, from, to, now, config, maxRuns, window) {
      var live, sel := Select(runs, SnapToUtcDayStart(now), to), Select(runs, a, b);
      Answer(runs, rows, from, to, now, config, maxRuns, window, live, sel);
      RowsCount(rows, runs, a, b, config);
      SumCounts(Truncate(sel, maxRuns), config);
    }
  }

  lemma PastRows(rows: seq<Item<BucketKey>>, runs: seq<Run>, a: int, b: int, config: CostConfig)
    requires Enumerates(rows, Group(WindowItems(runs, a, b, config)))
    ensures SameGroups(rows, WindowItems(runs, a, b, config))
  {
    if a <= b {
      SelectNothing(runs, b, b);
      HybridSameGroups(rows, runs, a, b, b, config);
      assert rows + WindowItems(runs, b, b, config) == rows;
    } else {
      SelectNothing(runs, a, b);
      EnumerationSize(rows, Group(WindowItems(runs, a, b, config)));
    }
  }

  lemma PastAndToday(runs: seq<Run>, rows: seq<Item<BucketKey>>, from: int, to: int, now: int, config: CostConfig, maxRuns: nat, window: Window)
    requires from < SnapToUtcDayStart(now) < to
    requires Enumerates(rows, Group(WindowItems(runs, SnapToUtcDayStart(from), SnapToUtcDayStart(now), config)))
    ensures AnswersLive(runs, rows, from, to, now, config, maxRuns, window) <==> CapHarmless(runs, from, to, now, config, maxRuns)
  {
    var a, today := SnapToUtcDayStart(from), SnapToUtcDayStart(now);
    SelectConcatWindows(runs, a, today, to);
    if |Select(runs, a, to)| <= maxRuns {
      NoCap(runs, rows, from, to, now, config, maxRuns, window);
    } else if Select(runs, a, today) == [] {
      EnumerationSize(rows, Group(WindowItems(runs, a, today, config)));
      TodayOnly(runs, rows, from, to, now, config, maxRuns, window);
    } else {
      CapLosesRuns(runs, rows, from, to, now, config, maxRuns, window);
    }
  }

  lemma NoCap(runs: seq<Run>, rows: seq<Item<BucketKey>>, from: int, to: int, now: int, config: CostConfig, maxRuns: nat, window: Window)
    requires from < SnapToUtcDayStart(now) < to && |Select(runs, SnapToUtcDayStart(from), to)| <= maxRuns
    requires Enumerates(rows, Group(WindowItems(runs, SnapToUtcDayStart(from), SnapToUtcDayStart(now), config)))
    ensures AnswersLive(runs, rows, from, to, now, config, maxRuns, window)
  {
    var a, today := SnapToUtcDayStart(from), SnapToUtcDayStart(now);
    SelectConcatWindows(runs, a, today, to);
    HybridSameGroups(rows, runs, a, today, to, config);
    forall live, sel | IsSelection(live, runs, today, to) && IsSelection(sel, runs, a, to)
      ensures SameFigures(HybridResult(live, rows, from, to, now, config, maxRuns), AllResult(sel, config, maxRuns, window))
    {
      SelectionSize(live, runs, today, to, config);
      SelectionSize(sel, runs, a, to, config);
      SameGroupsJoin(rows, Items(live, config), WindowItems(runs, today, to, config));
      GroupsGiveFigures(rows + Items(live, config), Items(sel, config), Window(from, to), window, HourlyRate(config), false, false);
    }
  }

  /** Without past runs both queries select the same runs, and it depends on the cap alone whether they show the same ones. */
  lemma TodayOnly(runs: seq<Run>, rows: seq<Item<BucketKey>>, from: int, to: int, now: int, config: CostConfig, maxRuns: nat, window: Window)
    requires from < SnapToUtcDayStart(now) < to && rows == [] && Select(runs, SnapToUtcDayStart(from), to) == Select(runs, SnapToUtcDayStart(now), to)
    ensures AnswersLive(runs, rows, from, to, now, config, maxRuns, window) <==> CapClean(Select(runs, SnapToUtcDayStart(now), to), maxRuns, config)
  {
    var today := SnapToUtcDayStart(now);
    var all := Select(runs, today, to);
    if CapClean(all, maxRuns, config) {
      forall live, sel | IsSelection(live, runs, today, to) && IsSelection(sel, runs, SnapToUtcDayStart(from), to)
        ensures SameFigures(HybridResult(live, rows, from, to, now, config, maxRuns), AllResult(sel, config, maxRuns, window))
      {
        CapIndifferent(all, live, maxRuns, config);
        CapIndifferent(all, sel, maxRuns, config);
        NothingBefore(rows, Items(Truncate(live, maxRuns), config));
        GroupsGiveFigures(Items(Truncate(live, maxRuns), config), Items(Truncate(sel, maxRuns), config), Window(from, to), window,
                          HourlyRate(config), |live| > maxRuns > 0, |sel| > maxRuns > 0);
      }
    } else {
      var live, sel := CapMatters(all, maxRuns, config, Window(from, to), window, HourlyRate(config), |all| > maxRuns > 0, |all| > maxRuns > 0);
      PermutedCompleted(all, live);
      PermutedCompleted(all, sel);
      NothingBefore(rows, Items(Truncate(live, maxRuns), config));
      if AnswersLive(runs, rows, from, to, now, config, maxRuns, window) {
        Answer(runs, rows, from, to, now, config, maxRuns, window, live, sel);
      }
    }
  }

  lemma NothingBefore(rows: seq<Item<BucketKey>>, items: seq<Item<BucketKey>>)
    requires rows == []
    ensures rows + items == items
  {
  }

  /** With past runs a biting cap shows fewer runs live than the hybrid answer does. */
  lemma CapLosesRuns(runs: seq<Run>, rows: seq<Item<BucketKey>>, from: int, to: int, now: int, config: CostConfig, maxRuns: nat, window: Window)
    requires from < SnapToUtcDayStart(now) < to && |Select(runs, SnapToUtcDayStart(from), to)| > maxRuns
    requires Select(runs, SnapToUtcDayStart(from), SnapToUtcDayStart(now)) != []
    requires Enumerates(rows, Group(WindowItems(runs, SnapToUtcDayStart(from), SnapToUtcDayStart(now), config)))
    ensures !AnswersLive(runs, rows, from, to, now, config, maxRuns, window)
  {
    var a, today := SnapToUtcDayStart(from), SnapToUtcDayStart(now);
    var live, sel := Select(runs, today, to), Select(runs, a, to);
    SelectConcatWindows(runs, a, today, to);
    RowsCount(rows, runs, a, today, config);
    SumCounts(Truncate(live, maxRuns), config);
    SumCounts(Truncate(sel, maxRuns), config);
    SumConcat(rows, Items(Truncate(live, maxRuns), config));
    if AnswersLive(runs, rows, from, to, now, config, maxRuns, window) {
      Answer(runs, rows, from, to, now, config, maxRuns, window, live, sel);
    }
  }

  // ---------------------------------------------------------------- labels

  /** Runs without a team and runs of a team with the id "unassigned", which share a key but not a label. */
  ghost predicate MixesReserved(items: seq<Item<BucketKey>>) {
    exists i, j :: 0 <= i < |items| && 0 <= j < |items| && items[i].key.linearTeamId == "" && items[j].key.linearTeamId == "unassigned"
  }

  lemma SameKeySameTeam(k: BucketKey, l: BucketKey)
    requires TeamKey(k) == TeamKey(l)
    ensures k.linearTeamId == l.linearTeamId
         || (k.linearTeamId == "" && l.linearTeamId == "unassigned") || (k.linearTeamId == "unassigned" && l.linearTeamId == "")
  {
    TeamOfKey(k);
    TeamOfKey(l);
  }

  lemma TeamOfKey(k: BucketKey)
    ensures |TeamKey(k)| >= 5 && TeamKey(k)[5..] == if k.linearTeamId == "" then "unassigned" else k.linearTeamId
  {
    assert UNASSIGNED_KEY[5..] == "unassigned";
    assert ("team:" + k.linearTeamId)[5..] == k.linearTeamId;
  }

  /** A bucket has the label of some item filed under its key. */
  lemma {:induction false} LabelFrom(items: seq<Item<BucketKey>>, key: BucketKey -> string, name: BucketKey -> string, k: string)
    requires k in Buckets(items, key, name)
    ensures exists i :: 0 <= i < |items| && key(items[i].key) == k && Buckets(items, key, name)[k].name == name(items[i].key)
  {
    var init, last := items[..|items| - 1], items[|items| - 1];
    if k in Buckets(init, key, name) {
      LabelFrom(init, key, name, k);
      var i :| 0 <= i < |init| && key(init[i].key) == k && Buckets(init, key, name)[k].name == name(init[i].key);
      assert items[i] == init[i];
    } else {
      assert items[|items| - 1] == last;
    }
  }

  /** And it is the label of the first one. */
  lemma {:induction false} FirstLabelWins(x: Item<BucketKey>, rest: seq<Item<BucketKey>>, key: BucketKey -> string, name: BucketKey -> string)
    ensures key(x.key) in Buckets([x] + rest, key, name) && Buckets([x] + rest, key, name)[key(x.key)].name == name(x.key)
  {
    if rest == [] {
      assert [x] + rest == [x] && [x][..0] == [];
    } else {
      var init := rest[..|rest| - 1];
      FirstLabelWins(x, init, key, name);
      assert ([x] + rest)[..|rest|] == [x] + init;
    }
  }

  /** Each list in every order: the labels of the two are the same. */
  ghost predicate LabelsAgree(a: seq<Item<BucketKey>>, b: seq<Item<BucketKey>>) {
    forall a', b' :: multiset(a') == multiset(a) && multiset(b') == multiset(b) ==>
      forall k :: k in Buckets(a', TeamKey, TeamLabel) && k in Buckets(b', TeamKey, TeamLabel) ==>
        Buckets(a', TeamKey, TeamLabel)[k].name == Buckets(b', TeamKey, TeamLabel)[k].name
  }

  lemma LabelsAgreeUnmixed(a: seq<Item<BucketKey>>, b: seq<Item<BucketKey>>, k: string)
    requires !MixesReserved(a + b) && k in Buckets(a, TeamKey, TeamLabel) && k in Buckets(b, TeamKey, TeamLabel)
    ensures Buckets(a, TeamKey, TeamLabel)[k].name == Buckets(b, TeamKey, TeamLabel)[k].name
  {
    LabelFrom(a, TeamKey, TeamLabel, k);
    LabelFrom(b, TeamKey, TeamLabel, k);
    var i :| 0 <= i < |a| && TeamKey(a[i].key) == k && Buckets(a, TeamKey, TeamLabel)[k].name == TeamLabel(a[i].key);
    var j :| 0 <= j < |b| && TeamKey(b[j].key) == k && Buckets(b, TeamKey, TeamLabel)[k].name == TeamLabel(b[j].key);
    SameKeySameTeam(a[i].key, b[j].key);
    assert (a + b)[i] == a[i] && (a + b)[|a| + j] == b[j];
  }

  lemma PermutedMix(a: seq<Item<BucketKey>>, a': seq<Item<BucketKey>>)
    requires multiset(a) == multiset(a')
    ensures MixesReserved(a') ==> MixesReserved(a)
  {
    if MixesReserved(a') {
      var i, j :| 0 <= i < |a'| && 0 <= j < |a'| && a'[i].key.linearTeamId == "" && a'[j].key.linearTeamId == "unassigned";
      SameElements(a', a);
      var x, y := a'[i], a'[j];
      assert x in a' && y in a';
      var m :| 0 <= m < |a| && a[m] == x;
      var n :| 0 <= n < |a| && a[n] == y;
    }
  }

  lemma ToFront(items: seq<Item<BucketKey>>, i: nat) returns (rest: seq<Item<BucketKey>>)
    requires i < |items|
    ensures multiset([items[i]] + rest) == multiset(items)
  {
    rest := items[..i] + items[i + 1..];
    assert items == items[..i] + ([items[i]] + items[i + 1..]);
  }

  /** Two items of one key and different labels, each from either list: some order of the lists shows both labels. */
  lemma SomeOrderDiffers(a: seq<Item<BucketKey>>, b: seq<Item<BucketKey>>, i: nat, j: nat)
    requires i < |a| && j < |b| && TeamKey(a[i].key) == TeamKey(b[j].key) && TeamLabel(a[i].key) != TeamLabel(b[j].key)
    ensures !LabelsAgree(a, b)
  {
    var r := ToFront(a, i);
    var s := ToFront(b, j);
    FirstLabelWins(a[i], r, TeamKey, TeamLabel);
    FirstLabelWins(b[j], s, TeamKey, TeamLabel);
    var k, a', b' := TeamKey(a[i].key), [a[i]] + r, [b[j]] + s;
    assert k in Buckets(a', TeamKey, TeamLabel) && k in Buckets(b', TeamKey, TeamLabel);
  }

  lemma KeyPresent(a: seq<Item<BucketKey>>, b: seq<Item<BucketKey>>, i: nat) returns (j: nat)
    requires Group(Rekey(a, TeamKey)) == Group(Rekey(b, TeamKey)) && i < |a|
    ensures j < |b| && TeamKey(b[j].key) == TeamKey(a[i].key)
  {
    BucketsGroup(a, TeamKey, TeamLabel);
    BucketsGroup(b, TeamKey, TeamLabel);
    var r := ToFront(a, i);
    KeyInBuckets(a, i);
    LabelFrom(b, TeamKey, TeamLabel, TeamKey(a[i].key));
    j :| 0 <= j < |b| && TeamKey(b[j].key) == TeamKey(a[i].key);
  }

  lemma {:induction false} KeyInBuckets(a: seq<Item<BucketKey>>, i: nat)
    requires i < |a|
    ensures TeamKey(a[i].key) in Buckets(a, TeamKey, TeamLabel)
  {
    if i < |a| - 1 {
      KeyInBuckets(a[..|a| - 1], i);
    }
  }

  /**
   * The team labels of two lists with the same team rows, such as stored rows and live runs, agree in every order that SQL may
   * return them in, if and only if not both a run without a team and a team with the id "unassigned" occur in them.
   */
  lemma TeamRowsAgree(a: seq<Item<BucketKey>>, b: seq<Item<BucketKey>>)
    requires Group(Rekey(a, TeamKey)) == Group(Rekey(b, TeamKey))
    ensures LabelsAgree(a, b) <==> !MixesReserved(a + b)
  {
    if MixesReserved(a + b) {
      var p, q := MixedPair(a, b);
      SomeOrderDiffers(a, b, p, q);
    } else {
      forall a', b', k | multiset(a') == multiset(a) && multiset(b') == multiset(b)
                         && k in Buckets(a', TeamKey, TeamLabel) && k in Buckets(b', TeamKey, TeamLabel)
        ensures Buckets(a', TeamKey, TeamLabel)[k].name == Buckets(b', TeamKey, TeamLabel)[k].name
      {
        assert multiset(a' + b') == multiset(a + b);
        PermutedMix(a + b, a' + b');
        LabelsAgreeUnmixed(a', b', k);
      }
    }
  }

  lemma MixedPair(a: seq<Item<BucketKey>>, b: seq<Item<BucketKey>>) returns (p: nat, q: nat)
    requires Group(Rekey(a, TeamKey)) == Group(Rekey(b, TeamKey)) && MixesReserved(a + b)
    ensures p < |a| && q < |b| && TeamKey(a[p].key) == TeamKey(b[q].key) && TeamLabel(a[p].key) != TeamLabel(b[q].key)
  {
    var i, j :| 0 <= i < |a + b| && 0 <= j < |a + b| && (a + b)[i].key.linearTeamId == "" && (a + b)[j].key.linearTeamId == "unassigned";
    if i < |a| && j >= |a| {
      p, q := i, j - |a|;
      Clash(a[p].key, b[q].key);
    } else if i >= |a| && j < |a| {
      p, q := j, i - |a|;
      Clash(b[q].key, a[p].key);
    } else if i < |a| {
      p, q := PairAcross(a, b, i, j);
    } else {
      q, p := PairAcross(b, a, i - |a|, j - |a|);
    }
  }

  lemma Clash(k: BucketKey, l: BucketKey)
    requires k.linearTeamId == "" && l.linearTeamId == "unassigned"
    ensures TeamKey(k) == TeamKey(l) && TeamLabel(k) != TeamLabel(l)
  {
    assert UNASSIGNED_KEY == "team:" + "unassigned";
    assert |UNASSIGNED_TEAM| != |"unassigned"|;
  }

  /** Both in one list: the other list has one of them, which clashes with the other of the two. */
  lemma PairAcross(a: seq<Item<BucketKey>>, b: seq<Item<BucketKey>>, i: nat, j: nat) returns (p: nat, q: nat)
    requires Group(Rekey(a, TeamKey)) == Group(Rekey(b, TeamKey)) && i < |a| && j < |a|
    requires a[i].key.linearTeamId == "" && a[j].key.linearTeamId == "unassigned"
    ensures p < |a| && q < |b| && TeamKey(a[p].key) == TeamKey(b[q].key) && TeamLabel(a[p].key) != TeamLabel(b[q].key)
  {
    q := KeyPresent(a, b, i);
    SameKeySameTeam(a[i].key, b[q].key);
    p := if b[q].key.linearTeamId == "" then j else i;
    if b[q].key.linearTeamId == "" {
      Clash(b[q].key, a[j].key);
    } else {
      Clash(a[i].key, b[q].key);
    }
  }

  /** So for one list: the label shown depends on the order of the rows exactly when it mixes the two. */
  lemma ReservedTeamLabel(items: seq<Item<BucketKey>>)
    ensures LabelsAgree(items, items) <==> !MixesReserved(items)
  {
    TeamRowsAgree(items, items);
    if MixesReserved(items + items) {
      var i, j :| 0 <= i < |items + items| && 0 <= j < |items + items|
                  && (items + items)[i].key.linearTeamId == "" && (items + items)[j].key.linearTeamId == "unassigned";
      var m := if i < |items| then i else i - |items|;
      var n := if j < |items| then j else j - |items|;
      assert items[m].key.linearTeamId == "" && items[n].key.linearTeamId == "unassigned";
    }
    if MixesReserved(items) {
      var i, j :| 0 <= i < |items| && 0 <= j < |items| && items[i].key.linearTeamId == "" && items[j].key.linearTeamId == "unassigned";
      assert (items + items)[i] == items[i] && (items + items)[j] == items[j];
    }
  }

  // ---------------------------------------------------------------- end to end

  /**
   * The whole system: after any history from an empty table whose ticks covered the completed days of the
   * window, the hybrid answer shows the figures of live aggregation exactly when the row cap is harmless.
   */
  lemma HistoryMakesHybridExact(w: World, steps: seq<Step>, maxBackfillDays: int, rows: seq<Item<BucketKey>>,
                                from: int, to: int, config: CostConfig, maxRuns: nat, window: Window)
    requires Initial(w) && maxBackfillDays > 0
    requires from < SnapToUtcDayStart(After(w, steps, maxBackfillDays, config).clock)
    requires forall d :: DayOf(from) <= d < DayOf(RollupCutoff(to, After(w, steps, maxBackfillDays, config).clock)) ==>
               d in After(w, steps, maxBackfillDays, config).rolled
    requires Enumerates(rows, RollupWindow(After(w, steps, maxBackfillDays, config).table, DayOf(from),
                                           DayOf(RollupCutoff(to, After(w, steps, maxBackfillDays, config).clock))))
    ensures var s := After(w, steps, maxBackfillDays, config);
            (AnswersLive(s.runs, rows, from, to, s.clock, config, maxRuns, window) <==> CapHarmless(s.runs, from, to, s.clock, config, maxRuns))
  {
    var s := After(w, steps, maxBackfillDays, config);
    forall d | DayOf(from) <= d < DayOf(RollupCutoff(to, s.clock))
      ensures ExactDay(s.table, s.runs, d, config)
    {
      RollupsStayExact(w, steps, d, maxBackfillDays, config);
    }
    HybridRefinesLive(s.table, s.runs, rows, from, to, s.clock, config, maxRuns, window);
  }

  /**
   * After a tick that began today and has rolled its last day, windows that reach no further back than the days it
   * covers are answered like live ones.
   */
  lemma TickMakesHybridExact(w: World, steps: seq<Step>, t: Task, maxBackfillDays: int, rows: seq<Item<BucketKey>>,
                             from: int, to: int, config: CostConfig, maxRuns: nat, window: Window)
    requires Initial(w) && maxBackfillDays > 0 && SafeHistory(w, steps, maxBackfillDays, config)
    requires var s := After(w, steps, maxBackfillDays, config);
             && t in s.tasks && !Running(t) && DayOf(t.begun) == DayOf(s.clock)
             && DayOf(s.clock) - maxBackfillDays <= DayOf(from) && from < SnapToUtcDayStart(s.clock)
             && Enumerates(rows, RollupWindow(s.table, DayOf(from), DayOf(RollupCutoff(to, s.clock))))
    ensures var s := After(w, steps, maxBackfillDays, config);
            (AnswersLive(s.runs, rows, from, to, s.clock, config, maxRuns, window) <==> CapHarmless(s.runs, from, to, s.clock, config, maxRuns))
  {
    var s := After(w, steps, maxBackfillDays, config);
    forall d | DayOf(from) <= d < DayOf(RollupCutoff(to, s.clock))
      ensures d in s.rolled
    {
      TickMakesWindowExact(w, steps, t, d, maxBackfillDays, config);
    }
    HistoryMakesHybridExact(w, steps, maxBackfillDays, rows, from, to, config, maxRuns, window);
  }

  /** Conservation in a result: the metrics of any breakdown, listed in any order, add up to the summary. */
  lemma BreakdownConserves(rows: seq<Item<string>>, items: seq<Item<BucketKey>>, key: BucketKey -> string, name: BucketKey -> string,
                           window: Window, hourlyRate: real, truncated: bool)
    requires Enumerates(rows, map k | k in Buckets(items, key, name) :: Buckets(items, key, name)[k].m)
    ensures Sum(rows) == Fold(items, window, hourlyRate, truncated).summary.m
  {
    BucketsGroup(items, key, name);
    assert Group(Rekey(items, key)) == map k | k in Buckets(items, key, name) :: Buckets(items, key, name)[k].m;
    Conservation(rows, items, key);
  }

  function SumDays(rows: seq<DailyRow>): DailyRow {
    if rows == [] then DailyRow(0, 0, 0, 0.0, 0.0)
    else
      var rest, r := SumDays(rows[..|rows| - 1]), rows[|rows| - 1];
      DailyRow(0, rest.runs + r.runs, rest.prsMerged + r.prsMerged, rest.dollars + r.dollars, rest.timeSavedHours + r.timeSavedHours)
  }

  function DailyRows(rows: seq<Item<int>>): seq<DailyRow> {
    seq(|rows|, i requires 0 <= i < |rows| => ToDaily(rows[i].key, rows[i].m))
  }

  lemma {:induction false} SumDaysIsSum(rows: seq<Item<int>>)
    ensures SumDays(DailyRows(rows)) == ToDaily(0, Sum(rows))
  {
    if rows != [] {
      SumDaysIsSum(rows[..|rows| - 1]);
      assert DailyRows(rows)[..|rows| - 1] == DailyRows(rows[..|rows| - 1]);
    }
  }

  /** The daily rows of a result are those of the group-by by day, and listed in any order they add up to the summary. */
  lemma DaysConserve(rows: seq<Item<int>>, items: seq<Item<BucketKey>>, window: Window, hourlyRate: real, truncated: bool)
    requires Enumerates(rows, Group(Rekey(items, DayKey)))
    ensures var r := Fold(items, window, hourlyRate, truncated);
            && (forall i :: 0 <= i < |rows| ==> rows[i].key in r.byDay && r.byDay[rows[i].key] == DailyRows(rows)[i])
            && (forall d :: d in r.byDay ==> HasKey(rows, d))
            && SumDays(DailyRows(rows)) == ToDaily(0, r.summary.m)
  {
    DaysGroup(items);
    Conservation(rows, items, DayKey);
    SumDaysIsSum(rows);
  }
}
