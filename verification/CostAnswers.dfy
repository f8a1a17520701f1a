/**
 * What a cost query answers, in terms of the runs, the stored rows and the config alone
 * (the results of packages/core/src/cost/aggregate.ts).
 */
module CostAnswers {
  import opened Prelude
  import opened CostGrouping
  import opened CostModel

  /** `Infinity` is a case of its own. */
  datatype Roi = Finite(r: real) | Infinite

  datatype BreakdownRow = BreakdownRow(key: string, name: string, m: Metrics, roi: Roi)
  datatype DailyRow = DailyRow(day: int, runs: int, prsMerged: int, dollars: real, timeSavedHours: real)
  datatype Window = Window(from: int, to: int)
  datatype Summary = Summary(window: Window, m: Metrics, roi: Roi, truncated: bool)

  /** Breakdown lists are maps by key: their order (dollars, descending) is presentation only. */
  datatype AggregateResult = AggregateResult(
    summary: Summary,
    byTeam: map<string, BreakdownRow>, byRepo: map<string, BreakdownRow>, byPipeline: map<string, BreakdownRow>,
    byDay: map<int, DailyRow>)

  // ---------------------------------------------------------------- figures

  function Ints<K>(items: seq<Item<K>>, field: Metrics -> int): int {
    if items == [] then 0 else Ints(items[..|items| - 1], field) + field(items[|items| - 1].m)
  }

  function Reals<K>(items: seq<Item<K>>, field: Metrics -> real): real {
    if items == [] then 0.0 else Reals(items[..|items| - 1], field) + field(items[|items| - 1].m)
  }

  /** Each figure is the sum of that figure over the items. */
  ghost predicate Totals<K>(m: Metrics, items: seq<Item<K>>) {
    && m.runs == Ints(items, (x: Metrics) => x.runs)
    && m.prsMerged == Ints(items, (x: Metrics) => x.prsMerged)
    && m.inputTokens == Ints(items, (x: Metrics) => x.inputTokens)
    && m.outputTokens == Ints(items, (x: Metrics) => x.outputTokens)
    && m.dollars == Reals(items, (x: Metrics) => x.dollars)
    && m.timeSavedHours == Reals(items, (x: Metrics) => x.timeSavedHours)
  }

  /** What the saved hours are worth at the hourly rate, 50 by default, in multiples of the dollars spent. */
  ghost predicate IsRoi(roi: Roi, m: Metrics, hourlyEngRate: Option<real>) {
    var rate := if hourlyEngRate.Some? then hourlyEngRate.value else 50.0;
    && (m.dollars != 0.0 ==> roi.Finite? && roi.r * m.dollars == m.timeSavedHours * rate)
    && (m.dollars == 0.0 ==> (roi.Infinite? <==> m.timeSavedHours > 0.0) && (roi.Finite? ==> roi.r == 0.0))
  }

  /** The items that `key` files under `k`. */
  function Filed<J(==)>(items: seq<Item<BucketKey>>, key: BucketKey -> J, k: J): seq<Item<BucketKey>> {
    if items == [] then []
    else
      var rest := Filed(items[..|items| - 1], key, k);
      if key(items[|items| - 1].key) == k then rest + [items[|items| - 1]] else rest
  }

  /** One row for each key that occurs, with the label of its first item and the figures of all of them. */
  ghost predicate Lists(rows: map<string, BreakdownRow>, items: seq<Item<BucketKey>>, key: BucketKey -> string, name: BucketKey -> string,
                        hourlyEngRate: Option<real>) {
    forall k ::
      && (k in rows <==> Filed(items, key, k) != [])
      && (k in rows ==> IsRow(rows[k], k, Filed(items, key, k), name, hourlyEngRate))
  }

  ghost predicate IsRow(row: BreakdownRow, key: string, part: seq<Item<BucketKey>>, name: BucketKey -> string, hourlyEngRate: Option<real>) {
    row.key == key && part != [] && row.name == name(part[0].key) && Totals(row.m, part) && IsRoi(row.roi, row.m, hourlyEngRate)
  }

  ghost predicate ListsDays(rows: map<int, DailyRow>, items: seq<Item<BucketKey>>) {
    forall d ::
      && (d in rows <==> Filed(items, (k: BucketKey) => k.day, d) != [])
      && (d in rows ==> IsDay(rows[d], d, Filed(items, (k: BucketKey) => k.day, d)))
  }

  ghost predicate IsDay(row: DailyRow, day: int, part: seq<Item<BucketKey>>) {
    exists m :: Totals(m, part) && row == DailyRow(day, m.runs, m.prsMerged, m.dollars, m.timeSavedHours)
  }

  /** The result shows the items: their totals, and their rows by team, by repository, by pipeline and by day. */
  ghost predicate Shows(r: AggregateResult, items: seq<Item<BucketKey>>, window: Window, hourlyEngRate: Option<real>) {
    && r.summary.window == window
    && Totals(r.summary.m, items) && IsRoi(r.summary.roi, r.summary.m, hourlyEngRate)
    && Lists(r.byTeam, items, (k: BucketKey) => if k.linearTeamId == "" then "team:unassigned" else "team:" + k.linearTeamId,
             (k: BucketKey) => if k.linearTeamId == "" then "(unassigned)" else k.linearTeamId, hourlyEngRate)
    && Lists(r.byRepo, items, (k: BucketKey) => "repo:" + k.repoUrl, (k: BucketKey) => k.repoUrl, hourlyEngRate)
    && Lists(r.byPipeline, items, (k: BucketKey) => "pipeline:" + k.pipelineKey, (k: BucketKey) => k.pipelineKey, hourlyEngRate)
    && ListsDays(r.byDay, items)
  }

  /** What one table, or neither, has under a key. */
  function Entry(rows: map<string, BreakdownRow>, k: string): seq<Item<string>> {
    if k in rows then [Item(k, rows[k].m)] else []
  }

  /** Two breakdowns in one: the rows of either, under the first one's label, with the figures of both. */
  ghost predicate Merges(merged: map<string, BreakdownRow>, a: map<string, BreakdownRow>, b: map<string, BreakdownRow>, hourlyEngRate: Option<real>) {
    forall k ::
      && (k in merged <==> k in a || k in b)
      && (k in merged ==>
            && Totals(merged[k].m, Entry(a, k) + Entry(b, k)) && IsRoi(merged[k].roi, merged[k].m, hourlyEngRate)
            && merged[k].key == (if k in a then a[k].key else b[k].key)
            && merged[k].name == (if k in a then a[k].name else b[k].name))
  }

  // ---------------------------------------------------------------- items

  /** What one run adds: itself, a merged pull request or none, and its bill, on its UTC day. */
  ghost predicate IsRunItem(item: Item<BucketKey>, run: Run, config: CostConfig) {
    && run.completedAt.Some?
    && item.key.day * 86_400_000 <= run.completedAt.value < (item.key.day + 1) * 86_400_000
    && item.key.pipelineKey == run.pipelineKey && item.key.repoUrl == run.repoUrl
    && item.key.linearTeamId == (if run.linearTeamId.Some? then run.linearTeamId.value else "")
    && item.m.runs == 1
    && item.m.prsMerged == (if run.status == "completed" && run.runType != Some("review-feedback") then 1 else 0)
    && IsRunBill(RunCost(item.m.inputTokens, item.m.outputTokens, item.m.dollars, item.m.timeSavedHours), run, config)
  }

  ghost predicate AreRunItems(items: seq<Item<BucketKey>>, runs: seq<Run>, config: CostConfig) {
    |items| == |runs| && forall i :: 0 <= i < |items| ==> IsRunItem(items[i], runs[i], config)
  }

  /** The runs that completed within [from, to), each as often as it is stored, in some order. */
  ghost predicate IsWindow(sel: seq<Run>, runs: seq<Run>, from: int, to: int) {
    forall run :: multiset(sel)[run] == if run.completedAt.Some? && from <= run.completedAt.value < to then multiset(runs)[run] else 0
  }

  /** At most `maxRuns` are kept; none is dropped unless the cap is reached, and none that completed later than one kept. */
  ghost predicate IsCut(kept: seq<Run>, dropped: seq<Run>, maxRuns: nat) {
    && |kept| <= maxRuns && (dropped != [] ==> |kept| == maxRuns)
    && forall x, y :: x in kept && y in dropped ==>
         x.completedAt.Some? && y.completedAt.Some? && x.completedAt.value >= y.completedAt.value
  }

  /** Live: the newest `maxRuns` runs of the window. */
  ghost predicate AnswersAll(r: AggregateResult, runs: seq<Run>, from: int, to: int, config: CostConfig, maxRuns: nat) {
    exists kept, dropped, items ::
      && IsWindow(kept + dropped, runs, from, to) && IsCut(kept, dropped, maxRuns) && AreRunItems(items, kept, config)
      && Shows(r, items, Window(from, to), config.hourlyEngRate)
      && (r.summary.truncated <==> kept != [] && dropped != [])
  }

  /** Hybrid: the stored rows of the days that end after `from` and by `to` and are over, and the newest `maxRuns` runs since the last midnight. */
  ghost predicate AnswersHybrid(r: AggregateResult, table: map<BucketKey, Metrics>, runs: seq<Run>, from: int, to: int, now: int,
                                config: CostConfig, maxRuns: nat) {
    exists rows, kept, dropped, items ::
      && Enumerates(rows, map k | k in table && from < (k.day + 1) * 86_400_000 <= to && (k.day + 1) * 86_400_000 <= now :: table[k])
      && IsWindow(kept + dropped, runs, now / 86_400_000 * 86_400_000, to) && IsCut(kept, dropped, maxRuns) && AreRunItems(items, kept, config)
      && Shows(r, rows + items, Window(from, to), config.hourlyEngRate)
      && (r.summary.truncated <==> kept != [] && dropped != [])
  }

  /** The stored rows of a day are the keys of its runs, each with the figures of the runs that have it. */
  ghost predicate StoresDay(table: map<BucketKey, Metrics>, runs: seq<Run>, day: int, config: CostConfig) {
    exists sel, items ::
      && IsWindow(sel, runs, day * 86_400_000, (day + 1) * 86_400_000) && AreRunItems(items, sel, config)
      && StoresItems(table, items, day)
  }

  ghost predicate StoresItems(table: map<BucketKey, Metrics>, items: seq<Item<BucketKey>>, day: int) {
    forall k: BucketKey | k.day == day ::
      (k in table <==> Filed(items, Same<BucketKey>, k) != []) && (k in table ==> Totals(table[k], Filed(items, Same<BucketKey>, k)))
  }

  function Same<K>(k: K): K { k }

  // ---------------------------------------------------------------- the items of the model are these

  lemma {:induction false} SumTotals<K>(items: seq<Item<K>>)
    ensures Totals(Sum(items), items)
  {
    if items != [] {
      SumTotals(items[..|items| - 1]);
    }
  }

  lemma TotalsSnoc<K>(m: Metrics, items: seq<Item<K>>, x: Item<K>)
    requires Totals(m, items)
    ensures Totals(Add(m, x.m), items + [x])
  {
    InSnoc(items, x, x);
  }

  lemma {:induction false} FiledTotals<J(!new)>(items: seq<Item<BucketKey>>, key: BucketKey -> J, k: J)
    ensures k in Group(Rekey(items, key)) <==> Filed(items, key, k) != []
    ensures k in Group(Rekey(items, key)) ==> Totals(Group(Rekey(items, key))[k], Filed(items, key, k))
  {
    if items != [] {
      var init, last := items[..|items| - 1], items[|items| - 1];
      FiledTotals(init, key, k);
      assert items == init + [last];
      GroupSnoc(init, last, key);
      AddAt(Group(Rekey(init, key)), key(last.key), last.m, k);
      if key(last.key) == k {
        assert last.m == Add(ZERO, last.m);
        TotalsSnoc(if k in Group(Rekey(init, key)) then Group(Rekey(init, key))[k] else ZERO, Filed(init, key, k), last);
      }
    }
  }

  /** `Filed` sees only the values of `key`. */
  lemma {:induction false} FiledAgain<J>(items: seq<Item<BucketKey>>, f: BucketKey -> J, g: BucketKey -> J, k: J)
    requires forall x :: f(x) == g(x)
    ensures Filed(items, f, k) == Filed(items, g, k)
  {
    if items != [] {
      FiledAgain(items[..|items| - 1], f, g, k);
    }
  }

  lemma ItemsAreRunItems(runs: seq<Run>, config: CostConfig)
    requires AllCompleted(runs)
    ensures AreRunItems(Items(runs, config), runs, config)
  {
    forall i | 0 <= i < |runs|
      ensures IsRunItem(Items(runs, config)[i], runs[i], config)
    {
      assert runs[i] in runs;
      CostIsBill(CostOf(runs[i], config), runs[i], config);
    }
  }

  /** And no others are. */
  lemma RunItemsAreItems(items: seq<Item<BucketKey>>, runs: seq<Run>, config: CostConfig)
    requires AreRunItems(items, runs, config)
    ensures AllCompleted(runs) && items == Items(runs, config)
  {
    forall i | 0 <= i < |runs|
      ensures runs[i].completedAt.Some? && items[i] == Item(KeyOf(runs[i]), MetricsOf(runs[i], config))
    {
      var m := items[i].m;
      assert IsRunItem(items[i], runs[i], config);
      CostIsBill(RunCost(m.inputTokens, m.outputTokens, m.dollars, m.timeSavedHours), runs[i], config);
    }
  }

  lemma TotalsUnique<K>(m: Metrics, n: Metrics, items: seq<Item<K>>)
    requires Totals(m, items) && Totals(n, items)
    ensures m == n
  {
  }

  lemma {:induction false} SelectIsWindow(runs: seq<Run>, from: int, to: int)
    ensures IsWindow(Select(runs, from, to), runs, from, to)
  {
    if runs != [] {
      var init, last := runs[..|runs| - 1], runs[|runs| - 1];
      SelectIsWindow(init, from, to);
      assert runs == init + [last];
    }
  }
}
