/**
 * Runs, prices and the per-run cost (packages/core/src/cost/rates.ts, per-run.ts).
 *
 * Times are integers in the unit of the stored timestamps; a UTC day is
 * `DAY` of them. Dollars and hours are exact reals.
 */
module CostModel {
  import opened Prelude
  import opened CostGrouping

  const DAY: int := 86_400_000
  const SONNET := "claude-sonnet-4-6"

  datatype ModelRate = ModelRate(inputPerMillion: real, outputPerMillion: real)
  const BUILTIN_SONNET := ModelRate(3.0, 15.0)

  datatype PipelineConfig = PipelineConfig(
    stageModels: map<string, string>, profileModel: Option<string>, timeSavedPerPr: Option<real>)

  datatype CostConfig = CostConfig(
    modelPricing: Option<map<string, ModelRate>>,
    hourlyEngRate: Option<real>,
    timeSavedPerPrDefault: Option<real>,
    pipelineConfigs: map<string, PipelineConfig>)

  datatype ModelRun = ModelRun(modelId: string, inputTokens: int, outputTokens: int)

  datatype StageRun = StageRun(stage: string, inputTokens: int, outputTokens: int, modelRuns: seq<ModelRun>)

  /** A `pipeline_runs` row joined with its stage rows; `completedAt` is NULL until the run ends. */
  datatype Run = Run(
    id: string, pipelineKey: string, linearTeamId: Option<string>, repoUrl: string,
    status: string, runType: Option<string>, completedAt: Option<int>, stages: seq<StageRun>)

  datatype RunCost = RunCost(inputTokens: int, outputTokens: int, dollars: real, timeSavedHours: real)

  function DayOf(t: int): int { t / DAY }

  predicate IsMergedPr(run: Run) {
    run.status == "completed" && run.runType != Some("review-feedback")
  }

  // ---------------------------------------------------------------- rates.ts

  function ResolveModelRate(modelName: string, config: CostConfig): ModelRate {
    match config.modelPricing
    case None => BUILTIN_SONNET
    case Some(table) =>
      if modelName in table then table[modelName]
      else if SONNET in table then table[SONNET]
      else BUILTIN_SONNET
  }

  function ResolveTimeSavedPerPr(pipelineKey: string, config: CostConfig): real {
    if pipelineKey in config.pipelineConfigs && config.pipelineConfigs[pipelineKey].timeSavedPerPr.Some? then
      config.pipelineConfigs[pipelineKey].timeSavedPerPr.value
    else if config.timeSavedPerPrDefault.Some? then config.timeSavedPerPrDefault.value
    else 4.0
  }

  function StageModel(stage: string, pipelineKey: string, config: CostConfig): string {
    if pipelineKey !in config.pipelineConfigs then SONNET
    else
      var pc := config.pipelineConfigs[pipelineKey];
      if stage in pc.stageModels then pc.stageModels[stage]
      else if pc.profileModel.Some? then pc.profileModel.value
      else SONNET
  }

  function Price(tokens: int, perMillion: real): real {
    tokens as real * perMillion / 1_000_000.0
  }

  // ---------------------------------------------------------------- per-run.ts

  /** One priced quantity of tokens: the model they are billed to and how many. */
  datatype Usage = Usage(modelName: string, inputTokens: int, outputTokens: int)

  /** A stage bills its per-model rows when it has any, and otherwise its own totals to its configured model. */
  function StageUsage(s: StageRun, pipelineKey: string, config: CostConfig): seq<Usage> {
    if s.modelRuns != [] then
      seq(|s.modelRuns|, i requires 0 <= i < |s.modelRuns| =>
        Usage(s.modelRuns[i].modelId, s.modelRuns[i].inputTokens, s.modelRuns[i].outputTokens))
    else [Usage(StageModel(s.stage, pipelineKey, config), s.inputTokens, s.outputTokens)]
  }

  function RunUsage(stages: seq<StageRun>, pipelineKey: string, config: CostConfig): seq<Usage> {
    if stages == [] then []
    else RunUsage(stages[..|stages| - 1], pipelineKey, config) + StageUsage(stages[|stages| - 1], pipelineKey, config)
  }

  function AddUsage(b: RunCost, u: Usage, config: CostConfig): RunCost {
    var rate := ResolveModelRate(u.modelName, config);
    RunCost(b.inputTokens + u.inputTokens, b.outputTokens + u.outputTokens,
            b.dollars + Price(u.inputTokens, rate.inputPerMillion) + Price(u.outputTokens, rate.outputPerMillion),
            b.timeSavedHours)
  }

  function Bill(usage: seq<Usage>, config: CostConfig): (b: RunCost)
    ensures b.timeSavedHours == 0.0
  {
    if usage == [] then RunCost(0, 0, 0.0, 0.0)
    else AddUsage(Bill(usage[..|usage| - 1], config), usage[|usage| - 1], config)
  }

  /** What a run costs: the bill for every usage line, plus the engineering hours a merged PR saves. */
  function CostOf(run: Run, config: CostConfig): RunCost {
    Bill(RunUsage(run.stages, run.pipelineKey, config), config)
      .(timeSavedHours := if IsMergedPr(run) then ResolveTimeSavedPerPr(run.pipelineKey, config) else 0.0)
  }

  lemma UsageNext(run: Run, i: nat, config: CostConfig)
    requires i < |run.stages|
    ensures RunUsage(run.stages[..i + 1], run.pipelineKey, config) ==
              RunUsage(run.stages[..i], run.pipelineKey, config) + StageUsage(run.stages[i], run.pipelineKey, config)
  {
    assert run.stages[..i + 1][..i] == run.stages[..i];
  }

  method ComputeRunCost(run: Run, config: CostConfig) returns (cost: RunCost)
    ensures cost == CostOf(run, config)
    ensures IsRunBill(cost, run, config)
  {
    cost := RunCost(0, 0, 0.0, 0.0);
    for i := 0 to |run.stages|
      invariant cost == Bill(RunUsage(run.stages[..i], run.pipelineKey, config), config)
    {
      cost := BillStage(run.stages[i], run.pipelineKey, config, cost, RunUsage(run.stages[..i], run.pipelineKey, config));
      UsageNext(run, i, config);
    }
    assert run.stages[..|run.stages|] == run.stages;
    if IsMergedPr(run) {
      cost := cost.(timeSavedHours := ResolveTimeSavedPerPr(run.pipelineKey, config));
    }
    CostIsBill(cost, run, config);
  }

  /** One turn of the stage loop: the loop over the model rows, or the stage's own totals. */
  method BillStage(s: StageRun, pipelineKey: string, config: CostConfig, before: RunCost, ghost usage: seq<Usage>) returns (after: RunCost)
    requires before == Bill(usage, config)
    ensures after == Bill(usage + StageUsage(s, pipelineKey, config), config)
    ensures exists c :: IsStageBill(c, s, pipelineKey, config) && after == Altogether([before, c])
  {
    if |s.modelRuns| > 0 {
      after := BillRows(s.modelRuns, config, before, usage, StageUsage(s, pipelineKey, config));
    } else {
      var rate := ResolveModelRate(StageModel(s.stage, pipelineKey, config), config);
      var dollars := before.dollars;
      dollars := dollars + Price(s.inputTokens, rate.inputPerMillion);
      dollars := dollars + Price(s.outputTokens, rate.outputPerMillion);
      after := RunCost(before.inputTokens + s.inputTokens, before.outputTokens + s.outputTokens, dollars, 0.0);
      InSnoc(usage, StageUsage(s, pipelineKey, config)[0], StageUsage(s, pipelineKey, config)[0]);
    }
    StageAdds(s, pipelineKey, config, before, usage, after);
  }

  method BillRows(rows: seq<ModelRun>, config: CostConfig, before: RunCost, ghost usage: seq<Usage>, ghost lines: seq<Usage>) returns (after: RunCost)
    requires before == Bill(usage, config) && |lines| == |rows|
    requires forall j :: 0 <= j < |rows| ==> lines[j] == Usage(rows[j].modelId, rows[j].inputTokens, rows[j].outputTokens)
    ensures after == Bill(usage + lines, config)
  {
    after := before;
    assert usage + lines[..0] == usage;
    for j := 0 to |rows|
      invariant after == Bill(usage + lines[..j], config)
    {
      var mr := rows[j];
      var rate := ResolveModelRate(mr.modelId, config);
      BillNext(after, usage, lines, j, rate, config);
      var dollars := after.dollars + Price(mr.inputTokens, rate.inputPerMillion);
      dollars := dollars + Price(mr.outputTokens, rate.outputPerMillion);
      after := RunCost(after.inputTokens + mr.inputTokens, after.outputTokens + mr.outputTokens, dollars, 0.0);
    }
    assert lines[..|lines|] == lines;
  }

  lemma StageAdds(s: StageRun, pipelineKey: string, config: CostConfig, before: RunCost, usage: seq<Usage>, after: RunCost)
    requires before == Bill(usage, config) && after == Bill(usage + StageUsage(s, pipelineKey, config), config)
    ensures exists c :: IsStageBill(c, s, pipelineKey, config) && after == Altogether([before, c])
  {
    var c := Bill(StageUsage(s, pipelineKey, config), config);
    StageIsBill(c, s, pipelineKey, config);
    BillConcat(usage, StageUsage(s, pipelineKey, config), config);
    AltogetherSnoc([before], c);
    AltogetherSnoc([], before);
    assert [] + [before] == [before] && [before] + [c] == [before, c];
  }

  lemma BillNext(b: RunCost, usage: seq<Usage>, lines: seq<Usage>, j: nat, rate: ModelRate, config: CostConfig)
    requires j < |lines| && b == Bill(usage + lines[..j], config) && rate == ResolveModelRate(lines[j].modelName, config)
    ensures Bill(usage + lines[..j + 1], config) ==
              RunCost(b.inputTokens + lines[j].inputTokens, b.outputTokens + lines[j].outputTokens,
                      b.dollars + Price(lines[j].inputTokens, rate.inputPerMillion) + Price(lines[j].outputTokens, rate.outputPerMillion), 0.0)
  {
    assert usage + lines[..j + 1] == (usage + lines[..j]) + [lines[j]];
    BillSnoc(usage + lines[..j], lines[j], config);
    AddsLine(b, lines[j], rate, config);
  }

  lemma BillSnoc(usage: seq<Usage>, u: Usage, config: CostConfig)
    ensures Bill(usage + [u], config) == AddUsage(Bill(usage, config), u, config)
  {
    InSnoc(usage, u, u);
  }

  lemma AddsLine(b: RunCost, u: Usage, rate: ModelRate, config: CostConfig)
    requires rate == ResolveModelRate(u.modelName, config)
    ensures AddUsage(b, u, config) ==
              RunCost(b.inputTokens + u.inputTokens, b.outputTokens + u.outputTokens,
                      b.dollars + Price(u.inputTokens, rate.inputPerMillion) + Price(u.outputTokens, rate.outputPerMillion), b.timeSavedHours)
  {
  }

  /** The bill is additive: splitting the usage lines anywhere changes nothing. */
  lemma {:induction false} BillConcat(a: seq<Usage>, b: seq<Usage>, config: CostConfig)
    ensures var x, y := Bill(a, config), Bill(b, config);
            Bill(a + b, config) == RunCost(x.inputTokens + y.inputTokens, x.outputTokens + y.outputTokens, x.dollars + y.dollars, 0.0)
  {
    if b == [] {
      assert a + b == a;
    } else {
      assert (a + b)[..|a + b| - 1] == a + b[..|b| - 1];
      BillConcat(a, b[..|b| - 1], config);
    }
  }

  // ---------------------------------------------------------------- the cost in terms of the run and the config alone

  /** `c` holds the given tokens, at the model's configured prices, at Sonnet's if it has none, and at 3 and 15 if neither has. */
  ghost predicate IsLine(c: RunCost, model: string, input: int, output: int, config: CostConfig) {
    var table := if config.modelPricing.Some? then config.modelPricing.value else map[];
    && c.inputTokens == input && c.outputTokens == output && c.timeSavedHours == 0.0
    && (model in table ==>
          c.dollars * 1_000_000.0 == input as real * table[model].inputPerMillion + output as real * table[model].outputPerMillion)
    && (model !in table && "claude-sonnet-4-6" in table ==>
          c.dollars * 1_000_000.0 == input as real * table["claude-sonnet-4-6"].inputPerMillion
                                     + output as real * table["claude-sonnet-4-6"].outputPerMillion)
    && (model !in table && "claude-sonnet-4-6" !in table ==> c.dollars * 1_000_000.0 == input as real * 3.0 + output as real * 15.0)
  }

  function Altogether(parts: seq<RunCost>): RunCost {
    if parts == [] then RunCost(0, 0, 0.0, 0.0)
    else
      var rest, p := Altogether(parts[..|parts| - 1]), parts[|parts| - 1];
      RunCost(rest.inputTokens + p.inputTokens, rest.outputTokens + p.outputTokens, rest.dollars + p.dollars, rest.timeSavedHours + p.timeSavedHours)
  }

  ghost predicate AreLines(lines: seq<RunCost>, rows: seq<ModelRun>, config: CostConfig) {
    && |lines| == |rows|
    && forall j :: 0 <= j < |lines| ==> IsLine(lines[j], rows[j].modelId, rows[j].inputTokens, rows[j].outputTokens, config)
  }

  /** A stage costs what its model rows cost, each by its own model; one without rows, what its totals cost by its configured model. */
  ghost predicate IsStageBill(c: RunCost, s: StageRun, pipelineKey: string, config: CostConfig) {
    var pcs := config.pipelineConfigs;
    && (s.modelRuns != [] ==> exists lines :: AreLines(lines, s.modelRuns, config) && c == Altogether(lines))
    && (s.modelRuns == [] && pipelineKey in pcs && s.stage in pcs[pipelineKey].stageModels ==>
          IsLine(c, pcs[pipelineKey].stageModels[s.stage], s.inputTokens, s.outputTokens, config))
    && (s.modelRuns == [] && pipelineKey in pcs && s.stage !in pcs[pipelineKey].stageModels && pcs[pipelineKey].profileModel.Some? ==>
          IsLine(c, pcs[pipelineKey].profileModel.value, s.inputTokens, s.outputTokens, config))
    && (s.modelRuns == [] && (pipelineKey in pcs ==> s.stage !in pcs[pipelineKey].stageModels && pcs[pipelineKey].profileModel.None?) ==>
          IsLine(c, "claude-sonnet-4-6", s.inputTokens, s.outputTokens, config))
  }

  /** The hours a run saves: the pipeline's figure, else the default, else 4, for a completed run that handles no review feedback. */
  ghost predicate IsSaved(hours: real, run: Run, config: CostConfig) {
    var own := if run.pipelineKey in config.pipelineConfigs then config.pipelineConfigs[run.pipelineKey].timeSavedPerPr else None;
    var merged := run.status == "completed" && (run.runType.None? || run.runType.value != "review-feedback");
    && (!merged ==> hours == 0.0)
    && (merged && own.Some? ==> hours == own.value)
    && (merged && own.None? && config.timeSavedPerPrDefault.Some? ==> hours == config.timeSavedPerPrDefault.value)
    && (merged && own.None? && config.timeSavedPerPrDefault.None? ==> hours == 4.0)
  }

  ghost predicate IsRunBill(c: RunCost, run: Run, config: CostConfig) {
    && IsSaved(c.timeSavedHours, run, config)
    && exists parts :: AreStageBills(parts, run, config) && c.(timeSavedHours := 0.0) == Altogether(parts)
  }

  ghost predicate AreStageBills(parts: seq<RunCost>, run: Run, config: CostConfig) {
    && |parts| == |run.stages|
    && forall i :: 0 <= i < |parts| ==> IsStageBill(parts[i], run.stages[i], run.pipelineKey, config)
  }

  lemma AltogetherSnoc(parts: seq<RunCost>, p: RunCost)
    ensures var rest := Altogether(parts);
            Altogether(parts + [p]) == RunCost(rest.inputTokens + p.inputTokens, rest.outputTokens + p.outputTokens,
                                               rest.dollars + p.dollars, rest.timeSavedHours + p.timeSavedHours)
  {
    InSnoc(parts, p, p);
  }

  lemma LineIsBill(c: RunCost, u: Usage, config: CostConfig)
    ensures c == Bill([u], config) <==> IsLine(c, u.modelName, u.inputTokens, u.outputTokens, config)
  {
    assert [u][..0] == [];
  }

  /** Lists of parts that bill lists of usage lines one by one bill them altogether. */
  lemma {:induction false} PartsBill(parts: seq<RunCost>, usage: seq<seq<Usage>>, all: seq<Usage>, config: CostConfig)
    requires |parts| == |usage| && forall i :: 0 <= i < |parts| ==> parts[i] == Bill(usage[i], config)
    requires all == Flat(usage)
    ensures Altogether(parts) == Bill(all, config)
  {
    if parts != [] {
      var n := |parts| - 1;
      PartsBill(parts[..n], usage[..n], Flat(usage[..n]), config);
      BillConcat(Flat(usage[..n]), usage[n], config);
    }
  }

  function Flat(usage: seq<seq<Usage>>): seq<Usage> {
    if usage == [] then [] else Flat(usage[..|usage| - 1]) + usage[|usage| - 1]
  }

  function Singles(usage: seq<Usage>): seq<seq<Usage>> {
    seq(|usage|, i requires 0 <= i < |usage| => [usage[i]])
  }

  lemma {:induction false} FlatSingles(usage: seq<Usage>)
    ensures Flat(Singles(usage)) == usage
  {
    if usage != [] {
      var n := |usage| - 1;
      FlatSingles(usage[..n]);
      assert Singles(usage)[..n] == Singles(usage[..n]);
      assert usage == usage[..n] + [usage[n]];
    }
  }

  lemma RowsBill(rows: seq<ModelRun>, usage: seq<Usage>, config: CostConfig) returns (bills: seq<RunCost>)
    requires |usage| == |rows|
    requires forall j :: 0 <= j < |rows| ==> usage[j] == Usage(rows[j].modelId, rows[j].inputTokens, rows[j].outputTokens)
    ensures forall lines :: AreLines(lines, rows, config) <==> lines == bills
    ensures Altogether(bills) == Bill(usage, config)
  {
    bills := seq(|usage|, j requires 0 <= j < |usage| => Bill([usage[j]], config));
    FlatSingles(usage);
    PartsBill(bills, Singles(usage), usage, config);
    forall lines
      ensures AreLines(lines, rows, config) <==> lines == bills
    {
      OnlyTheseLines(lines, bills, rows, usage, config);
    }
  }

  lemma OnlyTheseLines(lines: seq<RunCost>, bills: seq<RunCost>, rows: seq<ModelRun>, usage: seq<Usage>, config: CostConfig)
    requires |bills| == |usage| == |rows| && forall j :: 0 <= j < |rows| ==> bills[j] == Bill([usage[j]], config)
    requires forall j :: 0 <= j < |rows| ==> usage[j] == Usage(rows[j].modelId, rows[j].inputTokens, rows[j].outputTokens)
    ensures AreLines(lines, rows, config) <==> lines == bills
  {
    if |lines| == |rows| {
      forall j | 0 <= j < |rows|
        ensures lines[j] == bills[j] <==> IsLine(lines[j], rows[j].modelId, rows[j].inputTokens, rows[j].outputTokens, config)
      {
        LineIsBill(lines[j], usage[j], config);
      }
    }
  }

  lemma StageIsBill(c: RunCost, s: StageRun, pipelineKey: string, config: CostConfig)
    ensures c == Bill(StageUsage(s, pipelineKey, config), config) <==> IsStageBill(c, s, pipelineKey, config)
  {
    var usage := StageUsage(s, pipelineKey, config);
    if s.modelRuns == [] {
      LineIsBill(c, usage[0], config);
    } else {
      var bills := RowsBill(s.modelRuns, usage, config);
      assert AreLines(bills, s.modelRuns, config);
    }
  }

  function StageUsages(run: Run, config: CostConfig, n: nat): (u: seq<seq<Usage>>)
    requires n <= |run.stages|
  {
    seq(n, i requires 0 <= i < n => StageUsage(run.stages[i], run.pipelineKey, config))
  }

  lemma {:induction false} FlatStages(run: Run, config: CostConfig, n: nat)
    requires n <= |run.stages|
    ensures Flat(StageUsages(run, config, n)) == RunUsage(run.stages[..n], run.pipelineKey, config)
  {
    if n > 0 {
      FlatStages(run, config, n - 1);
      UsageNext(run, n - 1, config);
      assert StageUsages(run, config, n)[..n - 1] == StageUsages(run, config, n - 1);
    }
  }

  lemma OnlyTheseStages(parts: seq<RunCost>, bills: seq<RunCost>, run: Run, config: CostConfig)
    requires |bills| == |run.stages|
    requires forall i :: 0 <= i < |bills| ==> bills[i] == Bill(StageUsage(run.stages[i], run.pipelineKey, config), config)
    ensures AreStageBills(parts, run, config) <==> parts == bills
  {
    if |parts| == |bills| {
      forall i | 0 <= i < |bills|
        ensures parts[i] == bills[i] <==> IsStageBill(parts[i], run.stages[i], run.pipelineKey, config)
      {
        StageIsBill(parts[i], run.stages[i], run.pipelineKey, config);
      }
    }
  }

  lemma StagesBill(run: Run, config: CostConfig) returns (bills: seq<RunCost>)
    ensures forall parts :: AreStageBills(parts, run, config) <==> parts == bills
    ensures Altogether(bills) == Bill(RunUsage(run.stages, run.pipelineKey, config), config)
  {
    var n := |run.stages|;
    bills := seq(n, i requires 0 <= i < n => Bill(StageUsage(run.stages[i], run.pipelineKey, config), config));
    FlatStages(run, config, n);
    assert run.stages[..n] == run.stages;
    PartsBill(bills, StageUsages(run, config, n), RunUsage(run.stages, run.pipelineKey, config), config);
    forall parts
      ensures AreStageBills(parts, run, config) <==> parts == bills
    {
      OnlyTheseStages(parts, bills, run, config);
    }
  }

  /** The bill of the two loops is the only one that the run and the config allow. */
  lemma CostIsBill(c: RunCost, run: Run, config: CostConfig)
    ensures c == CostOf(run, config) <==> IsRunBill(c, run, config)
  {
    var bills := StagesBill(run, config);
    assert AreStageBills(bills, run, config);
    SavedExactly(c.timeSavedHours, run, config);
  }

  lemma SavedExactly(hours: real, run: Run, config: CostConfig)
    ensures hours == CostOf(run, config).timeSavedHours <==> IsSaved(hours, run, config)
  {
  }

  // ---------------------------------------------------------------- runs as keyed metrics

  /** The unique key of `cost_rollups_daily`: date, pipeline, team ("" when unassigned) and repo. */
  datatype BucketKey = BucketKey(day: int, pipelineKey: string, linearTeamId: string, repoUrl: string)

  function TeamOf(run: Run): string {
    if run.linearTeamId.Some? then run.linearTeamId.value else ""
  }

  function KeyOf(run: Run): BucketKey
    requires run.completedAt.Some?
  {
    BucketKey(DayOf(run.completedAt.value), run.pipelineKey, TeamOf(run), run.repoUrl)
  }

  function MetricsOf(run: Run, config: CostConfig): Metrics {
    var c := CostOf(run, config);
    Metrics(1, if IsMergedPr(run) then 1 else 0, c.inputTokens, c.outputTokens, c.dollars, c.timeSavedHours)
  }

  /** `WHERE completed_at >= from AND completed_at < to`; NULL satisfies neither. */
  predicate InWindow(run: Run, from: int, to: int) {
    run.completedAt.Some? && from <= run.completedAt.value < to
  }

  function Select(runs: seq<Run>, from: int, to: int): (sel: seq<Run>)
    ensures forall r :: r in sel ==> r in runs && InWindow(r, from, to)
    ensures |sel| <= |runs|
  {
    if runs == [] then []
    else
      var rest, last := Select(runs[..|runs| - 1], from, to), runs[|runs| - 1];
      if InWindow(last, from, to) then rest + [last] else rest
  }

  ghost predicate AllCompleted(runs: seq<Run>) {
    forall r :: r in runs ==> r.completedAt.Some?
  }

  function Items(runs: seq<Run>, config: CostConfig): (items: seq<Item<BucketKey>>)
    requires AllCompleted(runs)
    ensures |items| == |runs|
    ensures forall i :: 0 <= i < |runs| ==> items[i] == Item(KeyOf(runs[i]), MetricsOf(runs[i], config))
  {
    seq(|runs|, i requires 0 <= i < |runs| => Item(KeyOf(runs[i]), MetricsOf(runs[i], config)))
  }

  function WindowItems(runs: seq<Run>, from: int, to: int, config: CostConfig): seq<Item<BucketKey>> {
    Items(Select(runs, from, to), config)
  }

  function DayItems(runs: seq<Run>, day: int, config: CostConfig): seq<Item<BucketKey>> {
    WindowItems(runs, day * DAY, (day + 1) * DAY, config)
  }

  lemma ItemsSnoc(runs: seq<Run>, run: Run, config: CostConfig)
    requires AllCompleted(runs) && run.completedAt.Some?
    ensures AllCompleted(runs + [run])
    ensures Items(runs + [run], config) == Items(runs, config) + [Item(KeyOf(run), MetricsOf(run, config))]
  {
  }

  lemma {:induction false} SelectConcatWindows(runs: seq<Run>, from: int, mid: int, to: int)
    requires from <= mid <= to
    ensures |Select(runs, from, to)| == |Select(runs, from, mid)| + |Select(runs, mid, to)|
    ensures Select(runs, from, mid) == [] ==> Select(runs, from, to) == Select(runs, mid, to)
  {
    if runs != [] {
      SelectConcatWindows(runs[..|runs| - 1], from, mid, to);
    }
  }

  lemma {:induction false} SelectNothing(runs: seq<Run>, from: int, to: int)
    requires to <= from
    ensures Select(runs, from, to) == []
  {
    if runs != [] {
      SelectNothing(runs[..|runs| - 1], from, to);
    }
  }

  /** Runs whose window membership did not change select the same rows. */
  lemma {:induction false} SelectFrame(a: seq<Run>, b: seq<Run>, from: int, to: int)
    requires |a| == |b|
    requires forall i :: 0 <= i < |a| ==> a[i] == b[i] || (!InWindow(a[i], from, to) && !InWindow(b[i], from, to))
    ensures Select(a, from, to) == Select(b, from, to)
  {
    if a != [] {
      SelectFrame(a[..|a| - 1], b[..|b| - 1], from, to);
    }
  }

  lemma SumSnoc(items: seq<Item<BucketKey>>, last: Item<BucketKey>)
    ensures Sum(items + [last]) == Add(Sum(items), last.m)
  {
    InSnoc(items, last, last);
  }

  /** Every run counts once: the summary's run count is the number of selected rows. */
  lemma {:induction false} SumCounts(runs: seq<Run>, config: CostConfig)
    requires AllCompleted(runs)
    ensures Sum(Items(runs, config)).runs == |runs|
  {
    if runs != [] {
      var init := runs[..|runs| - 1];
      SumCounts(init, config);
      ItemsSnoc(init, runs[|runs| - 1], config);
      assert init + [runs[|runs| - 1]] == runs;
      SumSnoc(Items(init, config), Item(KeyOf(runs[|runs| - 1]), MetricsOf(runs[|runs| - 1], config)));
    }
  }
}
