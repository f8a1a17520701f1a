/**
 * Whole runs of the system: pipeline runs start and finish, the clock moves, and ticks and backfills
 * roll the rollup table day by day, in any interleaving; any of them may be cut off between two days.
 */
module CostHistory {
  import opened Prelude
  import opened CostGrouping
  import opened CostModel
  import opened CostRollup

  /** A tick or backfill under way: when it began, and the next day it will roll, yesterday's being its last. */
  datatype Task = Task(begun: int, next: int)

  /** `rolled` are the days that any task has rolled so far. */
  datatype World = World(clock: int, runs: seq<Run>, table: map<BucketKey, Metrics>, tasks: seq<Task>, rolled: set<int>)

  datatype Step =
    | Start(run: Run)
    | Finish(i: nat, status: string, stages: seq<StageRun>)
    | Advance(ms: nat)
    | BeginTick(latest: Option<int>)
    | BeginBackfill(days: int)
    | RollNext(t: nat)
    | Drop(t: nat)

  /** No `|` in the parts of the bucket key that come before a separator. */
  predicate Clean(run: Run) {
    '|' !in run.pipelineKey && '|' !in TeamOf(run)
  }

  /** It has a day left to roll. */
  predicate Running(t: Task) {
    t.next < DayOf(t.begun)
  }

  /**
   * A run is inserted unfinished and finishes once, at the current time; it does not change afterwards.
   * A tick begins by reading the latest stored date.
   */
  ghost predicate Enabled(w: World, s: Step) {
    match s
    case Start(run) => run.completedAt.None? && Clean(run)
    case Finish(i, _, _) => i < |w.runs| && w.runs[i].completedAt.None?
    case Advance(_) => true
    case BeginTick(latest) => IsLatest(latest, w.table)
    case BeginBackfill(days) => days > 0
    case RollNext(t) => t < |w.tasks| && Running(w.tasks[t])
    case Drop(t) => t < |w.tasks|
  }

  function RollOn(w: World, t: nat, config: CostConfig): World
    requires t < |w.tasks|
  {
    var day := w.tasks[t].next;
    w.(table := RollDay(w.table, w.runs, day, config), tasks := w.tasks[t := w.tasks[t].(next := day + 1)], rolled := w.rolled + {day})
  }

  /** A step that is not enabled leaves the world as it is. */
  ghost function Next(w: World, s: Step, maxBackfillDays: int, config: CostConfig): World {
    if !Enabled(w, s) then w
    else
      match s
      case Start(run) => w.(runs := w.runs + [run])
      case Finish(i, status, stages) =>
        w.(runs := w.runs[i := w.runs[i].(status := status, stages := stages, completedAt := Some(w.clock))])
      case Advance(ms) => w.(clock := w.clock + ms)
      case BeginTick(latest) => w.(tasks := w.tasks + [Task(w.clock, RestartDay(latest, DayOf(w.clock) - 1, maxBackfillDays))])
      case BeginBackfill(days) => w.(tasks := w.tasks + [Task(w.clock, DayOf(w.clock) - days)])
      case RollNext(t) => RollOn(w, t, config)
      case Drop(t) => w.(tasks := w.tasks[..t] + w.tasks[t + 1..])
  }

  ghost function After(w: World, steps: seq<Step>, maxBackfillDays: int, config: CostConfig): World {
    if steps == [] then w
    else Next(After(w, steps[..|steps| - 1], maxBackfillDays, config), steps[|steps| - 1], maxBackfillDays, config)
  }

  /** The last `maxBackfillDays` completed days at time `now`. */
  predicate InTickWindow(day: int, now: int, maxBackfillDays: int) {
    DayOf(now) - maxBackfillDays <= day < DayOf(now)
  }

  function DayRows(table: map<BucketKey, Metrics>, day: int): map<BucketKey, Metrics> {
    map k | k in table && k.day == day :: table[k]
  }

  /** The stored rows of a day are the group-by of the runs that completed on it. */
  predicate ExactDay(table: map<BucketKey, Metrics>, runs: seq<Run>, day: int, config: CostConfig) {
    DayRows(table, day) == Group(DayItems(runs, day, config))
  }

  ghost predicate AllClean(runs: seq<Run>) {
    forall r :: r in runs ==> Clean(r)
  }

  // ---------------------------------------------------------------- rolling days

  lemma DayItemsClean(runs: seq<Run>, day: int, config: CostConfig)
    requires AllClean(runs)
    ensures NoCollision(DayItems(runs, day, config))
    ensures forall k :: k in Group(DayItems(runs, day, config)) ==> k.day == day
  {
    var sel := Select(runs, day * DAY, (day + 1) * DAY);
    var items := Items(sel, config);
    forall i | 0 <= i < |items|
      ensures items[i].key.day == day && '|' !in items[i].key.pipelineKey && '|' !in items[i].key.linearTeamId
    {
      assert sel[i] in sel;
      SameDay(sel[i].completedAt.value, day);
    }
    forall i, j | 0 <= i < |items| && 0 <= j < |items| && Join(items[i].key) == Join(items[j].key)
      ensures items[i].key == items[j].key
    {
      JoinInjective(items[i].key, items[j].key);
    }
    GroupKeys(items);
  }

  ghost predicate FreshOrExact(table: map<BucketKey, Metrics>, runs: seq<Run>, day: int, config: CostConfig) {
    DayRows(table, day) == map[] || ExactDay(table, runs, day, config)
  }

  lemma OverrideDay(table: map<BucketKey, Metrics>, rows: map<BucketKey, Metrics>, rolled: int, day: int)
    requires forall k :: k in rows ==> k.day == rolled
    ensures rolled != day ==> DayRows(table + rows, day) == DayRows(table, day)
    ensures rolled == day && (DayRows(table, day) == map[] || DayRows(table, day) == rows) ==> DayRows(table + rows, day) == rows
  {
    if rolled == day && (DayRows(table, day) == map[] || DayRows(table, day) == rows) {
      forall k | k in table && k.day == day
        ensures k in rows
      {
        assert k in DayRows(table, day);
      }
      assert DayRows(table + rows, day).Keys == rows.Keys;
    }
  }

  lemma RollDayExact(table: map<BucketKey, Metrics>, runs: seq<Run>, rolled: int, day: int, config: CostConfig)
    requires AllClean(runs) && FreshOrExact(table, runs, day, config)
    ensures rolled == day ==> ExactDay(RollDay(table, runs, rolled, config), runs, day, config)
    ensures rolled != day ==> DayRows(RollDay(table, runs, rolled, config), day) == DayRows(table, day)
  {
    DayItemsClean(runs, rolled, config);
    CollisionFreeKeys(DayItems(runs, rolled, config));
    OverrideDay(table, Group(DayItems(runs, rolled, config)), rolled, day);
  }

  lemma {:induction false} RollDaysExact(table: map<BucketKey, Metrics>, runs: seq<Run>, dates: seq<int>, day: int, config: CostConfig)
    requires AllClean(runs) && FreshOrExact(table, runs, day, config)
    ensures day in dates ==> ExactDay(RollDays(table, runs, dates, config), runs, day, config)
    ensures day !in dates ==> DayRows(RollDays(table, runs, dates, config), day) == DayRows(table, day)
  {
    if dates != [] {
      var init, last := dates[..|dates| - 1], dates[|dates| - 1];
      RollDaysExact(table, runs, init, day, config);
      RollDayExact(RollDays(table, runs, init, config), runs, last, day, config);
      assert dates == init + [last];
    }
  }

  // ---------------------------------------------------------------- what every history keeps

  ghost predicate Initial(w: World) {
    && w.table == map[] && w.tasks == [] && w.rolled == {}
    && forall r :: r in w.runs ==> Clean(r) && (r.completedAt.Some? ==> r.completedAt.value <= w.clock)
  }

  /** A day that was rolled is over and exact, a stored row belongs to such a day, and tasks roll days that are over. */
  ghost predicate Inv(w: World, config: CostConfig) {
    && AllClean(w.runs)
    && (forall r :: r in w.runs && r.completedAt.Some? ==> r.completedAt.value <= w.clock)
    && (forall k :: k in w.table ==> k.day in w.rolled)
    && (forall d :: d in w.rolled ==> d < DayOf(w.clock) && ExactDay(w.table, w.runs, d, config))
    && (forall t :: t in w.tasks ==> t.begun <= w.clock)
  }

  lemma FrozenDay(w: World, runs': seq<Run>, day: int, config: CostConfig)
    requires day < DayOf(w.clock) && ExactDay(w.table, w.runs, day, config)
    requires |w.runs| == |runs'|
    requires forall i :: 0 <= i < |runs'| ==> runs'[i] == w.runs[i] || (w.runs[i].completedAt.None? && runs'[i].completedAt == Some(w.clock))
    ensures ExactDay(w.table, runs', day, config)
  {
    assert (day + 1) * DAY <= w.clock;
    SelectFrame(w.runs, runs', day * DAY, (day + 1) * DAY);
  }

  lemma StartStep(w: World, run: Run, config: CostConfig)
    requires Inv(w, config) && run.completedAt.None? && Clean(run)
    ensures Inv(w.(runs := w.runs + [run]), config)
  {
    var runs' := w.runs + [run];
    forall d
      ensures Select(runs', d * DAY, (d + 1) * DAY) == Select(w.runs, d * DAY, (d + 1) * DAY)
    {
      assert runs'[..|w.runs|] == w.runs;
    }
    forall d | d in w.rolled
      ensures ExactDay(w.table, runs', d, config)
    {
    }
  }

  /** A run that has finished now, and was clean before, keeps the invariant. */
  lemma RunsFinish(w: World, runs': seq<Run>, config: CostConfig)
    requires Inv(w, config) && |w.runs| == |runs'|
    requires forall i :: 0 <= i < |runs'| ==>
               || runs'[i] == w.runs[i]
               || (w.runs[i].completedAt.None? && runs'[i].completedAt == Some(w.clock) && (Clean(w.runs[i]) ==> Clean(runs'[i])))
    ensures Inv(w.(runs := runs'), config)
  {
    forall r | r in runs'
      ensures Clean(r) && (r.completedAt.Some? ==> r.completedAt.value <= w.clock)
    {
      var i :| 0 <= i < |runs'| && runs'[i] == r;
      assert w.runs[i] in w.runs;
    }
    forall d | d in w.rolled
      ensures ExactDay(w.table, runs', d, config)
    {
      FrozenDay(w, runs', d, config);
    }
  }

  lemma FinishStep(w: World, s: Step, maxBackfillDays: int, config: CostConfig)
    requires Inv(w, config) && s.Finish? && Enabled(w, s)
    ensures Inv(Next(w, s, maxBackfillDays, config), config)
  {
    RunsFinish(w, Next(w, s, maxBackfillDays, config).runs, config);
  }

  lemma RollKeepsExact(table: map<BucketKey, Metrics>, runs: seq<Run>, rolled: set<int>, day: int, config: CostConfig)
    requires AllClean(runs) && forall k :: k in table ==> k.day in rolled
    requires forall d :: d in rolled ==> ExactDay(table, runs, d, config)
    ensures forall d :: d in rolled + {day} ==> ExactDay(RollDay(table, runs, day, config), runs, d, config)
  {
    forall d | d in rolled + {day}
      ensures ExactDay(RollDay(table, runs, day, config), runs, d, config)
    {
      if d !in rolled {
        assert DayRows(table, d) == map[];
      }
      RollDayExact(table, runs, day, d, config);
    }
  }

  lemma RollDayKeys(table: map<BucketKey, Metrics>, runs: seq<Run>, day: int, config: CostConfig)
    requires AllClean(runs)
    ensures forall k :: k in RollDay(table, runs, day, config) ==> k in table || k.day == day
  {
    DayItemsClean(runs, day, config);
    CollisionFreeKeys(DayItems(runs, day, config));
  }

  lemma RollStep(w: World, t: nat, config: CostConfig)
    requires Inv(w, config) && t < |w.tasks| && Running(w.tasks[t])
    ensures Inv(RollOn(w, t, config), config)
  {
    var day, w' := w.tasks[t].next, RollOn(w, t, config);
    assert w.tasks[t] in w.tasks;
    LaterDay(w.tasks[t].begun, w.clock);
    RollKeepsExact(w.table, w.runs, w.rolled, day, config);
    RollDayKeys(w.table, w.runs, day, config);
    assert forall u :: u in w'.tasks ==> u in w.tasks || u == w.tasks[t].(next := day + 1);
  }

  lemma LaterDay(a: int, b: int)
    requires a <= b
    ensures DayOf(a) <= DayOf(b)
  {
  }

  /** After a step the list holds the entries before it, a new one, and one that went on by a day. */
  lemma TaskMembers(w: World, s: Step, maxBackfillDays: int, config: CostConfig)
    requires Enabled(w, s)
    ensures forall t :: t in Next(w, s, maxBackfillDays, config).tasks ==>
              || t in w.tasks
              || (s.BeginTick? && t == Task(w.clock, RestartDay(s.latest, DayOf(w.clock) - 1, maxBackfillDays)))
              || (s.BeginBackfill? && t == Task(w.clock, DayOf(w.clock) - s.days))
              || (s.RollNext? && t == w.tasks[s.t].(next := w.tasks[s.t].next + 1))
  {
  }

  lemma StepInv(w: World, s: Step, maxBackfillDays: int, config: CostConfig)
    requires Inv(w, config)
    ensures Inv(Next(w, s, maxBackfillDays, config), config)
  {
    if Enabled(w, s) {
      TaskMembers(w, s, maxBackfillDays, config);
      match s
      case Start(run) => StartStep(w, run, config);
      case Finish(_, _, _) => FinishStep(w, s, maxBackfillDays, config);
      case Advance(ms) => LaterDay(w.clock, w.clock + ms);
      case RollNext(t) => RollStep(w, t, config);
      case BeginTick(_) =>
      case BeginBackfill(_) =>
      case Drop(_) =>
    }
  }

  lemma {:induction false} HistoryInv(w: World, steps: seq<Step>, maxBackfillDays: int, config: CostConfig)
    requires Initial(w)
    ensures Inv(After(w, steps, maxBackfillDays, config), config)
  {
    if steps != [] {
      var init := steps[..|steps| - 1];
      HistoryInv(w, init, maxBackfillDays, config);
      StepInv(After(w, init, maxBackfillDays, config), steps[|steps| - 1], maxBackfillDays, config);
    }
  }

  /**
   * From an empty table and under any interleaving, whatever was cut off and whatever was backfilled:
   * a day that was ever rolled has exactly the group-by of its runs.
   */
  lemma RollupsStayExact(w: World, steps: seq<Step>, day: int, maxBackfillDays: int, config: CostConfig)
    requires Initial(w)
    requires day in After(w, steps, maxBackfillDays, config).rolled
    ensures var now := After(w, steps, maxBackfillDays, config);
            ExactDay(now.table, now.runs, day, config) && day < DayOf(now.clock)
  {
    HistoryInv(w, steps, maxBackfillDays, config);
  }

  /** No row is ever stored for a day that was not rolled, so none for today or later. */
  lemma RowsAreRolled(w: World, steps: seq<Step>, k: BucketKey, maxBackfillDays: int, config: CostConfig)
    requires Initial(w)
    requires k in After(w, steps, maxBackfillDays, config).table
    ensures k.day in After(w, steps, maxBackfillDays, config).rolled && k.day < DayOf(After(w, steps, maxBackfillDays, config).clock)
  {
    HistoryInv(w, steps, maxBackfillDays, config);
  }

  // ---------------------------------------------------------------- ticks leave no gap

  /** The backfill covers the window, or begins no later than the day after a stored one. */
  ghost predicate SafeBackfill(w: World, days: int, maxBackfillDays: int) {
    days >= maxBackfillDays || exists k :: k in w.table && DayOf(w.clock) - days <= k.day + 1
  }

  /** Every backfill of the history was safe when it began. */
  ghost predicate SafeHistory(w: World, steps: seq<Step>, maxBackfillDays: int, config: CostConfig) {
    steps == [] ||
    (var init, s := steps[..|steps| - 1], steps[|steps| - 1];
     && SafeHistory(w, init, maxBackfillDays, config)
     && (s.BeginBackfill? ==> SafeBackfill(After(w, init, maxBackfillDays, config), s.days, maxBackfillDays)))
  }

  /** Below each day that was rolled, and below each day that a task rolls next, its window has no gap. */
  ghost predicate NoGap(w: World, maxBackfillDays: int) {
    && (forall h, d :: h in w.rolled && DayOf(w.clock) - maxBackfillDays <= d <= h ==> d in w.rolled)
    && (forall t :: t in w.tasks ==> TaskNoGap(w.rolled, t, maxBackfillDays))
  }

  ghost predicate TaskNoGap(rolled: set<int>, t: Task, maxBackfillDays: int) {
    forall d :: DayOf(t.begun) - maxBackfillDays <= d < t.next && d < DayOf(t.begun) ==> d in rolled
  }

  /** Restarting from the day after the latest stored one skips only days of the window that were rolled before. */
  lemma RestartSkipsNothing(w: World, latest: Option<int>, maxBackfillDays: int, config: CostConfig)
    requires Inv(w, config) && NoGap(w, maxBackfillDays) && maxBackfillDays > 0 && IsLatest(latest, w.table)
    ensures TaskNoGap(w.rolled, Task(w.clock, RestartDay(latest, DayOf(w.clock) - 1, maxBackfillDays)), maxBackfillDays)
  {
    assert latest.Some? ==> latest.value in w.rolled;
  }

  lemma BackfillSkipsNothing(w: World, days: int, maxBackfillDays: int, config: CostConfig)
    requires Inv(w, config) && NoGap(w, maxBackfillDays) && SafeBackfill(w, days, maxBackfillDays)
    ensures TaskNoGap(w.rolled, Task(w.clock, DayOf(w.clock) - days), maxBackfillDays)
  {
    if k :| k in w.table && DayOf(w.clock) - days <= k.day + 1 {
      assert k.day in w.rolled;
    }
  }

  lemma TaskRollsOn(rolled: set<int>, t: Task, maxBackfillDays: int)
    requires TaskNoGap(rolled, t, maxBackfillDays)
    ensures TaskNoGap(rolled + {t.next}, t.(next := t.next + 1), maxBackfillDays)
  {
  }

  lemma RollLeavesNoGap(w: World, t: nat, maxBackfillDays: int, config: CostConfig)
    requires NoGap(w, maxBackfillDays) && t < |w.tasks| && DayOf(w.tasks[t].begun) <= DayOf(w.clock) && Running(w.tasks[t])
    ensures NoGap(RollOn(w, t, config), maxBackfillDays)
  {
    var day, w' := w.tasks[t].next, RollOn(w, t, config);
    assert w.tasks[t] in w.tasks && TaskNoGap(w.rolled, w.tasks[t], maxBackfillDays);
    TaskRollsOn(w.rolled, w.tasks[t], maxBackfillDays);
    forall u | u in w'.tasks
      ensures TaskNoGap(w'.rolled, u, maxBackfillDays)
    {
      assert u in w.tasks || u == w.tasks[t].(next := day + 1);
    }
  }

  lemma StepLeavesNoGap(w: World, s: Step, maxBackfillDays: int, config: CostConfig)
    requires Inv(w, config) && NoGap(w, maxBackfillDays) && maxBackfillDays > 0
    requires s.BeginBackfill? ==> SafeBackfill(w, s.days, maxBackfillDays)
    ensures NoGap(Next(w, s, maxBackfillDays, config), maxBackfillDays)
  {
    if Enabled(w, s) {
      TaskMembers(w, s, maxBackfillDays, config);
      match s
      case Advance(ms) => LaterDay(w.clock, w.clock + ms);
      case BeginTick(latest) => RestartSkipsNothing(w, latest, maxBackfillDays, config);
      case BeginBackfill(days) => BackfillSkipsNothing(w, days, maxBackfillDays, config);
      case RollNext(t) =>
        assert w.tasks[t] in w.tasks;
        LaterDay(w.tasks[t].begun, w.clock);
        RollLeavesNoGap(w, t, maxBackfillDays, config);
      case Start(_) =>
      case Finish(_, _, _) =>
      case Drop(_) =>
    }
  }

  lemma {:induction false} HistoryHasNoGap(w: World, steps: seq<Step>, maxBackfillDays: int, config: CostConfig)
    requires Initial(w) && maxBackfillDays > 0 && SafeHistory(w, steps, maxBackfillDays, config)
    ensures NoGap(After(w, steps, maxBackfillDays, config), maxBackfillDays)
  {
    if steps != [] {
      var init := steps[..|steps| - 1];
      HistoryHasNoGap(w, init, maxBackfillDays, config);
      HistoryInv(w, init, maxBackfillDays, config);
      StepLeavesNoGap(After(w, init, maxBackfillDays, config), steps[|steps| - 1], maxBackfillDays, config);
    }
  }

  /**
   * Each day of its window that a tick or backfill has passed is exact, even if it is then cut off: so when a tick has
   * rolled its last day, each of the `maxBackfillDays` days completed at its beginning is exact.
   */
  lemma TickMakesWindowExact(w: World, steps: seq<Step>, t: Task, day: int, maxBackfillDays: int, config: CostConfig)
    requires Initial(w) && maxBackfillDays > 0 && SafeHistory(w, steps, maxBackfillDays, config)
    requires t in After(w, steps, maxBackfillDays, config).tasks
    requires InTickWindow(day, t.begun, maxBackfillDays) && (Running(t) ==> day < t.next)
    ensures var now := After(w, steps, maxBackfillDays, config);
            day in now.rolled && ExactDay(now.table, now.runs, day, config)
  {
    HistoryInv(w, steps, maxBackfillDays, config);
    HistoryHasNoGap(w, steps, maxBackfillDays, config);
    assert TaskNoGap(After(w, steps, maxBackfillDays, config).rolled, t, maxBackfillDays);
  }

  // ---------------------------------------------------------------- an undisturbed tick

  function Rolls(t: nat, n: nat): seq<Step> {
    if n == 0 then [] else Rolls(t, n - 1) + [RollNext(t)]
  }

  /** What `n` turns of one task have done when nothing else happened. */
  ghost predicate Rolled(w: World, now: World, t: nat, n: nat, config: CostConfig)
    requires t < |w.tasks|
  {
    && now.table == RollDays(w.table, w.runs, DateRange(w.tasks[t].next, w.tasks[t].next + n - 1), config)
    && now.runs == w.runs && now.clock == w.clock && |now.tasks| == |w.tasks|
    && now.tasks[t] == w.tasks[t].(next := w.tasks[t].next + n)
  }

  lemma RollOnce(w: World, now: World, t: nat, n: nat, config: CostConfig)
    requires t < |w.tasks| && Rolled(w, now, t, n, config)
    ensures Rolled(w, RollOn(now, t, config), t, n + 1, config)
  {
    RollOnRest(w, now, t, n, config);
    RollOnTable(w, now, t, n, config);
  }

  lemma RollOnRest(w: World, now: World, t: nat, n: nat, config: CostConfig)
    requires t < |w.tasks| && Rolled(w, now, t, n, config)
    ensures var next := RollOn(now, t, config);
            && next.runs == w.runs && next.clock == w.clock && |next.tasks| == |w.tasks|
            && next.tasks[t] == w.tasks[t].(next := w.tasks[t].next + n + 1)
            && next.table == RollDay(now.table, now.runs, now.tasks[t].next, config)
  {
  }

  lemma RollOnTable(w: World, now: World, t: nat, n: nat, config: CostConfig)
    requires t < |w.tasks| && Rolled(w, now, t, n, config)
    ensures RollDay(now.table, now.runs, now.tasks[t].next, config) ==
            RollDays(w.table, w.runs, DateRange(w.tasks[t].next, w.tasks[t].next + n), config)
  {
    RollDaysOn(w.table, w.runs, w.tasks[t].next, n, now.table, now.tasks[t].next, config);
  }

  lemma RollDaysOn(table: map<BucketKey, Metrics>, runs: seq<Run>, first: int, n: nat, mid: map<BucketKey, Metrics>, next: int, config: CostConfig)
    requires mid == RollDays(table, runs, DateRange(first, first + n - 1), config) && next == first + n
    ensures RollDay(mid, runs, next, config) == RollDays(table, runs, DateRange(first, first + n), config)
  {
    RollDaysNext(table, runs, first, n, config);
  }

  lemma RollDaysNext(table: map<BucketKey, Metrics>, runs: seq<Run>, first: int, n: nat, config: CostConfig)
    ensures RollDays(table, runs, DateRange(first, first + n), config) ==
            RollDay(RollDays(table, runs, DateRange(first, first + n - 1), config), runs, first + n, config)
  {
    assert DateRange(first, first + n) == DateRange(first, first + n - 1) + [first + n];
    RollDaysSnoc(table, runs, DateRange(first, first + n - 1), first + n, config);
  }

  lemma RollDaysSnoc(table: map<BucketKey, Metrics>, runs: seq<Run>, days: seq<int>, day: int, config: CostConfig)
    ensures RollDays(table, runs, days + [day], config) == RollDay(RollDays(table, runs, days, config), runs, day, config)
  {
    InSnoc(days, day, day);
  }

  lemma RollsNext(w: World, t: nat, n: nat, maxBackfillDays: int, config: CostConfig)
    requires n > 0
    ensures var before := After(w, Rolls(t, n - 1), maxBackfillDays, config);
            t < |before.tasks| && Running(before.tasks[t]) ==> After(w, Rolls(t, n), maxBackfillDays, config) == RollOn(before, t, config)
  {
    InSnoc(Rolls(t, n - 1), RollNext(t), RollNext(t));
  }

  lemma {:induction false} RollsInOrder(w: World, t: nat, n: nat, maxBackfillDays: int, config: CostConfig)
    requires t < |w.tasks| && (n == 0 || w.tasks[t].next + n <= DayOf(w.tasks[t].begun))
    ensures Rolled(w, After(w, Rolls(t, n), maxBackfillDays, config), t, n, config)
  {
    if n > 0 {
      RollsInOrder(w, t, n - 1, maxBackfillDays, config);
      RollOnce(w, After(w, Rolls(t, n - 1), maxBackfillDays, config), t, n - 1, config);
      RollsNext(w, t, n, maxBackfillDays, config);
    }
  }

  /** A tick that nothing interrupts or overlaps is one `recomputeCostRollups`. */
  lemma UndisturbedTick(w: World, n: nat, maxBackfillDays: int, config: CostConfig)
    requires n == |DatesToRoll(Latest(w.table), DayOf(w.clock) - 1, maxBackfillDays)|
    ensures var now := After(Next(w, BeginTick(Latest(w.table)), maxBackfillDays, config), Rolls(|w.tasks|, n), maxBackfillDays, config);
            && now.table == Recompute(w.table, w.runs, w.clock, maxBackfillDays, config)
            && |w.tasks| < |now.tasks| && !Running(now.tasks[|w.tasks|])
  {
    RecomputeRolls(w.table, w.runs, w.clock, maxBackfillDays, config);
    UndisturbedFrom(w, Latest(w.table), n, maxBackfillDays, config);
  }

  lemma TickBegins(w: World, latest: Option<int>, first: int, maxBackfillDays: int, config: CostConfig)
    requires IsLatest(latest, w.table) && first == RestartDay(latest, DayOf(w.clock) - 1, maxBackfillDays)
    ensures Next(w, BeginTick(latest), maxBackfillDays, config) == w.(tasks := w.tasks + [Task(w.clock, first)])
  {
  }

  lemma UndisturbedFrom(w: World, latest: Option<int>, n: nat, maxBackfillDays: int, config: CostConfig)
    requires IsLatest(latest, w.table) && n == |DatesToRoll(latest, DayOf(w.clock) - 1, maxBackfillDays)|
    ensures var now := After(Next(w, BeginTick(latest), maxBackfillDays, config), Rolls(|w.tasks|, n), maxBackfillDays, config);
            && now.table == RollDays(w.table, w.runs, DatesToRoll(latest, DayOf(w.clock) - 1, maxBackfillDays), config)
            && |w.tasks| < |now.tasks| && !Running(now.tasks[|w.tasks|])
  {
    var first := RestartDay(latest, DayOf(w.clock) - 1, maxBackfillDays);
    TickBegins(w, latest, first, maxBackfillDays, config);
    RollsInOrder(w.(tasks := w.tasks + [Task(w.clock, first)]), |w.tasks|, n, maxBackfillDays, config);
    SameRange(first, DayOf(w.clock) - 1, n);
  }

  lemma SameRange(first: int, last: int, n: nat)
    requires n == |DateRange(first, last)|
    ensures DateRange(first, first + n - 1) == DateRange(first, last)
  {
  }

  lemma RecomputeRolls(table: map<BucketKey, Metrics>, runs: seq<Run>, now: int, maxBackfillDays: int, config: CostConfig)
    ensures Recompute(table, runs, now, maxBackfillDays, config) ==
            RollDays(table, runs, DateRange(RestartDay(Latest(table), DayOf(now) - 1, maxBackfillDays), DayOf(now) - 1), config)
  {
  }

  // ---------------------------------------------------------------- exactly which days a tick or backfill leaves exact

  /** No day holds rows of another state of its runs: it has none, or is exact. */
  ghost predicate Tidy(table: map<BucketKey, Metrics>, runs: seq<Run>, config: CostConfig) {
    AllClean(runs) && forall d :: FreshOrExact(table, runs, d, config)
  }

  lemma HistoryIsTidy(w: World, steps: seq<Step>, maxBackfillDays: int, config: CostConfig)
    requires Initial(w)
    ensures var now := After(w, steps, maxBackfillDays, config); Tidy(now.table, now.runs, config)
  {
    HistoryInv(w, steps, maxBackfillDays, config);
    var now := After(w, steps, maxBackfillDays, config);
    forall d
      ensures FreshOrExact(now.table, now.runs, d, config)
    {
      if d !in now.rolled {
        assert DayRows(now.table, d) == map[];
      }
    }
  }

  lemma RollDaysTidy(table: map<BucketKey, Metrics>, runs: seq<Run>, dates: seq<int>, config: CostConfig)
    requires Tidy(table, runs, config)
    ensures Tidy(RollDays(table, runs, dates, config), runs, config)
    ensures forall d :: ExactDay(RollDays(table, runs, dates, config), runs, d, config) <==> d in dates || ExactDay(table, runs, d, config)
  {
    forall d
      ensures FreshOrExact(RollDays(table, runs, dates, config), runs, d, config)
      ensures ExactDay(RollDays(table, runs, dates, config), runs, d, config) <==> d in dates || ExactDay(table, runs, d, config)
    {
      assert FreshOrExact(table, runs, d, config);
      RollDaysExact(table, runs, dates, d, config);
    }
  }

  /** The days of the window before `day` are exact. */
  ghost predicate ExactBelow(table: map<BucketKey, Metrics>, runs: seq<Run>, now: int, day: int, maxBackfillDays: int, config: CostConfig) {
    forall d :: InTickWindow(d, now, maxBackfillDays) && d < day ==> ExactDay(table, runs, d, config)
  }

  /** The whole window is exact. */
  ghost predicate WindowExactAt(table: map<BucketKey, Metrics>, runs: seq<Run>, now: int, maxBackfillDays: int, config: CostConfig) {
    ExactBelow(table, runs, now, DayOf(now), maxBackfillDays, config)
  }

  /** A tick leaves its window exact if and only if the days below its restart day were exact before. */
  lemma TickExactly(table: map<BucketKey, Metrics>, runs: seq<Run>, now: int, maxBackfillDays: int, config: CostConfig)
    requires Tidy(table, runs, config) && maxBackfillDays > 0
    ensures WindowExactAt(Recompute(table, runs, now, maxBackfillDays, config), runs, now, maxBackfillDays, config)
       <==> ExactBelow(table, runs, now, RestartDay(Latest(table), DayOf(now) - 1, maxBackfillDays), maxBackfillDays, config)
  {
    RecomputeRolls(table, runs, now, maxBackfillDays, config);
    RollWindow(table, runs, now, RestartDay(Latest(table), DayOf(now) - 1, maxBackfillDays), maxBackfillDays, config);
  }

  lemma RollWindow(table: map<BucketKey, Metrics>, runs: seq<Run>, now: int, first: int, maxBackfillDays: int, config: CostConfig)
    requires Tidy(table, runs, config)
    ensures WindowExactAt(RollDays(table, runs, DateRange(first, DayOf(now) - 1), config), runs, now, maxBackfillDays, config)
       <==> ExactBelow(table, runs, now, first, maxBackfillDays, config)
  {
    var dates := DateRange(first, DayOf(now) - 1);
    RollDaysTidy(table, runs, dates, config);
    RangeMembers(first, DayOf(now) - 1);
  }

  /** No run completed on the day. */
  predicate NoRuns(runs: seq<Run>, day: int) {
    Select(runs, day * DAY, (day + 1) * DAY) == []
  }

  lemma RolledOrNone(w: World, day: int, config: CostConfig)
    requires Inv(w, config)
    ensures ExactDay(w.table, w.runs, day, config) <==> day in w.rolled || NoRuns(w.runs, day)
  {
    if day !in w.rolled {
      assert DayRows(w.table, day) == map[];
      if !NoRuns(w.runs, day) {
        HasRows(w.runs, day, config);
      }
    }
  }

  /** Each day of the window below `day` was rolled or has no runs. */
  ghost predicate RolledBelow(w: World, day: int, maxBackfillDays: int) {
    forall d :: InTickWindow(d, w.clock, maxBackfillDays) && d < day ==> d in w.rolled || NoRuns(w.runs, d)
  }

  lemma RolledBelowExact(w: World, day: int, maxBackfillDays: int, config: CostConfig)
    requires Inv(w, config)
    ensures ExactBelow(w.table, w.runs, w.clock, day, maxBackfillDays, config) <==> RolledBelow(w, day, maxBackfillDays)
  {
    forall d
      ensures ExactDay(w.table, w.runs, d, config) <==> d in w.rolled || NoRuns(w.runs, d)
    {
      RolledOrNone(w, d, config);
    }
  }

  lemma InvTickExactly(s: World, first: int, maxBackfillDays: int, config: CostConfig)
    requires Inv(s, config) && Tidy(s.table, s.runs, config) && maxBackfillDays > 0
    requires first == RestartDay(Latest(s.table), DayOf(s.clock) - 1, maxBackfillDays)
    ensures WindowExactAt(Recompute(s.table, s.runs, s.clock, maxBackfillDays, config), s.runs, s.clock, maxBackfillDays, config)
       <==> RolledBelow(s, first, maxBackfillDays)
  {
    TickExactly(s.table, s.runs, s.clock, maxBackfillDays, config);
    RolledBelowExact(s, first, maxBackfillDays, config);
  }

  /**
   * After any history, a tick that runs undisturbed leaves its window exact if and only if each of the window's days below its
   * restart day was rolled before or has no runs.
   */
  lemma HistoryTickExactly(w: World, steps: seq<Step>, s: World, maxBackfillDays: int, config: CostConfig)
    requires Initial(w) && maxBackfillDays > 0 && s == After(w, steps, maxBackfillDays, config)
    ensures WindowExactAt(Recompute(s.table, s.runs, s.clock, maxBackfillDays, config), s.runs, s.clock, maxBackfillDays, config)
       <==> RolledBelow(s, RestartDay(Latest(s.table), DayOf(s.clock) - 1, maxBackfillDays), maxBackfillDays)
  {
    HistoryInv(w, steps, maxBackfillDays, config);
    HistoryIsTidy(w, steps, maxBackfillDays, config);
    InvTickExactly(s, RestartDay(Latest(s.table), DayOf(s.clock) - 1, maxBackfillDays), maxBackfillDays, config);
  }

  /** What rolling the days from `from` up to yesterday does to a table. */
  ghost predicate Filled(table: map<BucketKey, Metrics>, filled: map<BucketKey, Metrics>, runs: seq<Run>, now: int, from: int, config: CostConfig) {
    && Tidy(filled, runs, config)
    && (forall d :: ExactDay(filled, runs, d, config) <==> from <= d < DayOf(now) || ExactDay(table, runs, d, config))
    && (forall k :: k in filled ==> k in table || from <= k.day < DayOf(now))
  }

  lemma BackfillFills(table: map<BucketKey, Metrics>, runs: seq<Run>, now: int, days: int, config: CostConfig)
    requires Tidy(table, runs, config)
    ensures Filled(table, RollDays(table, runs, DateRange(DayOf(now) - days, DayOf(now) - 1), config), runs, now, DayOf(now) - days, config)
  {
    RangeMembers(DayOf(now) - days, DayOf(now) - 1);
    RangeFills(table, runs, DateRange(DayOf(now) - days, DayOf(now) - 1), now, DayOf(now) - days, config);
  }

  lemma RangeFills(table: map<BucketKey, Metrics>, runs: seq<Run>, dates: seq<int>, now: int, from: int, config: CostConfig)
    requires Tidy(table, runs, config) && forall d :: d in dates <==> from <= d < DayOf(now)
    ensures Filled(table, RollDays(table, runs, dates, config), runs, now, from, config)
  {
    RollDaysTidy(table, runs, dates, config);
    RollDaysKeys(table, runs, dates, config);
  }

  lemma RangeMembers(first: int, last: int)
    ensures forall d :: d in DateRange(first, last) <==> first <= d <= last
  {
    forall d
      ensures d in DateRange(first, last) <==> first <= d <= last
    {
      InDateRange(first, last, d);
    }
  }

  lemma FilledBelow(table: map<BucketKey, Metrics>, filled: map<BucketKey, Metrics>, runs: seq<Run>, now: int, from: int, day: int,
                    maxBackfillDays: int, config: CostConfig)
    requires Filled(table, filled, runs, now, from, config)
    ensures ExactBelow(filled, runs, now, day, maxBackfillDays, config)
       <==> ExactBelow(table, runs, now, if from < day then from else day, maxBackfillDays, config)
  {
  }

  /**
   * A backfill and then a tick leave the window exact if and only if each of its days before the
   * backfill and below the restart day of the tick was exact before.
   */
  lemma BackfillThenTick(table: map<BucketKey, Metrics>, filled: map<BucketKey, Metrics>, runs: seq<Run>, now: int, from: int,
                         maxBackfillDays: int, config: CostConfig)
    requires Filled(table, filled, runs, now, from, config) && maxBackfillDays > 0
    ensures var first := RestartDay(Latest(filled), DayOf(now) - 1, maxBackfillDays);
            (WindowExactAt(Recompute(filled, runs, now, maxBackfillDays, config), runs, now, maxBackfillDays, config)
             <==> ExactBelow(table, runs, now, if from < first then from else first, maxBackfillDays, config))
  {
    TickExactly(filled, runs, now, maxBackfillDays, config);
    FilledBelow(table, filled, runs, now, from, RestartDay(Latest(filled), DayOf(now) - 1, maxBackfillDays), maxBackfillDays, config);
  }

  /**
   * So a first backfill of fewer days than the window hides the days before it: if a run completed on one of
   * them and another on the backfilled yesterday, the next tick leaves a hole.
   */
  lemma BackfillHidesOlderDays(filled: map<BucketKey, Metrics>, runs: seq<Run>, now: int, from: int, day: int, maxBackfillDays: int, config: CostConfig)
    requires AllClean(runs) && Filled(map[], filled, runs, now, from, config) && maxBackfillDays > 0
    requires InTickWindow(day, now, maxBackfillDays) && day < from < DayOf(now)
    requires DayItems(runs, day, config) != [] && DayItems(runs, DayOf(now) - 1, config) != []
    ensures !WindowExactAt(Recompute(filled, runs, now, maxBackfillDays, config), runs, now, maxBackfillDays, config)
  {
    HasRows(runs, day, config);
    NotExactWhenEmpty(runs, day, config);
    LatestIsYesterday(filled, runs, DayOf(now) - 1, config);
    BackfillThenTick(map[], filled, runs, now, from, maxBackfillDays, config);
  }

  /** In terms of the rolls: on an empty table. */
  lemma FirstBackfillHides(runs: seq<Run>, now: int, days: int, day: int, maxBackfillDays: int, config: CostConfig)
    requires AllClean(runs) && days > 0 && maxBackfillDays > 0
    requires InTickWindow(day, now, maxBackfillDays) && day < DayOf(now) - days
    requires DayItems(runs, day, config) != [] && DayItems(runs, DayOf(now) - 1, config) != []
    ensures !WindowExactAt(Recompute(RollDays(map[], runs, DateRange(DayOf(now) - days, DayOf(now) - 1), config), runs, now, maxBackfillDays, config),
                           runs, now, maxBackfillDays, config)
  {
    EmptyIsTidy(runs, config);
    BackfillFills(map[], runs, now, days, config);
    BackfillHidesOlderDays(RollDays(map[], runs, DateRange(DayOf(now) - days, DayOf(now) - 1), config), runs, now, DayOf(now) - days, day,
                           maxBackfillDays, config);
  }

  lemma NotExactWhenEmpty(runs: seq<Run>, day: int, config: CostConfig)
    requires Group(DayItems(runs, day, config)) != map[]
    ensures !ExactDay(map[], runs, day, config)
  {
    assert DayRows(map[], day) == map[];
  }

  lemma EmptyIsTidy(runs: seq<Run>, config: CostConfig)
    requires AllClean(runs)
    ensures Tidy(map[], runs, config)
  {
    forall d
      ensures FreshOrExact(map[], runs, d, config)
    {
      assert DayRows(map[], d) == map[];
    }
  }

  lemma HasRows(runs: seq<Run>, day: int, config: CostConfig)
    requires DayItems(runs, day, config) != []
    ensures Group(DayItems(runs, day, config)) != map[]
  {
    var items := DayItems(runs, day, config);
    GroupKeys(items);
    assert HasKey(items, items[0].key);
  }

  lemma LatestIsYesterday(filled: map<BucketKey, Metrics>, runs: seq<Run>, y: int, config: CostConfig)
    requires ExactDay(filled, runs, y, config) && DayItems(runs, y, config) != []
    requires forall k :: k in filled ==> k.day <= y
    ensures Latest(filled) == Some(y)
  {
    HasRows(runs, y, config);
    var k :| k in DayRows(filled, y);
    LatestIs(filled, k);
  }

  lemma LatestIs(table: map<BucketKey, Metrics>, k: BucketKey)
    requires k in table && forall l :: l in table ==> l.day <= k.day
    ensures Latest(table) == Some(k.day)
  {
  }

  lemma {:induction false} RollDaysKeys(table: map<BucketKey, Metrics>, runs: seq<Run>, dates: seq<int>, config: CostConfig)
    requires AllClean(runs)
    ensures forall k :: k in RollDays(table, runs, dates, config) ==> k in table || k.day in dates
  {
    if dates != [] {
      var init, last := dates[..|dates| - 1], dates[|dates| - 1];
      RollDaysKeys(table, runs, init, config);
      DayItemsClean(runs, last, config);
      CollisionFreeKeys(DayItems(runs, last, config));
      assert dates == init + [last];
    }
  }
}
