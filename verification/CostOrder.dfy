/**
 * SQL promises no order for the runs of a window. What the live queries show depends on that order exactly when the row cap
 * cuts between runs of one completion time that are not alike.
 */
module CostOrder {
  import opened Prelude
  import opened CostGrouping
  import opened CostModel
  import opened CostAnswers
  import opened CostAggregate

  // ---------------------------------------------------------------- grouping takes no notice of order

  lemma GroupSplits<K, J>(a: seq<Item<K>>, b: seq<Item<K>>, f: K -> J)
    ensures Group(Rekey(a + b, f)) == MapAdd(Group(Rekey(a, f)), Group(Rekey(b, f)))
  {
    RekeyConcat(a, b, f);
    GroupConcat(Rekey(a, f), Rekey(b, f));
  }

  lemma MoveLast<K, J>(items: seq<Item<K>>, a: seq<Item<K>>, x: Item<K>, b: seq<Item<K>>, f: K -> J)
    requires items == (a + [x]) + b
    ensures Group(Rekey(items, f)) == MapAdd(Group(Rekey(a + b, f)), map[f(x.key) := x.m])
  {
    GroupSplits(a + [x], b, f);
    GroupSnoc(a, x, f);
    GroupSplits(a, b, f);
    AddLast(Group(Rekey(a, f)), Group(Rekey(b, f)), map[f(x.key) := x.m]);
  }

  lemma Removed<T>(s: seq<T>, i: nat)
    requires i < |s|
    ensures multiset(s[..i] + s[i + 1..]) == multiset(s) - multiset{s[i]} && |s[..i] + s[i + 1..]| == |s| - 1
  {
    assert s == s[..i] + ([s[i]] + s[i + 1..]);
  }

  lemma LastOut<T>(a: seq<T>)
    requires a != []
    ensures a == a[..|a| - 1] + [a[|a| - 1]]
    ensures multiset(a[..|a| - 1]) == multiset(a) - multiset{a[|a| - 1]}
  {
    assert a == a[..|a| - 1] + [a[|a| - 1]];
  }

  /** The last element of one list, somewhere in a permutation of it. */
  lemma FindLast<T>(a: seq<T>, b: seq<T>) returns (init: seq<T>, x: T, l: seq<T>, r: seq<T>)
    requires multiset(a) == multiset(b) && a != []
    ensures a == init + [x] && b == (l + [x]) + r && multiset(init) == multiset(l + r)
  {
    init, x := a[..|a| - 1], a[|a| - 1];
    LastOut(a);
    assert x in multiset(a);
    var i :| 0 <= i < |b| && b[i] == x;
    l, r := b[..i], b[i + 1..];
    Removed(b, i);
    SplitOut(b, i);
  }

  lemma SplitOut<T>(b: seq<T>, i: nat)
    requires i < |b|
    ensures b == (b[..i] + [b[i]]) + b[i + 1..]
  {
  }

  lemma {:induction false} GroupPermutes<K, J>(a: seq<Item<K>>, b: seq<Item<K>>, f: K -> J)
    requires multiset(a) == multiset(b)
    ensures Group(Rekey(a, f)) == Group(Rekey(b, f))
    decreases |a|
  {
    if a == [] {
      assert |multiset(b)| == 0;
    } else {
      var init, x, l, r := FindLast(a, b);
      GroupPermutes(init, l + r, f);
      GroupSnoc(init, x, f);
      MoveLast(b, l, x, r, f);
    }
  }

  lemma {:induction false} ItemsPermute(a: seq<Run>, b: seq<Run>, config: CostConfig)
    requires multiset(a) == multiset(b) && AllCompleted(a) && AllCompleted(b)
    ensures multiset(Items(a, config)) == multiset(Items(b, config))
    decreases |a|
  {
    if a == [] {
      assert |multiset(b)| == 0;
    } else {
      var last := |a| - 1;
      assert a[last] in multiset(b);
      var i :| 0 <= i < |b| && b[i] == a[last];
      Removed(a, last);
      Removed(b, i);
      ItemsPermute(a[..last] + a[last + 1..], b[..i] + b[i + 1..], config);
      ItemsWithout(a, last, config);
      ItemsWithout(b, i, config);
    }
  }

  lemma ItemsWithout(runs: seq<Run>, i: nat, config: CostConfig)
    requires i < |runs| && AllCompleted(runs)
    ensures AllCompleted(runs[..i] + runs[i + 1..])
    ensures multiset(Items(runs, config)) == multiset(Items(runs[..i] + runs[i + 1..], config)) + multiset{Items(runs, config)[i]}
  {
    var items := Items(runs, config);
    assert Items(runs[..i] + runs[i + 1..], config) == items[..i] + items[i + 1..];
    Removed(items, i);
  }

  // ---------------------------------------------------------------- figures

  ghost predicate SameGroups(a: seq<Item<BucketKey>>, b: seq<Item<BucketKey>>) {
    && Group(Rekey(a, TeamKey)) == Group(Rekey(b, TeamKey))
    && Group(Rekey(a, RepoKey)) == Group(Rekey(b, RepoKey))
    && Group(Rekey(a, PipelineKey)) == Group(Rekey(b, PipelineKey))
    && Group(Rekey(a, DayKey)) == Group(Rekey(b, DayKey))
    && Sum(a) == Sum(b)
  }

  lemma SumFromGroup<K, J>(a: seq<Item<K>>, b: seq<Item<J>>)
    requires Group(Rekey(a, Whole<K>)) == Group(Rekey(b, Whole<J>))
    ensures Sum(a) == Sum(b)
  {
    TotalIsSum(a);
    TotalIsSum(b);
    if a != [] && b != [] {
      assert map[() := Sum(a)][()] == map[() := Sum(b)][()];
    }
  }

  lemma PermutedSameGroups(a: seq<Item<BucketKey>>, b: seq<Item<BucketKey>>)
    requires multiset(a) == multiset(b)
    ensures SameGroups(a, b)
  {
    GroupPermutes(a, b, TeamKey);
    GroupPermutes(a, b, RepoKey);
    GroupPermutes(a, b, PipelineKey);
    GroupPermutes(a, b, DayKey);
    GroupPermutes(a, b, Whole<BucketKey>);
    SumFromGroup(a, b);
  }

  /** Everything a result shows except the display labels and the window it was asked for. */
  ghost predicate SameFigures(a: AggregateResult, b: AggregateResult) {
    && a.summary.m == b.summary.m && a.summary.roi == b.summary.roi
    && SameRows(a.byTeam, b.byTeam) && SameRows(a.byRepo, b.byRepo) && SameRows(a.byPipeline, b.byPipeline)
    && a.byDay == b.byDay
  }

  ghost predicate SameRows(a: map<string, BreakdownRow>, b: map<string, BreakdownRow>) {
    a.Keys == b.Keys && forall k :: k in a ==> a[k].(name := b[k].name) == b[k]
  }

  lemma SameBuckets(a: seq<Item<BucketKey>>, b: seq<Item<BucketKey>>, key: BucketKey -> string, name: BucketKey -> string, hourlyRate: real)
    requires Group(Rekey(a, key)) == Group(Rekey(b, key))
    ensures SameRows(Finalize(Buckets(a, key, name), hourlyRate), Finalize(Buckets(b, key, name), hourlyRate))
  {
    BucketsGroup(a, key, name);
    BucketsGroup(b, key, name);
  }

  lemma FinalRow(a: seq<Item<BucketKey>>, key: BucketKey -> string, name: BucketKey -> string, hourlyRate: real, rows: map<string, BreakdownRow>, k: string)
    requires rows == Finalize(Buckets(a, key, name), hourlyRate)
    ensures k in rows <==> k in Group(Rekey(a, key))
    ensures k in rows ==> rows[k].m == Group(Rekey(a, key))[k]
  {
    BucketsGroup(a, key, name);
  }

  lemma SameRowAt(x: map<string, BreakdownRow>, y: map<string, BreakdownRow>, k: string)
    requires SameRows(x, y) && k in x
    ensures k in y && x[k].m == y[k].m
  {
    assert x[k].(name := y[k].name) == y[k];
  }

  lemma RowGivesGroupAt(a: seq<Item<BucketKey>>, b: seq<Item<BucketKey>>, key: BucketKey -> string, name: BucketKey -> string, hourlyRate: real,
                        x: map<string, BreakdownRow>, y: map<string, BreakdownRow>, k: string)
    requires x == Finalize(Buckets(a, key, name), hourlyRate) && y == Finalize(Buckets(b, key, name), hourlyRate) && SameRows(x, y)
    ensures k in Group(Rekey(a, key)) <==> k in Group(Rekey(b, key))
    ensures k in Group(Rekey(a, key)) ==> Group(Rekey(a, key))[k] == Group(Rekey(b, key))[k]
  {
    FinalRow(a, key, name, hourlyRate, x, k);
    FinalRow(b, key, name, hourlyRate, y, k);
    if k in x {
      SameRowAt(x, y, k);
    }
  }

  lemma RowsGiveGroup(a: seq<Item<BucketKey>>, b: seq<Item<BucketKey>>, key: BucketKey -> string, name: BucketKey -> string, hourlyRate: real,
                      x: map<string, BreakdownRow>, y: map<string, BreakdownRow>)
    requires x == Finalize(Buckets(a, key, name), hourlyRate) && y == Finalize(Buckets(b, key, name), hourlyRate) && SameRows(x, y)
    ensures Group(Rekey(a, key)) == Group(Rekey(b, key))
  {
    forall k
      ensures k in Group(Rekey(a, key)) <==> k in Group(Rekey(b, key))
      ensures k in Group(Rekey(a, key)) ==> Group(Rekey(a, key))[k] == Group(Rekey(b, key))[k]
    {
      RowGivesGroupAt(a, b, key, name, hourlyRate, x, y, k);
    }
  }

  lemma GroupsGiveFigures(a: seq<Item<BucketKey>>, b: seq<Item<BucketKey>>, v: Window, w: Window, hourlyRate: real, s: bool, t: bool)
    requires SameGroups(a, b)
    ensures SameFigures(Fold(a, v, hourlyRate, s), Fold(b, w, hourlyRate, t))
  {
    SameBuckets(a, b, TeamKey, TeamLabel, hourlyRate);
    SameBuckets(a, b, RepoKey, RepoLabel, hourlyRate);
    SameBuckets(a, b, PipelineKey, PipelineLabel, hourlyRate);
    DaysGroup(a);
    DaysGroup(b);
  }

  lemma FiguresGiveGroups(a: seq<Item<BucketKey>>, b: seq<Item<BucketKey>>, v: Window, w: Window, hourlyRate: real, s: bool, t: bool)
    requires SameFigures(Fold(a, v, hourlyRate, s), Fold(b, w, hourlyRate, t))
    ensures Group(Rekey(a, TeamKey)) == Group(Rekey(b, TeamKey))
    ensures Group(Rekey(a, RepoKey)) == Group(Rekey(b, RepoKey))
    ensures Group(Rekey(a, PipelineKey)) == Group(Rekey(b, PipelineKey))
  {
    var x, y := Fold(a, v, hourlyRate, s), Fold(b, w, hourlyRate, t);
    RowsGiveGroup(a, b, TeamKey, TeamLabel, hourlyRate, x.byTeam, y.byTeam);
    RowsGiveGroup(a, b, RepoKey, RepoLabel, hourlyRate, x.byRepo, y.byRepo);
    RowsGiveGroup(a, b, PipelineKey, PipelineLabel, hourlyRate, x.byPipeline, y.byPipeline);
  }

  // ---------------------------------------------------------------- runs that are alike

  /** Two runs that no figure tells apart, but for their completion time. */
  ghost predicate Alike(r: Run, s: Run, config: CostConfig)
    requires r.completedAt.Some? && s.completedAt.Some?
  {
    && TeamKey(KeyOf(r)) == TeamKey(KeyOf(s)) && RepoKey(KeyOf(r)) == RepoKey(KeyOf(s)) && PipelineKey(KeyOf(r)) == PipelineKey(KeyOf(s))
    && MetricsOf(r, config) == MetricsOf(s, config)
  }

  lemma {:induction false} AlikeGroups<K, J>(a: seq<Item<K>>, b: seq<Item<K>>, f: K -> J)
    requires |a| == |b| && forall i, j :: 0 <= i < |a| && 0 <= j < |b| ==> f(a[i].key) == f(b[j].key) && a[i].m == b[j].m
    ensures Group(Rekey(a, f)) == Group(Rekey(b, f))
  {
    if a != [] {
      var n := |a| - 1;
      AlikeGroups(a[..n], b[..n], f);
      assert a[..n] + [a[n]] == a && b[..n] + [b[n]] == b;
      GroupSnoc(a[..n], a[n], f);
      GroupSnoc(b[..n], b[n], f);
    }
  }

  lemma JoinedGroups<K, J>(c: seq<Item<K>>, a: seq<Item<K>>, b: seq<Item<K>>, f: K -> J)
    requires Group(Rekey(a, f)) == Group(Rekey(b, f))
    ensures Group(Rekey(c + a, f)) == Group(Rekey(c + b, f))
  {
    RekeyConcat(c, a, f);
    RekeyConcat(c, b, f);
    GroupConcat(Rekey(c, f), Rekey(a, f));
    GroupConcat(Rekey(c, f), Rekey(b, f));
  }

  lemma {:induction false} SeqOf<T(!new)>(m: multiset<T>) returns (s: seq<T>)
    ensures multiset(s) == m
    decreases |m|
  {
    if |m| == 0 {
      s := [];
    } else {
      var x :| x in m;
      s := SeqOf(m - multiset{x});
      s := s + [x];
    }
  }

  ghost predicate AllAlike(a: seq<Run>, b: seq<Run>, config: CostConfig)
    requires AllCompleted(a) && AllCompleted(b)
  {
    forall r, s :: r in a && s in b ==> CompletedAt(r) == CompletedAt(s) && Alike(r, s, config)
  }

  lemma SameGroupsJoin(rows: seq<Item<BucketKey>>, a: seq<Item<BucketKey>>, b: seq<Item<BucketKey>>)
    requires SameGroups(a, b)
    ensures SameGroups(rows + a, rows + b)
  {
    JoinedGroups(rows, a, b, TeamKey);
    JoinedGroups(rows, a, b, RepoKey);
    JoinedGroups(rows, a, b, PipelineKey);
    JoinedGroups(rows, a, b, DayKey);
    SumConcat(rows, a);
    SumConcat(rows, b);
  }

  ghost predicate AlikeItems(a: seq<Item<BucketKey>>, b: seq<Item<BucketKey>>) {
    |a| == |b| && forall i, j :: 0 <= i < |a| && 0 <= j < |b| ==>
      && TeamKey(a[i].key) == TeamKey(b[j].key) && RepoKey(a[i].key) == RepoKey(b[j].key) && PipelineKey(a[i].key) == PipelineKey(b[j].key)
      && DayKey(a[i].key) == DayKey(b[j].key) && a[i].m == b[j].m
  }

  lemma AlikeItemsSame(a: seq<Item<BucketKey>>, b: seq<Item<BucketKey>>)
    requires AlikeItems(a, b)
    ensures SameGroups(a, b)
  {
    AlikeGroups(a, b, TeamKey);
    AlikeGroups(a, b, RepoKey);
    AlikeGroups(a, b, PipelineKey);
    AlikeGroups(a, b, DayKey);
    AlikeGroups(a, b, Whole<BucketKey>);
    SumFromGroup(a, b);
  }

  lemma AlikeSameGroups(c: seq<Run>, a: seq<Run>, b: seq<Run>, config: CostConfig)
    requires AllCompleted(c) && AllCompleted(a) && AllCompleted(b) && |a| == |b| && AllAlike(a, b, config)
    ensures SameGroups(Items(c, config) + Items(a, config), Items(c, config) + Items(b, config))
  {
    assert AlikeItems(Items(a, config), Items(b, config)) by {
      forall i, j | 0 <= i < |a| && 0 <= j < |b|
        ensures CompletedAt(a[i]) == CompletedAt(b[j]) && Alike(a[i], b[j], config)
      {
        assert a[i] in a && b[j] in b;
      }
    }
    AlikeItemsSame(Items(a, config), Items(b, config));
    SameGroupsJoin(Items(c, config), Items(a, config), Items(b, config));
  }

  // ---------------------------------------------------------------- the row cap

  /** No dropped run is as new as a kept one, unless they are alike. */
  ghost predicate CapClean(sel: seq<Run>, maxRuns: nat, config: CostConfig)
    requires AllCompleted(sel)
  {
    forall r, s :: r in Truncate(sel, maxRuns) && s in Dropped(sel, maxRuns) && CompletedAt(r) == CompletedAt(s) ==> Alike(r, s, config)
  }

  lemma PermutedCompleted(a: seq<Run>, b: seq<Run>)
    requires multiset(a) == multiset(b) && AllCompleted(a)
    ensures AllCompleted(b) && |a| == |b|
  {
    SameElements(b, a);
    assert |multiset(a)| == |a| && |multiset(b)| == |b|;
  }

  lemma KeptIsNewer(sel: seq<Run>, maxRuns: nat, r: Run, s: Run)
    requires r in Truncate(sel, maxRuns) && s in Dropped(sel, maxRuns)
    ensures CompletedAt(r) >= CompletedAt(s)
  {
    TruncateKeepsNewest(sel, maxRuns);
  }

  lemma KeptAndDropped(sel: seq<Run>, maxRuns: nat)
    ensures multiset(Truncate(sel, maxRuns)) + multiset(Dropped(sel, maxRuns)) == multiset(sel)
  {
    TruncateKeepsNewest(sel, maxRuns);
  }

  /** A run that one order keeps and the other drops is as new as one for which it is the other way round. */
  lemma KeptElsewhere(x: seq<Run>, y: seq<Run>, maxRuns: nat, r: Run, s: Run)
    requires multiset(x) == multiset(y)
    requires r in multiset(Truncate(x, maxRuns)) - multiset(Truncate(y, maxRuns))
    requires s in multiset(Truncate(y, maxRuns)) - multiset(Truncate(x, maxRuns))
    ensures r in Truncate(x, maxRuns) && s in Dropped(x, maxRuns) && CompletedAt(r) == CompletedAt(s)
  {
    KeptAndDropped(x, maxRuns);
    KeptAndDropped(y, maxRuns);
    var k, d, l, e := multiset(Truncate(x, maxRuns)), multiset(Dropped(x, maxRuns)), multiset(Truncate(y, maxRuns)), multiset(Dropped(y, maxRuns));
    assert (k + d)[r] == (l + e)[r] && (k + d)[s] == (l + e)[s];
    assert k[r] > l[r] && l[s] > k[s];
    assert e[r] > 0 && d[s] > 0;
    KeptIsNewer(x, maxRuns, r, s);
    KeptIsNewer(y, maxRuns, s, r);
  }

  lemma Common<T>(k: multiset<T>, l: multiset<T>)
    requires |k| == |l|
    ensures k == k * l + (k - l) && l == k * l + (l - k) && |k - l| == |l - k|
  {
    assert k == k * l + (k - l);
    assert l == k * l + (l - k);
  }

  lemma ItemsConcat(a: seq<Run>, b: seq<Run>, config: CostConfig)
    requires AllCompleted(a) && AllCompleted(b)
    ensures AllCompleted(a + b) && Items(a + b, config) == Items(a, config) + Items(b, config)
  {
  }

  lemma PermutedRuns(a: seq<Run>, b: seq<Run>, config: CostConfig)
    requires multiset(a) == multiset(b) && AllCompleted(a) && AllCompleted(b)
    ensures SameGroups(Items(a, config), Items(b, config))
  {
    ItemsPermute(a, b, config);
    PermutedSameGroups(Items(a, config), Items(b, config));
  }

  lemma SplitKept(kept: seq<Run>, c: seq<Run>, a: seq<Run>, config: CostConfig)
    requires AllCompleted(kept) && multiset(kept) == multiset(c) + multiset(a)
    ensures AllCompleted(c) && AllCompleted(a) && SameGroups(Items(kept, config), Items(c, config) + Items(a, config))
  {
    assert multiset(c + a) == multiset(kept);
    PermutedCompleted(kept, c + a);
    assert forall r :: r in c || r in a ==> r in c + a;
    ItemsConcat(c, a, config);
    PermutedRuns(kept, c + a, config);
  }

  lemma CleanPair(sel: seq<Run>, maxRuns: nat, config: CostConfig, r: Run, s: Run)
    requires AllCompleted(sel) && CapClean(sel, maxRuns, config)
    requires r in Truncate(sel, maxRuns) && s in Dropped(sel, maxRuns) && CompletedAt(r) == CompletedAt(s)
    ensures r.completedAt.Some? && s.completedAt.Some? && Alike(r, s, config)
  {
  }

  lemma ElsewherePair(x: seq<Run>, y: seq<Run>, maxRuns: nat, config: CostConfig, r: Run, s: Run)
    requires AllCompleted(x) && multiset(x) == multiset(y) && CapClean(x, maxRuns, config)
    requires r in multiset(Truncate(x, maxRuns)) - multiset(Truncate(y, maxRuns))
    requires s in multiset(Truncate(y, maxRuns)) - multiset(Truncate(x, maxRuns))
    ensures r.completedAt.Some? && s.completedAt.Some? && CompletedAt(r) == CompletedAt(s) && Alike(r, s, config)
  {
    KeptElsewhere(x, y, maxRuns, r, s);
    CleanPair(x, maxRuns, config, r, s);
  }

  lemma ElsewhereAlike(x: seq<Run>, y: seq<Run>, maxRuns: nat, config: CostConfig, a: seq<Run>, b: seq<Run>)
    requires AllCompleted(x) && multiset(x) == multiset(y) && CapClean(x, maxRuns, config) && AllCompleted(a) && AllCompleted(b)
    requires multiset(a) == multiset(Truncate(x, maxRuns)) - multiset(Truncate(y, maxRuns))
    requires multiset(b) == multiset(Truncate(y, maxRuns)) - multiset(Truncate(x, maxRuns))
    ensures AllAlike(a, b, config)
  {
    forall r, s | r in a && s in b
      ensures CompletedAt(r) == CompletedAt(s) && Alike(r, s, config)
    {
      assert r in multiset(a) && s in multiset(b);
      ElsewherePair(x, y, maxRuns, config, r, s);
    }
  }

  /** Two lists as their common part and the rest of each. */
  lemma Parts(k: seq<Run>, l: seq<Run>) returns (c: seq<Run>, a: seq<Run>, b: seq<Run>)
    requires |k| == |l|
    ensures multiset(k) == multiset(c) + multiset(a) && multiset(l) == multiset(c) + multiset(b) && |a| == |b|
    ensures multiset(a) == multiset(k) - multiset(l) && multiset(b) == multiset(l) - multiset(k)
  {
    assert |multiset(k)| == |k| && |multiset(l)| == |l|;
    Common(multiset(k), multiset(l));
    c := SeqOf(multiset(k) * multiset(l));
    a := SeqOf(multiset(k) - multiset(l));
    b := SeqOf(multiset(l) - multiset(k));
    assert |multiset(a)| == |a| && |multiset(b)| == |b|;
  }

  /** When the cap is clean, it shows the same figures whatever the order of the selection. */
  lemma CapIndifferent(x: seq<Run>, y: seq<Run>, maxRuns: nat, config: CostConfig)
    requires AllCompleted(x) && AllCompleted(y) && multiset(x) == multiset(y) && CapClean(x, maxRuns, config)
    ensures SameGroups(Items(Truncate(x, maxRuns), config), Items(Truncate(y, maxRuns), config))
  {
    PermutedCompleted(x, y);
    var c, a, b := Parts(Truncate(x, maxRuns), Truncate(y, maxRuns));
    SplitKept(Truncate(x, maxRuns), c, a, config);
    SplitKept(Truncate(y, maxRuns), c, b, config);
    ElsewhereAlike(x, y, maxRuns, config, a, b);
    AlikeSameGroups(c, a, b, config);
  }

  lemma {:induction false} SortedIsFixed(runs: seq<Run>)
    requires NewestFirst(runs)
    ensures SortNewestFirst(runs) == runs
  {
    if runs != [] {
      SortedIsFixed(runs[..|runs| - 1]);
    }
  }

  lemma OneRowTells<J>(g: map<J, Metrics>, k: J, m: Metrics, l: J, n: Metrics)
    requires MapAdd(g, map[k := m]) == MapAdd(g, map[l := n]) && m.runs == 1 == n.runs
    ensures k == l && m == n
  {
    var x, y := MapAdd(g, map[k := m]), MapAdd(g, map[l := n]);
    assert x[k] == y[k];
  }

  lemma RestTells<J>(init: seq<Item<BucketKey>>, x: Item<BucketKey>, y: Item<BucketKey>, tail: seq<Item<BucketKey>>,
                     a: seq<Item<BucketKey>>, b: seq<Item<BucketKey>>, f: BucketKey -> J)
    requires a == (init + [x]) + tail && b == (init + [y]) + tail
    requires x.m.runs == 1 == y.m.runs && Group(Rekey(a, f)) == Group(Rekey(b, f))
    ensures f(x.key) == f(y.key) && x.m == y.m
  {
    MoveLast(a, init, x, tail, f);
    MoveLast(b, init, y, tail, f);
    OneRowTells(Group(Rekey(init + tail, f)), f(x.key), x.m, f(y.key), y.m);
  }

  lemma ItemTells(init: seq<Item<BucketKey>>, x: Item<BucketKey>, y: Item<BucketKey>, tail: seq<Item<BucketKey>>,
                  a: seq<Item<BucketKey>>, b: seq<Item<BucketKey>>, v: Window, w: Window, hourlyRate: real, s: bool, t: bool)
    requires a == (init + [x]) + tail && b == (init + [y]) + tail && x.m.runs == 1 == y.m.runs
    requires SameFigures(Fold(a, v, hourlyRate, s), Fold(b, w, hourlyRate, t))
    ensures TeamKey(x.key) == TeamKey(y.key) && RepoKey(x.key) == RepoKey(y.key) && PipelineKey(x.key) == PipelineKey(y.key)
    ensures x.m == y.m
  {
    FiguresGiveGroups(a, b, v, w, hourlyRate, s, t);
    RestTells(init, x, y, tail, a, b, TeamKey);
    RestTells(init, x, y, tail, a, b, RepoKey);
    RestTells(init, x, y, tail, a, b, PipelineKey);
  }

  lemma OneDiffers<T>(x: seq<T>, y: seq<T>, i: nat)
    requires |x| == |y| && i < |x| && forall k :: 0 <= k < |x| && k != i ==> x[k] == y[k]
    ensures x == (x[..i] + [x[i]]) + x[i + 1..] && y == (x[..i] + [y[i]]) + x[i + 1..]
  {
  }

  lemma OneItemDiffers(a: seq<Run>, b: seq<Run>, i: nat, config: CostConfig, x: seq<Item<BucketKey>>, y: seq<Item<BucketKey>>)
    requires AllCompleted(a) && AllCompleted(b) && |a| == |b| && i < |a| && b == a[i := b[i]] && x == Items(a, config) && y == Items(b, config)
    ensures x == (x[..i] + [x[i]]) + x[i + 1..] && y == (x[..i] + [y[i]]) + x[i + 1..] && x[i].m.runs == 1 == y[i].m.runs
  {
    OneDiffers(x, y, i);
  }

  /** Two kept lists that differ in one run, and show the same figures: the two runs are alike. */
  lemma FiguresTell(a: seq<Run>, b: seq<Run>, x: seq<Item<BucketKey>>, y: seq<Item<BucketKey>>, i: nat, config: CostConfig,
                    v: Window, w: Window, hourlyRate: real, s: bool, t: bool)
    requires AllCompleted(a) && AllCompleted(b) && x == Items(a, config) && y == Items(b, config)
    requires |a| == |b| && i < |a| && b == a[i := b[i]]
    requires SameFigures(Fold(x, v, hourlyRate, s), Fold(y, w, hourlyRate, t))
    ensures a[i].completedAt.Some? && b[i].completedAt.Some? && Alike(a[i], b[i], config)
  {
    assert a[i] in a && b[i] in b;
    OneItemDiffers(a, b, i, config, x, y);
    ItemTells(x[..i], x[i], y[i], x[i + 1..], x, y, v, w, hourlyRate, s, t);
  }

  lemma TwoPlaces<T>(x: seq<T>, m: nat, r: T, q: T) returns (i: nat, j: nat)
    requires m <= |x| && r in x[..m] && q in x[m..]
    ensures i < m <= j < |x| && x[i] == r && x[j] == q
  {
    i :| 0 <= i < m && x[..m][i] == r;
    var d :| 0 <= d < |x| - m && x[m..][d] == q;
    j := m + d;
  }

  lemma KeptAndDroppedAre(sel: seq<Run>, maxRuns: nat, r: Run, q: Run)
    requires r in Truncate(sel, maxRuns) && q in Dropped(sel, maxRuns)
    ensures maxRuns < |sel| == |SortNewestFirst(sel)|
    ensures r in SortNewestFirst(sel)[..maxRuns] && q in SortNewestFirst(sel)[maxRuns..]
  {
    SortFacts(sel);
  }

  /** An unclean cap as two places of the sorted selection. */
  lemma UncleanPair(sel: seq<Run>, maxRuns: nat, config: CostConfig) returns (x: seq<Run>, i: nat, j: nat)
    requires AllCompleted(sel) && !CapClean(sel, maxRuns, config)
    ensures NewestFirst(x) && multiset(x) == multiset(sel) && AllCompleted(x)
    ensures i < maxRuns <= j < |x| && CompletedAt(x[i]) == CompletedAt(x[j])
    ensures x[i].completedAt.Some? && x[j].completedAt.Some? && !Alike(x[i], x[j], config)
  {
    SortFacts(sel);
    x := SortNewestFirst(sel);
    PermutedCompleted(sel, x);
    var r, q :| r in Truncate(sel, maxRuns) && q in Dropped(sel, maxRuns) && CompletedAt(r) == CompletedAt(q) && !Alike(r, q, config);
    KeptAndDroppedAre(sel, maxRuns, r, q);
    i, j := TwoPlaces(x, maxRuns, r, q);
  }

  lemma CutSorted(x: seq<Run>, maxRuns: nat)
    requires NewestFirst(x) && maxRuns < |x|
    ensures Truncate(x, maxRuns) == x[..maxRuns]
  {
    SortedIsFixed(x);
  }

  lemma SwapPermutes<T>(x: seq<T>, i: nat, j: nat, y: seq<T>)
    requires i < j < |x| && y == x[i := x[j]][j := x[i]]
    ensures multiset(y) == multiset(x)
  {
  }

  lemma SwapSorted(x: seq<Run>, i: nat, j: nat, y: seq<Run>)
    requires NewestFirst(x) && i < j < |x| && CompletedAt(x[i]) == CompletedAt(x[j]) && y == x[i := x[j]][j := x[i]]
    ensures NewestFirst(y)
  {
    forall k | 0 <= k < |y|
      ensures CompletedAt(y[k]) == CompletedAt(x[k])
    {
    }
  }

  /** Swapping them gives another order, of which the cap keeps the other run. */
  lemma SwapAcross(x: seq<Run>, i: nat, j: nat, maxRuns: nat) returns (y: seq<Run>)
    requires NewestFirst(x) && AllCompleted(x) && i < maxRuns <= j < |x| && CompletedAt(x[i]) == CompletedAt(x[j])
    ensures multiset(y) == multiset(x) && AllCompleted(y)
    ensures Truncate(x, maxRuns) == x[..maxRuns] && Truncate(y, maxRuns) == x[..maxRuns][i := x[j]]
  {
    y := x[i := x[j]][j := x[i]];
    SwapPermutes(x, i, j, y);
    SwapSorted(x, i, j, y);
    PermutedCompleted(x, y);
    CutSorted(x, maxRuns);
    CutSorted(y, maxRuns);
    assert y[..maxRuns] == x[..maxRuns][i := x[j]];
  }

  /** When it is not clean, some two orders of the selection show different figures. */
  lemma CapMatters(sel: seq<Run>, maxRuns: nat, config: CostConfig, v: Window, w: Window, hourlyRate: real, s: bool, t: bool) returns (x: seq<Run>, y: seq<Run>)
    requires AllCompleted(sel) && !CapClean(sel, maxRuns, config)
    ensures multiset(x) == multiset(sel) == multiset(y) && AllCompleted(x) && AllCompleted(y)
    ensures !SameFigures(Fold(Items(Truncate(x, maxRuns), config), v, hourlyRate, s), Fold(Items(Truncate(y, maxRuns), config), w, hourlyRate, t))
  {
    var i, j;
    x, i, j := UncleanPair(sel, maxRuns, config);
    y := SwapAcross(x, i, j, maxRuns);
    var a, b := Items(Truncate(x, maxRuns), config), Items(Truncate(y, maxRuns), config);
    if SameFigures(Fold(a, v, hourlyRate, s), Fold(b, w, hourlyRate, t)) {
      FiguresTell(Truncate(x, maxRuns), Truncate(y, maxRuns), a, b, i, config, v, w, hourlyRate, s, t);
    }
  }
}
