/** Hot reload over whole runs of the daemon, and the edits that `ura repo` makes, for configs whose entries may share a map key. */
module HotReloadRuns {
  import opened Prelude
  import opened ConfigDiff
  import opened RepoKeys
  import opened HotReload
  import opened HotReloadSync
  import opened HotReloadPhases
  import opened HotReloadProofs

  /** An edit that a reload can follow. */
  ghost predicate SafeEdit(prev: seq<Repo>, next: seq<Repo>) {
    var e := EditOf(prev, next);
    UniqueUrls(next) && HiddenUntouched(e) && HandoverOk(e) && NoneRevealed(e)
  }

  // ---------------------------------------------------------------- adding entries at the end

  lemma PrefixUnique(part: seq<Repo>, next: seq<Repo>)
    requires part <= next && UniqueUrls(next)
    ensures UniqueUrls(part)
  {
  }

  lemma IndexedInBoth(prev: seq<Repo>, next: seq<Repo>, u: string) returns (i: nat)
    requires prev <= next && UniqueUrls(next) && u in IndexByUrl(prev)
    ensures i < |prev| && prev[i].url == u && prev[i] == IndexByUrl(prev)[u]
    ensures u in IndexByUrl(next) && IndexByUrl(next)[u] == prev[i] == next[i]
  {
    i := IndexFrom(prev, u);
    IndexAt(next, i);
  }

  lemma AppendHandsOver(prev: seq<Repo>, next: seq<Repo>, v: string, w: string)
    requires prev <= next && UniqueUrls(next) && v in IndexByUrl(next) && w in IndexByUrl(prev)
    ensures HandsOver(EditOf(prev, next), v, w)
  {
    var i := IndexedInBoth(prev, next, w);
    var j := IndexFrom(next, v);
    ShownExact(next, v);
    ShownExact(next, w);
    if j < |prev| {
      PrefixUnique(prev, next);
      IndexAt(prev, j);
    }
    if v != w && Key(next[j]) == Key(next[i]) {
      if j < i {
        assert Hidden(next, v);
      } else {
        assert Hidden(next, w);
      }
    }
  }

  lemma StaysHidden(prev: seq<Repo>, next: seq<Repo>, u: string)
    requires prev <= next && Hidden(prev, u)
    ensures Hidden(next, u)
  {
    var i, j :| 0 <= i < j < |prev| && prev[i].url == u && Key(prev[i]) == Key(prev[j]);
    assert next[i] == prev[i] && next[j] == prev[j];
  }

  /** Adding entries at the end, as `ura repo add` does, is always safe, whatever keys they share with each other or with older ones. */
  lemma AppendIsSafe(prev: seq<Repo>, next: seq<Repo>)
    requires prev <= next && UniqueUrls(next)
    ensures SafeEdit(prev, next)
  {
    var e := EditOf(prev, next);
    PrefixUnique(prev, next);
    forall v, w | v in e.n && w in e.p
      ensures HandsOver(e, v, w)
    {
      AppendHandsOver(prev, next, v, w);
    }
    ShownFacts(next);
    forall u | u in e.p && u in e.n
      ensures e.p[u] == e.n[u]
      ensures u in e.shown ==> u in e.shownBefore
    {
      var i := IndexedInBoth(prev, next, u);
      ShownExact(prev, u);
      ShownExact(next, u);
      if Hidden(prev, u) {
        StaysHidden(prev, next, u);
      }
    }
  }

  // ---------------------------------------------------------------- removing entries

  /** The entries of the URLs in `gone` filtered out, as `ura repo remove` does. */
  function Without(repos: seq<Repo>, gone: set<string>): seq<Repo> {
    if repos == [] then []
    else
      var init, last := Without(repos[..|repos| - 1], gone), repos[|repos| - 1];
      if last.url in gone then init else init + [last]
  }

  lemma {:induction false} WithoutMembers(repos: seq<Repo>, gone: set<string>)
    ensures forall r :: r in Without(repos, gone) <==> r in repos && r.url !in gone
  {
    if repos != [] {
      var init, last := repos[..|repos| - 1], repos[|repos| - 1];
      assert repos == init + [last];
      WithoutMembers(init, gone);
    }
  }

  lemma {:induction false} WithoutUnique(repos: seq<Repo>, gone: set<string>)
    requires UniqueUrls(repos)
    ensures UniqueUrls(Without(repos, gone))
  {
    if repos != [] {
      var init, last := repos[..|repos| - 1], repos[|repos| - 1];
      WithoutUnique(init, gone);
      WithoutMembers(init, gone);
    }
  }

  lemma {:induction false} WithoutIndex(repos: seq<Repo>, gone: set<string>, u: string)
    ensures u in IndexByUrl(Without(repos, gone)) <==> u in IndexByUrl(repos) && u !in gone
    ensures u in IndexByUrl(Without(repos, gone)) ==> IndexByUrl(Without(repos, gone))[u] == IndexByUrl(repos)[u]
  {
    if repos != [] {
      var init, last := repos[..|repos| - 1], repos[|repos| - 1];
      WithoutIndex(init, gone, u);
      InSnoc(Without(init, gone), last, last);
    }
  }

  /** No removed entry has the key of one that stays. */
  ghost predicate NoneShared(repos: seq<Repo>, gone: set<string>) {
    forall r, s :: r in repos && s in repos && r.url in gone && s.url !in gone ==> Key(r) != Key(s)
  }

  lemma {:induction false} WithoutHidden(repos: seq<Repo>, gone: set<string>, u: string)
    requires UniqueUrls(repos) && NoneShared(repos, gone) && u !in gone
    ensures Hidden(Without(repos, gone), u) <==> Hidden(repos, u)
  {
    if repos != [] {
      var init, last := repos[..|repos| - 1], repos[|repos| - 1];
      assert repos == init + [last];
      WithoutHidden(init, gone, u);
      HiddenSnoc(init, last, u);
      WithoutIndex(init, gone, u);
      if last.url in gone {
        if u in IndexByUrl(init) {
          var i := IndexFrom(init, u);
          assert repos[i] in repos && last in repos;
        }
      } else {
        WithoutUnique(repos, gone);
        HiddenSnoc(Without(init, gone), last, u);
      }
    }
  }

  lemma EntryOfUrl(repos: seq<Repo>, u: string)
    requires u in IndexByUrl(repos)
    ensures IndexByUrl(repos)[u] in repos && IndexByUrl(repos)[u].url == u
  {
    var i := IndexFrom(repos, u);
  }

  lemma RemovalHandsOver(prev: seq<Repo>, next: seq<Repo>, gone: set<string>, v: string, w: string)
    requires UniqueUrls(prev) && NoneShared(prev, gone) && next == Without(prev, gone) && UniqueUrls(next)
    requires v in IndexByUrl(next) && w in IndexByUrl(prev)
    ensures HandsOver(EditOf(prev, next), v, w)
  {
    WithoutIndex(prev, gone, v);
    WithoutIndex(prev, gone, w);
    EntryOfUrl(prev, v);
    EntryOfUrl(prev, w);
    if w in IndexByUrl(next) && v != w && Key(IndexByUrl(prev)[v]) == Key(IndexByUrl(prev)[w]) {
      var i := IndexFrom(prev, v);
      var j := IndexFrom(prev, w);
      WithoutHidden(prev, gone, v);
      WithoutHidden(prev, gone, w);
      ShownExact(next, v);
      ShownExact(next, w);
      assert if i < j then Hidden(prev, v) else Hidden(prev, w);
    }
  }

  lemma RemovalSafe(prev: seq<Repo>, next: seq<Repo>, gone: set<string>)
    requires UniqueUrls(prev) && NoneShared(prev, gone) && next == Without(prev, gone)
    ensures SafeEdit(prev, next)
  {
    var e := EditOf(prev, next);
    WithoutUnique(prev, gone);
    forall v, w | v in e.n && w in e.p
      ensures HandsOver(e, v, w)
    {
      RemovalHandsOver(prev, next, gone, v, w);
    }
    ShownFacts(next);
    forall u | u in e.p && u in e.n
      ensures e.p[u] == e.n[u]
      ensures u in e.shown ==> u in e.shownBefore
    {
      WithoutIndex(prev, gone, u);
      WithoutHidden(prev, gone, u);
      ShownExact(prev, u);
      ShownExact(next, u);
    }
  }

  /**
   * Removing entries, as `ura repo remove` does, is safe if and only if no removed entry shares its key with one that stays,
   * hidden entries included.
   */
  lemma RemovalExact(prev: seq<Repo>, gone: set<string>)
    requires UniqueUrls(prev)
    ensures SafeEdit(prev, Without(prev, gone)) <==> NoneShared(prev, gone)
  {
    var next := Without(prev, gone);
    if NoneShared(prev, gone) {
      RemovalSafe(prev, next, gone);
    } else {
      var r, s :| r in prev && s in prev && r.url in gone && s.url !in gone && Key(r) == Key(s);
      RemovalUnsafe(prev, next, gone, r, s);
    }
  }

  lemma RemovalUnsafe(prev: seq<Repo>, next: seq<Repo>, gone: set<string>, r: Repo, s: Repo)
    requires UniqueUrls(prev) && next == Without(prev, gone)
    requires r in prev && s in prev && r.url in gone && s.url !in gone && Key(r) == Key(s)
    ensures !SafeEdit(prev, next)
  {
    WithoutUnique(prev, gone);
    WithoutMembers(prev, gone);
    var a :| 0 <= a < |prev| && prev[a] == r;
    IndexAt(prev, a);
    WithoutIndex(prev, gone, r.url);
    var i :| 0 <= i < |next| && next[i] == s;
    var j := HiddenBy(next, i);
    IndexAt(next, j);
    assert next[j] in next;
    assert !HandsOver(EditOf(prev, next), next[j].url, r.url);
  }

  // ---------------------------------------------------------------- runs of the daemon

  /** The daemon's state: the watcher's config, the live map, and the branches it was added with. */
  datatype Daemon = Daemon(current: seq<Repo>, live: Live, branches: Branches)

  function Boot(repos: seq<Repo>): Daemon {
    Daemon(repos, Rebuild(repos), Remember(map[], map[], IndexByUrl(repos)))
  }

  /** A failed or missing read changes nothing; an unchanged config emits no event. */
  function Reload(d: Daemon, read: ReadResult): Daemon {
    if !read.Loaded? then d
    else
      var live := if IndexByUrl(d.current) == IndexByUrl(read.repos) then d.live else Applied(d.live, DiffOf(d.current, read.repos));
      Daemon(read.repos, live, Remember(d.branches, IndexByUrl(d.current), IndexByUrl(read.repos)))
  }

  function Reloads(d: Daemon, results: seq<ReadResult>): Daemon {
    if results == [] then d else Reload(Reloads(d, results[..|results| - 1]), results[|results| - 1])
  }

  ghost predicate SafeReads(d: Daemon, results: seq<ReadResult>) {
    results == [] ||
    (var init, last := results[..|results| - 1], results[|results| - 1];
     SafeReads(d, init) && (last.Loaded? ==> SafeEdit(Reloads(d, init).current, last.repos)))
  }

  lemma BootInSync(repos: seq<Repo>)
    requires UniqueUrls(repos)
    ensures DaemonInSync(Boot(repos))
  {
    OwnBranches(repos);
    RebuildPresent(repos);
  }

  lemma OwnBranches(repos: seq<Repo>)
    requires UniqueUrls(repos)
    ensures WithBranches(repos, Remember(map[], map[], IndexByUrl(repos))) == repos
  {
    forall i | 0 <= i < |repos|
      ensures repos[i].url in IndexByUrl(repos) && IndexByUrl(repos)[repos[i].url] == repos[i]
    {
      IndexAt(repos, i);
    }
  }

  /** A rebuild never holds an empty label. */
  lemma {:induction false} RebuildPresent(repos: seq<Repo>)
    ensures ViewAll(Rebuild(repos)) == Rebuild(repos)
  {
    if repos != [] {
      RebuildPresent(repos[..|repos| - 1]);
      var r := Rebuild(repos[..|repos| - 1]);
      forall k | k in r
        ensures View(r[k]) == r[k]
      {
        assert ViewAll(r)[k] == View(r[k]);
      }
    }
  }

  ghost predicate DaemonInSync(d: Daemon) {
    UniqueUrls(d.current) && InSync(d.live, d.current, d.branches) && d.branches.Keys == IndexByUrl(d.current).Keys
  }

  lemma NothingApplied(live: Live)
    ensures Applied(live, NO_DIFF) == live
  {
  }

  /** An edit keeps the daemon in sync exactly when it is safe, unless it edits an entry that another one hides. */
  lemma ReloadExactly(d: Daemon, repos: seq<Repo>)
    requires DaemonInSync(d) && UniqueUrls(repos) && HiddenUntouched(EditOf(d.current, repos))
    ensures DaemonInSync(Reload(d, Loaded(repos))) <==> SafeEdit(d.current, repos)
  {
    EmptyDiffExact(d.current, repos);
    NothingApplied(d.live);
    ReloadExact(d.live, d.current, repos, d.branches);
  }

  /** Hot reload equals rebuild over any sequence of safe edits, failed reads included. */
  lemma {:induction false} ReloadsStayInSync(repos: seq<Repo>, results: seq<ReadResult>)
    requires UniqueUrls(repos) && SafeReads(Boot(repos), results)
    ensures DaemonInSync(Reloads(Boot(repos), results))
  {
    if results == [] {
      BootInSync(repos);
    } else {
      var init, last := results[..|results| - 1], results[|results| - 1];
      ReloadsStayInSync(repos, init);
      if last.Loaded? {
        ReloadExactly(Reloads(Boot(repos), init), last.repos);
      }
    }
  }

  // ---------------------------------------------------------------- empty labels

  ghost predicate NoEmptyLabel(live: Live) {
    forall k :: k in live ==> live[k].labelPattern != Some("")
  }

  lemma ViewChangesLabels(live: Live)
    ensures ViewAll(live) == live <==> NoEmptyLabel(live)
  {
    if NoEmptyLabel(live) {
      assert forall k :: k in live ==> View(live[k]) == live[k];
    } else {
      var k :| k in live && live[k].labelPattern == Some("");
      assert ViewAll(live)[k] != live[k];
    }
  }

  /** Why `View` is there: the live map is the rebuild itself if and only if they agree under `View` and no live entry has an empty label. */
  lemma EqualExactly(live: Live, repos: seq<Repo>, branches: Branches)
    ensures live == Rebuild(WithBranches(repos, branches)) <==> InSync(live, repos, branches) && NoEmptyLabel(live)
  {
    RebuildPresent(WithBranches(repos, branches));
    ViewChangesLabels(live);
  }

  // ---------------------------------------------------------------- concrete consequences

  lemma Single(r: Repo)
    ensures IndexByUrl([r]) == map[r.url := r] && UrlOrder([r]) == [r.url] && Rebuild([r]) == map[Key(r) := EntryOf(r)]
  {
    assert [r][..0] == [];
  }

  /** Replacing the repository of a team in one edit drops the team from the live map. */
  lemma ReplacedRepoIsLost(live: Live, old_: Repo, new_: Repo)
    requires old_.url != new_.url && old_.teamId.Some? && new_.teamId == old_.teamId
    ensures new_.teamId.value !in Applied(live, DiffOf([old_], [new_]))
    ensures new_.teamId.value in Rebuild([new_])
  {
    Single(old_);
    Single(new_);
    BadHandoverLosesKey(live, [old_], [new_], new_.url, old_.url);
  }

  lemma Pair(a: Repo, b: Repo)
    requires a.url != b.url
    ensures IndexByUrl([a, b]) == map[a.url := a, b.url := b] && UrlOrder([a, b]) == [a.url, b.url]
    ensures Rebuild([a, b]) == map[Key(a) := EntryOf(a)][Key(b) := EntryOf(b)]
  {
    Single(a);
    assert [a, b][..1] == [a];
  }

  lemma OneChange(a: Repo, moved: Repo, b: Repo, f: seq<Field>)
    requires a.url == moved.url != b.url && f == SafeChanged(a, moved) != [] && UnsafeChanged(a, moved) == []
    ensures DiffOf([a, b], [moved, b]) == Diff([], [], [Change(a, moved, f)], [])
  {
    Pair(a, b);
    Pair(moved, b);
    var urls, p, n := [a.url, b.url], map[a.url := a, b.url := b], map[moved.url := moved, b.url := b];
    NoneAdded(urls, p, n);
    NoneAdded(urls, n, p);
    OneModified(p, n, urls, a, moved);
  }

  lemma OneModified(p: ByUrl, n: ByUrl, urls: seq<string>, a: Repo, moved: Repo)
    requires |urls| == 2 && urls[0] in p && urls[0] in n && urls[1] in p && urls[1] in n && p[urls[1]] == n[urls[1]]
    requires p[urls[0]] == a && n[urls[0]] == moved && SafeChanged(a, moved) != [] && UnsafeChanged(a, moved) == []
    ensures Modified(urls, p, n, SafeChanged) == [Change(a, moved, SafeChanged(a, moved))] && Modified(urls, p, n, UnsafeChanged) == []
  {
    var one := urls[..1];
    assert one[..0] == [] && one[0] == urls[0];
    assert Modified(one, p, n, SafeChanged) == [Change(a, moved, SafeChanged(a, moved))];
    assert Modified(one, p, n, UnsafeChanged) == [];
  }

  lemma OnlyChange(live: Live, c: Change)
    ensures Applied(live, Diff([], [], [c], [])) == ApplyChange(live, c)
  {
    assert [c][..0] == [] && [c][0] == c;
    assert ApplyAdded(live, []) == live;
    assert ApplyChanges(live, [c]) == ApplyChange(ApplyChanges(live, []), c);
  }

  lemma KeysInOrder(e: Edit, a: string, b: string)
    requires e.p.Keys == e.n.Keys == {a, b} && a != b && e.order == [a, b]
    requires Key(e.p[a]) == Key(e.p[b]) == Key(e.n[b]) != Key(e.n[a])
    ensures HandoverOk(e)
  {
    assert e.order[0] == a && e.order[1] == b;
    assert Before(e.order, a, b);
  }

  lemma Rekeyed(live: Live, e: Entry, p: Repo, n: Repo)
    requires live == map[Key(p) := e] && Key(n) != Key(p)
    ensures ApplyChange(live, Change(p, n, [TeamId])) == map[Key(n) := e]
  {
    assert Updated(e, Change(p, n, [TeamId])) == e;
  }

  /**
   * Two repositories of one team, and the first is given a team of its own. Every handover is in order, but the live map
   * gets the second repository under the new team and loses the old one.
   */
  lemma SharedKeyMisroutes(a: Repo, b: Repo, moved: Repo)
    requires a.url != b.url && a.teamId.Some? && b.teamId == a.teamId
    requires moved == a.(teamId := moved.teamId) && moved.teamId.Some? && moved.teamId != a.teamId
    ensures Proper([moved, b]) && HandoverOk(EditOf([a, b], [moved, b]))
    ensures Applied(Rebuild([a, b]), DiffOf([a, b], [moved, b])) == map[moved.teamId.value := EntryOf(b)]
    ensures Rebuild([moved, b]) == map[moved.teamId.value := EntryOf(moved), b.teamId.value := EntryOf(b)]
  {
    Pair(a, b);
    Pair(moved, b);
    KeysInOrder(EditOf([a, b], [moved, b]), a.url, b.url);
    OneChange(a, moved, b, [TeamId]);
    OnlyChange(Rebuild([a, b]), Change(a, moved, [TeamId]));
    Rekeyed(Rebuild([a, b]), EntryOf(b), a, moved);
  }

  lemma SecondIsShown(a: Repo, b: Repo)
    requires a.url != b.url && Key(a) == Key(b)
    ensures Shown([a, b]) == map[b.url := b]
  {
    assert [a, b][..1] == [a] && [a][..0] == [];
    assert Shown([a]) == map[a.url := a];
  }

  lemma Recommanded(live: Live, e: Entry, p: Repo, n: Repo)
    requires live == map[Key(p) := e] && Key(n) == Key(p)
    ensures ApplyChange(live, Change(p, n, [TestCommand])) == map[Key(p) := e.(testCommand := n.testCommand)]
  {
  }

  lemma EditedHidden(a: Repo, b: Repo, edited: Repo)
    requires a.url != b.url && a.url == edited.url && Key(edited) == Key(b) && SafeChanged(a, edited) != []
    ensures !HiddenUntouched(EditOf([a, b], [edited, b]))
  {
    Pair(a, b);
    Pair(edited, b);
    SecondIsShown(edited, b);
    var e := EditOf([a, b], [edited, b]);
    assert a.url in e.p && a.url in e.n && a.url !in e.shown;
  }

  /**
   * Two repositories of one team, and the hidden one gets another test command. The live map gives it to the shown one, which is
   * right only if that has the same one: there is no condition on the keys alone for such an edit.
   */
  lemma HiddenEditLeaks(a: Repo, b: Repo, edited: Repo)
    requires a.url != b.url && a.teamId.Some? && b.teamId == a.teamId
    requires edited == a.(testCommand := edited.testCommand) && edited.testCommand != a.testCommand
    ensures !HiddenUntouched(EditOf([a, b], [edited, b]))
    ensures Applied(Rebuild([a, b]), DiffOf([a, b], [edited, b])) == map[b.teamId.value := EntryOf(b).(testCommand := edited.testCommand)]
    ensures Rebuild([edited, b]) == map[b.teamId.value := EntryOf(b)]
  {
    Pair(a, b);
    Pair(edited, b);
    OneChange(a, edited, b, [TestCommand]);
    OnlyChange(Rebuild([a, b]), Change(a, edited, [TestCommand]));
    Recommanded(Rebuild([a, b]), EntryOf(b), a, edited);
    EditedHidden(a, b, edited);
  }

  lemma LabelCleared(r: Repo, cleared: Repo)
    requires r.labelPattern.Some? && r.labelPattern.value != "" && cleared == r.(labelPattern := Some(""))
    ensures DiffOf([r], [cleared]) == Diff([], [], [Change(r, cleared, [LabelPattern])], [])
  {
    Single(r);
    Single(cleared);
    var urls, a, b := [r.url], map[r.url := r], map[r.url := cleared];
    NoneAdded(urls, a, b);
    NoneAdded(urls, b, a);
    assert urls[..0] == [] && SafeChanged(r, cleared) == [LabelPattern] && UnsafeChanged(r, cleared) == [];
    assert Modified(urls, a, b, SafeChanged) == [Change(r, cleared, [LabelPattern])];
    assert Modified(urls, a, b, UnsafeChanged) == [];
  }

  /** Clearing a label pattern to "" leaves an empty one in the live entry, where a rebuild has none. */
  lemma EmptyLabelDiffers(r: Repo, cleared: Repo)
    requires r.labelPattern.Some? && r.labelPattern.value != "" && cleared == r.(labelPattern := Some(""))
    ensures Applied(Rebuild([r]), DiffOf([r], [cleared])) == map[Key(r) := EntryOf(r).(labelPattern := Some(""))]
    ensures Rebuild([cleared]) == map[Key(r) := EntryOf(r).(labelPattern := None)]
  {
    Single(r);
    Single(cleared);
    LabelCleared(r, cleared);
    OnlyChange(Rebuild([r]), Change(r, cleared, [LabelPattern]));
  }
}
