/** When a live map shows a config whose entries may share map keys, and which edits of the config a reload can follow. */
module HotReloadSync {
  import opened Prelude
  import opened ConfigDiff
  import opened RepoKeys
  import opened HotReload
  import opened Slots

  type Branches = map<string, string>

  // ---------------------------------------------------------------- being in sync

  /** One entry per URL, which `ura repo add` sees to. */
  ghost predicate UniqueUrls(repos: seq<Repo>) {
    forall i, j :: 0 <= i < j < |repos| ==> repos[i].url != repos[j].url
  }

  /** One entry per map key, which nothing sees to: two repositories may name the same team. */
  ghost predicate UniqueKeys(repos: seq<Repo>) {
    forall i, j :: 0 <= i < j < |repos| ==> Key(repos[i]) != Key(repos[j])
  }

  ghost predicate Proper(repos: seq<Repo>) {
    UniqueUrls(repos) && UniqueKeys(repos)
  }

  function WithBranch(r: Repo, branches: Branches): Repo {
    if r.url in branches then r.(defaultBranch := branches[r.url]) else r
  }

  function WithBranches(repos: seq<Repo>, branches: Branches): seq<Repo> {
    seq(|repos|, i requires 0 <= i < |repos| => WithBranch(repos[i], branches))
  }

  /** The live map is the rebuild of the config, with the default branches remembered in `branches`. */
  ghost predicate InSync(live: Live, repos: seq<Repo>, branches: Branches) {
    ViewAll(live) == Rebuild(WithBranches(repos, branches))
  }

  /** A URL keeps the default branch it had when it was last added. */
  function Remember(branches: Branches, prev: ByUrl, next: ByUrl): Branches {
    map u | u in next :: if u in prev && u in branches then branches[u] else next[u].defaultBranch
  }

  function KeyMap(m: ByUrl): map<string, string> {
    map u | u in m :: Key(m[u])
  }

  function WantMap(m: ByUrl, branches: Branches): map<string, Entry> {
    map u | u in m :: EntryOf(WithBranch(m[u], branches))
  }

  /** The same by URL. */
  ghost predicate Synced(live: Live, m: ByUrl, branches: Branches) {
    Placed(ViewAll(live), KeyMap(m), WantMap(m, branches))
  }

  lemma KeyOfBranch(r: Repo, branches: Branches)
    ensures Key(WithBranch(r, branches)) == Key(r)
  {
  }

  // ---------------------------------------------------------------- entries that share a key

  /** A later entry has the same key, so that the map shows that one. */
  ghost predicate Hidden(repos: seq<Repo>, u: string) {
    exists i, j :: 0 <= i < j < |repos| && repos[i].url == u && Key(repos[i]) == Key(repos[j])
  }

  /** The entries that the map shows: of those with one key, the last. */
  function Shown(repos: seq<Repo>): ByUrl {
    if repos == [] then map[]
    else
      var m, last := Shown(repos[..|repos| - 1]), repos[|repos| - 1];
      (map u | u in m && Key(m[u]) != Key(last) :: m[u])[last.url := last]
  }

  lemma {:induction false} IndexAt(repos: seq<Repo>, i: nat)
    requires UniqueUrls(repos) && i < |repos|
    ensures repos[i].url in IndexByUrl(repos) && IndexByUrl(repos)[repos[i].url] == repos[i]
  {
    if i < |repos| - 1 {
      IndexAt(repos[..|repos| - 1], i);
    }
  }

  lemma {:induction false} IndexFrom(repos: seq<Repo>, u: string) returns (i: nat)
    requires u in IndexByUrl(repos)
    ensures i < |repos| && repos[i] == IndexByUrl(repos)[u] && repos[i].url == u
  {
    i := |repos| - 1;
    if repos[i].url != u {
      i := IndexFrom(repos[..|repos| - 1], u);
    }
  }

  lemma {:induction false} NotListed(repos: seq<Repo>, u: string)
    requires forall i :: 0 <= i < |repos| ==> repos[i].url != u
    ensures u !in IndexByUrl(repos) && !Hidden(repos, u)
  {
    if repos != [] {
      NotListed(repos[..|repos| - 1], u);
    }
  }

  lemma UniqueSnoc(init: seq<Repo>, last: Repo)
    requires UniqueUrls(init + [last])
    ensures UniqueUrls(init) && last.url !in IndexByUrl(init) && !Hidden(init, last.url)
  {
    var repos := init + [last];
    assert forall i :: 0 <= i < |init| ==> repos[i] == init[i] && repos[|init|] == last;
    NotListed(init, last.url);
  }

  lemma HiddenSnoc(init: seq<Repo>, last: Repo, u: string)
    requires UniqueUrls(init + [last])
    ensures Hidden(init + [last], u) <==> Hidden(init, u) || (u in IndexByUrl(init) && Key(IndexByUrl(init)[u]) == Key(last))
  {
    var repos := init + [last];
    UniqueSnoc(init, last);
    if Hidden(repos, u) {
      var i, j :| 0 <= i < j < |repos| && repos[i].url == u && Key(repos[i]) == Key(repos[j]);
      IndexAt(init, i);
      if j < |init| {
        assert init[i] == repos[i] && init[j] == repos[j];
      }
    }
    if Hidden(init, u) {
      var i, j :| 0 <= i < j < |init| && init[i].url == u && Key(init[i]) == Key(init[j]);
      assert repos[i] == init[i] && repos[j] == init[j];
    }
    if u in IndexByUrl(init) && Key(IndexByUrl(init)[u]) == Key(last) {
      var i := IndexFrom(init, u);
      assert repos[i] == init[i] && repos[|init|] == last;
    }
  }

  /** What the map shows are the entries that no later one hides. */
  lemma {:induction false} ShownExact(repos: seq<Repo>, u: string)
    requires UniqueUrls(repos)
    ensures u in Shown(repos) <==> u in IndexByUrl(repos) && !Hidden(repos, u)
    ensures u in Shown(repos) ==> Shown(repos)[u] == IndexByUrl(repos)[u]
  {
    if repos != [] {
      var init, last := repos[..|repos| - 1], repos[|repos| - 1];
      assert repos == init + [last];
      UniqueSnoc(init, last);
      ShownExact(init, u);
      HiddenSnoc(init, last, u);
    }
  }

  /** When no key is shared, that is all of them. */
  lemma ShownAll(repos: seq<Repo>)
    requires Proper(repos)
    ensures Shown(repos) == IndexByUrl(repos)
  {
    forall u
      ensures u in Shown(repos) <==> u in IndexByUrl(repos)
      ensures u in Shown(repos) ==> Shown(repos)[u] == IndexByUrl(repos)[u]
    {
      ShownExact(repos, u);
    }
  }

  // ---------------------------------------------------------------- the rebuild, by URL

  /** The last entry takes its key, whoever had it. */
  lemma PlaceLast(live: Live, m: ByUrl, after: ByUrl, branches: Branches, r: Repo)
    requires r.url !in m && after == (map u | u in m && Key(m[u]) != Key(r) :: m[u])[r.url := r]
    requires Placed(live, KeyMap(m), WantMap(m, branches)) && Injective(KeyMap(m))
    ensures Placed(live[Key(r) := EntryOf(WithBranch(r, branches))], KeyMap(after), WantMap(after, branches))
    ensures Injective(KeyMap(after))
  {
    Take(live, KeyMap(m), WantMap(m, branches), KeyMap(after), WantMap(after, branches), r.url, Key(r), EntryOf(WithBranch(r, branches)));
  }

  lemma RebuildSnoc(repos: seq<Repo>, branches: Branches, last: Repo)
    ensures Rebuild(WithBranches(repos + [last], branches)) ==
              Rebuild(WithBranches(repos, branches))[Key(last) := EntryOf(WithBranch(last, branches))]
  {
    assert WithBranches(repos + [last], branches)[..|repos|] == WithBranches(repos, branches);
    KeyOfBranch(last, branches);
  }

  lemma ShownSnoc(init: seq<Repo>, last: Repo)
    requires UniqueUrls(init + [last])
    ensures last.url !in Shown(init) && UniqueUrls(init)
    ensures Shown(init + [last]) == (map u | u in Shown(init) && Key(Shown(init)[u]) != Key(last) :: Shown(init)[u])[last.url := last]
  {
    InSnoc(init, last, last);
    UniqueSnoc(init, last);
    ShownExact(init, last.url);
  }

  lemma {:induction false} RebuildPlaces(repos: seq<Repo>, branches: Branches)
    requires UniqueUrls(repos)
    ensures Placed(Rebuild(WithBranches(repos, branches)), KeyMap(Shown(repos)), WantMap(Shown(repos), branches))
    ensures Injective(KeyMap(Shown(repos)))
  {
    if repos == [] {
      assert WithBranches(repos, branches) == [];
    } else {
      var init, last := repos[..|repos| - 1], repos[|repos| - 1];
      assert repos == init + [last];
      ShownSnoc(init, last);
      RebuildPlaces(init, branches);
      PlaceLast(Rebuild(WithBranches(init, branches)), Shown(init), Shown(repos), branches, last);
      RebuildSnoc(init, branches, last);
    }
  }

  lemma SyncByUrl(live: Live, repos: seq<Repo>, branches: Branches)
    requires UniqueUrls(repos)
    ensures InSync(live, repos, branches) <==> Synced(live, Shown(repos), branches)
    ensures Injective(KeyMap(Shown(repos)))
  {
    RebuildPlaces(repos, branches);
    if Synced(live, Shown(repos), branches) {
      PlacedOnce(ViewAll(live), Rebuild(WithBranches(repos, branches)), KeyMap(Shown(repos)), WantMap(Shown(repos), branches));
    }
  }

  // ---------------------------------------------------------------- the condition

  /** Two configs by URL, the entries that the map shows of each, and the order of the new one. */
  datatype Edit = Edit(p: ByUrl, shownBefore: ByUrl, n: ByUrl, shown: ByUrl, order: seq<string>)

  function EditOf(prev: seq<Repo>, next: seq<Repo>): Edit {
    Edit(IndexByUrl(prev), Shown(prev), IndexByUrl(next), Shown(next), UrlOrder(next))
  }

  ghost predicate Before(urls: seq<string>, w: string, v: string) {
    exists i, j :: 0 <= i < j < |urls| && urls[i] == w && urls[j] == v
  }

  /** A kept entry that another one hides has not been edited: its change would be made to the other's entry. */
  ghost predicate HiddenUntouched(e: Edit) {
    forall u :: u in e.p && u in e.n && u !in e.shown ==> SafeChanged(e.p[u], e.n[u]) == []
  }

  /**
   * An entry that is added or shown takes a key that another one had only if that one is kept and either is hidden from now on
   * or gives the key up, listed first, to a kept entry.
   */
  ghost predicate HandsOver(e: Edit, v: string, w: string)
    requires v in e.n && w in e.p
  {
    v != w && (v in e.shown || v !in e.p) && Key(e.n[v]) == Key(e.p[w]) ==>
      w in e.n && (w !in e.shown || (v in e.p && Before(e.order, w, v)))
  }

  ghost predicate HandoverOk(e: Edit) {
    forall v, w :: v in e.n && w in e.p ==> HandsOver(e, v, w)
  }

  /** No kept entry comes to light that was hidden. */
  ghost predicate NoneRevealed(e: Edit) {
    forall u :: u in e.shown && u in e.p ==> u in e.shownBefore
  }

  ghost predicate Within(q: ByUrl, p: ByUrl) {
    forall u :: u in q ==> u in p && q[u] == p[u]
  }

  /** What two configs without repeated URLs make sure of. */
  ghost predicate Sound(e: Edit) {
    && ConfigDiff.Keyed(e.p) && ConfigDiff.Keyed(e.n) && Within(e.shownBefore, e.p) && Within(e.shown, e.n)
    && Injective(KeyMap(e.shownBefore)) && Injective(KeyMap(e.shown))
    && (forall u :: u in e.order <==> u in e.n)
    && (forall a, b :: 0 <= a < b < |e.order| ==> e.order[a] != e.order[b])
    && (forall u :: u in e.n && u !in e.shown ==> Hides(e, u))
  }

  ghost predicate Hides(e: Edit, u: string)
    requires u in e.n
  {
    exists v :: v in e.shown && Key(e.shown[v]) == Key(e.n[u]) && Before(e.order, u, v)
  }

  lemma {:induction false} OrderAt(repos: seq<Repo>, i: nat)
    requires UniqueUrls(repos) && i < |repos|
    ensures |UrlOrder(repos)| == |repos| && UrlOrder(repos)[i] == repos[i].url
  {
    var init, last := repos[..|repos| - 1], repos[|repos| - 1];
    assert repos == init + [last];
    UniqueSnoc(init, last);
    if init != [] {
      OrderAt(init, if i < |init| then i else 0);
    }
  }

  /** The entry that is shown under a hidden entry's key comes later. */
  lemma {:induction false} HiddenBy(repos: seq<Repo>, i: nat) returns (j: nat)
    requires UniqueUrls(repos) && i < |repos|
    ensures i <= j < |repos| && Key(repos[i]) == Key(repos[j]) && repos[j].url in Shown(repos) && Shown(repos)[repos[j].url] == repos[j]
    ensures i == j <==> repos[i].url in Shown(repos)
    decreases |repos| - i
  {
    ShownExact(repos, repos[i].url);
    IndexAt(repos, i);
    if Hidden(repos, repos[i].url) {
      var a, b :| 0 <= a < b < |repos| && repos[a].url == repos[i].url && Key(repos[a]) == Key(repos[b]);
      assert a == i;
      j := HiddenBy(repos, b);
    } else {
      j := i;
    }
  }

  lemma EditSound(prev: seq<Repo>, next: seq<Repo>)
    requires UniqueUrls(prev) && UniqueUrls(next)
    ensures Sound(EditOf(prev, next))
  {
    var e := EditOf(prev, next);
    ShownFacts(prev);
    ShownFacts(next);
    UrlOrderLists(next);
    forall u | u in e.n && u !in e.shown
      ensures Hides(e, u)
    {
      HiddenHides(prev, next, u);
    }
  }

  lemma ShownFacts(repos: seq<Repo>)
    requires UniqueUrls(repos)
    ensures Within(Shown(repos), IndexByUrl(repos)) && Injective(KeyMap(Shown(repos)))
  {
    RebuildPlaces(repos, map[]);
    forall u | u in Shown(repos)
      ensures u in IndexByUrl(repos) && Shown(repos)[u] == IndexByUrl(repos)[u]
    {
      ShownExact(repos, u);
    }
  }

  lemma HiddenHides(prev: seq<Repo>, next: seq<Repo>, u: string)
    requires UniqueUrls(next) && u in IndexByUrl(next) && u !in Shown(next)
    ensures Hides(EditOf(prev, next), u)
  {
    var i := IndexFrom(next, u);
    var j := HiddenBy(next, i);
    OrderAt(next, i);
    OrderAt(next, j);
    assert Before(UrlOrder(next), u, next[j].url);
  }
}
