/** A reload patches the live map into what a rebuild would give, exactly when no key changes hands unsafely. */
module HotReloadProofs {
  import opened Prelude
  import opened ConfigDiff
  import opened RepoKeys
  import opened HotReload
  import opened Slots
  import opened HotReloadSync
  import opened HotReloadPhases

  // ---------------------------------------------------------------- the parts of a diff

  lemma DiffParts(prev: seq<Repo>, next: seq<Repo>, d: Diff)
    requires d == DiffOf(prev, next)
    ensures (forall u :: u in UrlOrder(next) ==> u in IndexByUrl(next)) && forall u :: u in UrlOrder(prev) <==> u in IndexByUrl(prev)
    ensures d.added == Added(UrlOrder(next), IndexByUrl(prev), IndexByUrl(next))
    ensures d.modifiedSafe == Modified(UrlOrder(next), IndexByUrl(prev), IndexByUrl(next), SafeChanged)
    ensures d.removed == Added(UrlOrder(prev), IndexByUrl(next), IndexByUrl(prev))
  {
    UrlOrderLists(prev);
    UrlOrderLists(next);
  }

  // ---------------------------------------------------------------- necessity: entries that another one hides

  ghost predicate NoEntryFor(live: Live, u: string) {
    forall k :: k in live ==> live[k].url != u
  }

  lemma {:induction false} AddedForOthers(live: Live, urls: seq<string>, p: ByUrl, n: ByUrl, u: string)
    requires ConfigDiff.Keyed(n) && (forall v :: v in urls ==> v in n) && u in p && NoEntryFor(live, u)
    ensures NoEntryFor(ApplyAdded(live, Added(urls, p, n)), u)
  {
    if urls != [] {
      var init, last := urls[..|urls| - 1], urls[|urls| - 1];
      AddedForOthers(live, init, p, n, u);
      assert urls == init + [last];
      AddedSnoc(live, init, last, p, n);
    }
  }

  /** No change to an entry changes its URL. */
  lemma {:induction false} ChangesKeepUrls(live: Live, changes: seq<Change>, u: string)
    requires NoEntryFor(live, u)
    ensures NoEntryFor(ApplyChanges(live, changes), u)
  {
    if changes != [] {
      ChangesKeepUrls(live, changes[..|changes| - 1], u);
    }
  }

  lemma ShownOnly(live: Live, prev: seq<Repo>, branches: Branches, u: string)
    requires UniqueUrls(prev) && InSync(live, prev, branches) && Hidden(prev, u)
    ensures NoEntryFor(live, u)
  {
    SyncByUrl(live, prev, branches);
    ShownExact(prev, u);
    forall k | k in live
      ensures live[k].url != u
    {
      assert k in ViewAll(live) && ViewAll(live)[k].url == live[k].url;
      var v :| v in KeyMap(Shown(prev)) && KeyMap(Shown(prev))[v] == k;
      ShownExact(prev, v);
      assert ViewAll(live)[k] == WantMap(Shown(prev), branches)[v];
    }
  }

  lemma HiddenIsListed(repos: seq<Repo>, u: string)
    requires UniqueUrls(repos) && Hidden(repos, u)
    ensures u in IndexByUrl(repos)
  {
    var i, j :| 0 <= i < j < |repos| && repos[i].url == u && Key(repos[i]) == Key(repos[j]);
    IndexAt(repos, i);
  }

  /**
   * An entry that another one hides stays hidden for as long as it is kept: whatever the next config says of it, even
   * under a key of its own, no entry of the live map is for its URL.
   */
  lemma HiddenStaysHidden(live: Live, prev: seq<Repo>, next: seq<Repo>, branches: Branches, u: string)
    requires UniqueUrls(prev) && InSync(live, prev, branches) && Hidden(prev, u) && u in IndexByUrl(next)
    ensures NoEntryFor(Applied(live, DiffOf(prev, next)), u)
  {
    var d := DiffOf(prev, next);
    HiddenIsListed(prev, u);
    ShownOnly(live, prev, branches, u);
    DiffParts(prev, next, d);
    AddedForOthers(live, UrlOrder(next), IndexByUrl(prev), IndexByUrl(next), u);
    StaysAway(live, prev, next, d, u);
  }

  lemma SyncShows(live: Live, m: ByUrl, branches: Branches, u: string)
    requires ConfigDiff.Keyed(m) && u in m && Synced(live, m, branches)
    ensures !NoEntryFor(live, u)
  {
    var k := KeyMap(m)[u];
    assert k in ViewAll(live) && ViewAll(live)[k] == WantMap(m, branches)[u];
    assert live[k].url == u;
  }

  // ---------------------------------------------------------------- necessity: entries that an added one overwrites

  ghost predicate OnlyAt(live: Live, u: string, k: string) {
    forall x :: x in live && live[x].url == u ==> x == k
  }

  lemma ShownAt(live: Live, prev: seq<Repo>, branches: Branches, u: string)
    requires UniqueUrls(prev) && InSync(live, prev, branches) && u in Shown(prev)
    ensures OnlyAt(live, u, Key(Shown(prev)[u]))
  {
    SyncByUrl(live, prev, branches);
    ShownFacts(prev);
    forall k | k in live && live[k].url == u
      ensures k == Key(Shown(prev)[u])
    {
      assert k in ViewAll(live) && ViewAll(live)[k].url == live[k].url;
      var v :| v in KeyMap(Shown(prev)) && KeyMap(Shown(prev))[v] == k;
      assert ViewAll(live)[k] == WantMap(Shown(prev), branches)[v];
    }
  }

  lemma {:induction false} AddedOverwrites(live: Live, urls: seq<string>, p: ByUrl, n: ByUrl, v: string, w: string)
    requires ConfigDiff.Keyed(n) && (forall u :: u in urls ==> u in n) && v in n && v !in p && w in p && Key(n[v]) == Key(p[w])
    requires OnlyAt(live, w, Key(p[w]))
    ensures OnlyAt(ApplyAdded(live, Added(urls, p, n)), w, Key(p[w]))
    ensures v in urls ==> NoEntryFor(ApplyAdded(live, Added(urls, p, n)), w)
  {
    if urls != [] {
      var init, last := urls[..|urls| - 1], urls[|urls| - 1];
      assert urls == init + [last];
      AddedOverwrites(live, init, p, n, v, w);
      AddedSnoc(live, init, last, p, n);
    }
  }

  lemma StaysAway(live: Live, prev: seq<Repo>, next: seq<Repo>, d: Diff, u: string)
    requires d == DiffOf(prev, next) && NoEntryFor(ApplyAdded(live, d.added), u)
    ensures NoEntryFor(Applied(live, d), u)
  {
    DiffParts(prev, next, d);
    var kept := ApplyChanges(ApplyAdded(live, d.added), d.modifiedSafe);
    ChangesKeepUrls(ApplyAdded(live, d.added), d.modifiedSafe, u);
    forall k | k in Applied(live, d)
      ensures Applied(live, d)[k].url != u
    {
      RemovedAt(kept, UrlOrder(prev), IndexByUrl(prev), IndexByUrl(next), k);
    }
  }

  /** The entry of `w` is overwritten by an added one, and nothing brings it back. */
  lemma OverwrittenIsLost(live: Live, prev: seq<Repo>, next: seq<Repo>, branches: Branches, v: string, w: string)
    requires UniqueUrls(prev) && InSync(live, prev, branches) && w in Shown(prev)
    requires v in IndexByUrl(next) && v !in IndexByUrl(prev) && Key(IndexByUrl(next)[v]) == Key(Shown(prev)[w])
    ensures NoEntryFor(Applied(live, DiffOf(prev, next)), w)
  {
    var d := DiffOf(prev, next);
    UrlOrderLists(next);
    DiffParts(prev, next, d);
    ShownFacts(prev);
    ShownAt(live, prev, branches, w);
    AddedOverwrites(live, UrlOrder(next), IndexByUrl(prev), IndexByUrl(next), v, w);
    StaysAway(live, prev, next, d, w);
  }

  // ---------------------------------------------------------------- necessity: keys that are given up too late

  /** Changes to entries whose new key is not `k` do not bring `k` back. */
  lemma {:induction false} StaysOut(live: Live, init: seq<string>, rest: seq<string>, p: ByUrl, n: ByUrl, k: string)
    requires forall u :: u in init + rest ==> u in n
    requires k !in ApplyChanges(live, Modified(init, p, n, SafeChanged))
    requires forall u :: u in rest && u in p && SafeChanged(p[u], n[u]) != [] ==> Key(n[u]) != k
    ensures k !in ApplyChanges(live, Modified(init + rest, p, n, SafeChanged))
    decreases |rest|
  {
    if rest == [] {
      assert init + rest == init;
    } else {
      var u := rest[0];
      assert init + rest == (init + [u]) + rest[1..];
      ChangesSnoc(live, init, u, p, n);
      StaysOut(live, init + [u], rest[1..], p, n, k);
    }
  }

  lemma GivesUp(live: Live, p: Repo, n: Repo)
    requires p.url == n.url && Key(p) != Key(n)
    ensures SafeChanged(p, n) != [] && Key(p) !in ApplyChange(live, Change(p, n, SafeChanged(p, n)))
  {
    KeyChange(p, n);
  }

  /** Of the entries that are edited, only `v` wants its key, and it does not come after the giver. */
  lemma LaterKeysDiffer(e: Edit, i: nat, v: string)
    requires Sound(e) && HiddenUntouched(e) && i < |e.order| && v in e.shown
    requires v !in e.p || !Before(e.order, e.order[i], v)
    ensures forall u :: u in e.order[i + 1..] && u in e.p && SafeChanged(e.p[u], e.n[u]) != [] ==> Key(e.n[u]) != Key(e.n[v])
  {
    forall u | u in e.order[i + 1..] && u in e.p && SafeChanged(e.p[u], e.n[u]) != []
      ensures Key(e.n[u]) != Key(e.n[v])
    {
      var j :| i < j < |e.order| && e.order[j] == u;
      assert Before(e.order, e.order[i], u);
      ShownKeysDiffer(e, u, v);
    }
  }

  lemma GivesUpNext(live: Live, init: seq<string>, w: string, p: ByUrl, n: ByUrl)
    requires ConfigDiff.Keyed(p) && ConfigDiff.Keyed(n) && w in n && w in p && Key(p[w]) != Key(n[w]) && forall u :: u in init ==> u in n
    ensures Key(p[w]) !in ApplyChanges(live, Modified(init + [w], p, n, SafeChanged))
  {
    ChangesSnoc(live, init, w, p, n);
    GivesUp(ApplyChanges(live, Modified(init, p, n, SafeChanged)), p[w], n[w]);
  }

  /** A kept entry that gives up a key to an entry processed earlier, or just added, takes it out of the map for good. */
  lemma GiverLoses(live: Live, e: Edit, i: nat, v: string)
    requires Sound(e) && HiddenUntouched(e) && i < |e.order|
    requires v in e.shown && e.order[i] in e.p && e.order[i] in e.shown && v != e.order[i] && Key(e.n[v]) == Key(e.p[e.order[i]])
    requires v !in e.p || !Before(e.order, e.order[i], v)
    ensures Key(e.n[v]) !in ApplyChanges(live, Modified(e.order, e.p, e.n, SafeChanged))
  {
    ShownKeysDiffer(e, e.order[i], v);
    GivesUpNext(live, e.order[..i], e.order[i], e.p, e.n);
    LaterKeysDiffer(e, i, v);
    OrderSplits(e.order, i);
    StaysOut(live, e.order[..i] + [e.order[i]], e.order[i + 1..], e.p, e.n, Key(e.n[v]));
  }

  lemma OrderSplits(order: seq<string>, i: nat)
    requires i < |order|
    ensures order == (order[..i] + [order[i]]) + order[i + 1..]
  {
  }

  lemma FreedIsGone(live: Live, prev: seq<Repo>, next: seq<Repo>, w: string)
    requires w in IndexByUrl(prev) && w !in IndexByUrl(next)
    ensures Key(IndexByUrl(prev)[w]) !in Applied(live, DiffOf(prev, next))
  {
    UrlOrderLists(prev);
    UrlOrderLists(next);
    var p, n := IndexByUrl(prev), IndexByUrl(next);
    RemovedAt(ApplyChanges(ApplyAdded(live, DiffOf(prev, next).added), DiffOf(prev, next).modifiedSafe), UrlOrder(prev), p, n, Key(p[w]));
  }

  /** When a key that the next config shows changes hands in any other way, the reload leaves it out of the live map, whatever that was. */
  lemma BadHandoverLosesKey(live: Live, prev: seq<Repo>, next: seq<Repo>, v: string, w: string)
    requires UniqueUrls(prev) && UniqueUrls(next) && HiddenUntouched(EditOf(prev, next))
    requires v in IndexByUrl(next) && v in Shown(next) && w in IndexByUrl(prev) && !HandsOver(EditOf(prev, next), v, w)
    ensures Key(IndexByUrl(next)[v]) !in Applied(live, DiffOf(prev, next))
  {
    var e := EditOf(prev, next);
    EditSound(prev, next);
    if w !in e.n {
      FreedIsGone(live, prev, next, w);
    } else {
      UrlOrderLists(prev);
      UrlOrderLists(next);
      var i :| 0 <= i < |e.order| && e.order[i] == w;
      var added := ApplyAdded(live, Added(e.order, e.p, e.n));
      GiverLoses(added, e, i, v);
      RemovedAt(ApplyChanges(added, Modified(e.order, e.p, e.n, SafeChanged)), UrlOrder(prev), e.p, e.n, Key(e.n[v]));
    }
  }

  lemma LostKey(live: Live, e: Edit, branches: Branches, k: string)
    requires Wanted(e, k) && k !in live
    ensures !Synced(live, e.shown, branches)
  {
    var u :| u in e.shown && Key(e.shown[u]) == k;
    assert KeyMap(e.shown)[u] == k;
  }

  lemma BadHandoverBreaksSync(live: Live, after: Live, prev: seq<Repo>, next: seq<Repo>, branches: Branches, branches': Branches, v: string, w: string)
    requires UniqueUrls(prev) && UniqueUrls(next) && HiddenUntouched(EditOf(prev, next)) && NoneRevealed(EditOf(prev, next))
    requires InSync(live, prev, branches) && after == Applied(live, DiffOf(prev, next))
    requires v in IndexByUrl(next) && w in IndexByUrl(prev) && !HandsOver(EditOf(prev, next), v, w)
    ensures !Synced(after, Shown(next), branches')
  {
    var e := EditOf(prev, next);
    EditSound(prev, next);
    KeyWanted(e, v);
    if v in e.shown {
      BadHandoverLosesKey(live, prev, next, v, w);
      LostKey(after, e, branches', Key(e.n[v]));
    } else if w !in e.n {
      FreedIsGone(live, prev, next, w);
      LostKey(after, e, branches', Key(e.n[v]));
    } else {
      OverwrittenIsLost(live, prev, next, branches, v, w);
      if Synced(after, Shown(next), branches') {
        SyncShows(after, Shown(next), branches', w);
      }
    }
  }

  lemma RevealedBreaksSync(live: Live, after: Live, prev: seq<Repo>, next: seq<Repo>, branches: Branches, branches': Branches)
    requires UniqueUrls(prev) && UniqueUrls(next) && !NoneRevealed(EditOf(prev, next))
    requires InSync(live, prev, branches) && after == Applied(live, DiffOf(prev, next))
    ensures !Synced(after, Shown(next), branches')
  {
    EditSound(prev, next);
    var u :| u in Shown(next) && u in IndexByUrl(prev) && u !in Shown(prev);
    ShownExact(prev, u);
    HiddenStaysHidden(live, prev, next, branches, u);
    if Synced(after, Shown(next), branches') {
      SyncShows(after, Shown(next), branches', u);
    }
  }

  // ---------------------------------------------------------------- the theorem

  lemma AppliedParts(live: Live, d: Diff) returns (added: Live, kept: Live)
    ensures added == ApplyAdded(live, d.added) && kept == ApplyChanges(added, d.modifiedSafe)
    ensures Applied(live, d) == ApplyRemoved(kept, d.removed)
  {
    added := ApplyAdded(live, d.added);
    kept := ApplyChanges(added, d.modifiedSafe);
  }

  lemma EditFollowed(live: Live, after: Live, e: Edit, prev: seq<Repo>, next: seq<Repo>, branches: Branches)
    requires UniqueUrls(prev) && UniqueUrls(next) && branches.Keys == IndexByUrl(prev).Keys
    requires Synced(live, Shown(prev), branches) && after == Applied(live, DiffOf(prev, next)) && e == EditOf(prev, next)
    requires HiddenUntouched(e) && HandoverOk(e) && NoneRevealed(e)
    ensures Synced(after, Shown(next), Remember(branches, IndexByUrl(prev), IndexByUrl(next)))
  {
    EditSound(prev, next);
    var d := DiffOf(prev, next);
    DiffParts(prev, next, d);
    var added, kept := AppliedParts(live, d);
    EditSyncs(live, added, kept, after, e, branches, UrlOrder(prev));
  }

  /**
   * One reload, exactly. Unless an entry is edited while another one hides it, a live map in sync with the previous config is in
   * sync with the next one afterwards if and only if every key that changes hands does so in order and no kept entry is revealed.
   */
  lemma ReloadExact(live: Live, prev: seq<Repo>, next: seq<Repo>, branches: Branches)
    requires UniqueUrls(prev) && UniqueUrls(next) && HiddenUntouched(EditOf(prev, next)) && branches.Keys == IndexByUrl(prev).Keys
    requires InSync(live, prev, branches)
    ensures InSync(Applied(live, DiffOf(prev, next)), next, Remember(branches, IndexByUrl(prev), IndexByUrl(next)))
       <==> HandoverOk(EditOf(prev, next)) && NoneRevealed(EditOf(prev, next))
  {
    var e, branches' := EditOf(prev, next), Remember(branches, IndexByUrl(prev), IndexByUrl(next));
    SyncByUrl(live, prev, branches);
    SyncByUrl(Applied(live, DiffOf(prev, next)), next, branches');
    if !NoneRevealed(e) {
      RevealedBreaksSync(live, Applied(live, DiffOf(prev, next)), prev, next, branches, branches');
    } else if !HandoverOk(e) {
      var v, w :| v in e.n && w in e.p && !HandsOver(e, v, w);
      BadHandoverBreaksSync(live, Applied(live, DiffOf(prev, next)), prev, next, branches, branches', v, w);
    } else {
      EditFollowed(live, Applied(live, DiffOf(prev, next)), e, prev, next, branches);
    }
  }
}
