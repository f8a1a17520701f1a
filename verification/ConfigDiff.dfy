/** Diffing the user-level config and watching it (packages/cli/src/lib/config-watcher.ts). */
module ConfigDiff {
  import opened Prelude

  datatype Repo = Repo(
    url: string, path: string, defaultBranch: string, testCommand: string, buildCommand: string,
    teamId: Option<string>, labelPattern: Option<string>)

  datatype Field = LabelPattern | TestCommand | BuildCommand | TeamId | Path | DefaultBranch

  datatype Change = Change(prev: Repo, repo: Repo, fields: seq<Field>)

  datatype Diff = Diff(added: seq<Repo>, removed: seq<Repo>, modifiedSafe: seq<Change>, modifiedUnsafe: seq<Change>)

  const NO_DIFF := Diff([], [], [], [])

  type ByUrl = map<string, Repo>

  // ---------------------------------------------------------------- maps by URL

  /** `new Map(repos.map(r => [r.url, r]))`: the last entry of a URL wins. */
  function IndexByUrl(repos: seq<Repo>): (m: ByUrl)
    ensures forall u :: u in m ==> m[u].url == u
  {
    if repos == [] then map[]
    else IndexByUrl(repos[..|repos| - 1])[repos[|repos| - 1].url := repos[|repos| - 1]]
  }

  /** The iteration order of that map: first insertions. */
  function UrlOrder(repos: seq<Repo>): seq<string> {
    if repos == [] then []
    else
      var init, url := UrlOrder(repos[..|repos| - 1]), repos[|repos| - 1].url;
      if url in IndexByUrl(repos[..|repos| - 1]) then init else init + [url]
  }

  lemma {:induction false} UrlOrderLists(repos: seq<Repo>)
    ensures forall u :: u in UrlOrder(repos) <==> u in IndexByUrl(repos)
    ensures forall i, j :: 0 <= i < j < |UrlOrder(repos)| ==> UrlOrder(repos)[i] != UrlOrder(repos)[j]
  {
    if repos != [] {
      UrlOrderLists(repos[..|repos| - 1]);
    }
  }

  // ---------------------------------------------------------------- the diff

  function SafeChanged(p: Repo, n: Repo): seq<Field> {
    (if p.labelPattern != n.labelPattern then [LabelPattern] else [])
    + (if p.testCommand != n.testCommand then [TestCommand] else [])
    + (if p.buildCommand != n.buildCommand then [BuildCommand] else [])
    + (if p.teamId != n.teamId then [TeamId] else [])
  }

  /** `url` is compared too, but is the key under which both entries were found. */
  function UnsafeChanged(p: Repo, n: Repo): seq<Field> {
    (if p.path != n.path then [Path] else []) + (if p.defaultBranch != n.defaultBranch then [DefaultBranch] else [])
  }

  function Added(urls: seq<string>, prev: ByUrl, next: ByUrl): seq<Repo>
    requires forall u :: u in urls ==> u in next
  {
    if urls == [] then []
    else
      var rest, u := Added(urls[..|urls| - 1], prev, next), urls[|urls| - 1];
      if u in prev then rest else rest + [next[u]]
  }

  function Modified(urls: seq<string>, prev: ByUrl, next: ByUrl, changed: (Repo, Repo) -> seq<Field>): seq<Change>
    requires forall u :: u in urls ==> u in next
  {
    if urls == [] then []
    else
      var rest, u := Modified(urls[..|urls| - 1], prev, next, changed), urls[|urls| - 1];
      if u in prev && changed(prev[u], next[u]) != [] then rest + [Change(prev[u], next[u], changed(prev[u], next[u]))] else rest
  }

  function DiffOf(prev: seq<Repo>, next: seq<Repo>): Diff {
    UrlOrderLists(prev);
    UrlOrderLists(next);
    var p, n := IndexByUrl(prev), IndexByUrl(next);
    Diff(Added(UrlOrder(next), p, n), Added(UrlOrder(prev), n, p),
         Modified(UrlOrder(next), p, n, SafeChanged), Modified(UrlOrder(next), p, n, UnsafeChanged))
  }

  lemma AddedNext(urls: seq<string>, i: nat, prev: ByUrl, next: ByUrl)
    requires i < |urls| && forall u :: u in urls ==> u in next
    ensures Added(urls[..i + 1], prev, next) ==
              if urls[i] in prev then Added(urls[..i], prev, next) else Added(urls[..i], prev, next) + [next[urls[i]]]
  {
    assert urls[..i + 1][..i] == urls[..i];
  }

  lemma ModifiedNext(urls: seq<string>, i: nat, prev: ByUrl, next: ByUrl, changed: (Repo, Repo) -> seq<Field>)
    requires i < |urls| && forall u :: u in urls ==> u in next
    ensures Modified(urls[..i + 1], prev, next, changed) ==
              if urls[i] in prev && changed(prev[urls[i]], next[urls[i]]) != []
              then Modified(urls[..i], prev, next, changed) + [Change(prev[urls[i]], next[urls[i]], changed(prev[urls[i]], next[urls[i]]))]
              else Modified(urls[..i], prev, next, changed)
  {
    assert urls[..i + 1][..i] == urls[..i];
  }

  // ---------------------------------------------------------------- the diff in terms of the two configs

  /** Of the entries with one URL the last one counts. */
  ghost predicate Counts(r: Repo, repos: seq<Repo>) {
    exists i :: 0 <= i < |repos| && repos[i] == r && forall j :: i < j < |repos| ==> repos[j].url != r.url
  }

  ghost predicate Lists(repos: seq<Repo>, url: string) {
    exists i :: 0 <= i < |repos| && repos[i].url == url
  }

  ghost predicate Pair(p: Repo, n: Repo, prev: seq<Repo>, next: seq<Repo>) {
    Counts(p, prev) && Counts(n, next) && p.url == n.url
  }

  /** The changes hot reload can apply, and the fields of each. */
  ghost predicate TellsSafe(c: Change) {
    && (LabelPattern in c.fields <==> c.prev.labelPattern != c.repo.labelPattern)
    && (TestCommand in c.fields <==> c.prev.testCommand != c.repo.testCommand)
    && (BuildCommand in c.fields <==> c.prev.buildCommand != c.repo.buildCommand)
    && (TeamId in c.fields <==> c.prev.teamId != c.repo.teamId)
    && Path !in c.fields && DefaultBranch !in c.fields && c.fields != []
  }

  /** And those that need a restart. */
  ghost predicate TellsUnsafe(c: Change) {
    && (Path in c.fields <==> c.prev.path != c.repo.path)
    && (DefaultBranch in c.fields <==> c.prev.defaultBranch != c.repo.defaultBranch)
    && LabelPattern !in c.fields && TestCommand !in c.fields && BuildCommand !in c.fields && TeamId !in c.fields && c.fields != []
  }

  ghost predicate Tells(d: Diff, prev: seq<Repo>, next: seq<Repo>) {
    && (forall r :: r in d.added <==> Counts(r, next) && !Lists(prev, r.url))
    && (forall r :: r in d.removed <==> Counts(r, prev) && !Lists(next, r.url))
    && (forall c :: c in d.modifiedSafe ==> Pair(c.prev, c.repo, prev, next) && TellsSafe(c))
    && (forall c :: c in d.modifiedUnsafe ==> Pair(c.prev, c.repo, prev, next) && TellsUnsafe(c))
    && (forall p, n :: Pair(p, n, prev, next) ==>
          && ((p.labelPattern != n.labelPattern || p.testCommand != n.testCommand || p.buildCommand != n.buildCommand || p.teamId != n.teamId) ==>
                HasChange(d.modifiedSafe, p, n))
          && (p.path != n.path || p.defaultBranch != n.defaultBranch ==> HasChange(d.modifiedUnsafe, p, n)))
  }

  ghost predicate HasChange(changes: seq<Change>, p: Repo, n: Repo) {
    exists c :: c in changes && c.prev == p && c.repo == n
  }

  lemma {:induction false} IndexCounts(repos: seq<Repo>, u: string)
    ensures u in IndexByUrl(repos) <==> Lists(repos, u)
    ensures forall r: Repo :: r.url == u ==> (Counts(r, repos) <==> u in IndexByUrl(repos) && IndexByUrl(repos)[u] == r)
  {
    if repos != [] {
      var init, last := repos[..|repos| - 1], repos[|repos| - 1];
      IndexCounts(init, u);
      ListsSnoc(repos, init, last, u);
      forall r: Repo | r.url == u
        ensures Counts(r, repos) <==> if last.url == u then r == last else Counts(r, init)
      {
        CountsSnoc(repos, init, last, r);
      }
    }
  }

  lemma ListsSnoc(repos: seq<Repo>, init: seq<Repo>, last: Repo, u: string)
    requires repos == init + [last]
    ensures Lists(repos, u) <==> Lists(init, u) || last.url == u
  {
    assert repos[|init|] == last;
    if Lists(init, u) {
      var i :| 0 <= i < |init| && init[i].url == u;
      assert repos[i].url == u;
    }
  }

  lemma CountsSnoc(repos: seq<Repo>, init: seq<Repo>, last: Repo, r: Repo)
    requires repos == init + [last]
    ensures Counts(r, repos) <==> if last.url == r.url then r == last else Counts(r, init)
  {
    assert repos[|init|] == last;
    if last.url != r.url && Counts(r, init) {
      var i :| 0 <= i < |init| && init[i] == r && forall j :: i < j < |init| ==> init[j].url != r.url;
      assert repos[i] == r;
    }
    if Counts(r, repos) && last.url != r.url {
      var i :| 0 <= i < |repos| && repos[i] == r && forall j :: i < j < |repos| ==> repos[j].url != r.url;
      assert init[i] == r && forall j :: i < j < |init| ==> init[j].url == repos[j].url;
    }
  }

  lemma {:induction false} AddedMembers(urls: seq<string>, prev: ByUrl, next: ByUrl, r: Repo)
    requires Keyed(next) && forall u :: u in urls ==> u in next
    ensures r in Added(urls, prev, next) <==> r.url in urls && r.url !in prev && next[r.url] == r
  {
    if urls != [] {
      AddedMembers(urls[..|urls| - 1], prev, next, r);
      assert urls == urls[..|urls| - 1] + [urls[|urls| - 1]];
    }
  }

  lemma {:induction false} ModifiedMembers(urls: seq<string>, prev: ByUrl, next: ByUrl, changed: (Repo, Repo) -> seq<Field>, c: Change)
    requires Keyed(next) && forall u :: u in urls ==> u in next
    ensures c in Modified(urls, prev, next, changed) <==>
              && c.repo.url in urls && c.repo.url in prev && prev[c.repo.url] == c.prev && next[c.repo.url] == c.repo
              && c.fields == changed(c.prev, c.repo) != []
  {
    if urls != [] {
      ModifiedMembers(urls[..|urls| - 1], prev, next, changed, c);
      assert urls == urls[..|urls| - 1] + [urls[|urls| - 1]];
    }
  }

  lemma FieldsTell(p: Repo, n: Repo)
    ensures SafeChanged(p, n) != [] ==> TellsSafe(Change(p, n, SafeChanged(p, n)))
    ensures UnsafeChanged(p, n) != [] ==> TellsUnsafe(Change(p, n, UnsafeChanged(p, n)))
    ensures SafeChanged(p, n) == [] <==>
              p.labelPattern == n.labelPattern && p.testCommand == n.testCommand && p.buildCommand == n.buildCommand && p.teamId == n.teamId
    ensures UnsafeChanged(p, n) == [] <==> p.path == n.path && p.defaultBranch == n.defaultBranch
  {
  }

  lemma DiffTells(prev: seq<Repo>, next: seq<Repo>)
    ensures Tells(DiffOf(prev, next), prev, next)
  {
    var d, p, n := DiffOf(prev, next), IndexByUrl(prev), IndexByUrl(next);
    UrlOrderLists(prev);
    UrlOrderLists(next);
    forall u
      ensures u in p <==> Lists(prev, u)
      ensures u in n <==> Lists(next, u)
      ensures forall r: Repo :: r.url == u ==> (Counts(r, prev) <==> u in p && p[u] == r) && (Counts(r, next) <==> u in n && n[u] == r)
    {
      IndexCounts(prev, u);
      IndexCounts(next, u);
    }
    forall r
      ensures r in d.added <==> Counts(r, next) && !Lists(prev, r.url)
      ensures r in d.removed <==> Counts(r, prev) && !Lists(next, r.url)
    {
      AddedMembers(UrlOrder(next), p, n, r);
      AddedMembers(UrlOrder(prev), n, p, r);
    }
    ChangesTell(d, prev, next);
  }

  lemma ChangesTell(d: Diff, prev: seq<Repo>, next: seq<Repo>)
    requires d == DiffOf(prev, next)
    requires forall r: Repo :: Counts(r, prev) <==> r.url in IndexByUrl(prev) && IndexByUrl(prev)[r.url] == r
    requires forall r: Repo :: Counts(r, next) <==> r.url in IndexByUrl(next) && IndexByUrl(next)[r.url] == r
    ensures forall c :: c in d.modifiedSafe ==> Pair(c.prev, c.repo, prev, next) && TellsSafe(c)
    ensures forall c :: c in d.modifiedUnsafe ==> Pair(c.prev, c.repo, prev, next) && TellsUnsafe(c)
    ensures forall p, n :: Pair(p, n, prev, next) ==>
              && ((p.labelPattern != n.labelPattern || p.testCommand != n.testCommand || p.buildCommand != n.buildCommand || p.teamId != n.teamId) ==>
                    HasChange(d.modifiedSafe, p, n))
              && (p.path != n.path || p.defaultBranch != n.defaultBranch ==> HasChange(d.modifiedUnsafe, p, n))
  {
    UrlOrderLists(prev);
    UrlOrderLists(next);
    forall c
      ensures c in d.modifiedSafe ==> Pair(c.prev, c.repo, prev, next) && TellsSafe(c)
      ensures c in d.modifiedUnsafe ==> Pair(c.prev, c.repo, prev, next) && TellsUnsafe(c)
    {
      ModifiedMembers(UrlOrder(next), IndexByUrl(prev), IndexByUrl(next), SafeChanged, c);
      ModifiedMembers(UrlOrder(next), IndexByUrl(prev), IndexByUrl(next), UnsafeChanged, c);
      FieldsTell(c.prev, c.repo);
    }
    forall p, n | Pair(p, n, prev, next)
      ensures SafeChanged(p, n) != [] ==> HasChange(d.modifiedSafe, p, n)
      ensures UnsafeChanged(p, n) != [] ==> HasChange(d.modifiedUnsafe, p, n)
    {
      ModifiedMembers(UrlOrder(next), IndexByUrl(prev), IndexByUrl(next), SafeChanged, Change(p, n, SafeChanged(p, n)));
      ModifiedMembers(UrlOrder(next), IndexByUrl(prev), IndexByUrl(next), UnsafeChanged, Change(p, n, UnsafeChanged(p, n)));
    }
    forall p, n
      ensures SafeChanged(p, n) == [] <==>
                p.labelPattern == n.labelPattern && p.testCommand == n.testCommand && p.buildCommand == n.buildCommand && p.teamId == n.teamId
      ensures UnsafeChanged(p, n) == [] <==> p.path == n.path && p.defaultBranch == n.defaultBranch
    {
      FieldsTell(p, n);
    }
  }

  // ---------------------------------------------------------------- the code

  method DiffRepos(prev: seq<Repo>, next: seq<Repo>) returns (d: Diff)
    ensures d == DiffOf(prev, next)
  {
    var prevByUrl, nextByUrl := IndexByUrl(prev), IndexByUrl(next);
    UrlOrderLists(prev);
    UrlOrderLists(next);
    var added, modifiedSafe, modifiedUnsafe := WalkNext(UrlOrder(next), prevByUrl, nextByUrl);
    var removed := WalkPrev(UrlOrder(prev), prevByUrl, nextByUrl);
    d := Diff(added, removed, modifiedSafe, modifiedUnsafe);
  }

  /** The first loop: `for (const [url, next] of nextByUrl)`. */
  method WalkNext(urls: seq<string>, prevByUrl: ByUrl, nextByUrl: ByUrl)
    returns (added: seq<Repo>, modifiedSafe: seq<Change>, modifiedUnsafe: seq<Change>)
    requires forall u :: u in urls ==> u in nextByUrl
    ensures added == Added(urls, prevByUrl, nextByUrl)
    ensures modifiedSafe == Modified(urls, prevByUrl, nextByUrl, SafeChanged)
    ensures modifiedUnsafe == Modified(urls, prevByUrl, nextByUrl, UnsafeChanged)
  {
    added, modifiedSafe, modifiedUnsafe := [], [], [];
    for i := 0 to |urls|
      invariant added == Added(urls[..i], prevByUrl, nextByUrl)
      invariant modifiedSafe == Modified(urls[..i], prevByUrl, nextByUrl, SafeChanged)
      invariant modifiedUnsafe == Modified(urls[..i], prevByUrl, nextByUrl, UnsafeChanged)
    {
      var url := urls[i];
      AddedNext(urls, i, prevByUrl, nextByUrl);
      ModifiedNext(urls, i, prevByUrl, nextByUrl, SafeChanged);
      ModifiedNext(urls, i, prevByUrl, nextByUrl, UnsafeChanged);
      if url !in prevByUrl {
        added := added + [nextByUrl[url]];
        continue;
      }
      var p, n := prevByUrl[url], nextByUrl[url];
      var safeChanged := SafeChanged(p, n);
      var unsafeChanged := UnsafeChanged(p, n);
      if |safeChanged| > 0 {
        modifiedSafe := modifiedSafe + [Change(p, n, safeChanged)];
      }
      if |unsafeChanged| > 0 {
        modifiedUnsafe := modifiedUnsafe + [Change(p, n, unsafeChanged)];
      }
    }
    assert urls[..|urls|] == urls;
  }

  /** The second loop: `for (const [url, prev] of prevByUrl)`. */
  method WalkPrev(urls: seq<string>, prevByUrl: ByUrl, nextByUrl: ByUrl) returns (removed: seq<Repo>)
    requires forall u :: u in urls ==> u in prevByUrl
    ensures removed == Added(urls, nextByUrl, prevByUrl)
  {
    removed := [];
    for i := 0 to |urls|
      invariant removed == Added(urls[..i], nextByUrl, prevByUrl)
    {
      AddedNext(urls, i, nextByUrl, prevByUrl);
      if urls[i] !in nextByUrl {
        removed := removed + [prevByUrl[urls[i]]];
      }
    }
    assert urls[..|urls|] == urls;
  }

  // ---------------------------------------------------------------- a diff is a patch

  function Drop(m: ByUrl, repos: seq<Repo>): ByUrl {
    if repos == [] then m else Drop(m, repos[..|repos| - 1]) - {repos[|repos| - 1].url}
  }

  function Put(m: ByUrl, repos: seq<Repo>): ByUrl {
    if repos == [] then m else Put(m, repos[..|repos| - 1])[repos[|repos| - 1].url := repos[|repos| - 1]]
  }

  function PutChanges(m: ByUrl, changes: seq<Change>): ByUrl {
    if changes == [] then m
    else PutChanges(m, changes[..|changes| - 1])[changes[|changes| - 1].repo.url := changes[|changes| - 1].repo]
  }

  /** Remove, add and replace what the diff says, by URL. */
  function Patch(m: ByUrl, d: Diff): ByUrl {
    PutChanges(PutChanges(Put(Drop(m, d.removed), d.added), d.modifiedSafe), d.modifiedUnsafe)
  }

  ghost predicate Keyed(m: ByUrl) {
    forall u :: u in m ==> m[u].url == u
  }

  lemma DropSnoc(m: ByUrl, init: seq<Repo>, last: Repo)
    ensures Drop(m, init + [last]) == Drop(m, init) - {last.url}
  {
    InSnoc(init, last, last);
  }

  /** What dropping the entries of one map that are missing from another does to one URL. */
  lemma {:induction false} DropAt(m: ByUrl, urls: seq<string>, prev: ByUrl, next: ByUrl, u: string)
    requires Keyed(next) && forall v :: v in urls ==> v in next
    ensures var r := Drop(m, Added(urls, prev, next));
            && (u in r <==> u in m && !(u in urls && u !in prev))
            && (u in r ==> r[u] == m[u])
  {
    if urls != [] {
      var init, last := urls[..|urls| - 1], urls[|urls| - 1];
      assert urls == init + [last];
      InSnoc(init, last, u);
      DropAt(m, init, prev, next, u);
      if last !in prev {
        DropSnoc(m, Added(init, prev, next), next[last]);
      }
    }
  }

  lemma PutSnoc(m: ByUrl, init: seq<Repo>, last: Repo)
    ensures Put(m, init + [last]) == Put(m, init)[last.url := last]
  {
    InSnoc(init, last, last);
  }

  lemma {:induction false} PutAt(m: ByUrl, urls: seq<string>, prev: ByUrl, next: ByUrl, u: string)
    requires Keyed(next) && forall v :: v in urls ==> v in next
    ensures var r := Put(m, Added(urls, prev, next));
            && (u in r <==> u in m || (u in urls && u !in prev))
            && (u in r ==> r[u] == if u in urls && u !in prev then next[u] else m[u])
  {
    if urls != [] {
      var init, last := urls[..|urls| - 1], urls[|urls| - 1];
      assert urls == init + [last];
      InSnoc(init, last, u);
      PutAt(m, init, prev, next, u);
      if last !in prev {
        PutSnoc(m, Added(init, prev, next), next[last]);
      }
    }
  }

  lemma {:induction false} ModifiedAt(m: ByUrl, urls: seq<string>, prev: ByUrl, next: ByUrl, changed: (Repo, Repo) -> seq<Field>, u: string)
    requires Keyed(next) && forall v :: v in urls ==> v in next
    ensures var r, hit := PutChanges(m, Modified(urls, prev, next, changed)), u in urls && u in prev && changed(prev[u], next[u]) != [];
            && (u in r <==> u in m || hit)
            && (u in r ==> r[u] == if hit then next[u] else m[u])
  {
    if urls != [] {
      var init, last := urls[..|urls| - 1], urls[|urls| - 1];
      assert urls == init + [last];
      InSnoc(init, last, u);
      ModifiedAt(m, init, prev, next, changed, u);
      if last in prev && changed(prev[last], next[last]) != [] {
        var one := Change(prev[last], next[last], changed(prev[last], next[last]));
        InSnoc(Modified(init, prev, next, changed), one, one);
        assert PutChanges(m, Modified(urls, prev, next, changed)) == PutChanges(m, Modified(init, prev, next, changed))[last := next[last]];
      }
    }
  }

  lemma UnchangedIsEqual(p: Repo, n: Repo)
    requires p.url == n.url && SafeChanged(p, n) == [] && UnsafeChanged(p, n) == []
    ensures p == n
  {
  }

  lemma PatchAt(prev: seq<Repo>, next: seq<Repo>, u: string)
    ensures var r, n := Patch(IndexByUrl(prev), DiffOf(prev, next)), IndexByUrl(next);
            (u in r <==> u in n) && (u in n ==> r[u] == n[u])
  {
    var p, n, d := IndexByUrl(prev), IndexByUrl(next), DiffOf(prev, next);
    UrlOrderLists(prev);
    UrlOrderLists(next);
    DropAt(p, UrlOrder(prev), n, p, u);
    var a := Drop(p, d.removed);
    PutAt(a, UrlOrder(next), p, n, u);
    var b := Put(a, d.added);
    ModifiedAt(b, UrlOrder(next), p, n, SafeChanged, u);
    ModifiedAt(PutChanges(b, d.modifiedSafe), UrlOrder(next), p, n, UnsafeChanged, u);
    if u in p && u in n && SafeChanged(p[u], n[u]) == [] && UnsafeChanged(p[u], n[u]) == [] {
      UnchangedIsEqual(p[u], n[u]);
    }
  }

  /** Applying the diff to the previous config gives the next one. */
  lemma PatchExact(prev: seq<Repo>, next: seq<Repo>)
    ensures Patch(IndexByUrl(prev), DiffOf(prev, next)) == IndexByUrl(next)
  {
    forall u
      ensures var r, n := Patch(IndexByUrl(prev), DiffOf(prev, next)), IndexByUrl(next);
              (u in r <==> u in n) && (u in n ==> r[u] == n[u])
    {
      PatchAt(prev, next, u);
    }
  }

  /** The diff is empty exactly when nothing changed. */
  lemma EmptyDiffExact(prev: seq<Repo>, next: seq<Repo>)
    ensures DiffOf(prev, next) == NO_DIFF <==> IndexByUrl(prev) == IndexByUrl(next)
  {
    var p, n := IndexByUrl(prev), IndexByUrl(next);
    if DiffOf(prev, next) == NO_DIFF {
      PatchExact(prev, next);
    } else if p == n {
      UrlOrderLists(prev);
      UrlOrderLists(next);
      NoneAdded(UrlOrder(next), p, n);
      NoneAdded(UrlOrder(prev), n, p);
      NoneModified(UrlOrder(next), p, n);
    }
  }

  lemma {:induction false} NoneAdded(urls: seq<string>, prev: ByUrl, next: ByUrl)
    requires forall u :: u in urls ==> u in next && u in prev
    ensures Added(urls, prev, next) == []
  {
    if urls != [] {
      NoneAdded(urls[..|urls| - 1], prev, next);
      assert urls[|urls| - 1] in urls;
    }
  }

  lemma {:induction false} NoneModified(urls: seq<string>, prev: ByUrl, next: ByUrl)
    requires forall u :: u in urls ==> u in next && (u in prev ==> prev[u] == next[u])
    ensures Modified(urls, prev, next, SafeChanged) == [] == Modified(urls, prev, next, UnsafeChanged)
  {
    if urls != [] {
      NoneModified(urls[..|urls| - 1], prev, next);
      assert urls[|urls| - 1] in urls;
    }
  }

  // ---------------------------------------------------------------- the watcher

  /** What reading the file gives: a validated config, no file, or a validation error. */
  datatype ReadResult = Loaded(repos: seq<Repo>) | Missing | Invalid(message: string)

  function PatchAll(m: ByUrl, diffs: seq<Diff>): ByUrl {
    if diffs == [] then m else Patch(PatchAll(m, diffs[..|diffs| - 1]), diffs[|diffs| - 1])
  }

  lemma PatchNext(m: ByUrl, diffs: seq<Diff>, d: Diff)
    ensures PatchAll(m, diffs + [d]) == Patch(PatchAll(m, diffs), d)
    ensures forall e :: e in diffs + [d] ==> e in diffs || e == d
  {
    assert (diffs + [d])[..|diffs|] == diffs;
  }

  class ConfigWatcher {
    var current: seq<Repo>
    const initial: seq<Repo>
    /** The `applied` events emitted so far. */
    var applied: seq<Diff>
    /** The number of `error` events emitted so far. */
    var errors: nat

    /** The emitted diffs compose to the step from the initial config to the current one. */
    ghost predicate Valid()
      reads this
    {
      && PatchAll(IndexByUrl(initial), applied) == IndexByUrl(current)
      && forall d :: d in applied ==> d != NO_DIFF
    }

    constructor (repos: seq<Repo>)
      ensures Valid() && current == repos == initial && applied == [] && errors == 0
    {
      initial, current, applied, errors := repos, repos, [], 0;
    }

    method HandleChange(read: ReadResult)
      requires Valid()
      modifies this
      ensures Valid()
      ensures !read.Loaded? ==> current == old(current) && applied == old(applied)
      ensures errors == old(errors) + if read.Invalid? then 1 else 0
      ensures read.Loaded? ==>
                && current == read.repos
                && applied == old(applied) + if IndexByUrl(old(current)) == IndexByUrl(read.repos) then [] else [DiffOf(old(current), read.repos)]
    {
      match read {
        case Invalid(_) =>
          errors := errors + 1;
        case Missing =>
        case Loaded(next) =>
          var diff := DiffRepos(current, next);
          PatchExact(current, next);
          EmptyDiffExact(current, next);
          var isEmpty := |diff.added| == 0 && |diff.removed| == 0 && |diff.modifiedSafe| == 0 && |diff.modifiedUnsafe| == 0;
          current := next;
          if !isEmpty {
            PatchNext(IndexByUrl(initial), applied, diff);
            applied := applied + [diff];
          }
      }
    }
  }
}
