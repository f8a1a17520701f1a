/**
 * Patching the live repo map on a config reload (packages/cli/src/commands/start.ts) against
 * rebuilding it from scratch (packages/cli/src/lib/build-repo-configs.ts).
 */
module HotReload {
  import opened Prelude
  import opened ConfigDiff
  import opened RepoKeys

  datatype Entry = Entry(url: string, defaultBranch: string, testCommand: string, buildCommand: string, labelPattern: Option<string>)

  type Live = map<string, Entry>

  // ---------------------------------------------------------------- entries

  function Present(label_: Option<string>): Option<string> {
    if label_ == Some("") then None else label_
  }

  function EntryOf(r: Repo): Entry {
    Entry(r.url, r.defaultBranch, r.testCommand, r.buildCommand, Present(r.labelPattern))
  }

  /** An empty `labelPattern` is as good as none to every reader of the entry. */
  function View(e: Entry): Entry {
    e.(labelPattern := Present(e.labelPattern))
  }

  function ViewAll(live: Live): Live {
    map k | k in live :: View(live[k])
  }

  // ---------------------------------------------------------------- the map in terms of the config

  ghost predicate IsEntry(e: Entry, r: Repo) {
    && e.url == r.url && e.defaultBranch == r.defaultBranch && e.testCommand == r.testCommand && e.buildCommand == r.buildCommand
    && e.labelPattern == (if r.labelPattern.Some? && r.labelPattern.value != "" then r.labelPattern else None)
  }

  /** Each key that an entry of the config has, with the last entry that has it. */
  ghost predicate Shows(live: Live, repos: seq<Repo>) {
    && (forall k, i :: 0 <= i < |repos| && IsKey(k, repos[i]) ==> k in live)
    && (forall k :: k in live ==> exists i :: IsLastWith(k, repos, i) && IsEntry(live[k], repos[i]))
  }

  ghost predicate IsLastWith(k: string, repos: seq<Repo>, i: int) {
    0 <= i < |repos| && IsKey(k, repos[i]) && forall j :: i < j < |repos| ==> !IsKey(k, repos[j])
  }

  lemma LastWithSnoc(k: string, init: seq<Repo>, last: Repo, i: int)
    requires IsLastWith(k, init, i) && !IsKey(k, last)
    ensures IsLastWith(k, init + [last], i) && (init + [last])[i] == init[i]
  {
    forall j | i < j < |init + [last]|
      ensures !IsKey(k, (init + [last])[j])
    {
      assert j < |init| ==> (init + [last])[j] == init[j];
    }
  }

  lemma ShowsEntry(live: Live, init: seq<Repo>, last: Repo, k: string)
    requires Shows(live, init) && k in live[Key(last) := EntryOf(last)]
    ensures exists i :: IsLastWith(k, init + [last], i) && IsEntry(live[Key(last) := EntryOf(last)][k], (init + [last])[i])
  {
    KeyExactly(k, last);
    if k == Key(last) {
      assert IsLastWith(k, init + [last], |init|);
    } else {
      var i :| IsLastWith(k, init, i) && IsEntry(live[k], init[i]);
      LastWithSnoc(k, init, last, i);
    }
  }

  lemma ShowsSnoc(live: Live, init: seq<Repo>, last: Repo)
    requires Shows(live, init)
    ensures Shows(live[Key(last) := EntryOf(last)], init + [last])
  {
    var repos, longer := init + [last], live[Key(last) := EntryOf(last)];
    forall k, i | 0 <= i < |repos| && IsKey(k, repos[i])
      ensures k in longer
    {
      KeyExactly(k, last);
      assert i < |init| ==> repos[i] == init[i];
    }
    forall k | k in longer
      ensures exists i :: IsLastWith(k, repos, i) && IsEntry(longer[k], repos[i])
    {
      ShowsEntry(live, init, last, k);
    }
  }

  lemma {:induction false} RebuildShows(repos: seq<Repo>)
    ensures Shows(Rebuild(repos), repos)
  {
    if repos != [] {
      var init, last := repos[..|repos| - 1], repos[|repos| - 1];
      RebuildShows(init);
      ShowsSnoc(Rebuild(init), init, last);
      assert repos == init + [last];
    }
  }

  // ---------------------------------------------------------------- the rebuild

  function Rebuild(repos: seq<Repo>): Live {
    if repos == [] then map[]
    else Rebuild(repos[..|repos| - 1])[Key(repos[|repos| - 1]) := EntryOf(repos[|repos| - 1])]
  }

  method BuildRepoConfigs(repos: seq<Repo>) returns (live: Live)
    ensures live == Rebuild(repos)
    ensures Shows(live, repos)
  {
    RebuildShows(repos);
    live := map[];
    for i := 0 to |repos|
      invariant live == Rebuild(repos[..i])
    {
      var entry := EntryOf(repos[i]);
      var key := Key(repos[i]);
      live := live[key := entry];
      assert repos[..i + 1][..i] == repos[..i];
    }
    assert repos[..|repos|] == repos;
  }

  // ---------------------------------------------------------------- the `applied` handler

  function ApplyAdded(live: Live, added: seq<Repo>): Live {
    if added == [] then live
    else ApplyAdded(live, added[..|added| - 1])[Key(added[|added| - 1]) := EntryOf(added[|added| - 1])]
  }

  function Updated(e: Entry, m: Change): Entry {
    var e := if TestCommand in m.fields then e.(testCommand := m.repo.testCommand) else e;
    var e := if BuildCommand in m.fields then e.(buildCommand := m.repo.buildCommand) else e;
    if LabelPattern in m.fields then e.(labelPattern := m.repo.labelPattern) else e
  }

  /** The entry is looked up under the old key, updated, and moved when its key changed. */
  function ApplyChange(live: Live, m: Change): Live {
    var oldKey, newKey := Key(m.prev), Key(m.repo);
    if oldKey !in live then live
    else
      var existing := Updated(live[oldKey], m);
      if TeamId in m.fields && newKey != oldKey then (live - {oldKey})[newKey := existing]
      else live[oldKey := existing]
  }

  function ApplyChanges(live: Live, changes: seq<Change>): Live {
    if changes == [] then live
    else ApplyChange(ApplyChanges(live, changes[..|changes| - 1]), changes[|changes| - 1])
  }

  function ApplyRemoved(live: Live, removed: seq<Repo>): Live {
    if removed == [] then live
    else ApplyRemoved(live, removed[..|removed| - 1]) - {Key(removed[|removed| - 1])}
  }

  function Applied(live: Live, d: Diff): Live {
    ApplyRemoved(ApplyChanges(ApplyAdded(live, d.added), d.modifiedSafe), d.removed)
  }

  class RunnerConfig {
    var repoConfigs: Live

    constructor (repos: seq<Repo>)
      ensures repoConfigs == Rebuild(repos)
    {
      new;
      repoConfigs := BuildRepoConfigs(repos);
    }

    method OnApplied(diff: Diff)
      modifies this
      ensures repoConfigs == Applied(old(repoConfigs), diff)
    {
      for i := 0 to |diff.added|
        invariant repoConfigs == ApplyAdded(old(repoConfigs), diff.added[..i])
      {
        var r := diff.added[i];
        repoConfigs := repoConfigs[Key(r) := EntryOf(r)];
        assert diff.added[..i + 1][..i] == diff.added[..i];
      }
      assert diff.added[..|diff.added|] == diff.added;
      for i := 0 to |diff.modifiedSafe|
        invariant repoConfigs == ApplyChanges(ApplyAdded(old(repoConfigs), diff.added), diff.modifiedSafe[..i])
      {
        OnChange(diff.modifiedSafe[i]);
        assert diff.modifiedSafe[..i + 1][..i] == diff.modifiedSafe[..i];
      }
      assert diff.modifiedSafe[..|diff.modifiedSafe|] == diff.modifiedSafe;
      for i := 0 to |diff.removed|
        invariant repoConfigs == ApplyRemoved(ApplyChanges(ApplyAdded(old(repoConfigs), diff.added), diff.modifiedSafe), diff.removed[..i])
      {
        repoConfigs := repoConfigs - {Key(diff.removed[i])};
        assert diff.removed[..i + 1][..i] == diff.removed[..i];
      }
      assert diff.removed[..|diff.removed|] == diff.removed;
    }

    method OnChange(m: Change)
      modifies this
      ensures repoConfigs == ApplyChange(old(repoConfigs), m)
    {
      var oldKey := Key(m.prev);
      if oldKey in repoConfigs {
        var existing := repoConfigs[oldKey];
        if TestCommand in m.fields {
          existing := existing.(testCommand := m.repo.testCommand);
        }
        if BuildCommand in m.fields {
          existing := existing.(buildCommand := m.repo.buildCommand);
        }
        if LabelPattern in m.fields {
          existing := existing.(labelPattern := m.repo.labelPattern);
        }
        var newKey := Key(m.repo);
        if TeamId in m.fields && newKey != oldKey {
          repoConfigs := repoConfigs - {oldKey};
          repoConfigs := repoConfigs[newKey := existing];
        } else {
          repoConfigs := repoConfigs[oldKey := existing];
        }
      }
    }
  }
}
