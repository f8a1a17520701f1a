/** The three loops of a reload, step by step: a followable edit brings every shown entry to its place. */
module HotReloadPhases {
  import opened Prelude
  import opened ConfigDiff
  import opened RepoKeys
  import opened HotReload
  import opened Slots
  import opened HotReloadSync

  // ---------------------------------------------------------------- one change

  lemma ViewPut(live: Live, k: string, e: Entry)
    ensures ViewAll(live[k := e]) == ViewAll(live)[k := View(e)]
  {
  }

  lemma ViewDrop(live: Live, k: string)
    ensures ViewAll(live - {k}) == ViewAll(live) - {k}
  {
  }

  lemma UpdatedIsWanted(e: Entry, p: Repo, n: Repo, branches: Branches, branches': Branches)
    requires p.url == n.url && p.url in branches && p.url in branches' && branches'[p.url] == branches[p.url]
    requires View(e) == EntryOf(WithBranch(p, branches))
    ensures View(Updated(e, Change(p, n, SafeChanged(p, n)))) == EntryOf(WithBranch(n, branches'))
    ensures SafeChanged(p, n) == [] ==> View(e) == EntryOf(WithBranch(n, branches'))
  {
    var f := SafeChanged(p, n);
    assert TestCommand in f <==> p.testCommand != n.testCommand;
    assert BuildCommand in f <==> p.buildCommand != n.buildCommand;
    assert LabelPattern in f <==> p.labelPattern != n.labelPattern;
    assert f == [] ==> p.testCommand == n.testCommand && p.buildCommand == n.buildCommand && p.labelPattern == n.labelPattern;
  }

  lemma KeyChange(p: Repo, n: Repo)
    requires p.url == n.url
    ensures Key(p) != Key(n) ==> TeamId in SafeChanged(p, n) && SafeChanged(p, n) != []
  {
  }

  lemma MoveEntry(live: Live, oldKey: string, newKey: string, e: Entry)
    requires oldKey in live
    ensures ViewAll((live - {oldKey})[newKey := e]) == (ViewAll(live) - {oldKey})[newKey := View(e)]
    ensures ViewAll(live[oldKey := e]) == (ViewAll(live) - {oldKey})[oldKey := View(e)]
  {
    ViewDrop(live, oldKey);
    ViewPut(live - {oldKey}, newKey, e);
    ViewPut(live - {oldKey}, oldKey, e);
    assert live[oldKey := e] == (live - {oldKey})[oldKey := e];
  }

  /** A change moves one entry, whether or not its key is a new one. */
  lemma KeptMoves(live: Live, p: Repo, n: Repo, branches: Branches, branches': Branches)
    requires p.url == n.url && Key(p) in live
    requires p.url in branches && p.url in branches' && branches'[p.url] == branches[p.url]
    requires View(live[Key(p)]) == EntryOf(WithBranch(p, branches))
    ensures var f := SafeChanged(p, n);
            ViewAll(if f != [] then ApplyChange(live, Change(p, n, f)) else live)
            == (ViewAll(live) - {Key(p)})[Key(n) := EntryOf(WithBranch(n, branches'))]
  {
    UpdatedIsWanted(live[Key(p)], p, n, branches, branches');
    KeyChange(p, n);
    MoveEntry(live, Key(p), Key(n), Updated(live[Key(p)], Change(p, n, SafeChanged(p, n))));
    if SafeChanged(p, n) == [] {
      MoveEntry(live, Key(p), Key(n), live[Key(p)]);
      assert live[Key(p) := live[Key(p)]] == live;
    }
  }

  // ---------------------------------------------------------------- sufficiency

  function OldEntry(e: Edit, branches: Branches, u: string): Entry
    requires u in e.p
  {
    EntryOf(WithBranch(e.p[u], branches))
  }

  function NewEntry(e: Edit, branches: Branches, u: string): Entry
    requires u in e.n
  {
    EntryOf(WithBranch(e.n[u], Remember(branches, e.p, e.n)))
  }

  /** The entries already processed are in place. */
  ghost predicate Arrived(live: Live, e: Edit, branches: Branches, done: set<string>)
    requires Within(e.shown, e.n)
  {
    forall u :: u in e.shown && u in done ==> Key(e.n[u]) in live && View(live[Key(e.n[u])]) == NewEntry(e, branches, u)
  }

  /** The kept entries still to come are where they were. */
  ghost predicate Waiting(live: Live, e: Edit, branches: Branches, done: set<string>) {
    forall u :: u in e.shown && u in e.p && u !in done ==> Key(e.p[u]) in live && View(live[Key(e.p[u])]) == OldEntry(e, branches, u)
  }

  ghost predicate Wanted(e: Edit, k: string) {
    exists u :: u in e.shown && Key(e.shown[u]) == k
  }

  /** The key of a removed entry. */
  ghost predicate Freed(e: Edit, k: string) {
    exists u :: u in e.p && u !in e.n && Key(e.p[u]) == k
  }

  ghost predicate Held(e: Edit, done: set<string>, k: string) {
    exists u :: u in e.shown && u in e.p && u !in done && Key(e.p[u]) == k
  }

  ghost predicate Explained(e: Edit, done: set<string>, k: string) {
    Wanted(e, k) || Freed(e, k) || Held(e, done, k)
  }

  /** Every key is wanted, or given up later on. */
  ghost predicate Accounted(live: Live, e: Edit, done: set<string>) {
    forall k :: k in live ==> Explained(e, done, k)
  }

  /** A reload half way through. */
  ghost predicate HalfWay(live: Live, e: Edit, branches: Branches, done: set<string>)
    requires Within(e.shown, e.n)
  {
    Arrived(live, e, branches, done) && Waiting(live, e, branches, done) && Accounted(live, e, done)
  }

  ghost predicate Followable(e: Edit) {
    Sound(e) && HiddenUntouched(e) && HandoverOk(e) && NoneRevealed(e)
  }

  lemma StartsHalfWay(live: Live, e: Edit, branches: Branches)
    requires Followable(e) && Synced(live, e.shownBefore, branches)
    ensures HalfWay(live, e, branches, {})
  {
    forall u | u in e.shown && u in e.p
      ensures Key(e.p[u]) in live && View(live[Key(e.p[u])]) == OldEntry(e, branches, u)
    {
      assert KeyMap(e.shownBefore)[u] == Key(e.p[u]) && WantMap(e.shownBefore, branches)[u] == OldEntry(e, branches, u);
    }
    forall k | k in live
      ensures Explained(e, {}, k)
    {
      assert k in ViewAll(live);
      var u :| u in KeyMap(e.shownBefore) && KeyMap(e.shownBefore)[u] == k;
      StartsAccounted(e, u);
    }
  }

  lemma StartsAccounted(e: Edit, u: string)
    requires Followable(e) && u in e.shownBefore
    ensures Explained(e, {}, Key(e.p[u]))
  {
    if u in e.n && u !in e.shown {
      KeyChange(e.p[u], e.n[u]);
      assert Hides(e, u);
    }
  }

  lemma ShownKeysDiffer(e: Edit, u: string, v: string)
    requires Sound(e) && u in e.shown && v in e.shown && u != v
    ensures Key(e.n[u]) != Key(e.n[v])
  {
    assert KeyMap(e.shown)[u] == Key(e.n[u]) && KeyMap(e.shown)[v] == Key(e.n[v]);
  }

  lemma HiderComesLater(e: Edit, u: string, v: string)
    requires Sound(e) && u in e.n && u !in e.shown && v in e.shown && Key(e.n[u]) == Key(e.n[v])
    ensures Before(e.order, u, v)
  {
    assert Hides(e, u);
    var w :| w in e.shown && Key(e.shown[w]) == Key(e.n[u]) && Before(e.order, u, w);
    if w != v {
      ShownKeysDiffer(e, w, v);
    }
  }

  lemma KeyWanted(e: Edit, u: string)
    requires Sound(e) && u in e.n
    ensures Wanted(e, Key(e.n[u]))
  {
    assert u in e.shown || Hides(e, u);
  }

  /** An added entry goes in; if it is a hidden one, the entry that hides it is still to come. */
  lemma AddArrived(live: Live, after: Live, e: Edit, branches: Branches, done: set<string>, u: string)
    requires Sound(e) && u in e.n && u !in e.p && after == live[Key(e.n[u]) := EntryOf(e.n[u])]
    requires forall v :: v in done ==> v !in e.p && !Before(e.order, u, v)
    requires Arrived(live, e, branches, done)
    ensures Arrived(after, e, branches, done + {u})
  {
    forall v | v in e.shown && v in done + {u}
      ensures Key(e.n[v]) in after && View(after[Key(e.n[v])]) == NewEntry(e, branches, v)
    {
      if v != u && Key(e.n[v]) == Key(e.n[u]) {
        if u in e.shown {
          ShownKeysDiffer(e, u, v);
        } else {
          HiderComesLater(e, u, v);
        }
      }
    }
  }

  /** What an added entry takes is nobody's who is still to come. */
  lemma AddTakes(e: Edit, u: string, v: string)
    requires HandoverOk(e) && u in e.n && u !in e.p && v in e.shown && v in e.p
    ensures Key(e.n[u]) != Key(e.p[v])
  {
    assert HandsOver(e, u, v);
  }

  lemma AddWaiting(live: Live, after: Live, e: Edit, branches: Branches, done: set<string>, u: string, k: string, entry: Entry)
    requires after == live[k := entry] && forall v :: v in e.shown && v in e.p ==> Key(e.p[v]) != k
    requires Waiting(live, e, branches, done)
    ensures Waiting(after, e, branches, done + {u})
  {
  }

  lemma StillExplained(e: Edit, done: set<string>, u: string, k: string)
    requires Explained(e, done, k) && (u in e.p ==> Key(e.p[u]) != k)
    ensures Explained(e, done + {u}, k)
  {
    if Held(e, done, k) {
      var v :| v in e.shown && v in e.p && v !in done && Key(e.p[v]) == k;
      assert v !in done + {u};
    }
  }

  lemma AddAccounted(live: Live, after: Live, e: Edit, done: set<string>, u: string)
    requires Sound(e) && u in e.n && u !in e.p && after == live[Key(e.n[u]) := EntryOf(e.n[u])]
    requires Accounted(live, e, done)
    ensures Accounted(after, e, done + {u})
  {
    KeyWanted(e, u);
    forall k | k in after
      ensures Explained(e, done + {u}, k)
    {
      if k != Key(e.n[u]) {
        StillExplained(e, done, u, k);
      }
    }
  }

  lemma AddStep(live: Live, after: Live, e: Edit, branches: Branches, done: set<string>, u: string)
    requires Followable(e) && u in e.n && u !in e.p && after == live[Key(e.n[u]) := EntryOf(e.n[u])]
    requires forall v :: v in done ==> v !in e.p && !Before(e.order, u, v)
    requires HalfWay(live, e, branches, done)
    ensures HalfWay(after, e, branches, done + {u})
  {
    AddArrived(live, after, e, branches, done, u);
    forall v | v in e.shown && v in e.p
      ensures Key(e.p[v]) != Key(e.n[u])
    {
      AddTakes(e, u, v);
    }
    AddWaiting(live, after, e, branches, done, u, Key(e.n[u]), EntryOf(e.n[u]));
    AddAccounted(live, after, e, done, u);
  }

  // ---------------------------------------------------------------- kept entries

  function KeepUrl(live: Live, p: ByUrl, n: ByUrl, u: string): Live
    requires u in n
  {
    if u in p && SafeChanged(p[u], n[u]) != [] then ApplyChange(live, Change(p[u], n[u], SafeChanged(p[u], n[u]))) else live
  }

  /** What a shown entry's change does, through `View`. */
  ghost predicate Moves(live: Live, after: Live, e: Edit, branches: Branches, u: string)
    requires u in e.p && u in e.n
  {
    ViewAll(after) == (ViewAll(live) - {Key(e.p[u])})[Key(e.n[u]) := NewEntry(e, branches, u)]
  }

  lemma KeepMoves(live: Live, e: Edit, branches: Branches, done: set<string>, u: string)
    requires Sound(e) && e.p.Keys <= branches.Keys && u in e.shown && u in e.p && u !in done && Waiting(live, e, branches, done)
    ensures Moves(live, KeepUrl(live, e.p, e.n, u), e, branches, u)
  {
    KeptMoves(live, e.p[u], e.n[u], branches, Remember(branches, e.p, e.n));
  }

  lemma MovedAt(live: Live, after: Live, e: Edit, branches: Branches, u: string, k: string)
    requires u in e.p && u in e.n && Moves(live, after, e, branches, u)
    ensures k == Key(e.n[u]) ==> k in after && View(after[k]) == NewEntry(e, branches, u)
    ensures k != Key(e.n[u]) && k != Key(e.p[u]) ==> (k in after <==> k in live) && (k in after ==> View(after[k]) == View(live[k]))
    ensures k in after && k != Key(e.n[u]) ==> k in live && k != Key(e.p[u])
  {
    assert k in after <==> k in ViewAll(after);
    assert k in live <==> k in ViewAll(live);
  }

  /** What a shown entry leaves was not taken yet. */
  lemma LeftIsNotTaken(e: Edit, u: string, v: string)
    requires Sound(e) && HandoverOk(e) && u in e.shown && u in e.p && v in e.shown && u != v && (v in e.p ==> !Before(e.order, u, v))
    ensures Key(e.n[v]) != Key(e.p[u]) && Key(e.n[v]) != Key(e.n[u])
  {
    ShownKeysDiffer(e, u, v);
    assert HandsOver(e, v, u);
  }

  lemma KeepArrived(live: Live, after: Live, e: Edit, branches: Branches, done: set<string>, u: string)
    requires Within(e.shown, e.n) && u in e.shown && u in e.p && Moves(live, after, e, branches, u)
    requires forall v :: v in done && v in e.shown && v != u ==> Key(e.n[v]) != Key(e.p[u]) && Key(e.n[v]) != Key(e.n[u])
    requires Arrived(live, e, branches, done)
    ensures Arrived(after, e, branches, done + {u})
  {
    forall v | v in e.shown && v in done + {u}
      ensures Key(e.n[v]) in after && View(after[Key(e.n[v])]) == NewEntry(e, branches, v)
    {
      MovedAt(live, after, e, branches, u, Key(e.n[v]));
    }
  }

  /** What a shown entry takes has been left. */
  lemma TakenWasLeft(e: Edit, u: string, v: string)
    requires Sound(e) && HandoverOk(e) && NoneRevealed(e) && u in e.shown && u in e.p && v in e.shown && v in e.p && u != v && !Before(e.order, v, u)
    ensures Key(e.p[v]) != Key(e.p[u]) && Key(e.p[v]) != Key(e.n[u])
  {
    assert KeyMap(e.shownBefore)[u] == Key(e.p[u]) && KeyMap(e.shownBefore)[v] == Key(e.p[v]);
    assert HandsOver(e, u, v);
  }

  lemma KeepWaiting(live: Live, after: Live, e: Edit, branches: Branches, done: set<string>, u: string)
    requires Within(e.shown, e.n) && u in e.shown && u in e.p && Moves(live, after, e, branches, u)
    requires forall v :: v in e.shown && v in e.p && v !in done + {u} ==> Key(e.p[v]) != Key(e.p[u]) && Key(e.p[v]) != Key(e.n[u])
    requires Waiting(live, e, branches, done)
    ensures Waiting(after, e, branches, done + {u})
  {
    forall v | v in e.shown && v in e.p && v !in done + {u}
      ensures Key(e.p[v]) in after && View(after[Key(e.p[v])]) == OldEntry(e, branches, v)
    {
      MovedAt(live, after, e, branches, u, Key(e.p[v]));
    }
  }

  lemma KeepAccounted(live: Live, after: Live, e: Edit, branches: Branches, done: set<string>, u: string)
    requires Sound(e) && u in e.shown && u in e.p && Moves(live, after, e, branches, u)
    requires Accounted(live, e, done)
    ensures Accounted(after, e, done + {u})
  {
    KeyWanted(e, u);
    forall k | k in after
      ensures Explained(e, done + {u}, k)
    {
      MovedAt(live, after, e, branches, u, k);
      if k != Key(e.n[u]) {
        StillExplained(e, done, u, k);
      }
    }
  }

  lemma ShownStep(live: Live, after: Live, e: Edit, branches: Branches, done: set<string>, u: string)
    requires Followable(e) && e.p.Keys <= branches.Keys && u in e.shown && u in e.p && u !in done && after == KeepUrl(live, e.p, e.n, u)
    requires forall v :: v in done && v in e.p ==> !Before(e.order, u, v)
    requires forall v :: v in e.shown && v in e.p && Before(e.order, v, u) ==> v in done
    requires HalfWay(live, e, branches, done)
    ensures HalfWay(after, e, branches, done + {u})
  {
    KeepMoves(live, e, branches, done, u);
    forall v | v in done && v in e.shown && v != u
      ensures Key(e.n[v]) != Key(e.p[u]) && Key(e.n[v]) != Key(e.n[u])
    {
      LeftIsNotTaken(e, u, v);
    }
    forall v | v in e.shown && v in e.p && v !in done + {u}
      ensures Key(e.p[v]) != Key(e.p[u]) && Key(e.p[v]) != Key(e.n[u])
    {
      TakenWasLeft(e, u, v);
    }
    KeepArrived(live, after, e, branches, done, u);
    KeepWaiting(live, after, e, branches, done, u);
    KeepAccounted(live, after, e, branches, done, u);
  }

  // ---------------------------------------------------------------- the phases

  lemma PrefixSnoc(order: seq<string>, i: nat)
    requires i < |order| && forall a, b :: 0 <= a < b < |order| ==> order[a] != order[b]
    ensures order[..i + 1] == order[..i] + [order[i]] && order[i] !in order[..i]
    ensures forall v :: v in order[..i] ==> Before(order, v, order[i]) && !Before(order, order[i], v)
    ensures forall v :: Before(order, v, order[i]) ==> v in order[..i]
  {
    forall v | v in order[..i]
      ensures Before(order, v, order[i]) && !Before(order, order[i], v)
    {
      var a :| 0 <= a < i && order[..i][a] == v;
      assert order[a] == v;
    }
    forall v | Before(order, v, order[i])
      ensures v in order[..i]
    {
      var a, b :| 0 <= a < b < |order| && order[a] == v && order[b] == order[i];
      assert order[..i][a] == v;
    }
  }

  /** The added entries among `urls`. */
  function AddedSet(urls: seq<string>, p: ByUrl): set<string> {
    set u | u in urls && u !in p
  }

  lemma AddedSnoc(live: Live, init: seq<string>, last: string, p: ByUrl, n: ByUrl)
    requires last in n && forall u :: u in init ==> u in n
    ensures ApplyAdded(live, Added(init + [last], p, n)) ==
              if last in p then ApplyAdded(live, Added(init, p, n))
              else ApplyAdded(live, Added(init, p, n))[Key(n[last]) := EntryOf(n[last])]
  {
    InSnoc(init, last, last);
    InSnoc(Added(init, p, n), n[last], n[last]);
  }

  lemma AddedSetSnoc(init: seq<string>, last: string, p: ByUrl)
    ensures AddedSet(init + [last], p) == if last in p then AddedSet(init, p) else AddedSet(init, p) + {last}
  {
  }

  lemma AddNext(live: Live, e: Edit, branches: Branches, i: nat)
    requires Followable(e) && i < |e.order|
    requires HalfWay(ApplyAdded(live, Added(e.order[..i], e.p, e.n)), e, branches, AddedSet(e.order[..i], e.p))
    ensures HalfWay(ApplyAdded(live, Added(e.order[..i + 1], e.p, e.n)), e, branches, AddedSet(e.order[..i + 1], e.p))
  {
    var init, u := e.order[..i], e.order[i];
    PrefixSnoc(e.order, i);
    AddedSnoc(live, init, u, e.p, e.n);
    AddedSetSnoc(init, u, e.p);
    if u !in e.p {
      AddStep(ApplyAdded(live, Added(init, e.p, e.n)), ApplyAdded(live, Added(e.order[..i + 1], e.p, e.n)), e, branches, AddedSet(init, e.p), u);
    }
  }

  lemma {:induction false} AddPhase(live: Live, e: Edit, branches: Branches, i: nat)
    requires Followable(e) && i <= |e.order| && HalfWay(live, e, branches, {})
    ensures HalfWay(ApplyAdded(live, Added(e.order[..i], e.p, e.n)), e, branches, AddedSet(e.order[..i], e.p))
  {
    if i == 0 {
      assert e.order[..0] == [] && AddedSet([], e.p) == {};
    } else {
      AddPhase(live, e, branches, i - 1);
      AddNext(live, e, branches, i - 1);
    }
  }

  lemma ChangesSnoc(live: Live, init: seq<string>, u: string, p: ByUrl, n: ByUrl)
    requires u in n && forall w :: w in init ==> w in n
    ensures ApplyChanges(live, Modified(init + [u], p, n, SafeChanged)) == KeepUrl(ApplyChanges(live, Modified(init, p, n, SafeChanged)), p, n, u)
  {
    assert (init + [u])[..|init|] == init;
    var c := Modified(init, p, n, SafeChanged);
    if u in p && SafeChanged(p[u], n[u]) != [] {
      var one := Change(p[u], n[u], SafeChanged(p[u], n[u]));
      assert (c + [one])[..|c|] == c;
    }
  }

  /** All added entries, and the shown ones among `urls`. */
  function DoneAfter(e: Edit, urls: seq<string>): set<string> {
    (set u | u in e.n && u !in e.p) + (set u | u in urls && u in e.shown)
  }

  lemma DoneSnoc(e: Edit, init: seq<string>, u: string)
    ensures DoneAfter(e, init + [u]) == if u in e.shown then DoneAfter(e, init) + {u} else DoneAfter(e, init)
  {
  }

  lemma DoneBefore(e: Edit, i: nat, u: string)
    requires Sound(e) && i < |e.order| && u == e.order[i] && u in e.p
    ensures u !in DoneAfter(e, e.order[..i])
    ensures forall v :: v in DoneAfter(e, e.order[..i]) && v in e.p ==> !Before(e.order, u, v)
    ensures forall v :: v in e.shown && v in e.p && Before(e.order, v, u) ==> v in DoneAfter(e, e.order[..i])
  {
    PrefixSnoc(e.order, i);
  }

  /** Nothing happens for an added entry, nor for one that is hidden. */
  lemma NoStep(live: Live, e: Edit, u: string)
    requires HiddenUntouched(e) && u in e.n && (u !in e.p || u !in e.shown)
    ensures KeepUrl(live, e.p, e.n, u) == live
  {
  }

  lemma SameDone(e: Edit, before: seq<string>, urls: seq<string>, u: string)
    requires urls == before + [u] && u in e.n && Within(e.shown, e.n) && (u !in e.p || u !in e.shown)
    ensures DoneAfter(e, urls) == DoneAfter(e, before)
  {
    DoneSnoc(e, before, u);
  }

  lemma KeepNext(kept: Live, after: Live, e: Edit, branches: Branches, i: nat, before: seq<string>, urls: seq<string>)
    requires Followable(e) && e.p.Keys <= branches.Keys && i < |e.order| && before == e.order[..i] && urls == e.order[..i + 1]
    requires after == KeepUrl(kept, e.p, e.n, e.order[i])
    requires HalfWay(kept, e, branches, DoneAfter(e, before))
    ensures HalfWay(after, e, branches, DoneAfter(e, urls))
  {
    var u := e.order[i];
    PrefixSnoc(e.order, i);
    if u in e.shown && u in e.p {
      DoneBefore(e, i, u);
      DoneSnoc(e, before, u);
      ShownStep(kept, after, e, branches, DoneAfter(e, before), u);
    } else {
      SameDone(e, before, urls, u);
      NoStep(kept, e, u);
    }
  }

  lemma ChangesNext(live: Live, order: seq<string>, i: nat, p: ByUrl, n: ByUrl)
    requires i < |order| && forall u :: u in order ==> u in n
    ensures ApplyChanges(live, Modified(order[..i + 1], p, n, SafeChanged))
         == KeepUrl(ApplyChanges(live, Modified(order[..i], p, n, SafeChanged)), p, n, order[i])
  {
    assert order[..i + 1] == order[..i] + [order[i]];
    ChangesSnoc(live, order[..i], order[i], p, n);
  }

  lemma {:induction false} KeepPhase(live: Live, e: Edit, branches: Branches, i: nat)
    requires Followable(e) && e.p.Keys <= branches.Keys && i <= |e.order| && HalfWay(live, e, branches, DoneAfter(e, []))
    ensures HalfWay(ApplyChanges(live, Modified(e.order[..i], e.p, e.n, SafeChanged)), e, branches, DoneAfter(e, e.order[..i]))
  {
    if i == 0 {
      assert e.order[..0] == [];
    } else {
      KeepPhase(live, e, branches, i - 1);
      ChangesNext(live, e.order, i - 1, e.p, e.n);
      KeepNext(ApplyChanges(live, Modified(e.order[..i - 1], e.p, e.n, SafeChanged)), ApplyChanges(live, Modified(e.order[..i], e.p, e.n, SafeChanged)),
               e, branches, i - 1, e.order[..i - 1], e.order[..i]);
    }
  }

  lemma RemovedSnoc(live: Live, init: seq<string>, last: string, p: ByUrl, n: ByUrl)
    requires last in p && forall u :: u in init ==> u in p
    ensures ApplyRemoved(live, Added(init + [last], n, p)) ==
              if last in n then ApplyRemoved(live, Added(init, n, p)) else ApplyRemoved(live, Added(init, n, p)) - {Key(p[last])}
  {
    InSnoc(init, last, last);
    InSnoc(Added(init, n, p), p[last], p[last]);
  }

  /** The key of a removed entry among `urls`. */
  ghost predicate FreedBy(urls: seq<string>, p: ByUrl, n: ByUrl, k: string)
    requires forall u :: u in urls ==> u in p
  {
    exists u :: u in urls && u !in n && Key(p[u]) == k
  }

  lemma FreedBySnoc(init: seq<string>, last: string, p: ByUrl, n: ByUrl, k: string)
    requires last in p && forall u :: u in init ==> u in p
    ensures FreedBy(init + [last], p, n, k) <==> FreedBy(init, p, n, k) || (last !in n && Key(p[last]) == k)
  {
    assert forall u :: u in init + [last] <==> u in init || u == last;
  }

  /** Removals delete keys and change nothing else. */
  lemma {:induction false} RemovedAt(live: Live, urls: seq<string>, p: ByUrl, n: ByUrl, k: string)
    requires forall u :: u in urls ==> u in p
    ensures var r := ApplyRemoved(live, Added(urls, n, p)); (k in r <==> k in live && !FreedBy(urls, p, n, k)) && (k in r ==> r[k] == live[k])
  {
    if urls != [] {
      var init, last := urls[..|urls| - 1], urls[|urls| - 1];
      assert urls == init + [last];
      RemovedAt(live, init, p, n, k);
      RemovedSnoc(live, init, last, p, n);
      FreedBySnoc(init, last, p, n, k);
    }
  }

  lemma NotFreed(e: Edit, u: string)
    requires HandoverOk(e) && u in e.shown && Within(e.shown, e.n)
    ensures !Freed(e, Key(e.n[u]))
  {
    forall w | w in e.p && w !in e.n
      ensures Key(e.p[w]) != Key(e.n[u])
    {
      assert HandsOver(e, u, w);
    }
  }

  lemma RemovedExactly(live: Live, after: Live, e: Edit, urls: seq<string>, k: string)
    requires (forall u :: u in urls <==> u in e.p) && after == ApplyRemoved(live, Added(urls, e.n, e.p))
    ensures k in after <==> k in live && !Freed(e, k)
    ensures k in after ==> after[k] == live[k]
  {
    RemovedAt(live, urls, e.p, e.n, k);
  }

  /** When all kept entries are in place, the removals take out every other key. */
  lemma RemoveAll(live: Live, after: Live, e: Edit, branches: Branches, done: set<string>, urls: seq<string>)
    requires Sound(e) && HandoverOk(e) && (forall u :: u in urls <==> u in e.p) && done == DoneAfter(e, e.order)
    requires Arrived(live, e, branches, done) && Accounted(live, e, done) && after == ApplyRemoved(live, Added(urls, e.n, e.p))
    ensures Synced(after, e.shown, Remember(branches, e.p, e.n))
  {
    forall u | u in e.shown
      ensures Key(e.n[u]) in after && View(after[Key(e.n[u])]) == NewEntry(e, branches, u)
    {
      RemovedExactly(live, after, e, urls, Key(e.n[u]));
      NotFreed(e, u);
      assert u in done;
    }
    forall k | k in after
      ensures Wanted(e, k)
    {
      RemovedExactly(live, after, e, urls, k);
      NothingHeld(e, k);
      assert Explained(e, done, k);
    }
    AllInPlace(after, e, branches);
  }

  lemma NothingHeld(e: Edit, k: string)
    requires Sound(e)
    ensures !Held(e, DoneAfter(e, e.order), k)
  {
  }

  lemma AllInPlace(live: Live, e: Edit, branches: Branches)
    requires Within(e.shown, e.n)
    requires forall u :: u in e.shown ==> Key(e.n[u]) in live && View(live[Key(e.n[u])]) == NewEntry(e, branches, u)
    requires forall k :: k in live ==> Wanted(e, k)
    ensures Synced(live, e.shown, Remember(branches, e.p, e.n))
  {
    forall k | k in ViewAll(live)
      ensures k in KeyMap(e.shown).Values
    {
      var u :| u in e.shown && Key(e.shown[u]) == k;
      assert KeyMap(e.shown)[u] == k;
    }
  }

  lemma AddAll(live: Live, added: Live, e: Edit, branches: Branches)
    requires Followable(e) && Synced(live, e.shownBefore, branches) && added == ApplyAdded(live, Added(e.order, e.p, e.n))
    ensures HalfWay(added, e, branches, DoneAfter(e, []))
  {
    StartsHalfWay(live, e, branches);
    AddPhase(live, e, branches, |e.order|);
    WholeOrder(e);
  }

  lemma WholeOrder(e: Edit)
    requires Sound(e)
    ensures e.order[..|e.order|] == e.order && AddedSet(e.order, e.p) == DoneAfter(e, [])
  {
  }

  lemma KeepAll(added: Live, kept: Live, e: Edit, branches: Branches)
    requires Followable(e) && e.p.Keys <= branches.Keys && HalfWay(added, e, branches, DoneAfter(e, []))
    requires kept == ApplyChanges(added, Modified(e.order, e.p, e.n, SafeChanged))
    ensures HalfWay(kept, e, branches, DoneAfter(e, e.order))
  {
    assert e.order[..|e.order|] == e.order;
    KeepPhase(added, e, branches, |e.order|);
  }

  lemma EditSyncs(live: Live, added: Live, kept: Live, after: Live, e: Edit, branches: Branches, urls: seq<string>)
    requires Followable(e) && e.p.Keys <= branches.Keys && (forall u :: u in urls <==> u in e.p)
    requires Synced(live, e.shownBefore, branches)
    requires added == ApplyAdded(live, Added(e.order, e.p, e.n)) && kept == ApplyChanges(added, Modified(e.order, e.p, e.n, SafeChanged))
    requires after == ApplyRemoved(kept, Added(urls, e.n, e.p))
    ensures Synced(after, e.shown, Remember(branches, e.p, e.n))
  {
    AddAll(live, added, e, branches);
    KeepAll(added, kept, e, branches);
    RemoveAll(kept, after, e, branches, DoneAfter(e, e.order), urls);
  }
}
