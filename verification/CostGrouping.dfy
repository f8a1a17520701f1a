/**
 * The algebra behind every `Map`-of-buckets loop in packages/core/src/cost:
 * metrics form a commutative monoid, maps of metrics inherit it pointwise, and
 * grouping a list of keyed metrics is the fold of that monoid.
 */
module CostGrouping {
  datatype Metrics = Metrics(
    runs: int, prsMerged: int, inputTokens: int, outputTokens: int,
    dollars: real, timeSavedHours: real)

  const ZERO := Metrics(0, 0, 0, 0, 0.0, 0.0)

  function Add(a: Metrics, b: Metrics): Metrics {
    Metrics(a.runs + b.runs, a.prsMerged + b.prsMerged,
            a.inputTokens + b.inputTokens, a.outputTokens + b.outputTokens,
            a.dollars + b.dollars, a.timeSavedHours + b.timeSavedHours)
  }

  datatype Item<K> = Item(key: K, m: Metrics)

  /** Union of two tables, adding the rows that share a key. */
  function MapAdd<K>(a: map<K, Metrics>, b: map<K, Metrics>): map<K, Metrics> {
    map k | k in a.Keys + b.Keys ::
      if k in a && k in b then Add(a[k], b[k]) else if k in a then a[k] else b[k]
  }

  /** One row per distinct key, holding the sum of the metrics filed under it. */
  function Group<K>(items: seq<Item<K>>): map<K, Metrics> {
    if items == [] then map[]
    else
      var last := items[|items| - 1];
      MapAdd(Group(items[..|items| - 1]), map[last.key := last.m])
  }

  /** The items filed under another key: `GROUP BY f(key)` instead of `GROUP BY key`. */
  function Rekey<K, J>(items: seq<Item<K>>, f: K -> J): seq<Item<J>> {
    if items == [] then []
    else
      var last := items[|items| - 1];
      Rekey(items[..|items| - 1], f) + [Item(f(last.key), last.m)]
  }

  function Sum<K>(items: seq<Item<K>>): Metrics {
    if items == [] then ZERO else Add(Sum(items[..|items| - 1]), items[|items| - 1].m)
  }

  function Only<K(==)>(items: seq<Item<K>>, k: K): seq<Item<K>> {
    if items == [] then []
    else
      var rest := Only(items[..|items| - 1], k);
      if items[|items| - 1].key == k then rest + [items[|items| - 1]] else rest
  }

  function Without<K(==)>(items: seq<Item<K>>, k: K): seq<Item<K>> {
    if items == [] then []
    else
      var rest := Without(items[..|items| - 1], k);
      if items[|items| - 1].key == k then rest else rest + [items[|items| - 1]]
  }

  /** `rows` lists the table, each key once: what a `SELECT` returns, in any order. */
  ghost predicate Enumerates<K>(rows: seq<Item<K>>, table: map<K, Metrics>) {
    && (forall i, j :: 0 <= i < j < |rows| ==> rows[i].key != rows[j].key)
    && (forall i :: 0 <= i < |rows| ==> rows[i].key in table && table[rows[i].key] == rows[i].m)
    && (forall k :: k in table ==> HasKey(rows, k))
  }

  ghost predicate HasKey<K>(items: seq<Item<K>>, k: K) {
    exists i :: 0 <= i < |items| && items[i].key == k
  }

  lemma Inhabited<T>(s: set<T>) returns (x: T)
    requires s != {}
    ensures x in s
  {
    x :| x in s;
  }

  lemma TakeNext<T>(s: seq<T>, i: nat)
    requires i < |s|
    ensures s[..i] + [s[i]] == s[..i + 1]
  {
  }

  // ---------------------------------------------------------------- monoid laws

  lemma MapAddAssoc<K>(a: map<K, Metrics>, b: map<K, Metrics>, c: map<K, Metrics>)
    ensures MapAdd(MapAdd(a, b), c) == MapAdd(a, MapAdd(b, c))
  {
    var l, r := MapAdd(MapAdd(a, b), c), MapAdd(a, MapAdd(b, c));
    assert l.Keys == r.Keys;
    forall k | k in l.Keys
      ensures l[k] == r[k]
    {
    }
  }

  lemma MapAddComm<K>(a: map<K, Metrics>, b: map<K, Metrics>)
    ensures MapAdd(a, b) == MapAdd(b, a)
  {
    assert MapAdd(a, b).Keys == MapAdd(b, a).Keys;
  }

  lemma MapAddEmpty<K>(a: map<K, Metrics>)
    ensures MapAdd(a, map[]) == a == MapAdd(map[], a)
  {
    assert MapAdd(a, map[]).Keys == a.Keys == MapAdd(map[], a).Keys;
  }

  /** Grouping two lists separately and merging the tables equals grouping the concatenation. */
  lemma {:induction false} GroupConcat<K>(a: seq<Item<K>>, b: seq<Item<K>>)
    ensures Group(a + b) == MapAdd(Group(a), Group(b))
  {
    if b == [] {
      assert a + b == a;
      MapAddEmpty(Group(a));
    } else {
      var init, last := b[..|b| - 1], b[|b| - 1];
      assert (a + b)[..|a + b| - 1] == a + init;
      GroupConcat(a, init);
      MapAddAssoc(Group(a), Group(init), map[last.key := last.m]);
    }
  }

  lemma {:induction false} RekeyConcat<K, J>(a: seq<Item<K>>, b: seq<Item<K>>, f: K -> J)
    ensures Rekey(a + b, f) == Rekey(a, f) + Rekey(b, f)
  {
    if b == [] {
      assert a + b == a;
    } else {
      assert (a + b)[..|a + b| - 1] == a + b[..|b| - 1];
      RekeyConcat(a, b[..|b| - 1], f);
    }
  }

  lemma {:induction false} SumConcat<K>(a: seq<Item<K>>, b: seq<Item<K>>)
    ensures Sum(a + b) == Add(Sum(a), Sum(b))
  {
    if b == [] {
      assert a + b == a;
    } else {
      assert (a + b)[..|a + b| - 1] == a + b[..|b| - 1];
      SumConcat(a, b[..|b| - 1]);
    }
  }

  // ---------------------------------------------------------------- splitting by key

  lemma {:induction false} GroupKeys<K(!new)>(items: seq<Item<K>>)
    ensures forall k :: k in Group(items) <==> HasKey(items, k)
  {
    if items != [] {
      var init := items[..|items| - 1];
      GroupKeys(init);
      forall k
        ensures k in Group(items) <==> HasKey(items, k)
      {
        if HasKey(init, k) {
          var i :| 0 <= i < |init| && init[i].key == k;
          assert items[i].key == k;
        }
        assert items[|items| - 1].key == k ==> HasKey(items, k);
      }
    }
  }

  /** A row of the table is the sum of the items filed under its key, and only of those. */
  lemma {:induction false} OnlyGroups<K, J>(items: seq<Item<K>>, k: K, f: K -> J)
    ensures Only(items, k) == [] <==> k !in Group(items)
    ensures k in Group(items) ==> Group(Rekey(Only(items, k), f)) == map[f(k) := Group(items)[k]]
  {
    if items != [] {
      var init, last := items[..|items| - 1], items[|items| - 1];
      OnlyGroups(init, k, f);
      GroupRow(items, k);
      if last.key == k {
        GroupSnoc(Only(init, k), last, f);
        if k in Group(init) {
          MapAddSame(f(k), Group(init)[k], last.m);
        } else {
          MapAddEmpty(map[f(k) := last.m]);
        }
      }
    }
  }

  lemma MapAddSame<K>(k: K, x: Metrics, y: Metrics)
    ensures MapAdd(map[k := x], map[k := y]) == map[k := Add(x, y)]
  {
  }

  lemma GroupRow<K>(items: seq<Item<K>>, k: K)
    requires items != []
    ensures var g, g', last := Group(items[..|items| - 1]), Group(items), items[|items| - 1];
            && (k in g' <==> k in g || k == last.key)
            && (k in g' ==> g'[k] == if k != last.key then g[k] else if k in g then Add(g[k], last.m) else last.m)
  {
  }

  lemma GroupLast<K>(init: seq<Item<K>>, last: Item<K>)
    ensures Group(init + [last]) == MapAdd(Group(init), map[last.key := last.m])
  {
    assert (init + [last])[..|init|] == init;
  }

  /** What filing one more item does to one row. */
  lemma AddAt<K>(g: map<K, Metrics>, key: K, m: Metrics, j: K)
    ensures var g' := MapAdd(g, map[key := m]);
            && (j in g' <==> j in g || j == key)
            && (j != key && j in g ==> g'[j] == g[j])
            && (j == key ==> g'[j] == if j in g then Add(g[j], m) else m)
  {
  }

  lemma {:induction false} WithoutAt<K>(items: seq<Item<K>>, k: K, j: K)
    ensures j in Group(Without(items, k)) <==> j in Group(items) && j != k
    ensures j in Group(Without(items, k)) ==> Group(Without(items, k))[j] == Group(items)[j]
  {
    if items != [] {
      var init, last := items[..|items| - 1], items[|items| - 1];
      WithoutAt(init, k, j);
      AddAt(Group(init), last.key, last.m, j);
      if last.key != k {
        GroupLast(Without(init, k), last);
        AddAt(Group(Without(init, k)), last.key, last.m, j);
      }
    }
  }

  lemma WithoutGroups<K(!new)>(items: seq<Item<K>>, k: K)
    ensures Group(Without(items, k)) == Group(items) - {k}
  {
    forall j
      ensures j in Group(Without(items, k)) <==> j in Group(items) && j != k
      ensures j in Group(Without(items, k)) ==> Group(Without(items, k))[j] == Group(items)[j]
    {
      WithoutAt(items, k, j);
    }
  }

  lemma {:induction false} SplitByKey<K, J>(items: seq<Item<K>>, k: K, f: K -> J)
    ensures Group(Rekey(items, f)) == MapAdd(Group(Rekey(Only(items, k), f)), Group(Rekey(Without(items, k), f)))
  {
    if items == [] {
      MapAddEmpty<J>(map[]);
    } else {
      var init, last := items[..|items| - 1], items[|items| - 1];
      SplitByKey(init, k, f);
      GroupSnoc(init, last, f);
      assert init + [last] == items;
      if last.key == k {
        GroupSnoc(Only(init, k), last, f);
      } else {
        GroupSnoc(Without(init, k), last, f);
      }
      AddLast(Group(Rekey(Only(init, k), f)), Group(Rekey(Without(init, k), f)), map[f(last.key) := last.m]);
    }
  }

  lemma AddLast<K>(a: map<K, Metrics>, b: map<K, Metrics>, c: map<K, Metrics>)
    ensures MapAdd(MapAdd(a, b), c) == MapAdd(a, MapAdd(b, c)) == MapAdd(MapAdd(a, c), b)
  {
    MapAddAssoc(a, b, c);
    MapAddComm(b, c);
    MapAddAssoc(a, c, b);
  }

  lemma GroupSnoc<K, J>(items: seq<Item<K>>, last: Item<K>, f: K -> J)
    ensures Group(Rekey(items + [last], f)) == MapAdd(Group(Rekey(items, f)), map[f(last.key) := last.m])
  {
    assert (items + [last])[..|items|] == items;
    var r := Rekey(items, f);
    assert (r + [Item(f(last.key), last.m)])[..|r|] == r;
  }

  /**
   * Two-level aggregation is exact: grouping the rows of an already grouped table,
   * listed in any order, by any coarser key gives the table of the original items.
   */
  lemma {:induction false} Regroup<K(!new), J>(rows: seq<Item<K>>, items: seq<Item<K>>, f: K -> J)
    requires Enumerates(rows, Group(items))
    ensures Group(Rekey(rows, f)) == Group(Rekey(items, f))
    decreases |rows|
  {
    if rows == [] {
      EmptyGroup(items);
    } else {
      var init, last := rows[..|rows| - 1], rows[|rows| - 1];
      RestEnumerated(rows, items);
      Regroup(init, Without(items, last.key), f);
      RegroupRow(rows, items, f);
    }
  }

  lemma RestEnumerated<K(!new)>(rows: seq<Item<K>>, items: seq<Item<K>>)
    requires rows != [] && Enumerates(rows, Group(items))
    ensures Enumerates(rows[..|rows| - 1], Group(Without(items, rows[|rows| - 1].key)))
  {
    WithoutGroups(items, rows[|rows| - 1].key);
    DropRow(rows, Group(items));
  }

  lemma RegroupRow<K, J>(rows: seq<Item<K>>, items: seq<Item<K>>, f: K -> J)
    requires rows != [] && rows[|rows| - 1].key in Group(items) && Group(items)[rows[|rows| - 1].key] == rows[|rows| - 1].m
    requires Group(Rekey(rows[..|rows| - 1], f)) == Group(Rekey(Without(items, rows[|rows| - 1].key), f))
    ensures Group(Rekey(rows, f)) == Group(Rekey(items, f))
  {
    var init, last := rows[..|rows| - 1], rows[|rows| - 1];
    assert rows == init + [last];
    GroupSnoc(init, last, f);
    SwapRow(items, last.key, f);
  }

  lemma EmptyGroup<K(!new)>(items: seq<Item<K>>)
    requires forall k :: k in Group(items) ==> HasKey<K>([], k)
    ensures items == []
  {
    GroupKeys(items);
    if items != [] {
      assert HasKey(items, items[0].key);
    }
  }

  /** Taking one row of a table out and adding it last leaves every coarser grouping as it is. */
  lemma SwapRow<K, J>(items: seq<Item<K>>, k: K, f: K -> J)
    requires k in Group(items)
    ensures Group(Rekey(items, f)) == MapAdd(Group(Rekey(Without(items, k), f)), map[f(k) := Group(items)[k]])
  {
    OnlyGroups(items, k, f);
    SplitByKey(items, k, f);
    MapAddComm(Group(Rekey(Without(items, k), f)), map[f(k) := Group(items)[k]]);
  }

  lemma DropRow<K>(rows: seq<Item<K>>, table: map<K, Metrics>)
    requires rows != [] && Enumerates(rows, table)
    ensures Enumerates(rows[..|rows| - 1], table - {rows[|rows| - 1].key})
  {
    var init, last := rows[..|rows| - 1], rows[|rows| - 1];
    forall k | k in table - {last.key}
      ensures HasKey(init, k)
    {
      assert HasKey(rows, k);
      var i :| 0 <= i < |rows| && rows[i].key == k;
      assert init[i].key == k;
    }
  }

  /** Conservation: the rows of a breakdown, in any order, add up to the grand total. */
  lemma Conservation<K(!new), J(!new)>(rows: seq<Item<J>>, items: seq<Item<K>>, f: K -> J)
    requires Enumerates(rows, Group(Rekey(items, f)))
    ensures Sum(rows) == Sum(items)
  {
    Regroup(rows, Rekey(items, f), Whole<J>);
    RekeyTwice(items, f);
    TotalIsSum(rows);
    TotalIsSum(items);
    if items == [] {
      assert Rekey(items, Whole<K>) == [];
    }
    if rows == [] {
      assert Rekey(rows, Whole<J>) == [];
    }
  }

  function Whole<K>(k: K): () { () }

  lemma {:induction false} RekeyTwice<K, J>(items: seq<Item<K>>, f: K -> J)
    ensures Rekey(Rekey(items, f), Whole<J>) == Rekey(items, Whole<K>)
  {
    if items != [] {
      var init := items[..|items| - 1];
      RekeyTwice(init, f);
      var r := Rekey(items, f);
      assert r[..|r| - 1] == Rekey(init, f);
    }
  }

  lemma {:induction false} TotalIsSum<K>(items: seq<Item<K>>)
    ensures items != [] ==> Group(Rekey(items, Whole<K>)) == map[() := Sum(items)]
    ensures items == [] ==> Sum(items) == ZERO
    ensures items != [] ==> Rekey(items, Whole<K>) != [] && Group(Rekey(items, Whole<K>)) != map[]
  {
    if items != [] {
      var init, last := items[..|items| - 1], items[|items| - 1];
      TotalIsSum(init);
      GroupSnoc(init, last, Whole<K>);
      assert items == init + [last];
      if init == [] {
        assert Group(Rekey(init, Whole<K>)) == map[];
        MapAddEmpty(map[() := last.m]);
      }
      assert Group(Rekey(items, Whole<K>)) == map[() := Sum(items)];
      assert () in Group(Rekey(items, Whole<K>));
    }
  }
}
