/** A map whose entries are owned: each owner has one key, and each key in use belongs to an owner. */
module Slots {
  ghost predicate Injective<U(!new), K(!new)>(loc: map<U, K>) {
    forall u, v :: u in loc && v in loc && loc[u] == loc[v] ==> u == v
  }

  /** The map holds, at each owner's key, what that owner wants, and nothing else. */
  ghost predicate Placed<U(!new), K(!new), E(!new)>(live: map<K, E>, loc: map<U, K>, want: map<U, E>) {
    && want.Keys == loc.Keys
    && (forall u :: u in loc ==> loc[u] in live && live[loc[u]] == want[u])
    && (forall k :: k in live ==> k in loc.Values)
  }

  lemma PlacedOnce<U(!new), K(!new), E(!new)>(a: map<K, E>, b: map<K, E>, loc: map<U, K>, want: map<U, E>)
    requires Placed(a, loc, want) && Placed(b, loc, want)
    ensures a == b
  {
    forall k
      ensures k in a <==> k in b
      ensures k in a ==> a[k] == b[k]
    {
      if k in loc.Values {
        var u :| u in loc && loc[u] == k;
      }
    }
  }

  /** A new owner takes a key, and whoever had it goes. */
  lemma Take<U(!new), K(!new), E(!new)>(live: map<K, E>, loc: map<U, K>, want: map<U, E>, loc': map<U, K>, want': map<U, E>, u: U, k: K, e: E)
    requires Placed(live, loc, want) && Injective(loc) && u !in loc
    requires want'.Keys == loc'.Keys && forall v :: v in loc' <==> v == u || (v in loc && loc[v] != k)
    requires loc'[u] == k && want'[u] == e && forall v :: v in loc' && v != u ==> loc'[v] == loc[v] && want'[v] == want[v]
    ensures Placed(live[k := e], loc', want') && Injective(loc')
  {
    forall x | x in live[k := e]
      ensures x in loc'.Values
    {
      if x == k {
        assert loc'[u] == x;
      } else {
        var v :| v in loc && loc[v] == x;
        assert loc'[v] == x;
      }
    }
  }
}
