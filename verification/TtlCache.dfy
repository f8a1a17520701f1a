/** The bounded cache with expiry of the Linear notifier (packages/core/src/notifier/linear.ts). */
module TtlCache {
  import opened Prelude

  datatype Config = Config(ttlMs: nat, maxSize: nat)

  datatype Slot<K, V> = Slot(key: K, value: V, expiresAt: int)

  /** A JavaScript `Map`: its entries in insertion order, one for each key. */
  type Entries<K, V> = seq<Slot<K, V>>

  function Find<K(==), V>(entries: Entries<K, V>, key: K): (r: Option<nat>)
    ensures r.Some? ==> r.value < |entries| && entries[r.value].key == key
    ensures r.None? ==> forall i :: 0 <= i < |entries| ==> entries[i].key != key
  {
    if entries == [] then None
    else if entries[|entries| - 1].key == key then Some(|entries| - 1)
    else Find(entries[..|entries| - 1], key)
  }

  function Without<T>(s: seq<T>, i: nat): seq<T>
    requires i < |s|
  {
    s[..i] + s[i + 1..]
  }

  function GetStep<K(==), V>(entries: Entries<K, V>, key: K, now: int): (Entries<K, V>, Option<V>) {
    match Find(entries, key)
    case None => (entries, None)
    case Some(i) => if now > entries[i].expiresAt then (Without(entries, i), None) else (entries, Some(entries[i].value))
  }

  function SetStep<K(==), V>(c: Config, entries: Entries<K, V>, key: K, value: V, now: int): Entries<K, V> {
    var slot := Slot(key, value, now + c.ttlMs);
    match Find(entries, key)
    case Some(i) => entries[i := slot]
    case None => (if |entries| >= c.maxSize && entries != [] then entries[1..] else entries) + [slot]
  }

  class TTLCache<K(==), V> {
    var entries: Entries<K, V>
    const config: Config

    constructor (ttlMs: nat, maxSize: nat)
      ensures config == Config(ttlMs, maxSize) && entries == []
    {
      config := Config(ttlMs, maxSize);
      entries := [];
    }

    method Get(key: K, now: int) returns (value: Option<V>)
      modifies this
      ensures (entries, value) == GetStep(old(entries), key, now)
    {
      var i := Find(entries, key);
      if i.None? {
        return None;
      }
      if now > entries[i.value].expiresAt {
        entries := Without(entries, i.value);
        return None;
      }
      return Some(entries[i.value].value);
    }

    method Has(key: K, now: int) returns (present: bool)
      modifies this
      ensures entries == GetStep(old(entries), key, now).0 && present == GetStep(old(entries), key, now).1.Some?
    {
      var value := Get(key, now);
      return value.Some?;
    }

    method Set(key: K, value: V, now: int)
      modifies this
      ensures entries == SetStep(config, old(entries), key, value, now)
    {
      var i := Find(entries, key);
      if |entries| >= config.maxSize && i.None? {
        if entries != [] {
          entries := entries[1..];
        }
      }
      var slot := Slot(key, value, now + config.ttlMs);
      entries := if i.Some? then entries[i.value := slot] else entries + [slot];
    }
  }

  // ---------------------------------------------------------------- runs

  datatype Op<K, V> = Get(key: K, now: int) | Set(key: K, value: V, now: int)

  function Step<K(==), V>(c: Config, entries: Entries<K, V>, op: Op<K, V>): Entries<K, V> {
    match op
    case Get(key, now) => GetStep(entries, key, now).0
    case Set(key, value, now) => SetStep(c, entries, key, value, now)
  }

  function Run<K(==), V>(c: Config, entries: Entries<K, V>, ops: seq<Op<K, V>>): Entries<K, V> {
    if ops == [] then entries else Step(c, Run(c, entries, ops[..|ops| - 1]), ops[|ops| - 1])
  }

  ghost predicate Distinct<K(!new), V(!new)>(entries: Entries<K, V>) {
    forall i, j :: 0 <= i < j < |entries| ==> entries[i].key != entries[j].key
  }

  ghost predicate Bounded<K(!new), V(!new)>(c: Config, entries: Entries<K, V>) {
    |entries| <= if c.maxSize == 0 then 1 else c.maxSize
  }

  lemma StepKeepsBound<K(!new), V(!new)>(c: Config, entries: Entries<K, V>, op: Op<K, V>)
    requires Distinct(entries) && Bounded(c, entries)
    ensures Distinct(Step(c, entries, op)) && Bounded(c, Step(c, entries, op))
  {
  }

  /** The cache never holds a key twice, nor more than `maxSize` entries (but always room for one). */
  lemma {:induction false} RunIsBounded<K(!new), V(!new)>(c: Config, ops: seq<Op<K, V>>)
    ensures Distinct(Run(c, [], ops)) && Bounded(c, Run(c, [], ops))
  {
    if ops != [] {
      RunIsBounded(c, ops[..|ops| - 1]);
      StepKeepsBound(c, Run(c, [], ops[..|ops| - 1]), ops[|ops| - 1]);
    }
  }

  // ---------------------------------------------------------------- hits

  datatype Write<V> = Write(value: V, at: int)

  /** The last write of a key. */
  function LastSet<K(==), V>(ops: seq<Op<K, V>>, key: K): Option<Write<V>> {
    if ops == [] then None
    else if ops[|ops| - 1].Set? && ops[|ops| - 1].key == key then Some(Write(ops[|ops| - 1].value, ops[|ops| - 1].now))
    else LastSet(ops[..|ops| - 1], key)
  }

  lemma {:induction false} SlotsAreLastWrites<K(!new), V(!new)>(c: Config, ops: seq<Op<K, V>>, i: nat)
    requires i < |Run(c, [], ops)|
    ensures var s := Run(c, [], ops)[i];
            LastSet(ops, s.key) == Some(Write(s.value, s.expiresAt - c.ttlMs))
  {
    var init, last := ops[..|ops| - 1], ops[|ops| - 1];
    var before, after := Run(c, [], init), Run(c, [], ops);
    RunIsBounded(c, ops);
    if last.Set? && last.key == after[i].key {
      var k := if Find(before, last.key).Some? then Find(before, last.key).value else |after| - 1;
      assert after[k] == Slot(last.key, last.value, last.now + c.ttlMs);
      assert i == k;
    } else {
      var j :| 0 <= j < |before| && before[j] == after[i];
      SlotsAreLastWrites(c, init, j);
    }
  }

  ghost predicate Holds<K(!new), V(!new)>(entries: Entries<K, V>, key: K) {
    exists i :: 0 <= i < |entries| && entries[i].key == key
  }

  /** A read hits if and only if the key is held and was last set no longer than `ttlMs` ago; a hit is the last value set. */
  lemma HitsExactly<K(!new), V(!new)>(c: Config, ops: seq<Op<K, V>>, key: K, now: int)
    ensures var last, read := LastSet(ops, key), GetStep(Run(c, [], ops), key, now).1;
            && (Holds(Run(c, [], ops), key) ==> last.Some?)
            && (read.Some? <==> Holds(Run(c, [], ops), key) && now - last.value.at <= c.ttlMs)
            && (read.Some? ==> read.value == last.value.value)
  {
    var entries := Run(c, [], ops);
    if Find(entries, key).Some? {
      SlotsAreLastWrites(c, ops, Find(entries, key).value);
    }
  }

  // ---------------------------------------------------------------- survival

  /** How many operations insert a key that the cache does not hold. */
  function Insertions<K(==), V>(c: Config, entries: Entries<K, V>, ops: seq<Op<K, V>>): nat {
    if ops == [] then 0
    else
      var init, last := ops[..|ops| - 1], ops[|ops| - 1];
      Insertions(c, entries, init) + if last.Set? && Find(Run(c, entries, init), last.key).None? then 1 else 0
  }

  /** No read of the key finds it expired. */
  ghost predicate NeverSeenExpired<K(!new), V(!new)>(c: Config, entries: Entries<K, V>, ops: seq<Op<K, V>>, key: K) {
    ops == [] ||
    (var init, last := ops[..|ops| - 1], ops[|ops| - 1];
     && NeverSeenExpired(c, entries, init, key)
     && (last.Get? && last.key == key ==>
           forall i :: 0 <= i < |Run(c, entries, init)| && Run(c, entries, init)[i].key == key ==> last.now <= Run(c, entries, init)[i].expiresAt))
  }

  /** How many entries are newer than the one at `i`. */
  function Newer<K, V>(entries: Entries<K, V>, i: nat): nat
    requires i < |entries|
  {
    |entries| - 1 - i
  }

  /**
   * A key just inserted is still there after `maxSize - 1` insertions of other keys, whatever
   * has expired in between.
   */
  lemma {:induction false} Survives<K(!new), V(!new)>(c: Config, entries: Entries<K, V>, key: K, ops: seq<Op<K, V>>)
    requires Distinct(entries) && entries != [] && entries[|entries| - 1].key == key
    requires NeverSeenExpired(c, entries, ops, key) && Insertions(c, entries, ops) < c.maxSize
    ensures var now := Run(c, entries, ops);
            && Distinct(now)
            && Find(now, key).Some? && Newer(now, Find(now, key).value) <= Insertions(c, entries, ops)
  {
    if ops != [] {
      var init, last := ops[..|ops| - 1], ops[|ops| - 1];
      Survives(c, entries, key, init);
      var before, after := Run(c, entries, init), Run(c, entries, ops);
      StepKeepsDistinct(c, before, last);
      SurvivesStep(c, before, last, key, Find(before, key).value);
    }
  }

  lemma {:induction false} RunConcat<K(!new), V(!new)>(c: Config, entries: Entries<K, V>, a: seq<Op<K, V>>, b: seq<Op<K, V>>)
    ensures Run(c, entries, a + b) == Run(c, Run(c, entries, a), b)
  {
    if b == [] {
      assert a + b == a;
    } else {
      assert (a + b)[..|a + b| - 1] == a + b[..|b| - 1];
      RunConcat(c, entries, a, b[..|b| - 1]);
    }
  }

  lemma {:induction false} LastSetBefore<K(!new), V(!new)>(a: seq<Op<K, V>>, b: seq<Op<K, V>>, key: K)
    requires forall op :: op in b && op.Set? ==> op.key != key
    ensures LastSet(a + b, key) == LastSet(a, key)
  {
    if b == [] {
      assert a + b == a;
    } else {
      assert (a + b)[..|a + b| - 1] == a + b[..|b| - 1];
      LastSetBefore(a, b[..|b| - 1], key);
    }
  }

  /**
   * What the cache is for: a value set under a new key is read back until it expires, unless `maxSize` keys are inserted or
   * a read finds it expired in between.
   */
  lemma FreshValueHits<K(!new), V(!new)>(c: Config, before: seq<Op<K, V>>, key: K, value: V, at: int, after: seq<Op<K, V>>, now: int)
    requires !Holds(Run(c, [], before), key) && (forall op :: op in after && op.Set? ==> op.key != key) && now <= at + c.ttlMs
    requires var entries := Run(c, [], before + [Set(key, value, at)]);
             NeverSeenExpired(c, entries, after, key) && Insertions(c, entries, after) < c.maxSize
    ensures GetStep(Run(c, [], before + [Set(key, value, at)] + after), key, now).1 == Some(value)
  {
    var ops := before + [Set(key, value, at)];
    InSnoc(before, Set(key, value, at), Set(key, value, at));
    RunIsBounded(c, ops);
    Survives(c, Run(c, [], ops), key, after);
    RunConcat(c, [], ops, after);
    LastSetBefore(ops, after, key);
    HitsExactly(c, ops + after, key, now);
  }

  lemma StepKeepsDistinct<K(!new), V(!new)>(c: Config, entries: Entries<K, V>, op: Op<K, V>)
    requires Distinct(entries)
    ensures Distinct(Step(c, entries, op))
  {
  }

  lemma FoundAt<K(!new), V(!new)>(entries: Entries<K, V>, key: K, j: nat)
    requires Distinct(entries) && j < |entries| && entries[j].key == key
    ensures Find(entries, key) == Some(j)
  {
  }

  lemma SurvivesGet<K(!new), V(!new)>(before: Entries<K, V>, read: K, now: int, key: K, i: nat)
    requires Distinct(before) && i < |before| && before[i].key == key && (read == key ==> now <= before[i].expiresAt)
    ensures var after := GetStep(before, read, now).0; Find(after, key).Some? && Newer(after, Find(after, key).value) <= Newer(before, i)
  {
    var after := GetStep(before, read, now).0;
    FoundAt(before, key, i);
    assert Distinct(after);
    var d := Find(before, read);
    FoundAt(after, key, if after != before && d.value < i then i - 1 else i);
  }

  lemma SurvivesSet<K(!new), V(!new)>(c: Config, before: Entries<K, V>, written: K, value: V, now: int, key: K, i: nat)
    requires Distinct(before) && i < |before| && before[i].key == key
    requires Find(before, written).None? ==> Newer(before, i) + 1 < c.maxSize
    ensures var after := SetStep(c, before, written, value, now);
            && Find(after, key).Some?
            && Newer(after, Find(after, key).value) <= Newer(before, i) + if Find(before, written).None? then 1 else 0
  {
    var after := SetStep(c, before, written, value, now);
    StepKeepsDistinct(c, before, Set(written, value, now));
    FoundAt(after, key, if Find(before, written).None? && |before| >= c.maxSize then i - 1 else i);
  }

  lemma SurvivesStep<K(!new), V(!new)>(c: Config, before: Entries<K, V>, op: Op<K, V>, key: K, i: nat)
    requires Distinct(before) && i < |before| && before[i].key == key
    requires op.Get? && op.key == key ==> op.now <= before[i].expiresAt
    requires op.Set? && Find(before, op.key).None? ==> Newer(before, i) + 1 < c.maxSize
    ensures var after := Step(c, before, op);
            && Find(after, key).Some?
            && Newer(after, Find(after, key).value) <= Newer(before, i) + if op.Set? && Find(before, op.key).None? then 1 else 0
  {
    match op
    case Get(read, now) => SurvivesGet(before, read, now, key, i);
    case Set(written, value, now) => SurvivesSet(c, before, written, value, now, key, i);
  }

  /** The bound is sharp: without expiry, the `maxSize`-th insertion of another key evicts it. */
  lemma {:induction false} EvictedAtLast<K(!new), V(!new)>(c: Config, entries: Entries<K, V>, key: K, ops: seq<Op<K, V>>)
    requires Distinct(entries) && Bounded(c, entries) && entries != [] && entries[|entries| - 1].key == key
    requires forall op :: op in ops ==> op.Set? && op.key != key
    ensures var now := Run(c, entries, ops);
            && Distinct(now) && Bounded(c, now)
            && (Find(now, key).Some? ==> Newer(now, Find(now, key).value) == Insertions(c, entries, ops))
            && (c.maxSize >= 1 && Insertions(c, entries, ops) >= c.maxSize ==> Find(now, key).None?)
  {
    if ops != [] {
      var init, last := ops[..|ops| - 1], ops[|ops| - 1];
      EvictedAtLast(c, entries, key, init);
      var before := Run(c, entries, init);
      StepKeepsBound(c, before, last);
      EvictStep(c, before, last, key);
    }
  }

  lemma EvictStep<K(!new), V(!new)>(c: Config, before: Entries<K, V>, op: Op<K, V>, key: K)
    requires Distinct(before) && op.Set? && op.key != key
    ensures var after := Step(c, before, op);
            Find(after, key).Some? ==>
              && Find(before, key).Some?
              && Newer(after, Find(after, key).value) == Newer(before, Find(before, key).value) + if Find(before, op.key).None? then 1 else 0
  {
    var after := Step(c, before, op);
    StepKeepsDistinct(c, before, op);
    if Find(after, key).Some? {
      var j := Find(after, key).value;
      var i := if Find(before, op.key).None? && |before| >= c.maxSize && before != [] then j + 1 else j;
      assert before[i].key == key;
    }
  }
}
