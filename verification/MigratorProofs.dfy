/** Renaming in any order, run-once bookkeeping, and recovery after a failure at any write. */
module MigratorProofs {
  import opened Migrator

  // ---------------------------------------------------------------- renames

  /** No new name is an old one, and no name occurs twice on either side. */
  ghost predicate Independent(renames: seq<Rename>) {
    && (forall r, s :: r in renames && s in renames ==> r.from_ != s.to_)
    && (forall r, s :: r in renames && s in renames && (r.from_ == s.from_ || r.to_ == s.to_) ==> r == s)
  }

  /** A name's length and number: enough to tell the names in a rename map apart. */
  function Code(name: string): int {
    if |name| < 3 then 0 else |name| * 100 + (name[1] as int - '0' as int) * 10 + (name[2] as int - '0' as int)
  }

  predicate CodesOf(r: Rename, from_: int, to_: int) {
    Code(r.from_) == from_ && Code(r.to_) == to_
  }

  ghost predicate Coded(renames: seq<Rename>, from_: seq<int>, to_: seq<int>) {
    && |renames| == |from_| == |to_|
    && forall i :: 0 <= i < |renames| ==> CodesOf(renames[i], from_[i], to_[i])
  }

  ghost predicate Apart(from_: seq<int>, to_: seq<int>) {
    && |from_| == |to_|
    && (forall x :: x in from_ ==> x !in to_)
    && (forall i, j :: 0 <= i < j < |from_| ==> from_[i] != from_[j] && to_[i] != to_[j])
  }

  lemma ApartByCode(renames: seq<Rename>, from_: seq<int>, to_: seq<int>)
    requires Coded(renames, from_, to_) && Apart(from_, to_)
    ensures Independent(renames)
  {
    forall r, s | r in renames && s in renames
      ensures r.from_ != s.to_
      ensures r.from_ == s.from_ || r.to_ == s.to_ ==> r == s
    {
      var i :| 0 <= i < |renames| && renames[i] == r;
      var j :| 0 <= j < |renames| && renames[j] == s;
      assert CodesOf(r, from_[i], to_[i]) && CodesOf(s, from_[j], to_[j]);
      assert from_[i] in from_ && to_[j] in to_;
    }
  }

  lemma SqliteIndependent()
    ensures Independent(SQLITE_MIGRATION_RENAMES)
  {
    SqliteCodes();
    SqliteApart();
    ApartByCode(SQLITE_MIGRATION_RENAMES, SQLITE_FROM, SQLITE_TO);
  }

  const SQLITE_FROM := [707, 2108, 1909, 1810, 1711, 2712, 1913, 1813]
  const SQLITE_TO := [708, 2109, 1910, 1811, 1712, 2713, 1914, 1815]

  lemma SqliteApart()
    ensures Apart(SQLITE_FROM, SQLITE_TO)
  {
  }

  lemma SqliteCodes()
    ensures Coded(SQLITE_MIGRATION_RENAMES, SQLITE_FROM, SQLITE_TO)
  {
    var rs := SQLITE_MIGRATION_RENAMES;
    assert CodesOf(rs[0], 707, 708);
    assert CodesOf(rs[1], 2108, 2109);
    assert CodesOf(rs[2], 1909, 1910);
    assert CodesOf(rs[3], 1810, 1811);
    assert CodesOf(rs[4], 1711, 1712);
    assert CodesOf(rs[5], 2712, 2713);
    assert CodesOf(rs[6], 1913, 1914);
    assert CodesOf(rs[7], 1813, 1815);
  }

  lemma PostgresIndependent()
    ensures Independent(POSTGRES_MIGRATION_RENAMES)
  {
    PostgresCodes();
    PostgresApart();
    ApartByCode(POSTGRES_MIGRATION_RENAMES, POSTGRES_FROM, POSTGRES_TO);
  }

  const POSTGRES_FROM := [708, 2109, 1910, 1811, 1712, 2713, 1914, 1815]
  const POSTGRES_TO := [709, 2110, 1911, 1812, 1713, 2714, 1915, 1816]

  lemma PostgresApart()
    ensures Apart(POSTGRES_FROM, POSTGRES_TO)
  {
  }

  lemma PostgresCodes()
    ensures Coded(POSTGRES_MIGRATION_RENAMES, POSTGRES_FROM, POSTGRES_TO)
  {
    var rs := POSTGRES_MIGRATION_RENAMES;
    assert CodesOf(rs[0], 708, 709);
    assert CodesOf(rs[1], 2109, 2110);
    assert CodesOf(rs[2], 1910, 1911);
    assert CodesOf(rs[3], 1811, 1812);
    assert CodesOf(rs[4], 1712, 1713);
    assert CodesOf(rs[5], 2713, 2714);
    assert CodesOf(rs[6], 1914, 1915);
    assert CodesOf(rs[7], 1815, 1816);
  }

  /** A renamed migration keeps its description: only the number before it changes. */
  ghost predicate SameDescription(r: Rename) {
    |r.to_| == |r.from_| && forall i :: 3 <= i < |r.from_| ==> r.to_[i] == r.from_[i]
  }

  lemma SqliteFirst(i: nat)
    requires i < 4
    ensures SameDescription(SQLITE_MIGRATION_RENAMES[i])
  {
  }

  lemma SqliteMiddle(i: nat)
    requires 4 <= i < 6
    ensures SameDescription(SQLITE_MIGRATION_RENAMES[i])
  {
  }

  lemma SqliteLast(i: nat)
    requires 6 <= i < 8
    ensures SameDescription(SQLITE_MIGRATION_RENAMES[i])
  {
  }

  lemma SqliteDescriptions()
    ensures forall r :: r in SQLITE_MIGRATION_RENAMES ==> SameDescription(r)
  {
    forall i | 0 <= i < |SQLITE_MIGRATION_RENAMES|
      ensures SameDescription(SQLITE_MIGRATION_RENAMES[i])
    {
      if i < 4 {
        SqliteFirst(i);
      } else if i < 6 {
        SqliteMiddle(i);
      } else {
        SqliteLast(i);
      }
    }
  }

  lemma PostgresFirst(i: nat)
    requires i < 4
    ensures SameDescription(POSTGRES_MIGRATION_RENAMES[i])
  {
  }

  lemma PostgresMiddle(i: nat)
    requires 4 <= i < 6
    ensures SameDescription(POSTGRES_MIGRATION_RENAMES[i])
  {
  }

  lemma PostgresLast(i: nat)
    requires 6 <= i < 8
    ensures SameDescription(POSTGRES_MIGRATION_RENAMES[i])
  {
  }

  lemma PostgresDescriptions()
    ensures forall r :: r in POSTGRES_MIGRATION_RENAMES ==> SameDescription(r)
  {
    forall i | 0 <= i < |POSTGRES_MIGRATION_RENAMES|
      ensures SameDescription(POSTGRES_MIGRATION_RENAMES[i])
    {
      if i < 4 {
        PostgresFirst(i);
      } else if i < 6 {
        PostgresMiddle(i);
      } else {
        PostgresLast(i);
      }
    }
  }

  /** A Postgres migration begins where the SQLite one ends: it had one migration more before it. */
  lemma TablesAgree(i: nat)
    requires i < 8
    ensures |SQLITE_MIGRATION_RENAMES| == 8 == |POSTGRES_MIGRATION_RENAMES|
    ensures POSTGRES_MIGRATION_RENAMES[i].from_ == SQLITE_MIGRATION_RENAMES[i].to_
  {
  }

  ghost predicate HoldsBoth(names: set<string>, renames: seq<Rename>) {
    exists r :: r in renames && r.from_ in names && r.to_ in names
  }

  /** The table with every old name replaced. */
  function Renamed(names: set<string>, renames: seq<Rename>): set<string> {
    (set x | x in names && !Tombstone(renames, x)) + (set r | r in renames && r.from_ in names :: r.to_)
  }

  ghost predicate IsOrderOf(order: seq<Rename>, renames: seq<Rename>) {
    multiset(order) == multiset(renames)
  }

  lemma OrderElements(order: seq<Rename>, renames: seq<Rename>)
    requires IsOrderOf(order, renames)
    ensures |order| == |renames| && forall r :: r in order <==> r in renames
  {
    assert |multiset(order)| == |order| && |multiset(renames)| == |renames|;
    assert forall r :: r in order <==> r in multiset(order);
    assert forall r :: r in renames <==> r in multiset(renames);
  }

  lemma RenameOneKeeps(db: Db, r: Rename, renames: seq<Rename>)
    requires Independent(renames) && r in renames
    ensures var o := RenameOne(db, r);
            && (HoldsBoth(o.db.names, renames) <==> HoldsBoth(db.names, renames))
            && Renamed(o.db.names, renames) == Renamed(db.names, renames)
            && (!HoldsBoth(db.names, renames) ==>
                  && (o.ok <==> db.fuel > 0)
                  && (o.ok ==> r.from_ !in o.db.names)
                  && (forall s :: s in renames && s.from_ !in db.names ==> s.from_ !in o.db.names))
            && (r.from_ in db.names && r.to_ in db.names ==> !o.ok)
            && o.db.fuel == (if db.fuel == 0 then 0 else db.fuel - 1) && o.db.schema == db.schema && o.db.log == db.log
  {
    var o := RenameOne(db, r);
    if o.db.names != db.names {
      assert o.db.names == db.names - {r.from_} + {r.to_};
      if s :| s in renames && s.from_ in db.names && s.to_ in db.names {
        assert s.from_ in o.db.names && s.to_ in o.db.names;
      }
      if !HoldsBoth(db.names, renames) {
        forall s | s in renames && s.from_ in o.db.names
          ensures s.to_ !in o.db.names
        {
        }
      }
      RenamedSame(db.names, r, renames);
    }
  }

  lemma RenamedSame(names: set<string>, r: Rename, renames: seq<Rename>)
    requires Independent(renames) && r in renames && r.from_ in names
    ensures Renamed(names - {r.from_} + {r.to_}, renames) == Renamed(names, renames)
  {
    var after := names - {r.from_} + {r.to_};
    assert Tombstone(renames, r.from_);
    forall x
      ensures x in Renamed(after, renames) <==> x in Renamed(names, renames)
    {
      if s :| s in renames && s.from_ in after && s.to_ == x {
        assert s.from_ in names;
      }
      if s :| s in renames && s.from_ in names && s.to_ == x {
        assert s == r || s.from_ in after;
      }
    }
  }

  /** Interrupted or not, the renames lose nothing: what they have still to do gives the same table. */
  lemma {:induction false} RenamesKeep(d: Driver, db: Db, order: seq<Rename>, renames: seq<Rename>)
    requires Independent(renames) && forall r :: r in order ==> r in renames
    ensures var o := RenameAll(d, db, order);
            && (HoldsBoth(o.db.names, renames) <==> HoldsBoth(db.names, renames))
            && Renamed(o.db.names, renames) == Renamed(db.names, renames)
            && (!HoldsBoth(db.names, renames) ==>
                  && (o.ok <==> db.fuel >= |order|)
                  && (o.ok ==> forall s :: s in order ==> s.from_ !in o.db.names)
                  && (forall s :: s in renames && s.from_ !in db.names ==> s.from_ !in o.db.names))
            && (o.ok ==> forall s :: s in order ==> !(s.from_ in db.names && s.to_ in db.names))
            && o.db.schema == db.schema && o.db.log == db.log
            && (o.ok ==> o.db.fuel == db.fuel - |order|)
    decreases |order|
  {
    if order != [] {
      RenameOneKeeps(db, order[0], renames);
      var o := RenameOne(db, order[0]);
      RenamesKeep(d, o.db, order[1..], renames);
      ConflictStays(db, order[0], renames);
    }
  }

  lemma ConflictStays(db: Db, r: Rename, renames: seq<Rename>)
    requires Independent(renames) && r in renames
    ensures forall s :: s in renames && s.from_ in db.names && s.to_ in db.names ==>
              s.from_ in RenameOne(db, r).db.names && s.to_ in RenameOne(db, r).db.names
  {
  }

  /**
   * In whatever order the UPDATEs arrive, they succeed exactly when the table never holds both
   * names of a pair, and they leave the same table.
   */
  lemma RenameOrderIrrelevant(d: Driver, db: Db, order: seq<Rename>, renames: seq<Rename>)
    requires Independent(renames) && IsOrderOf(order, renames) && db.fuel >= |order|
    ensures RenameAll(d, db, order).ok <==> !HoldsBoth(db.names, renames)
    ensures RenameAll(d, db, order).ok ==> RenameAll(d, db, order).db.names == Renamed(db.names, renames)
  {
    OrderElements(order, renames);
    RenamesKeep(d, db, order, renames);
    var o := RenameAll(d, db, order);
    if o.ok {
      NothingLeft(o.db.names, renames);
    }
  }

  lemma NothingLeft(names: set<string>, renames: seq<Rename>)
    requires forall r :: r in renames ==> r.from_ !in names
    ensures Renamed(names, renames) == names
  {
  }

  // ---------------------------------------------------------------- applying migrations

  function Created(statements: seq<Statement>): set<string> {
    if statements == [] then {} else {statements[0].creates} + Created(statements[1..])
  }

  function Names(ms: seq<Migration>): set<string> {
    set m | m in ms :: m.name
  }

  ghost predicate Unique(ms: seq<Migration>) {
    forall i, j :: 0 <= i < j < |ms| ==> ms[i].name != ms[j].name
  }

  /** What the migrations that are not recorded create. */
  function Missing(names: set<string>, ms: seq<Migration>): set<string> {
    set m, x | m in ms && m.name !in names && x in Created(m.statements) :: x
  }

  lemma {:induction false} EachCreates(db: Db, name: string, statements: seq<Statement>)
    ensures var o := ExecEach(db, name, statements);
            && o.db.names == db.names
            && db.schema <= o.db.schema <= db.schema + Created(statements)
            && (o.ok ==> Created(statements) <= o.db.schema)
            && db.log <= o.db.log
            && (forall i :: |db.log| <= i < |o.db.log| ==> o.db.log[i] == name)
    decreases |statements|
  {
    if statements != [] && db.fuel > 0 && statements[0].needs <= db.schema {
      var db' := db.(fuel := db.fuel - 1, log := db.log + [name], schema := db.schema + {statements[0].creates});
      EachCreates(db', name, statements[1..]);
    }
  }

  lemma {:induction false} BlockCreates(schema: set<string>, statements: seq<Statement>)
    ensures var (after, ok) := Block(schema, statements);
            ok ==> after == schema + Created(statements)
    decreases |statements|
  {
    if statements != [] {
      BlockCreates(schema + {statements[0].creates}, statements[1..]);
    }
  }

  lemma MissingSplit(names: set<string>, ms: seq<Migration>)
    requires ms != []
    ensures Missing(names, ms) == Missing(names, [ms[0]]) + Missing(names, ms[1..])
    ensures Names(ms) == {ms[0].name} + Names(ms[1..])
  {
    assert ms == [ms[0]] + ms[1..];
    assert forall m :: m in ms <==> m in [ms[0]] || m in ms[1..];
  }

  lemma MissingShrinks(names: set<string>, more: set<string>, ms: seq<Migration>)
    requires names <= more
    ensures Missing(more, ms) <= Missing(names, ms)
  {
  }

  /** What a run over `ms`, complete or cut short, has done when it ends in `o`. */
  ghost predicate Progress(db: Db, o: Outcome, ms: seq<Migration>) {
    && db.names <= o.db.names <= db.names + Names(ms)
    && db.schema <= o.db.schema <= db.schema + Missing(db.names, ms)
    && (forall m :: m in ms && m.name in o.db.names && m.name !in db.names ==> Created(m.statements) <= o.db.schema)
    && (o.ok ==> Names(ms) <= o.db.names)
    && db.log <= o.db.log
    && (forall i :: |db.log| <= i < |o.db.log| ==> o.db.log[i] in Names(ms) - db.names)
  }

  lemma ApplyOneProgress(d: Driver, db: Db, m: Migration)
    ensures var o := ApplyOne(d, db, m);
            Progress(db, o, [m]) && (m.name in db.names ==> o == Outcome(db, true))
  {
    if m.name !in db.names {
      EachCreates(db, m.name, m.statements);
      BlockCreates(db.schema, m.statements);
      assert m in [m] && m.name in Names([m]);
    }
  }

  lemma ProgressStops(db: Db, o: Outcome, ms: seq<Migration>)
    requires Unique(ms) && ms != [] && !o.ok && Progress(db, o, [ms[0]])
    ensures Progress(db, o, ms)
  {
    MissingSplit(db.names, ms);
    forall m | m in ms && m.name in o.db.names && m.name !in db.names
      ensures m == ms[0]
    {
      assert m.name in Names([ms[0]]);
    }
  }

  lemma ProgressChains(db: Db, mid: Outcome, o: Outcome, ms: seq<Migration>)
    requires Unique(ms) && ms != [] && mid.ok && Progress(db, mid, [ms[0]]) && Progress(mid.db, o, ms[1..])
    ensures Progress(db, o, ms)
  {
    MissingSplit(db.names, ms);
    MissingShrinks(db.names, mid.db.names, ms[1..]);
    assert ms[0] in [ms[0]];
    forall m | m in ms && m.name in o.db.names && m.name !in db.names
      ensures Created(m.statements) <= o.db.schema
    {
      assert m == ms[0] || m in ms[1..];
    }
    forall i | |db.log| <= i < |o.db.log|
      ensures o.db.log[i] in Names(ms) - db.names
    {
      assert i < |mid.db.log| ==> o.db.log[i] == mid.db.log[i];
    }
  }

  lemma {:induction false} ApplyAllProgress(d: Driver, db: Db, ms: seq<Migration>)
    requires Unique(ms)
    ensures Progress(db, ApplyAll(d, db, ms), ms)
    decreases |ms|
  {
    if ms != [] {
      var mid := ApplyOne(d, db, ms[0]);
      ApplyOneProgress(d, db, ms[0]);
      if mid.ok {
        ApplyAllProgress(d, mid.db, ms[1..]);
        ProgressChains(db, mid, ApplyAll(d, mid.db, ms[1..]), ms);
      } else {
        ProgressStops(db, mid, ms);
      }
    }
  }

  // ---------------------------------------------------------------- whole runs

  lemma {:induction false} ActiveFiles(renames: seq<Rename>, files: seq<Migration>)
    requires Unique(files)
    ensures Unique(Active(renames, files))
    ensures forall m :: m in Active(renames, files) <==> m in files && !Tombstone(renames, m.name)
  {
    if files != [] {
      var init, last := files[..|files| - 1], files[|files| - 1];
      ActiveFiles(renames, init);
      assert files == init + [last];
      assert forall m :: m in files <==> m in init || m == last;
      assert forall m :: m in init ==> m.name != last.name;
    }
  }

  /** The database as it stands once its old names are read as new ones. */
  function Canonical(renames: seq<Rename>, db: Db): Db {
    db.(names := Renamed(db.names, renames))
  }

  lemma NoneActiveIsOld(renames: seq<Rename>, names: set<string>, ms: seq<Migration>, more: set<string>)
    requires forall r :: r in renames ==> r.from_ !in names
    requires forall m :: m in ms ==> !Tombstone(renames, m.name)
    requires names <= more <= names + Names(ms)
    ensures Renamed(more, renames) == more && !HoldsBoth(more, renames)
  {
    forall r | r in renames
      ensures r.from_ !in more
    {
      assert Tombstone(renames, r.from_);
    }
    NothingLeft(more, renames);
  }

  /** A run cut short anywhere, or refused by a rename, records only what it has fully executed. */
  lemma RunProgress(d: Driver, db: Db, order: seq<Rename>, renames: seq<Rename>, files: seq<Migration>)
    requires Unique(files) && Independent(renames) && IsOrderOf(order, renames)
    ensures var o := RunMigrations(d, db, order, renames, files);
            && Progress(Canonical(renames, db), Outcome(Canonical(renames, o.db), o.ok), Active(renames, files))
            && (o.ok ==> Canonical(renames, o.db) == o.db)
            && (HoldsBoth(o.db.names, renames) ==> HoldsBoth(db.names, renames))
            && (o.ok ==> !HoldsBoth(db.names, renames))
  {
    var ms, r := Active(renames, files), RenameAll(d, db, order);
    OrderElements(order, renames);
    RenamesKeep(d, db, order, renames);
    ActiveFiles(renames, files);
    if r.ok {
      NothingLeft(r.db.names, renames);
      ApplyAllProgress(d, r.db, ms);
      NoneActiveIsOld(renames, r.db.names, ms, ApplyAll(d, r.db, ms).db.names);
    }
  }

  /** Every active migration recorded under its own or its old name has been executed in full. */
  ghost predicate RecordedMeansExecuted(renames: seq<Rename>, db: Db, files: seq<Migration>) {
    forall m :: m in Active(renames, files) && m.name in Renamed(db.names, renames) ==> Created(m.statements) <= db.schema
  }

  lemma RunKeepsRecords(d: Driver, db: Db, order: seq<Rename>, renames: seq<Rename>, files: seq<Migration>)
    requires Unique(files) && Independent(renames) && IsOrderOf(order, renames) && RecordedMeansExecuted(renames, db, files)
    ensures RecordedMeansExecuted(renames, RunMigrations(d, db, order, renames, files).db, files)
  {
    RunProgress(d, db, order, renames, files);
  }

  /** A run that succeeds has recorded every active migration and created all that was missing. */
  lemma SuccessIsComplete(d: Driver, db: Db, order: seq<Rename>, renames: seq<Rename>, files: seq<Migration>)
    requires Unique(files) && Independent(renames) && IsOrderOf(order, renames) && RunMigrations(d, db, order, renames, files).ok
    ensures var o, names, ms := RunMigrations(d, db, order, renames, files), Renamed(db.names, renames), Active(renames, files);
            o.db.names == names + Names(ms) && o.db.schema == db.schema + Missing(names, ms)
  {
    RunProgress(d, db, order, renames, files);
    ProgressDone(Canonical(renames, db), RunMigrations(d, db, order, renames, files), Active(renames, files));
  }

  lemma ProgressDone(db: Db, o: Outcome, ms: seq<Migration>)
    requires Progress(db, o, ms) && o.ok
    ensures o.db.names == db.names + Names(ms) && o.db.schema == db.schema + Missing(db.names, ms)
  {
    forall m, x | m in ms && m.name !in db.names && x in Created(m.statements)
      ensures x in o.db.schema
    {
      assert m.name in Names(ms);
    }
  }

  /** What is recorded, under an old name or a new one, is not executed again. */
  lemma HistoryNotRepeated(d: Driver, db: Db, order: seq<Rename>, renames: seq<Rename>, files: seq<Migration>)
    requires Unique(files) && Independent(renames) && IsOrderOf(order, renames)
    ensures var o := RunMigrations(d, db, order, renames, files);
            && db.log <= o.db.log
            && forall i :: |db.log| <= i < |o.db.log| ==>
                 && o.db.log[i] !in Renamed(db.names, renames)
                 && o.db.log[i] in Names(Active(renames, files))
  {
    RunProgress(d, db, order, renames, files);
  }

  /** After a success, another run executes nothing and changes nothing, however far it gets. */
  lemma SecondRunDoesNothing(d: Driver, db: Db, order: seq<Rename>, renames: seq<Rename>, files: seq<Migration>, order': seq<Rename>, fuel: nat)
    requires Unique(files) && Independent(renames) && IsOrderOf(order, renames) && IsOrderOf(order', renames)
    requires RunMigrations(d, db, order, renames, files).ok
    ensures var before := RunMigrations(d, db, order, renames, files).db;
            var o := RunMigrations(d, before.(fuel := fuel), order', renames, files);
            && o.db.names == before.names && o.db.schema == before.schema && o.db.log == before.log
            && (o.ok <==> fuel >= |order'|)
  {
    var before := RunMigrations(d, db, order, renames, files).db;
    SuccessIsComplete(d, db, order, renames, files);
    RunProgress(d, db, order, renames, files);
    var r := RenameAll(d, before.(fuel := fuel), order');
    OrderElements(order', renames);
    RenamesKeep(d, before.(fuel := fuel), order', renames);
    NoOldName(before.names, renames);
    SettledRenames(d, before.(fuel := fuel), order');
    if r.ok {
      AllRecorded(d, r.db, Active(renames, files));
    }
  }

  lemma NoOldName(names: set<string>, renames: seq<Rename>)
    requires Renamed(names, renames) == names && Independent(renames)
    ensures forall r :: r in renames ==> r.from_ !in names
  {
    forall r | r in renames
      ensures r.from_ !in names
    {
      assert Tombstone(renames, r.from_);
    }
  }

  lemma {:induction false} SettledRenames(d: Driver, db: Db, order: seq<Rename>)
    requires forall r :: r in order ==> r.from_ !in db.names
    ensures RenameAll(d, db, order).db.names == db.names
    decreases |order|
  {
    if order != [] {
      SettledRenames(d, RenameOne(db, order[0]).db, order[1..]);
    }
  }

  lemma {:induction false} AllRecorded(d: Driver, db: Db, ms: seq<Migration>)
    requires Names(ms) <= db.names
    ensures ApplyAll(d, db, ms) == Outcome(db, true)
    decreases |ms|
  {
    if ms != [] {
      assert ms[0].name in Names(ms);
      MissingSplit(db.names, ms);
      AllRecorded(d, db, ms[1..]);
    }
  }

  // ---------------------------------------------------------------- recovery

  /** Each statement of a migration that is not recorded can be met again without an error. */
  ghost predicate Replayable(d: Driver, names: set<string>, ms: seq<Migration>) {
    d.Sqlite? || forall m, s :: m in ms && m.name !in names && s in m.statements ==> s.guarded
  }

  /** `b` is at least as far as `a`, and what only `b` has recorded it has created. */
  ghost predicate Ahead(a: Db, b: Db, ms: seq<Migration>) {
    && a.names <= b.names && a.schema <= b.schema && a.fuel <= b.fuel
    && forall m :: m in ms && m.name in b.names && m.name !in a.names ==> Created(m.statements) <= b.schema
  }

  lemma {:induction false} EachAhead(a: Db, b: Db, name: string, statements: seq<Statement>)
    requires a.schema <= b.schema && a.fuel <= b.fuel && ExecEach(a, name, statements).ok
    ensures var o, p := ExecEach(a, name, statements), ExecEach(b, name, statements);
            p.ok && o.db.schema <= p.db.schema && o.db.fuel <= p.db.fuel && o.db.fuel <= a.fuel
    decreases |statements|
  {
    if statements != [] {
      var c := statements[0].creates;
      EachAhead(a.(fuel := a.fuel - 1, log := a.log + [name], schema := a.schema + {c}),
                b.(fuel := b.fuel - 1, log := b.log + [name], schema := b.schema + {c}), name, statements[1..]);
    }
  }

  lemma {:induction false} EachSpends(a: Db, name: string, statements: seq<Statement>)
    ensures ExecEach(a, name, statements).db.fuel <= a.fuel
    decreases |statements|
  {
    if statements != [] && a.fuel > 0 {
      EachSpends(a.(fuel := a.fuel - 1, log := a.log + [name], schema := a.schema + {statements[0].creates}), name, statements[1..]);
    }
  }

  lemma {:induction false} BlockAhead(a: set<string>, b: set<string>, statements: seq<Statement>)
    requires a <= b && (forall s :: s in statements ==> s.guarded) && Block(a, statements).1
    ensures Block(b, statements).1 && Block(a, statements).0 <= Block(b, statements).0
    decreases |statements|
  {
    if statements != [] {
      BlockAhead(a + {statements[0].creates}, b + {statements[0].creates}, statements[1..]);
    }
  }

  lemma OneAhead(d: Driver, a: Db, b: Db, m: Migration)
    requires Ahead(a, b, [m]) && Replayable(d, a.names, [m]) && ApplyOne(d, a, m).ok
    ensures ApplyOne(d, b, m).ok
    ensures var o, p := ApplyOne(d, a, m).db, ApplyOne(d, b, m).db; o.schema <= p.schema && o.fuel <= p.fuel
  {
    assert m in [m];
    EachCreates(a, m.name, m.statements);
    BlockCreates(a.schema, m.statements);
    EachSpends(a, m.name, m.statements);
    if m.name !in b.names {
      if d.Sqlite? {
        EachAhead(a, b, m.name, m.statements);
      } else {
        BlockAhead(a.schema, b.schema, m.statements);
      }
    }
  }

  lemma {:induction false} AllAhead(d: Driver, a: Db, b: Db, ms: seq<Migration>)
    requires Unique(ms) && Ahead(a, b, ms) && Replayable(d, a.names, ms) && ApplyAll(d, a, ms).ok
    ensures ApplyAll(d, b, ms).ok
    decreases |ms|
  {
    if ms != [] {
      OneAhead(d, a, b, ms[0]);
      ApplyOneProgress(d, a, ms[0]);
      ApplyOneProgress(d, b, ms[0]);
      var o, p := ApplyOne(d, a, ms[0]).db, ApplyOne(d, b, ms[0]).db;
      assert o.names == a.names + {ms[0].name} && p.names == b.names + {ms[0].name};
      AllAhead(d, o, p, ms[1..]);
    }
  }

  /** A run after an interrupted one ends where one uninterrupted run would have ended. */
  lemma RecoversOnce(d: Driver, db: Db, order: seq<Rename>, renames: seq<Rename>, files: seq<Migration>, first: seq<Rename>, crash: nat)
    requires Unique(files) && Independent(renames) && Replayable(d, Renamed(db.names, renames), Active(renames, files))
    requires IsOrderOf(order, renames) && IsOrderOf(first, renames) && RunMigrations(d, db, order, renames, files).ok
    ensures var mid := RunMigrations(d, db.(fuel := crash), first, renames, files).db.(fuel := db.fuel);
            var o, p := RunMigrations(d, db, order, renames, files), RunMigrations(d, mid, order, renames, files);
            p.ok && p.db.names == o.db.names && p.db.schema == o.db.schema
  {
    var ms := Active(renames, files);
    var mid := RunMigrations(d, db.(fuel := crash), first, renames, files).db.(fuel := db.fuel);
    RunProgress(d, db, order, renames, files);
    RunProgress(d, db.(fuel := crash), first, renames, files);
    ActiveFiles(renames, files);
    OrderElements(order, renames);
    RenamesKeep(d, db, order, renames);
    RenamesKeep(d, mid, order, renames);
    RenameOrderIrrelevant(d, db, order, renames);
    RenameOrderIrrelevant(d, mid, order, renames);
    AllAhead(d, RenameAll(d, db, order).db, RenameAll(d, mid, order).db, ms);
    SuccessIsComplete(d, db, order, renames, files);
    SuccessIsComplete(d, mid, order, renames, files);
    SameInTheEnd(Canonical(renames, db), Outcome(Canonical(renames, mid), false), ms);
  }

  lemma SameInTheEnd(db: Db, mid: Outcome, ms: seq<Migration>)
    requires db.names <= mid.db.names <= db.names + Names(ms)
    requires db.schema <= mid.db.schema <= db.schema + Missing(db.names, ms)
    requires forall m :: m in ms && m.name in mid.db.names && m.name !in db.names ==> Created(m.statements) <= mid.db.schema
    ensures mid.db.names + Names(ms) == db.names + Names(ms)
    ensures mid.db.schema + Missing(mid.db.names, ms) == db.schema + Missing(db.names, ms)
  {
    MissingShrinks(db.names, mid.db.names, ms);
    forall m, x | m in ms && m.name !in db.names && x in Created(m.statements)
      ensures x in mid.db.schema + Missing(mid.db.names, ms)
    {
    }
  }

  datatype Attempt = Attempt(order: seq<Rename>, crash: nat)

  /** Run after run, each stopped by the environment at the write it chooses. */
  function Attempts(d: Driver, db: Db, renames: seq<Rename>, files: seq<Migration>, attempts: seq<Attempt>): Db
    decreases |attempts|
  {
    if attempts == [] then db
    else
      var o := RunMigrations(d, db.(fuel := attempts[0].crash), attempts[0].order, renames, files);
      Attempts(d, o.db.(fuel := db.fuel), renames, files, attempts[1..])
  }

  /**
   * However often and wherever the runner has failed before, the next undisturbed run succeeds if a
   * first one would have, with each active migration recorded and the same schema.
   */
  lemma {:induction false} AlwaysRecovers(d: Driver, db: Db, order: seq<Rename>, renames: seq<Rename>, files: seq<Migration>, attempts: seq<Attempt>)
    requires Unique(files) && Independent(renames) && Replayable(d, Renamed(db.names, renames), Active(renames, files))
    requires IsOrderOf(order, renames) && forall a :: a in attempts ==> IsOrderOf(a.order, renames)
    requires RunMigrations(d, db, order, renames, files).ok
    ensures var o, p := RunMigrations(d, db, order, renames, files), RunMigrations(d, Attempts(d, db, renames, files, attempts), order, renames, files);
            p.ok && p.db.names == o.db.names && p.db.schema == o.db.schema
    decreases |attempts|
  {
    if attempts != [] {
      var mid := RunMigrations(d, db.(fuel := attempts[0].crash), attempts[0].order, renames, files).db.(fuel := db.fuel);
      RecoversOnce(d, db, order, renames, files, attempts[0].order, attempts[0].crash);
      RunProgress(d, db.(fuel := attempts[0].crash), attempts[0].order, renames, files);
      AlwaysRecovers(d, mid, order, renames, files, attempts[1..]);
    }
  }

  // ---------------------------------------------------------------- exactly when Postgres recovers

  /** On Postgres an unguarded statement whose object exists without a record makes every run fail. */
  lemma UnguardedBlocksForever(db: Db, order: seq<Rename>, renames: seq<Rename>, files: seq<Migration>, m: Migration, i: nat)
    requires Unique(files) && Independent(renames) && IsOrderOf(order, renames) && m in Active(renames, files)
    requires m.name !in Renamed(db.names, renames)
    requires i < |m.statements| && !m.statements[i].guarded && m.statements[i].creates in db.schema
    ensures !RunMigrations(Postgres, db, order, renames, files).ok
  {
    var r, ms := RenameAll(Postgres, db, order), Active(renames, files);
    OrderElements(order, renames);
    RenamesKeep(Postgres, db, order, renames);
    ActiveFiles(renames, files);
    if r.ok {
      NothingLeft(r.db.names, renames);
      var k :| 0 <= k < |ms| && ms[k] == m;
      ReachedBlock(r.db, ms, k, i);
    }
  }

  lemma {:induction false} BlockFails(schema: set<string>, statements: seq<Statement>, i: nat)
    requires i < |statements| && !statements[i].guarded && statements[i].creates in schema
    ensures !Block(schema, statements).1
    decreases i
  {
    if i > 0 {
      BlockFails(schema + {statements[0].creates}, statements[1..], i - 1);
    }
  }

  lemma {:induction false} ReachedBlock(db: Db, ms: seq<Migration>, k: nat, i: nat)
    requires Unique(ms) && k < |ms| && ms[k].name !in db.names
    requires i < |ms[k].statements| && !ms[k].statements[i].guarded && ms[k].statements[i].creates in db.schema
    ensures !ApplyAll(Postgres, db, ms).ok
    decreases k
  {
    if k == 0 {
      BlockFails(db.schema, ms[0].statements, i);
    } else {
      var o := ApplyOne(Postgres, db, ms[0]);
      ApplyOneProgress(Postgres, db, ms[0]);
      if o.ok {
        ReachedBlock(o.db, ms[1..], k - 1, i);
      }
    }
  }

  lemma {:induction false} RenameFuel(db: Db, order: seq<Rename>, fuel: nat)
    requires RenameAll(Postgres, db, order).ok
    ensures |order| <= db.fuel
    ensures RenameAll(Postgres, db.(fuel := |order| + fuel), order) ==
            Outcome(RenameAll(Postgres, db, order).db.(fuel := fuel), true)
    decreases |order|
  {
    if order != [] {
      RenameFuel(RenameOne(db, order[0]).db, order[1..], fuel);
    }
  }

  /** The writes that one migration takes when it succeeds: the block and the record, or none. */
  function Writes(db: Db, m: Migration): nat {
    if m.name in db.names then 0 else 2
  }

  lemma ApplyFuel(db: Db, m: Migration, fuel: nat)
    requires ApplyOne(Postgres, db, m).ok
    ensures ApplyOne(Postgres, db.(fuel := Writes(db, m) + fuel), m) == Outcome(ApplyOne(Postgres, db, m).db.(fuel := fuel), true)
  {
  }

  /** The number of writes after which migration k has been executed and not yet recorded. */
  lemma {:induction false} CrashPoint(db: Db, ms: seq<Migration>, k: nat) returns (crash: nat)
    requires Unique(ms) && k < |ms| && ms[k].name !in db.names && ApplyAll(Postgres, db, ms).ok
    ensures var o := ApplyAll(Postgres, db.(fuel := crash), ms);
            ms[k].name !in o.db.names && Created(ms[k].statements) <= o.db.schema
    decreases k
  {
    if k == 0 {
      crash := 1;
      BlockCreates(db.schema, ms[0].statements);
    } else {
      var o := ApplyOne(Postgres, db, ms[0]);
      ApplyOneProgress(Postgres, db, ms[0]);
      crash := CrashPoint(o.db, ms[1..], k - 1);
      ApplyFuel(db, ms[0], crash);
      crash := Writes(db, ms[0]) + crash;
    }
  }

  lemma {:induction false} StatementCreates(statements: seq<Statement>, i: nat)
    requires i < |statements|
    ensures statements[i].creates in Created(statements)
    decreases i
  {
    if i > 0 {
      StatementCreates(statements[1..], i - 1);
    }
  }

  /** A run with enough writes for the renames goes on to the migrations with the rest of them. */
  lemma RunAfterRenames(db: Db, order: seq<Rename>, renames: seq<Rename>, files: seq<Migration>, fuel: nat)
    requires RenameAll(Postgres, db, order).ok
    ensures RunMigrations(Postgres, db.(fuel := |order| + fuel), order, renames, files)
         == ApplyAll(Postgres, RenameAll(Postgres, db, order).db.(fuel := fuel), Active(renames, files))
  {
    RenameFuel(db, order, fuel);
  }

  lemma RenamesDone(db: Db, order: seq<Rename>, renames: seq<Rename>)
    requires Independent(renames) && IsOrderOf(order, renames) && RenameAll(Postgres, db, order).ok
    ensures var names := RenameAll(Postgres, db, order).db.names; names == Renamed(db.names, renames) == Renamed(names, renames)
  {
    OrderElements(order, renames);
    RenameFuel(db, order, 0);
    RenameOrderIrrelevant(Postgres, db, order, renames);
    RenamedTwice(db.names, renames);
  }

  /** Each pending migration with an unguarded statement has a crash after which no run succeeds any more. */
  lemma CrashSticks(db: Db, order: seq<Rename>, renames: seq<Rename>, files: seq<Migration>, m: Migration, i: nat) returns (crash: nat)
    requires Unique(files) && Independent(renames) && IsOrderOf(order, renames)
    requires RunMigrations(Postgres, db, order, renames, files).ok
    requires m in Active(renames, files) && m.name !in Renamed(db.names, renames)
    requires i < |m.statements| && !m.statements[i].guarded
    ensures var stuck := RunMigrations(Postgres, db.(fuel := crash), order, renames, files).db;
            forall fuel: nat :: !RunMigrations(Postgres, stuck.(fuel := fuel), order, renames, files).ok
  {
    var r := RenameAll(Postgres, db, order).db;
    ActiveFiles(renames, files);
    RenamesDone(db, order, renames);
    var point := CrashOf(r, Active(renames, files), m);
    StuckNow(r.(fuel := point), order, renames, files, m, i);
    RunAfterRenames(db, order, renames, files, point);
    crash := |order| + point;
  }

  lemma CrashOf(db: Db, ms: seq<Migration>, m: Migration) returns (crash: nat)
    requires Unique(ms) && m in ms && m.name !in db.names && ApplyAll(Postgres, db, ms).ok
    ensures var o := ApplyAll(Postgres, db.(fuel := crash), ms); m.name !in o.db.names && Created(m.statements) <= o.db.schema
  {
    var k :| 0 <= k < |ms| && ms[k] == m;
    crash := CrashPoint(db, ms, k);
  }

  lemma StuckNow(db: Db, order: seq<Rename>, renames: seq<Rename>, files: seq<Migration>, m: Migration, i: nat)
    requires Unique(files) && Independent(renames) && IsOrderOf(order, renames) && Renamed(db.names, renames) == db.names
    requires m in Active(renames, files) && i < |m.statements| && !m.statements[i].guarded
    requires var o := ApplyAll(Postgres, db, Active(renames, files)); m.name !in o.db.names && Created(m.statements) <= o.db.schema
    ensures var stuck := ApplyAll(Postgres, db, Active(renames, files)).db;
            forall fuel: nat :: !RunMigrations(Postgres, stuck.(fuel := fuel), order, renames, files).ok
  {
    var ms := Active(renames, files);
    var stuck := ApplyAll(Postgres, db, ms).db;
    ActiveFiles(renames, files);
    ApplyAllProgress(Postgres, db, ms);
    NoOldName(db.names, renames);
    NoneActiveIsOld(renames, db.names, ms, stuck.names);
    StatementCreates(m.statements, i);
    forall fuel: nat
      ensures !RunMigrations(Postgres, stuck.(fuel := fuel), order, renames, files).ok
    {
      UnguardedBlocksForever(stuck.(fuel := fuel), order, renames, files, m, i);
    }
  }

  lemma RenamedTwice(names: set<string>, renames: seq<Rename>)
    requires Independent(renames)
    ensures Renamed(Renamed(names, renames), renames) == Renamed(names, renames)
  {
    NothingLeft(Renamed(names, renames), renames);
  }

  /** Whatever the attempts so far, an undisturbed run succeeds. */
  ghost predicate Recovers(d: Driver, db: Db, order: seq<Rename>, renames: seq<Rename>, files: seq<Migration>) {
    forall attempts: seq<Attempt> :: (forall a :: a in attempts ==> IsOrderOf(a.order, renames)) ==>
      RunMigrations(d, Attempts(d, db, renames, files, attempts), order, renames, files).ok
  }

  /**
   * Recovery, exactly: when an undisturbed run would succeed now, it will after every sequence of failed
   * attempts if and only if the driver is SQLite or every migration that is not recorded has only guarded statements.
   */
  lemma RecoversExactly(d: Driver, db: Db, order: seq<Rename>, renames: seq<Rename>, files: seq<Migration>)
    requires Unique(files) && Independent(renames) && IsOrderOf(order, renames)
    requires RunMigrations(d, db, order, renames, files).ok
    ensures Recovers(d, db, order, renames, files) <==> Replayable(d, Renamed(db.names, renames), Active(renames, files))
  {
    if Replayable(d, Renamed(db.names, renames), Active(renames, files)) {
      forall attempts: seq<Attempt> | forall a :: a in attempts ==> IsOrderOf(a.order, renames)
        ensures RunMigrations(d, Attempts(d, db, renames, files, attempts), order, renames, files).ok
      {
        AlwaysRecovers(d, db, order, renames, files, attempts);
      }
    } else {
      var m, s :| m in Active(renames, files) && m.name !in Renamed(db.names, renames) && s in m.statements && !s.guarded;
      var i :| 0 <= i < |m.statements| && m.statements[i] == s;
      var crash := CrashSticks(db, order, renames, files, m, i);
      OneAttempt(d, db, order, renames, files, crash);
      assert !RunMigrations(d, Attempts(d, db, renames, files, [Attempt(order, crash)]), order, renames, files).ok;
    }
  }

  lemma OneAttempt(d: Driver, db: Db, order: seq<Rename>, renames: seq<Rename>, files: seq<Migration>, crash: nat)
    ensures Attempts(d, db, renames, files, [Attempt(order, crash)]) ==
            RunMigrations(d, db.(fuel := crash), order, renames, files).db.(fuel := db.fuel)
  {
    assert [Attempt(order, crash)][1..] == [];
  }

  // ---------------------------------------------------------------- a migration of the repository

  /** Two columns, added without a guard. */
  const CACHE_TOKENS := Migration("014_stage_runs_cache_tokens", [
    Statement("stage_runs.cache_creation_input_tokens", {"stage_runs"}, false),
    Statement("stage_runs.cache_read_input_tokens", {"stage_runs"}, false)])

  lemma CacheTokensNotOld()
    ensures !Tombstone(POSTGRES_MIGRATION_RENAMES, CACHE_TOKENS.name)
  {
    PostgresCodes();
    assert Code(CACHE_TOKENS.name) == 2714;
    NotOldByCode(POSTGRES_MIGRATION_RENAMES, POSTGRES_FROM, POSTGRES_TO, CACHE_TOKENS.name);
  }

  lemma NotOldByCode(renames: seq<Rename>, from_: seq<int>, to_: seq<int>, name: string)
    requires Coded(renames, from_, to_) && Code(name) !in from_
    ensures !Tombstone(renames, name)
  {
    forall r | r in renames
      ensures r.from_ != name
    {
      var i :| 0 <= i < |renames| && renames[i] == r;
      assert CodesOf(r, from_[i], to_[i]) && from_[i] in from_;
    }
  }

  lemma UnguardedSticks(db: Db, order: seq<Rename>, renames: seq<Rename>, files: seq<Migration>, m: Migration, i: nat)
    requires Unique(files) && Independent(renames) && IsOrderOf(order, renames)
    requires RunMigrations(Postgres, db, order, renames, files).ok
    requires m in files && !Tombstone(renames, m.name) && m.name !in Renamed(db.names, renames)
    requires i < |m.statements| && !m.statements[i].guarded
    ensures !Recovers(Postgres, db, order, renames, files)
  {
    ActiveFiles(renames, files);
    assert m.statements[i] in m.statements;
    RecoversExactly(Postgres, db, order, renames, files);
  }

  /** The repository's own migration 014 on Postgres: wherever it is pending, some crash stops every later start. */
  lemma CacheTokensStick(db: Db, order: seq<Rename>, files: seq<Migration>)
    requires Unique(files) && IsOrderOf(order, POSTGRES_MIGRATION_RENAMES)
    requires RunMigrations(Postgres, db, order, POSTGRES_MIGRATION_RENAMES, files).ok
    requires CACHE_TOKENS in files && CACHE_TOKENS.name !in Renamed(db.names, POSTGRES_MIGRATION_RENAMES)
    ensures !Recovers(Postgres, db, order, POSTGRES_MIGRATION_RENAMES, files)
  {
    PostgresIndependent();
    CacheTokensNotOld();
    UnguardedSticks(db, order, POSTGRES_MIGRATION_RENAMES, files, CACHE_TOKENS, 0);
  }

  /** For instance on a database that has the table and no record at all. */
  lemma CacheTokensExample(order: seq<Rename>, db: Db)
    requires IsOrderOf(order, POSTGRES_MIGRATION_RENAMES) && db == Db({}, {"stage_runs"}, |order| + 2, [])
    ensures RunMigrations(Postgres, db, order, POSTGRES_MIGRATION_RENAMES, [CACHE_TOKENS]).ok
    ensures !Recovers(Postgres, db, order, POSTGRES_MIGRATION_RENAMES, [CACHE_TOKENS])
  {
    PostgresIndependent();
    CacheTokensNotOld();
    CacheTokensBlock();
    FreshRun(db, order, POSTGRES_MIGRATION_RENAMES, CACHE_TOKENS);
    CacheTokensStick(db, order, [CACHE_TOKENS]);
  }

  lemma CacheTokensBlock()
    ensures Block({"stage_runs"}, CACHE_TOKENS.statements).1
  {
    var s := CACHE_TOKENS.statements;
    TwoStatements("stage_runs", s[0], s[1]);
    assert s == [s[0], s[1]];
  }

  lemma TwoStatements(table: string, a: Statement, b: Statement)
    requires a.needs == {table} == b.needs && a.creates != table && b.creates != table && a.creates != b.creates
    ensures Block({table}, [a, b]).1
  {
    var one := {table} + {a.creates};
    assert [a, b][1..] == [b] && [b][1..] == [];
    assert Block({table}, [a, b]) == Block(one, [b]);
    assert Block(one, [b]) == Block(one + {b.creates}, []);
  }

  lemma FreshRun(db: Db, order: seq<Rename>, renames: seq<Rename>, m: Migration)
    requires Independent(renames) && IsOrderOf(order, renames) && !Tombstone(renames, m.name)
    requires db.names == {} && db.fuel == |order| + 2 && Block(db.schema, m.statements).1
    ensures RunMigrations(Postgres, db, order, renames, [m]).ok
    ensures m.name !in Renamed(db.names, renames)
  {
    RenameOrderIrrelevant(Postgres, db, order, renames);
    OrderElements(order, renames);
    RenamesKeep(Postgres, db, order, renames);
    assert [m][..0] == [] && [m][1..] == [];
    assert Active(renames, [m]) == [m];
    var r := RenameAll(Postgres, db, order);
    assert r.db.names == {} && r.db.fuel == 2;
    assert ApplyAll(Postgres, r.db, [m]).ok;
  }
}
