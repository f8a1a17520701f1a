/** The migration runner (packages/core/src/db/migrator.ts). */
module Migrator {
  datatype Driver = Sqlite | Postgres

  datatype Rename = Rename(from_: string, to_: string)

  /**
   * What one statement establishes (a table, a column, an index, or the new type of a column), what it needs,
   * and whether repeating it is guarded: by IF NOT EXISTS, or by a block that looks first.
   */
  datatype Statement = Statement(creates: string, needs: set<string>, guarded: bool)

  datatype Migration = Migration(name: string, statements: seq<Statement>)

  /**
   * `names` are the rows of `schema_migrations` and `schema` what has been created; `fuel` is the number of
   * writes the environment lets through before one fails, and `log` holds a name for each statement executed.
   */
  datatype Db = Db(names: set<string>, schema: set<string>, fuel: nat, log: seq<string>)

  datatype Outcome = Outcome(db: Db, ok: bool)

  const SQLITE_MIGRATION_RENAMES: seq<Rename> := [
    Rename("007_sso", "008_sso"),
    Rename("008_review_model_runs", "009_review_model_runs"),
    Rename("009_release_manager", "010_release_manager"),
    Rename("010_qa_run_columns", "011_qa_run_columns"),
    Rename("011_qa_gap_issues", "012_qa_gap_issues"),
    Rename("012_stage_runs_cache_tokens", "013_stage_runs_cache_tokens"),
    Rename("013_missing_indexes", "014_missing_indexes"),
    Rename("013_triage_results", "015_triage_results")]

  const POSTGRES_MIGRATION_RENAMES: seq<Rename> := [
    Rename("008_sso", "009_sso"),
    Rename("009_review_model_runs", "010_review_model_runs"),
    Rename("010_release_manager", "011_release_manager"),
    Rename("011_qa_run_columns", "012_qa_run_columns"),
    Rename("012_qa_gap_issues", "013_qa_gap_issues"),
    Rename("013_stage_runs_cache_tokens", "014_stage_runs_cache_tokens"),
    Rename("014_missing_indexes", "015_missing_indexes"),
    Rename("015_triage_results", "016_triage_results")]

  // ---------------------------------------------------------------- what the runner does

  /** One UPDATE; the UNIQUE column makes it fail when both names are there. */
  function RenameOne(db: Db, r: Rename): Outcome {
    if db.fuel == 0 then Outcome(db, false)
    else
      var db := db.(fuel := db.fuel - 1);
      if r.from_ !in db.names || r.from_ == r.to_ then Outcome(db, true)
      else if r.to_ in db.names then Outcome(db, false)
      else Outcome(db.(names := db.names - {r.from_} + {r.to_}), true)
  }

  /** SQLite stops at the first failure; Postgres issues every UPDATE anyway. */
  function RenameAll(d: Driver, db: Db, order: seq<Rename>): Outcome
    decreases |order|
  {
    if order == [] then Outcome(db, true)
    else
      var o := RenameOne(db, order[0]);
      if !o.ok && d.Sqlite? then o
      else
        var rest := RenameAll(d, o.db, order[1..]);
        Outcome(rest.db, o.ok && rest.ok)
  }

  /** Each statement on its own; "already exists" and "duplicate column name" are skipped. */
  function ExecEach(db: Db, name: string, statements: seq<Statement>): Outcome
    decreases |statements|
  {
    if statements == [] then Outcome(db, true)
    else if db.fuel == 0 then Outcome(db, false)
    else
      var db := db.(fuel := db.fuel - 1, log := db.log + [name]);
      var s := statements[0];
      if !(s.needs <= db.schema) then Outcome(db, false)
      else ExecEach(db.(schema := db.schema + {s.creates}), name, statements[1..])
  }

  /** All statements or none; an unguarded one fails on what already exists. */
  function Block(schema: set<string>, statements: seq<Statement>): (set<string>, bool)
    decreases |statements|
  {
    if statements == [] then (schema, true)
    else
      var s := statements[0];
      if !(s.needs <= schema) || (s.creates in schema && !s.guarded) then (schema, false)
      else Block(schema + {s.creates}, statements[1..])
  }

  function ExecBlock(db: Db, name: string, statements: seq<Statement>): Outcome {
    if db.fuel == 0 then Outcome(db, false)
    else
      var (schema, ok) := Block(db.schema, statements);
      var db := db.(fuel := db.fuel - 1, log := db.log + [name]);
      Outcome(if ok then db.(schema := schema) else db, ok)
  }

  function Execute(d: Driver, db: Db, m: Migration): Outcome {
    if d.Sqlite? then ExecEach(db, m.name, m.statements) else ExecBlock(db, m.name, m.statements)
  }

  function Record(db: Db, name: string): Outcome {
    if db.fuel == 0 then Outcome(db, false) else Outcome(db.(fuel := db.fuel - 1, names := db.names + {name}), true)
  }

  function ApplyOne(d: Driver, db: Db, m: Migration): Outcome {
    if m.name in db.names then Outcome(db, true)
    else
      var o := Execute(d, db, m);
      if o.ok then Record(o.db, m.name) else o
  }

  function ApplyAll(d: Driver, db: Db, ms: seq<Migration>): Outcome
    decreases |ms|
  {
    if ms == [] then Outcome(db, true)
    else
      var o := ApplyOne(d, db, ms[0]);
      if o.ok then ApplyAll(d, o.db, ms[1..]) else o
  }

  predicate Tombstone(renames: seq<Rename>, name: string) {
    exists r :: r in renames && r.from_ == name
  }

  function Active(renames: seq<Rename>, files: seq<Migration>): seq<Migration> {
    if files == [] then []
    else
      var rest := Active(renames, files[..|files| - 1]);
      if Tombstone(renames, files[|files| - 1].name) then rest else rest + [files[|files| - 1]]
  }

  /** `order` is the order in which the UPDATEs of the renames reach the table. */
  function RunMigrations(d: Driver, db: Db, order: seq<Rename>, renames: seq<Rename>, files: seq<Migration>): Outcome {
    var o := RenameAll(d, db, order);
    if o.ok then ApplyAll(d, o.db, Active(renames, files)) else o
  }

  class Database {
    var names: set<string>
    var schema: set<string>
    var fuel: nat
    var log: seq<string>

    function State(): Db
      reads this
    {
      Db(names, schema, fuel, log)
    }

    constructor (db: Db)
      ensures State() == db
    {
      names, schema, fuel, log := db.names, db.schema, db.fuel, db.log;
    }

    method Update(r: Rename) returns (ok: bool)
      modifies this
      ensures Outcome(State(), ok) == RenameOne(old(State()), r)
    {
      if fuel == 0 {
        return false;
      }
      fuel := fuel - 1;
      if r.from_ in names && r.from_ != r.to_ {
        if r.to_ in names {
          return false;
        }
        names := names - {r.from_} + {r.to_};
      }
      return true;
    }

    method Exec(name: string, s: Statement) returns (ok: bool)
      modifies this
      ensures Outcome(State(), ok) == ExecEach(old(State()), name, [s])
    {
      if fuel == 0 {
        return false;
      }
      fuel, log := fuel - 1, log + [name];
      if !(s.needs <= schema) {
        return false;
      }
      schema := schema + {s.creates};
      return true;
    }

    method Insert(name: string) returns (ok: bool)
      modifies this
      ensures Outcome(State(), ok) == Record(old(State()), name)
    {
      if fuel == 0 {
        return false;
      }
      fuel, names := fuel - 1, names + {name};
      return true;
    }

    method RunMigrationsSqlite(files: seq<Migration>) returns (ok: bool)
      modifies this
      ensures Outcome(State(), ok) == RunMigrations(Sqlite, old(State()), SQLITE_MIGRATION_RENAMES, SQLITE_MIGRATION_RENAMES, files)
    {
      var renames := SQLITE_MIGRATION_RENAMES;
      for i := 0 to |renames|
        invariant RenameAll(Sqlite, State(), renames[i..]) == RenameAll(Sqlite, old(State()), renames)
      {
        ok := Update(renames[i]);
        if !ok {
          return;
        }
      }
      var migrations := Active(renames, files);
      ghost var renamed := State();
      for i := 0 to |migrations|
        invariant ApplyAll(Sqlite, State(), migrations[i..]) == ApplyAll(Sqlite, renamed, migrations)
      {
        var m := migrations[i];
        if m.name in names {
          continue;
        }
        ghost var before := State();
        for j := 0 to |m.statements|
          invariant ExecEach(State(), m.name, m.statements[j..]) == ExecEach(before, m.name, m.statements)
        {
          ExecFirst(State(), m.name, m.statements[j..]);
          ok := Exec(m.name, m.statements[j]);
          if !ok {
            return;
          }
        }
        ok := Insert(m.name);
        if !ok {
          return;
        }
      }
      return true;
    }

    /** The rename UPDATEs are issued together: they may reach the table in any order. */
    method RunMigrationsPostgres(order: seq<Rename>, files: seq<Migration>) returns (ok: bool)
      modifies this
      ensures Outcome(State(), ok) == RunMigrations(Postgres, old(State()), order, POSTGRES_MIGRATION_RENAMES, files)
    {
      ok := true;
      for i := 0 to |order|
        invariant var rest, all := RenameAll(Postgres, State(), order[i..]), RenameAll(Postgres, old(State()), order);
                  all == Outcome(rest.db, ok && rest.ok)
      {
        var done := Update(order[i]);
        ok := ok && done;
      }
      if !ok {
        return;
      }
      var migrations := Active(POSTGRES_MIGRATION_RENAMES, files);
      ghost var renamed := State();
      for i := 0 to |migrations|
        invariant ApplyAll(Postgres, State(), migrations[i..]) == ApplyAll(Postgres, renamed, migrations)
      {
        var m := migrations[i];
        if m.name in names {
          continue;
        }
        ok := Unsafe(m);
        if !ok {
          return;
        }
        ok := Insert(m.name);
        if !ok {
          return;
        }
      }
      return true;
    }

    method Unsafe(m: Migration) returns (ok: bool)
      modifies this
      ensures Outcome(State(), ok) == ExecBlock(old(State()), m.name, m.statements)
    {
      if fuel == 0 {
        return false;
      }
      var (after, done) := Block(schema, m.statements);
      fuel, log := fuel - 1, log + [m.name];
      if done {
        schema := after;
      }
      return done;
    }
  }

  lemma ExecFirst(db: Db, name: string, statements: seq<Statement>)
    requires statements != []
    ensures var o := ExecEach(db, name, [statements[0]]);
            ExecEach(db, name, statements) == if o.ok then ExecEach(o.db, name, statements[1..]) else o
  {
    assert [statements[0]][1..] == [];
  }
}
