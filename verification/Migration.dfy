/** Running the schema migrations: validation of the table configuration, the
    column diff, and the DDL issued table by table in foreign-key order.

    A database is a map from table names to their columns, in order, and to the
    columns that carry an index. A statement either changes it or is rejected. */
module Migration {
  import opened Wrappers
  import Digraph
  import opened TopologicalSort

  datatype Driver = Sqlite | Postgres | Mysql

  datatype TableState = TableState(columns: seq<string>, indexes: set<string>)

  type Schema = map<string, TableState>

  datatype Ddl =
    | CreateTable(table: Table)
    | AddColumn(name: string, column: string)
    | DropColumn(name: string, column: string)
    | CreateIndex(name: string, column: string)

  ghost predicate Distinct(s: seq<string>) {
    forall i, j :: 0 <= i < j < |s| ==> s[i] != s[j]
  }

  /** The elements of `s` that are not in `out`. */
  function Minus(s: seq<string>, out: set<string>): seq<string> {
    if s == [] then []
    else Minus(s[..|s| - 1], out) + (if s[|s| - 1] in out then [] else [s[|s| - 1]])
  }

  function Names(columns: seq<Column>): seq<string> {
    if columns == [] then [] else Names(columns[..|columns| - 1]) + [columns[|columns| - 1].name]
  }

  // ---------------------------------------------------------------------------
  // The database
  // ---------------------------------------------------------------------------

  /** CREATE is IF NOT EXISTS and checks foreign keys; ADD rejects an existing column
      and DROP a missing one; SQLite refuses to drop an indexed column, and MySQL has no
      IF NOT EXISTS for indexes. */
  function Apply(schema: Schema, driver: Driver, ddl: Ddl): Option<Schema> {
    match ddl
    case CreateTable(t) =>
      if t.name in schema then Some(schema)
      else if forall f :: f in t.foreignKeys ==> f.referencesTable in schema || f.referencesTable == t.name
      then Some(schema[t.name := TableState(Names(t.columns), {})])
      else None
    case AddColumn(name, column) =>
      if name in schema && column !in schema[name].columns
      then Some(schema[name := schema[name].(columns := schema[name].columns + [column])])
      else None
    case DropColumn(name, column) =>
      if name in schema && column in schema[name].columns && !(driver == Sqlite && column in schema[name].indexes)
      then Some(schema[name := TableState(Minus(schema[name].columns, {column}), schema[name].indexes - {column})])
      else None
    case CreateIndex(name, column) =>
      if name in schema && column in schema[name].columns && !(driver == Mysql && column in schema[name].indexes)
      then Some(schema[name := schema[name].(indexes := schema[name].indexes + {column})])
      else None
  }

  /** The schema after a whole list of statements, if none is rejected. */
  function ApplyAll(schema: Schema, driver: Driver, ddls: seq<Ddl>): Option<Schema> {
    if ddls == [] then Some(schema)
    else
      var before := ApplyAll(schema, driver, ddls[..|ddls| - 1]);
      if before.None? then None else Apply(before.value, driver, ddls[|ddls| - 1])
  }

  lemma {:induction false} ApplyAllAppend(schema: Schema, driver: Driver, a: seq<Ddl>, b: seq<Ddl>)
    ensures ApplyAll(schema, driver, a + b)
         == (var mid := ApplyAll(schema, driver, a); if mid.None? then None else ApplyAll(mid.value, driver, b))
    decreases |b|
  {
    if b == [] {
      assert a + b == a;
    } else {
      assert (a + b)[..|a + b| - 1] == a + b[..|b| - 1];
      ApplyAllAppend(schema, driver, a, b[..|b| - 1]);
    }
  }

  /** Statements run one by one up to the first that is rejected: the schema left behind,
      the statements that were executed, and whether that was all of them. */
  datatype Execution = Execution(schema: Schema, executed: seq<Ddl>, ok: bool)

  function Then(before: Execution, driver: Driver, ddl: Ddl): Execution {
    if !before.ok then before
    else
      var after := Apply(before.schema, driver, ddl);
      if after.None? then before.(ok := false) else Execution(after.value, before.executed + [ddl], true)
  }

  function Execute(schema: Schema, driver: Driver, ddls: seq<Ddl>): Execution {
    if ddls == [] then Execution(schema, [], true)
    else Then(Execute(schema, driver, ddls[..|ddls| - 1]), driver, ddls[|ddls| - 1])
  }

  /** All or a proper prefix is executed; the schema is that of the executed statements, and
      the statement after them is one that it rejects. */
  lemma {:induction false} ExecutesPrefix(schema: Schema, driver: Driver, ddls: seq<Ddl>)
    ensures Stopped(schema, driver, ddls, Execute(schema, driver, ddls))
    ensures Execute(schema, driver, ddls).ok <==> ApplyAll(schema, driver, ddls).Some?
    decreases |ddls|
  {
    if ddls != [] {
      var front, last := ddls[..|ddls| - 1], ddls[|ddls| - 1];
      ExecutesPrefix(schema, driver, front);
      StoppedSnoc(schema, driver, front, last, Execute(schema, driver, front));
      assert ddls == front + [last];
    }
  }

  ghost predicate Stopped(schema: Schema, driver: Driver, ddls: seq<Ddl>, e: Execution) {
    && e.executed <= ddls && ApplyAll(schema, driver, e.executed) == Some(e.schema)
    && (e.ok ==> e.executed == ddls)
    && (!e.ok ==> |e.executed| < |ddls| && Apply(e.schema, driver, ddls[|e.executed|]).None?)
  }

  lemma StoppedSnoc(schema: Schema, driver: Driver, front: seq<Ddl>, last: Ddl, e: Execution)
    requires Stopped(schema, driver, front, e)
    ensures Stopped(schema, driver, front + [last], Then(e, driver, last))
  {
    assert (front + [last])[..|front|] == front;
    assert e.ok ==> (e.executed + [last])[..|e.executed|] == e.executed;
  }

  lemma ExecuteSnoc(schema: Schema, driver: Driver, ddls: seq<Ddl>, ddl: Ddl)
    ensures Execute(schema, driver, ddls + [ddl]) == Then(Execute(schema, driver, ddls), driver, ddl)
  {
    assert (ddls + [ddl])[..|ddls|] == ddls;
  }

  lemma {:induction false} ExecuteConcat(schema: Schema, driver: Driver, a: seq<Ddl>, b: seq<Ddl>)
    ensures var first := Execute(schema, driver, a);
            Execute(schema, driver, a + b) ==
              if !first.ok then first
              else
                var second := Execute(first.schema, driver, b);
                Execution(second.schema, first.executed + second.executed, second.ok)
    decreases |b|
  {
    if b == [] {
      assert a + b == a;
    } else {
      assert (a + b)[..|a + b| - 1] == a + b[..|b| - 1];
      ExecuteConcat(schema, driver, a, b[..|b| - 1]);
    }
  }

  /** What has failed stays as it is, whatever else was planned. */
  lemma FailureStays(schema: Schema, driver: Driver, prefix: seq<Ddl>, plan: seq<Ddl>)
    requires prefix <= plan && !Execute(schema, driver, prefix).ok
    ensures Execute(schema, driver, plan) == Execute(schema, driver, prefix)
  {
    assert plan == prefix + plan[|prefix|..];
    ExecuteConcat(schema, driver, prefix, plan[|prefix|..]);
  }

  // ---------------------------------------------------------------------------
  // The plan for one table
  // ---------------------------------------------------------------------------

  /** A column that ALTER TABLE may add: not a primary key, and fillable in old rows. */
  predicate Addable(c: Column) {
    !c.primaryKey && (c.nullable || c.default.Some?)
  }

  /** The configured columns, in order, that are missing and can be added. */
  function ToAdd(existing: seq<string>, columns: seq<Column>): seq<string> {
    if columns == [] then []
    else
      var c := columns[|columns| - 1];
      ToAdd(existing, columns[..|columns| - 1]) + (if c.name !in existing && Addable(c) then [c.name] else [])
  }

  /** The existing columns, in order, that are no longer configured. */
  function ToDrop(existing: seq<string>, columns: seq<Column>): seq<string> {
    if existing == [] then []
    else
      var name := existing[|existing| - 1];
      ToDrop(existing[..|existing| - 1], columns) + (if name in Names(columns) then [] else [name])
  }

  function AddStatements(table: string, names: seq<string>): seq<Ddl> {
    if names == [] then [] else AddStatements(table, names[..|names| - 1]) + [AddColumn(table, names[|names| - 1])]
  }

  function DropStatements(table: string, names: seq<string>): seq<Ddl> {
    if names == [] then [] else DropStatements(table, names[..|names| - 1]) + [DropColumn(table, names[|names| - 1])]
  }

  function AlterPlan(table: Table, existing: seq<string>, destructive: bool): seq<Ddl> {
    AddStatements(table.name, ToAdd(existing, table.columns)) + DropPlan(table, existing, destructive)
  }

  function DropPlan(table: Table, existing: seq<string>, destructive: bool): seq<Ddl> {
    if destructive then DropStatements(table.name, ToDrop(existing, table.columns)) else []
  }

  /** What introspection reports: no rows for a table that does not exist. */
  function ExistingColumns(schema: Schema, name: string): seq<string> {
    if name in schema then schema[name].columns else []
  }

  function TablePlan(schema: Schema, table: Table, destructive: bool): seq<Ddl> {
    var existing := ExistingColumns(schema, table.name);
    if existing == [] then [CreateTable(table)] else AlterPlan(table, existing, destructive)
  }

  /** The index names introspection reports; it is only consulted on MySQL. */
  function ExistingIndexes(schema: Schema, driver: Driver, name: string): set<string> {
    if driver == Mysql && name in schema then schema[name].indexes else {}
  }

  function IndexPlan(table: string, columns: seq<Column>, present: set<string>): seq<Ddl> {
    if columns == [] then []
    else
      var c := columns[|columns| - 1];
      IndexPlan(table, columns[..|columns| - 1], present)
      + (if c.indexed && !c.primaryKey && c.name !in present then [CreateIndex(table, c.name)] else [])
  }

  /** The migrated schema if nothing was rejected, the statements executed, and the schema left behind. */
  datatype TableRun = TableRun(schema: Option<Schema>, issued: seq<Ddl>, left: Schema)

  /** Create or alter one table, then create its indexes. */
  function MigrateTable(schema: Schema, driver: Driver, table: Table, destructive: bool): TableRun {
    var altered := Execute(schema, driver, TablePlan(schema, table, destructive));
    if !altered.ok then TableRun(None, altered.executed, altered.schema)
    else
      var plan := IndexPlan(table.name, table.columns, ExistingIndexes(altered.schema, driver, table.name));
      var indexed := Execute(altered.schema, driver, plan);
      TableRun(if indexed.ok then Some(indexed.schema) else None, altered.executed + indexed.executed, indexed.schema)
  }

  /** A table migrates exactly when both of its plans are accepted, and then all of them is executed. */
  lemma MigrateTableApplies(schema: Schema, driver: Driver, table: Table, destructive: bool)
    ensures var run, plan := MigrateTable(schema, driver, table, destructive), TablePlan(schema, table, destructive);
            var altered := ApplyAll(schema, driver, plan);
            if altered.None? then run.schema == None
            else
              var indexes := IndexPlan(table.name, table.columns, ExistingIndexes(altered.value, driver, table.name));
              && run.schema == ApplyAll(altered.value, driver, indexes)
              && (run.schema.Some? ==> run.issued == plan + indexes && run.left == run.schema.value)
  {
    var plan := TablePlan(schema, table, destructive);
    ExecutesPrefix(schema, driver, plan);
    var altered := Execute(schema, driver, plan);
    if altered.ok {
      ExecutesPrefix(altered.schema, driver,
                     IndexPlan(table.name, table.columns, ExistingIndexes(altered.schema, driver, table.name)));
    }
  }

  // ---------------------------------------------------------------------------
  // Running the migrations
  // ---------------------------------------------------------------------------

  datatype Settings = Settings(autoMigrate: bool, allowDestructive: bool)

  datatype MigrationError =
    | UnsortableTables(names: seq<string>)
    | NoPool(table: string, database: string)
    | StatementFailed(table: string)

  type Schemas = map<string, Schema>

  /** A table without database settings is migrated, never destructively. */
  predicate ShouldMigrate(settings: map<string, Settings>, database: string) {
    database in settings ==> settings[database].autoMigrate
  }

  predicate Destructive(settings: map<string, Settings>, database: string) {
    database in settings && settings[database].allowDestructive
  }

  /** The outcome of a run, the statements executed, and the schemas it leaves behind. */
  datatype Run = Run(result: Result<Schemas, MigrationError>, issued: seq<Ddl>, left: Schemas)

  /** One table of the run, from the schemas left by the tables before it. */
  function MigrateNext(schemas: Schemas, drivers: map<string, Driver>, settings: map<string, Settings>, t: Table): Run {
    if !ShouldMigrate(settings, t.database) then Run(Ok(schemas), [], schemas)
    else if t.database !in schemas || t.database !in drivers then Run(Err(NoPool(t.name, t.database)), [], schemas)
    else
      var run := MigrateTable(schemas[t.database], drivers[t.database], t, Destructive(settings, t.database));
      var left := schemas[t.database := run.left];
      Run(if run.schema.None? then Err(StatementFailed(t.name)) else Ok(left), run.issued, left)
  }

  /** The run over tables that are already in order. */
  function MigrateAll(schemas: Schemas, drivers: map<string, Driver>, settings: map<string, Settings>, tables: seq<Table>): Run {
    if tables == [] then Run(Ok(schemas), [], schemas)
    else
      var before := MigrateAll(schemas, drivers, settings, tables[..|tables| - 1]);
      if before.result.Err? then before
      else
        var next := MigrateNext(before.left, drivers, settings, tables[|tables| - 1]);
        Run(next.result, before.issued + next.issued, next.left)
  }

  lemma {:induction false} LeftIsResult(schemas: Schemas, drivers: map<string, Driver>, settings: map<string, Settings>, tables: seq<Table>)
    ensures var run := MigrateAll(schemas, drivers, settings, tables); run.result.Ok? ==> run.left == run.result.value
    decreases |tables|
  {
    if tables != [] {
      LeftIsResult(schemas, drivers, settings, tables[..|tables| - 1]);
    }
  }

  // ---------------------------------------------------------------------------
  // What the settings allow
  // ---------------------------------------------------------------------------

  /** The database migrates and allows destructive changes, and the table does not list the column. */
  ghost predicate DropAllowed(settings: map<string, Settings>, t: Table, column: string) {
    && t.database in settings && settings[t.database].autoMigrate && settings[t.database].allowDestructive
    && forall c :: c in t.columns ==> c.name != column
  }

  ghost predicate OnlyAllowedDrops(settings: map<string, Settings>, tables: seq<Table>, issued: seq<Ddl>) {
    forall d :: d in issued && d.DropColumn? ==> AllowedFor(settings, tables, d.name, d.column)
  }

  ghost predicate AllowedFor(settings: map<string, Settings>, tables: seq<Table>, name: string, column: string) {
    exists t :: t in tables && t.name == name && DropAllowed(settings, t, column)
  }

  ghost predicate AllowedIn(settings: map<string, Settings>, tables: seq<Table>, db: string, name: string, column: string) {
    exists t :: t in tables && t.database == db && t.name == name && DropAllowed(settings, t, column)
  }

  /** Every table and every column is still there, but for columns whose drop is allowed. */
  ghost predicate OnlyAllowedLosses(settings: map<string, Settings>, tables: seq<Table>, start: Schemas, left: Schemas) {
    && left.Keys == start.Keys
    && forall db, name :: db in start && name in start[db] ==>
         && name in left[db]
         && forall column :: column in start[db][name].columns ==>
              column in left[db][name].columns || AllowedIn(settings, tables, db, name, column)
  }

  /** A database whose settings turn migration off keeps its schema. */
  ghost predicate SkippedKept(settings: map<string, Settings>, start: Schemas, left: Schemas) {
    forall db :: db in start && db in left && db in settings && !settings[db].autoMigrate ==> left[db] == start[db]
  }

  lemma {:induction false} ListedName(columns: seq<Column>, c: Column)
    requires c in columns
    ensures c.name in Names(columns)
    decreases |columns|
  {
    if c != columns[|columns| - 1] {
      ListedName(columns[..|columns| - 1], c);
    }
  }

  lemma {:induction false} DropsUnlisted(existing: seq<string>, columns: seq<Column>, name: string)
    requires name in ToDrop(existing, columns)
    ensures forall c :: c in columns ==> c.name != name
    decreases |existing|
  {
    var last := existing[|existing| - 1];
    if last in Names(columns) || name != last {
      DropsUnlisted(existing[..|existing| - 1], columns, name);
    } else {
      forall c | c in columns
        ensures c.name in Names(columns)
      {
        ListedName(columns, c);
      }
    }
  }

  lemma {:induction false} DropStatementsDrop(table: string, names: seq<string>, d: Ddl)
    requires d in DropStatements(table, names)
    ensures d.DropColumn? && d.name == table && d.column in names
    decreases |names|
  {
    if d in DropStatements(table, names[..|names| - 1]) {
      DropStatementsDrop(table, names[..|names| - 1], d);
    }
  }

  lemma {:induction false} AddStatementsAdd(table: string, names: seq<string>, d: Ddl)
    requires d in AddStatements(table, names)
    ensures !d.DropColumn?
    decreases |names|
  {
    if d in AddStatements(table, names[..|names| - 1]) {
      AddStatementsAdd(table, names[..|names| - 1], d);
    }
  }

  lemma {:induction false} IndexPlanIndexes(table: string, columns: seq<Column>, present: set<string>, d: Ddl)
    requires d in IndexPlan(table, columns, present)
    ensures !d.DropColumn?
    decreases |columns|
  {
    if d in IndexPlan(table, columns[..|columns| - 1], present) {
      IndexPlanIndexes(table, columns[..|columns| - 1], present, d);
    }
  }

  lemma TablePlanDrops(schema: Schema, table: Table, destructive: bool, d: Ddl)
    requires d in TablePlan(schema, table, destructive) && d.DropColumn?
    ensures destructive && d.name == table.name && forall c :: c in table.columns ==> c.name != d.column
  {
    var existing := ExistingColumns(schema, table.name);
    if d in AddStatements(table.name, ToAdd(existing, table.columns)) {
      AddStatementsAdd(table.name, ToAdd(existing, table.columns), d);
    }
    DropStatementsDrop(table.name, ToDrop(existing, table.columns), d);
    DropsUnlisted(existing, table.columns, d.column);
  }

  lemma IssuedDrops(schema: Schema, driver: Driver, table: Table, destructive: bool, d: Ddl)
    requires d in MigrateTable(schema, driver, table, destructive).issued && d.DropColumn?
    ensures destructive && d.name == table.name && forall c :: c in table.columns ==> c.name != d.column
  {
    var altered := Execute(schema, driver, TablePlan(schema, table, destructive));
    ExecutesPrefix(schema, driver, TablePlan(schema, table, destructive));
    if d in altered.executed {
      TablePlanDrops(schema, table, destructive, d);
    } else {
      var plan := IndexPlan(table.name, table.columns, ExistingIndexes(altered.schema, driver, table.name));
      ExecutesPrefix(altered.schema, driver, plan);
      IndexPlanIndexes(table.name, table.columns, ExistingIndexes(altered.schema, driver, table.name), d);
    }
  }

  /** Tables stay, and so do columns without a statement that drops them. */
  ghost predicate Keeps(before: Schema, after: Schema, executed: seq<Ddl>) {
    forall name :: name in before ==>
      && name in after
      && forall column :: column in before[name].columns ==> column in after[name].columns || DropColumn(name, column) in executed
  }

  lemma {:induction false} MinusKeeps(s: seq<string>, out: set<string>, x: string)
    requires x in s && x !in out
    ensures x in Minus(s, out)
    decreases |s|
  {
    if x != s[|s| - 1] {
      MinusKeeps(s[..|s| - 1], out, x);
    }
  }

  lemma ApplyKeeps(schema: Schema, driver: Driver, d: Ddl)
    requires Apply(schema, driver, d).Some?
    ensures Keeps(schema, Apply(schema, driver, d).value, [d])
  {
    if d.DropColumn? {
      forall column | column in schema[d.name].columns && column != d.column
        ensures column in Minus(schema[d.name].columns, {d.column})
      {
        MinusKeeps(schema[d.name].columns, {d.column}, column);
      }
    }
  }

  lemma KeepsInTurn(a: Schema, b: Schema, c: Schema, first: seq<Ddl>, second: seq<Ddl>)
    requires Keeps(a, b, first) && Keeps(b, c, second)
    ensures Keeps(a, c, first + second)
  {
  }

  lemma {:induction false} ExecuteKeeps(schema: Schema, driver: Driver, ddls: seq<Ddl>)
    ensures var e := Execute(schema, driver, ddls); Keeps(schema, e.schema, e.executed)
    decreases |ddls|
  {
    if ddls != [] {
      ExecuteKeeps(schema, driver, ddls[..|ddls| - 1]);
      var before, d := Execute(schema, driver, ddls[..|ddls| - 1]), ddls[|ddls| - 1];
      if before.ok && Apply(before.schema, driver, d).Some? {
        ApplyKeeps(before.schema, driver, d);
        KeepsInTurn(schema, before.schema, Apply(before.schema, driver, d).value, before.executed, [d]);
      }
    }
  }

  lemma MigrateTableKeeps(schema: Schema, driver: Driver, table: Table, destructive: bool)
    ensures var run := MigrateTable(schema, driver, table, destructive); Keeps(schema, run.left, run.issued)
  {
    var altered := Execute(schema, driver, TablePlan(schema, table, destructive));
    ExecuteKeeps(schema, driver, TablePlan(schema, table, destructive));
    if altered.ok {
      var plan := IndexPlan(table.name, table.columns, ExistingIndexes(altered.schema, driver, table.name));
      var indexed := Execute(altered.schema, driver, plan);
      ExecuteKeeps(altered.schema, driver, plan);
      KeepsInTurn(schema, altered.schema, indexed.schema, altered.executed, indexed.executed);
    }
  }

  lemma NextIsAllowed(schemas: Schemas, drivers: map<string, Driver>, settings: map<string, Settings>, t: Table)
    ensures var next := MigrateNext(schemas, drivers, settings, t);
            && OnlyAllowedDrops(settings, [t], next.issued)
            && OnlyAllowedLosses(settings, [t], schemas, next.left)
            && SkippedKept(settings, schemas, next.left)
  {
    if ShouldMigrate(settings, t.database) && t.database in schemas && t.database in drivers {
      var schema, driver, destructive := schemas[t.database], drivers[t.database], Destructive(settings, t.database);
      var run := MigrateTable(schema, driver, t, destructive);
      forall d | d in run.issued && d.DropColumn?
        ensures d.name == t.name && DropAllowed(settings, t, d.column)
      {
        IssuedDrops(schema, driver, t, destructive, d);
      }
      assert t in [t];
      MigrateTableKeeps(schema, driver, t, destructive);
    }
  }

  lemma AllowedInMore(settings: map<string, Settings>, some: seq<Table>, all: seq<Table>, start: Schemas, left: Schemas, issued: seq<Ddl>)
    requires forall t :: t in some ==> t in all
    ensures OnlyAllowedDrops(settings, some, issued) ==> OnlyAllowedDrops(settings, all, issued)
    ensures OnlyAllowedLosses(settings, some, start, left) ==> OnlyAllowedLosses(settings, all, start, left)
  {
    forall db, name, column | AllowedIn(settings, some, db, name, column)
      ensures AllowedIn(settings, all, db, name, column)
    {
      var t :| t in some && t.database == db && t.name == name && DropAllowed(settings, t, column);
    }
    forall name, column | AllowedFor(settings, some, name, column)
      ensures AllowedFor(settings, all, name, column)
    {
      var t :| t in some && t.name == name && DropAllowed(settings, t, column);
    }
  }

  lemma LossesInTurn(settings: map<string, Settings>, tables: seq<Table>, a: Schemas, b: Schemas, c: Schemas)
    requires OnlyAllowedLosses(settings, tables, a, b) && OnlyAllowedLosses(settings, tables, b, c)
    ensures OnlyAllowedLosses(settings, tables, a, c)
  {
  }

  /** Whether it succeeds or fails, a run executes no drop, and loses no column, that the settings do
      not allow, and leaves the databases alone that do not migrate. */
  lemma {:induction false} RunIsAllowed(schemas: Schemas, drivers: map<string, Driver>, settings: map<string, Settings>, tables: seq<Table>)
    ensures OnlyAllowedDrops(settings, tables, MigrateAll(schemas, drivers, settings, tables).issued)
    ensures OnlyAllowedLosses(settings, tables, schemas, MigrateAll(schemas, drivers, settings, tables).left)
    ensures SkippedKept(settings, schemas, MigrateAll(schemas, drivers, settings, tables).left)
    decreases |tables|
  {
    if tables != [] {
      var front, t := tables[..|tables| - 1], tables[|tables| - 1];
      RunIsAllowed(schemas, drivers, settings, front);
      var before := MigrateAll(schemas, drivers, settings, front);
      AllowedInMore(settings, front, tables, schemas, before.left, before.issued);
      if before.result.Ok? {
        var next := MigrateNext(before.left, drivers, settings, t);
        NextIsAllowed(before.left, drivers, settings, t);
        AllowedInMore(settings, [t], tables, before.left, next.left, next.issued);
        LossesInTurn(settings, tables, schemas, before.left, next.left);
      }
    }
  }

  class Migrator {
    var schemas: Schemas
    const drivers: map<string, Driver>
    /** Every statement executed so far, in order. */
    ghost var log: seq<Ddl>

    constructor (schemas: Schemas, drivers: map<string, Driver>)
      ensures this.schemas == schemas && this.drivers == drivers && log == []
    {
      this.schemas := schemas;
      this.drivers := drivers;
      log := [];
    }

    method ExecuteRaw(database: string, ddl: Ddl) returns (ok: bool)
      requires database in schemas && database in drivers
      modifies this`schemas, this`log
      ensures ok <==> Apply(old(schemas)[database], drivers[database], ddl).Some?
      ensures ok ==> schemas == old(schemas)[database := Apply(old(schemas)[database], drivers[database], ddl).value]
      ensures ok ==> log == old(log) + [ddl]
      ensures !ok ==> schemas == old(schemas) && log == old(log)
    {
      var after := Apply(schemas[database], drivers[database], ddl);
      ok := after.Some?;
      if ok {
        schemas := schemas[database := after.value];
        log := log + [ddl];
      }
    }

    /** The present schema and log are those of an execution that began with `start` and `base`. */
    ghost predicate Reflects(database: string, start: Schemas, base: seq<Ddl>, e: Execution)
      reads this
    {
      database in start && database in drivers && schemas == start[database := e.schema] && log == base + e.executed
    }

    /** Two executions, one after the other. */
    lemma Chains(database: string, start: Schemas, base: seq<Ddl>, first: Execution, mid: Schemas, second: Execution)
      requires database in start && mid == start[database := first.schema]
      requires Reflects(database, mid, base + first.executed, second)
      ensures Reflects(database, start, base, Execution(second.schema, first.executed + second.executed, second.ok))
    {
      assert base + first.executed + second.executed == base + (first.executed + second.executed);
    }

    /** The next statement after those issued so far, of a plan that begins with them. */
    method Issue(database: string, ddl: Ddl, ghost start: Schemas, ghost base: seq<Ddl>, ghost issued: seq<Ddl>, ghost plan: seq<Ddl>)
      returns (ok: bool)
      requires database in start && database in drivers && issued + [ddl] <= plan
      requires Execute(start[database], drivers[database], issued).ok
      requires Reflects(database, start, base, Execute(start[database], drivers[database], issued))
      modifies this`schemas, this`log
      ensures Reflects(database, start, base, Execute(start[database], drivers[database], issued + [ddl]))
      ensures ok <==> Execute(start[database], drivers[database], issued + [ddl]).ok
      ensures !ok ==> Execute(start[database], drivers[database], plan) == Execute(start[database], drivers[database], issued + [ddl])
    {
      ExecuteSnoc(start[database], drivers[database], issued, ddl);
      ok := ExecuteRaw(database, ddl);
      if !ok {
        FailureStays(start[database], drivers[database], issued + [ddl], plan);
      }
    }

    /** ADD the columns that are configured but missing. */
    method AddMissing(database: string, table: Table, existing: seq<string>) returns (ok: bool)
      requires database in schemas && database in drivers
      modifies this`schemas, this`log
      ensures var e := Execute(old(schemas)[database], drivers[database], AddStatements(table.name, ToAdd(existing, table.columns)));
              ok == e.ok && Reflects(database, old(schemas), old(log), e)
    {
      ghost var start, base := schemas, log;
      ghost var plan := AddStatements(table.name, ToAdd(existing, table.columns));
      ghost var issued: seq<Ddl> := [];
      for i := 0 to |table.columns|
        invariant issued == AddStatements(table.name, ToAdd(existing, table.columns[..i]))
        invariant Execute(start[database], drivers[database], issued).ok
        invariant Reflects(database, start, base, Execute(start[database], drivers[database], issued))
      {
        var col := table.columns[i];
        AddPrefix(table.name, table.columns, existing, i);
        if col.name in existing || col.primaryKey || (!col.nullable && col.default.None?) {
          continue;
        }
        ok := Issue(database, AddColumn(table.name, col.name), start, base, issued, plan);
        if !ok {
          return;
        }
        issued := issued + [AddColumn(table.name, col.name)];
      }
      assert table.columns[..|table.columns|] == table.columns;
      return true;
    }

    /** DROP the columns that are no longer configured, if that is allowed. */
    method DropUnlisted(database: string, table: Table, existing: seq<string>, allowDestructive: bool) returns (ok: bool)
      requires database in schemas && database in drivers
      modifies this`schemas, this`log
      ensures var e := Execute(old(schemas)[database], drivers[database], DropPlan(table, existing, allowDestructive));
              ok == e.ok && Reflects(database, old(schemas), old(log), e)
    {
      ghost var start, base := schemas, log;
      ghost var plan := DropPlan(table, existing, allowDestructive);
      ghost var issued: seq<Ddl> := [];
      for i := 0 to |existing|
        invariant issued == DropPlan(table, existing[..i], allowDestructive)
        invariant Execute(start[database], drivers[database], issued).ok
        invariant Reflects(database, start, base, Execute(start[database], drivers[database], issued))
      {
        var name := existing[i];
        DropPrefix(table, existing, allowDestructive, i);
        if name in Names(table.columns) {
          continue;
        }
        if allowDestructive {
          ok := Issue(database, DropColumn(table.name, name), start, base, issued, plan);
          if !ok {
            return;
          }
          issued := issued + [DropColumn(table.name, name)];
        }
      }
      assert existing[..|existing|] == existing;
      return true;
    }

    method AlterExistingTable(database: string, table: Table, existing: seq<string>, allowDestructive: bool) returns (ok: bool)
      requires database in schemas && database in drivers
      modifies this`schemas, this`log
      ensures var e := Execute(old(schemas)[database], drivers[database], AlterPlan(table, existing, allowDestructive));
              ok == e.ok && Reflects(database, old(schemas), old(log), e)
    {
      ghost var start, base := schemas, log;
      ghost var adds := AddStatements(table.name, ToAdd(existing, table.columns));
      ghost var drops := DropPlan(table, existing, allowDestructive);
      assert AlterPlan(table, existing, allowDestructive) == adds + drops;
      ExecuteConcat(start[database], drivers[database], adds, drops);
      ok := AddMissing(database, table, existing);
      if ok {
        ghost var mid := schemas;
        ok := DropUnlisted(database, table, existing, allowDestructive);
        Chains(database, start, base, Execute(start[database], drivers[database], adds), mid,
               Execute(mid[database], drivers[database], drops));
      }
    }

    method CreateIndexes(database: string, table: Table) returns (ok: bool)
      requires database in schemas && database in drivers
      modifies this`schemas, this`log
      ensures var plan := IndexPlan(table.name, table.columns, ExistingIndexes(old(schemas)[database], drivers[database], table.name));
              var e := Execute(old(schemas)[database], drivers[database], plan);
              ok == e.ok && Reflects(database, old(schemas), old(log), e)
    {
      ghost var start, base := schemas, log;
      var present := if drivers[database] == Mysql then ExistingIndexes(schemas[database], Mysql, table.name) else {};
      ghost var plan := IndexPlan(table.name, table.columns, present);
      ghost var issued: seq<Ddl> := [];
      for i := 0 to |table.columns|
        invariant issued == IndexPlan(table.name, table.columns[..i], present)
        invariant Execute(start[database], drivers[database], issued).ok
        invariant Reflects(database, start, base, Execute(start[database], drivers[database], issued))
      {
        var col := table.columns[i];
        IndexPrefix(table.name, table.columns, present, i);
        if col.indexed && !col.primaryKey {
          if drivers[database] == Mysql && col.name in present {
            continue;
          }
          ok := Issue(database, CreateIndex(table.name, col.name), start, base, issued, plan);
          if !ok {
            return;
          }
          issued := issued + [CreateIndex(table.name, col.name)];
        }
      }
      assert table.columns[..|table.columns|] == table.columns;
      return true;
    }

    /** The table itself: created when introspection reports no column, altered otherwise. */
    method CreateOrAlter(database: string, table: Table, destructive: bool) returns (ok: bool)
      requires database in schemas && database in drivers
      modifies this`schemas, this`log
      ensures var e := Execute(old(schemas)[database], drivers[database], TablePlan(old(schemas)[database], table, destructive));
              ok == e.ok && Reflects(database, old(schemas), old(log), e)
    {
      var existing := ExistingColumns(schemas[database], table.name);
      if existing == [] {
        ExecuteSnoc(schemas[database], drivers[database], [], CreateTable(table));
        assert [] + [CreateTable(table)] == [CreateTable(table)];
        ok := ExecuteRaw(database, CreateTable(table));
      } else {
        ok := AlterExistingTable(database, table, existing, destructive);
      }
    }

    /** One iteration of the migration loop. */
    method MigrateOne(database: string, table: Table, destructive: bool) returns (ok: bool)
      requires database in schemas && database in drivers
      modifies this`schemas, this`log
      ensures var run := MigrateTable(old(schemas)[database], drivers[database], table, destructive);
              ok == run.schema.Some? && schemas == old(schemas)[database := run.left] && log == old(log) + run.issued
    {
      ok := CreateOrAlter(database, table, destructive);
      if ok {
        ok := CreateIndexes(database, table);
      }
    }

    /** The body of the loop over the sorted tables. */
    method MigrateListed(table: Table, settings: map<string, Settings>) returns (r: Result<(), MigrationError>)
      modifies this`schemas, this`log
      ensures Ends(MigrateNext(old(schemas), drivers, settings, table), old(log), r)
    {
      if !ShouldMigrate(settings, table.database) {
        return Ok(());
      }
      if table.database !in schemas || table.database !in drivers {
        return Err(NoPool(table.name, table.database));
      }
      var ok := MigrateOne(table.database, table, Destructive(settings, table.database));
      return if ok then Ok(()) else Err(StatementFailed(table.name));
    }

    /** Success and error, the schemas and the statements executed since `base` are those of the run. */
    ghost predicate Ends(run: Run, base: seq<Ddl>, r: Result<(), MigrationError>)
      reads this
    {
      && (r.Ok? <==> run.result.Ok?) && (r.Err? ==> r.error == run.result.error)
      && schemas == run.left && log == base + run.issued
    }

    /** The whole run. `drivers` and `schemas` play the part of the connection pools. */
    method RunMigrations(tables: seq<Table>, settings: map<string, Settings>)
      returns (r: Result<(), MigrationError>, ghost order: seq<nat>)
      modifies this`schemas, this`log
      ensures !Sortable(tables) ==> r.Err? && r.error.UnsortableTables? && schemas == old(schemas) && log == old(log)
      ensures Sortable(tables) ==> IsLeastTableOrder(tables, order)
      ensures Sortable(tables) ==> Ends(MigrateAll(old(schemas), drivers, settings, Picked(tables, order)), old(log), r)
      ensures old(log) <= log && OnlyAllowedDrops(settings, tables, log[|old(log)|..])
      ensures OnlyAllowedLosses(settings, tables, old(schemas), schemas) && SkippedKept(settings, old(schemas), schemas)
      ensures (forall db :: db in settings ==> !settings[db].allowDestructive)
          ==> && (forall d :: d in log[|old(log)|..] ==> !d.DropColumn?)
              && (forall db, name :: db in old(schemas) && name in old(schemas)[db] ==>
                    && db in schemas && name in schemas[db]
                    && forall column :: column in old(schemas)[db][name].columns ==> column in schemas[db][name].columns)
    {
      ghost var start, base := schemas, log;
      var sorting, least := SortTablesTopologically(tables);
      order := least;
      if sorting.Err? {
        return Err(UnsortableTables(sorting.error.names)), order;
      }
      var sorted := sorting.value;
      PickedIsSorted(tables, order, sorted);
      r := MigrateSorted(sorted, settings);
      ghost var run := MigrateAll(start, drivers, settings, sorted);
      RunIsAllowed(start, drivers, settings, sorted);
      AllowedInMore(settings, sorted, tables, start, run.left, run.issued);
      assert log[|base|..] == run.issued;
    }

    method MigrateSorted(sorted: seq<Table>, settings: map<string, Settings>) returns (r: Result<(), MigrationError>)
      modifies this`schemas, this`log
      ensures Ends(MigrateAll(old(schemas), drivers, settings, sorted), old(log), r)
    {
      ghost var start, base := schemas, log;
      var i := 0;
      r := Ok(());
      while i < |sorted| && r.Ok?
        invariant i <= |sorted|
        invariant Ends(MigrateAll(start, drivers, settings, sorted[..i]), base, r)
      {
        ghost var before := MigrateAll(start, drivers, settings, sorted[..i]);
        r := MigrateListed(sorted[i], settings);
        MigrateAllSnoc(start, drivers, settings, sorted, i);
        Follows(before, MigrateNext(before.left, drivers, settings, sorted[i]), base, r);
        i := i + 1;
      }
      if r.Err? {
        ErrorStays(start, drivers, settings, sorted, i);
      }
      assert sorted[..|sorted|] == sorted;
    }

    lemma Follows(before: Run, next: Run, base: seq<Ddl>, r: Result<(), MigrationError>)
      requires Ends(next, base + before.issued, r)
      ensures Ends(Run(next.result, before.issued + next.issued, next.left), base, r)
    {
      assert base + before.issued + next.issued == base + (before.issued + next.issued);
    }
  }

  ghost predicate Sortable(tables: seq<Table>) {
    DistinctNames(tables) && Digraph.Acyclic(ForeignKeyGraph(tables))
  }

  ghost function Picked(tables: seq<Table>, order: seq<nat>): (sorted: seq<Table>)
    requires forall k :: 0 <= k < |order| ==> order[k] < |tables|
    ensures |sorted| == |order| && forall k :: 0 <= k < |order| ==> sorted[k] == tables[order[k]]
  {
    seq(|order|, k requires 0 <= k < |order| => tables[order[k]])
  }

  lemma PickedIsSorted(tables: seq<Table>, order: seq<nat>, sorted: seq<Table>)
    requires Picks(tables, order, sorted)
    ensures sorted == Picked(tables, order)
  {
  }

  lemma MigrateAllSnoc(schemas: Schemas, drivers: map<string, Driver>, settings: map<string, Settings>, tables: seq<Table>, i: nat)
    requires i < |tables|
    ensures var before := MigrateAll(schemas, drivers, settings, tables[..i]);
            var next := MigrateNext(before.left, drivers, settings, tables[i]);
            before.result.Ok? ==>
              MigrateAll(schemas, drivers, settings, tables[..i + 1]) == Run(next.result, before.issued + next.issued, next.left)
  {
    assert tables[..i + 1][..i] == tables[..i];
  }

  lemma {:induction false} ErrorStays(schemas: Schemas, drivers: map<string, Driver>, settings: map<string, Settings>, tables: seq<Table>, i: nat)
    requires i <= |tables| && MigrateAll(schemas, drivers, settings, tables[..i]).result.Err?
    ensures MigrateAll(schemas, drivers, settings, tables) == MigrateAll(schemas, drivers, settings, tables[..i])
    decreases |tables| - i
  {
    if i == |tables| {
      assert tables[..i] == tables;
    } else {
      assert tables[..i + 1][..i] == tables[..i];
      ErrorStays(schemas, drivers, settings, tables, i + 1);
    }
  }

  lemma {:induction false} ToAddPrefix(existing: seq<string>, columns: seq<Column>, i: nat)
    requires i <= |columns|
    ensures ToAdd(existing, columns[..i]) <= ToAdd(existing, columns)
    decreases |columns|
  {
    if i == |columns| {
      assert columns[..i] == columns;
    } else {
      assert columns[..|columns| - 1][..i] == columns[..i];
      ToAddPrefix(existing, columns[..|columns| - 1], i);
    }
  }

  lemma {:induction false} ToDropPrefix(existing: seq<string>, columns: seq<Column>, i: nat)
    requires i <= |existing|
    ensures ToDrop(existing[..i], columns) <= ToDrop(existing, columns)
    decreases |existing|
  {
    if i == |existing| {
      assert existing[..i] == existing;
    } else {
      assert existing[..|existing| - 1][..i] == existing[..i];
      ToDropPrefix(existing[..|existing| - 1], columns, i);
    }
  }

  lemma {:induction false} AddStatementsPrefix(table: string, a: seq<string>, b: seq<string>)
    requires a <= b
    ensures AddStatements(table, a) <= AddStatements(table, b)
    decreases |b|
  {
    if a != b {
      assert a <= b[..|b| - 1];
      AddStatementsPrefix(table, a, b[..|b| - 1]);
    }
  }

  lemma {:induction false} DropStatementsPrefix(table: string, a: seq<string>, b: seq<string>)
    requires a <= b
    ensures DropStatements(table, a) <= DropStatements(table, b)
    decreases |b|
  {
    if a != b {
      assert a <= b[..|b| - 1];
      DropStatementsPrefix(table, a, b[..|b| - 1]);
    }
  }

  lemma AddPrefix(table: string, columns: seq<Column>, existing: seq<string>, i: nat)
    requires i < |columns|
    ensures AddStatements(table, ToAdd(existing, columns[..i + 1]))
         == AddStatements(table, ToAdd(existing, columns[..i]))
            + (if columns[i].name !in existing && Addable(columns[i]) then [AddColumn(table, columns[i].name)] else [])
    ensures AddStatements(table, ToAdd(existing, columns[..i + 1])) <= AddStatements(table, ToAdd(existing, columns))
  {
    assert columns[..i + 1][..i] == columns[..i];
    var before := ToAdd(existing, columns[..i]);
    if columns[i].name !in existing && Addable(columns[i]) {
      assert (before + [columns[i].name])[..|before|] == before;
    } else {
      assert ToAdd(existing, columns[..i + 1]) == before;
    }
    ToAddPrefix(existing, columns, i + 1);
    AddStatementsPrefix(table, ToAdd(existing, columns[..i + 1]), ToAdd(existing, columns));
  }

  lemma DropPrefix(table: Table, existing: seq<string>, destructive: bool, i: nat)
    requires i < |existing|
    ensures DropPlan(table, existing[..i + 1], destructive)
         == DropPlan(table, existing[..i], destructive)
            + (if existing[i] in Names(table.columns) || !destructive then [] else [DropColumn(table.name, existing[i])])
    ensures DropPlan(table, existing[..i + 1], destructive) <= DropPlan(table, existing, destructive)
  {
    assert existing[..i + 1][..i] == existing[..i];
    var before := ToDrop(existing[..i], table.columns);
    if existing[i] in Names(table.columns) {
      assert ToDrop(existing[..i + 1], table.columns) == before;
    } else {
      assert (before + [existing[i]])[..|before|] == before;
    }
    ToDropPrefix(existing, table.columns, i + 1);
    DropStatementsPrefix(table.name, ToDrop(existing[..i + 1], table.columns), ToDrop(existing, table.columns));
  }

  lemma {:induction false} IndexPlanPrefix(table: string, columns: seq<Column>, present: set<string>, i: nat)
    requires i <= |columns|
    ensures IndexPlan(table, columns[..i], present) <= IndexPlan(table, columns, present)
    decreases |columns|
  {
    if i == |columns| {
      assert columns[..i] == columns;
    } else {
      assert columns[..|columns| - 1][..i] == columns[..i];
      IndexPlanPrefix(table, columns[..|columns| - 1], present, i);
    }
  }

  lemma IndexPrefix(table: string, columns: seq<Column>, present: set<string>, i: nat)
    requires i < |columns|
    ensures IndexPlan(table, columns[..i + 1], present)
         == IndexPlan(table, columns[..i], present)
            + (if columns[i].indexed && !columns[i].primaryKey && columns[i].name !in present
               then [CreateIndex(table, columns[i].name)] else [])
    ensures IndexPlan(table, columns[..i + 1], present) <= IndexPlan(table, columns, present)
  {
    assert columns[..i + 1][..i] == columns[..i];
    IndexPlanPrefix(table, columns, present, i + 1);
  }
}
