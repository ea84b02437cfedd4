/** Load-time checks on the table configuration. */
module TableValidation {
  import Digraph
  import Wrappers
  import opened TopologicalSort

  datatype TableError =
    | DuplicateTable(key: string)
    | UnknownDatabase(table: string)
    | NoColumns(table: string)
    | EmptyColumnName(table: string)
    | DuplicateColumn(table: string, column: string)
    | NoPrimaryKey(table: string)
    | UnknownColumn(table: string, column: string)
    | UnknownTable(table: string, target: string)

  /** The text under which a table is remembered: its name, a dot, its database. */
  function TableKey(t: Table): string {
    t.name + "." + t.database
  }

  ghost predicate TargetExists(tables: seq<Table>, t: Table, fk: ForeignKey) {
    exists u :: u in tables && u.name == fk.referencesTable && u.database == t.database
  }

  ghost predicate ColumnsValid(columns: seq<Column>) {
    && columns != []
    && (forall i :: 0 <= i < |columns| ==> columns[i].name != "")
    && (forall i, j :: 0 <= i < j < |columns| ==> columns[i].name != columns[j].name)
    && exists i :: 0 <= i < |columns| && columns[i].primaryKey
  }

  ghost predicate ForeignKeyValid(tables: seq<Table>, t: Table, fk: ForeignKey) {
    (exists c :: c in t.columns && c.name == fk.column) && TargetExists(tables, t, fk)
  }

  ghost predicate TableValid(tables: seq<Table>, databases: set<string>, t: Table) {
    && t.database in databases
    && ColumnsValid(t.columns)
    && forall q :: 0 <= q < |t.foreignKeys| ==> ForeignKeyValid(tables, t, t.foreignKeys[q])
  }

  ghost predicate KeysDistinct(tables: seq<Table>) {
    forall i, j :: 0 <= i < j < |tables| ==> TableKey(tables[i]) != TableKey(tables[j])
  }

  /** Keys are compared as joined text, so different names and databases can share one. */
  lemma DifferentPairsShareAKey(a: string, b: string, c: string, columns: seq<Column>)
    ensures TableKey(Table(a + "." + b, c, columns, [])) == TableKey(Table(a, b + "." + c, columns, []))
    ensures !KeysDistinct([Table(a + "." + b, c, columns, []), Table(a, b + "." + c, columns, [])])
  {
    var x, y := Table(a + "." + b, c, columns, []), Table(a, b + "." + c, columns, []);
    assert TableKey(x) == TableKey(y);
    assert [x, y][0] == x && [x, y][1] == y;
  }

  ghost predicate TablesValid(tables: seq<Table>, databases: set<string>) {
    KeysDistinct(tables) && forall i :: 0 <= i < |tables| ==> TableValid(tables, databases, tables[i])
  }

  method ValidateKeys(tables: seq<Table>, before: seq<TableError>) returns (errors: seq<TableError>)
    ensures before <= errors
    ensures errors == before <==> KeysDistinct(tables)
  {
    errors := before;
    var seen: set<string> := {};
    for i := 0 to |tables|
      invariant before <= errors
      invariant forall k :: k in seen <==> exists j :: 0 <= j < i && TableKey(tables[j]) == k
      invariant errors == before <==> KeysDistinct(tables[..i])
    {
      var key := TableKey(tables[i]);
      if key in seen {
        errors := errors + [DuplicateTable(key)];
      } else {
        seen := seen + {key};
      }
    }
    assert tables[..|tables|] == tables;
  }

  method ValidateColumns(t: Table, before: seq<TableError>) returns (errors: seq<TableError>, names: set<string>)
    ensures before <= errors
    ensures errors == before <==> ColumnsValid(t.columns)
    ensures forall n :: n in names <==> exists c :: c in t.columns && c.name == n
  {
    errors := before;
    if t.columns == [] {
      errors := errors + [NoColumns(t.name)];
    }
    names := {};
    var hasPk := false;
    for i := 0 to |t.columns|
      invariant before <= errors
      invariant forall n :: n in names <==> exists j :: 0 <= j < i && t.columns[j].name == n
      invariant hasPk <==> exists j :: 0 <= j < i && t.columns[j].primaryKey
      invariant errors == before <==>
                  && t.columns != []
                  && (forall j :: 0 <= j < i ==> t.columns[j].name != "")
                  && (forall j, k :: 0 <= j < k < i ==> t.columns[j].name != t.columns[k].name)
    {
      var col := t.columns[i];
      if col.name == "" {
        errors := errors + [EmptyColumnName(t.name)];
      }
      if col.name in names {
        errors := errors + [DuplicateColumn(t.name, col.name)];
      } else {
        names := names + {col.name};
      }
      if col.primaryKey {
        hasPk := true;
      }
    }
    if !hasPk {
      errors := errors + [NoPrimaryKey(t.name)];
    }
  }

  method ValidateForeignKeys(tables: seq<Table>, t: Table, names: set<string>, before: seq<TableError>) returns (errors: seq<TableError>)
    requires forall n :: n in names <==> exists c :: c in t.columns && c.name == n
    ensures before <= errors
    ensures errors == before <==> forall q :: 0 <= q < |t.foreignKeys| ==> ForeignKeyValid(tables, t, t.foreignKeys[q])
  {
    errors := before;
    for q := 0 to |t.foreignKeys|
      invariant before <= errors
      invariant errors == before <==> forall p :: 0 <= p < q ==> ForeignKeyValid(tables, t, t.foreignKeys[p])
    {
      var fk := t.foreignKeys[q];
      if fk.column !in names {
        errors := errors + [UnknownColumn(t.name, fk.column)];
      }
      if !exists u :: u in tables && u.name == fk.referencesTable && u.database == t.database {
        errors := errors + [UnknownTable(t.name, fk.referencesTable)];
      }
    }
  }

  /** Appends one error per violation; none exactly on valid configurations. */
  method ValidateTables(tables: seq<Table>, databases: set<string>, before: seq<TableError>) returns (errors: seq<TableError>)
    ensures before <= errors
    ensures errors == before <==> TablesValid(tables, databases)
  {
    errors := ValidateKeys(tables, before);
    for i := 0 to |tables|
      invariant before <= errors
      invariant errors == before <==> KeysDistinct(tables) && forall j :: 0 <= j < i ==> TableValid(tables, databases, tables[j])
    {
      ghost var start := errors;
      if tables[i].database !in databases {
        errors := errors + [UnknownDatabase(tables[i].name)];
      }
      var names;
      errors, names := ValidateColumns(tables[i], errors);
      errors := ValidateForeignKeys(tables, tables[i], names, errors);
    }
  }

  /** Validation accepts two tables of one name in different databases. Nothing references
      anything, so the foreign-key graph is acyclic; but the sort succeeds exactly when names
      are distinct as well, and rejects these tables as circular. */
  lemma ValidTablesMayNotSort()
    ensures exists tables: seq<Table>, databases :: ValidButUnsortable(tables, databases)
  {
    var id := Column("id", true, false, Wrappers.None, false);
    var a, b := Table("users", "one", [id], []), Table("users", "two", [id], []);
    var tables := [a, b];
    assert TableKey(a)[|TableKey(a)| - 1] == 'e' && TableKey(b)[|TableKey(b)| - 1] == 'o';
    assert [id][0].primaryKey;
    assert ColumnsValid([id]);
    assert TablesValid(tables, {"one", "two"});
    assert tables[0].name == tables[1].name;
    NoKeysNoCycle(tables);
    assert ValidButUnsortable(tables, {"one", "two"});
  }

  ghost predicate ValidButUnsortable(tables: seq<Table>, databases: set<string>) {
    TablesValid(tables, databases) && Digraph.Acyclic(ForeignKeyGraph(tables)) && !DistinctNames(tables)
  }

  lemma NoKeysNoCycle(tables: seq<Table>)
    requires forall t :: t in tables ==> t.foreignKeys == []
    ensures Digraph.Acyclic(ForeignKeyGraph(tables))
  {
    var g := ForeignKeyGraph(tables);
    assert forall a, b :: !Digraph.Edge(g, a, b);
    assert forall p :: Digraph.IsPath(g, p) && |p| >= 2 ==> Digraph.Edge(g, p[0], p[1]);
  }
}
