/** What a migration run achieves: which statements are accepted, the columns
    each table ends up with, and that a second run has nothing left to alter. */
module MigrationProperties {
  import opened Wrappers
  import opened TopologicalSort
  import opened TableValidation
  import opened Migration

  // ---------------------------------------------------------------------------
  // Columns
  // ---------------------------------------------------------------------------

  function Elements(s: seq<string>): set<string> {
    set x | x in s
  }

  ghost predicate Configured(columns: seq<Column>, name: string) {
    exists c :: c in columns && c.name == name
  }

  ghost predicate AddableNamed(columns: seq<Column>, name: string) {
    exists c :: c in columns && c.name == name && Addable(c)
  }

  /** The columns of an existing table after it was altered. */
  function TargetColumns(existing: seq<string>, columns: seq<Column>, destructive: bool): seq<string> {
    (if destructive then Minus(existing, Elements(ToDrop(existing, columns))) else existing) + ToAdd(existing, columns)
  }

  lemma {:induction false} NamesMembers(columns: seq<Column>, name: string)
    ensures name in Names(columns) <==> Configured(columns, name)
    decreases |columns|
  {
    if columns != [] {
      NamesMembers(columns[..|columns| - 1], name);
      assert columns == columns[..|columns| - 1] + [columns[|columns| - 1]];
    }
  }

  lemma {:induction false} ToAddMembers(existing: seq<string>, columns: seq<Column>, name: string)
    ensures name in ToAdd(existing, columns) <==> name !in existing && AddableNamed(columns, name)
    decreases |columns|
  {
    if columns != [] {
      ToAddMembers(existing, columns[..|columns| - 1], name);
      assert columns == columns[..|columns| - 1] + [columns[|columns| - 1]];
    }
  }

  lemma {:induction false} ToDropMembers(existing: seq<string>, columns: seq<Column>, name: string)
    ensures name in ToDrop(existing, columns) <==> name in existing && name !in Names(columns)
    decreases |existing|
  {
    if existing != [] {
      ToDropMembers(existing[..|existing| - 1], columns, name);
      assert existing == existing[..|existing| - 1] + [existing[|existing| - 1]];
    }
  }

  lemma {:induction false} MinusMembers(s: seq<string>, out: set<string>, name: string)
    ensures name in Minus(s, out) <==> name in s && name !in out
    decreases |s|
  {
    if s != [] {
      MinusMembers(s[..|s| - 1], out, name);
      assert s == s[..|s| - 1] + [s[|s| - 1]];
    }
  }

  lemma DistinctSnoc(s: seq<string>, x: string)
    ensures Distinct(s + [x]) <==> Distinct(s) && x !in s
  {
    var t := s + [x];
    if Distinct(t) {
      forall i, j | 0 <= i < j < |s|
        ensures s[i] != s[j]
      {
        assert t[i] == s[i] && t[j] == s[j];
      }
      forall i | 0 <= i < |s|
        ensures s[i] != x
      {
        assert t[i] == s[i] && t[|s|] == x;
      }
    }
  }

  lemma {:induction false} MinusDistinct(s: seq<string>, out: set<string>)
    requires Distinct(s)
    ensures Distinct(Minus(s, out))
    decreases |s|
  {
    if s != [] {
      var front, last := s[..|s| - 1], s[|s| - 1];
      assert s == front + [last];
      DistinctSnoc(front, last);
      MinusDistinct(front, out);
      MinusMembers(front, out, last);
      DistinctSnoc(Minus(front, out), last);
    }
  }

  lemma {:induction false} ToDropDistinct(existing: seq<string>, columns: seq<Column>)
    requires Distinct(existing)
    ensures Distinct(ToDrop(existing, columns))
    decreases |existing|
  {
    if existing != [] {
      var front, last := existing[..|existing| - 1], existing[|existing| - 1];
      assert existing == front + [last];
      DistinctSnoc(front, last);
      ToDropDistinct(front, columns);
      ToDropMembers(front, columns, last);
      DistinctSnoc(ToDrop(front, columns), last);
    }
  }

  lemma {:induction false} ToAddDistinct(existing: seq<string>, columns: seq<Column>)
    requires Distinct(Names(columns))
    ensures Distinct(ToAdd(existing, columns))
    decreases |columns|
  {
    if columns != [] {
      var front, last := columns[..|columns| - 1], columns[|columns| - 1];
      DistinctSnoc(Names(front), last.name);
      ToAddDistinct(existing, front);
      ToAddMembers(existing, front, last.name);
      NamesMembers(front, last.name);
      DistinctSnoc(ToAdd(existing, front), last.name);
    }
  }

  lemma {:induction false} MinusAppend(s: seq<string>, t: seq<string>, out: set<string>)
    ensures Minus(s + t, out) == Minus(s, out) + Minus(t, out)
    decreases |t|
  {
    if t == [] {
      assert s + t == s;
    } else {
      assert (s + t)[..|s + t| - 1] == s + t[..|t| - 1];
      MinusAppend(s, t[..|t| - 1], out);
    }
  }

  lemma {:induction false} MinusNothing(s: seq<string>, out: set<string>)
    requires forall x :: x in s ==> x !in out
    ensures Minus(s, out) == s
    decreases |s|
  {
    if s != [] {
      MinusNothing(s[..|s| - 1], out);
    }
  }

  lemma {:induction false} MinusTwice(s: seq<string>, a: set<string>, b: set<string>)
    ensures Minus(Minus(s, a), b) == Minus(s, a + b)
    decreases |s|
  {
    if s != [] {
      var front, last := s[..|s| - 1], s[|s| - 1];
      MinusTwice(front, a, b);
      if last in a {
        assert Minus(s, a) == Minus(front, a);
      } else {
        assert Minus(s, a) == Minus(front, a) + [last];
        assert (Minus(front, a) + [last])[..|Minus(front, a)|] == Minus(front, a);
      }
    }
  }

  // ---------------------------------------------------------------------------
  // Altering one table
  // ---------------------------------------------------------------------------

  lemma ApplySnoc(schema: Schema, driver: Driver, ddls: seq<Ddl>, d: Ddl)
    ensures ApplyAll(schema, driver, ddls + [d])
         == (var mid := ApplyAll(schema, driver, ddls); if mid.None? then None else Apply(mid.value, driver, d))
  {
    assert (ddls + [d])[..|ddls|] == ddls;
  }

  lemma ApplyOne(schema: Schema, driver: Driver, d: Ddl)
    ensures ApplyAll(schema, driver, [d]) == Apply(schema, driver, d)
  {
    ApplySnoc(schema, driver, [], d);
    assert [] + [d] == [d];
  }

  lemma Overwrite(schema: Schema, name: string, a: TableState, b: TableState)
    ensures schema[name := a][name := b] == schema[name := b]
  {
  }

  ghost function Extended(state: TableState, adds: seq<string>): TableState {
    state.(columns := state.columns + adds)
  }

  /** No column would appear twice. */
  ghost predicate FitsAfter(columns: seq<string>, adds: seq<string>) {
    Distinct(adds) && forall x :: x in adds ==> x !in columns
  }

  lemma FitsSnoc(columns: seq<string>, front: seq<string>, last: string)
    ensures FitsAfter(columns, front + [last]) <==> FitsAfter(columns, front) && last !in columns + front
  {
    DistinctSnoc(front, last);
    assert forall x :: x in front + [last] <==> x in front || x == last;
  }

  lemma AddStep(schema: Schema, driver: Driver, name: string, front: seq<string>, last: string)
    requires name in schema
    ensures Apply(schema[name := Extended(schema[name], front)], driver, AddColumn(name, last))
         == if last in schema[name].columns + front then None else Some(schema[name := Extended(schema[name], front + [last])])
  {
    var state := schema[name];
    Overwrite(schema, name, Extended(state, front), Extended(state, front + [last]));
    assert Extended(Extended(state, front), [last]) == Extended(state, front + [last]);
  }

  /** ADD statements are accepted exactly when no column would appear twice. */
  lemma {:induction false} AddsOutcome(schema: Schema, driver: Driver, name: string, adds: seq<string>)
    requires name in schema
    ensures ApplyAll(schema, driver, AddStatements(name, adds))
         == if FitsAfter(schema[name].columns, adds) then Some(schema[name := Extended(schema[name], adds)]) else None
    decreases |adds|
  {
    var state := schema[name];
    if adds == [] {
      assert Extended(state, adds) == state;
      assert schema[name := state] == schema;
    } else {
      var front, last := adds[..|adds| - 1], adds[|adds| - 1];
      assert adds == front + [last];
      AddsOutcome(schema, driver, name, front);
      FitsSnoc(state.columns, front, last);
      ApplySnoc(schema, driver, AddStatements(name, front), AddColumn(name, last));
      AddStep(schema, driver, name, front, last);
    }
  }

  ghost function Dropped(state: TableState, drops: seq<string>): TableState {
    TableState(Minus(state.columns, Elements(drops)), state.indexes - Elements(drops))
  }

  lemma DroppedSnoc(state: TableState, front: seq<string>, last: string)
    requires last in state.columns && last !in front
    ensures last in Dropped(state, front).columns
    ensures Dropped(state, front + [last])
         == TableState(Minus(Dropped(state, front).columns, {last}), Dropped(state, front).indexes - {last})
  {
    MinusMembers(state.columns, Elements(front), last);
    MinusTwice(state.columns, Elements(front), {last});
    assert Elements(front + [last]) == Elements(front) + {last};
  }

  /** SQLite keeps columns that carry an index. */
  ghost predicate DropsAllowed(driver: Driver, indexes: set<string>, drops: seq<string>) {
    driver == Sqlite ==> forall x :: x in drops ==> x !in indexes
  }

  /** DROP statements are accepted exactly when none meets an index that SQLite keeps. */
  lemma {:induction false} DropsOutcome(schema: Schema, driver: Driver, name: string, drops: seq<string>)
    requires name in schema && Distinct(drops)
    requires forall x :: x in drops ==> x in schema[name].columns
    ensures ApplyAll(schema, driver, DropStatements(name, drops))
         == if DropsAllowed(driver, schema[name].indexes, drops)
            then Some(schema[name := Dropped(schema[name], drops)])
            else None
    decreases |drops|
  {
    var state := schema[name];
    if drops == [] {
      MinusNothing(state.columns, {});
      assert Elements(drops) == {};
      assert Dropped(state, drops) == state;
      assert schema[name := state] == schema;
    } else {
      var front, last := drops[..|drops| - 1], drops[|drops| - 1];
      assert drops == front + [last];
      DistinctSnoc(front, last);
      DropsOutcome(schema, driver, name, front);
      ApplySnoc(schema, driver, DropStatements(name, front), DropColumn(name, last));
      DropStep(schema, driver, name, front, last);
    }
  }

  lemma DropStep(schema: Schema, driver: Driver, name: string, front: seq<string>, last: string)
    requires name in schema && last in schema[name].columns && last !in front
    ensures Apply(schema[name := Dropped(schema[name], front)], driver, DropColumn(name, last))
         == if driver == Sqlite && last in schema[name].indexes then None
            else Some(schema[name := Dropped(schema[name], front + [last])])
    ensures DropsAllowed(driver, schema[name].indexes, front + [last])
       <==> DropsAllowed(driver, schema[name].indexes, front) && !(driver == Sqlite && last in schema[name].indexes)
  {
    var state := schema[name];
    DroppedSnoc(state, front, last);
    Overwrite(schema, name, Dropped(state, front), Dropped(state, front + [last]));
    assert forall x :: x in front + [last] <==> x in front || x == last;
  }

  ghost predicate WellFormedTable(state: TableState) {
    Distinct(state.columns) && forall c :: c in state.indexes ==> c in state.columns
  }

  ghost predicate WellFormed(schema: Schema) {
    forall name :: name in schema ==> WellFormedTable(schema[name])
  }

  ghost function AlteredState(state: TableState, columns: seq<Column>, destructive: bool): TableState {
    TableState(TargetColumns(state.columns, columns, destructive),
               if destructive then state.indexes - Elements(ToDrop(state.columns, columns)) else state.indexes)
  }

  lemma AddedApartFromDropped(existing: seq<string>, columns: seq<Column>, x: string)
    requires x in ToAdd(existing, columns)
    ensures x !in existing && x !in Elements(ToDrop(existing, columns))
  {
    ToAddMembers(existing, columns, x);
    ToDropMembers(existing, columns, x);
  }

  /** DROP, after the ADDs, on a table extended by `adds`. */
  lemma DropsAfterAdds(state: TableState, columns: seq<Column>)
    requires Distinct(state.columns)
    ensures var adds, drops := ToAdd(state.columns, columns), ToDrop(state.columns, columns);
            && Distinct(drops)
            && (forall x :: x in drops ==> x in state.columns + adds)
            && Dropped(Extended(state, adds), drops) == AlteredState(state, columns, true)
  {
    var existing := state.columns;
    var adds, drops := ToAdd(existing, columns), ToDrop(existing, columns);
    forall x | x in drops
      ensures x in existing
    {
      ToDropMembers(existing, columns, x);
    }
    forall x | x in adds
      ensures x !in Elements(drops)
    {
      AddedApartFromDropped(existing, columns, x);
    }
    ToDropDistinct(existing, columns);
    MinusAppend(existing, adds, Elements(drops));
    MinusNothing(adds, Elements(drops));
  }

  /** An existing table is altered to exactly its old columns plus the missing
      addable ones, minus the unlisted ones when that is allowed. It is rejected exactly when
      a repeated configured column is one to add, or SQLite keeps an indexed one to drop. */
  lemma AlterOutcome(schema: Schema, driver: Driver, table: Table, destructive: bool)
    requires table.name in schema && WellFormedTable(schema[table.name])
    ensures ApplyAll(schema, driver, AlterPlan(table, schema[table.name].columns, destructive))
         == if && Distinct(ToAdd(schema[table.name].columns, table.columns))
               && (destructive ==> DropsAllowed(driver, schema[table.name].indexes, ToDrop(schema[table.name].columns, table.columns)))
            then Some(schema[table.name := AlteredState(schema[table.name], table.columns, destructive)])
            else None
  {
    var state := schema[table.name];
    var existing := state.columns;
    var adds, drops := ToAdd(existing, table.columns), ToDrop(existing, table.columns);
    ApplyAllAppend(schema, driver, AddStatements(table.name, adds), DropPlan(table, existing, destructive));
    AddsOutcome(schema, driver, table.name, adds);
    forall x | x in adds
      ensures x !in existing
    {
      AddedApartFromDropped(existing, table.columns, x);
    }
    if Distinct(adds) && destructive {
      DropsAfterAdds(state, table.columns);
      DropsOutcome(schema[table.name := Extended(state, adds)], driver, table.name, drops);
      Overwrite(schema, table.name, Extended(state, adds), AlteredState(state, table.columns, true));
    }
  }

  lemma TargetMembers(existing: seq<string>, columns: seq<Column>, destructive: bool, name: string)
    ensures name in TargetColumns(existing, columns, destructive) <==>
              if name in existing then destructive ==> Configured(columns, name) else AddableNamed(columns, name)
  {
    ToAddMembers(existing, columns, name);
    ToDropMembers(existing, columns, name);
    MinusMembers(existing, Elements(ToDrop(existing, columns)), name);
    NamesMembers(columns, name);
  }

  lemma TargetDistinct(existing: seq<string>, columns: seq<Column>, destructive: bool)
    requires Distinct(existing) && Distinct(ToAdd(existing, columns))
    ensures Distinct(TargetColumns(existing, columns, destructive))
  {
    var kept := if destructive then Minus(existing, Elements(ToDrop(existing, columns))) else existing;
    MinusDistinct(existing, Elements(ToDrop(existing, columns)));
    forall x | x in kept
      ensures x !in ToAdd(existing, columns)
    {
      MinusMembers(existing, Elements(ToDrop(existing, columns)), x);
      ToAddMembers(existing, columns, x);
    }
    DistinctAppend(kept, ToAdd(existing, columns));
  }

  lemma DistinctAppend(a: seq<string>, b: seq<string>)
    requires Distinct(a) && Distinct(b) && forall x :: x in a ==> x !in b
    ensures Distinct(a + b)
  {
    var s := a + b;
    forall i, j | 0 <= i < j < |s|
      ensures s[i] != s[j]
    {
      if i < |a| && |a| <= j {
        assert s[i] == a[i] && s[j] == b[j - |a|];
        assert a[i] in a && b[j - |a|] in b;
      }
    }
  }

  /** Nothing is left to add or drop. */
  ghost predicate ColumnsSettled(existing: seq<string>, columns: seq<Column>, destructive: bool) {
    ToAdd(existing, columns) == [] && (destructive ==> ToDrop(existing, columns) == [])
  }

  lemma TargetIsSettled(existing: seq<string>, columns: seq<Column>, destructive: bool)
    ensures ColumnsSettled(TargetColumns(existing, columns, destructive), columns, destructive)
  {
    var target := TargetColumns(existing, columns, destructive);
    if ToAdd(target, columns) != [] {
      var x := ToAdd(target, columns)[0];
      ToAddMembers(target, columns, x);
      TargetMembers(existing, columns, destructive, x);
      assert false;
    }
    if destructive && ToDrop(target, columns) != [] {
      var x := ToDrop(target, columns)[0];
      ToDropMembers(target, columns, x);
      TargetMembers(existing, columns, destructive, x);
      NamesMembers(columns, x);
      assert false;
    }
  }

  // ---------------------------------------------------------------------------
  // Indexes
  // ---------------------------------------------------------------------------

  function IndexNames(columns: seq<Column>): set<string> {
    set c | c in columns && c.indexed && !c.primaryKey :: c.name
  }

  lemma IndexNamesSnoc(front: seq<Column>, last: Column)
    requires Distinct(Names(front + [last]))
    ensures Distinct(Names(front))
    ensures IndexNames(front + [last]) == IndexNames(front) + (if last.indexed && !last.primaryKey then {last.name} else {})
    ensures last.name !in IndexNames(front)
  {
    assert (front + [last])[..|front|] == front;
    DistinctSnoc(Names(front), last.name);
    NamesMembers(front, last.name);
    assert forall c :: c in front + [last] <==> c in front || c == last;
  }

  ghost function Indexed(state: TableState, names: set<string>): TableState {
    state.(indexes := state.indexes + names)
  }

  lemma IndexedTwice(schema: Schema, driver: Driver, name: string, front: set<string>, last: string)
    requires name in schema && !(driver == Mysql && last in schema[name].indexes + front)
    ensures Apply(schema[name := Indexed(schema[name], front)], driver, CreateIndex(name, last))
         == if last in schema[name].columns then Some(schema[name := Indexed(schema[name], front + {last})]) else None
  {
    var state := schema[name];
    assert Indexed(Indexed(state, front), {last}) == Indexed(state, front + {last});
    Overwrite(schema, name, Indexed(state, front), Indexed(state, front + {last}));
  }

  /** One more configured column: at most one more index statement, accepted when the column exists. */
  lemma IndexStep(schema: Schema, driver: Driver, name: string, front: seq<Column>, last: Column, present: set<string>)
    requires name in schema && WellFormedTable(schema[name]) && Distinct(Names(front + [last]))
    requires present == ExistingIndexes(schema, driver, name)
    requires ApplyAll(schema, driver, IndexPlan(name, front, present)) == Some(schema[name := Indexed(schema[name], IndexNames(front))])
    ensures ApplyAll(schema, driver, IndexPlan(name, front + [last], present))
         == if last.indexed && !last.primaryKey && last.name !in schema[name].columns then None
            else Some(schema[name := Indexed(schema[name], IndexNames(front + [last]))])
  {
    IndexNamesSnoc(front, last);
    IndexPlanSnoc(name, front, last, present);
    if last.indexed && !last.primaryKey && last.name !in present {
      ApplySnoc(schema, driver, IndexPlan(name, front, present), CreateIndex(name, last.name));
      IndexedTwice(schema, driver, name, IndexNames(front), last.name);
    } else {
      assert schema[name].indexes + IndexNames(front + [last]) == schema[name].indexes + IndexNames(front);
    }
  }

  lemma IndexPlanSnoc(name: string, front: seq<Column>, last: Column, present: set<string>)
    ensures IndexPlan(name, front + [last], present)
         == if last.indexed && !last.primaryKey && last.name !in present
            then IndexPlan(name, front, present) + [CreateIndex(name, last.name)]
            else IndexPlan(name, front, present)
  {
    assert (front + [last])[..|front|] == front;
  }

  /** Index statements are accepted exactly when every column to index exists. */
  lemma {:induction false} IndexesOutcome(schema: Schema, driver: Driver, name: string, columns: seq<Column>, present: set<string>)
    requires name in schema && WellFormedTable(schema[name]) && Distinct(Names(columns))
    requires present == ExistingIndexes(schema, driver, name)
    ensures ApplyAll(schema, driver, IndexPlan(name, columns, present))
         == if IndexNames(columns) <= Elements(schema[name].columns)
            then Some(schema[name := Indexed(schema[name], IndexNames(columns))])
            else None
    decreases |columns|
  {
    var state := schema[name];
    if columns == [] {
      assert Indexed(state, IndexNames(columns)) == state;
      assert schema[name := state] == schema;
    } else {
      var front, last := columns[..|columns| - 1], columns[|columns| - 1];
      assert columns == front + [last];
      IndexNamesSnoc(front, last);
      IndexesOutcome(schema, driver, name, front, present);
      if IndexNames(front) <= Elements(state.columns) {
        IndexStep(schema, driver, name, front, last, present);
      } else {
        ApplyAllAppend(schema, driver, IndexPlan(name, front, present),
                       if last.indexed && !last.primaryKey && last.name !in present then [CreateIndex(name, last.name)] else []);
      }
    }
  }

  lemma IndexPlanQuiet(name: string, columns: seq<Column>, present: set<string>)
    ensures Quiet(IndexPlan(name, columns, present))
  {
  }

  /** Neither ADD COLUMN nor DROP COLUMN. */
  ghost predicate Quiet(ddls: seq<Ddl>) {
    forall d :: d in ddls ==> !d.AddColumn? && !d.DropColumn?
  }

  // ---------------------------------------------------------------------------
  // One table
  // ---------------------------------------------------------------------------

  /** The columns a table ends up with. */
  ghost function FinalColumns(schema: Schema, table: Table, destructive: bool): seq<string> {
    if table.name !in schema then Names(table.columns)
    else if schema[table.name].columns == [] then []
    else TargetColumns(schema[table.name].columns, table.columns, destructive)
  }

  ghost predicate ForeignKeysReady(schema: Schema, table: Table) {
    forall f :: f in table.foreignKeys ==> f.referencesTable in schema || f.referencesTable == table.name
  }

  /** Every column to index will exist: in an existing table it is there already or may be added. */
  ghost predicate IndexesPossible(schema: Schema, table: Table) {
    table.name in schema ==>
      forall c :: c in table.columns && c.indexed && !c.primaryKey ==>
        c.name in schema[table.name].columns || (schema[table.name].columns != [] && Addable(c))
  }

  /** No column that SQLite keeps for its index is to be dropped. */
  ghost predicate DropsPossible(schema: Schema, driver: Driver, table: Table, destructive: bool) {
    driver == Sqlite && destructive && table.name in schema ==>
      forall c :: c in schema[table.name].indexes ==> Configured(table.columns, c)
  }

  ghost predicate ChangesPossible(schema: Schema, driver: Driver, table: Table, destructive: bool) {
    IndexesPossible(schema, table) && DropsPossible(schema, driver, table, destructive)
  }

  lemma DropsPossibleExactly(state: TableState, driver: Driver, columns: seq<Column>)
    requires WellFormedTable(state)
    ensures DropsAllowed(driver, state.indexes, ToDrop(state.columns, columns))
       <==> (driver == Sqlite ==> forall c :: c in state.indexes ==> Configured(columns, c))
  {
    forall c | c in state.indexes
      ensures c in ToDrop(state.columns, columns) <==> !Configured(columns, c)
    {
      ToDropMembers(state.columns, columns, c);
      NamesMembers(columns, c);
    }
  }

  ghost predicate Settled(state: TableState, table: Table, destructive: bool) {
    && WellFormedTable(state)
    && (state.columns != [] ==> ColumnsSettled(state.columns, table.columns, destructive))
    && IndexNames(table.columns) <= state.indexes
  }

  lemma IndexNamesInTarget(existing: seq<string>, columns: seq<Column>, destructive: bool)
    requires Distinct(Names(columns))
    ensures IndexNames(columns) <= Elements(TargetColumns(existing, columns, destructive)) <==>
              forall c :: c in columns && c.indexed && !c.primaryKey ==> c.name in existing || Addable(c)
  {
    var target := TargetColumns(existing, columns, destructive);
    forall c | c in columns
      ensures c.name in target <==> c.name in existing || Addable(c)
    {
      TargetMembers(existing, columns, destructive, c.name);
      if c.name !in existing && AddableNamed(columns, c.name) {
        var d :| d in columns && d.name == c.name && Addable(d);
        SameName(columns, c, d);
      }
    }
    if IndexNames(columns) <= Elements(target) {
      forall c | c in columns && c.indexed && !c.primaryKey
        ensures c.name in existing || Addable(c)
      {
        assert c.name in IndexNames(columns);
        assert c.name in Elements(target);
      }
    }
  }

  lemma {:induction false} SameName(columns: seq<Column>, c: Column, d: Column)
    requires Distinct(Names(columns)) && c in columns && d in columns && c.name == d.name
    ensures c == d
    decreases |columns|
  {
    var front, last := columns[..|columns| - 1], columns[|columns| - 1];
    assert columns == front + [last];
    DistinctSnoc(Names(front), last.name);
    NamesMembers(front, last.name);
    assert forall x :: x in columns <==> x in front || x == last;
    if c != last && d != last {
      SameName(front, c, d);
    }
  }

  lemma FreshIndexNames(columns: seq<Column>)
    ensures IndexNames(columns) <= Elements(Names(columns))
  {
    forall c | c in columns
      ensures c.name in Names(columns)
    {
      NamesMembers(columns, c.name);
    }
  }

  ghost predicate TableDone(schema: Schema, table: Table, destructive: bool, after: Schema) {
    && table.name in after
    && after[table.name].columns == FinalColumns(schema, table, destructive)
    && Settled(after[table.name], table, destructive)
    && after == schema[table.name := after[table.name]]
  }

  lemma CreateOutcome(schema: Schema, driver: Driver, table: Table, destructive: bool)
    requires Distinct(Names(table.columns)) && ExistingColumns(schema, table.name) == []
    requires table.name in schema ==> WellFormedTable(schema[table.name])
    ensures var run := MigrateTable(schema, driver, table, destructive);
            && (run.schema.Some? <==> (table.name in schema || ForeignKeysReady(schema, table)) && ChangesPossible(schema, driver, table, destructive))
            && (run.schema.Some? ==> TableDone(schema, table, destructive, run.schema.value))
  {
    var name := table.name;
    MigrateTableApplies(schema, driver, table, destructive);
    ApplyOne(schema, driver, CreateTable(table));
    var created := ApplyAll(schema, driver, [CreateTable(table)]);
    if created.Some? {
      FreshIndexNames(table.columns);
      IndexesOutcome(created.value, driver, name, table.columns, ExistingIndexes(created.value, driver, name));
      if name !in schema {
        FreshIsSettled(table.columns, destructive);
        Overwrite(schema, name, TableState(Names(table.columns), {}), Indexed(TableState(Names(table.columns), {}), IndexNames(table.columns)));
      }
    }
  }

  /** What altering an existing table and then indexing it leaves. */
  ghost function AlteredAndIndexed(state: TableState, table: Table, destructive: bool): TableState {
    Indexed(AlteredState(state, table.columns, destructive), IndexNames(table.columns))
  }

  lemma AlterChanges(schema: Schema, driver: Driver, table: Table, destructive: bool)
    requires Distinct(Names(table.columns)) && ExistingColumns(schema, table.name) != []
    requires WellFormedTable(schema[table.name])
    ensures ApplyAll(schema, driver, TablePlan(schema, table, destructive))
         == if DropsPossible(schema, driver, table, destructive)
            then Some(schema[table.name := AlteredState(schema[table.name], table.columns, destructive)])
            else None
  {
    ToAddDistinct(schema[table.name].columns, table.columns);
    DropsPossibleExactly(schema[table.name], driver, table.columns);
    AlterOutcome(schema, driver, table, destructive);
  }

  lemma IndexChanges(schema: Schema, driver: Driver, table: Table, destructive: bool)
    requires Distinct(Names(table.columns)) && ExistingColumns(schema, table.name) != []
    requires WellFormedTable(schema[table.name])
    ensures var state := schema[table.name];
            var mid := schema[table.name := AlteredState(state, table.columns, destructive)];
            ApplyAll(mid, driver, IndexPlan(table.name, table.columns, ExistingIndexes(mid, driver, table.name)))
            == if IndexesPossible(schema, table)
               then Some(schema[table.name := AlteredAndIndexed(state, table, destructive)])
               else None
  {
    var name, state := table.name, schema[table.name];
    var altered := AlteredState(state, table.columns, destructive);
    var mid := schema[name := altered];
    ToAddDistinct(state.columns, table.columns);
    AlteredWellFormed(state, table.columns, destructive);
    IndexNamesInTarget(state.columns, table.columns, destructive);
    IndexesOutcome(mid, driver, name, table.columns, ExistingIndexes(mid, driver, name));
    Overwrite(schema, name, altered, AlteredAndIndexed(state, table, destructive));
  }

  lemma AlteredIsDone(schema: Schema, table: Table, destructive: bool)
    requires Distinct(Names(table.columns)) && ExistingColumns(schema, table.name) != []
    requires WellFormedTable(schema[table.name]) && IndexesPossible(schema, table)
    ensures TableDone(schema, table, destructive, schema[table.name := AlteredAndIndexed(schema[table.name], table, destructive)])
  {
    var state := schema[table.name];
    ToAddDistinct(state.columns, table.columns);
    AlteredWellFormed(state, table.columns, destructive);
    IndexNamesInTarget(state.columns, table.columns, destructive);
    TargetIsSettled(state.columns, table.columns, destructive);
  }

  lemma AlterCase(schema: Schema, driver: Driver, table: Table, destructive: bool)
    requires Distinct(Names(table.columns)) && ExistingColumns(schema, table.name) != []
    requires WellFormedTable(schema[table.name])
    ensures var run := MigrateTable(schema, driver, table, destructive);
            && (run.schema.Some? <==> ChangesPossible(schema, driver, table, destructive))
            && (run.schema.Some? ==> TableDone(schema, table, destructive, run.schema.value))
  {
    MigrateTableApplies(schema, driver, table, destructive);
    AlterChanges(schema, driver, table, destructive);
    IndexChanges(schema, driver, table, destructive);
    if IndexesPossible(schema, table) {
      AlteredIsDone(schema, table, destructive);
    }
  }

  /** A table is migrated exactly when its foreign keys and indexes can be made and its drops are allowed; it
      then has its final columns, is settled, and no other table has changed. */
  lemma TableOutcome(schema: Schema, driver: Driver, table: Table, destructive: bool)
    requires WellFormed(schema) && Distinct(Names(table.columns))
    ensures var run := MigrateTable(schema, driver, table, destructive);
            && (run.schema.Some? <==> (table.name in schema || ForeignKeysReady(schema, table)) && ChangesPossible(schema, driver, table, destructive))
            && (run.schema.Some? ==> TableDone(schema, table, destructive, run.schema.value))
  {
    if ExistingColumns(schema, table.name) == [] {
      CreateOutcome(schema, driver, table, destructive);
    } else {
      AlterCase(schema, driver, table, destructive);
    }
  }

  lemma AlteredWellFormed(state: TableState, columns: seq<Column>, destructive: bool)
    requires WellFormedTable(state) && Distinct(ToAdd(state.columns, columns))
    ensures WellFormedTable(AlteredState(state, columns, destructive))
  {
    TargetDistinct(state.columns, columns, destructive);
    forall c | c in AlteredState(state, columns, destructive).indexes
      ensures c in TargetColumns(state.columns, columns, destructive)
    {
      TargetMembers(state.columns, columns, destructive, c);
      ToDropMembers(state.columns, columns, c);
      NamesMembers(columns, c);
    }
  }

  lemma FreshIsSettled(columns: seq<Column>, destructive: bool)
    ensures ColumnsSettled(Names(columns), columns, destructive)
  {
    if ToAdd(Names(columns), columns) != [] {
      var x := ToAdd(Names(columns), columns)[0];
      ToAddMembers(Names(columns), columns, x);
      NamesMembers(columns, x);
      assert false;
    }
    if ToDrop(Names(columns), columns) != [] {
      var x := ToDrop(Names(columns), columns)[0];
      ToDropMembers(Names(columns), columns, x);
      assert false;
    }
  }

  lemma SettledPlan(schema: Schema, driver: Driver, table: Table, destructive: bool)
    requires table.name in schema && Settled(schema[table.name], table, destructive)
    ensures ApplyAll(schema, driver, TablePlan(schema, table, destructive)) == Some(schema)
    ensures Quiet(TablePlan(schema, table, destructive))
  {
    if schema[table.name].columns == [] {
      ApplyOne(schema, driver, CreateTable(table));
    } else {
      assert TablePlan(schema, table, destructive) == [];
    }
  }

  /** Migrating a settled table changes nothing and issues no ADD and no DROP. */
  lemma SettledIsQuiet(schema: Schema, driver: Driver, table: Table, destructive: bool)
    requires table.name in schema && Settled(schema[table.name], table, destructive) && Distinct(Names(table.columns))
    ensures var run := MigrateTable(schema, driver, table, destructive);
            run.schema == Some(schema) && Quiet(run.issued)
  {
    var name := table.name;
    var state := schema[name];
    var plan := TablePlan(schema, table, destructive);
    MigrateTableApplies(schema, driver, table, destructive);
    SettledPlan(schema, driver, table, destructive);
    IndexesOutcome(schema, driver, name, table.columns, ExistingIndexes(schema, driver, name));
    assert IndexNames(table.columns) <= Elements(state.columns);
    assert state.indexes + IndexNames(table.columns) == state.indexes;
    assert schema[name := state] == schema;
    IndexPlanQuiet(name, table.columns, ExistingIndexes(schema, driver, name));
  }

  // ---------------------------------------------------------------------------
  // The whole run
  // ---------------------------------------------------------------------------

  ghost predicate PoolsReady(schemas: Schemas, drivers: map<string, Driver>, settings: map<string, Settings>, tables: seq<Table>) {
    && (forall t :: t in tables && ShouldMigrate(settings, t.database) ==> t.database in schemas && t.database in drivers)
    && (forall db :: db in schemas ==> WellFormed(schemas[db]))
    && (forall t :: t in tables ==> Distinct(Names(t.columns)))
  }

  /** Foreign keys lead to earlier tables of the same database. */
  ghost predicate TargetsFirst(sorted: seq<Table>) {
    forall k, f :: 0 <= k < |sorted| && f in sorted[k].foreignKeys ==> TargetBefore(sorted, k, f)
  }

  ghost predicate TargetBefore(sorted: seq<Table>, k: nat, f: ForeignKey)
    requires k < |sorted|
  {
    exists j :: 0 <= j < k && sorted[j].name == f.referencesTable && sorted[j].database == sorted[k].database
  }

  ghost predicate AllChangesPossible(schemas: Schemas, drivers: map<string, Driver>, settings: map<string, Settings>, tables: seq<Table>) {
    forall t :: t in tables ==> TableChangesPossible(schemas, drivers, settings, t)
  }

  /** A table without settings migrates, and loses no column. */
  ghost predicate TableChangesPossible(schemas: Schemas, drivers: map<string, Driver>, settings: map<string, Settings>, t: Table) {
    var db := t.database;
    (db in settings ==> settings[db].autoMigrate) && db in schemas && db in drivers ==>
      ChangesPossible(schemas[db], drivers[db], t, db in settings && settings[db].allowDestructive)
  }

  /** What the run leaves behind: migrated tables are final and settled, the rest is as it was. */
  ghost predicate Migrated(start: Schemas, settings: map<string, Settings>, tables: seq<Table>, end: Schemas) {
    && end.Keys == start.Keys
    && (forall db :: db in end ==> WellFormed(end[db]))
    && (forall t :: t in tables && ShouldMigrate(settings, t.database) && t.database in start ==> Finished(start, settings, t, end))
    && (forall db, name :: db in start && !Concerns(settings, tables, db, name) ==> Same(start[db], end[db], name))
  }

  ghost predicate Finished(start: Schemas, settings: map<string, Settings>, t: Table, end: Schemas)
    requires t.database in start && t.database in end
  {
    && t.name in end[t.database]
    && end[t.database][t.name].columns == FinalColumns(start[t.database], t, Destructive(settings, t.database))
    && Settled(end[t.database][t.name], t, Destructive(settings, t.database))
  }

  /** Column by column: a new table has the configured ones; an existing one keeps its own, but for unlisted
      ones where its settings allow dropping them, and gets the missing ones that old rows can take. */
  ghost predicate ColumnsFollow(start: Schemas, settings: map<string, Settings>, t: Table, end: Schemas)
    requires t.database in start && t.database in end
  {
    var db := t.database;
    && t.name in end[db]
    && forall column :: column in end[db][t.name].columns <==>
         if t.name !in start[db] then Configured(t.columns, column)
         else if column in start[db][t.name].columns then
           db in settings && settings[db].allowDestructive ==> Configured(t.columns, column)
         else
           && start[db][t.name].columns != []
           && exists c :: c in t.columns && c.name == column && !c.primaryKey && (c.nullable || c.default.Some?)
  }

  /** Every table whose database does not turn migration off follows its configuration. */
  ghost predicate FollowsSettings(start: Schemas, settings: map<string, Settings>, tables: seq<Table>, end: Schemas) {
    forall t :: t in tables && t.database in start && (t.database in settings ==> settings[t.database].autoMigrate) ==>
      t.database in end && ColumnsFollow(start, settings, t, end)
  }

  lemma FinishedFollows(start: Schemas, settings: map<string, Settings>, t: Table, end: Schemas)
    requires t.database in start && t.database in end && Finished(start, settings, t, end)
    ensures ColumnsFollow(start, settings, t, end)
  {
    var schema, name, destructive := start[t.database], t.name, Destructive(settings, t.database);
    forall column
      ensures column in Names(t.columns) <==> Configured(t.columns, column)
      ensures name in schema ==>
                (column in TargetColumns(schema[name].columns, t.columns, destructive) <==>
                   if column in schema[name].columns then destructive ==> Configured(t.columns, column) else AddableNamed(t.columns, column))
    {
      NamesMembers(t.columns, column);
      if name in schema {
        TargetMembers(schema[name].columns, t.columns, destructive, column);
      }
    }
  }

  lemma MigratedFollows(start: Schemas, settings: map<string, Settings>, tables: seq<Table>, end: Schemas)
    requires Migrated(start, settings, tables, end)
    ensures FollowsSettings(start, settings, tables, end)
  {
    forall t | t in tables && t.database in start && ShouldMigrate(settings, t.database)
      ensures ColumnsFollow(start, settings, t, end)
    {
      FinishedFollows(start, settings, t, end);
    }
  }

  /** Some migrated table of the configuration has this name and database. */
  ghost predicate Concerns(settings: map<string, Settings>, tables: seq<Table>, db: string, name: string) {
    exists t :: t in tables && ShouldMigrate(settings, t.database) && t.database == db && t.name == name
  }

  ghost predicate Same(before: Schema, after: Schema, name: string) {
    (name in after <==> name in before) && (name in before ==> after[name] == before[name])
  }

  /** The next table of a run that has succeeded so far. */
  lemma NextOutcome(start: Schemas, drivers: map<string, Driver>, settings: map<string, Settings>, sorted: seq<Table>, mid: Schemas)
    requires PoolsReady(start, drivers, settings, sorted) && DistinctNames(sorted) && TargetsFirst(sorted)
    requires sorted != [] && Migrated(start, settings, sorted[..|sorted| - 1], mid)
    ensures var t := sorted[|sorted| - 1];
            var next := MigrateNext(mid, drivers, settings, t);
            && (next.result.Ok? <==> TableChangesPossible(start, drivers, settings, t))
            && (next.result.Ok? ==> Migrated(start, settings, sorted, next.result.value))
  {
    var t := sorted[|sorted| - 1];
    var db := t.database;
    assert t in sorted;
    if ShouldMigrate(settings, db) {
      OwnEntryUntouched(start, settings, sorted, mid);
      TargetsPresent(start, settings, sorted, mid);
      TableOutcome(mid[db], drivers[db], t, Destructive(settings, db));
      var next := MigrateNext(mid, drivers, settings, t);
      if next.result.Ok? {
        MigratedExtends(start, settings, sorted, mid, next.result.value);
      }
    } else {
      SkippedExtends(start, settings, sorted, mid);
    }
  }

  /** With the tables in foreign-key order, every CREATE TABLE finds its referenced
      tables, and the run succeeds exactly when every index can be made and every drop is allowed. */
  lemma {:induction false} RunOutcome(schemas: Schemas, drivers: map<string, Driver>, settings: map<string, Settings>, sorted: seq<Table>)
    requires PoolsReady(schemas, drivers, settings, sorted) && DistinctNames(sorted) && TargetsFirst(sorted)
    ensures MigrateAll(schemas, drivers, settings, sorted).result.Ok? <==> AllChangesPossible(schemas, drivers, settings, sorted)
    ensures MigrateAll(schemas, drivers, settings, sorted).result.Ok? ==>
              Migrated(schemas, settings, sorted, MigrateAll(schemas, drivers, settings, sorted).result.value)
    ensures MigrateAll(schemas, drivers, settings, sorted).result.Ok? ==>
              FollowsSettings(schemas, settings, sorted, MigrateAll(schemas, drivers, settings, sorted).result.value)
    decreases |sorted|
  {
    if sorted != [] {
      var front, t := sorted[..|sorted| - 1], sorted[|sorted| - 1];
      assert sorted == front + [t];
      FrontPoolsReady(schemas, drivers, settings, sorted);
      FrontTargetsFirst(sorted);
      RunOutcome(schemas, drivers, settings, front);
      ChangesPossibleSnoc(schemas, drivers, settings, front, t);
      LeftIsResult(schemas, drivers, settings, front);
      var before := MigrateAll(schemas, drivers, settings, front);
      if before.result.Ok? {
        NextOutcome(schemas, drivers, settings, sorted, before.result.value);
      }
    }
    if MigrateAll(schemas, drivers, settings, sorted).result.Ok? {
      MigratedFollows(schemas, settings, sorted, MigrateAll(schemas, drivers, settings, sorted).result.value);
    }
  }

  lemma FrontPoolsReady(schemas: Schemas, drivers: map<string, Driver>, settings: map<string, Settings>, sorted: seq<Table>)
    requires sorted != [] && PoolsReady(schemas, drivers, settings, sorted)
    ensures PoolsReady(schemas, drivers, settings, sorted[..|sorted| - 1])
    ensures var t := sorted[|sorted| - 1]; ShouldMigrate(settings, t.database) ==> t.database in schemas && t.database in drivers
  {
    assert sorted[|sorted| - 1] in sorted && forall u :: u in sorted[..|sorted| - 1] ==> u in sorted;
  }

  lemma ChangesPossibleSnoc(schemas: Schemas, drivers: map<string, Driver>, settings: map<string, Settings>, front: seq<Table>, t: Table)
    ensures AllChangesPossible(schemas, drivers, settings, front + [t]) <==>
              AllChangesPossible(schemas, drivers, settings, front) && TableChangesPossible(schemas, drivers, settings, t)
  {
    assert forall u :: u in front + [t] <==> u in front || u == t;
  }

  lemma FrontTargetsFirst(sorted: seq<Table>)
    requires sorted != [] && DistinctNames(sorted) && TargetsFirst(sorted)
    ensures DistinctNames(sorted[..|sorted| - 1]) && TargetsFirst(sorted[..|sorted| - 1])
  {
    var front := sorted[..|sorted| - 1];
    forall k, f | 0 <= k < |front| && f in front[k].foreignKeys
      ensures TargetBefore(front, k, f)
    {
      assert f in sorted[k].foreignKeys && TargetBefore(sorted, k, f);
      var j :| 0 <= j < k && sorted[j].name == f.referencesTable && sorted[j].database == sorted[k].database;
      assert front[j] == sorted[j];
    }
  }

  lemma EarlierNamesDiffer(sorted: seq<Table>)
    requires sorted != [] && DistinctNames(sorted)
    ensures forall u :: u in sorted[..|sorted| - 1] ==> u.name != sorted[|sorted| - 1].name
    ensures forall u :: u in sorted <==> u in sorted[..|sorted| - 1] || u == sorted[|sorted| - 1]
  {
    var front, t := sorted[..|sorted| - 1], sorted[|sorted| - 1];
    assert sorted == front + [t];
    forall u | u in front
      ensures u.name != t.name
    {
      var k :| 0 <= k < |sorted| - 1 && sorted[k] == u;
    }
  }

  /** Tables processed earlier have other names, so this one is as the run found it. */
  lemma OwnEntryUntouched(start: Schemas, settings: map<string, Settings>, sorted: seq<Table>, mid: Schemas)
    requires sorted != [] && DistinctNames(sorted) && Migrated(start, settings, sorted[..|sorted| - 1], mid)
    requires sorted[|sorted| - 1].database in start
    ensures var t := sorted[|sorted| - 1]; Same(start[t.database], mid[t.database], t.name)
  {
    var t := sorted[|sorted| - 1];
    EarlierNamesDiffer(sorted);
    assert !Concerns(settings, sorted[..|sorted| - 1], t.database, t.name);
  }

  /** The referenced tables come earlier and are in the same database, so they exist by now. */
  lemma TargetsPresent(start: Schemas, settings: map<string, Settings>, sorted: seq<Table>, mid: Schemas)
    requires sorted != [] && TargetsFirst(sorted) && Migrated(start, settings, sorted[..|sorted| - 1], mid)
    requires ShouldMigrate(settings, sorted[|sorted| - 1].database) && sorted[|sorted| - 1].database in start
    ensures ForeignKeysReady(mid[sorted[|sorted| - 1].database], sorted[|sorted| - 1])
  {
    var k := |sorted| - 1;
    var t := sorted[k];
    forall f | f in t.foreignKeys
      ensures f.referencesTable in mid[t.database]
    {
      assert TargetBefore(sorted, k, f);
      var j :| 0 <= j < k && sorted[j].name == f.referencesTable && sorted[j].database == sorted[k].database;
      assert sorted[..k][j] == sorted[j];
      assert sorted[j] in sorted[..k];
      assert Finished(start, settings, sorted[j], mid);
    }
  }

  lemma MigratedExtends(start: Schemas, settings: map<string, Settings>, sorted: seq<Table>, mid: Schemas, end: Schemas)
    requires sorted != [] && DistinctNames(sorted) && Migrated(start, settings, sorted[..|sorted| - 1], mid)
    requires var t := sorted[|sorted| - 1];
             var db := t.database;
             && ShouldMigrate(settings, db) && db in start && db in end && t.name in end[db]
             && end == mid[db := mid[db][t.name := end[db][t.name]]]
             && Finished(start, settings, t, end)
    ensures Migrated(start, settings, sorted, end)
  {
    var front, t := sorted[..|sorted| - 1], sorted[|sorted| - 1];
    EarlierNamesDiffer(sorted);
    forall u | u in sorted && ShouldMigrate(settings, u.database) && u.database in start
      ensures Finished(start, settings, u, end)
    {
      if u != t {
        assert Finished(start, settings, u, mid);
        assert Same(mid[u.database], end[u.database], u.name);
      }
    }
    forall db, name | db in start && !Concerns(settings, sorted, db, name)
      ensures Same(start[db], end[db], name)
    {
      assert !Concerns(settings, front, db, name);
      assert db != t.database || name != t.name;
      assert Same(mid[db], end[db], name);
    }
    assert WellFormed(end[t.database]);
  }

  lemma SkippedExtends(start: Schemas, settings: map<string, Settings>, sorted: seq<Table>, mid: Schemas)
    requires sorted != [] && Migrated(start, settings, sorted[..|sorted| - 1], mid)
    requires !ShouldMigrate(settings, sorted[|sorted| - 1].database)
    ensures Migrated(start, settings, sorted, mid)
  {
    var front, t := sorted[..|sorted| - 1], sorted[|sorted| - 1];
    assert sorted == front + [t];
    assert forall u :: u in sorted <==> u in front || u == t;
    forall db, name | db in start && !Concerns(settings, sorted, db, name)
      ensures Same(start[db], mid[db], name)
    {
      assert !Concerns(settings, front, db, name);
    }
  }

  ghost predicate SettledIn(schemas: Schemas, settings: map<string, Settings>, t: Table) {
    ShouldMigrate(settings, t.database) ==>
      && t.database in schemas && t.name in schemas[t.database]
      && Settled(schemas[t.database][t.name], t, Destructive(settings, t.database))
  }

  lemma SettledNextIsQuiet(schemas: Schemas, drivers: map<string, Driver>, settings: map<string, Settings>, t: Table)
    requires SettledIn(schemas, settings, t) && Distinct(Names(t.columns))
    requires ShouldMigrate(settings, t.database) ==> t.database in drivers
    ensures var next := MigrateNext(schemas, drivers, settings, t);
            next.result == Ok(schemas) && next.left == schemas && Quiet(next.issued)
  {
    if ShouldMigrate(settings, t.database) {
      var db := t.database;
      SettledIsQuiet(schemas[db], drivers[db], t, Destructive(settings, db));
      MigrateTableApplies(schemas[db], drivers[db], t, Destructive(settings, db));
      assert schemas[db := schemas[db]] == schemas;
    }
  }

  /** A run over settled tables leaves everything alone. */
  lemma {:induction false} SettledRunIsQuiet(schemas: Schemas, drivers: map<string, Driver>, settings: map<string, Settings>, sorted: seq<Table>)
    requires PoolsReady(schemas, drivers, settings, sorted)
    requires forall t :: t in sorted ==> SettledIn(schemas, settings, t)
    ensures var run := MigrateAll(schemas, drivers, settings, sorted);
            run.result == Ok(schemas) && run.left == schemas && Quiet(run.issued)
    decreases |sorted|
  {
    if sorted != [] {
      var front, t := sorted[..|sorted| - 1], sorted[|sorted| - 1];
      assert sorted == front + [t];
      FrontPoolsReady(schemas, drivers, settings, sorted);
      assert t in sorted && forall u :: u in front ==> u in sorted;
      SettledRunIsQuiet(schemas, drivers, settings, front);
      SettledNextIsQuiet(schemas, drivers, settings, t);
    }
  }

  /** Migration converges: after a successful run, a second one changes nothing and
      issues no ADD COLUMN and no DROP COLUMN. */
  lemma MigrationConverges(schemas: Schemas, drivers: map<string, Driver>, settings: map<string, Settings>, sorted: seq<Table>)
    requires PoolsReady(schemas, drivers, settings, sorted) && DistinctNames(sorted) && TargetsFirst(sorted)
    requires MigrateAll(schemas, drivers, settings, sorted).result.Ok?
    ensures var first := MigrateAll(schemas, drivers, settings, sorted).result.value;
            var second := MigrateAll(first, drivers, settings, sorted);
            second.result == Ok(first) && second.left == first && Quiet(second.issued)
  {
    RunOutcome(schemas, drivers, settings, sorted);
    var first := MigrateAll(schemas, drivers, settings, sorted).result.value;
    forall t | t in sorted
      ensures SettledIn(first, settings, t)
    {
      if ShouldMigrate(settings, t.database) {
        assert Finished(schemas, settings, t, first);
      }
    }
    SettledRunIsQuiet(MigrateAll(schemas, drivers, settings, sorted).result.value, drivers, settings, sorted);
  }

  /** Validation and the sort supply what the run relies on. */
  lemma ValidatedOrderPutsTargetsFirst(tables: seq<Table>, databases: set<string>, order: seq<nat>)
    requires TablesValid(tables, databases) && DistinctNames(tables) && IsTableOrder(tables, order)
    ensures TargetsFirst(Picked(tables, order)) && DistinctNames(Picked(tables, order))
  {
    var sorted := Picked(tables, order);
    forall i, j | 0 <= i < j < |sorted|
      ensures sorted[i].name != sorted[j].name
    {
      assert order[..j][i] == order[i];
      assert order[i] != order[j];
    }
    forall k, f | 0 <= k < |sorted| && f in sorted[k].foreignKeys
      ensures TargetBefore(sorted, k, f)
    {
      var i := ValidTarget(tables, databases, order[k], f);
      assert i in order[..k];
      var j :| 0 <= j < k && order[..k][j] == i;
      assert sorted[j] == tables[i];
    }
  }

  lemma ValidTarget(tables: seq<Table>, databases: set<string>, k: nat, f: ForeignKey) returns (i: nat)
    requires TablesValid(tables, databases) && k < |tables| && f in tables[k].foreignKeys
    ensures i in References(tables, k)
    ensures tables[i].name == f.referencesTable && tables[i].database == tables[k].database
  {
    var t := tables[k];
    var q :| 0 <= q < |t.foreignKeys| && t.foreignKeys[q] == f;
    assert TableValid(tables, databases, t) && ForeignKeyValid(tables, t, f);
    var u :| u in tables && u.name == f.referencesTable && u.database == t.database;
    i :| 0 <= i < |tables| && tables[i] == u;
    assert DependsOn(tables, k, i);
  }

  lemma PickedMembers(tables: seq<Table>, databases: set<string>, order: seq<nat>)
    requires TablesValid(tables, databases) && IsTableOrder(tables, order)
    ensures forall t :: t in Picked(tables, order) <==> t in tables
    ensures forall t :: t in tables ==> t.database in databases && Distinct(Names(t.columns))
  {
    var sorted := Picked(tables, order);
    forall t | t in tables
      ensures t in sorted && t.database in databases && Distinct(Names(t.columns))
    {
      var i :| 0 <= i < |tables| && tables[i] == t;
      assert TableValid(tables, databases, tables[i]);
      ValidColumnsDistinct(t.columns);
      assert i in order;
      var k :| 0 <= k < |order| && order[k] == i;
      assert sorted[k] == t;
    }
    forall t | t in sorted
      ensures t in tables
    {
      var k :| 0 <= k < |sorted| && sorted[k] == t;
    }
  }

  lemma {:induction false} ValidColumnsDistinct(columns: seq<Column>)
    requires forall i, j :: 0 <= i < j < |columns| ==> columns[i].name != columns[j].name
    ensures Distinct(Names(columns))
    decreases |columns|
  {
    if columns != [] {
      var front, last := columns[..|columns| - 1], columns[|columns| - 1];
      ValidColumnsDistinct(front);
      NamesMembers(front, last.name);
      DistinctSnoc(Names(front), last.name);
    }
  }

  /** A validated, sortable configuration migrates exactly when every column to
      index exists or may be added, and a second run is then quiet. */
  lemma ValidatedMigration(tables: seq<Table>, databases: set<string>, schemas: Schemas, drivers: map<string, Driver>, settings: map<string, Settings>, order: seq<nat>)
    requires TablesValid(tables, databases) && Sortable(tables) && IsTableOrder(tables, order)
    requires databases <= schemas.Keys && databases <= drivers.Keys
    requires forall db :: db in schemas ==> WellFormed(schemas[db])
    ensures var first := MigrateAll(schemas, drivers, settings, Picked(tables, order));
            && (first.result.Ok? <==> AllChangesPossible(schemas, drivers, settings, tables))
            && (first.result.Ok? ==>
                  && Migrated(schemas, settings, tables, first.result.value)
                  && var second := MigrateAll(first.result.value, drivers, settings, Picked(tables, order));
                     second.result == first.result && Quiet(second.issued))
  {
    var sorted := Picked(tables, order);
    ValidatedOrderPutsTargetsFirst(tables, databases, order);
    PickedMembers(tables, databases, order);
    RunOutcome(schemas, drivers, settings, sorted);
    if MigrateAll(schemas, drivers, settings, sorted).result.Ok? {
      MigrationConverges(schemas, drivers, settings, sorted);
    }
  }

  /** Two runs over the same validated configuration. If the first succeeds, so does the second,
      which changes nothing and executes no ADD COLUMN and no DROP COLUMN. */
  method MigrateTwice(migrator: Migrator, tables: seq<Table>, settings: map<string, Settings>, ghost databases: set<string>)
    returns (first: Result<(), MigrationError>, second: Result<(), MigrationError>, ghost between: nat)
    requires TablesValid(tables, databases) && Sortable(tables)
    requires databases <= migrator.schemas.Keys && databases <= migrator.drivers.Keys
    requires forall db :: db in migrator.schemas ==> WellFormed(migrator.schemas[db])
    modifies migrator
    ensures first.Ok? <==> AllChangesPossible(old(migrator.schemas), migrator.drivers, settings, tables)
    ensures first.Ok? ==> second.Ok? && Migrated(old(migrator.schemas), settings, tables, migrator.schemas)
    ensures first.Ok? ==> FollowsSettings(old(migrator.schemas), settings, tables, migrator.schemas)
    ensures first.Ok? ==> between <= |migrator.log| && Quiet(migrator.log[between..])
  {
    ghost var start := migrator.schemas;
    ghost var order, again;
    first, order := migrator.RunMigrations(tables, settings);
    between := |migrator.log|;
    ghost var base := migrator.log;
    second, again := migrator.RunMigrations(tables, settings);
    LeastOrderIsUnique(tables, order, again);
    ValidatedMigration(tables, databases, start, migrator.drivers, settings, order);
    LeftIsResult(start, migrator.drivers, settings, Picked(tables, order));
    ghost var left := MigrateAll(start, migrator.drivers, settings, Picked(tables, order)).left;
    ghost var quiet := MigrateAll(left, migrator.drivers, settings, Picked(tables, order));
    LeftIsResult(left, migrator.drivers, settings, Picked(tables, order));
    assert migrator.log == base + quiet.issued;
    assert migrator.log[between..] == quiet.issued;
    if first.Ok? {
      MigratedFollows(start, settings, tables, migrator.schemas);
    }
  }
}
