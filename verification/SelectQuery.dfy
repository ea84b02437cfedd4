/** The SELECT builder: a small compiler from a configured clause, user filters, a
    key and a page to a condition list with placeholders, and a parameter vector.

    A condition is kept as a tree whose leaves in text order are its slots; the text it is
    written as is that of the module it is imported from. */
module SelectQuery {
  import opened Wrappers
  import opened Strings
  import opened SqlText
  import opened FilterKeys
  import opened LikePattern
  import opened SlotText
  import opened SelectText

  /** How filter values of a column are bound: as text, or by what the type makes of them. */
  datatype ColumnType = Json | Jsonb | Textual(name: string) | Typed(name: string)

  /** A parameter. `Parsed` is what a type makes of a string, by rules that are not part of this model. */
  datatype Value = Text(text: string) | Number(number: int) | Null | Parsed(raw: string, columnType: ColumnType)

  /** The parameter for a filter value. No number or truth value is written with a percent sign. */
  function Coerce(driver: Driver, raw: string, columnType: ColumnType): Value {
    match columnType
    case Typed(_) => if '%' in raw then Text(raw) else Parsed(raw, columnType)
    case Textual(_) => if NullWord(raw) then Null else Text(raw)
    case _ =>
      if NullWord(raw) then Null
      else if driver == Sqlite then Parsed(raw, columnType)
      else Text(raw)
  }

  function Placeholder(driver: Driver, index: nat): Slot {
    match driver
    case Postgres => Dollar(index)
    case Mysql => Question
    case Sqlite => Question
  }

  // ---------------------------------------------------------------------------
  // Keys with defaults
  // ---------------------------------------------------------------------------

  /** The parts of a key around its first ":-". */
  function SplitDefault(key: string): Option<(string, string)> {
    if |key| < 2 then None
    else if key[0] == ':' && key[1] == '-' then Some(([], key[2..]))
    else match SplitDefault(key[1..])
      case None => None
      case Some((base, default_)) => Some(([key[0]] + base, default_))
  }

  // ---------------------------------------------------------------------------
  // The configured clause
  // ---------------------------------------------------------------------------

  /** A clause cut at its `${key}` occurrences: the text before each, and the text after the last. */
  datatype Hole = Hole(before: string, key: string)

  datatype Template = Template(holes: seq<Hole>, tail: string)

  type Context = map<string, string>

  function ResolveKey(context: Context, key: string): Option<string> {
    if key in context then Some(context[key])
    else match SplitDefault(key)
      case None => None
      case Some((base, default_)) => Some(if base in context then context[base] else default_)
  }

  /** A key is cut at its first ":-". */
  ghost predicate CutsAt(key: string, base: string, default_: string) {
    && key == base + [':', '-'] + default_
    && forall i :: 0 <= i < |base| ==> !(key[i] == ':' && key[i + 1] == '-')
  }

  lemma {:induction false} SplitDefaultExactly(key: string, base: string, default_: string)
    ensures SplitDefault(key) == Some((base, default_)) <==> CutsAt(key, base, default_)
  {
    if |key| >= 2 && !(key[0] == ':' && key[1] == '-') {
      var rest := SplitDefault(key[1..]);
      if rest.Some? {
        SplitDefaultExactly(key[1..], rest.value.0, rest.value.1);
        assert key == [key[0]] + key[1..];
        assert [key[0]] + rest.value.0 + [':', '-'] + rest.value.1 == [key[0]] + (rest.value.0 + [':', '-'] + rest.value.1);
      }
      if CutsAt(key, base, default_) {
        assert base != [] && base == [key[0]] + base[1..];
        assert key[1..] == base[1..] + [':', '-'] + default_;
        SplitDefaultExactly(key[1..], base[1..], default_);
      }
    } else if |key| >= 2 {
      if CutsAt(key, base, default_) {
        assert base == [];
        assert key[2..] == default_;
      } else {
        assert key == [] + [':', '-'] + key[2..];
      }
    }
  }

  /** A key of the context wins over a default; otherwise the part before the first ":-" does, and the
      rest is used when neither is there. */
  lemma ResolvesExactly(context: Context, key: string)
    ensures key in context ==> ResolveKey(context, key) == Some(context[key])
    ensures forall base, default_ :: key !in context && CutsAt(key, base, default_) ==>
              ResolveKey(context, key) == Some(if base in context then context[base] else default_)
    ensures key !in context && (forall base, default_ :: !CutsAt(key, base, default_)) ==> ResolveKey(context, key) == None
  {
    forall base, default_ | CutsAt(key, base, default_)
      ensures SplitDefault(key) == Some((base, default_))
    {
      SplitDefaultExactly(key, base, default_);
    }
    if SplitDefault(key).Some? {
      SplitDefaultExactly(key, SplitDefault(key).value.0, SplitDefault(key).value.1);
    }
  }

  predicate Resolvable(template: Template, context: Context) {
    forall i :: 0 <= i < |template.holes| ==> ResolveKey(context, template.holes[i].key).Some?
  }

  /** The values of the keys, in order. */
  ghost function HoleValues(holes: seq<Hole>, context: Context): (r: seq<Value>)
    requires forall i :: 0 <= i < |holes| ==> ResolveKey(context, holes[i].key).Some?
    ensures |r| == |holes|
  {
    if holes == [] then []
    else HoleValues(holes[..|holes| - 1], context) + [Text(ResolveKey(context, holes[|holes| - 1].key).value)]
  }

  /** The texts before the keys, in order. */
  function HoleTexts(holes: seq<Hole>): seq<string> {
    if holes == [] then [] else HoleTexts(holes[..|holes| - 1]) + [holes[|holes| - 1].before]
  }

  lemma HolesStep(holes: seq<Hole>, context: Context, i: nat)
    requires i < |holes| && forall k :: 0 <= k <= i ==> ResolveKey(context, holes[k].key).Some?
    ensures HoleValues(holes[..i + 1], context)
         == HoleValues(holes[..i], context) + [Text(ResolveKey(context, holes[i].key).value)]
    ensures HoleTexts(holes[..i + 1]) == HoleTexts(holes[..i]) + [holes[i].before]
  {
    assert holes[..i + 1][..i] == holes[..i];
  }

  /** Placeholders of consecutive numbers. */
  function Placeholders(driver: Driver, from: nat, count: nat): (r: seq<Slot>)
    ensures |r| == count
  {
    if count == 0 then [] else Placeholders(driver, from, count - 1) + [Placeholder(driver, from + count - 1)]
  }

  // ---------------------------------------------------------------------------
  // Filters
  // ---------------------------------------------------------------------------

  predicate IsJson(expr: FilterExpression, columnType: ColumnType) {
    |expr.path| > 1 || columnType.Json? || columnType.Jsonb?
  }

  /** What is fixed for one builder. */
  datatype Env = Env(table: string, driver: Driver)

  function Head(path: seq<string>): string {
    if path == [] then "" else path[0]
  }

  function Nested(path: seq<string>): seq<string> {
    if path == [] then [] else path[1..]
  }

  /** Joining the segments of a parsed key and splitting them again, as the builder does for
      document columns, changes nothing. */
  lemma SegmentsSurvive(key: string)
    requires ParseFilterKey(key).Ok?
    ensures var path := ParseFilterKey(key).value.path; Split(Join(path, '.'), '.') == path
  {
    if Bracketed(key).Some? {
      SplitJoins(Bracketed(key).value.0, '.');
    } else {
      SplitJoins(key, '.');
    }
  }

  /** The column a filter is written with. */
  function FilterColumn(env: Env, expr: FilterExpression, columnType: ColumnType): Column {
    if IsJson(expr, columnType) then JsonField(Head(expr.path), Nested(expr.path)) else Field(env.table, Head(expr.path))
  }

  /** The strings that become parameters. */
  function FilterValues(expr: FilterExpression, value: string, columnType: ColumnType): seq<string> {
    match expr.operator
    case In => Trimmed(Split(value, ','))
    case NotIn => Trimmed(Split(value, ','))
    case Contains => if IsJson(expr, columnType) then [value] else ["%" + value + "%"]
    case Exists => []
    case _ => [value]
  }

  function Trimmed(pieces: seq<string>): (r: seq<string>)
    ensures |r| == |pieces|
  {
    if pieces == [] then [] else Trimmed(pieces[..|pieces| - 1]) + [Trim(pieces[|pieces| - 1])]
  }

  function CoercedAll(driver: Driver, values: seq<string>, columnType: ColumnType): (r: seq<Value>)
    ensures |r| == |values|
  {
    if values == [] then []
    else CoercedAll(driver, values[..|values| - 1], columnType) + [Coerce(driver, values[|values| - 1], columnType)]
  }

  /** JSON containment on PostgreSQL inlines its operand, and pushes it all the same. */
  predicate InlinesOperand(env: Env, expr: FilterExpression, columnType: ColumnType) {
    expr.operator == Contains && IsJson(expr, columnType) && env.driver == Postgres
  }

  function FilterCondition(env: Env, expr: FilterExpression, value: string, columnType: ColumnType, index: nat): Cond {
    var column := FilterColumn(env, expr, columnType);
    var slot := Placeholder(env.driver, index);
    match expr.operator
    case Comparing(op) => Compare(column, op, slot)
    case In => InList(column, Placeholders(env.driver, index, |Split(value, ',')|), false)
    case NotIn => InList(column, Placeholders(env.driver, index, |Split(value, ',')|), true)
    case Contains =>
      if InlinesOperand(env, expr, columnType) then JsonContains(Head(expr.path), Nested(expr.path), Literal(value))
      else if IsJson(expr, columnType) then JsonContains(Head(expr.path), Nested(expr.path), slot)
      else Like(column, Whole, slot, false)
    case Exists => NotNull(column)
    case StartsWith => Like(column, StartingWith, slot, false)
    case EndsWith => Like(column, EndingWith, slot, false)
    case LikeWhole => Like(column, Whole, slot, false)
    case ILike => Like(column, Whole, slot, true)
  }

  // ---------------------------------------------------------------------------
  // What has been asked of a builder
  // ---------------------------------------------------------------------------

  datatype Page = Page(limit: nat, offset: nat)

  datatype Term =
    | WhereTerm(texts: seq<string>, values: seq<Value>)
    | FilterTerm(expr: FilterExpression, value: string, columnType: ColumnType)
    | PkTerm(column: string, key: Value)
    | PageTerm(page: Page)
    | OneTerm

  const I64_MIN: int := -0x8000_0000_0000_0000

  /** The key that stands for a path segment that is no integer although the column is. */
  predicate IsSentinel(key: Value) {
    key == Number(I64_MIN)
  }

  /** The condition a term adds when `index` is the next parameter's number. */
  function CondsOf(env: Env, t: Term, index: nat): seq<Cond> {
    match t
    case WhereTerm(texts, values) => [Clause(texts, Placeholders(env.driver, 1, |values|))]
    case FilterTerm(expr, value, columnType) => [FilterCondition(env, expr, value, columnType, index)]
    case PkTerm(column, key) =>
      if IsSentinel(key) then [Never] else [Compare(Bare(column), Eq, Placeholder(env.driver, index))]
    case PageTerm(_) => []
    case OneTerm => []
  }

  /** The parameters a term pushes. */
  function ValuesOf(env: Env, t: Term): seq<Value> {
    match t
    case WhereTerm(_, values) => values
    case FilterTerm(expr, value, columnType) => CoercedAll(env.driver, FilterValues(expr, value, columnType), columnType)
    case PkTerm(_, key) => if IsSentinel(key) then [] else [key]
    case PageTerm(page) => [Number(page.limit), Number(page.offset)]
    case OneTerm => []
  }

  datatype Limit = OneRow | Slots(limit: Slot, offset: Slot)

  /** The clauses and parameters of a query. */
  datatype Clauses = Clauses(conditions: seq<Cond>, params: seq<Value>, limit: Option<Limit>)

  function After(env: Env, c: Clauses, t: Term): Clauses {
    var index := |c.params| + 1;
    Clauses(c.conditions + CondsOf(env, t, index), c.params + ValuesOf(env, t),
            match t
            case PageTerm(_) => Some(Slots(Placeholder(env.driver, index), Placeholder(env.driver, index + 1)))
            case OneTerm => Some(OneRow)
            case _ => c.limit)
  }

  /** The clauses after these terms, in this order. */
  ghost function Extend(env: Env, c: Clauses, terms: seq<Term>): Clauses {
    if terms == [] then c
    else After(env, Extend(env, c, terms[..|terms| - 1]), terms[|terms| - 1])
  }

  const NO_CLAUSES: Clauses := Clauses([], [], None)

  /** What a query asked for exactly these terms consists of. */
  ghost function Compiled(env: Env, terms: seq<Term>): Clauses {
    Extend(env, NO_CLAUSES, terms)
  }

  lemma ExtendAppend(env: Env, c: Clauses, terms: seq<Term>, t: Term)
    ensures Extend(env, c, terms + [t]) == After(env, Extend(env, c, terms), t)
  {
    assert (terms + [t])[..|terms|] == terms;
  }

  lemma {:induction false} ExtendConcat(env: Env, c: Clauses, a: seq<Term>, b: seq<Term>)
    ensures Extend(env, c, a + b) == Extend(env, Extend(env, c, a), b)
  {
    if b == [] {
      assert a + b == a;
    } else {
      var init := b[..|b| - 1];
      ExtendConcat(env, c, a, init);
      assert (a + b)[..|a + b| - 1] == a + init;
      assert (a + b)[|a + b| - 1] == b[|b| - 1];
    }
  }

  lemma ExtendOne(env: Env, c: Clauses, t: Term)
    ensures Extend(env, c, [t]) == After(env, c, t)
  {
    assert [t][..0] == [];
  }

  // ---------------------------------------------------------------------------
  // The builder
  // ---------------------------------------------------------------------------

  datatype JoinType = Inner | Left | Right

  datatype JoinConfig = JoinConfig(joinType: JoinType, table: string, on: string, fields: seq<string>)

  datatype JoinClause = JoinClause(joinType: JoinType, table: string, on: string)

  datatype ComputedField = ComputedField(expression: string, name: string)

  datatype ColumnConfig = ColumnConfig(name: string, columnType: ColumnType)

  /** A filter of the request. */
  datatype Filter = Filter(key: string, value: string)

  datatype QueryError = Unresolved(key: string) | BadFilterKey(key: string, reason: KeyError)
                      | FilterNotAllowed(key: string) | UnknownFilterColumn(key: string)

  function TypeOf(columns: seq<ColumnConfig>, name: string): Option<ColumnType> {
    if columns == [] then None
    else if columns[0].name == name then Some(columns[0].columnType)
    else TypeOf(columns[1..], name)
  }

  /** The first segment of the path is checked against the allowed fields. */
  predicate Allows(allowed: seq<string>, expr: FilterExpression) {
    "*" in allowed || ExtractBaseColumn(Head(expr.path)) in allowed
  }

  /** The whole key is checked against the columns of the table. */
  predicate Admissible(f: Filter, allowed: seq<string>, columns: seq<ColumnConfig>) {
    && ParseFilterKey(f.key).Ok?
    && Allows(allowed, ParseFilterKey(f.key).value)
    && TypeOf(columns, ExtractBaseColumn(f.key)).Some?
  }

  function FilterTermOf(f: Filter, allowed: seq<string>, columns: seq<ColumnConfig>): Term
    requires Admissible(f, allowed, columns)
  {
    FilterTerm(ParseFilterKey(f.key).value, f.value, TypeOf(columns, ExtractBaseColumn(f.key)).value)
  }

  ghost function FilterTerms(filters: seq<Filter>, allowed: seq<string>, columns: seq<ColumnConfig>): (r: seq<Term>)
    requires forall i :: 0 <= i < |filters| ==> Admissible(filters[i], allowed, columns)
    ensures |r| == |filters|
  {
    if filters == [] then []
    else FilterTerms(filters[..|filters| - 1], allowed, columns) + [FilterTermOf(filters[|filters| - 1], allowed, columns)]
  }

  datatype BuiltQuery = BuiltQuery(fields: seq<string>, joins: seq<JoinClause>, clauses: Clauses,
                                   orderBy: Option<string>)

  function Qualified(table: string, f: string): string {
    if '.' in f then f else table + "." + f
  }

  function QualifiedAll(table: string, fields: seq<string>): seq<string> {
    if fields == [] then []
    else QualifiedAll(table, fields[..|fields| - 1]) + [Qualified(table, fields[|fields| - 1])]
  }

  ghost function JoinClauses(configs: seq<JoinConfig>): seq<JoinClause> {
    if configs == [] then []
    else
      var last := configs[|configs| - 1];
      JoinClauses(configs[..|configs| - 1]) + [JoinClause(last.joinType, last.table, last.on)]
  }

  ghost function JoinFields(table: string, configs: seq<JoinConfig>): seq<string> {
    if configs == [] then []
    else JoinFields(table, configs[..|configs| - 1]) + QualifiedAll(table, configs[|configs| - 1].fields)
  }

  /** Fields of the main table are qualified only when there is a join. */
  ghost function JoinedFields(table: string, fields: seq<string>, configs: seq<JoinConfig>): seq<string> {
    if configs == [] then fields else QualifiedAll(table, fields) + JoinFields(table, configs)
  }

  ghost function ComputedTexts(fields: seq<ComputedField>): seq<string> {
    if fields == [] then []
    else
      var last := fields[|fields| - 1];
      ComputedTexts(fields[..|fields| - 1]) + [last.expression + " AS " + last.name]
  }

  /** The fields that a list selects: those of the table, of the joins, and the computed ones. */
  ghost function ListFields(q: Request): seq<string> {
    JoinedFields(q.env.table, q.fields, q.joins) + ComputedTexts(q.computed)
  }

  lemma {:induction false} QualifiedAt(table: string, fields: seq<string>, i: nat)
    requires i < |fields|
    ensures |QualifiedAll(table, fields)| == |fields|
    ensures QualifiedAll(table, fields)[i] == if '.' in fields[i] then fields[i] else table + ['.'] + fields[i]
    decreases |fields|
  {
    var front := fields[..|fields| - 1];
    if i < |front| {
      QualifiedAt(table, front, i);
    } else if front != [] {
      QualifiedAt(table, front, 0);
    }
  }

  /** A list begins with the fields of the table, under the name of the table only when there is a join. */
  lemma MainFields(q: Request, i: nat)
    requires i < |q.fields|
    ensures i < |ListFields(q)|
    ensures ListFields(q)[i] == if q.joins == [] || '.' in q.fields[i] then q.fields[i] else q.env.table + ['.'] + q.fields[i]
  {
    if q.joins != [] {
      QualifiedAt(q.env.table, q.fields, i);
    }
  }

  lemma ExtendByFilter(env: Env, c: Clauses, filters: seq<Filter>, i: nat, allowed: seq<string>, columns: seq<ColumnConfig>)
    requires i < |filters| && forall k :: 0 <= k <= i ==> Admissible(filters[k], allowed, columns)
    ensures Extend(env, c, FilterTerms(filters[..i + 1], allowed, columns))
         == After(env, Extend(env, c, FilterTerms(filters[..i], allowed, columns)), FilterTermOf(filters[i], allowed, columns))
  {
    assert filters[..i + 1][..i] == filters[..i];
    ExtendAppend(env, c, FilterTerms(filters[..i], allowed, columns), FilterTermOf(filters[i], allowed, columns));
  }

  class SelectBuilder {
    const env: Env
    var selectFields: seq<string>
    var joins: seq<JoinClause>
    var computed: seq<ComputedField>
    var conditions: seq<Cond>
    var orderBy: Option<string>
    var limitOffset: Option<Limit>
    var params: seq<Value>
    var paramIdx: nat

    /** The counter is the number of the next parameter. */
    ghost predicate Valid()
      reads this`paramIdx, this`params
    {
      paramIdx == |params| + 1
    }

    ghost function Built(): Clauses
      reads this`conditions, this`params, this`limitOffset
    {
      Clauses(conditions, params, limitOffset)
    }

    constructor (env: Env, fields: seq<string>)
      ensures this.env == env && Valid() && Built() == NO_CLAUSES
      ensures selectFields == fields && joins == [] && computed == [] && orderBy == None
    {
      this.env := env;
      selectFields, joins, computed := fields, [], [];
      conditions, orderBy, limitOffset := [], None, None;
      params, paramIdx := [], 1;
    }

    method QualifyMainFields()
      modifies this`selectFields
      ensures selectFields == QualifiedAll(env.table, old(selectFields))
    {
      selectFields := QualifiedAll(env.table, selectFields);
    }

    method ApplyJoins(configs: seq<JoinConfig>)
      modifies this`selectFields, this`joins
      ensures joins == old(joins) + JoinClauses(configs)
      ensures selectFields == JoinedFields(env.table, old(selectFields), configs)
    {
      if configs == [] {
        return;
      }
      QualifyMainFields();
      for n := 0 to |configs|
        invariant joins == old(joins) + JoinClauses(configs[..n])
        invariant selectFields == QualifiedAll(env.table, old(selectFields)) + JoinFields(env.table, configs[..n])
      {
        assert configs[..n + 1][..n] == configs[..n];
        joins := joins + [JoinClause(configs[n].joinType, configs[n].table, configs[n].on)];
        selectFields := selectFields + QualifiedAll(env.table, configs[n].fields);
      }
      assert configs[..|configs|] == configs;
    }

    method ApplyComputedFields(fields: seq<ComputedField>)
      modifies this`computed
      ensures computed == old(computed) + fields
    {
      for n := 0 to |fields|
        invariant computed == old(computed) + fields[..n]
      {
        computed := computed + [fields[n]];
      }
    }

    /** Pushes a parameter per key and numbers the placeholders from 1, whatever was
        pushed before. A failure leaves the parameters resolved so far behind. */
    method InterpolateWhereClause(template: Template, context: Context)
      returns (r: Result<Cond, QueryError>, consumed: nat)
      modifies this`params
      ensures r.Ok? <==> Resolvable(template, context)
      ensures r.Ok? ==> && params == old(params) + HoleValues(template.holes, context)
                        && r.value == ClauseOf(env, template) && consumed == |template.holes|
      ensures r.Err? ==> FirstUnresolved(template, context, consumed) && r.error == Unresolved(template.holes[consumed].key)
                         && |params| == |old(params)| + consumed
    {
      var texts: seq<string> := [];
      var slots: seq<Slot> := [];
      consumed := 0;
      var holes := template.holes;
      for i := 0 to |holes|
        invariant consumed == i
        invariant forall k :: 0 <= k < i ==> ResolveKey(context, holes[k].key).Some?
        invariant params == old(params) + HoleValues(holes[..i], context)
        invariant texts == HoleTexts(holes[..i])
        invariant slots == Placeholders(env.driver, 1, i)
      {
        texts := texts + [holes[i].before];
        var resolved := ResolveKey(context, holes[i].key);
        if resolved == None {
          return Err(Unresolved(holes[i].key)), consumed;
        }
        HolesStep(holes, context, i);
        params := params + [Text(resolved.value)];
        slots := slots + [Placeholder(env.driver, consumed + 1)];
        consumed := consumed + 1;
      }
      texts := texts + [template.tail];
      assert holes[..|holes|] == holes;
      r := Ok(Clause(texts, slots));
    }

    method ApplyWhereClause(clause: Option<Template>, context: Context) returns (r: Result<(), QueryError>)
      requires Valid()
      modifies this`params, this`paramIdx, this`conditions
      ensures r.Ok? <==> clause.None? || Resolvable(clause.value, context)
      ensures r.Ok? ==> Valid() && Built() == Extend(env, old(Built()), WhereTerms(clause, context))
      ensures r.Err? ==> ClauseFails(clause, context, r.error)
    {
      if clause.None? {
        return Ok(());
      }
      var condition, consumed := InterpolateWhereClause(clause.value, context);
      if condition.Err? {
        return Err(condition.error);
      }
      paramIdx := paramIdx + consumed;
      conditions := conditions + [condition.value];
      ExtendOne(env, old(Built()), WhereTermOf(clause.value, context));
      r := Ok(());
    }

    /** One parameter per value, coerced to the column's type. */
    method PushAll(values: seq<string>, columnType: ColumnType)
      modifies this`params, this`paramIdx
      ensures params == old(params) + CoercedAll(env.driver, values, columnType)
      ensures paramIdx == old(paramIdx) + |values|
    {
      for i := 0 to |values|
        invariant params == old(params) + CoercedAll(env.driver, values[..i], columnType)
        invariant paramIdx == old(paramIdx)
      {
        assert values[..i + 1][..i] == values[..i];
        params := params + [Coerce(env.driver, values[i], columnType)];
      }
      assert values[..|values|] == values;
      paramIdx := paramIdx + |values|;
    }

    method ApplyFilterExpression(expr: FilterExpression, value: string, columnType: ColumnType)
      requires Valid()
      modifies this`params, this`paramIdx, this`conditions
      ensures Valid() && Built() == After(env, old(Built()), FilterTerm(expr, value, columnType))
    {
      if expr.operator == Exists {
        conditions := conditions + [NotNull(FilterColumn(env, expr, columnType))];
        return;
      }
      conditions := conditions + [FilterCondition(env, expr, value, columnType, paramIdx)];
      PushAll(FilterValues(expr, value, columnType), columnType);
    }

    /** Applies the filters in the order given; the first that is not admissible stops it. */
    method ApplyFilters(filters: seq<Filter>, allowed: seq<string>, columns: seq<ColumnConfig>)
      returns (r: Result<(), QueryError>)
      requires Valid()
      modifies this`params, this`paramIdx, this`conditions
      ensures Valid()
      ensures r.Ok? <==> forall i :: 0 <= i < |filters| ==> Admissible(filters[i], allowed, columns)
      ensures r.Ok? ==> Built() == Extend(env, old(Built()), FilterTerms(filters, allowed, columns))
      ensures r.Err? ==> FiltersFail(filters, allowed, columns, r.error)
    {
      for i := 0 to |filters|
        invariant Valid()
        invariant forall k :: 0 <= k < i ==> Admissible(filters[k], allowed, columns)
        invariant Built() == Extend(env, old(Built()), FilterTerms(filters[..i], allowed, columns))
      {
        var f := filters[i];
        assert !Admissible(f, allowed, columns) ==> FirstRefused(filters, allowed, columns, i);
        var expr := ParseFilterKey(f.key);
        if expr.Err? {
          return Err(BadFilterKey(f.key, expr.error));
        }
        if "*" !in allowed && ExtractBaseColumn(Head(expr.value.path)) !in allowed {
          return Err(FilterNotAllowed(f.key));
        }
        var columnType := TypeOf(columns, ExtractBaseColumn(f.key));
        if columnType == None {
          return Err(UnknownFilterColumn(f.key));
        }
        ApplyFilterExpression(expr.value, f.value, columnType.value);
        ExtendByFilter(env, old(Built()), filters, i, allowed, columns);
      }
      assert filters[..|filters|] == filters;
      r := Ok(());
    }

    method ApplyPkCondition(column: string, key: Value)
      requires Valid()
      modifies this`params, this`paramIdx, this`conditions
      ensures Valid() && Built() == After(env, old(Built()), PkTerm(column, key))
    {
      if IsSentinel(key) {
        conditions := conditions + [Never];
      } else {
        conditions := conditions + [Compare(Bare(column), Eq, Placeholder(env.driver, paramIdx))];
        params := params + [key];
        paramIdx := paramIdx + 1;
      }
    }

    method ApplySorting(clause: Option<string>)
      modifies this`orderBy
      ensures orderBy == if clause.Some? then clause else old(orderBy)
    {
      if clause.Some? {
        orderBy := clause;
      }
    }

    /** The limit and the offset are given; see the pagination module for what they are. */
    method ApplyPagination(page: Option<Page>)
      requires Valid()
      modifies this`params, this`paramIdx, this`limitOffset
      ensures Valid() && Built() == Extend(env, old(Built()), PageTerms(page))
    {
      if page.None? {
        return;
      }
      ExtendOne(env, Built(), PageTerm(page.value));
      var limit := Placeholder(env.driver, paramIdx);
      var offset := Placeholder(env.driver, paramIdx + 1);
      paramIdx := paramIdx + 2;
      params := params + [Number(page.value.limit)];
      params := params + [Number(page.value.offset)];
      limitOffset := Some(Slots(limit, offset));
    }

    method LimitOne()
      requires Valid()
      modifies this`limitOffset
      ensures Valid() && Built() == After(env, old(Built()), OneTerm)
    {
      limitOffset := Some(OneRow);
    }

    method Build() returns (q: BuiltQuery)
      ensures q.clauses == Built() && q.joins == joins && q.orderBy == orderBy
      ensures q.fields == selectFields + ComputedTexts(computed)
    {
      var fields := selectFields;
      for i := 0 to |computed|
        invariant fields == selectFields + ComputedTexts(computed[..i])
      {
        assert computed[..i + 1][..i] == computed[..i];
        fields := fields + [computed[i].expression + " AS " + computed[i].name];
      }
      assert computed[..|computed|] == computed;
      q := BuiltQuery(fields, joins, Clauses(conditions, params, limitOffset), orderBy);
    }
  }

  function ClauseOf(env: Env, template: Template): Cond {
    Clause(HoleTexts(template.holes) + [template.tail], Placeholders(env.driver, 1, |template.holes|))
  }

  ghost function WhereTermOf(template: Template, context: Context): Term
    requires Resolvable(template, context)
  {
    WhereTerm(HoleTexts(template.holes) + [template.tail], HoleValues(template.holes, context))
  }

  ghost function WhereTerms(clause: Option<Template>, context: Context): seq<Term>
    requires clause.Some? ==> Resolvable(clause.value, context)
  {
    if clause.None? then [] else [WhereTermOf(clause.value, context)]
  }

  function PageTerms(page: Option<Page>): seq<Term> {
    if page.None? then [] else [PageTerm(page.value)]
  }

  function ErrorOf(f: Filter, allowed: seq<string>): QueryError {
    if ParseFilterKey(f.key).Err? then BadFilterKey(f.key, ParseFilterKey(f.key).error)
    else if !Allows(allowed, ParseFilterKey(f.key).value) then FilterNotAllowed(f.key)
    else UnknownFilterColumn(f.key)
  }

  /** The first key that cannot be resolved. */
  ghost predicate FirstUnresolved(template: Template, context: Context, i: nat) {
    && i < |template.holes| && ResolveKey(context, template.holes[i].key) == None
    && forall k :: 0 <= k < i ==> ResolveKey(context, template.holes[k].key).Some?
  }

  /** The first filter that is not admissible. */
  ghost predicate FirstRefused(filters: seq<Filter>, allowed: seq<string>, columns: seq<ColumnConfig>, i: nat) {
    && i < |filters| && !Admissible(filters[i], allowed, columns)
    && forall k :: 0 <= k < i ==> Admissible(filters[k], allowed, columns)
  }

  ghost predicate ClauseFails(clause: Option<Template>, context: Context, e: QueryError) {
    clause.Some? && exists i: nat :: FirstUnresolved(clause.value, context, i) && e == Unresolved(clause.value.holes[i].key)
  }

  ghost predicate FiltersFail(filters: seq<Filter>, allowed: seq<string>, columns: seq<ColumnConfig>, e: QueryError) {
    exists i: nat :: FirstRefused(filters, allowed, columns, i) && e == ErrorOf(filters[i], allowed)
  }

  // ---------------------------------------------------------------------------
  // The three queries
  // ---------------------------------------------------------------------------

  /** What a list, its count and a single-record query are built from. */
  datatype Request = Request(env: Env, fields: seq<string>, joins: seq<JoinConfig>, computed: seq<ComputedField>,
                             clause: Option<Template>, context: Context,
                             filters: seq<Filter>, allowed: seq<string>, columns: seq<ColumnConfig>,
                             sorting: Result<Option<string>, QueryError>, page: Option<Page>)

  ghost predicate SelectsRows(q: Request) {
    && (q.clause.Some? ==> Resolvable(q.clause.value, q.context))
    && forall i :: 0 <= i < |q.filters| ==> Admissible(q.filters[i], q.allowed, q.columns)
  }

  /** The configured clause, then the filters. */
  ghost function SelectionTerms(q: Request): seq<Term>
    requires SelectsRows(q)
  {
    WhereTerms(q.clause, q.context) + FilterTerms(q.filters, q.allowed, q.columns)
  }

  ghost function ListTerms(q: Request): seq<Term>
    requires SelectsRows(q)
  {
    SelectionTerms(q) + PageTerms(q.page)
  }

  ghost function OneTerms(q: Request, pkColumn: string, key: Value): seq<Term>
    requires q.clause.Some? ==> Resolvable(q.clause.value, q.context)
  {
    [PkTerm(pkColumn, key)] + WhereTerms(q.clause, q.context) + [OneTerm]
  }

  /** The first key or the first filter that is not accepted. */
  ghost predicate SelectionFails(q: Request, e: QueryError) {
    if q.clause.Some? && !Resolvable(q.clause.value, q.context) then ClauseFails(q.clause, q.context, e)
    else FiltersFail(q.filters, q.allowed, q.columns, e)
  }

  /** The part that the list and its count share. */
  method ApplySelection(sb: SelectBuilder, q: Request) returns (r: Result<(), QueryError>)
    requires sb.Valid() && sb.Built() == NO_CLAUSES && sb.env == q.env
    modifies sb`params, sb`paramIdx, sb`conditions
    ensures r.Ok? <==> SelectsRows(q)
    ensures r.Ok? ==> sb.Valid() && sb.Built() == Compiled(q.env, SelectionTerms(q))
    ensures r.Err? ==> SelectionFails(q, r.error)
  {
    var where_ := sb.ApplyWhereClause(q.clause, q.context);
    if where_.Err? {
      return Err(where_.error);
    }
    r := sb.ApplyFilters(q.filters, q.allowed, q.columns);
    if r.Ok? {
      ExtendConcat(q.env, NO_CLAUSES, WhereTerms(q.clause, q.context), FilterTerms(q.filters, q.allowed, q.columns));
    }
  }

  /** The fields and joins of a list; neither adds a condition or a parameter. */
  method StartList(q: Request) returns (sb: SelectBuilder)
    ensures fresh(sb) && sb.env == q.env && sb.Valid() && sb.Built() == NO_CLAUSES
    ensures sb.joins == JoinClauses(q.joins) && sb.computed == q.computed && sb.orderBy == None
    ensures sb.selectFields == JoinedFields(q.env.table, q.fields, q.joins)
  {
    sb := new SelectBuilder(q.env, q.fields);
    sb.ApplyJoins(q.joins);
    assert sb.joins == JoinClauses(q.joins);
    sb.ApplyComputedFields(q.computed);
    assert sb.computed == q.computed;
  }

  lemma ListIsSelectionAndPage(q: Request)
    requires SelectsRows(q)
    ensures Compiled(q.env, ListTerms(q)) == Extend(q.env, Compiled(q.env, SelectionTerms(q)), PageTerms(q.page))
  {
    ExtendConcat(q.env, NO_CLAUSES, SelectionTerms(q), PageTerms(q.page));
  }

  /** Sorting and the page, after the selection. */
  method FinishList(sb: SelectBuilder, q: Request) returns (b: BuiltQuery)
    requires sb.Valid() && sb.env == q.env && SelectsRows(q) && q.sorting.Ok?
    requires sb.Built() == Compiled(q.env, SelectionTerms(q)) && sb.orderBy == None
    modifies sb`orderBy, sb`params, sb`paramIdx, sb`limitOffset
    ensures b.clauses == Compiled(q.env, ListTerms(q)) && b.orderBy == q.sorting.value && b.joins == sb.joins
    ensures b.fields == sb.selectFields + ComputedTexts(sb.computed)
  {
    sb.ApplySorting(q.sorting.value);
    sb.ApplyPagination(q.page);
    ListIsSelectionAndPage(q);
    b := sb.Build();
  }

  method BuildSelectList(q: Request) returns (r: Result<BuiltQuery, QueryError>)
    ensures r.Ok? <==> SelectsRows(q) && q.sorting.Ok?
    ensures r.Ok? ==> r.value.clauses == Compiled(q.env, ListTerms(q))
    ensures r.Ok? ==> r.value.orderBy == q.sorting.value && r.value.joins == JoinClauses(q.joins)
    ensures r.Ok? ==> r.value.fields == ListFields(q)
    ensures r.Err? ==> if !SelectsRows(q) then SelectionFails(q, r.error) else q.sorting == Err(r.error)
  {
    var sb := StartList(q);
    var selection := ApplySelection(sb, q);
    if selection.Err? {
      return Err(selection.error);
    }
    if q.sorting.Err? {
      return Err(q.sorting.error);
    }
    var b := FinishList(sb, q);
    r := Ok(b);
  }

  method BuildSelectListCount(q: Request) returns (r: Result<BuiltQuery, QueryError>)
    ensures r.Ok? <==> SelectsRows(q)
    ensures r.Ok? ==> r.value.clauses == Compiled(q.env, SelectionTerms(q)) && r.value.fields == ["COUNT(*) as count"]
    ensures r.Err? ==> SelectionFails(q, r.error)
  {
    var sb := new SelectBuilder(q.env, ["COUNT(*) as count"]);
    var selection := ApplySelection(sb, q);
    if selection.Err? {
      return Err(selection.error);
    }
    var b := sb.Build();
    r := Ok(b);
  }

  method BuildSelectOne(q: Request, pkColumn: string, key: Value) returns (r: Result<BuiltQuery, QueryError>)
    ensures r.Ok? <==> q.clause.None? || Resolvable(q.clause.value, q.context)
    ensures r.Ok? ==> r.value.clauses == Compiled(q.env, OneTerms(q, pkColumn, key)) && r.value.fields == q.fields
    ensures r.Err? ==> ClauseFails(q.clause, q.context, r.error)
  {
    var sb := new SelectBuilder(q.env, q.fields);
    sb.ApplyPkCondition(pkColumn, key);
    var where_ := sb.ApplyWhereClause(q.clause, q.context);
    if where_.Err? {
      return Err(where_.error);
    }
    sb.LimitOne();
    ExtendOne(q.env, NO_CLAUSES, PkTerm(pkColumn, key));
    ExtendConcat(q.env, NO_CLAUSES, [PkTerm(pkColumn, key)], WhereTerms(q.clause, q.context));
    ExtendAppend(q.env, NO_CLAUSES, [PkTerm(pkColumn, key)] + WhereTerms(q.clause, q.context), OneTerm);
    var b := sb.Build();
    r := Ok(b);
  }
}
