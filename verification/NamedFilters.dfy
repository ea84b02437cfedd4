/** Filters by the names they are documented under: which lists are built for them, and which
    rows each of the fourteen names asks for. */
module NamedFilters {
  import opened Wrappers
  import opened Strings
  import opened SqlText
  import opened PathText
  import opened FilterKeys
  import opened LikePattern
  import opened SlotText
  import opened SelectText
  import opened SelectQuery
  import opened SelectReading
  import opened SelectMeaning

  /** A filter as a client writes it: `column.path[name]=value`, where path and name may be missing. */
  datatype NamedFilter = NamedFilter(column: string, path: seq<string>, name: Option<string>, value: string)

  function PathTextOf(f: NamedFilter): string {
    Join([f.column] + f.path, '.')
  }

  function KeyOf(f: NamedFilter): string {
    match f.name
    case None => PathTextOf(f)
    case Some(name) => PathTextOf(f) + ['['] + name + [']']
  }

  function NameOf(f: NamedFilter): string {
    match f.name
    case None => "eq"
    case Some(name) => name
  }

  predicate Documented(name: string) {
    || name == "eq" || name == "ne" || name == "gt" || name == "gte" || name == "lt" || name == "lte"
    || name == "in" || name == "not_in" || name == "contains" || name == "exists"
    || name == "startswith" || name == "endswith" || name == "like" || name == "ilike"
  }

  /** A segment that holds none of the characters that take a key apart. */
  predicate PlainPiece(s: string) {
    forall i :: 0 <= i < |s| ==> s[i] != '.' && s[i] != '[' && s[i] != ']' && s[i] != '>' && s[i] != '\n'
  }

  /** The column is a plain name, and if there is an operator, its name consists of lower-case letters and underscores. */
  predicate WrittenPlainly(f: NamedFilter) {
    && PlainName(f.column)
    && (forall i :: 0 <= i < |f.path| ==> PlainPiece(f.path[i]))
    && (f.name.Some? ==> OperatorName(f.name.value))
  }

  // ---------------------------------------------------------------------------
  // Reading the key
  // ---------------------------------------------------------------------------

  lemma PlainNameIsPiece(s: string)
    requires PlainName(s)
    ensures PlainPiece(s)
  {
  }

  lemma PiecesArePlain(f: NamedFilter)
    requires WrittenPlainly(f)
    ensures forall i :: 0 <= i < |[f.column] + f.path| ==> PlainPiece(([f.column] + f.path)[i])
  {
    PlainNameIsPiece(f.column);
  }

  lemma PathHolds(f: NamedFilter, c: char)
    requires WrittenPlainly(f) && (c == '[' || c == ']' || c == '>' || c == '\n')
    ensures c !in PathTextOf(f)
  {
    PiecesArePlain(f);
    JoinHas([f.column] + f.path, '.', c);
  }

  lemma PathSplits(f: NamedFilter)
    requires WrittenPlainly(f)
    ensures Split(PathTextOf(f), '.') == [f.column] + f.path
  {
    PiecesArePlain(f);
    SplitOfJoin([f.column] + f.path, '.');
  }

  /** What the key is read as: the path and the operator. */
  lemma KeyParses(f: NamedFilter)
    requires WrittenPlainly(f)
    ensures f.name.None? ==> ParseFilterKey(KeyOf(f)) == Ok(FilterExpression([f.column] + f.path, Comparing(Eq)))
    ensures f.name.Some? ==>
              ParseFilterKey(KeyOf(f)) == match OperatorOf(f.name.value)
                                          case None => Err(UnsupportedOperator(f.name.value))
                                          case Some(operator) => Ok(FilterExpression([f.column] + f.path, operator))
  {
    PathSplits(f);
    PathHolds(f, '[');
    PathHolds(f, ']');
    PathHolds(f, '\n');
    if f.name.Some? {
      BracketedReads(PathTextOf(f), f.name.value);
    } else {
      var key := KeyOf(f);
      assert key != [] ==> key[|key| - 1] in key;
      assert Bracketed(key) == None;
    }
  }

  lemma NameHoldsNoArrow(name: string)
    requires OperatorName(name)
    ensures forall i :: 0 <= i < |name| ==> name[i] != '>' && name[i] != '#'
  {
  }

  lemma {:induction false} JoinStarts(first: string, rest: seq<string>, sep: char)
    ensures first <= Join([first] + rest, sep)
    ensures |first| < |Join([first] + rest, sep)| ==> Join([first] + rest, sep)[|first|] == sep
    ensures Join([first] + rest, sep) == first || |first| < |Join([first] + rest, sep)|
  {
    assert ([first] + rest)[1..] == rest;
  }

  lemma KeyStarts(f: NamedFilter)
    requires WrittenPlainly(f)
    ensures StartsWithColumn(KeyOf(f), f.column) && '>' !in KeyOf(f)
  {
    var path := PathTextOf(f);
    JoinStarts(f.column, f.path, '.');
    PathHolds(f, '>');
    if f.name.Some? {
      NameHoldsNoArrow(f.name.value);
      var key := KeyOf(f);
      assert key == path + (['['] + f.name.value + [']']);
      assert '>' !in ['['] + f.name.value + [']'];
      if path == f.column {
        forall i | |path| <= i < |key|
          ensures key[i] != '>' && key[i] != '#'
        {
          if |path| < i < |key| - 1 {
            assert key[i] == f.name.value[i - |path| - 1];
          }
        }
      }
    }
  }

  /** The column the key is checked by. */
  lemma KeyColumn(f: NamedFilter)
    requires WrittenPlainly(f)
    ensures ExtractBaseColumn(KeyOf(f)) == f.column && ExtractBaseColumn(f.column) == f.column
  {
    KeyStarts(f);
    ColumnOfPlainStart(KeyOf(f), f.column);
    PlainNameIsPiece(f.column);
    assert StartsWithColumn(f.column, f.column);
    assert '>' !in f.column;
    ColumnOfPlainStart(f.column, f.column);
  }

  // ---------------------------------------------------------------------------
  // Which lists are built
  // ---------------------------------------------------------------------------

  /** The type of a column is that of the first one configured under its name. */
  ghost predicate HasType(columns: seq<ColumnConfig>, name: string, columnType: ColumnType) {
    exists k :: FirstColumn(columns, name, columnType, k)
  }

  ghost predicate FirstColumn(columns: seq<ColumnConfig>, name: string, columnType: ColumnType, k: nat) {
    k < |columns| && columns[k] == ColumnConfig(name, columnType) && forall j :: 0 <= j < k ==> columns[j].name != name
  }

  lemma {:induction false} TypeFound(columns: seq<ColumnConfig>, name: string, columnType: ColumnType, k: nat)
    requires FirstColumn(columns, name, columnType, k)
    ensures TypeOf(columns, name) == Some(columnType)
    decreases k
  {
    if k > 0 {
      assert columns[0].name != name;
      assert forall j :: 0 <= j < k - 1 ==> columns[1..][j] == columns[j + 1];
      TypeFound(columns[1..], name, columnType, k - 1);
    }
  }

  /** The filters of the request are these, on columns that may be filtered by and have these types. */
  ghost predicate AsksFor(q: Request, named: seq<NamedFilter>, types: seq<ColumnType>) {
    && |named| == |types| == |q.filters|
    && forall i :: 0 <= i < |named| ==> FilterIs(q, named[i], types[i], q.filters[i])
  }

  ghost predicate FilterIs(q: Request, f: NamedFilter, columnType: ColumnType, filter: Filter) {
    && WrittenPlainly(f) && filter == Filter(KeyOf(f), f.value)
    && ("*" in q.allowed || f.column in q.allowed)
    && HasType(q.columns, f.column, columnType)
  }

  /** The term that a filter of a documented name becomes. */
  ghost function TermOf(f: NamedFilter, columnType: ColumnType): Term
    requires OperatorOf(NameOf(f)).Some?
  {
    FilterTerm(FilterExpression([f.column] + f.path, OperatorOf(NameOf(f)).value), f.value, columnType)
  }

  lemma OperatorExactly(name: string)
    ensures OperatorOf(name).Some? <==> Documented(name)
  {
  }

  /** A key that parses is admitted by its column. */
  lemma AdmittedByColumn(filter: Filter, column: string, path: seq<string>, operator: FilterOperator, columnType: ColumnType,
                         allowed: seq<string>, columns: seq<ColumnConfig>)
    requires ParseFilterKey(filter.key) == Ok(FilterExpression([column] + path, operator))
    requires ExtractBaseColumn(filter.key) == column && ExtractBaseColumn(column) == column
    requires ("*" in allowed || column in allowed) && TypeOf(columns, column) == Some(columnType)
    ensures Admissible(filter, allowed, columns)
    ensures FilterTermOf(filter, allowed, columns) == FilterTerm(FilterExpression([column] + path, operator), filter.value, columnType)
  {
    assert Head([column] + path) == column;
  }

  lemma DocumentedIsAdmitted(q: Request, f: NamedFilter, columnType: ColumnType, filter: Filter)
    requires FilterIs(q, f, columnType, filter) && OperatorOf(NameOf(f)).Some?
    ensures Admissible(filter, q.allowed, q.columns) && FilterTermOf(filter, q.allowed, q.columns) == TermOf(f, columnType)
  {
    KeyParses(f);
    KeyColumn(f);
    var k: nat :| FirstColumn(q.columns, f.column, columnType, k);
    TypeFound(q.columns, f.column, columnType, k);
    AdmittedByColumn(filter, f.column, f.path, OperatorOf(NameOf(f)).value, columnType, q.allowed, q.columns);
  }

  lemma UnknownIsRefused(q: Request, f: NamedFilter, columnType: ColumnType, filter: Filter)
    requires FilterIs(q, f, columnType, filter) && OperatorOf(NameOf(f)).None?
    ensures !Admissible(filter, q.allowed, q.columns) && f.name.Some?
    ensures ErrorOf(filter, q.allowed) == BadFilterKey(KeyOf(f), UnsupportedOperator(f.name.value))
  {
    KeyParses(f);
  }

  ghost predicate AllDocumented(named: seq<NamedFilter>) {
    forall i :: 0 <= i < |named| ==> Documented(NameOf(named[i]))
  }

  /** The first filter with a name that is not documented. */
  ghost predicate FirstUnknown(named: seq<NamedFilter>, i: nat) {
    && i < |named| && !Documented(NameOf(named[i])) && forall k :: 0 <= k < i ==> Documented(NameOf(named[k]))
  }

  lemma SelectsExactly(q: Request, named: seq<NamedFilter>, types: seq<ColumnType>)
    requires AsksFor(q, named, types) && (q.clause.Some? ==> Resolvable(q.clause.value, q.context))
    ensures SelectsRows(q) <==> AllDocumented(named)
    ensures forall e :: FiltersFail(q.filters, q.allowed, q.columns, e) ==> UnknownFails(named, e)
  {
    forall i | 0 <= i < |named|
      ensures Admissible(q.filters[i], q.allowed, q.columns) <==> Documented(NameOf(named[i]))
      ensures !Documented(NameOf(named[i])) ==>
                && named[i].name.Some?
                && ErrorOf(q.filters[i], q.allowed) == BadFilterKey(KeyOf(named[i]), UnsupportedOperator(named[i].name.value))
    {
      OperatorExactly(NameOf(named[i]));
      if Documented(NameOf(named[i])) {
        DocumentedIsAdmitted(q, named[i], types[i], q.filters[i]);
      } else {
        UnknownIsRefused(q, named[i], types[i], q.filters[i]);
      }
    }
    forall e | FiltersFail(q.filters, q.allowed, q.columns, e)
      ensures UnknownFails(named, e)
    {
      var i: nat :| FirstRefused(q.filters, q.allowed, q.columns, i) && e == ErrorOf(q.filters[i], q.allowed);
      assert FirstUnknown(named, i);
    }
  }

  ghost predicate UnknownFails(named: seq<NamedFilter>, e: QueryError) {
    exists i: nat :: && FirstUnknown(named, i) && named[i].name.Some?
                     && e == BadFilterKey(KeyOf(named[i]), UnsupportedOperator(named[i].name.value))
  }

  /** A list is built exactly for the documented names, and otherwise the first other name is refused. */
  method BuildNamedList(q: Request, ghost named: seq<NamedFilter>, ghost types: seq<ColumnType>)
    returns (r: Result<BuiltQuery, QueryError>)
    requires AsksFor(q, named, types)
    requires (q.clause.Some? ==> Resolvable(q.clause.value, q.context)) && q.sorting.Ok?
    ensures r.Ok? <==> AllDocumented(named)
    ensures r.Ok? ==> SelectsRows(q) && r.value.clauses == Compiled(q.env, ListTerms(q))
    ensures r.Err? ==> UnknownFails(named, r.error)
  {
    r := BuildSelectList(q);
    SelectsExactly(q, named, types);
  }

  // ---------------------------------------------------------------------------
  // What the names ask for
  // ---------------------------------------------------------------------------

  /** What a filter compares with: the word null is NULL but for a typed column; documents are text but on SQLite. */
  ghost function BoundTo(driver: Driver, raw: string, columnType: ColumnType): Value {
    if !columnType.Typed? && NullWord(raw) then Null
    else if columnType.Textual? || KeptAsText(driver, columnType) || (columnType.Typed? && '%' in raw) then Value.Text(raw)
    else Parsed(raw, columnType)
  }

  /** How the column compares with the value; with NULL it is not known. */
  ghost function ComparesAs<Row>(db: Db<Row>, row: Row, column: Column, op: Comparison, raw: string, columnType: ColumnType): Tri {
    var operand := BoundTo(db.driver, raw, columnType);
    if operand == Null then Unknown else db.compare(column, op, operand, row)
  }

  /** The text matches the value as a pattern. */
  ghost predicate Matched<Row>(db: Db<Row>, text: string, raw: string, columnType: ColumnType, ignoreCase: bool) {
    var operand := BoundTo(db.driver, raw, columnType);
    && operand != Null
    && var pattern := if operand.Text? then operand.text else db.shown(operand);
       if ignoreCase then LikeMatch(db.driver, db.fold, db.lower(pattern), db.lower(text))
       else LikeMatch(db.driver, db.fold, pattern, text)
  }

  predicate OnDocument(f: NamedFilter, columnType: ColumnType) {
    f.path != [] || columnType.Json? || columnType.Jsonb?
  }

  function ColumnOf(table: string, f: NamedFilter, columnType: ColumnType): Column {
    if OnDocument(f, columnType) then JsonField(f.column, f.path) else Field(table, f.column)
  }

  /** What the name of a filter asks of a row. */
  ghost predicate NameAccepts<Row>(db: Db<Row>, row: Row, table: string, f: NamedFilter, columnType: ColumnType) {
    var column, value, pieces := ColumnOf(table, f, columnType), f.value, Split(f.value, ',');
    var text := db.text(column, row);
    match NameOf(f)
    case "eq" => ComparesAs(db, row, column, Eq, value, columnType) == True
    case "ne" => ComparesAs(db, row, column, Ne, value, columnType) == True
    case "gt" => ComparesAs(db, row, column, Gt, value, columnType) == True
    case "gte" => ComparesAs(db, row, column, Gte, value, columnType) == True
    case "lt" => ComparesAs(db, row, column, Lt, value, columnType) == True
    case "lte" => ComparesAs(db, row, column, Lte, value, columnType) == True
    case "in" => SomePieceEquals(db, row, column, pieces, columnType)
    case "not_in" => EveryPieceDiffers(db, row, column, pieces, columnType)
    case "contains" =>
      if OnDocument(f, columnType) then
        db.contains(column, if db.driver == Postgres then Value.Text(value) else BoundTo(db.driver, value, columnType), row) == True
      else text.Some? && Occurs(db.fold, value, text.value)
    case "exists" => db.present(column, row)
    case "startswith" => text.Some? && HasPrefix(db.fold, value, text.value)
    case "endswith" => text.Some? && HasSuffix(db.fold, value, text.value)
    case "like" => text.Some? && Matched(db, text.value, value, columnType, false)
    case "ilike" => text.Some? && Matched(db, text.value, value, columnType, true)
    case _ => false
  }

  ghost predicate SomePieceEquals<Row>(db: Db<Row>, row: Row, column: Column, pieces: seq<string>, columnType: ColumnType) {
    exists i, core :: Piece(pieces, i, core) && ComparesAs(db, row, column, Eq, core, columnType) == True
  }

  ghost predicate EveryPieceDiffers<Row>(db: Db<Row>, row: Row, column: Column, pieces: seq<string>, columnType: ColumnType) {
    forall i, core :: Piece(pieces, i, core) ==> ComparesAs(db, row, column, Eq, core, columnType) == False
  }

  /** A piece of the list, without the spaces around it. */
  ghost predicate Piece(pieces: seq<string>, i: int, core: string) {
    0 <= i < |pieces| && TrimsTo(pieces[i], core)
  }

  /** The database reads the filter as it is written. */
  predicate ReadsPlainly(env: Env, f: NamedFilter, columnType: ColumnType) {
    && (if OnDocument(f, columnType) then PlainPath(env.driver, NameOf(f) == "contains", f.path) else PlainName(env.table))
    && (NameOf(f) == "contains" && OnDocument(f, columnType) && env.driver == Postgres ==> '\'' !in f.value)
  }

  /** A value that is looked for holds no wildcard, and is looked for as it is. */
  ghost predicate StandsForItself<Row>(db: Db<Row>, f: NamedFilter, columnType: ColumnType) {
    match NameOf(f)
    case "contains" => OnDocument(f, columnType) || NoWildcards(db.driver, f.value)
    case "startswith" => NoWildcards(db.driver, f.value) && LooksFor(db, f.value, columnType)
    case "endswith" => HarmlessAtEnd(db.driver, f.value) && LooksFor(db, f.value, columnType)
    case _ => true
  }

  ghost predicate LooksFor<Row>(db: Db<Row>, raw: string, columnType: ColumnType) {
    var operand := BoundTo(db.driver, raw, columnType);
    operand != Null && (if operand.Text? then operand.text else db.shown(operand)) == raw
  }

  lemma BoundExactly(driver: Driver, raw: string, columnType: ColumnType)
    ensures Coerce(driver, raw, columnType) == BoundTo(driver, raw, columnType)
  {
  }

  lemma {:induction false} PieceVerdictAt<Row>(db: Db<Row>, row: Row, column: Column, pieces: seq<string>, columnType: ColumnType)
    ensures |PieceVerdicts(db, row, column, pieces, columnType)| == |pieces|
    ensures forall i :: 0 <= i < |pieces| ==>
              PieceVerdicts(db, row, column, pieces, columnType)[i] == PieceEquals(db, row, column, pieces[i], columnType)
  {
    if pieces != [] {
      PieceVerdictAt(db, row, column, pieces[..|pieces| - 1], columnType);
    }
  }

  /** Some piece equals the column, or every piece differs from it. */
  lemma AmongPieces<Row>(db: Db<Row>, row: Row, column: Column, pieces: seq<string>, columnType: ColumnType)
    requires pieces != []
    ensures Among(db, row, column, pieces, columnType) == True <==> SomePieceEquals(db, row, column, pieces, columnType)
    ensures Not(Among(db, row, column, pieces, columnType)) == True
       <==> EveryPieceDiffers(db, row, column, pieces, columnType)
  {
    var verdicts := PieceVerdicts(db, row, column, pieces, columnType);
    PieceVerdictAt(db, row, column, pieces, columnType);
    forall i, core | Piece(pieces, i, core)
      ensures verdicts[i] == ComparesAs(db, row, column, Eq, core, columnType)
    {
      TrimExactly(pieces[i], core);
      BoundExactly(db.driver, core, columnType);
    }
    forall i | 0 <= i < |pieces|
      ensures Piece(pieces, i, Trim(pieces[i]))
    {
      TrimExactly(pieces[i], Trim(pieces[i]));
    }
    if True in verdicts {
      var i :| 0 <= i < |verdicts| && verdicts[i] == True;
      assert Piece(pieces, i, Trim(pieces[i]));
    }
  }

  lemma TermColumn(env: Env, f: NamedFilter, columnType: ColumnType)
    requires OperatorOf(NameOf(f)).Some?
    ensures var t := TermOf(f, columnType);
            && Head(t.expr.path) == f.column && Nested(t.expr.path) == f.path
            && (IsJson(t.expr, columnType) <==> OnDocument(f, columnType))
            && FilterColumn(env, t.expr, columnType) == ColumnOf(env.table, f, columnType)
  {
  }

  lemma ContainsIsNamed(name: string)
    ensures OperatorOf(name) == Some(Contains) <==> name == "contains"
  {
  }

  /** A filter that reads plainly becomes a plain term. */
  lemma NamedIsPlain(env: Env, f: NamedFilter, columnType: ColumnType)
    requires OperatorOf(NameOf(f)).Some? && WrittenPlainly(f) && ReadsPlainly(env, f, columnType)
    ensures PlainTerm(env, TermOf(f, columnType))
  {
    TermColumn(env, f, columnType);
    ContainsIsNamed(NameOf(f));
  }

  lemma BoundOperand<Row>(db: Db<Row>, raw: string, columnType: ColumnType)
    ensures var operand := BoundTo(db.driver, raw, columnType);
            Operand(db, Coerce(db.driver, raw, columnType))
            == if operand == Null then None else if operand.Text? then Some(operand.text) else Some(db.shown(operand))
  {
    BoundExactly(db.driver, raw, columnType);
  }

  lemma NamedIsLiteral<Row>(db: Db<Row>, f: NamedFilter, columnType: ColumnType)
    requires OperatorOf(NameOf(f)).Some? && StandsForItself(db, f, columnType)
    ensures var t := TermOf(f, columnType); LiteralFilter(db, t.expr, t.value, t.columnType)
  {
    BoundOperand(db, f.value, columnType);
  }

  predicate ComparingName(name: string) {
    name == "eq" || name == "ne" || name == "gt" || name == "gte" || name == "lt" || name == "lte"
  }

  lemma ComparingMeans<Row>(db: Db<Row>, row: Row, env: Env, f: NamedFilter, columnType: ColumnType)
    requires ComparingName(NameOf(f))
    ensures OperatorOf(NameOf(f)).Some?
    ensures Meaning(db, row, env, TermOf(f, columnType)) == True <==> NameAccepts(db, row, env.table, f, columnType)
  {
    TermColumn(env, f, columnType);
    BoundExactly(db.driver, f.value, columnType);
  }

  lemma InNamed<Row>(db: Db<Row>, row: Row, env: Env, f: NamedFilter, columnType: ColumnType)
    requires NameOf(f) == "in"
    ensures OperatorOf(NameOf(f)) == Some(In)
    ensures NameAccepts(db, row, env.table, f, columnType)
       <==> SomePieceEquals(db, row, ColumnOf(env.table, f, columnType), Split(f.value, ','), columnType)
  {
  }

  lemma InAsked<Row>(db: Db<Row>, row: Row, env: Env, f: NamedFilter, columnType: ColumnType, t: Term)
    requires t == FilterTerm(FilterExpression([f.column] + f.path, In), f.value, columnType)
    requires FilterColumn(env, t.expr, columnType) == ColumnOf(env.table, f, columnType)
    requires (IsJson(t.expr, columnType) <==> OnDocument(f, columnType))
    ensures Meaning(db, row, env, t) == True
       <==> SomePieceEquals(db, row, ColumnOf(env.table, f, columnType), Split(f.value, ','), columnType)
  {
    AmongPieces(db, row, ColumnOf(env.table, f, columnType), Split(f.value, ','), columnType);
  }

  lemma InMeans<Row>(db: Db<Row>, row: Row, env: Env, f: NamedFilter, columnType: ColumnType)
    requires NameOf(f) == "in"
    ensures OperatorOf(NameOf(f)).Some?
    ensures Meaning(db, row, env, TermOf(f, columnType)) == True <==> NameAccepts(db, row, env.table, f, columnType)
  {
    InNamed(db, row, env, f, columnType);
    TermColumn(env, f, columnType);
    InAsked(db, row, env, f, columnType, TermOf(f, columnType));
  }

  lemma NotInNamed<Row>(db: Db<Row>, row: Row, env: Env, f: NamedFilter, columnType: ColumnType)
    requires NameOf(f) == "not_in"
    ensures OperatorOf(NameOf(f)) == Some(NotIn)
    ensures NameAccepts(db, row, env.table, f, columnType)
       <==> EveryPieceDiffers(db, row, ColumnOf(env.table, f, columnType), Split(f.value, ','), columnType)
  {
  }

  lemma NotInAsked<Row>(db: Db<Row>, row: Row, env: Env, f: NamedFilter, columnType: ColumnType, t: Term)
    requires t == FilterTerm(FilterExpression([f.column] + f.path, NotIn), f.value, columnType)
    requires FilterColumn(env, t.expr, columnType) == ColumnOf(env.table, f, columnType)
    requires (IsJson(t.expr, columnType) <==> OnDocument(f, columnType))
    ensures Meaning(db, row, env, t) == True
       <==> EveryPieceDiffers(db, row, ColumnOf(env.table, f, columnType), Split(f.value, ','), columnType)
  {
    AmongPieces(db, row, ColumnOf(env.table, f, columnType), Split(f.value, ','), columnType);
  }

  lemma NotInMeans<Row>(db: Db<Row>, row: Row, env: Env, f: NamedFilter, columnType: ColumnType)
    requires NameOf(f) == "not_in"
    ensures OperatorOf(NameOf(f)).Some?
    ensures Meaning(db, row, env, TermOf(f, columnType)) == True <==> NameAccepts(db, row, env.table, f, columnType)
  {
    NotInNamed(db, row, env, f, columnType);
    TermColumn(env, f, columnType);
    NotInAsked(db, row, env, f, columnType, TermOf(f, columnType));
  }

  lemma ContainsNamed<Row>(db: Db<Row>, row: Row, env: Env, f: NamedFilter, columnType: ColumnType)
    requires NameOf(f) == "contains"
    ensures OperatorOf(NameOf(f)) == Some(Contains)
    ensures NameAccepts(db, row, env.table, f, columnType) <==>
              if OnDocument(f, columnType) then
                db.contains(ColumnOf(env.table, f, columnType), if db.driver == Postgres then Value.Text(f.value) else BoundTo(db.driver, f.value, columnType), row) == True
              else db.text(ColumnOf(env.table, f, columnType), row).Some? && Occurs(db.fold, f.value, db.text(ColumnOf(env.table, f, columnType), row).value)
  {
  }

  lemma ContainsAsked<Row>(db: Db<Row>, row: Row, env: Env, f: NamedFilter, columnType: ColumnType, t: Term)
    requires t == FilterTerm(FilterExpression([f.column] + f.path, Contains), f.value, columnType)
    requires FilterColumn(env, t.expr, columnType) == ColumnOf(env.table, f, columnType)
    requires (IsJson(t.expr, columnType) <==> OnDocument(f, columnType))
    ensures Meaning(db, row, env, t) == True <==>
              if OnDocument(f, columnType) then
                db.contains(ColumnOf(env.table, f, columnType), if db.driver == Postgres then Value.Text(f.value) else BoundTo(db.driver, f.value, columnType), row) == True
              else db.text(ColumnOf(env.table, f, columnType), row).Some? && Occurs(db.fold, f.value, db.text(ColumnOf(env.table, f, columnType), row).value)
  {
    BoundExactly(db.driver, f.value, columnType);
  }

  lemma ContainsMeans<Row>(db: Db<Row>, row: Row, env: Env, f: NamedFilter, columnType: ColumnType)
    requires NameOf(f) == "contains"
    ensures OperatorOf(NameOf(f)).Some?
    ensures Meaning(db, row, env, TermOf(f, columnType)) == True <==> NameAccepts(db, row, env.table, f, columnType)
  {
    ContainsNamed(db, row, env, f, columnType);
    TermColumn(env, f, columnType);
    ContainsAsked(db, row, env, f, columnType, TermOf(f, columnType));
  }

  lemma ExistsNamed<Row>(db: Db<Row>, row: Row, env: Env, f: NamedFilter, columnType: ColumnType)
    requires NameOf(f) == "exists"
    ensures OperatorOf(NameOf(f)) == Some(Exists)
    ensures NameAccepts(db, row, env.table, f, columnType) <==> db.present(ColumnOf(env.table, f, columnType), row)
  {
  }

  lemma ExistsAsked<Row>(db: Db<Row>, row: Row, env: Env, f: NamedFilter, columnType: ColumnType, t: Term)
    requires t == FilterTerm(FilterExpression([f.column] + f.path, Exists), f.value, columnType)
    requires FilterColumn(env, t.expr, columnType) == ColumnOf(env.table, f, columnType)
    requires (IsJson(t.expr, columnType) <==> OnDocument(f, columnType))
    ensures Meaning(db, row, env, t) == True <==> db.present(ColumnOf(env.table, f, columnType), row)
  {
  }

  lemma ExistsMeans<Row>(db: Db<Row>, row: Row, env: Env, f: NamedFilter, columnType: ColumnType)
    requires NameOf(f) == "exists"
    ensures OperatorOf(NameOf(f)).Some?
    ensures Meaning(db, row, env, TermOf(f, columnType)) == True <==> NameAccepts(db, row, env.table, f, columnType)
  {
    ExistsNamed(db, row, env, f, columnType);
    TermColumn(env, f, columnType);
    ExistsAsked(db, row, env, f, columnType, TermOf(f, columnType));
  }

  lemma StartsWithNamed<Row>(db: Db<Row>, row: Row, env: Env, f: NamedFilter, columnType: ColumnType)
    requires NameOf(f) == "startswith"
    ensures OperatorOf(NameOf(f)) == Some(StartsWith)
    ensures NameAccepts(db, row, env.table, f, columnType)
       <==> db.text(ColumnOf(env.table, f, columnType), row).Some? && HasPrefix(db.fold, f.value, db.text(ColumnOf(env.table, f, columnType), row).value)
  {
  }

  lemma StartsWithAsked<Row>(db: Db<Row>, row: Row, env: Env, f: NamedFilter, columnType: ColumnType, t: Term)
    requires t == FilterTerm(FilterExpression([f.column] + f.path, StartsWith), f.value, columnType)
    requires FilterColumn(env, t.expr, columnType) == ColumnOf(env.table, f, columnType)
    requires (IsJson(t.expr, columnType) <==> OnDocument(f, columnType))
    ensures Meaning(db, row, env, t) == True
       <==> db.text(ColumnOf(env.table, f, columnType), row).Some? && HasPrefix(db.fold, f.value, db.text(ColumnOf(env.table, f, columnType), row).value)
  {
  }

  lemma StartsWithMeans<Row>(db: Db<Row>, row: Row, env: Env, f: NamedFilter, columnType: ColumnType)
    requires NameOf(f) == "startswith"
    ensures OperatorOf(NameOf(f)).Some?
    ensures Meaning(db, row, env, TermOf(f, columnType)) == True <==> NameAccepts(db, row, env.table, f, columnType)
  {
    StartsWithNamed(db, row, env, f, columnType);
    TermColumn(env, f, columnType);
    StartsWithAsked(db, row, env, f, columnType, TermOf(f, columnType));
  }

  lemma EndsWithNamed<Row>(db: Db<Row>, row: Row, env: Env, f: NamedFilter, columnType: ColumnType)
    requires NameOf(f) == "endswith"
    ensures OperatorOf(NameOf(f)) == Some(EndsWith)
    ensures NameAccepts(db, row, env.table, f, columnType)
       <==> db.text(ColumnOf(env.table, f, columnType), row).Some? && HasSuffix(db.fold, f.value, db.text(ColumnOf(env.table, f, columnType), row).value)
  {
  }

  lemma EndsWithAsked<Row>(db: Db<Row>, row: Row, env: Env, f: NamedFilter, columnType: ColumnType, t: Term)
    requires t == FilterTerm(FilterExpression([f.column] + f.path, EndsWith), f.value, columnType)
    requires FilterColumn(env, t.expr, columnType) == ColumnOf(env.table, f, columnType)
    requires (IsJson(t.expr, columnType) <==> OnDocument(f, columnType))
    ensures Meaning(db, row, env, t) == True
       <==> db.text(ColumnOf(env.table, f, columnType), row).Some? && HasSuffix(db.fold, f.value, db.text(ColumnOf(env.table, f, columnType), row).value)
  {
  }

  lemma EndsWithMeans<Row>(db: Db<Row>, row: Row, env: Env, f: NamedFilter, columnType: ColumnType)
    requires NameOf(f) == "endswith"
    ensures OperatorOf(NameOf(f)).Some?
    ensures Meaning(db, row, env, TermOf(f, columnType)) == True <==> NameAccepts(db, row, env.table, f, columnType)
  {
    EndsWithNamed(db, row, env, f, columnType);
    TermColumn(env, f, columnType);
    EndsWithAsked(db, row, env, f, columnType, TermOf(f, columnType));
  }

  lemma LikeNamed<Row>(db: Db<Row>, row: Row, env: Env, f: NamedFilter, columnType: ColumnType)
    requires NameOf(f) == "like"
    ensures OperatorOf(NameOf(f)) == Some(LikeWhole)
    ensures NameAccepts(db, row, env.table, f, columnType)
       <==> db.text(ColumnOf(env.table, f, columnType), row).Some? && Matched(db, db.text(ColumnOf(env.table, f, columnType), row).value, f.value, columnType, false)
  {
  }

  lemma LikeAsked<Row>(db: Db<Row>, row: Row, env: Env, f: NamedFilter, columnType: ColumnType, t: Term)
    requires t == FilterTerm(FilterExpression([f.column] + f.path, LikeWhole), f.value, columnType)
    requires FilterColumn(env, t.expr, columnType) == ColumnOf(env.table, f, columnType)
    requires (IsJson(t.expr, columnType) <==> OnDocument(f, columnType))
    ensures Meaning(db, row, env, t) == True
       <==> db.text(ColumnOf(env.table, f, columnType), row).Some? && Matched(db, db.text(ColumnOf(env.table, f, columnType), row).value, f.value, columnType, false)
  {
    BoundOperand(db, f.value, columnType);
  }

  lemma LikeMeans<Row>(db: Db<Row>, row: Row, env: Env, f: NamedFilter, columnType: ColumnType)
    requires NameOf(f) == "like"
    ensures OperatorOf(NameOf(f)).Some?
    ensures Meaning(db, row, env, TermOf(f, columnType)) == True <==> NameAccepts(db, row, env.table, f, columnType)
  {
    LikeNamed(db, row, env, f, columnType);
    TermColumn(env, f, columnType);
    LikeAsked(db, row, env, f, columnType, TermOf(f, columnType));
  }

  lemma ILikeNamed<Row>(db: Db<Row>, row: Row, env: Env, f: NamedFilter, columnType: ColumnType)
    requires NameOf(f) == "ilike"
    ensures OperatorOf(NameOf(f)) == Some(ILike)
    ensures NameAccepts(db, row, env.table, f, columnType)
       <==> db.text(ColumnOf(env.table, f, columnType), row).Some? && Matched(db, db.text(ColumnOf(env.table, f, columnType), row).value, f.value, columnType, true)
  {
  }

  lemma ILikeAsked<Row>(db: Db<Row>, row: Row, env: Env, f: NamedFilter, columnType: ColumnType, t: Term)
    requires t == FilterTerm(FilterExpression([f.column] + f.path, ILike), f.value, columnType)
    requires FilterColumn(env, t.expr, columnType) == ColumnOf(env.table, f, columnType)
    requires (IsJson(t.expr, columnType) <==> OnDocument(f, columnType))
    ensures Meaning(db, row, env, t) == True
       <==> db.text(ColumnOf(env.table, f, columnType), row).Some? && Matched(db, db.text(ColumnOf(env.table, f, columnType), row).value, f.value, columnType, true)
  {
    BoundOperand(db, f.value, columnType);
  }

  lemma ILikeMeans<Row>(db: Db<Row>, row: Row, env: Env, f: NamedFilter, columnType: ColumnType)
    requires NameOf(f) == "ilike"
    ensures OperatorOf(NameOf(f)).Some?
    ensures Meaning(db, row, env, TermOf(f, columnType)) == True <==> NameAccepts(db, row, env.table, f, columnType)
  {
    ILikeNamed(db, row, env, f, columnType);
    TermColumn(env, f, columnType);
    ILikeAsked(db, row, env, f, columnType, TermOf(f, columnType));
  }

  lemma NamedMeans<Row>(db: Db<Row>, row: Row, env: Env, f: NamedFilter, columnType: ColumnType)
    requires Documented(NameOf(f))
    ensures OperatorOf(NameOf(f)).Some?
    ensures Meaning(db, row, env, TermOf(f, columnType)) == True <==> NameAccepts(db, row, env.table, f, columnType)
  {
    if ComparingName(NameOf(f)) {
      ComparingMeans(db, row, env, f, columnType);
    } else if NameOf(f) == "in" {
      InMeans(db, row, env, f, columnType);
    } else if NameOf(f) == "not_in" {
      NotInMeans(db, row, env, f, columnType);
    } else if NameOf(f) == "contains" {
      ContainsMeans(db, row, env, f, columnType);
    } else if NameOf(f) == "exists" {
      ExistsMeans(db, row, env, f, columnType);
    } else if NameOf(f) == "startswith" {
      StartsWithMeans(db, row, env, f, columnType);
    } else if NameOf(f) == "endswith" {
      EndsWithMeans(db, row, env, f, columnType);
    } else if NameOf(f) == "like" {
      LikeMeans(db, row, env, f, columnType);
    } else {
      ILikeMeans(db, row, env, f, columnType);
    }
  }

  // ---------------------------------------------------------------------------
  // Which rows a list of named filters selects
  // ---------------------------------------------------------------------------

  ghost predicate AllReadPlainly<Row>(db: Db<Row>, env: Env, named: seq<NamedFilter>, types: seq<ColumnType>)
    requires |named| == |types|
  {
    forall i :: 0 <= i < |named| ==> ReadsPlainly(env, named[i], types[i]) && StandsForItself(db, named[i], types[i])
  }

  ghost predicate AllAccept<Row>(db: Db<Row>, row: Row, table: string, named: seq<NamedFilter>, types: seq<ColumnType>)
    requires |named| == |types|
  {
    forall i :: 0 <= i < |named| ==> NameAccepts(db, row, table, named[i], types[i])
  }

  /** The term of the `i`-th filter. */
  lemma NamedTerm<Row>(db: Db<Row>, row: Row, q: Request, named: seq<NamedFilter>, types: seq<ColumnType>, i: nat)
    requires AsksFor(q, named, types) && SelectsRows(q) && i < |named| && db.driver == q.env.driver
    requires Documented(NameOf(named[i]))
    requires ReadsPlainly(q.env, named[i], types[i]) && StandsForItself(db, named[i], types[i])
    ensures var t := FilterTermOf(q.filters[i], q.allowed, q.columns);
            && PlainTerm(q.env, t) && LiteralFilter(db, t.expr, t.value, t.columnType)
            && (Meaning(db, row, q.env, t) == True <==> NameAccepts(db, row, q.env.table, named[i], types[i]))
  {
    OperatorExactly(NameOf(named[i]));
    DocumentedIsAdmitted(q, named[i], types[i], q.filters[i]);
    NamedMeans(db, row, q.env, named[i], types[i]);
    NamedIsPlain(q.env, named[i], types[i]);
    NamedIsLiteral(db, named[i], types[i]);
  }

  /** A list of filters with documented names selects exactly the rows that the clause accepts and
      that every filter accepts by what its name says. */
  lemma NamedListSelects<Row>(db: Db<Row>, row: Row, q: Request, named: seq<NamedFilter>, types: seq<ColumnType>)
    requires db.driver == q.env.driver
    requires AsksFor(q, named, types) && AllDocumented(named) && AllReadPlainly(db, q.env, named, types)
    requires q.clause.Some? ==> Resolvable(q.clause.value, q.context) && PlainTemplate(q.env.driver, q.clause.value)
    ensures SelectsRows(q)
    ensures Accepts(db, row, Compiled(q.env, ListTerms(q)))
       <==> ClauseHolds(db, row, q) && AllAccept(db, row, q.env.table, named, types)
  {
    SelectsExactly(q, named, types);
    forall i | 0 <= i < |named|
      ensures var t := FilterTermOf(q.filters[i], q.allowed, q.columns);
              && PlainTerm(q.env, t) && LiteralFilter(db, t.expr, t.value, t.columnType)
              && (Meaning(db, row, q.env, t) == True <==> NameAccepts(db, row, q.env.table, named[i], types[i]))
    {
      NamedTerm(db, row, q, named, types, i);
    }
    NamedRequest(db, row, q, named, types);
    ListSelectsWhatWasAsked(db, row, q);
  }

  /** The request is plain and literal when each of its terms is, and wants what they want. */
  lemma NamedRequest<Row>(db: Db<Row>, row: Row, q: Request, named: seq<NamedFilter>, types: seq<ColumnType>)
    requires AsksFor(q, named, types) && SelectsRows(q)
    requires q.clause.Some? ==> PlainTemplate(q.env.driver, q.clause.value)
    requires forall i :: 0 <= i < |named| ==>
               var t := FilterTermOf(q.filters[i], q.allowed, q.columns);
               && PlainTerm(q.env, t) && LiteralFilter(db, t.expr, t.value, t.columnType)
               && (Meaning(db, row, q.env, t) == True <==> NameAccepts(db, row, q.env.table, named[i], types[i]))
    ensures PlainRequest(q) && LiteralRequest(db, q)
    ensures SelectionWanted(db, row, q) <==> ClauseHolds(db, row, q) && AllAccept(db, row, q.env.table, named, types)
  {
    forall f | f in q.filters
      ensures var t := FilterTermOf(f, q.allowed, q.columns);
              PlainTerm(q.env, t) && LiteralFilter(db, t.expr, t.value, t.columnType)
    {
      var i :| 0 <= i < |q.filters| && q.filters[i] == f;
    }
    if SelectionWanted(db, row, q) {
      forall i | 0 <= i < |named|
        ensures NameAccepts(db, row, q.env.table, named[i], types[i])
      {
        assert q.filters[i] in q.filters;
      }
    }
    if AllAccept(db, row, q.env.table, named, types) {
      forall f | f in q.filters
        ensures Meaning(db, row, q.env, FilterTermOf(f, q.allowed, q.columns)) == True
      {
        var i :| 0 <= i < |q.filters| && q.filters[i] == f;
        assert NameAccepts(db, row, q.env.table, named[i], types[i]);
      }
    }
  }
}
