/** Which rows a built query accepts, against what its clause and filters say. */
module SelectMeaning {
  import opened Wrappers
  import opened Strings
  import opened SqlText
  import opened PathText
  import opened FilterKeys
  import opened LikePattern
  import opened SlotText
  import opened SelectText
  import opened SelectSlots
  import opened SelectQuery
  import opened SelectSemantics
  import opened SelectReading

  // ---------------------------------------------------------------------------
  // Conditions over rows
  // ---------------------------------------------------------------------------

  /** SQL truth values. */
  datatype Tri = True | False | Unknown

  function Not(a: Tri): Tri {
    match a case True => False case False => True case Unknown => Unknown
  }

  function Or(a: Tri, b: Tri): Tri {
    if a == True || b == True then True else if a == Unknown || b == Unknown then Unknown else False
  }

  /** A database: its dialect, how it decides single conditions on a row, the text that a column
      or an operand shows to LIKE, how it compares characters and lowers text, and what it makes
      of text that is not read as it was written. */
  datatype Db<!Row> = Db(
    driver: Driver,
    compare: (Column, Comparison, Value, Row) -> Tri,
    contains: (Column, Value, Row) -> Tri,
    present: (Column, Row) -> bool,
    clause: (seq<string>, seq<Value>, Row) -> Tri,
    text: (Column, Row) -> Option<string>,
    shown: Value -> string,
    fold: char -> char,
    lower: string -> string,
    misread: (seq<Token>, seq<Value>, Row) -> bool)

  /** No comparison with NULL is true or false. */
  ghost function Compared<Row>(db: Db<Row>, row: Row, column: Column, op: Comparison, operand: Value): Tri {
    if operand == Null then Unknown else db.compare(column, op, operand, row)
  }

  ghost function AnyEqual<Row>(db: Db<Row>, row: Row, column: Column, values: seq<Value>): Tri {
    if values == [] then False
    else Or(AnyEqual(db, row, column, values[..|values| - 1]), Compared(db, row, column, Eq, values[|values| - 1]))
  }

  /** The text of an operand. */
  ghost function Operand<Row>(db: Db<Row>, operand: Value): Option<string> {
    match operand
    case Text(text) => Some(text)
    case Null => None
    case _ => Some(db.shown(operand))
  }

  ghost function LikeTri<Row>(db: Db<Row>, pattern: Option<string>, text: Option<string>): Tri {
    if pattern.None? || text.None? then Unknown
    else if LikeMatch(db.driver, db.fold, pattern.value, text.value) then True
    else False
  }

  ghost function Lowered<Row>(db: Db<Row>, text: Option<string>): Option<string> {
    if text.None? then None else Some(db.lower(text.value))
  }

  /** A condition whose slots stand for these values. */
  ghost function Eval<Row>(db: Db<Row>, row: Row, c: Cond, values: seq<Value>): Tri
    requires |values| == |SlotsOf(c)|
  {
    match c
    case Clause(texts, _) => db.clause(texts, values, row)
    case Compare(column, op, _) => Compared(db, row, column, op, values[0])
    case InList(column, _, negated) =>
      if negated then Not(AnyEqual(db, row, column, values)) else AnyEqual(db, row, column, values)
    case JsonContains(name, path, _) => db.contains(JsonField(name, path), values[0], row)
    case Like(column, pattern, _, ignoreCase) =>
      var operand, text := PatternText(db.driver, pattern, Operand(db, values[0])), db.text(column, row);
      if ignoreCase then LikeTri(db, Lowered(db, operand), Lowered(db, text)) else LikeTri(db, operand, text)
    case NotNull(column) => if db.present(column, row) then True else False
    case Never => False
  }

  /** The conditions, joined by AND, are true of the row. */
  ghost predicate Passes<Row>(db: Db<Row>, row: Row, conditions: seq<Cond>, values: seq<Value>)
    requires |values| == |CondSlots(conditions)|
  {
    conditions != [] ==>
      var init := conditions[..|conditions| - 1];
      var n := |CondSlots(init)|;
      Passes(db, row, init, values[..n]) && Eval(db, row, conditions[|conditions| - 1], values[n..]) == True
  }

  /** The slots stand for values under which every condition is true of the row. */
  ghost predicate Satisfies<Row>(db: Db<Row>, row: Row, c: Clauses) {
    exists values :: Binds(CondSlots(c.conditions), 0, c.params, values) && Passes(db, row, c.conditions, values)
  }

  /** The query returns the row: as its conditions say, if their text is read as it was written,
      and otherwise as the database makes of that text, which is nothing if it cannot be read. */
  ghost predicate Accepts<Row>(db: Db<Row>, row: Row, c: Clauses) {
    if WhereReads(db.driver, c.conditions) then Satisfies(db, row, c)
    else
      var tokens := Lex(db.driver, WhereText(db.driver, c.conditions));
      tokens.Some? && db.misread(tokens.value, c.params, row)
  }

  // ---------------------------------------------------------------------------
  // What the conditions say, and what was asked
  // ---------------------------------------------------------------------------

  /** True if one of them is, else unknown if one of them is. */
  ghost function AnyOf(verdicts: seq<Tri>): Tri {
    if True in verdicts then True else if Unknown in verdicts then Unknown else False
  }

  /** For each piece of the list, whether it equals the column. */
  ghost function PieceVerdicts<Row>(db: Db<Row>, row: Row, column: Column, pieces: seq<string>, columnType: ColumnType): seq<Tri> {
    if pieces == [] then []
    else
      PieceVerdicts(db, row, column, pieces[..|pieces| - 1], columnType)
      + [PieceEquals(db, row, column, pieces[|pieces| - 1], columnType)]
  }

  /** Some piece of the list equals the column, in three-valued logic. */
  ghost function Among<Row>(db: Db<Row>, row: Row, column: Column, pieces: seq<string>, columnType: ColumnType): Tri {
    AnyOf(PieceVerdicts(db, row, column, pieces, columnType))
  }

  ghost function PieceEquals<Row>(db: Db<Row>, row: Row, column: Column, piece: string, columnType: ColumnType): Tri {
    Compared(db, row, column, Eq, Coerce(db.driver, Trim(piece), columnType))
  }

  /** The pattern that a text operator compares a column with. */
  ghost function BuiltPattern<Row>(db: Db<Row>, operator: FilterOperator, value: string, columnType: ColumnType): Option<string> {
    match operator
    case Contains => Operand(db, Coerce(db.driver, "%" + value + "%", columnType))
    case StartsWith => PatternText(db.driver, StartingWith, Operand(db, Coerce(db.driver, value, columnType)))
    case EndsWith => PatternText(db.driver, EndingWith, Operand(db, Coerce(db.driver, value, columnType)))
    case _ => Operand(db, Coerce(db.driver, value, columnType))
  }

  /** The operators that look for the value inside the text of the column. */
  predicate SearchesText(expr: FilterExpression, columnType: ColumnType) {
    || expr.operator == StartsWith || expr.operator == EndsWith
    || (expr.operator == Contains && !IsJson(expr, columnType))
  }

  /** What the condition of a filter says of a row. */
  ghost function FilterEffect<Row>(db: Db<Row>, row: Row, env: Env, expr: FilterExpression, value: string, columnType: ColumnType): Tri {
    var column := FilterColumn(env, expr, columnType);
    var operand := Coerce(db.driver, value, columnType);
    var pattern := BuiltPattern(db, expr.operator, value, columnType);
    if SearchesText(expr, columnType) then LikeTri(db, pattern, db.text(column, row))
    else match expr.operator
      case Comparing(op) => Compared(db, row, column, op, operand)
      case In => Among(db, row, column, Split(value, ','), columnType)
      case NotIn => Not(Among(db, row, column, Split(value, ','), columnType))
      case Contains => db.contains(column, if db.driver == Postgres then Text(value) else operand, row)
      case Exists => if db.present(column, row) then True else False
      case ILike => LikeTri(db, Lowered(db, pattern), Lowered(db, db.text(column, row)))
      case _ => LikeTri(db, pattern, db.text(column, row))
  }

  /** What the name of a text operator asks of a text. */
  ghost function Asked(fold: char -> char, operator: FilterOperator, value: string, text: Option<string>): Tri {
    if text.None? then Unknown
    else if match operator
            case Contains => Occurs(fold, value, text.value)
            case StartsWith => HasPrefix(fold, value, text.value)
            case _ => HasSuffix(fold, value, text.value)
    then True
    else False
  }

  /** What a filter asks of a row: the text operators ask for an occurrence, a prefix or a suffix. */
  ghost function FilterMeaning<Row>(db: Db<Row>, row: Row, env: Env, expr: FilterExpression, value: string, columnType: ColumnType): Tri {
    if SearchesText(expr, columnType) then
      Asked(db.fold, expr.operator, value, db.text(FilterColumn(env, expr, columnType), row))
    else FilterEffect(db, row, env, expr, value, columnType)
  }

  ghost function Effect<Row>(db: Db<Row>, row: Row, env: Env, t: Term): Tri {
    match t
    case WhereTerm(texts, values) => db.clause(texts, values, row)
    case FilterTerm(expr, value, columnType) => FilterEffect(db, row, env, expr, value, columnType)
    case PkTerm(column, key) => if IsSentinel(key) then False else Compared(db, row, Bare(column), Eq, key)
    case PageTerm(_) => True
    case OneTerm => True
  }

  ghost function Meaning<Row>(db: Db<Row>, row: Row, env: Env, t: Term): Tri {
    match t
    case FilterTerm(expr, value, columnType) => FilterMeaning(db, row, env, expr, value, columnType)
    case _ => Effect(db, row, env, t)
  }

  ghost predicate Required<Row>(db: Db<Row>, row: Row, env: Env, terms: seq<Term>) {
    forall t :: t in terms ==> Effect(db, row, env, t) == True
  }

  ghost predicate Wanted<Row>(db: Db<Row>, row: Row, env: Env, terms: seq<Term>) {
    forall t :: t in terms ==> Meaning(db, row, env, t) == True
  }

  // ---------------------------------------------------------------------------
  // Values that stand for themselves
  // ---------------------------------------------------------------------------

  /** The value holds nothing that a pattern takes for something else, and is bound as written. */
  ghost predicate LiteralFilter<Row>(db: Db<Row>, expr: FilterExpression, value: string, columnType: ColumnType) {
    match expr.operator
    case Contains => IsJson(expr, columnType) || NoWildcards(db.driver, value)
    case StartsWith => NoWildcards(db.driver, value) && BoundAsWritten(db, value, columnType)
    case EndsWith => HarmlessAtEnd(db.driver, value) && BoundAsWritten(db, value, columnType)
    case _ => true
  }

  ghost predicate BoundAsWritten<Row>(db: Db<Row>, value: string, columnType: ColumnType) {
    Operand(db, Coerce(db.driver, value, columnType)) == Some(value)
  }

  ghost predicate LiteralTerms<Row>(db: Db<Row>, terms: seq<Term>) {
    forall t :: t in terms && t.FilterTerm? ==> LiteralFilter(db, t.expr, t.value, t.columnType)
  }

  /** The values of these columns are bound as text, or as NULL. */
  predicate KeptAsText(driver: Driver, columnType: ColumnType) {
    columnType.Textual? || ((columnType.Json? || columnType.Jsonb?) && driver != Sqlite)
  }

  lemma KeptOperand<Row>(db: Db<Row>, value: string, columnType: ColumnType)
    requires KeptAsText(db.driver, columnType)
    ensures Operand(db, Coerce(db.driver, value, columnType)) == TextOperand(value)
    ensures BoundAsWritten(db, value, columnType) <==> !NullWord(value)
  {
  }

  /** A value between wildcards is bound as it is. */
  lemma BetweenWildcards<Row>(db: Db<Row>, value: string, columnType: ColumnType)
    requires columnType.Textual? || columnType.Typed?
    ensures Operand(db, Coerce(db.driver, "%" + value + "%", columnType)) == Some(['%'] + (value + ['%']))
  {
    var raw := "%" + value + "%";
    assert raw == ['%'] + (value + ['%']) && raw[0] == '%' && raw[0] in raw;
  }

  /** A text operator over a value that stands for itself does what its name says. */
  lemma LiteralFilterMeans<Row>(db: Db<Row>, expr: FilterExpression, value: string, columnType: ColumnType, text: Option<string>)
    requires SearchesText(expr, columnType) && LiteralFilter(db, expr, value, columnType)
    ensures LikeTri(db, BuiltPattern(db, expr.operator, value, columnType), text) == Asked(db.fold, expr.operator, value, text)
  {
    if text.Some? {
      if expr.operator == Contains {
        BetweenWildcards(db, value, columnType);
        LiteralOccurs(db.driver, db.fold, value, text.value);
      } else if expr.operator == StartsWith {
        LiteralStarts(db.driver, db.fold, value, text.value);
      } else {
        LiteralEnds(db.driver, db.fold, value, text.value);
      }
    }
  }

  /** The text operator does what its name says on every text. */
  ghost predicate FindsWhatItSays<Row>(db: Db<Row>, operator: FilterOperator, value: string, columnType: ColumnType) {
    forall text :: LikeTri(db, BuiltPattern(db, operator, value, columnType), Some(text)) == True
              <==> Asked(db.fold, operator, value, Some(text)) == True
  }

  lemma FindsOccurrencesExactly<Row>(db: Db<Row>, value: string, columnType: ColumnType)
    requires columnType.Textual? || columnType.Typed?
    ensures FindsWhatItSays(db, Contains, value, columnType) <==> FindsOccurrences(db.driver, db.fold, value)
  {
    var pattern := BuiltPattern(db, Contains, value, columnType);
    BetweenWildcards(db, value, columnType);
    assert forall text :: LikeTri(db, pattern, Some(text)) == True
                     <==> LikeMatch(db.driver, db.fold, ['%'] + (value + ['%']), text);
    assert forall text :: Asked(db.fold, Contains, value, Some(text)) == True <==> Occurs(db.fold, value, text);
  }

  lemma FindsPrefixesExactly<Row>(db: Db<Row>, value: string, columnType: ColumnType)
    requires KeptAsText(db.driver, columnType)
    ensures FindsWhatItSays(db, StartsWith, value, columnType) <==> FindsPrefixes(db.driver, db.fold, value)
  {
    var pattern := BuiltPattern(db, StartsWith, value, columnType);
    KeptOperand(db, value, columnType);
    assert forall text :: LikeTri(db, pattern, Some(text)) == True <==> Matches(db.driver, db.fold, pattern, text);
    assert forall text :: Asked(db.fold, StartsWith, value, Some(text)) == True <==> HasPrefix(db.fold, value, text);
  }

  lemma FindsSuffixesExactly<Row>(db: Db<Row>, value: string, columnType: ColumnType)
    requires KeptAsText(db.driver, columnType)
    ensures FindsWhatItSays(db, EndsWith, value, columnType) <==> FindsSuffixes(db.driver, db.fold, value)
  {
    var pattern := BuiltPattern(db, EndsWith, value, columnType);
    KeptOperand(db, value, columnType);
    assert forall text :: LikeTri(db, pattern, Some(text)) == True <==> Matches(db.driver, db.fold, pattern, text);
    assert forall text :: Asked(db.fold, EndsWith, value, Some(text)) == True <==> HasSuffix(db.fold, value, text);
  }

  /** On columns whose values are bound as text: exactly when the value holds no wildcard and no
      escape and, but for `contains`, is not the word null. */
  lemma TextFilterExactly<Row>(db: Db<Row>, expr: FilterExpression, value: string, columnType: ColumnType)
    requires TellsApart(db.fold) && SearchesText(expr, columnType) && KeptAsText(db.driver, columnType)
    ensures FindsWhatItSays(db, expr.operator, value, columnType) <==> LiteralFilter(db, expr, value, columnType)
  {
    KeptOperand(db, value, columnType);
    if expr.operator == Contains {
      FindsOccurrencesExactly(db, value, columnType);
      LikePattern.ContainsExactly(db.driver, db.fold, value);
    } else if expr.operator == StartsWith {
      FindsPrefixesExactly(db, value, columnType);
      StartsWithExactly(db.driver, db.fold, value);
    } else {
      FindsSuffixesExactly(db, value, columnType);
      EndsWithExactly(db.driver, db.fold, value);
    }
  }

  /** A filter `contains` with "50%" on a text column is true of a row that holds "500", although
      "50%" does not occur in it. */
  lemma FiftyPercentFindsFiveHundred<Row>(db: Db<Row>, row: Row, env: Env, column: string, columnType: ColumnType)
    requires columnType.Textual? && db.fold('%') != db.fold('0') && db.text(Field(env.table, column), row) == Some("500")
    ensures FilterEffect(db, row, env, FilterExpression([column], Contains), "50%", columnType) == True
    ensures FilterMeaning(db, row, env, FilterExpression([column], Contains), "50%", columnType) == False
  {
    assert FilterColumn(env, FilterExpression([column], Contains), columnType) == Field(env.table, column);
    BetweenWildcards(db, "50%", columnType);
    PercentIsWild(db.driver, db.fold);
  }

  lemma MeaningIsEffect<Row>(db: Db<Row>, row: Row, env: Env, t: Term)
    requires t.FilterTerm? ==> LiteralFilter(db, t.expr, t.value, t.columnType)
    ensures Meaning(db, row, env, t) == Effect(db, row, env, t)
  {
    if t.FilterTerm? && SearchesText(t.expr, t.columnType) {
      LiteralFilterMeans(db, t.expr, t.value, t.columnType, db.text(FilterColumn(env, t.expr, t.columnType), row));
    }
  }

  lemma WantedIsRequired<Row>(db: Db<Row>, row: Row, env: Env, terms: seq<Term>)
    requires LiteralTerms(db, terms)
    ensures Wanted(db, row, env, terms) <==> Required(db, row, env, terms)
  {
    forall t | t in terms
      ensures Meaning(db, row, env, t) == Effect(db, row, env, t)
    {
      MeaningIsEffect(db, row, env, t);
    }
  }

  // ---------------------------------------------------------------------------
  // The query accepts exactly the rows that were asked for
  // ---------------------------------------------------------------------------

  lemma AnyOfLast(verdicts: seq<Tri>, last: Tri)
    ensures AnyOf(verdicts + [last]) == Or(AnyOf(verdicts), last)
  {
    assert forall v :: v in verdicts + [last] <==> v in verdicts || v == last;
  }

  lemma {:induction false} AnyEqualIsAmong<Row>(db: Db<Row>, row: Row, column: Column, pieces: seq<string>, columnType: ColumnType)
    ensures AnyEqual(db, row, column, CoercedAll(db.driver, Trimmed(pieces), columnType))
         == Among(db, row, column, pieces, columnType)
  {
    if pieces != [] {
      var init, last := pieces[..|pieces| - 1], pieces[|pieces| - 1];
      AnyEqualIsAmong(db, row, column, init, columnType);
      CoercedLast(db.driver, pieces, columnType);
      AnyEqualLast(db, row, column, CoercedAll(db.driver, Trimmed(init), columnType), Coerce(db.driver, Trim(last), columnType));
      AnyOfLast(PieceVerdicts(db, row, column, init, columnType), PieceEquals(db, row, column, last, columnType));
    }
  }

  lemma {:induction false} VerdictOfPiece<Row>(db: Db<Row>, row: Row, column: Column, pieces: seq<string>, columnType: ColumnType, i: nat)
    requires i < |pieces|
    ensures PieceEquals(db, row, column, pieces[i], columnType) in PieceVerdicts(db, row, column, pieces, columnType)
  {
    if i < |pieces| - 1 {
      VerdictOfPiece(db, row, column, pieces[..|pieces| - 1], columnType, i);
    }
  }

  /** A list that is to be left out accepts no row at all once one of its pieces is the word null. */
  lemma NullPieceEmptiesNotIn<Row>(db: Db<Row>, row: Row, env: Env, path: seq<string>, value: string, columnType: ColumnType, i: nat)
    requires KeptAsText(db.driver, columnType) && i < |Split(value, ',')| && NullWord(Trim(Split(value, ',')[i]))
    ensures FilterEffect(db, row, env, FilterExpression(path, NotIn), value, columnType) != True
  {
    VerdictOfPiece(db, row, FilterColumn(env, FilterExpression(path, NotIn), columnType), Split(value, ','), columnType, i);
  }

  lemma AnyEqualLast<Row>(db: Db<Row>, row: Row, column: Column, values: seq<Value>, last: Value)
    ensures AnyEqual(db, row, column, values + [last])
         == Or(AnyEqual(db, row, column, values), Compared(db, row, column, Eq, last))
  {
    assert (values + [last])[..|values|] == values;
  }

  lemma CoercedLast(driver: Driver, pieces: seq<string>, columnType: ColumnType)
    requires pieces != []
    ensures CoercedAll(driver, Trimmed(pieces), columnType)
         == CoercedAll(driver, Trimmed(pieces[..|pieces| - 1]), columnType)
            + [Coerce(driver, Trim(pieces[|pieces| - 1]), columnType)]
  {
    var trimmed := Trimmed(pieces);
    assert trimmed[..|pieces| - 1] == Trimmed(pieces[..|pieces| - 1]);
  }

  lemma OneValue(driver: Driver, v: string, columnType: ColumnType)
    ensures CoercedAll(driver, [v], columnType) == [Coerce(driver, v, columnType)]
  {
    assert [v][..0] == [];
  }

  lemma ListFilterShape(env: Env, t: Term, base: nat)
    requires t.FilterTerm? && (t.expr.operator == In || t.expr.operator == NotIn)
    ensures Intended(env, t) == CoercedAll(env.driver, Trimmed(Split(t.value, ',')), t.columnType)
    ensures FilterCondition(env, t.expr, t.value, t.columnType, base + 1)
         == InList(FilterColumn(env, t.expr, t.columnType), Placeholders(env.driver, base + 1, |Split(t.value, ',')|),
                   t.expr.operator == NotIn)
  {
  }

  lemma InListMeans<Row>(db: Db<Row>, row: Row, column: Column, slots: seq<Slot>, negated: bool, pieces: seq<string>, columnType: ColumnType)
    requires |slots| == |pieces|
    ensures Eval(db, row, InList(column, slots, negated), CoercedAll(db.driver, Trimmed(pieces), columnType))
         == if negated then Not(Among(db, row, column, pieces, columnType)) else Among(db, row, column, pieces, columnType)
  {
    AnyEqualIsAmong(db, row, column, pieces, columnType);
  }

  /** The condition built for a filter, over the values meant for its slots, has the effect of the filter. */
  ghost predicate Effective<Row>(db: Db<Row>, row: Row, env: Env, t: Term, base: nat)
    requires t.FilterTerm?
  {
    var c := FilterCondition(env, t.expr, t.value, t.columnType, base + 1);
    |Intended(env, t)| == |SlotsOf(c)| && Eval(db, row, c, Intended(env, t)) == Effect(db, row, env, t)
  }

  lemma ListFilterMeans<Row>(db: Db<Row>, row: Row, env: Env, t: Term, base: nat)
    requires t.FilterTerm? && (t.expr.operator == In || t.expr.operator == NotIn) && db.driver == env.driver
    ensures Effective(db, row, env, t, base)
  {
    var pieces := Split(t.value, ',');
    ListFilterShape(env, t, base);
    InListMeans(db, row, FilterColumn(env, t.expr, t.columnType), Placeholders(env.driver, base + 1, |pieces|),
                t.expr.operator == NotIn, pieces, t.columnType);
  }

  lemma FilterMeans<Row>(db: Db<Row>, row: Row, env: Env, t: Term, base: nat)
    requires t.FilterTerm? && db.driver == env.driver
    ensures Effective(db, row, env, t, base)
  {
    match t.expr.operator {
      case In => ListFilterMeans(db, row, env, t, base);
      case NotIn => ListFilterMeans(db, row, env, t, base);
      case Contains =>
        OneValue(env.driver, t.value, t.columnType);
        OneValue(env.driver, "%" + t.value + "%", t.columnType);
      case Exists =>
      case _ => OneValue(env.driver, t.value, t.columnType);
    }
  }

  lemma TermMeans<Row>(db: Db<Row>, row: Row, env: Env, t: Term, base: nat)
    requires !t.PageTerm? && db.driver == env.driver
    ensures CondsOf(env, t, base + 1) == [] ==> Intended(env, t) == [] && Effect(db, row, env, t) == True
    ensures CondsOf(env, t, base + 1) != [] ==>
              && |CondsOf(env, t, base + 1)| == 1
              && |Intended(env, t)| == |SlotsOf(CondsOf(env, t, base + 1)[0])|
              && Eval(db, row, CondsOf(env, t, base + 1)[0], Intended(env, t)) == Effect(db, row, env, t)
  {
    if t.FilterTerm? {
      FilterMeans(db, row, env, t, base);
    }
  }

  lemma PassesAppend<Row>(db: Db<Row>, row: Row, conditions: seq<Cond>, c: Cond, u: seq<Value>, v: seq<Value>)
    requires |u| == |CondSlots(conditions)| && |v| == |SlotsOf(c)|
    ensures |u + v| == |CondSlots(conditions + [c])|
    ensures Passes(db, row, conditions + [c], u + v) <==> Passes(db, row, conditions, u) && Eval(db, row, c, v) == True
  {
    CondSlotsAppend(conditions, c);
    assert (conditions + [c])[..|conditions|] == conditions;
    assert (u + v)[..|u|] == u && (u + v)[|u|..] == v;
  }

  lemma RequiredAppend<Row>(db: Db<Row>, row: Row, env: Env, terms: seq<Term>)
    requires terms != []
    ensures Required(db, row, env, terms)
       <==> Required(db, row, env, terms[..|terms| - 1]) && Effect(db, row, env, terms[|terms| - 1]) == True
  {
    assert terms == terms[..|terms| - 1] + [terms[|terms| - 1]];
  }

  lemma AddedMeans<Row>(db: Db<Row>, row: Row, env: Env, t: Term, base: nat, before: seq<Cond>, u: seq<Value>)
    requires !t.PageTerm? && db.driver == env.driver && |u| == |CondSlots(before)|
    ensures var conditions := before + CondsOf(env, t, base + 1);
            && |u + Intended(env, t)| == |CondSlots(conditions)|
            && (Passes(db, row, conditions, u + Intended(env, t))
                <==> Passes(db, row, before, u) && Effect(db, row, env, t) == True)
  {
    var added := CondsOf(env, t, base + 1);
    TermMeans(db, row, env, t, base);
    if added == [] {
      assert before + added == before && u + [] == u;
    } else {
      assert added == [added[0]];
      PassesAppend(db, row, before, added[0], u, Intended(env, t));
    }
  }

  lemma {:induction false} ConditionsMean<Row>(db: Db<Row>, row: Row, env: Env, terms: seq<Term>)
    requires db.driver == env.driver && forall i :: 0 <= i < |terms| ==> !terms[i].PageTerm?
    ensures |IntendedAll(env, terms)| == |CondSlots(Compiled(env, terms).conditions)|
    ensures Passes(db, row, Compiled(env, terms).conditions, IntendedAll(env, terms)) <==> Required(db, row, env, terms)
  {
    if terms != [] {
      var init, t := terms[..|terms| - 1], terms[|terms| - 1];
      ConditionsMean(db, row, env, init);
      RequiredAppend(db, row, env, terms);
      ParamsArePushed(env, init);
      AddedMeans(db, row, env, t, |Pushed(env, init)|, Compiled(env, init).conditions, IntendedAll(env, init));
    }
  }

  /** The bound values decide, since the slots can stand for no others. */
  lemma SatisfiesBound<Row>(db: Db<Row>, row: Row, c: Clauses, values: seq<Value>)
    requires Binds(CondSlots(c.conditions), 0, c.params, values)
    ensures Satisfies(db, row, c) <==> Passes(db, row, c.conditions, values)
  {
    if Satisfies(db, row, c) {
      var other :| Binds(CondSlots(c.conditions), 0, c.params, other) && Passes(db, row, c.conditions, other);
      BindsOnlyOne(CondSlots(c.conditions), 0, c.params, other, values);
    }
  }

  lemma {:induction false} RowsWithoutPage<Row>(db: Db<Row>, row: Row, env: Env, terms: seq<Term>, more: seq<Value>, c: Clauses)
    requires db.driver == env.driver && ClauseFirst(env, terms) && forall i :: 0 <= i < |terms| ==> !terms[i].PageTerm?
    requires c.conditions == Compiled(env, terms).conditions && c.params == Pushed(env, terms) + more
    ensures Satisfies(db, row, c) <==> Required(db, row, env, terms)
  {
    CondSlotsOfCompiled(env, terms);
    EverySlotGetsItsValue(env, terms);
    BindsStable(AllSlots(env, terms), 0, Pushed(env, terms), more, IntendedAll(env, terms));
    SatisfiesBound(db, row, c, IntendedAll(env, terms));
    ConditionsMean(db, row, env, terms);
  }

  lemma SatisfiesWhatIsRequired<Row>(db: Db<Row>, row: Row, env: Env, terms: seq<Term>)
    requires db.driver == env.driver && ClauseFirst(env, terms) && LimitLast(terms)
    ensures Satisfies(db, row, Compiled(env, terms)) <==> Required(db, row, env, terms)
  {
    ParamsArePushed(env, terms);
    if terms != [] && terms[|terms| - 1].PageTerm? {
      var init := terms[..|terms| - 1];
      ClauseFirstInit(env, terms);
      SlotsOfPage(env, terms);
      RowsWithoutPage(db, row, env, init, ValuesOf(env, terms[|terms| - 1]), Compiled(env, terms));
      RequiredAppend(db, row, env, terms);
    } else {
      assert Pushed(env, terms) + [] == Pushed(env, terms);
      RowsWithoutPage(db, row, env, terms, [], Compiled(env, terms));
    }
  }

  /** A query whose clause is not misnumbered, and whose terms are plain, accepts a row exactly
      when the condition of every term is true of it. */
  lemma AcceptsWhatIsRequired<Row>(db: Db<Row>, row: Row, env: Env, terms: seq<Term>)
    requires db.driver == env.driver && ClauseFirst(env, terms) && LimitLast(terms) && PlainTerms(env, terms)
    ensures Accepts(db, row, Compiled(env, terms)) <==> Required(db, row, env, terms)
  {
    PlainQueryReads(env, terms);
    SatisfiesWhatIsRequired(db, row, env, terms);
  }

  /** Compilation preserves meaning: when moreover the values searched for stand for themselves,
      the query accepts a row exactly when its clause, its key and every filter accept it. */
  lemma AcceptsWhatWasAsked<Row>(db: Db<Row>, row: Row, env: Env, terms: seq<Term>)
    requires db.driver == env.driver && ClauseFirst(env, terms) && LimitLast(terms)
    requires PlainTerms(env, terms) && LiteralTerms(db, terms)
    ensures Accepts(db, row, Compiled(env, terms)) <==> Wanted(db, row, env, terms)
  {
    AcceptsWhatIsRequired(db, row, env, terms);
    WantedIsRequired(db, row, env, terms);
  }

  /** On PostgreSQL a containment filter whose value holds an odd number of quotes, like O'Brien,
      accepts no row, whatever the rows hold. */
  lemma OddQuotesAcceptNothing<Row>(db: Db<Row>, row: Row, env: Env, column: string, value: string)
    requires db.driver == env.driver == Postgres && '\'' !in column && QuotesIn(value) % 2 == 1
    ensures !Accepts(db, row, Compiled(env, [ContainsTerm(column, value)]))
  {
    OddQuotesBreakContainment(env, column, value);
  }

  lemma OneQuote(before: string, after: string)
    requires '\'' !in before && '\'' !in after
    ensures QuotesIn(before + ['\''] + after) == 1
  {
    QuotesConcat(before + ['\''], after);
    QuotesConcat(before, ['\'']);
    assert ['\''][1..] == [];
    NoQuotes(before);
    NoQuotes(after);
  }

  lemma OBrienIsNotFound<Row>(db: Db<Row>, row: Row, env: Env, column: string)
    requires db.driver == env.driver == Postgres && '\'' !in column
    ensures !Accepts(db, row, Compiled(env, [ContainsTerm(column, "O'Brien")]))
  {
    OneQuote("O", "Brien");
    assert "O'Brien" == "O" + ['\''] + "Brien";
    OddQuotesAcceptNothing(db, row, env, column, "O'Brien");
  }

  // ---------------------------------------------------------------------------
  // List and count
  // ---------------------------------------------------------------------------

  lemma LeadingClauseIsFirst(env: Env, terms: seq<Term>)
    requires forall i :: 0 < i < |terms| ==> !terms[i].WhereTerm?
    ensures ClauseFirst(env, terms)
  {
    if terms != [] {
      assert terms[..0] == [];
      assert Base(env, terms, 0) == 0;
    }
  }

  lemma {:induction false} FilterTermsAreFilters(filters: seq<Filter>, allowed: seq<string>, columns: seq<ColumnConfig>)
    requires forall i :: 0 <= i < |filters| ==> Admissible(filters[i], allowed, columns)
    ensures forall i :: 0 <= i < |filters| ==> FilterTerms(filters, allowed, columns)[i] == FilterTermOf(filters[i], allowed, columns)
  {
    if filters != [] {
      FilterTermsAreFilters(filters[..|filters| - 1], allowed, columns);
    }
  }

  lemma SelectionKinds(q: Request)
    requires SelectsRows(q)
    ensures var terms := SelectionTerms(q);
            forall i :: 0 <= i < |terms| ==> (terms[i].WhereTerm? && i == 0) || terms[i].FilterTerm?
  {
    FilterTermsAreFilters(q.filters, q.allowed, q.columns);
  }

  lemma ListKinds(q: Request)
    requires SelectsRows(q)
    ensures var terms := ListTerms(q);
            forall i :: 0 <= i < |terms| ==>
              (terms[i].WhereTerm? && i == 0) || terms[i].FilterTerm? || (terms[i].PageTerm? && i == |terms| - 1)
  {
    SelectionKinds(q);
  }

  /** In a list the clause comes first, so nothing is misnumbered on any database. */
  lemma ListIsWellNumbered(q: Request)
    requires SelectsRows(q)
    ensures ClauseFirst(q.env, ListTerms(q)) && LimitLast(ListTerms(q))
    ensures ClauseFirst(q.env, SelectionTerms(q)) && LimitLast(SelectionTerms(q))
  {
    SelectionKinds(q);
    ListKinds(q);
    LeadingClauseIsFirst(q.env, SelectionTerms(q));
    LeadingClauseIsFirst(q.env, ListTerms(q));
  }

  lemma CountIsListWithoutPage(q: Request)
    requires SelectsRows(q)
    ensures var list, count := Compiled(q.env, ListTerms(q)), Compiled(q.env, SelectionTerms(q));
            list.conditions == count.conditions && count.params <= list.params && count.limit == None
  {
    ListIsSelectionAndPage(q);
    SelectionKinds(q);
    NoLimitYet(q.env, SelectionTerms(q));
    if q.page.Some? {
      ExtendOne(q.env, Compiled(q.env, SelectionTerms(q)), PageTerm(q.page.value));
    }
  }

  lemma ListRequiresSelection<Row>(db: Db<Row>, row: Row, q: Request)
    requires SelectsRows(q)
    ensures Required(db, row, q.env, ListTerms(q)) <==> Required(db, row, q.env, SelectionTerms(q))
  {
    if q.page.Some? {
      assert ListTerms(q)[..|ListTerms(q)| - 1] == SelectionTerms(q);
      RequiredAppend(db, row, q.env, ListTerms(q));
    } else {
      assert ListTerms(q) == SelectionTerms(q);
    }
  }

  /** The clause is configured so that it can be read on its own. */
  predicate PlainTemplate(driver: Driver, template: Template) {
    PlainClause(driver, HoleTexts(template.holes) + [template.tail])
  }

  ghost predicate PlainFilters(q: Request)
    requires SelectsRows(q)
  {
    forall f :: f in q.filters ==> PlainTerm(q.env, FilterTermOf(f, q.allowed, q.columns))
  }

  ghost predicate PlainRequest(q: Request)
    requires SelectsRows(q)
  {
    (q.clause.Some? ==> PlainTemplate(q.env.driver, q.clause.value)) && PlainFilters(q)
  }

  ghost predicate LiteralRequest<Row>(db: Db<Row>, q: Request)
    requires SelectsRows(q)
  {
    forall f :: f in q.filters ==>
      var t := FilterTermOf(f, q.allowed, q.columns); LiteralFilter(db, t.expr, t.value, t.columnType)
  }

  lemma {:induction false} HoleTextsLength(holes: seq<Hole>)
    ensures |HoleTexts(holes)| == |holes|
  {
    if holes != [] {
      HoleTextsLength(holes[..|holes| - 1]);
    }
  }

  lemma PlainWhereTerms(q: Request)
    requires SelectsRows(q) && (q.clause.Some? ==> PlainTemplate(q.env.driver, q.clause.value))
    ensures PlainTerms(q.env, WhereTerms(q.clause, q.context))
  {
    if q.clause.Some? {
      HoleTextsLength(q.clause.value.holes);
    }
  }

  lemma FiltersArePlain(q: Request)
    requires SelectsRows(q)
    ensures PlainTerms(q.env, FilterTerms(q.filters, q.allowed, q.columns)) <==> PlainFilters(q)
  {
    var fs := FilterTerms(q.filters, q.allowed, q.columns);
    FilterTermsAreFilters(q.filters, q.allowed, q.columns);
    if PlainTerms(q.env, fs) {
      forall f | f in q.filters
        ensures PlainTerm(q.env, FilterTermOf(f, q.allowed, q.columns))
      {
        var i :| 0 <= i < |q.filters| && q.filters[i] == f;
        assert PlainTerm(q.env, fs[i]);
      }
    }
    if PlainFilters(q) {
      forall i | 0 <= i < |fs|
        ensures PlainTerm(q.env, fs[i])
      {
        assert q.filters[i] in q.filters;
      }
    }
  }

  lemma PlainTermsConcat(env: Env, a: seq<Term>, b: seq<Term>)
    requires PlainTerms(env, a) && PlainTerms(env, b)
    ensures PlainTerms(env, a + b)
  {
  }

  lemma PlainRequestTerms(q: Request)
    requires SelectsRows(q) && PlainRequest(q)
    ensures PlainTerms(q.env, SelectionTerms(q)) && PlainTerms(q.env, ListTerms(q))
  {
    PlainWhereTerms(q);
    FiltersArePlain(q);
    PlainTermsConcat(q.env, WhereTerms(q.clause, q.context), FilterTerms(q.filters, q.allowed, q.columns));
    PlainTermsConcat(q.env, SelectionTerms(q), PageTerms(q.page));
  }

  /** With a clause that can be read on its own, the text of a list is read as it was written
      exactly when every filter is plain. */
  lemma ListReadsExactly(q: Request)
    requires SelectsRows(q) && (q.clause.Some? ==> PlainTemplate(q.env.driver, q.clause.value))
    ensures WhereReads(q.env.driver, Compiled(q.env, ListTerms(q)).conditions) <==> PlainFilters(q)
  {
    PlainWhereTerms(q);
    FilterTermsAreFilters(q.filters, q.allowed, q.columns);
    FiltersReadExactly(q.env, WhereTerms(q.clause, q.context), FilterTerms(q.filters, q.allowed, q.columns));
    FiltersArePlain(q);
    CountIsListWithoutPage(q);
  }

  /** A list and its count accept the same rows, if their filters are plain. */
  lemma CountSelectsTheSameRows<Row>(db: Db<Row>, row: Row, q: Request)
    requires SelectsRows(q) && PlainRequest(q) && db.driver == q.env.driver
    ensures var list, count := Compiled(q.env, ListTerms(q)), Compiled(q.env, SelectionTerms(q));
            && (Accepts(db, row, list) <==> Accepts(db, row, count))
            && (Accepts(db, row, list) <==> Required(db, row, q.env, SelectionTerms(q)))
  {
    ListIsWellNumbered(q);
    PlainRequestTerms(q);
    AcceptsWhatIsRequired(db, row, q.env, ListTerms(q));
    AcceptsWhatIsRequired(db, row, q.env, SelectionTerms(q));
    ListRequiresSelection(db, row, q);
  }

  /** Both select the rows that the clause and every filter ask for, if the values searched for
      stand for themselves as well. */
  lemma ListSelectsWhatWasAsked<Row>(db: Db<Row>, row: Row, q: Request)
    requires SelectsRows(q) && PlainRequest(q) && LiteralRequest(db, q) && db.driver == q.env.driver
    ensures Accepts(db, row, Compiled(q.env, ListTerms(q))) <==> SelectionWanted(db, row, q)
  {
    CountSelectsTheSameRows(db, row, q);
    LiteralRequestTerms(db, q);
    WantedIsRequired(db, row, q.env, SelectionTerms(q));
    WantedIsSelectionWanted(db, row, q);
  }

  lemma LiteralRequestTerms<Row>(db: Db<Row>, q: Request)
    requires SelectsRows(q) && LiteralRequest(db, q)
    ensures LiteralTerms(db, SelectionTerms(q))
  {
    var fs := FilterTerms(q.filters, q.allowed, q.columns);
    FilterTermsAreFilters(q.filters, q.allowed, q.columns);
    forall t | t in SelectionTerms(q) && t.FilterTerm?
      ensures LiteralFilter(db, t.expr, t.value, t.columnType)
    {
      assert t in fs;
      var i :| 0 <= i < |fs| && fs[i] == t;
      assert q.filters[i] in q.filters;
    }
  }

  /** The configured clause and every filter are true of the row. */
  ghost predicate SelectionWanted<Row>(db: Db<Row>, row: Row, q: Request)
    requires SelectsRows(q)
  {
    && (q.clause.Some? ==> Meaning(db, row, q.env, WhereTermOf(q.clause.value, q.context)) == True)
    && (forall f :: f in q.filters ==> Meaning(db, row, q.env, FilterTermOf(f, q.allowed, q.columns)) == True)
  }

  lemma WantedIsSelectionWanted<Row>(db: Db<Row>, row: Row, q: Request)
    requires SelectsRows(q)
    ensures Wanted(db, row, q.env, SelectionTerms(q)) <==> SelectionWanted(db, row, q)
  {
    var ws, fs := WhereTerms(q.clause, q.context), FilterTerms(q.filters, q.allowed, q.columns);
    FilterTermsAreFilters(q.filters, q.allowed, q.columns);
    assert forall t :: t in SelectionTerms(q) <==> t in ws || t in fs;
    if Wanted(db, row, q.env, SelectionTerms(q)) {
      forall f | f in q.filters
        ensures Meaning(db, row, q.env, FilterTermOf(f, q.allowed, q.columns)) == True
      {
        var i :| 0 <= i < |q.filters| && q.filters[i] == f;
        assert fs[i] in fs;
      }
      if q.clause.Some? {
        assert ws[0] in ws;
      }
    }
    if SelectionWanted(db, row, q) {
      forall t | t in fs
        ensures Meaning(db, row, q.env, t) == True
      {
        var i :| 0 <= i < |fs| && fs[i] == t;
        assert q.filters[i] in q.filters;
      }
    }
  }

  /** The order in which plain filters are iterated does not matter. */
  lemma FilterOrderIsIrrelevant<Row>(db: Db<Row>, row: Row, q: Request, p: Request)
    requires SelectsRows(q) && PlainRequest(q) && db.driver == q.env.driver
    requires multiset(p.filters) == multiset(q.filters) && p == q.(filters := p.filters)
    ensures SelectsRows(p)
    ensures Accepts(db, row, Compiled(q.env, ListTerms(q))) <==> Accepts(db, row, Compiled(p.env, ListTerms(p)))
  {
    SameMembers(p.filters, q.filters);
    SameFiltersSelect(q, p);
    CountSelectsTheSameRows(db, row, q);
    CountSelectsTheSameRows(db, row, p);
    RequiredIsOfFilters(db, row, q);
    RequiredIsOfFilters(db, row, p);
  }

  lemma RequiredIsOfFilters<Row>(db: Db<Row>, row: Row, q: Request)
    requires SelectsRows(q)
    ensures Required(db, row, q.env, SelectionTerms(q))
       <==> && Required(db, row, q.env, WhereTerms(q.clause, q.context))
            && forall f :: f in q.filters ==> Effect(db, row, q.env, FilterTermOf(f, q.allowed, q.columns)) == True
  {
    var ws, fs := WhereTerms(q.clause, q.context), FilterTerms(q.filters, q.allowed, q.columns);
    FilterTermsAreFilters(q.filters, q.allowed, q.columns);
    assert forall t :: t in SelectionTerms(q) <==> t in ws || t in fs;
    if Required(db, row, q.env, fs) {
      forall f | f in q.filters
        ensures Effect(db, row, q.env, FilterTermOf(f, q.allowed, q.columns)) == True
      {
        var i :| 0 <= i < |q.filters| && q.filters[i] == f;
        assert fs[i] in fs;
      }
    }
    if forall f :: f in q.filters ==> Effect(db, row, q.env, FilterTermOf(f, q.allowed, q.columns)) == True {
      forall t | t in fs
        ensures Effect(db, row, q.env, t) == True
      {
        var i :| 0 <= i < |fs| && fs[i] == t;
        assert q.filters[i] in q.filters;
      }
    }
  }

  lemma SameMembers<T>(a: seq<T>, b: seq<T>)
    requires multiset(a) == multiset(b)
    ensures forall x :: x in a <==> x in b
  {
    forall x
      ensures x in a <==> x in b
    {
      assert x in a <==> x in multiset(a);
      assert x in b <==> x in multiset(b);
    }
  }

  lemma SameFiltersSelect(q: Request, p: Request)
    requires SelectsRows(q) && p == q.(filters := p.filters) && forall f :: f in p.filters ==> f in q.filters
    ensures SelectsRows(p)
  {
    forall i | 0 <= i < |p.filters|
      ensures Admissible(p.filters[i], p.allowed, p.columns)
    {
      assert p.filters[i] in p.filters;
    }
  }

  // ---------------------------------------------------------------------------
  // A single record
  // ---------------------------------------------------------------------------

  /** The clause of a single-record query follows the key; exactly when that does no harm: */
  lemma OneIsWellNumbered(q: Request, pkColumn: string, key: Value)
    requires q.clause.Some? ==> Resolvable(q.clause.value, q.context)
    ensures LimitLast(OneTerms(q, pkColumn, key))
    ensures ClauseFirst(q.env, OneTerms(q, pkColumn, key))
       <==> q.env.driver != Postgres || IsSentinel(key) || q.clause.None? || q.clause.value.holes == []
  {
    var terms := OneTerms(q, pkColumn, key);
    assert terms[..0] == [] && terms[0] == PkTerm(pkColumn, key);
    assert terms[..1] == [PkTerm(pkColumn, key)] && [PkTerm(pkColumn, key)][..0] == [];
    assert Pushed(q.env, terms[..1]) == [] + ValuesOf(q.env, PkTerm(pkColumn, key));
    assert Base(q.env, terms, 1) == if IsSentinel(key) then 0 else 1;
    if q.clause.Some? {
      assert terms[1] == WhereTermOf(q.clause.value, q.context);
      assert Misnumbered(q.env, terms[1], Base(q.env, terms, 1))
        <==> q.env.driver == Postgres && !IsSentinel(key) && q.clause.value.holes != [];
      assert forall i :: 0 <= i < |terms| && i != 1 ==> !terms[i].WhereTerm?;
    } else {
      assert forall i :: 0 <= i < |terms| ==> !terms[i].WhereTerm?;
    }
  }

  lemma OneIsPlain(q: Request, pkColumn: string, key: Value)
    requires q.clause.Some? ==> Resolvable(q.clause.value, q.context) && PlainTemplate(q.env.driver, q.clause.value)
    requires PlainName(pkColumn)
    ensures PlainTerms(q.env, OneTerms(q, pkColumn, key))
  {
    if q.clause.Some? {
      HoleTextsLength(q.clause.value.holes);
      assert PlainTerm(q.env, WhereTermOf(q.clause.value, q.context));
    }
  }

  lemma RequiredOfThree<Row>(db: Db<Row>, row: Row, env: Env, a: Term, b: seq<Term>, c: Term)
    ensures Required(db, row, env, [a] + b + [c])
       <==> Effect(db, row, env, a) == True && Required(db, row, env, b) && Effect(db, row, env, c) == True
  {
    assert forall t :: t in [a] + b + [c] <==> t == a || t in b || t == c;
  }

  lemma KeyEffect<Row>(db: Db<Row>, row: Row, env: Env, pkColumn: string, key: Value)
    ensures Effect(db, row, env, PkTerm(pkColumn, key)) == True
       <==> key != Number(-0x8000_0000_0000_0000) && key != Null && db.compare(Bare(pkColumn), Eq, key, row) == True
    ensures Effect(db, row, env, OneTerm) == True
  {
  }

  /** The configured clause, if there is one, is true of the row. */
  ghost predicate ClauseHolds<Row>(db: Db<Row>, row: Row, q: Request)
    requires q.clause.Some? ==> Resolvable(q.clause.value, q.context)
  {
    q.clause.Some? ==>
      db.clause(HoleTexts(q.clause.value.holes) + [q.clause.value.tail], HoleValues(q.clause.value.holes, q.context), row) == True
  }

  lemma ClauseEffect<Row>(db: Db<Row>, row: Row, q: Request)
    requires q.clause.Some? ==> Resolvable(q.clause.value, q.context)
    ensures Required(db, row, q.env, WhereTerms(q.clause, q.context)) <==> ClauseHolds(db, row, q)
  {
    if q.clause.Some? {
      assert WhereTermOf(q.clause.value, q.context) in WhereTerms(q.clause, q.context);
    }
  }

  /** Where that does no harm, the record with the key is selected if the clause accepts it, and none
      for the key that stands for a path segment that is no integer. */
  lemma OneSelectsItsKey<Row>(db: Db<Row>, row: Row, q: Request, pkColumn: string, key: Value)
    requires db.driver == q.env.driver && PlainName(pkColumn)
    requires q.clause.Some? ==> Resolvable(q.clause.value, q.context) && PlainTemplate(q.env.driver, q.clause.value)
    requires q.env.driver != Postgres || key == Number(-0x8000_0000_0000_0000) || q.clause.None? || q.clause.value.holes == []
    ensures Accepts(db, row, Compiled(q.env, OneTerms(q, pkColumn, key)))
       <==> && key != Number(-0x8000_0000_0000_0000) && key != Null && db.compare(Bare(pkColumn), Eq, key, row) == True
            && ClauseHolds(db, row, q)
  {
    OneIsWellNumbered(q, pkColumn, key);
    OneIsPlain(q, pkColumn, key);
    AcceptsWhatIsRequired(db, row, q.env, OneTerms(q, pkColumn, key));
    RequiredOfThree(db, row, q.env, PkTerm(pkColumn, key), WhereTerms(q.clause, q.context), OneTerm);
    KeyEffect(db, row, q.env, pkColumn, key);
    ClauseEffect(db, row, q);
  }

  /** The values that the clause of a single-record query is evaluated with on PostgreSQL. */
  ghost function Shifted(key: Value, values: seq<Value>): seq<Value> {
    ([key] + values)[..|values|]
  }

  /** Placeholders numbered from 1 stand for the first parameters. */
  lemma NumberedFromOne(params: seq<Value>, n: nat)
    requires n <= |params|
    ensures Binds(Placeholders(Postgres, 1, n), 0, params, params[..n])
    ensures QuestionsIn(Placeholders(Postgres, 1, n)) == 0
  {
    PlaceholdersBind(Postgres, 1, n, 0, params, params[..n]);
    PlaceholdersAsk(Postgres, 1, n);
  }

  /** Two runs of placeholders that are both numbered from 1 share parameters. */
  lemma NumberedFromOneTwice(params: seq<Value>, m: nat, n: nat)
    requires m <= |params| && n <= |params|
    ensures Binds(Placeholders(Postgres, 1, m) + Placeholders(Postgres, 1, n), 0, params, params[..m] + params[..n])
  {
    var a, b := Placeholders(Postgres, 1, m), Placeholders(Postgres, 1, n);
    NumberedFromOne(params, m);
    NumberedFromOne(params, n);
    BindsBoth(a, b, params, params[..m], params[..n]);
  }

  lemma BindsBoth(a: seq<Slot>, b: seq<Slot>, params: seq<Value>, u: seq<Value>, v: seq<Value>)
    requires Binds(a, 0, params, u) && Binds(b, 0, params, v) && QuestionsIn(a) == 0
    ensures Binds(a + b, 0, params, u + v)
  {
    BindsConcat(a, b, 0, params, u, v);
  }

  lemma TwoConditionsPass<Row>(db: Db<Row>, row: Row, a: Cond, b: Cond, u: seq<Value>, v: seq<Value>)
    requires |u| == |SlotsOf(a)| && |v| == |SlotsOf(b)|
    ensures CondSlots([a, b]) == SlotsOf(a) + SlotsOf(b)
    ensures Passes(db, row, [a, b], u + v) <==> Eval(db, row, a, u) == True && Eval(db, row, b, v) == True
  {
    assert [] + [a] == [a] && [a] + [b] == [a, b] && [] + u == u && [] + SlotsOf(a) == SlotsOf(a);
    CondSlotsAppend([], a);
    CondSlotsAppend([a], b);
    PassesAppend(db, row, [], a, [], u);
    PassesAppend(db, row, [a], b, u, v);
  }

  /** Otherwise the clause is evaluated with the key in the place of its first value, its
      first value in the place of the second, and so on; its last value is never used. */
  lemma OneMisbindsItsClause<Row>(db: Db<Row>, row: Row, q: Request, pkColumn: string, key: Value)
    requires db.driver == q.env.driver == Postgres && !IsSentinel(key) && PlainName(pkColumn)
    requires q.clause.Some? && Resolvable(q.clause.value, q.context) && q.clause.value.holes != []
    requires PlainTemplate(Postgres, q.clause.value)
    ensures Accepts(db, row, Compiled(q.env, OneTerms(q, pkColumn, key)))
       <==> && Compared(db, row, Bare(pkColumn), Eq, key) == True
            && db.clause(WhereTermOf(q.clause.value, q.context).texts,
                         Shifted(key, HoleValues(q.clause.value.holes, q.context)), row) == True
  {
    var values := HoleValues(q.clause.value.holes, q.context);
    var texts := WhereTermOf(q.clause.value, q.context).texts;
    OneReads(q, pkColumn, key);
    OneCompiled(q, pkColumn, key);
    var c := Compiled(q.env, OneTerms(q, pkColumn, key));
    TwoConditionsPass(db, row, Compare(Bare(pkColumn), Eq, Dollar(1)), Clause(texts, Placeholders(Postgres, 1, |values|)),
                      [key], Shifted(key, values));
    NumberedFromOneTwice(c.params, 1, |values|);
    PlaceholdersUpToTwo(Postgres, 1);
    assert c.params[..1] == [key];
    SatisfiesBound(db, row, c, [key] + Shifted(key, values));
  }

  lemma OneReads(q: Request, pkColumn: string, key: Value)
    requires PlainName(pkColumn) && q.clause.Some? && Resolvable(q.clause.value, q.context)
    requires PlainTemplate(q.env.driver, q.clause.value)
    ensures WhereReads(q.env.driver, Compiled(q.env, OneTerms(q, pkColumn, key)).conditions)
  {
    var terms, where_ := OneTerms(q, pkColumn, key), WhereTermOf(q.clause.value, q.context);
    HoleTextsLength(q.clause.value.holes);
    assert terms == [PkTerm(pkColumn, key), where_, OneTerm];
    assert PlainTerm(q.env, where_);
    PlainQueryReads(q.env, terms);
  }

  lemma OneCompiled(q: Request, pkColumn: string, key: Value)
    requires q.env.driver == Postgres && !IsSentinel(key)
    requires q.clause.Some? && Resolvable(q.clause.value, q.context)
    ensures var values, c := HoleValues(q.clause.value.holes, q.context), Compiled(q.env, OneTerms(q, pkColumn, key));
            && c.params == [key] + values
            && c.conditions == [Compare(Bare(pkColumn), Eq, Dollar(1)),
                                Clause(WhereTermOf(q.clause.value, q.context).texts, Placeholders(Postgres, 1, |values|))]
  {
    var pk, where_ := PkTerm(pkColumn, key), WhereTermOf(q.clause.value, q.context);
    ExtendOne(q.env, NO_CLAUSES, pk);
    ExtendAppend(q.env, NO_CLAUSES, [pk], where_);
    ExtendAppend(q.env, NO_CLAUSES, [pk] + [where_], OneTerm);
    assert OneTerms(q, pkColumn, key) == [pk] + [where_] + [OneTerm];
  }
}
