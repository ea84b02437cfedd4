/** The SQL that filters are written as, by the names they are documented under. */
module SelectWording {
  import opened Wrappers
  import opened Strings
  import opened SqlText
  import opened JsonText
  import opened PathText
  import opened FilterKeys
  import opened LikePattern
  import opened SlotText
  import opened SelectText
  import opened SelectQuery
  import opened SelectReading
  import opened SelectMeaning
  import opened NamedFilters
  import Numerals

  // ---------------------------------------------------------------------------
  // The words
  // ---------------------------------------------------------------------------

  /** The `index`-th parameter. */
  function Parameter(driver: Driver, index: nat): string {
    match driver
    case Postgres => "$" + Numerals.Decimal(index)
    case Mysql => "?"
    case Sqlite => "?"
  }

  /** `count` parameters, separated by commas. */
  function ParameterList(driver: Driver, index: nat, count: nat): string {
    if count == 0 then ""
    else if count == 1 then Parameter(driver, index)
    else ParameterList(driver, index, count - 1) + ", " + Parameter(driver, index + count - 1)
  }

  /** A column, or the value below a document column, where the database tells text from JSON. */
  function ColumnWord(driver: Driver, table: string, f: NamedFilter, columnType: ColumnType): string {
    if !OnDocument(f, columnType) then table + "." + f.column
    else match driver
      case Postgres => "(" + f.column + " #>> " + Between("{" + Join(f.path, ',') + "}") + ")"
      case Mysql => "JSON_UNQUOTE(JSON_EXTRACT(" + f.column + ", " + Between("$." + Join(f.path, '.')) + "))"
      case Sqlite => "json_extract(" + f.column + ", " + Between("$." + Join(f.path, '.')) + ")"
  }

  function Between(text: string): string {
    "'" + text + "'"
  }

  /** The condition that a filter adds when `index` is the number of the next parameter. */
  function Wording(driver: Driver, table: string, f: NamedFilter, columnType: ColumnType, index: nat): string {
    var column, value := ColumnWord(driver, table, f, columnType), Parameter(driver, index);
    var list := ParameterList(driver, index, |Split(f.value, ',')|);
    match NameOf(f)
    case "eq" => column + " = " + value
    case "ne" => column + (if driver == Postgres then " <> " else " != ") + value
    case "gt" => column + " > " + value
    case "gte" => column + " >= " + value
    case "lt" => column + " < " + value
    case "lte" => column + " <= " + value
    case "in" => column + " IN (" + list + ")"
    case "not_in" => "NOT " + column + " IN (" + list + ")"
    case "contains" => if OnDocument(f, columnType) then Containment(driver, f, value) else column + " LIKE " + value
    case "exists" => column + " IS NOT NULL"
    case "startswith" => column + " LIKE " + ("CONCAT(" + value + ", '%')")
    case "endswith" => column + " LIKE " + ("CONCAT('%', " + value + ")")
    case "like" => column + " LIKE " + value
    case "ilike" => "LOWER(" + column + (if driver == Postgres then ") ILIKE LOWER(" else ") LIKE LOWER(") + value + ")"
    case _ => ""
  }

  /** Containment, in the whole document or in the value at a path below it. */
  function Containment(driver: Driver, f: NamedFilter, value: string): string {
    var whole := f.path == [] || f.path == [[]];
    match driver
    case Postgres =>
      var operand := Between(JsonString(f.value)) + "::jsonb";
      if whole then f.column + " @> " + operand
      else if |f.path| == 1 then "(" + f.column + "->" + Between(f.path[0]) + ")" + " @> " + operand
      else "(" + f.column + " #> " + Between("{" + Join(f.path, ',') + "}") + ")" + " @> " + operand
    case Mysql =>
      if whole then "JSON_CONTAINS(" + f.column + ", JSON_QUOTE(" + value + "))"
      else "JSON_CONTAINS(JSON_EXTRACT(" + f.column + ", " + Between("$." + Join(f.path, '.')) + "), JSON_QUOTE(" + value + "))"
    case Sqlite =>
      if whole then "EXISTS (SELECT 1 FROM json_each(" + f.column + ", " + Between("$") + ") WHERE value = " + value + ")"
      else "json_extract(" + f.column + ", " + Between("$." + Join(f.path, '.')) + ") = " + value
  }

  // ---------------------------------------------------------------------------
  // The text of fragments
  // ---------------------------------------------------------------------------

  lemma RawText(text: string)
    ensures TextOf([Raw(text)]) == text
  {
    assert TextOf([Raw(text)][1..]) == [];
    assert text + [] == text;
  }

  lemma QuotedText(text: string)
    ensures TextOf([Quoted(text)]) == ['\''] + text + ['\'']
  {
    assert TextOf([Quoted(text)][1..]) == [];
    assert FragmentText(Quoted(text)) + [] == FragmentText(Quoted(text));
  }

  /** Fragments, a text, and more fragments. */
  lemma AroundText(a: seq<Fragment>, text: string, b: seq<Fragment>)
    ensures TextOf(a + [Raw(text)] + b) == TextOf(a) + text + TextOf(b)
  {
    TextConcat(a + [Raw(text)], b);
    TextConcat(a, [Raw(text)]);
    RawText(text);
  }

  /** A text, fragments, and a text. */
  lemma InsideText(before: string, a: seq<Fragment>, after: string)
    ensures TextOf([Raw(before)] + a + [Raw(after)]) == before + TextOf(a) + after
  {
    TextConcat([Raw(before)] + a, [Raw(after)]);
    TextConcat([Raw(before)], a);
    RawText(before);
    RawText(after);
  }

  lemma BehindText(a: seq<Fragment>, text: string)
    ensures TextOf(a + [Raw(text)]) == TextOf(a) + text
    ensures TextOf([Raw(text)] + a) == text + TextOf(a)
  {
    TextConcat(a, [Raw(text)]);
    TextConcat([Raw(text)], a);
    RawText(text);
  }

  lemma QuotedInside(before: string, text: string, after: string)
    ensures TextOf([Raw(before), Quoted(text), Raw(after)]) == before + (['\''] + text + ['\'']) + after
  {
    InsideText(before, [Quoted(text)], after);
    QuotedText(text);
    assert [Raw(before)] + [Quoted(text)] + [Raw(after)] == [Raw(before), Quoted(text), Raw(after)];
  }

  // ---------------------------------------------------------------------------
  // Slots and columns
  // ---------------------------------------------------------------------------

  lemma SlotWord(driver: Driver, index: nat)
    ensures TextOf(SlotFragments(Placeholder(driver, index))) == Parameter(driver, index)
  {
    RawText(['$'] + Numerals.Decimal(index));
    RawText("?");
  }

  lemma MoreSlots(driver: Driver, index: nat, count: nat, comma: string)
    requires count > 1 && comma == ", "
    ensures TextOf(SlotList(Placeholders(driver, index, count)))
         == TextOf(SlotList(Placeholders(driver, index, count - 1))) + comma + TextOf(SlotFragments(Placeholder(driver, index + count - 1)))
  {
    var slots := Placeholders(driver, index, count);
    assert slots[..count - 1] == Placeholders(driver, index, count - 1);
    AroundText(SlotList(slots[..count - 1]), comma, SlotFragments(slots[count - 1]));
  }

  lemma {:induction false} SlotListWord(driver: Driver, index: nat, count: nat)
    ensures TextOf(SlotList(Placeholders(driver, index, count))) == ParameterList(driver, index, count)
  {
    if count == 1 {
      assert Placeholders(driver, index, 1) == [Placeholder(driver, index)];
      SlotWord(driver, index);
    } else if count > 1 {
      SlotListWord(driver, index, count - 1);
      MoreSlots(driver, index, count, ", ");
      SlotWord(driver, index + count - 1);
    }
  }

  lemma ColumnText(driver: Driver, table: string, f: NamedFilter, columnType: ColumnType)
    ensures TextOf(ColumnFragments(driver, ColumnOf(table, f, columnType))) == ColumnWord(driver, table, f, columnType)
  {
    if OnDocument(f, columnType) {
      match driver
      case Postgres => QuotedInside("(" + f.column + " #>> ", ArrayText(f.path), ")");
      case Mysql => QuotedInside("JSON_UNQUOTE(JSON_EXTRACT(" + f.column + ", ", DollarPath(f.path), "))");
      case Sqlite => QuotedInside("json_extract(" + f.column + ", ", DollarPath(f.path), ")");
    } else {
      RawText(table + "." + f.column);
    }
  }

  // ---------------------------------------------------------------------------
  // Conditions
  // ---------------------------------------------------------------------------

  lemma CompareText(driver: Driver, column: Column, op: Comparison, slot: Slot)
    ensures TextOf(CondFragments(driver, Compare(column, op, slot)))
         == TextOf(ColumnFragments(driver, column)) + ComparisonText(driver, op) + TextOf(SlotFragments(slot))
  {
    AroundText(ColumnFragments(driver, column), ComparisonText(driver, op), SlotFragments(slot));
  }

  lemma ListedText(column: seq<Fragment>, list: seq<Fragment>, open: string, close: string)
    ensures TextOf(column + [Raw(open)] + list + [Raw(close)]) == TextOf(column) + open + TextOf(list) + close
  {
    AroundText(column, open, list);
    BehindText(column + [Raw(open)] + list, close);
  }

  lemma NegatedText(column: seq<Fragment>, list: seq<Fragment>, not_: string, open: string, close: string)
    ensures TextOf([Raw(not_)] + column + [Raw(open)] + list + [Raw(close)]) == not_ + TextOf(column) + open + TextOf(list) + close
  {
    BehindText(column, not_);
    ListedText([Raw(not_)] + column, list, open, close);
  }

  lemma InListText(driver: Driver, column: Column, slots: seq<Slot>)
    ensures TextOf(CondFragments(driver, InList(column, slots, false)))
         == TextOf(ColumnFragments(driver, column)) + " IN (" + TextOf(SlotList(slots)) + ")"
  {
    var a := ColumnFragments(driver, column);
    ListedText(a, SlotList(slots), " IN (", ")");
    assert [] + a == a;
  }

  lemma NotInListText(driver: Driver, column: Column, slots: seq<Slot>)
    ensures TextOf(CondFragments(driver, InList(column, slots, true)))
         == "NOT " + TextOf(ColumnFragments(driver, column)) + " IN (" + TextOf(SlotList(slots)) + ")"
  {
    NegatedText(ColumnFragments(driver, column), SlotList(slots), "NOT ", " IN (", ")");
  }

  lemma LikeText(driver: Driver, column: Column, pattern: Pattern, slot: Slot, word: string)
    requires word == " LIKE "
    ensures TextOf(CondFragments(driver, Like(column, pattern, slot, false)))
         == TextOf(ColumnFragments(driver, column)) + word + TextOf(PatternFragments(pattern, slot))
  {
    AroundText(ColumnFragments(driver, column), word, PatternFragments(pattern, slot));
  }

  lemma WildcardText(open: string, close: string)
    ensures TextOf([Raw(open), Quoted("%"), Raw(close)]) == open + "'%'" + close
  {
    QuotedInside(open, "%", close);
    assert ['\''] + "%" + ['\''] == "'%'";
  }

  lemma StartPattern(slot: Slot, open: string, rest: string)
    requires open == "CONCAT(" && rest == ", '%')"
    ensures TextOf(PatternFragments(StartingWith, slot)) == open + TextOf(SlotFragments(slot)) + rest
  {
    var v, tail := SlotFragments(slot), [Raw(", "), Quoted("%"), Raw(")")];
    WildcardText(", ", ")");
    assert ", " + "'%'" + ")" == ", '%')";
    BehindText(v, open);
    TextConcat([Raw(open)] + v, tail);
    assert PatternFragments(StartingWith, slot) == [Raw(open)] + v + tail;
  }

  lemma EndPattern(slot: Slot, front: string, close: string)
    requires front == "CONCAT('%', " && close == ")"
    ensures TextOf(PatternFragments(EndingWith, slot)) == front + TextOf(SlotFragments(slot)) + close
  {
    var v, head := SlotFragments(slot), [Raw("CONCAT("), Quoted("%"), Raw(", ")];
    WildcardText("CONCAT(", ", ");
    assert "CONCAT(" + "'%'" + ", " == "CONCAT('%', ";
    TextConcat(head, v);
    BehindText(head + v, close);
    assert PatternFragments(EndingWith, slot) == head + v + [Raw(close)];
  }

  lemma ILikeText(driver: Driver, column: Column, slot: Slot, open: string, word: string, close: string)
    requires open == "LOWER(" && word == (if driver == Postgres then ") ILIKE LOWER(" else ") LIKE LOWER(") && close == ")"
    ensures TextOf(CondFragments(driver, Like(column, Whole, slot, true)))
         == open + TextOf(ColumnFragments(driver, column)) + word + TextOf(SlotFragments(slot)) + close
  {
    var a, b := ColumnFragments(driver, column), SlotFragments(slot);
    BehindText(a, open);
    AroundText([Raw(open)] + a, word, b);
    BehindText([Raw(open)] + a + [Raw(word)] + b, close);
  }

  lemma NotNullText(driver: Driver, column: Column, word: string)
    requires word == " IS NOT NULL"
    ensures TextOf(CondFragments(driver, NotNull(column))) == TextOf(ColumnFragments(driver, column)) + word
  {
    BehindText(ColumnFragments(driver, column), word);
  }

  lemma ContainsText(driver: Driver, name: string, path: seq<string>, slot: Slot)
    ensures TextOf(CondFragments(driver, JsonContains(name, path, slot)))
         == TextOf(ContainsFragments(driver, name, path).0) + TextOf(SlotFragments(slot)) + TextOf(ContainsFragments(driver, name, path).1)
  {
    var (a, c) := ContainsFragments(driver, name, path);
    TextConcat(a + SlotFragments(slot), c);
    TextConcat(a, SlotFragments(slot));
  }

  // ---- Containment ------------------------------------------------------------

  lemma LiteralText(text: string)
    ensures TextOf(SlotFragments(Literal(text))) == Between(JsonString(text)) + "::jsonb"
  {
    var cast := "::jsonb";
    BehindText([Quoted(JsonString(text))], cast);
    QuotedText(JsonString(text));
    assert [Quoted(JsonString(text))] + [Raw(cast)] == [Quoted(JsonString(text)), Raw(cast)];
  }

  lemma OperandText(front: seq<Fragment>, word: string, slot: Slot, contains: string)
    requires TextOf(front) == word
    ensures TextOf(front + [Raw(contains)] + SlotFragments(slot) + []) == word + contains + TextOf(SlotFragments(slot))
  {
    AroundText(front, contains, SlotFragments(slot));
    assert front + [Raw(contains)] + SlotFragments(slot) + [] == front + [Raw(contains)] + SlotFragments(slot);
  }

  lemma PostgresWhole(name: string, path: seq<string>, slot: Slot)
    requires EmptyPath(path)
    ensures TextOf(CondFragments(Postgres, JsonContains(name, path, slot))) == name + " @> " + TextOf(SlotFragments(slot))
  {
    RawText(name);
    OperandText([Raw(name)], name, slot, " @> ");
  }

  lemma PathOperandText(open: string, path: string, close: string, slot: Slot, contains: string)
    ensures TextOf([Raw(open), Quoted(path), Raw(close)] + [Raw(contains)] + SlotFragments(slot) + [])
         == open + Between(path) + close + contains + TextOf(SlotFragments(slot))
  {
    QuotedInside(open, path, close);
    OperandText([Raw(open), Quoted(path), Raw(close)], open + Between(path) + close, slot, contains);
  }

  lemma PostgresField(name: string, path: seq<string>, slot: Slot)
    requires !EmptyPath(path) && |path| == 1
    ensures TextOf(CondFragments(Postgres, JsonContains(name, path, slot)))
         == "(" + name + "->" + Between(path[0]) + ")" + " @> " + TextOf(SlotFragments(slot))
  {
    PathOperandText("(" + name + "->", path[0], ")", slot, " @> ");
  }

  lemma PostgresPath(name: string, path: seq<string>, slot: Slot)
    requires |path| > 1
    ensures TextOf(CondFragments(Postgres, JsonContains(name, path, slot)))
         == "(" + name + " #> " + Between(ArrayText(path)) + ")" + " @> " + TextOf(SlotFragments(slot))
  {
    PathOperandText("(" + name + " #> ", ArrayText(path), ")", slot, " @> ");
  }

  lemma ClosedOperand(before: string, slot: Slot, after: string)
    ensures TextOf([Raw(before)] + SlotFragments(slot) + [Raw(after)]) == before + TextOf(SlotFragments(slot)) + after
  {
    InsideText(before, SlotFragments(slot), after);
  }

  lemma ClosedPathOperand(before: string, path: string, between: string, slot: Slot, after: seq<Fragment>)
    ensures TextOf([Raw(before), Quoted(path), Raw(between)] + SlotFragments(slot) + after)
         == before + Between(path) + between + TextOf(SlotFragments(slot)) + TextOf(after)
  {
    QuotedInside(before, path, between);
    TextConcat([Raw(before), Quoted(path), Raw(between)], SlotFragments(slot));
    TextConcat([Raw(before), Quoted(path), Raw(between)] + SlotFragments(slot), after);
  }

  lemma MysqlWhole(name: string, path: seq<string>, slot: Slot)
    requires EmptyPath(path)
    ensures TextOf(CondFragments(Mysql, JsonContains(name, path, slot)))
         == "JSON_CONTAINS(" + name + ", JSON_QUOTE(" + TextOf(SlotFragments(slot)) + "))"
  {
    ClosedOperand("JSON_CONTAINS(" + name + ", JSON_QUOTE(", slot, "))");
  }

  lemma MysqlPath(name: string, path: seq<string>, slot: Slot)
    requires !EmptyPath(path)
    ensures TextOf(CondFragments(Mysql, JsonContains(name, path, slot)))
         == "JSON_CONTAINS(JSON_EXTRACT(" + name + ", " + Between("$." + Join(path, '.')) + "), JSON_QUOTE("
            + TextOf(SlotFragments(slot)) + "))"
  {
    ClosedPathOperand("JSON_CONTAINS(JSON_EXTRACT(" + name + ", ", DollarPath(path), "), JSON_QUOTE(", slot, [Raw("))")]);
    RawText("))");
  }

  lemma SqliteWhole(name: string, path: seq<string>, slot: Slot, open: string, between: string, close: string)
    requires EmptyPath(path) && open == "EXISTS (SELECT 1 FROM json_each(" && between == ") WHERE value = " && close == ")"
    ensures TextOf(CondFragments(Sqlite, JsonContains(name, path, slot)))
         == open + name + ", " + Between("$") + between + TextOf(SlotFragments(slot)) + close
  {
    ClosedPathOperand(open + name + ", ", "$", between, slot, [Raw(close)]);
    RawText(close);
  }

  lemma SqlitePath(name: string, path: seq<string>, slot: Slot)
    requires !EmptyPath(path)
    ensures TextOf(CondFragments(Sqlite, JsonContains(name, path, slot)))
         == "json_extract(" + name + ", " + Between("$." + Join(path, '.')) + ") = " + TextOf(SlotFragments(slot))
  {
    ClosedPathOperand("json_extract(" + name + ", ", DollarPath(path), ") = ", slot, []);
    var whole := "json_extract(" + name + ", " + Between("$." + Join(path, '.')) + ") = " + TextOf(SlotFragments(slot));
    assert whole + [] == whole;
  }

  lemma PostgresContainment(f: NamedFilter, value: string)
    ensures TextOf(CondFragments(Postgres, JsonContains(f.column, f.path, Literal(f.value)))) == Containment(Postgres, f, value)
  {
    LiteralText(f.value);
    if EmptyPath(f.path) {
      PostgresWhole(f.column, f.path, Literal(f.value));
    } else if |f.path| == 1 {
      PostgresField(f.column, f.path, Literal(f.value));
    } else {
      PostgresPath(f.column, f.path, Literal(f.value));
      assert ArrayText(f.path) == "{" + Join(f.path, ',') + "}";
    }
  }

  lemma MysqlContainment(f: NamedFilter, slot: Slot)
    ensures TextOf(CondFragments(Mysql, JsonContains(f.column, f.path, slot))) == Containment(Mysql, f, TextOf(SlotFragments(slot)))
  {
    if EmptyPath(f.path) {
      MysqlWhole(f.column, f.path, slot);
    } else {
      MysqlPath(f.column, f.path, slot);
    }
  }

  lemma SqliteContainment(f: NamedFilter, slot: Slot)
    ensures TextOf(CondFragments(Sqlite, JsonContains(f.column, f.path, slot))) == Containment(Sqlite, f, TextOf(SlotFragments(slot)))
  {
    if EmptyPath(f.path) {
      SqliteWhole(f.column, f.path, slot, "EXISTS (SELECT 1 FROM json_each(", ") WHERE value = ", ")");
    } else {
      SqlitePath(f.column, f.path, slot);
    }
  }

  // ---------------------------------------------------------------------------
  // Filters
  // ---------------------------------------------------------------------------

  /** The condition of a filter of a documented name. */
  ghost function NamedCondition(env: Env, f: NamedFilter, columnType: ColumnType, index: nat): Cond
    requires OperatorOf(NameOf(f)).Some?
  {
    FilterCondition(env, TermOf(f, columnType).expr, f.value, columnType, index)
  }

  ghost predicate Worded(env: Env, f: NamedFilter, columnType: ColumnType, index: nat)
    requires OperatorOf(NameOf(f)).Some?
  {
    TextOf(CondFragments(env.driver, NamedCondition(env, f, columnType, index))) == Wording(env.driver, env.table, f, columnType, index)
  }

  lemma ComparisonIs(env: Env, f: NamedFilter, columnType: ColumnType, index: nat)
    requires ComparingName(NameOf(f))
    ensures OperatorOf(NameOf(f)).Some? && OperatorOf(NameOf(f)).value.Comparing?
    ensures var op := OperatorOf(NameOf(f)).value.op;
            && NamedCondition(env, f, columnType, index) == Compare(ColumnOf(env.table, f, columnType), op, Placeholder(env.driver, index))
            && Wording(env.driver, env.table, f, columnType, index)
               == ColumnWord(env.driver, env.table, f, columnType) + ComparisonText(env.driver, op) + Parameter(env.driver, index)
  {
    TermColumn(env, f, columnType);
  }

  lemma ComparisonWorded(env: Env, f: NamedFilter, columnType: ColumnType, index: nat)
    requires ComparingName(NameOf(f))
    ensures OperatorOf(NameOf(f)).Some? && Worded(env, f, columnType, index)
  {
    ComparisonIs(env, f, columnType, index);
    CompareText(env.driver, ColumnOf(env.table, f, columnType), OperatorOf(NameOf(f)).value.op, Placeholder(env.driver, index));
    ColumnText(env.driver, env.table, f, columnType);
    SlotWord(env.driver, index);
  }

  lemma InIs(env: Env, f: NamedFilter, columnType: ColumnType, index: nat)
    requires NameOf(f) == "in"
    ensures OperatorOf(NameOf(f)).Some?
    ensures NamedCondition(env, f, columnType, index)
         == InList(ColumnOf(env.table, f, columnType), Placeholders(env.driver, index, |Split(f.value, ',')|), false)
    ensures Wording(env.driver, env.table, f, columnType, index)
         == ColumnWord(env.driver, env.table, f, columnType) + " IN (" + ParameterList(env.driver, index, |Split(f.value, ',')|) + ")"
  {
    TermColumn(env, f, columnType);
  }

  lemma InWorded(env: Env, f: NamedFilter, columnType: ColumnType, index: nat)
    requires NameOf(f) == "in"
    ensures OperatorOf(NameOf(f)).Some? && Worded(env, f, columnType, index)
  {
    InIs(env, f, columnType, index);
    ColumnText(env.driver, env.table, f, columnType);
    InListText(env.driver, ColumnOf(env.table, f, columnType), Placeholders(env.driver, index, |Split(f.value, ',')|));
    SlotListWord(env.driver, index, |Split(f.value, ',')|);
  }

  lemma NotInIs(env: Env, f: NamedFilter, columnType: ColumnType, index: nat)
    requires NameOf(f) == "not_in"
    ensures OperatorOf(NameOf(f)).Some?
    ensures NamedCondition(env, f, columnType, index)
         == InList(ColumnOf(env.table, f, columnType), Placeholders(env.driver, index, |Split(f.value, ',')|), true)
    ensures Wording(env.driver, env.table, f, columnType, index)
         == "NOT " + ColumnWord(env.driver, env.table, f, columnType) + " IN (" + ParameterList(env.driver, index, |Split(f.value, ',')|) + ")"
  {
    TermColumn(env, f, columnType);
  }

  lemma NotInWorded(env: Env, f: NamedFilter, columnType: ColumnType, index: nat)
    requires NameOf(f) == "not_in"
    ensures OperatorOf(NameOf(f)).Some? && Worded(env, f, columnType, index)
  {
    NotInIs(env, f, columnType, index);
    ColumnText(env.driver, env.table, f, columnType);
    NotInListText(env.driver, ColumnOf(env.table, f, columnType), Placeholders(env.driver, index, |Split(f.value, ',')|));
    SlotListWord(env.driver, index, |Split(f.value, ',')|);
  }

  lemma ExistsIs(env: Env, f: NamedFilter, columnType: ColumnType, index: nat)
    requires NameOf(f) == "exists"
    ensures OperatorOf(NameOf(f)).Some?
    ensures NamedCondition(env, f, columnType, index) == NotNull(ColumnOf(env.table, f, columnType))
    ensures Wording(env.driver, env.table, f, columnType, index)
         == ColumnWord(env.driver, env.table, f, columnType) + " IS NOT NULL"
  {
    TermColumn(env, f, columnType);
  }

  lemma ExistsWorded(env: Env, f: NamedFilter, columnType: ColumnType, index: nat)
    requires NameOf(f) == "exists"
    ensures OperatorOf(NameOf(f)).Some? && Worded(env, f, columnType, index)
  {
    ExistsIs(env, f, columnType, index);
    ColumnText(env.driver, env.table, f, columnType);
    NotNullText(env.driver, ColumnOf(env.table, f, columnType), " IS NOT NULL");
  }

  lemma LikeIs(env: Env, f: NamedFilter, columnType: ColumnType, index: nat)
    requires NameOf(f) == "like"
    ensures OperatorOf(NameOf(f)).Some?
    ensures NamedCondition(env, f, columnType, index)
         == Like(ColumnOf(env.table, f, columnType), Whole, Placeholder(env.driver, index), false)
    ensures Wording(env.driver, env.table, f, columnType, index)
         == ColumnWord(env.driver, env.table, f, columnType) + " LIKE " + Parameter(env.driver, index)
  {
    TermColumn(env, f, columnType);
  }

  lemma LikeWorded(env: Env, f: NamedFilter, columnType: ColumnType, index: nat)
    requires NameOf(f) == "like"
    ensures OperatorOf(NameOf(f)).Some? && Worded(env, f, columnType, index)
  {
    LikeIs(env, f, columnType, index);
    ColumnText(env.driver, env.table, f, columnType);
    LikeText(env.driver, ColumnOf(env.table, f, columnType), Whole, Placeholder(env.driver, index), " LIKE ");
    SlotWord(env.driver, index);
  }

  lemma StartsWithIs(env: Env, f: NamedFilter, columnType: ColumnType, index: nat)
    requires NameOf(f) == "startswith"
    ensures OperatorOf(NameOf(f)).Some?
    ensures NamedCondition(env, f, columnType, index)
         == Like(ColumnOf(env.table, f, columnType), StartingWith, Placeholder(env.driver, index), false)
    ensures Wording(env.driver, env.table, f, columnType, index)
         == ColumnWord(env.driver, env.table, f, columnType) + " LIKE " + ("CONCAT(" + Parameter(env.driver, index) + ", '%')")
  {
    TermColumn(env, f, columnType);
  }

  lemma StartsWithWorded(env: Env, f: NamedFilter, columnType: ColumnType, index: nat)
    requires NameOf(f) == "startswith"
    ensures OperatorOf(NameOf(f)).Some? && Worded(env, f, columnType, index)
  {
    StartsWithIs(env, f, columnType, index);
    ColumnText(env.driver, env.table, f, columnType);
    LikeText(env.driver, ColumnOf(env.table, f, columnType), StartingWith, Placeholder(env.driver, index), " LIKE ");
    StartPattern(Placeholder(env.driver, index), "CONCAT(", ", '%')");
    SlotWord(env.driver, index);
  }

  lemma EndsWithIs(env: Env, f: NamedFilter, columnType: ColumnType, index: nat)
    requires NameOf(f) == "endswith"
    ensures OperatorOf(NameOf(f)).Some?
    ensures NamedCondition(env, f, columnType, index)
         == Like(ColumnOf(env.table, f, columnType), EndingWith, Placeholder(env.driver, index), false)
    ensures Wording(env.driver, env.table, f, columnType, index)
         == ColumnWord(env.driver, env.table, f, columnType) + " LIKE " + ("CONCAT('%', " + Parameter(env.driver, index) + ")")
  {
    TermColumn(env, f, columnType);
  }

  lemma EndsWithWorded(env: Env, f: NamedFilter, columnType: ColumnType, index: nat)
    requires NameOf(f) == "endswith"
    ensures OperatorOf(NameOf(f)).Some? && Worded(env, f, columnType, index)
  {
    EndsWithIs(env, f, columnType, index);
    ColumnText(env.driver, env.table, f, columnType);
    LikeText(env.driver, ColumnOf(env.table, f, columnType), EndingWith, Placeholder(env.driver, index), " LIKE ");
    EndPattern(Placeholder(env.driver, index), "CONCAT('%', ", ")");
    SlotWord(env.driver, index);
  }

  lemma ILikeIs(env: Env, f: NamedFilter, columnType: ColumnType, index: nat)
    requires NameOf(f) == "ilike"
    ensures OperatorOf(NameOf(f)).Some?
    ensures NamedCondition(env, f, columnType, index)
         == Like(ColumnOf(env.table, f, columnType), Whole, Placeholder(env.driver, index), true)
    ensures Wording(env.driver, env.table, f, columnType, index)
         == "LOWER(" + ColumnWord(env.driver, env.table, f, columnType) + (if env.driver == Postgres then ") ILIKE LOWER(" else ") LIKE LOWER(") + Parameter(env.driver, index) + ")"
  {
    TermColumn(env, f, columnType);
  }

  lemma ILikeWorded(env: Env, f: NamedFilter, columnType: ColumnType, index: nat)
    requires NameOf(f) == "ilike"
    ensures OperatorOf(NameOf(f)).Some? && Worded(env, f, columnType, index)
  {
    ILikeIs(env, f, columnType, index);
    ColumnText(env.driver, env.table, f, columnType);
    ILikeText(env.driver, ColumnOf(env.table, f, columnType), Placeholder(env.driver, index), "LOWER(",
              if env.driver == Postgres then ") ILIKE LOWER(" else ") LIKE LOWER(", ")");
    SlotWord(env.driver, index);
  }

  lemma ContainsIs(env: Env, f: NamedFilter, columnType: ColumnType, index: nat)
    requires NameOf(f) == "contains"
    ensures OperatorOf(NameOf(f)).Some?
    ensures NamedCondition(env, f, columnType, index) ==
              if !OnDocument(f, columnType) then Like(ColumnOf(env.table, f, columnType), Whole, Placeholder(env.driver, index), false)
              else JsonContains(f.column, f.path, if env.driver == Postgres then Literal(f.value) else Placeholder(env.driver, index))
    ensures Wording(env.driver, env.table, f, columnType, index) ==
              if OnDocument(f, columnType) then Containment(env.driver, f, Parameter(env.driver, index))
              else ColumnWord(env.driver, env.table, f, columnType) + " LIKE " + Parameter(env.driver, index)
  {
    TermColumn(env, f, columnType);
  }

  lemma ContainsWorded(env: Env, f: NamedFilter, columnType: ColumnType, index: nat)
    requires NameOf(f) == "contains"
    ensures OperatorOf(NameOf(f)).Some? && Worded(env, f, columnType, index)
  {
    ContainsIs(env, f, columnType, index);
    SlotWord(env.driver, index);
    if !OnDocument(f, columnType) {
      ColumnText(env.driver, env.table, f, columnType);
      LikeText(env.driver, ColumnOf(env.table, f, columnType), Whole, Placeholder(env.driver, index), " LIKE ");
    } else if env.driver == Postgres {
      PostgresContainment(f, Parameter(env.driver, index));
    } else if env.driver == Mysql {
      MysqlContainment(f, Placeholder(env.driver, index));
    } else {
      SqliteContainment(f, Placeholder(env.driver, index));
    }
  }

  /** A filter of a documented name is written as the SQL for that name. */
  lemma NamedFilterIsWorded(env: Env, f: NamedFilter, columnType: ColumnType, index: nat)
    requires Documented(NameOf(f))
    ensures OperatorOf(NameOf(f)).Some?
    ensures CondsOf(env, TermOf(f, columnType), index) == [NamedCondition(env, f, columnType, index)]
    ensures TextOf(CondFragments(env.driver, NamedCondition(env, f, columnType, index)))
         == Wording(env.driver, env.table, f, columnType, index)
  {
    if ComparingName(NameOf(f)) {
      ComparisonWorded(env, f, columnType, index);
    } else if NameOf(f) == "in" {
      InWorded(env, f, columnType, index);
    } else if NameOf(f) == "not_in" {
      NotInWorded(env, f, columnType, index);
    } else if NameOf(f) == "contains" {
      ContainsWorded(env, f, columnType, index);
    } else if NameOf(f) == "exists" {
      ExistsWorded(env, f, columnType, index);
    } else if NameOf(f) == "startswith" {
      StartsWithWorded(env, f, columnType, index);
    } else if NameOf(f) == "endswith" {
      EndsWithWorded(env, f, columnType, index);
    } else if NameOf(f) == "like" {
      LikeWorded(env, f, columnType, index);
    } else {
      ILikeWorded(env, f, columnType, index);
    }
  }

  // ---------------------------------------------------------------------------
  // A whole list
  // ---------------------------------------------------------------------------

  /** Conditions joined by AND. */
  function Conjunction(words: seq<string>): string {
    if words == [] then ""
    else if |words| == 1 then words[0]
    else Conjunction(words[..|words| - 1]) + " AND " + words[|words| - 1]
  }

  ghost function ConditionTexts(driver: Driver, conditions: seq<Cond>): (words: seq<string>)
    ensures |words| == |conditions|
  {
    if conditions == [] then []
    else ConditionTexts(driver, conditions[..|conditions| - 1]) + [TextOf(CondFragments(driver, conditions[|conditions| - 1]))]
  }

  lemma MoreConditions(driver: Driver, conditions: seq<Cond>, and: string)
    requires |conditions| > 1 && and == " AND "
    ensures WhereText(driver, conditions)
         == WhereText(driver, conditions[..|conditions| - 1]) + and + TextOf(CondFragments(driver, conditions[|conditions| - 1]))
  {
    AroundText(WhereFragments(driver, conditions[..|conditions| - 1]), and, CondFragments(driver, conditions[|conditions| - 1]));
  }

  lemma {:induction false} WhereIsConjunction(driver: Driver, conditions: seq<Cond>)
    ensures WhereText(driver, conditions) == Conjunction(ConditionTexts(driver, conditions))
  {
    var words := ConditionTexts(driver, conditions);
    if |conditions| == 1 {
      assert ConditionTexts(driver, conditions[..0]) == [];
    } else if |conditions| > 1 {
      WhereIsConjunction(driver, conditions[..|conditions| - 1]);
      MoreConditions(driver, conditions, " AND ");
      assert words[..|words| - 1] == ConditionTexts(driver, conditions[..|conditions| - 1]);
    }
  }

  lemma TextsAppend(driver: Driver, conditions: seq<Cond>, c: Cond)
    ensures ConditionTexts(driver, conditions + [c]) == ConditionTexts(driver, conditions) + [TextOf(CondFragments(driver, c))]
  {
    assert (conditions + [c])[..|conditions|] == conditions;
  }

  /** How many parameters a filter takes. */
  function ParameterCount(f: NamedFilter): nat {
    match NameOf(f)
    case "in" => |Split(f.value, ',')|
    case "not_in" => |Split(f.value, ',')|
    case "exists" => 0
    case _ => 1
  }

  /** The words for a filter, its type and the number of its first parameter, and how many parameters it takes. */
  datatype Style = Style(word: (NamedFilter, ColumnType, nat) -> string, takes: NamedFilter -> nat)

  /** The parameters that the first `n` filters take. */
  function ParametersOf(style: Style, named: seq<NamedFilter>, n: nat): nat
    requires n <= |named|
  {
    if n == 0 then 0 else ParametersOf(style, named, n - 1) + style.takes(named[n - 1])
  }

  /** The conditions of the filters, in order, the first parameter being that of this number. */
  ghost predicate AreWords(style: Style, named: seq<NamedFilter>, types: seq<ColumnType>, index: nat, words: seq<string>)
    requires |words| <= |named| == |types|
  {
    words != [] ==>
      var n := |words| - 1;
      && AreWords(style, named, types, index, words[..n])
      && words[n] == style.word(named[n], types[n], index + ParametersOf(style, named, n))
  }

  /** The SQL for the documented names. */
  function SqlStyle(env: Env): Style {
    Style((f: NamedFilter, columnType: ColumnType, index: nat) => Wording(env.driver, env.table, f, columnType, index), ParameterCount)
  }

  /** Every filter of a documented name is written so. */
  ghost predicate WrittenAs(env: Env, style: Style) {
    forall f, columnType, index :: Documented(NameOf(f)) ==> TermWrittenAs(env, style, f, columnType, index)
  }

  ghost predicate TermWrittenAs(env: Env, style: Style, f: NamedFilter, columnType: ColumnType, index: nat) {
    && OperatorOf(NameOf(f)).Some?
    && CondsOf(env, TermOf(f, columnType), index) == [NamedCondition(env, f, columnType, index)]
    && TextOf(CondFragments(env.driver, NamedCondition(env, f, columnType, index))) == style.word(f, columnType, index)
    && |ValuesOf(env, TermOf(f, columnType))| == style.takes(f)
  }

  lemma AllWrittenAs(env: Env)
    ensures WrittenAs(env, SqlStyle(env))
  {
    forall f, columnType, index | Documented(NameOf(f))
      ensures TermWrittenAs(env, SqlStyle(env), f, columnType, index)
    {
      NamedFilterIsWorded(env, f, columnType, index);
      ParametersTaken(env, f, columnType, OperatorOf(NameOf(f)).value);
    }
  }

  lemma CountByOperator(f: NamedFilter, operator: FilterOperator)
    requires OperatorOf(NameOf(f)) == Some(operator)
    ensures ParameterCount(f) == if operator == In || operator == NotIn then |Split(f.value, ',')| else if operator == Exists then 0 else 1
  {
  }

  lemma ParametersTaken(env: Env, f: NamedFilter, columnType: ColumnType, operator: FilterOperator)
    requires OperatorOf(NameOf(f)) == Some(operator)
    ensures |ValuesOf(env, TermOf(f, columnType))| == ParameterCount(f)
  {
    CountByOperator(f, operator);
    ValuesTaken(TermOf(f, columnType).expr, f.value, columnType);
  }

  lemma ValuesTaken(expr: FilterExpression, value: string, columnType: ColumnType)
    ensures |FilterValues(expr, value, columnType)| ==
              if expr.operator == In || expr.operator == NotIn then |Split(value, ',')| else if expr.operator == Exists then 0 else 1
  {
  }

  /** One more filter: its condition as worded, and its parameters. */
  lemma FilterStep(env: Env, style: Style, c: Clauses, f: NamedFilter, columnType: ColumnType)
    requires TermWrittenAs(env, style, f, columnType, |c.params| + 1)
    ensures var d := After(env, c, TermOf(f, columnType));
            && ConditionTexts(env.driver, d.conditions) == ConditionTexts(env.driver, c.conditions) + [style.word(f, columnType, |c.params| + 1)]
            && |d.params| == |c.params| + style.takes(f)
  {
    TextsAppend(env.driver, c.conditions, NamedCondition(env, f, columnType, |c.params| + 1));
  }

  lemma MoreWords(style: Style, named: seq<NamedFilter>, types: seq<ColumnType>, index: nat, words: seq<string>, word: string)
    requires |words| < |named| == |types| && AreWords(style, named, types, index, words)
    requires word == style.word(named[|words|], types[|words|], index + ParametersOf(style, named, |words|))
    ensures AreWords(style, named, types, index, words + [word])
  {
    assert (words + [word])[..|words|] == words;
  }

  /** Filters with these words have been added to some texts, and `count` parameters are taken. */
  ghost predicate Grown(style: Style, named: seq<NamedFilter>, types: seq<ColumnType>, taken: nat, base: seq<string>,
                        words: seq<string>, texts: seq<string>, count: nat)
    requires |words| <= |named| == |types|
  {
    && AreWords(style, named, types, taken + 1, words) && texts == base + words
    && count == taken + ParametersOf(style, named, |words|)
  }

  lemma GrowsByOne(style: Style, named: seq<NamedFilter>, types: seq<ColumnType>, taken: nat, base: seq<string>,
                   words: seq<string>, texts: seq<string>, count: nat, n: nat, word: string)
    requires |words| == n < |named| == |types| && Grown(style, named, types, taken, base, words, texts, count)
    requires word == style.word(named[n], types[n], count + 1)
    ensures Grown(style, named, types, taken, base, words + [word], texts + [word], count + style.takes(named[n]))
  {
    assert count + 1 == taken + 1 + ParametersOf(style, named, n);
    MoreWords(style, named, types, taken + 1, words, word);
    Associative(base, words, [word]);
  }

  /** The texts of the conditions, and the number of parameters, once the first `n` filters have been applied. */
  ghost function TextsAfter(q: Request, c: Clauses, n: nat): seq<string>
    requires SelectsRows(q) && n <= |q.filters|
  {
    ConditionTexts(q.env.driver, Extend(q.env, c, FilterTerms(q.filters[..n], q.allowed, q.columns)).conditions)
  }

  ghost function CountAfter(q: Request, c: Clauses, n: nat): nat
    requires SelectsRows(q) && n <= |q.filters|
  {
    |Extend(q.env, c, FilterTerms(q.filters[..n], q.allowed, q.columns)).params|
  }

  lemma OneMoreFilter(q: Request, style: Style, named: seq<NamedFilter>, types: seq<ColumnType>, c: Clauses, n: nat, next: nat, word: string)
    requires WrittenAs(q.env, style) && AsksFor(q, named, types) && AllDocumented(named) && SelectsRows(q) && next == n + 1 <= |named|
    requires word == style.word(named[n], types[n], CountAfter(q, c, n) + 1)
    ensures TextsAfter(q, c, next) == TextsAfter(q, c, n) + [word]
    ensures CountAfter(q, c, next) == CountAfter(q, c, n) + style.takes(named[n])
  {
    var d := Extend(q.env, c, FilterTerms(q.filters[..n], q.allowed, q.columns));
    ExtendByNamed(q, named, types, c, n);
    assert TermWrittenAs(q.env, style, named[n], types[n], |d.params| + 1);
    FilterStep(q.env, style, d, named[n], types[n]);
  }

  ghost predicate StepsOn(style: Style, named: seq<NamedFilter>, types: seq<ColumnType>, texts: seq<seq<string>>, counts: seq<nat>, i: nat)
    requires i < |named| == |types| && |texts| == |counts| == |named| + 1
  {
    && texts[i + 1] == texts[i] + [style.word(named[i], types[i], counts[i] + 1)]
    && counts[i + 1] == counts[i] + style.takes(named[i])
  }

  /** Step by step, the filters add their words and take their parameters. */
  lemma {:induction false} AllGrow(style: Style, named: seq<NamedFilter>, types: seq<ColumnType>, texts: seq<seq<string>>, counts: seq<nat>, n: nat)
    returns (words: seq<string>)
    requires n <= |named| == |types| && |texts| == |counts| == |named| + 1
    requires forall i :: 0 <= i < |named| ==> StepsOn(style, named, types, texts, counts, i)
    ensures |words| == n && Grown(style, named, types, counts[0], texts[0], words, texts[n], counts[n])
  {
    if n == 0 {
      words := [];
      assert texts[0] + [] == texts[0];
    } else {
      var i := n - 1;
      var some := AllGrow(style, named, types, texts, counts, i);
      assert StepsOn(style, named, types, texts, counts, i);
      var word := style.word(named[i], types[i], counts[i] + 1);
      GrowsByOne(style, named, types, counts[0], texts[0], some, texts[i], counts[i], i, word);
      words := some + [word];
    }
  }

  /** The filters of a request add these words and take their parameters. */
  lemma FiltersWorded(q: Request, style: Style, named: seq<NamedFilter>, types: seq<ColumnType>, c: Clauses) returns (words: seq<string>)
    requires WrittenAs(q.env, style) && AsksFor(q, named, types) && AllDocumented(named) && SelectsRows(q)
    ensures |words| == |named|
    ensures Grown(style, named, types, CountAfter(q, c, 0), TextsAfter(q, c, 0), words,
                  TextsAfter(q, c, |named|), CountAfter(q, c, |named|))
  {
    var texts := seq(|named| + 1, i requires 0 <= i <= |named| => TextsAfter(q, c, i));
    var counts := seq(|named| + 1, i requires 0 <= i <= |named| => CountAfter(q, c, i));
    forall i | 0 <= i < |named|
      ensures StepsOn(style, named, types, texts, counts, i)
    {
      OneMoreFilter(q, style, named, types, c, i, i + 1, style.word(named[i], types[i], CountAfter(q, c, i) + 1));
    }
    words := AllGrow(style, named, types, texts, counts, |named|);
  }

  lemma ExtendByNamed(q: Request, named: seq<NamedFilter>, types: seq<ColumnType>, c: Clauses, n: nat)
    requires AsksFor(q, named, types) && AllDocumented(named) && SelectsRows(q) && n < |named|
    ensures Documented(NameOf(named[n])) && OperatorOf(NameOf(named[n])).Some?
    ensures Extend(q.env, c, FilterTerms(q.filters[..n + 1], q.allowed, q.columns))
         == After(q.env, Extend(q.env, c, FilterTerms(q.filters[..n], q.allowed, q.columns)), TermOf(named[n], types[n]))
  {
    TermOfNamed(q, named[n], types[n], q.filters[n]);
    ExtendByFilter(q.env, c, q.filters, n, q.allowed, q.columns);
  }

  lemma TermOfNamed(q: Request, f: NamedFilter, columnType: ColumnType, filter: Filter)
    requires FilterIs(q, f, columnType, filter) && Documented(NameOf(f))
    ensures OperatorOf(NameOf(f)).Some?
    ensures Admissible(filter, q.allowed, q.columns) && FilterTermOf(filter, q.allowed, q.columns) == TermOf(f, columnType)
  {
    OperatorExactly(NameOf(f));
    DocumentedIsAdmitted(q, f, columnType, filter);
  }

  // ---- The clause and the page ------------------------------------------------

  /** The first `n` keys of a clause, each replaced by the parameter of its number. */
  function FilledIn(driver: Driver, holes: seq<Hole>, n: nat): string
    requires n <= |holes|
  {
    if n == 0 then "" else FilledIn(driver, holes, n - 1) + (holes[n - 1].before + Parameter(driver, n))
  }

  function ClauseWords(driver: Driver, clause: Option<Template>): seq<string> {
    match clause
    case None => []
    case Some(t) => ["(" + (FilledIn(driver, t.holes, |t.holes|) + t.tail) + ")"]
  }

  lemma OwnText(text: string)
    ensures TextOf([Own(text)]) == text
  {
    assert TextOf([Own(text)][1..]) == [];
    assert text + [] == text;
  }

  lemma {:induction false} InterleavedLast(texts: seq<string>, slots: seq<Slot>, slot: Slot, text: string)
    requires |texts| == |slots| + 1
    ensures Interleaved(texts + [text], slots + [slot]) == Interleaved(texts, slots) + (SlotFragments(slot) + [Own(text)])
  {
    var all, more := texts + [text], slots + [slot];
    FrontOfConcat(texts, [text]);
    if slots == [] {
      assert more == [slot] && all[1..] == [text] && more[1..] == [];
      Associative([Own(texts[0])], SlotFragments(slot), [Own(text)]);
    } else {
      FrontOfConcat(slots, [slot]);
      InterleavedLast(texts[1..], slots[1..], slot, text);
      Associative([Own(texts[0])] + SlotFragments(slots[0]), Interleaved(texts[1..], slots[1..]), SlotFragments(slot) + [Own(text)]);
    }
  }

  lemma HoleTextsAre(holes: seq<Hole>, n: nat)
    requires n < |holes|
    ensures HoleTexts(holes[..n + 1]) == HoleTexts(holes[..n]) + [holes[n].before]
  {
    assert holes[..n + 1][..n] == holes[..n];
  }

  /** One more key: the text before it, its parameter, and the text after it. */
  lemma OneMoreKey(texts: seq<string>, slots: seq<Slot>, slot: Slot, text: string, filled: string, before: string, word: string)
    requires |texts| == |slots| + 1 && TextOf(Interleaved(texts, slots)) == filled + before && TextOf(SlotFragments(slot)) == word
    ensures TextOf(Interleaved(texts + [text], slots + [slot])) == filled + (before + word) + text
  {
    InterleavedLast(texts, slots, slot, text);
    TextConcat(Interleaved(texts, slots), SlotFragments(slot) + [Own(text)]);
    TextConcat(SlotFragments(slot), [Own(text)]);
    OwnText(text);
    Associative(filled + before, word, text);
    Associative(filled, before, word);
  }

  /** The text of the first `n` keys and of what follows them up to the next. */
  lemma {:induction false} ClauseText(driver: Driver, holes: seq<Hole>, n: nat, text: string)
    requires n <= |holes|
    ensures |HoleTexts(holes[..n])| == n
    ensures TextOf(Interleaved(HoleTexts(holes[..n]) + [text], Placeholders(driver, 1, n))) == FilledIn(driver, holes, n) + text
  {
    if n == 0 {
      OwnText(text);
      assert [] + [text] == [text] && "" + text == text;
    } else {
      var before := holes[n - 1].before;
      ClauseText(driver, holes, n - 1, before);
      HoleTextsAre(holes, n - 1);
      SlotWord(driver, n);
      OneMoreKey(HoleTexts(holes[..n - 1]) + [before], Placeholders(driver, 1, n - 1), Placeholder(driver, n), text,
                 FilledIn(driver, holes, n - 1), before, Parameter(driver, n));
    }
  }

  lemma ClauseWorded(env: Env, t: Template, open: string, close: string)
    requires open == "(" && close == ")"
    ensures TextOf(CondFragments(env.driver, ClauseOf(env, t))) == open + (FilledIn(env.driver, t.holes, |t.holes|) + t.tail) + close
  {
    assert t.holes[..|t.holes|] == t.holes;
    ClauseText(env.driver, t.holes, |t.holes|, t.tail);
    InsideText(open, Interleaved(HoleTexts(t.holes) + [t.tail], Placeholders(env.driver, 1, |t.holes|)), close);
  }

  lemma ClauseConditionIs(q: Request)
    requires q.clause.Some? ==> Resolvable(q.clause.value, q.context)
    ensures var c := Extend(q.env, NO_CLAUSES, WhereTerms(q.clause, q.context));
            && ConditionTexts(q.env.driver, c.conditions) == ClauseWords(q.env.driver, q.clause)
            && |c.params| == if q.clause.Some? then |q.clause.value.holes| else 0
  {
    if q.clause.Some? {
      ExtendOne(q.env, NO_CLAUSES, WhereTermOf(q.clause.value, q.context));
      ClauseWorded(q.env, q.clause.value, "(", ")");
      TextsAppend(q.env.driver, [], ClauseOf(q.env, q.clause.value));
      assert [] + [ClauseOf(q.env, q.clause.value)] == [ClauseOf(q.env, q.clause.value)];
    }
  }

  /** What is written of a list of named filters after WHERE, and how many parameters that takes. */
  lemma ListIsWorded(q: Request, named: seq<NamedFilter>, types: seq<ColumnType>) returns (words: seq<string>)
    requires AsksFor(q, named, types) && AllDocumented(named) && SelectsRows(q)
    ensures var before := if q.clause.Some? then |q.clause.value.holes| else 0;
            && |words| == |named| && AreWords(SqlStyle(q.env), named, types, before + 1, words)
            && |Compiled(q.env, SelectionTerms(q)).params| == before + ParametersOf(SqlStyle(q.env), named, |named|)
    ensures WhereText(q.env.driver, Compiled(q.env, ListTerms(q)).conditions) == Conjunction(ClauseWords(q.env.driver, q.clause) + words)
  {
    AllWrittenAs(q.env);
    words := SelectionWorded(q, SqlStyle(q.env), named, types);
    CountIsListWithoutPage(q);
    WhereIsConjunction(q.env.driver, Compiled(q.env, ListTerms(q)).conditions);
  }

  lemma SelectionIsAfter(q: Request, first: Clauses)
    requires SelectsRows(q) && first == Extend(q.env, NO_CLAUSES, WhereTerms(q.clause, q.context))
    ensures var c := Compiled(q.env, SelectionTerms(q));
            && ConditionTexts(q.env.driver, c.conditions) == TextsAfter(q, first, |q.filters|)
            && |c.params| == CountAfter(q, first, |q.filters|)
    ensures TextsAfter(q, first, 0) == ConditionTexts(q.env.driver, first.conditions) && CountAfter(q, first, 0) == |first.params|
  {
    ExtendConcat(q.env, NO_CLAUSES, WhereTerms(q.clause, q.context), FilterTerms(q.filters, q.allowed, q.columns));
    assert q.filters[..|q.filters|] == q.filters && q.filters[..0] == [];
  }

  lemma SelectionWorded(q: Request, style: Style, named: seq<NamedFilter>, types: seq<ColumnType>) returns (words: seq<string>)
    requires WrittenAs(q.env, style) && AsksFor(q, named, types) && AllDocumented(named) && SelectsRows(q)
    ensures |words| == |named|
    ensures var c := Compiled(q.env, SelectionTerms(q));
            Grown(style, named, types, if q.clause.Some? then |q.clause.value.holes| else 0, ClauseWords(q.env.driver, q.clause),
                  words, ConditionTexts(q.env.driver, c.conditions), |c.params|)
  {
    var first := Extend(q.env, NO_CLAUSES, WhereTerms(q.clause, q.context));
    ClauseConditionIs(q);
    SelectionIsAfter(q, first);
    words := FiltersWorded(q, style, named, types, first);
  }

  lemma LimitWord(a: Slot, b: Slot, limit: string, offset: string)
    requires limit == " LIMIT " && offset == " OFFSET "
    ensures TextOf(LimitFragments(Some(Slots(a, b)))) == limit + TextOf(SlotFragments(a)) + offset + TextOf(SlotFragments(b))
  {
    BehindText(SlotFragments(a), limit);
    AroundText([Raw(limit)] + SlotFragments(a), offset, SlotFragments(b));
  }

  /** The page takes the two parameters after those of the clause and the filters. */
  lemma PageIsWorded(q: Request)
    requires SelectsRows(q) && q.page.Some?
    ensures var taken := |Compiled(q.env, SelectionTerms(q)).params|;
            TextOf(LimitFragments(Compiled(q.env, ListTerms(q)).limit))
            == " LIMIT " + Parameter(q.env.driver, taken + 1) + " OFFSET " + Parameter(q.env.driver, taken + 2)
  {
    var taken := |Compiled(q.env, SelectionTerms(q)).params|;
    ListIsSelectionAndPage(q);
    ExtendOne(q.env, Compiled(q.env, SelectionTerms(q)), PageTerm(q.page.value));
    LimitWord(Placeholder(q.env.driver, taken + 1), Placeholder(q.env.driver, taken + 2), " LIMIT ", " OFFSET ");
    SlotWord(q.env.driver, taken + 1);
    SlotWord(q.env.driver, taken + 2);
  }

  // ---------------------------------------------------------------------------
  // A single record
  // ---------------------------------------------------------------------------

  lemma BareText(driver: Driver, name: string, index: nat, equals: string)
    requires equals == " = "
    ensures TextOf(CondFragments(driver, Compare(Bare(name), Eq, Placeholder(driver, index)))) == name + equals + Parameter(driver, index)
  {
    CompareText(driver, Bare(name), Eq, Placeholder(driver, index));
    RawText(name);
    SlotWord(driver, index);
  }

  /** The condition on the key, which no row meets for a value that is no integer. */
  function KeyWord(driver: Driver, pkColumn: string, key: Value): string {
    if key == Number(-0x8000_0000_0000_0000) then "1 = 0" else pkColumn + " = " + Parameter(driver, 1)
  }

  lemma FirstCondition(env: Env, t: Term, condition: Cond)
    requires CondsOf(env, t, 1) == [condition]
    ensures After(env, NO_CLAUSES, t).conditions == [condition]
  {
    assert [] + [condition] == [condition];
  }

  lemma OneConditionText(driver: Driver, condition: Cond, text: string)
    requires TextOf(CondFragments(driver, condition)) == text
    ensures ConditionTexts(driver, [condition]) == [text]
  {
    assert [condition][..0] == [] && ConditionTexts(driver, []) == [];
    assert [] + [text] == [text];
  }

  lemma NeverText(driver: Driver, text: string)
    requires text == "1 = 0"
    ensures TextOf(CondFragments(driver, Never)) == text
  {
    RawText(text);
  }

  lemma KeyWorded(env: Env, pkColumn: string, key: Value)
    ensures var c := After(env, NO_CLAUSES, PkTerm(pkColumn, key));
            ConditionTexts(env.driver, c.conditions) == [KeyWord(env.driver, pkColumn, key)]
  {
    if IsSentinel(key) {
      NeverText(env.driver, "1 = 0");
      FirstCondition(env, PkTerm(pkColumn, key), Never);
      OneConditionText(env.driver, Never, "1 = 0");
    } else {
      BareText(env.driver, pkColumn, 1, " = ");
      FirstCondition(env, PkTerm(pkColumn, key), Compare(Bare(pkColumn), Eq, Placeholder(env.driver, 1)));
      OneConditionText(env.driver, Compare(Bare(pkColumn), Eq, Placeholder(env.driver, 1)), pkColumn + " = " + Parameter(env.driver, 1));
    }
  }

  lemma ClauseAfter(q: Request, c: Clauses)
    requires q.clause.Some? ==> Resolvable(q.clause.value, q.context)
    ensures var d := Extend(q.env, c, WhereTerms(q.clause, q.context));
            ConditionTexts(q.env.driver, d.conditions) == ConditionTexts(q.env.driver, c.conditions) + ClauseWords(q.env.driver, q.clause)
  {
    var texts := ConditionTexts(q.env.driver, c.conditions);
    if q.clause.Some? {
      ExtendOne(q.env, c, WhereTermOf(q.clause.value, q.context));
      ClauseWorded(q.env, q.clause.value, "(", ")");
      TextsAppend(q.env.driver, c.conditions, ClauseOf(q.env, q.clause.value));
    } else {
      assert texts + [] == texts;
    }
  }

  lemma OneRowText(text: string)
    requires text == " LIMIT 1"
    ensures TextOf(LimitFragments(Some(OneRow))) == text
  {
    RawText(text);
  }

  /** What is written of a single-record query: the key, the clause, and one row. */
  lemma OneIsWorded(q: Request, pkColumn: string, key: Value)
    requires q.clause.Some? ==> Resolvable(q.clause.value, q.context)
    ensures var c := Compiled(q.env, OneTerms(q, pkColumn, key));
            && WhereText(q.env.driver, c.conditions)
               == Conjunction([KeyWord(q.env.driver, pkColumn, key)] + ClauseWords(q.env.driver, q.clause))
            && TextOf(LimitFragments(c.limit)) == " LIMIT 1"
  {
    var first := After(q.env, NO_CLAUSES, PkTerm(pkColumn, key));
    ExtendOne(q.env, NO_CLAUSES, PkTerm(pkColumn, key));
    ExtendConcat(q.env, NO_CLAUSES, [PkTerm(pkColumn, key)], WhereTerms(q.clause, q.context));
    ExtendAppend(q.env, NO_CLAUSES, [PkTerm(pkColumn, key)] + WhereTerms(q.clause, q.context), OneTerm);
    KeyWorded(q.env, pkColumn, key);
    ClauseAfter(q, first);
    var c := Compiled(q.env, OneTerms(q, pkColumn, key));
    LastKeeps(q.env, Extend(q.env, first, WhereTerms(q.clause, q.context)));
    WhereIsConjunction(q.env.driver, c.conditions);
    OneRowText(" LIMIT 1");
  }

  lemma LastKeeps(env: Env, c: Clauses)
    ensures After(env, c, OneTerm).conditions == c.conditions && After(env, c, OneTerm).limit == Some(OneRow)
  {
    assert c.conditions + [] == c.conditions;
  }
}
