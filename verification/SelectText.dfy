/** The conditions of a query, the text they are written as, and whether the database reads
    that text as what it was written for. */
module SelectText {
  import opened Wrappers
  import opened SqlText
  import opened JsonText
  import opened PathText
  import opened FilterKeys
  import opened LikePattern
  import opened SlotText
  import Numerals

  datatype Column = Field(table: string, name: string) | Bare(name: string) | JsonField(name: string, path: seq<string>)

  datatype Cond =
    | Clause(texts: seq<string>, slots: seq<Slot>)
    | Compare(column: Column, op: Comparison, slot: Slot)
    | InList(column: Column, slots: seq<Slot>, negated: bool)
    | JsonContains(name: string, path: seq<string>, slot: Slot)
    | Like(column: Column, pattern: Pattern, slot: Slot, ignoreCase: bool)
    | NotNull(column: Column)
    | Never

  /** The slots of a condition in the order of the text. */
  function SlotsOf(c: Cond): seq<Slot> {
    match c
    case Clause(_, slots) => slots
    case Compare(_, _, slot) => [slot]
    case InList(_, slots, _) => slots
    case JsonContains(_, _, slot) => [slot]
    case Like(_, _, slot, _) => [slot]
    case NotNull(_) => []
    case Never => []
  }

  // ---------------------------------------------------------------------------
  // Text
  // ---------------------------------------------------------------------------

  function SlotFragments(slot: Slot): seq<Fragment> {
    match slot
    case Dollar(n) => [Raw(['$'] + Numerals.Decimal(n))]
    case Question => [Raw("?")]
    case Literal(text) => [Quoted(JsonString(text)), Raw("::jsonb")]
  }

  function SlotList(slots: seq<Slot>): seq<Fragment> {
    if slots == [] then []
    else if |slots| == 1 then SlotFragments(slots[0])
    else SlotList(slots[..|slots| - 1]) + [Raw(", ")] + SlotFragments(slots[|slots| - 1])
  }

  /** The configured texts with a slot after each but the last. */
  function Interleaved(texts: seq<string>, slots: seq<Slot>): seq<Fragment> {
    if texts == [] then []
    else if slots == [] then [Own(texts[0])]
    else [Own(texts[0])] + SlotFragments(slots[0]) + Interleaved(texts[1..], slots[1..])
  }

  /** A value below a document column, as text where the database tells text from JSON. */
  function Extraction(driver: Driver, name: string, path: seq<string>): seq<Fragment> {
    match driver
    case Postgres => [Raw("(" + name + " #>> "), Quoted(ArrayText(path)), Raw(")")]
    case Mysql => [Raw("JSON_UNQUOTE(JSON_EXTRACT(" + name + ", "), Quoted(DollarPath(path)), Raw("))")]
    case Sqlite => [Raw("json_extract(" + name + ", "), Quoted(DollarPath(path)), Raw(")")]
  }

  function ColumnFragments(driver: Driver, column: Column): seq<Fragment> {
    match column
    case Field(table, name) => [Raw(table + "." + name)]
    case Bare(name) => [Raw(name)]
    case JsonField(name, path) => Extraction(driver, name, path)
  }

  function ComparisonText(driver: Driver, op: Comparison): string {
    match op
    case Eq => " = "
    case Ne => if driver == Postgres then " <> " else " != "
    case Gt => " > "
    case Gte => " >= "
    case Lt => " < "
    case Lte => " <= "
  }

  /** The path text after the column is empty, for no path and for one empty segment. */
  predicate EmptyPath(path: seq<string>) {
    path == [] || path == [[]]
  }

  /** What comes before and after the slot of a containment check. */
  function ContainsFragments(driver: Driver, name: string, path: seq<string>): (seq<Fragment>, seq<Fragment>) {
    match driver
    case Postgres =>
      ((if EmptyPath(path) then [Raw(name)]
        else if |path| == 1 then [Raw("(" + name + "->"), Quoted(path[0]), Raw(")")]
        else [Raw("(" + name + " #> "), Quoted(ArrayText(path)), Raw(")")]) + [Raw(" @> ")], [])
    case Mysql =>
      if EmptyPath(path) then ([Raw("JSON_CONTAINS(" + name + ", JSON_QUOTE(")], [Raw("))")])
      else ([Raw("JSON_CONTAINS(JSON_EXTRACT(" + name + ", "), Quoted(DollarPath(path)), Raw("), JSON_QUOTE(")], [Raw("))")])
    case Sqlite =>
      if EmptyPath(path) then
        ([Raw("EXISTS (SELECT 1 FROM json_each(" + name + ", "), Quoted("$"), Raw(") WHERE value = ")], [Raw(")")])
      else ([Raw("json_extract(" + name + ", "), Quoted(DollarPath(path)), Raw(") = ")], [])
  }

  function PatternFragments(pattern: Pattern, slot: Slot): seq<Fragment> {
    match pattern
    case Whole => SlotFragments(slot)
    case StartingWith => [Raw("CONCAT(")] + SlotFragments(slot) + [Raw(", "), Quoted("%"), Raw(")")]
    case EndingWith => [Raw("CONCAT("), Quoted("%"), Raw(", ")] + SlotFragments(slot) + [Raw(")")]
  }

  function CondFragments(driver: Driver, c: Cond): seq<Fragment> {
    match c
    case Clause(texts, slots) => [Raw("(")] + Interleaved(texts, slots) + [Raw(")")]
    case Compare(column, op, slot) =>
      ColumnFragments(driver, column) + [Raw(ComparisonText(driver, op))] + SlotFragments(slot)
    case InList(column, slots, negated) =>
      (if negated then [Raw("NOT ")] else []) + ColumnFragments(driver, column)
      + [Raw(" IN (")] + SlotList(slots) + [Raw(")")]
    case JsonContains(name, path, slot) =>
      ContainsFragments(driver, name, path).0 + SlotFragments(slot) + ContainsFragments(driver, name, path).1
    case Like(column, pattern, slot, ignoreCase) =>
      if ignoreCase then
        [Raw("LOWER(")] + ColumnFragments(driver, column)
        + [Raw(if driver == Postgres then ") ILIKE LOWER(" else ") LIKE LOWER(")]
        + PatternFragments(pattern, slot) + [Raw(")")]
      else ColumnFragments(driver, column) + [Raw(" LIKE ")] + PatternFragments(pattern, slot)
    case NotNull(column) => ColumnFragments(driver, column) + [Raw(" IS NOT NULL")]
    case Never => [Raw("1 = 0")]
  }

  /** The conditions joined by AND. */
  function WhereFragments(driver: Driver, conditions: seq<Cond>): seq<Fragment> {
    if conditions == [] then []
    else if |conditions| == 1 then CondFragments(driver, conditions[0])
    else
      WhereFragments(driver, conditions[..|conditions| - 1]) + [Raw(" AND ")]
      + CondFragments(driver, conditions[|conditions| - 1])
  }

  function WhereText(driver: Driver, conditions: seq<Cond>): string {
    TextOf(WhereFragments(driver, conditions))
  }

  // ---------------------------------------------------------------------------
  // Reading
  // ---------------------------------------------------------------------------

  /** The path that the database reads from the text after a document column. */
  function PathAsRead(driver: Driver, contains: bool, path: seq<string>): Option<seq<string>> {
    if contains && EmptyPath(path) then Some([])
    else if driver != Postgres then ReadPath(driver, DollarPath(path))
    else if contains && |path| == 1 then Some(path)
    else ReadArray(ArrayText(path))
  }

  /** The column that was written is the column that is read. */
  predicate ColumnReads(driver: Driver, column: Column) {
    match column
    case Field(table, name) => PlainName(table) && PlainName(name)
    case Bare(name) => PlainName(name)
    case JsonField(name, path) => PlainName(name) && PathAsRead(driver, false, path) == Some(path)
  }

  /** The tokens of a configured text. */
  function OwnTokens(driver: Driver, text: string): seq<Token> {
    FragmentTokens(driver, Own(text))
  }

  function AllOwn(driver: Driver, texts: seq<string>): seq<Token> {
    if texts == [] then [] else OwnTokens(driver, texts[0]) + AllOwn(driver, texts[1..])
  }

  /** A text of a clause holds no placeholder of its own, does not continue the number of the one
      before it, and does not end in a name that the one after it would continue. */
  predicate StandsApart(driver: Driver, text: string, first: bool, last: bool) {
    && SlotsRead(driver, OwnTokens(driver, text)) == []
    && (!first && text != [] ==> !IsDigitChar(text[0]))
    && (!last && driver == Postgres ==> !Scanned(driver, OwnTokens(driver, text), Outside).1.InName?)
  }

  /** Every parenthesis that is closed has been opened, and every one that is opened is closed. */
  predicate Balanced(tokens: seq<Token>, depth: nat) {
    if tokens == [] then depth == 0
    else if tokens[0] == Mark('(') then Balanced(tokens[1..], depth + 1)
    else if tokens[0] == Mark(')') then depth > 0 && Balanced(tokens[1..], depth - 1)
    else Balanced(tokens[1..], depth)
  }

  /** A configured clause stays one condition with the placeholders it was given. */
  predicate ClauseStands(driver: Driver, texts: seq<string>) {
    && (forall i :: 0 <= i < |texts| ==> StandsApart(driver, texts[i], i == 0, i == |texts| - 1))
    && Balanced(AllOwn(driver, texts), 0)
  }

  predicate OperandReads(slot: Slot) {
    slot.Literal? ==> ReadJson(JsonString(slot.text)) == Some(slot.text)
  }

  /** Apart from its literals, the condition names the column, path and operand it was written for. */
  predicate NamesRead(driver: Driver, c: Cond) {
    match c
    case Clause(texts, _) => ClauseStands(driver, texts)
    case Compare(column, _, _) => ColumnReads(driver, column)
    case InList(column, _, _) => ColumnReads(driver, column)
    case JsonContains(name, path, slot) =>
      PlainName(name) && PathAsRead(driver, true, path) == Some(path) && OperandReads(slot)
    case Like(column, _, _, _) => ColumnReads(driver, column)
    case NotNull(column) => ColumnReads(driver, column)
    case Never => true
  }

  predicate FragmentsRead(driver: Driver, fragments: seq<Fragment>) {
    Lex(driver, TextOf(fragments)) == Some(TokensOf(driver, fragments))
  }

  /** The database reads a condition as what it was written for. */
  predicate CondReads(driver: Driver, c: Cond) {
    FragmentsRead(driver, CondFragments(driver, c)) && NamesRead(driver, c)
  }

  /** The same for the conditions of a query. */
  predicate WhereReads(driver: Driver, conditions: seq<Cond>) {
    && FragmentsRead(driver, WhereFragments(driver, conditions))
    && AllNamesRead(driver, conditions)
  }

  predicate AllNamesRead(driver: Driver, conditions: seq<Cond>) {
    forall i :: 0 <= i < |conditions| ==> NamesRead(driver, conditions[i])
  }

  // ---------------------------------------------------------------------------
  // Shape
  // ---------------------------------------------------------------------------

  /** Fragments that can be followed by any others. */
  predicate Shaped(fragments: seq<Fragment>) {
    Separated(fragments) && (fragments == [] || fragments[|fragments| - 1].Raw?)
  }

  lemma ShapedConcat(a: seq<Fragment>, b: seq<Fragment>)
    requires Shaped(a) && Shaped(b)
    ensures Shaped(a + b)
  {
    var c := a + b;
    forall i | 0 <= i < |c| - 1 && !c[i].Raw?
      ensures c[i + 1].Raw? && c[i + 1].text != [] && c[i + 1].text[0] != '\''
    {
      if i < |a| {
        assert c[i] == a[i];
        assert i < |a| - 1;
        assert c[i + 1] == a[i + 1];
      } else {
        assert c[i] == b[i - |a|] && c[i + 1] == b[i + 1 - |a|];
      }
    }
  }

  lemma CleanConcat(driver: Driver, a: seq<Fragment>, b: seq<Fragment>)
    ensures Clean(driver, a + b) <==> Clean(driver, a) && Clean(driver, b)
    ensures NoneOwn(a + b) <==> NoneOwn(a) && NoneOwn(b)
  {
    var c := a + b;
    assert forall i :: 0 <= i < |a| ==> c[i] == a[i];
    assert forall i :: 0 <= i < |b| ==> c[i + |a|] == b[i];
    if Clean(driver, c) {
      forall i | 0 <= i < |b|
        ensures CleanFragment(driver, b[i])
      {
        assert CleanFragment(driver, c[i + |a|]);
      }
    }
    if NoneOwn(c) {
      forall i | 0 <= i < |b|
        ensures !b[i].Own?
      {
        assert !c[i + |a|].Own?;
      }
    }
  }

  /** The whole is fit to be followed by others, brings no literals, and is clean exactly when the parts are. */
  predicate Fit(fragments: seq<Fragment>) {
    Shaped(fragments) && NoneOwn(fragments)
  }

  lemma Concat(driver: Driver, a: seq<Fragment>, b: seq<Fragment>)
    requires Fit(a) && Fit(b)
    ensures Fit(a + b) && (Clean(driver, a + b) <==> Clean(driver, a) && Clean(driver, b))
  {
    ShapedConcat(a, b);
    CleanConcat(driver, a, b);
  }

  lemma Concat3(driver: Driver, a: seq<Fragment>, b: seq<Fragment>, c: seq<Fragment>)
    requires Fit(a) && Fit(b) && Fit(c)
    ensures Fit(a + b + c)
    ensures Clean(driver, a + b + c) <==> Clean(driver, a) && Clean(driver, b) && Clean(driver, c)
  {
    Concat(driver, a, b);
    Concat(driver, a + b, c);
  }

  lemma Concat5(driver: Driver, a: seq<Fragment>, b: seq<Fragment>, c: seq<Fragment>, d: seq<Fragment>, e: seq<Fragment>)
    requires Fit(a) && Fit(b) && Fit(c) && Fit(d) && Fit(e)
    ensures Fit(a + b + c + d + e)
    ensures Clean(driver, a + b + c + d + e)
       <==> Clean(driver, a) && Clean(driver, b) && Clean(driver, c) && Clean(driver, d) && Clean(driver, e)
  {
    Concat3(driver, a, b, c);
    Concat3(driver, a + b + c, d, e);
  }

  lemma RawFits(driver: Driver, text: string)
    ensures Fit([Raw(text)]) && (Clean(driver, [Raw(text)]) <==> '\'' !in text)
  {
    assert Clean(driver, [Raw(text)]) ==> CleanFragment(driver, [Raw(text)][0]);
  }

  /** A name between fixed texts. */
  lemma NameFits(driver: Driver, before: string, name: string, after: string)
    requires '\'' !in before && '\'' !in after
    ensures var fragments := [Raw(before + name + after)];
            Fit(fragments) && (Clean(driver, fragments) <==> '\'' !in name)
  {
    RawFits(driver, before + name + after);
  }

  /** A name and a literal between fixed texts. */
  lemma LiteralFits(driver: Driver, before: string, name: string, middle: string, body: string, after: string)
    requires '\'' !in before && '\'' !in middle && after != [] && '\'' !in after
    ensures var fragments := [Raw(before + name + middle), Quoted(body), Raw(after)];
            Fit(fragments) && (Clean(driver, fragments) <==> '\'' !in name && Plain(driver, body))
  {
    var fragments := [Raw(before + name + middle), Quoted(body), Raw(after)];
    assert after[0] in after;
    if Clean(driver, fragments) {
      assert CleanFragment(driver, fragments[0]) && CleanFragment(driver, fragments[1]);
    }
  }

  lemma DigitsAreNoQuote(n: nat)
    ensures '\'' !in Numerals.Decimal(n)
  {
    Numerals.DecimalDigits(n);
  }

  predicate SlotClean(driver: Driver, slot: Slot) {
    slot.Literal? ==> '\'' !in slot.text && (driver == Mysql ==> '\\' !in JsonString(slot.text))
  }

  lemma SlotFits(driver: Driver, slot: Slot)
    ensures Fit(SlotFragments(slot)) && (Clean(driver, SlotFragments(slot)) <==> SlotClean(driver, slot))
    ensures !slot.Literal? ==> SlotFragments(slot)[0].Raw? && SlotFragments(slot)[0].text != []
                               && SlotFragments(slot)[0].text[0] != '\''
  {
    match slot
    case Dollar(n) =>
      DigitsAreNoQuote(n);
      RawFits(driver, ['$'] + Numerals.Decimal(n));
    case Question =>
      RawFits(driver, "?");
    case Literal(text) =>
      JsonKeepsQuotes(text);
      var fragments := SlotFragments(slot);
      if Clean(driver, fragments) {
        assert CleanFragment(driver, fragments[0]);
      }
  }

  lemma {:induction false} SlotListFits(driver: Driver, slots: seq<Slot>)
    requires NoLiterals(slots)
    ensures Fit(SlotList(slots)) && Clean(driver, SlotList(slots))
  {
    if |slots| > 0 {
      SlotFits(driver, slots[|slots| - 1]);
    }
    if |slots| > 1 {
      var init := slots[..|slots| - 1];
      SlotListFits(driver, init);
      RawFits(driver, ", ");
      Concat(driver, SlotList(init), [Raw(", ")]);
      Concat(driver, SlotList(init) + [Raw(", ")], SlotFragments(slots[|slots| - 1]));
    }
  }

  // ---------------------------------------------------------------------------
  // When the text of a condition is clean
  // ---------------------------------------------------------------------------

  /** The text of a path between its quotes. */
  function ExtractionPath(driver: Driver, path: seq<string>): string {
    if driver == Postgres then ArrayText(path) else DollarPath(path)
  }

  predicate ColumnClean(driver: Driver, column: Column) {
    match column
    case Field(table, name) => '\'' !in table && '\'' !in name
    case Bare(name) => '\'' !in name
    case JsonField(name, path) => '\'' !in name && Plain(driver, ExtractionPath(driver, path))
  }

  lemma ColumnFits(driver: Driver, column: Column)
    ensures Fit(ColumnFragments(driver, column))
    ensures Clean(driver, ColumnFragments(driver, column)) <==> ColumnClean(driver, column)
  {
    match column
    case Field(table, name) => RawFits(driver, table + "." + name);
    case Bare(name) => RawFits(driver, name);
    case JsonField(name, path) => ExtractionFits(driver, name, path);
  }

  lemma ExtractionFits(driver: Driver, name: string, path: seq<string>)
    ensures Fit(Extraction(driver, name, path))
    ensures Clean(driver, Extraction(driver, name, path)) <==> '\'' !in name && Plain(driver, ExtractionPath(driver, path))
  {
    match driver
    case Postgres => LiteralFits(driver, "(", name, " #>> ", ArrayText(path), ")");
    case Mysql => LiteralFits(driver, "JSON_UNQUOTE(JSON_EXTRACT(", name, ", ", DollarPath(path), "))");
    case Sqlite => LiteralFits(driver, "json_extract(", name, ", ", DollarPath(path), ")");
  }

  predicate ContainsClean(driver: Driver, name: string, path: seq<string>) {
    && '\'' !in name
    && (EmptyPath(path)
        || Plain(driver, if driver == Postgres && |path| == 1 then path[0] else ExtractionPath(driver, path)))
  }

  /** The texts around the slot fit, and the text before it is clean exactly when what it holds is. */
  predicate ContainsFit(driver: Driver, name: string, path: seq<string>) {
    var (before, after) := ContainsFragments(driver, name, path);
    && Fit(before) && (Clean(driver, before) <==> ContainsClean(driver, name, path))
    && Fit(after) && Clean(driver, after)
  }

  lemma ContainsFits(driver: Driver, name: string, path: seq<string>)
    ensures ContainsFit(driver, name, path)
  {
    match driver
    case Postgres => PostgresContainsFits(name, path);
    case Mysql => MysqlContainsFits(name, path);
    case Sqlite => SqliteContainsFits(name, path);
  }

  lemma PostgresContainsFits(name: string, path: seq<string>)
    ensures ContainsFit(Postgres, name, path)
  {
    RawFits(Postgres, " @> ");
    if EmptyPath(path) {
      RawFits(Postgres, name);
      Concat(Postgres, [Raw(name)], [Raw(" @> ")]);
    } else if |path| == 1 {
      LiteralFits(Postgres, "(", name, "->", path[0], ")");
      Concat(Postgres, [Raw("(" + name + "->"), Quoted(path[0]), Raw(")")], [Raw(" @> ")]);
    } else {
      LiteralFits(Postgres, "(", name, " #> ", ArrayText(path), ")");
      Concat(Postgres, [Raw("(" + name + " #> "), Quoted(ArrayText(path)), Raw(")")], [Raw(" @> ")]);
    }
  }

  lemma MysqlContainsFits(name: string, path: seq<string>)
    ensures ContainsFit(Mysql, name, path)
  {
    RawFits(Mysql, "))");
    if EmptyPath(path) {
      NameFits(Mysql, "JSON_CONTAINS(", name, ", JSON_QUOTE(");
    } else {
      LiteralFits(Mysql, "JSON_CONTAINS(JSON_EXTRACT(", name, ", ", DollarPath(path), "), JSON_QUOTE(");
    }
  }

  lemma SqliteContainsFits(name: string, path: seq<string>)
    ensures ContainsFit(Sqlite, name, path)
  {
    RawFits(Sqlite, ")");
    if EmptyPath(path) {
      LiteralFits(Sqlite, "EXISTS (SELECT 1 FROM json_each(", name, ", ", "$", ") WHERE value = ");
    } else {
      LiteralFits(Sqlite, "json_extract(", name, ", ", DollarPath(path), ") = ");
    }
  }

  lemma PatternFits(driver: Driver, pattern: Pattern, slot: Slot)
    requires !slot.Literal?
    ensures Fit(PatternFragments(pattern, slot)) && Clean(driver, PatternFragments(pattern, slot))
  {
    SlotFits(driver, slot);
    match pattern
    case Whole =>
    case StartingWith =>
      RawFits(driver, "CONCAT(");
      PercentFits(driver, ", ", ")");
      Concat3(driver, [Raw("CONCAT(")], SlotFragments(slot), [Raw(", "), Quoted("%"), Raw(")")]);
    case EndingWith =>
      RawFits(driver, ")");
      PercentFits(driver, "CONCAT(", ", ");
      Concat3(driver, [Raw("CONCAT("), Quoted("%"), Raw(", ")], SlotFragments(slot), [Raw(")")]);
  }

  lemma PercentFits(driver: Driver, before: string, after: string)
    requires '\'' !in before && after != [] && '\'' !in after
    ensures var fragments := [Raw(before), Quoted("%"), Raw(after)];
            Fit(fragments) && Clean(driver, fragments)
  {
    LiteralFits(driver, before, "", "", "%", after);
    assert before + "" + "" == before;
  }

  /** What a condition pastes into its text leaves the literals as they were meant. */
  predicate CondClean(driver: Driver, c: Cond) {
    match c
    case Clause(texts, _) => forall i :: 0 <= i < |texts| ==> Lex(driver, texts[i]).Some?
    case Compare(column, _, _) => ColumnClean(driver, column)
    case InList(column, _, _) => ColumnClean(driver, column)
    case JsonContains(name, path, slot) => ContainsClean(driver, name, path) && SlotClean(driver, slot)
    case Like(column, _, _, _) => ColumnClean(driver, column)
    case NotNull(column) => ColumnClean(driver, column)
    case Never => true
  }

  /** Only containment writes its operand into the text, and a clause has a text around each slot. */
  predicate Regular(c: Cond) {
    && (!c.JsonContains? ==> NoLiterals(SlotsOf(c)))
    && (c.Clause? ==> |c.texts| == |c.slots| + 1)
  }

  predicate NoLiterals(slots: seq<Slot>) {
    forall i :: 0 <= i < |slots| ==> !slots[i].Literal?
  }

  /** The text of a condition can be followed by others, and is clean exactly when what was pasted into it is. */
  predicate CondFit(driver: Driver, c: Cond) {
    Fit(CondFragments(driver, c)) && (Clean(driver, CondFragments(driver, c)) <==> CondClean(driver, c))
  }

  lemma CompareFits(driver: Driver, c: Cond)
    requires c.Compare? && Regular(c)
    ensures CondFit(driver, c)
  {
    assert !SlotsOf(c)[0].Literal?;
    ColumnFits(driver, c.column);
    RawFits(driver, ComparisonText(driver, c.op));
    SlotFits(driver, c.slot);
    Concat3(driver, ColumnFragments(driver, c.column), [Raw(ComparisonText(driver, c.op))], SlotFragments(c.slot));
  }

  lemma InListFits(driver: Driver, c: Cond)
    requires c.InList? && Regular(c)
    ensures CondFit(driver, c)
  {
    var before := if c.negated then [Raw("NOT ")] else [];
    RawFits(driver, "NOT ");
    ColumnFits(driver, c.column);
    RawFits(driver, " IN (");
    SlotListFits(driver, c.slots);
    RawFits(driver, ")");
    Concat5(driver, before, ColumnFragments(driver, c.column), [Raw(" IN (")], SlotList(c.slots), [Raw(")")]);
  }

  lemma JsonContainsFits(driver: Driver, c: Cond)
    requires c.JsonContains?
    ensures CondFit(driver, c)
  {
    var (before, after) := ContainsFragments(driver, c.name, c.path);
    ContainsFits(driver, c.name, c.path);
    SlotFits(driver, c.slot);
    Concat3(driver, before, SlotFragments(c.slot), after);
  }

  lemma LikeFits(driver: Driver, c: Cond)
    requires c.Like? && Regular(c)
    ensures CondFit(driver, c)
  {
    assert !SlotsOf(c)[0].Literal?;
    ColumnFits(driver, c.column);
    PatternFits(driver, c.pattern, c.slot);
    if c.ignoreCase {
      LowerFits(driver, ColumnFragments(driver, c.column), PatternFragments(c.pattern, c.slot));
    } else {
      RawFits(driver, " LIKE ");
      Concat3(driver, ColumnFragments(driver, c.column), [Raw(" LIKE ")], PatternFragments(c.pattern, c.slot));
    }
  }

  lemma LowerFits(driver: Driver, column: seq<Fragment>, pattern: seq<Fragment>)
    requires Fit(column) && Fit(pattern)
    ensures var fragments :=
              [Raw("LOWER(")] + column + [Raw(if driver == Postgres then ") ILIKE LOWER(" else ") LIKE LOWER(")]
              + pattern + [Raw(")")];
            Fit(fragments) && (Clean(driver, fragments) <==> Clean(driver, column) && Clean(driver, pattern))
  {
    var op := if driver == Postgres then ") ILIKE LOWER(" else ") LIKE LOWER(";
    RawFits(driver, "LOWER(");
    RawFits(driver, op);
    RawFits(driver, ")");
    Concat5(driver, [Raw("LOWER(")], column, [Raw(op)], pattern, [Raw(")")]);
  }

  lemma CondFits(driver: Driver, c: Cond)
    requires !c.Clause? && Regular(c)
    ensures CondFit(driver, c)
  {
    match c
    case Compare(_, _, _) => CompareFits(driver, c);
    case InList(_, _, _) => InListFits(driver, c);
    case JsonContains(_, _, _) => JsonContainsFits(driver, c);
    case Like(_, _, _, _) => LikeFits(driver, c);
    case NotNull(column) =>
      ColumnFits(driver, column);
      RawFits(driver, " IS NOT NULL");
      Concat(driver, ColumnFragments(driver, column), [Raw(" IS NOT NULL")]);
    case Never => RawFits(driver, "1 = 0");
  }

  /** A configured clause that is read on its own is read the same way inside a query. */
  lemma {:induction false} ClauseFits(driver: Driver, texts: seq<string>, slots: seq<Slot>)
    requires |texts| == |slots| + 1
    requires NoLiterals(slots)
    requires forall i :: 0 <= i < |texts| ==> Lex(driver, texts[i]).Some?
    ensures Clean(driver, Interleaved(texts, slots)) && Shaped(Interleaved(texts, slots) + [Raw(")")])
  {
    if slots == [] {
      assert Interleaved(texts, slots) + [Raw(")")] == [Own(texts[0]), Raw(")")];
    } else {
      var slot, rest := SlotFragments(slots[0]), Interleaved(texts[1..], slots[1..]);
      ClauseFits(driver, texts[1..], slots[1..]);
      SlotFits(driver, slots[0]);
      CleanConcat(driver, [Own(texts[0])], slot);
      CleanConcat(driver, [Own(texts[0])] + slot, rest);
      assert Shaped([Own(texts[0])] + slot);
      ShapedConcat([Own(texts[0])] + slot, rest + [Raw(")")]);
      Associative([Own(texts[0])] + slot, rest, [Raw(")")]);
    }
  }

  lemma ClauseCondFits(driver: Driver, c: Cond)
    requires c.Clause? && Regular(c) && CondClean(driver, c)
    ensures Shaped(CondFragments(driver, c)) && Clean(driver, CondFragments(driver, c))
  {
    var middle := Interleaved(c.texts, c.slots);
    ClauseFits(driver, c.texts, c.slots);
    RawFits(driver, "(");
    RawFits(driver, ")");
    ShapedConcat([Raw("(")], middle + [Raw(")")]);
    CleanConcat(driver, [Raw("(")], middle);
    CleanConcat(driver, [Raw("(")] + middle, [Raw(")")]);
    Associative([Raw("(")], middle, [Raw(")")]);
  }

  // ---------------------------------------------------------------------------
  // When conditions are read as written
  // ---------------------------------------------------------------------------

  lemma CleanWhole(driver: Driver, fragments: seq<Fragment>)
    requires Shaped(fragments) && Clean(driver, fragments)
    ensures FragmentsRead(driver, fragments)
  {
    CleanReads(driver, fragments, []);
    assert TextOf(fragments) + [] == TextOf(fragments);
    assert TokensOf(driver, fragments) + [] == TokensOf(driver, fragments);
  }

  lemma {:induction false} WhereFits(driver: Driver, conditions: seq<Cond>)
    requires forall i :: 0 <= i < |conditions| ==> Regular(conditions[i]) && CondClean(driver, conditions[i])
    ensures Shaped(WhereFragments(driver, conditions)) && Clean(driver, WhereFragments(driver, conditions))
  {
    if conditions != [] {
      var init, last := conditions[..|conditions| - 1], conditions[|conditions| - 1];
      if last.Clause? {
        ClauseCondFits(driver, last);
      } else {
        CondFits(driver, last);
      }
      if init != [] {
        WhereFits(driver, init);
        WhereAppend(driver, init, last);
      }
    }
  }

  lemma WhereAppend(driver: Driver, init: seq<Cond>, last: Cond)
    requires init != []
    ensures WhereFragments(driver, init + [last])
         == WhereFragments(driver, init) + [Raw(" AND ")] + CondFragments(driver, last)
    ensures Shaped(WhereFragments(driver, init)) && Shaped(CondFragments(driver, last))
        ==> Shaped(WhereFragments(driver, init + [last]))
    ensures Clean(driver, WhereFragments(driver, init + [last]))
       <==> Clean(driver, WhereFragments(driver, init)) && Clean(driver, CondFragments(driver, last))
  {
    var a, b := WhereFragments(driver, init), CondFragments(driver, last);
    assert (init + [last])[..|init|] == init;
    RawFits(driver, " AND ");
    CleanConcat(driver, a, [Raw(" AND ")]);
    CleanConcat(driver, a + [Raw(" AND ")], b);
    if Shaped(a) && Shaped(b) {
      ShapedConcat(a, [Raw(" AND ")]);
      ShapedConcat(a + [Raw(" AND ")], b);
    }
  }

  /** Conditions that are clean and name what they were written for are read as written. */
  lemma CleanConditionsRead(driver: Driver, conditions: seq<Cond>)
    requires forall i :: 0 <= i < |conditions| ==>
               Regular(conditions[i]) && CondClean(driver, conditions[i]) && NamesRead(driver, conditions[i])
    ensures WhereReads(driver, conditions)
  {
    WhereFits(driver, conditions);
    CleanWhole(driver, WhereFragments(driver, conditions));
  }

  /** A condition other than a clause is read as written exactly when it is clean and names what it was written for. */
  lemma CondReadsExactly(driver: Driver, c: Cond)
    requires !c.Clause? && Regular(c)
    ensures CondReads(driver, c) <==> CondClean(driver, c) && NamesRead(driver, c)
  {
    CondFits(driver, c);
    ReadsBackExactly(driver, CondFragments(driver, c));
  }

  // ---------------------------------------------------------------------------
  // Several conditions
  // ---------------------------------------------------------------------------

  /** The text of conditions that follow another. */
  function Following(driver: Driver, conditions: seq<Cond>): seq<Fragment> {
    if conditions == [] then []
    else
      Following(driver, conditions[..|conditions| - 1]) + [Raw(" AND ")]
      + CondFragments(driver, conditions[|conditions| - 1])
  }

  lemma {:induction false} WhereIsFollowed(driver: Driver, first: Cond, others: seq<Cond>)
    ensures WhereFragments(driver, [first] + others) == CondFragments(driver, first) + Following(driver, others)
  {
    var conditions := [first] + others;
    if others == [] {
      assert conditions == [first];
    } else {
      var init, last := others[..|others| - 1], others[|others| - 1];
      WhereIsFollowed(driver, first, init);
      LastApart(first, others);
      WhereAppend(driver, [first] + init, last);
      AssociativeFour(CondFragments(driver, first), Following(driver, init), [Raw(" AND ")], CondFragments(driver, last));
    }
  }

  lemma LastApart<T>(first: T, others: seq<T>)
    requires others != []
    ensures [first] + others == [first] + others[..|others| - 1] + [others[|others| - 1]]
  {
  }

  lemma AssociativeFour<T>(a: seq<T>, b: seq<T>, c: seq<T>, d: seq<T>)
    ensures a + (b + c + d) == a + b + c + d
  {
    Associative(a, b + c, d);
    Associative(a, b, c);
  }

  predicate AllClean(driver: Driver, conditions: seq<Cond>) {
    forall i :: 0 <= i < |conditions| ==> CondClean(driver, conditions[i])
  }

  predicate NoClause(conditions: seq<Cond>) {
    forall i :: 0 <= i < |conditions| ==> Regular(conditions[i]) && !conditions[i].Clause?
  }

  lemma AllCleanLast(driver: Driver, conditions: seq<Cond>)
    requires conditions != []
    ensures AllClean(driver, conditions)
       <==> AllClean(driver, conditions[..|conditions| - 1]) && CondClean(driver, conditions[|conditions| - 1])
  {
    assert conditions == conditions[..|conditions| - 1] + [conditions[|conditions| - 1]];
  }

  lemma {:induction false} FollowingFits(driver: Driver, conditions: seq<Cond>)
    requires NoClause(conditions)
    ensures Fit(Following(driver, conditions))
    ensures Clean(driver, Following(driver, conditions)) <==> AllClean(driver, conditions)
  {
    if conditions != [] {
      var init, last := conditions[..|conditions| - 1], conditions[|conditions| - 1];
      FollowingFits(driver, init);
      AllCleanLast(driver, conditions);
      CondFits(driver, last);
      AndFits(driver, Following(driver, init), CondFragments(driver, last));
    }
  }

  lemma AndFits(driver: Driver, a: seq<Fragment>, b: seq<Fragment>)
    requires Fit(a) && Fit(b)
    ensures Fit(a + [Raw(" AND ")] + b)
    ensures Clean(driver, a + [Raw(" AND ")] + b) <==> Clean(driver, a) && Clean(driver, b)
  {
    RawFits(driver, " AND ");
    Concat3(driver, a, [Raw(" AND ")], b);
  }

  lemma AllCleanFirst(driver: Driver, conditions: seq<Cond>)
    requires conditions != []
    ensures AllClean(driver, conditions) <==> CondClean(driver, conditions[0]) && AllClean(driver, conditions[1..])
  {
    assert forall i :: 0 < i < |conditions| ==> conditions[i] == conditions[1..][i - 1];
  }

  /** Behind a clause that is read on its own, the text of other conditions reads back exactly when each is clean. */
  lemma WhereReadsExactly(driver: Driver, clause: seq<Cond>, others: seq<Cond>)
    requires |clause| <= 1 && (clause != [] ==> clause[0].Clause? && Regular(clause[0]) && CondClean(driver, clause[0]))
    requires NoClause(others)
    ensures FragmentsRead(driver, WhereFragments(driver, clause + others)) <==> AllClean(driver, others)
  {
    if clause != [] {
      assert clause == [clause[0]];
      WhereIsFollowed(driver, clause[0], others);
      ClauseCondFits(driver, clause[0]);
      FollowingFits(driver, others);
      ReadsBackAfter(driver, CondFragments(driver, clause[0]), Following(driver, others));
    } else if others != [] {
      assert clause + others == [others[0]] + others[1..];
      WhereIsFollowed(driver, others[0], others[1..]);
      CondFits(driver, others[0]);
      FollowingFits(driver, others[1..]);
      Concat(driver, CondFragments(driver, others[0]), Following(driver, others[1..]));
      AllCleanFirst(driver, others);
      ReadsBackExactly(driver, WhereFragments(driver, clause + others));
    }
  }
}
