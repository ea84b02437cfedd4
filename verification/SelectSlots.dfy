/** The placeholders that a database reads from the text of conditions are those that the
    conditions were given, in the same order. */
module SelectSlots {
  import opened SqlText
  import opened JsonText
  import opened PathText
  import opened FilterKeys
  import opened LikePattern
  import opened SlotText
  import opened SelectText
  import Numerals

  /** The slots that are placeholders; the others are written into the text. */
  function Placeheld(slots: seq<Slot>): seq<Slot> {
    if slots == [] then []
    else Placeheld(slots[..|slots| - 1]) + if slots[|slots| - 1].Literal? then [] else [slots[|slots| - 1]]
  }

  lemma {:induction false} PlaceheldConcat(a: seq<Slot>, b: seq<Slot>)
    ensures Placeheld(a + b) == Placeheld(a) + Placeheld(b)
  {
    if b == [] {
      assert a + b == a;
    } else {
      PlaceheldConcat(a, b[..|b| - 1]);
      assert (a + b)[..|a + b| - 1] == a + b[..|b| - 1];
    }
  }

  lemma PlaceheldOne(slot: Slot)
    ensures Placeheld([slot]) == if slot.Literal? then [] else [slot]
  {
    assert [slot][..0] == [];
  }

  /** A slot of the form that this database has. */
  predicate Native(driver: Driver, slot: Slot) {
    if driver == Postgres then !slot.Question? else !slot.Dollar?
  }

  predicate AllNative(driver: Driver, slots: seq<Slot>) {
    forall i :: 0 <= i < |slots| ==> Native(driver, slots[i])
  }

  // ---------------------------------------------------------------------------
  // Fragments
  // ---------------------------------------------------------------------------

  ghost predicate HasTokens(driver: Driver, fragments: seq<Fragment>, tokens: seq<Token>) {
    tokens == TokensOf(driver, fragments)
  }

  /** Reading these fragments adds these placeholders and ends like this. */
  ghost predicate Reads(driver: Driver, fragments: seq<Fragment>, st: Scan, slots: seq<Slot>, end: Scan) {
    forall tokens {:trigger HasTokens(driver, fragments, tokens)} ::
      HasTokens(driver, fragments, tokens) ==> Adds(driver, tokens, st, slots, end)
  }

  lemma ReadsTokens(driver: Driver, fragments: seq<Fragment>, st: Scan, slots: seq<Slot>, end: Scan)
    ensures Reads(driver, fragments, st, slots, end) <==> Adds(driver, TokensOf(driver, fragments), st, slots, end)
  {
    assert HasTokens(driver, fragments, TokensOf(driver, fragments));
  }

  lemma ReadsConcat(driver: Driver, a: seq<Fragment>, b: seq<Fragment>, st: Scan, s: seq<Slot>, mid: Scan, t: seq<Slot>, end: Scan)
    requires Reads(driver, a, st, s, mid) && Reads(driver, b, mid, t, end)
    ensures Reads(driver, a + b, st, s + t, end)
  {
    ReadsTokens(driver, a, st, s, mid);
    ReadsTokens(driver, b, mid, t, end);
    ReadsTokens(driver, a + b, st, s + t, end);
    TokensConcat(driver, a, b);
    AddsConcat(driver, TokensOf(driver, a), TokensOf(driver, b), st, s, mid, t, end);
  }

  /** Around text that holds slots stands text that holds none. */
  lemma ReadsBetween(driver: Driver, a: seq<Fragment>, b: seq<Fragment>, c: seq<Fragment>, st: Scan, x: Scan, slots: seq<Slot>, y: Scan, end: Scan)
    requires Reads(driver, a, st, [], x) && Reads(driver, b, x, slots, y) && Reads(driver, c, y, [], end)
    ensures Reads(driver, a + b + c, st, slots, end)
  {
    ReadsConcat(driver, a, b, st, [], x, slots, y);
    ReadsConcat(driver, a + b, c, st, [] + slots, y, [], end);
    assert [] + slots + [] == slots;
  }

  lemma ReadsBehind(driver: Driver, a: seq<Fragment>, b: seq<Fragment>, st: Scan, x: Scan, slots: seq<Slot>, end: Scan)
    requires Reads(driver, a, st, [], x) && Reads(driver, b, x, slots, end)
    ensures Reads(driver, a + b, st, slots, end)
  {
    ReadsConcat(driver, a, b, st, [], x, slots, end);
    assert [] + slots == slots;
  }

  lemma TokensOfOne(driver: Driver, f: Fragment)
    ensures TokensOf(driver, [f]) == FragmentTokens(driver, f)
  {
    assert [f][1..] == [];
    assert FragmentTokens(driver, f) + [] == FragmentTokens(driver, f);
  }

  /** Fixed text. */
  lemma TextReads(driver: Driver, text: string, st: Scan)
    requires text != [] && Silent(driver, text) && !IsDigitChar(text[0])
    ensures Reads(driver, [Raw(text)], st, [], EndOf(text))
  {
    TokensOfOne(driver, Raw(text));
    SilentAdds(driver, text, st);
    ReadsTokens(driver, [Raw(text)], st, [], EndOf(text));
  }

  lemma QuotedReadsNothing(driver: Driver, body: string, st: Scan)
    ensures Reads(driver, [Quoted(body)], st, [], Outside)
  {
    TokensOfOne(driver, Quoted(body));
    LiteralAdds(driver, body, st);
    ReadsTokens(driver, [Quoted(body)], st, [], Outside);
  }

  lemma NameReads(driver: Driver, name: string, st: Scan)
    requires PlainName(name)
    ensures Reads(driver, [Raw(name)], st, [], InName)
  {
    TokensOfOne(driver, Raw(name));
    NameAdds(driver, name, st);
    ReadsTokens(driver, [Raw(name)], st, [], InName);
  }

  /** Texts that are written one behind the other in one piece. */
  lemma RawTogether(driver: Driver, a: string, b: string, st: Scan, x: Scan, end: Scan)
    requires Reads(driver, [Raw(a)], st, [], x) && Reads(driver, [Raw(b)], x, [], end)
    ensures Reads(driver, [Raw(a + b)], st, [], end)
  {
    ReadsTokens(driver, [Raw(a)], st, [], x);
    ReadsTokens(driver, [Raw(b)], x, [], end);
    ReadsTokens(driver, [Raw(a + b)], st, [], end);
    TokensOfOne(driver, Raw(a));
    TokensOfOne(driver, Raw(b));
    TokensOfOne(driver, Raw(a + b));
    MarksConcat(a, b);
    AddsConcat(driver, Marks(a), Marks(b), st, [], x, [], end);
  }

  /** Fixed text, a name, fixed text. */
  lemma NamedReads(driver: Driver, before: string, name: string, after: string, st: Scan)
    requires PlainName(name)
    requires before != [] && Silent(driver, before) && !IsDigitChar(before[0])
    requires after != [] && Silent(driver, after) && !IsDigitChar(after[0])
    ensures Reads(driver, [Raw(before + name + after)], st, [], EndOf(after))
  {
    TextReads(driver, before, st);
    NameReads(driver, name, EndOf(before));
    TextReads(driver, after, InName);
    RawTogether(driver, before, name, st, EndOf(before), InName);
    RawTogether(driver, before + name, after, st, InName, EndOf(after));
  }

  /** Fixed text, a name, fixed text, a literal, fixed text. */
  lemma LiteralNamedReads(driver: Driver, before: string, name: string, middle: string, body: string, after: string, st: Scan)
    requires PlainName(name)
    requires before != [] && Silent(driver, before) && !IsDigitChar(before[0])
    requires middle != [] && Silent(driver, middle) && !IsDigitChar(middle[0])
    requires after != [] && Silent(driver, after) && !IsDigitChar(after[0])
    ensures Reads(driver, [Raw(before + name + middle), Quoted(body), Raw(after)], st, [], EndOf(after))
  {
    NamedReads(driver, before, name, middle, st);
    LiteralThenReads(driver, before + name + middle, body, after, st, EndOf(middle));
  }

  lemma LiteralThenReads(driver: Driver, before: string, body: string, after: string, st: Scan, mid: Scan)
    requires Reads(driver, [Raw(before)], st, [], mid)
    requires after != [] && Silent(driver, after) && !IsDigitChar(after[0])
    ensures Reads(driver, [Raw(before), Quoted(body), Raw(after)], st, [], EndOf(after))
  {
    QuotedReadsNothing(driver, body, mid);
    TextReads(driver, after, Outside);
    ReadsBetween(driver, [Raw(before)], [Quoted(body)], [Raw(after)], st, mid, [], Outside, EndOf(after));
    assert [Raw(before)] + [Quoted(body)] + [Raw(after)] == [Raw(before), Quoted(body), Raw(after)];
  }

  // ---------------------------------------------------------------------------
  // Slots and columns
  // ---------------------------------------------------------------------------

  function AfterSlot(slot: Slot): Scan {
    match slot
    case Dollar(n) => InNumber(n)
    case Question => Outside
    case Literal(_) => InName
  }

  lemma SlotReads(driver: Driver, slot: Slot, st: Scan)
    requires Native(driver, slot) && (slot.Dollar? ==> !st.InName?)
    ensures Reads(driver, SlotFragments(slot), st, Placeheld([slot]), AfterSlot(slot))
  {
    PlaceheldOne(slot);
    match slot
    case Dollar(n) => DollarReads(n, st);
    case Question => QuestionReads(driver, st);
    case Literal(text) => CastReads(driver, JsonString(text), "::jsonb", st);
  }

  lemma DollarReads(n: nat, st: Scan)
    requires !st.InName?
    ensures Reads(Postgres, [Raw(['$'] + Numerals.Decimal(n))], st, [Dollar(n)], InNumber(n))
  {
    var text := ['$'] + Numerals.Decimal(n);
    TokensOfOne(Postgres, Raw(text));
    DollarAdds(n, st);
    ReadsTokens(Postgres, [Raw(text)], st, [Dollar(n)], InNumber(n));
  }

  lemma QuestionReads(driver: Driver, st: Scan)
    requires driver != Postgres
    ensures Reads(driver, [Raw("?")], st, [Question], Outside)
  {
    TokensOfOne(driver, Raw("?"));
    QuestionAdds(driver, st);
    ReadsTokens(driver, [Raw("?")], st, [Question], Outside);
  }

  lemma CastReads(driver: Driver, body: string, cast: string, st: Scan)
    requires cast != [] && Silent(driver, cast) && !IsDigitChar(cast[0])
    ensures Reads(driver, [Quoted(body), Raw(cast)], st, [], EndOf(cast))
  {
    QuotedReadsNothing(driver, body, st);
    TextReads(driver, cast, Outside);
    ReadsBehind(driver, [Quoted(body)], [Raw(cast)], st, Outside, [], EndOf(cast));
    assert [Quoted(body)] + [Raw(cast)] == [Quoted(body), Raw(cast)];
  }

  function AfterColumn(column: Column): Scan {
    if column.JsonField? then Outside else InName
  }

  lemma ColumnReadsNothing(driver: Driver, column: Column, st: Scan)
    requires ColumnReads(driver, column)
    ensures Reads(driver, ColumnFragments(driver, column), st, [], AfterColumn(column))
  {
    match column
    case Field(table, name) => FieldReads(driver, table, name, st);
    case Bare(name) => NameReads(driver, name, st);
    case JsonField(name, path) => ExtractionReads(driver, name, path, st);
  }

  lemma FieldReads(driver: Driver, table: string, name: string, st: Scan)
    requires PlainName(table) && PlainName(name)
    ensures Reads(driver, [Raw(table + "." + name)], st, [], InName)
  {
    NameReads(driver, table, st);
    TextReads(driver, ".", InName);
    NameReads(driver, name, Outside);
    RawTogether(driver, table, ".", st, InName, Outside);
    RawTogether(driver, table + ".", name, st, Outside, InName);
  }

  lemma ExtractionReads(driver: Driver, name: string, path: seq<string>, st: Scan)
    requires PlainName(name)
    ensures Reads(driver, Extraction(driver, name, path), st, [], Outside)
  {
    match driver
    case Postgres => LiteralNamedReads(driver, "(", name, " #>> ", ArrayText(path), ")", st);
    case Mysql => LiteralNamedReads(driver, "JSON_UNQUOTE(JSON_EXTRACT(", name, ", ", DollarPath(path), "))", st);
    case Sqlite => LiteralNamedReads(driver, "json_extract(", name, ", ", DollarPath(path), ")", st);
  }

  // ---------------------------------------------------------------------------
  // Joined by fixed text
  // ---------------------------------------------------------------------------

  /** Text that holds no placeholder, continues no number, and is continued by no name. */
  predicate Joint(driver: Driver, text: string) {
    text != [] && Silent(driver, text) && !IsDigitChar(text[0]) && EndOf(text) == Outside
  }

  lemma JointReads(driver: Driver, a: seq<Fragment>, text: string, b: seq<Fragment>, st: Scan, s: seq<Slot>, x: Scan, t: seq<Slot>, end: Scan)
    requires Joint(driver, text) && Reads(driver, a, st, s, x) && Reads(driver, b, Outside, t, end)
    ensures Reads(driver, a + [Raw(text)] + b, st, s + t, end)
  {
    TextReads(driver, text, x);
    ReadsConcat(driver, a, [Raw(text)], st, s, x, [], Outside);
    assert s + [] == s;
    ReadsConcat(driver, a + [Raw(text)], b, st, s, Outside, t, end);
  }

  /** The same when only what follows holds placeholders. */
  lemma JointBehind(driver: Driver, a: seq<Fragment>, text: string, b: seq<Fragment>, x: Scan, t: seq<Slot>, end: Scan)
    requires Joint(driver, text) && Reads(driver, a, Outside, [], x) && Reads(driver, b, Outside, t, end)
    ensures Reads(driver, a + [Raw(text)] + b, Outside, t, end)
  {
    JointReads(driver, a, text, b, Outside, [], x, t, end);
    assert [] + t == t;
  }

  lemma ClosedBy(driver: Driver, a: seq<Fragment>, text: string, s: seq<Slot>, x: Scan)
    requires Joint(driver, text) && Reads(driver, a, Outside, s, x)
    ensures Reads(driver, a + [Raw(text)], Outside, s, Outside)
  {
    TextReads(driver, text, x);
    ReadsConcat(driver, a, [Raw(text)], Outside, s, x, [], Outside);
    assert s + [] == s;
  }

  lemma OpenedBy(driver: Driver, text: string, b: seq<Fragment>, t: seq<Slot>, end: Scan)
    requires Joint(driver, text) && Reads(driver, b, Outside, t, end)
    ensures Reads(driver, [Raw(text)] + b, Outside, t, end)
  {
    TextReads(driver, text, Outside);
    ReadsBehind(driver, [Raw(text)], b, Outside, Outside, t, end);
  }

  lemma JointsAreJoints(driver: Driver)
    ensures Joint(driver, ", ") && Joint(driver, " IN (") && Joint(driver, ")") && Joint(driver, " LIKE ")
    ensures Joint(driver, "NOT ") && Joint(driver, "LOWER(") && Joint(driver, "CONCAT(") && Joint(driver, " AND ")
    ensures Joint(driver, ") ILIKE LOWER(") && Joint(driver, ") LIKE LOWER(") && Joint(driver, "(") && Joint(driver, "))")
  {
  }

  lemma ComparisonsAreJoints(driver: Driver, op: Comparison)
    ensures Joint(driver, ComparisonText(driver, op))
  {
  }

  // ---------------------------------------------------------------------------
  // Conditions
  // ---------------------------------------------------------------------------

  function AfterList(slots: seq<Slot>): Scan {
    if slots == [] then Outside else AfterSlot(slots[|slots| - 1])
  }

  lemma {:induction false} ListReads(driver: Driver, slots: seq<Slot>)
    requires AllNative(driver, slots)
    ensures Reads(driver, SlotList(slots), Outside, Placeheld(slots), AfterList(slots))
  {
    if slots == [] {
      ReadsTokens(driver, [], Outside, [], Outside);
    } else if |slots| == 1 {
      SlotReads(driver, slots[0], Outside);
      assert slots == [slots[0]];
    } else {
      var init, last := slots[..|slots| - 1], slots[|slots| - 1];
      ListReads(driver, init);
      SlotReads(driver, last, Outside);
      JointsAreJoints(driver);
      JointReads(driver, SlotList(init), ", ", SlotFragments(last), Outside, Placeheld(init), AfterList(init),
                 Placeheld([last]), AfterSlot(last));
      PlaceheldConcat(init, [last]);
      assert slots == init + [last];
    }
  }

  function AfterPattern(pattern: Pattern, slot: Slot): Scan {
    if pattern.Whole? then AfterSlot(slot) else Outside
  }

  function AfterCond(driver: Driver, c: Cond): Scan {
    match c
    case Compare(_, _, slot) => AfterSlot(slot)
    case JsonContains(name, path, slot) => if ContainsFragments(driver, name, path).1 == [] then AfterSlot(slot) else Outside
    case Like(_, pattern, slot, ignoreCase) => if ignoreCase then Outside else AfterPattern(pattern, slot)
    case NotNull(_) => InName
    case Never => InName
    case _ => Outside
  }

  /** The placeholders read from the text of a condition are its own. */
  ghost predicate OwnRead(driver: Driver, c: Cond) {
    Reads(driver, CondFragments(driver, c), Outside, Placeheld(SlotsOf(c)), AfterCond(driver, c))
  }

  lemma CompareReads(driver: Driver, column: Column, op: Comparison, slot: Slot)
    requires ColumnReads(driver, column) && Native(driver, slot)
    ensures OwnRead(driver, Compare(column, op, slot))
  {
    ColumnReadsNothing(driver, column, Outside);
    ComparisonsAreJoints(driver, op);
    SlotReads(driver, slot, Outside);
    JointBehind(driver, ColumnFragments(driver, column), ComparisonText(driver, op), SlotFragments(slot),
                AfterColumn(column), Placeheld([slot]), AfterSlot(slot));
  }

  lemma InListReads(driver: Driver, column: Column, slots: seq<Slot>, negated: bool)
    requires ColumnReads(driver, column) && AllNative(driver, slots)
    ensures OwnRead(driver, InList(column, slots, negated))
  {
    var not_ := if negated then [Raw("NOT ")] else [];
    ColumnReadsNothing(driver, column, Outside);
    ListReads(driver, slots);
    NotBefore(driver, negated, ColumnFragments(driver, column), AfterColumn(column));
    InListAround(driver, not_ + ColumnFragments(driver, column), AfterColumn(column), slots);
  }

  lemma NotBefore(driver: Driver, negated: bool, column: seq<Fragment>, x: Scan)
    requires Reads(driver, column, Outside, [], x)
    ensures Reads(driver, (if negated then [Raw("NOT ")] else []) + column, Outside, [], x)
  {
    if negated {
      JointsAreJoints(driver);
      OpenedBy(driver, "NOT ", column, [], x);
    } else {
      assert [] + column == column;
    }
  }

  lemma InListAround(driver: Driver, column: seq<Fragment>, x: Scan, slots: seq<Slot>)
    requires Reads(driver, column, Outside, [], x)
    requires Reads(driver, SlotList(slots), Outside, Placeheld(slots), AfterList(slots))
    ensures Reads(driver, column + [Raw(" IN (")] + SlotList(slots) + [Raw(")")], Outside, Placeheld(slots), Outside)
  {
    JointsAreJoints(driver);
    JointBehind(driver, column, " IN (", SlotList(slots), x, Placeheld(slots), AfterList(slots));
    ClosedBy(driver, column + [Raw(" IN (")] + SlotList(slots), ")", Placeheld(slots), AfterList(slots));
  }

  ghost predicate ReadsAround(driver: Driver, name: string, path: seq<string>) {
    var (before, after) := ContainsFragments(driver, name, path);
    && Reads(driver, before, Outside, [], Outside)
    && (after == [] || (|after| == 1 && after[0].Raw? && Joint(driver, after[0].text)))
  }

  lemma PostgresContainsReads(name: string, path: seq<string>)
    requires PlainName(name)
    ensures ReadsAround(Postgres, name, path)
  {
    TextReads(Postgres, " @> ", Outside);
    if EmptyPath(path) {
      NameReads(Postgres, name, Outside);
      TextReads(Postgres, " @> ", InName);
      ReadsBehind(Postgres, [Raw(name)], [Raw(" @> ")], Outside, InName, [], Outside);
    } else if |path| == 1 {
      LiteralNamedReads(Postgres, "(", name, "->", path[0], ")", Outside);
      ReadsBehind(Postgres, [Raw("(" + name + "->"), Quoted(path[0]), Raw(")")], [Raw(" @> ")], Outside, Outside, [], Outside);
    } else {
      LiteralNamedReads(Postgres, "(", name, " #> ", ArrayText(path), ")", Outside);
      ReadsBehind(Postgres, [Raw("(" + name + " #> "), Quoted(ArrayText(path)), Raw(")")], [Raw(" @> ")],
                  Outside, Outside, [], Outside);
    }
  }

  lemma MysqlContainsReads(name: string, path: seq<string>)
    requires PlainName(name)
    ensures ReadsAround(Mysql, name, path)
  {
    JointsAreJoints(Mysql);
    if EmptyPath(path) {
      NamedReads(Mysql, "JSON_CONTAINS(", name, ", JSON_QUOTE(", Outside);
    } else {
      LiteralNamedReads(Mysql, "JSON_CONTAINS(JSON_EXTRACT(", name, ", ", DollarPath(path), "), JSON_QUOTE(", Outside);
    }
  }

  lemma SqliteContainsReads(name: string, path: seq<string>)
    requires PlainName(name)
    ensures ReadsAround(Sqlite, name, path)
  {
    JointsAreJoints(Sqlite);
    if EmptyPath(path) {
      LiteralNamedReads(Sqlite, "EXISTS (SELECT 1 FROM json_each(", name, ", ", "$", ") WHERE value = ", Outside);
    } else {
      LiteralNamedReads(Sqlite, "json_extract(", name, ", ", DollarPath(path), ") = ", Outside);
    }
  }

  lemma ContainsReadsAround(driver: Driver, name: string, path: seq<string>)
    requires PlainName(name)
    ensures ReadsAround(driver, name, path)
  {
    match driver
    case Postgres => PostgresContainsReads(name, path);
    case Mysql => MysqlContainsReads(name, path);
    case Sqlite => SqliteContainsReads(name, path);
  }

  lemma JsonContainsReads(driver: Driver, name: string, path: seq<string>, slot: Slot)
    requires PlainName(name) && Native(driver, slot)
    ensures OwnRead(driver, JsonContains(name, path, slot))
  {
    var (before, after) := ContainsFragments(driver, name, path);
    ContainsReadsAround(driver, name, path);
    SlotReads(driver, slot, Outside);
    ReadsBehind(driver, before, SlotFragments(slot), Outside, Outside, Placeheld([slot]), AfterSlot(slot));
    if after == [] {
      assert before + SlotFragments(slot) + after == before + SlotFragments(slot);
    } else {
      ClosedBy(driver, before + SlotFragments(slot), after[0].text, Placeheld([slot]), AfterSlot(slot));
      assert after == [Raw(after[0].text)];
    }
  }

  lemma PatternReads(driver: Driver, pattern: Pattern, slot: Slot)
    requires Native(driver, slot)
    ensures Reads(driver, PatternFragments(pattern, slot), Outside, Placeheld([slot]), AfterPattern(pattern, slot))
  {
    SlotReads(driver, slot, Outside);
    match pattern
    case Whole =>
    case StartingWith => StartingReads(driver, SlotFragments(slot), Placeheld([slot]), AfterSlot(slot));
    case EndingWith => EndingReads(driver, SlotFragments(slot), Placeheld([slot]), AfterSlot(slot));
  }

  lemma StartingReads(driver: Driver, slot: seq<Fragment>, slots: seq<Slot>, x: Scan)
    requires Reads(driver, slot, Outside, slots, x)
    ensures Reads(driver, [Raw("CONCAT(")] + slot + [Raw(", "), Quoted("%"), Raw(")")], Outside, slots, Outside)
  {
    JointsAreJoints(driver);
    OpenedBy(driver, "CONCAT(", slot, slots, x);
    TextReads(driver, ", ", x);
    LiteralThenReads(driver, ", ", "%", ")", x, Outside);
    ReadsConcat(driver, [Raw("CONCAT(")] + slot, [Raw(", "), Quoted("%"), Raw(")")], Outside, slots, x, [], Outside);
    assert slots + [] == slots;
  }

  lemma EndingReads(driver: Driver, slot: seq<Fragment>, slots: seq<Slot>, x: Scan)
    requires Reads(driver, slot, Outside, slots, x)
    ensures Reads(driver, [Raw("CONCAT("), Quoted("%"), Raw(", ")] + slot + [Raw(")")], Outside, slots, Outside)
  {
    JointsAreJoints(driver);
    TextReads(driver, "CONCAT(", Outside);
    LiteralThenReads(driver, "CONCAT(", "%", ", ", Outside, Outside);
    ReadsBehind(driver, [Raw("CONCAT("), Quoted("%"), Raw(", ")], slot, Outside, Outside, slots, x);
    ClosedBy(driver, [Raw("CONCAT("), Quoted("%"), Raw(", ")] + slot, ")", slots, x);
  }

  lemma LikeReads(driver: Driver, column: Column, pattern: Pattern, slot: Slot, ignoreCase: bool)
    requires ColumnReads(driver, column) && Native(driver, slot)
    ensures OwnRead(driver, Like(column, pattern, slot, ignoreCase))
  {
    ColumnReadsNothing(driver, column, Outside);
    PatternReads(driver, pattern, slot);
    var before, after := ColumnFragments(driver, column), PatternFragments(pattern, slot);
    if ignoreCase {
      IgnoringCaseReads(driver, before, AfterColumn(column), after, Placeheld([slot]), AfterPattern(pattern, slot));
    } else {
      MindingCaseReads(driver, before, AfterColumn(column), after, Placeheld([slot]), AfterPattern(pattern, slot));
    }
  }

  lemma MindingCaseReads(driver: Driver, column: seq<Fragment>, x: Scan, pattern: seq<Fragment>, slots: seq<Slot>, y: Scan)
    requires Reads(driver, column, Outside, [], x) && Reads(driver, pattern, Outside, slots, y)
    ensures Reads(driver, column + [Raw(" LIKE ")] + pattern, Outside, slots, y)
  {
    JointsAreJoints(driver);
    JointBehind(driver, column, " LIKE ", pattern, x, slots, y);
  }

  lemma IgnoringCaseReads(driver: Driver, column: seq<Fragment>, x: Scan, pattern: seq<Fragment>, slots: seq<Slot>, y: Scan)
    requires Reads(driver, column, Outside, [], x) && Reads(driver, pattern, Outside, slots, y)
    ensures Reads(driver,
                  [Raw("LOWER(")] + column + [Raw(if driver == Postgres then ") ILIKE LOWER(" else ") LIKE LOWER(")]
                  + pattern + [Raw(")")],
                  Outside, slots, Outside)
  {
    JointsAreJoints(driver);
    LowerReads(driver, if driver == Postgres then ") ILIKE LOWER(" else ") LIKE LOWER(", column, x, pattern, slots, y);
  }

  lemma LowerReads(driver: Driver, op: string, column: seq<Fragment>, x: Scan, pattern: seq<Fragment>, slots: seq<Slot>, y: Scan)
    requires Joint(driver, op) && Reads(driver, column, Outside, [], x) && Reads(driver, pattern, Outside, slots, y)
    ensures Reads(driver, [Raw("LOWER(")] + column + [Raw(op)] + pattern + [Raw(")")], Outside, slots, Outside)
  {
    JointsAreJoints(driver);
    OpenedBy(driver, "LOWER(", column, [], x);
    JointBehind(driver, [Raw("LOWER(")] + column, op, pattern, x, slots, y);
    ClosedBy(driver, [Raw("LOWER(")] + column + [Raw(op)] + pattern, ")", slots, y);
  }

  lemma TextBehind(driver: Driver, a: seq<Fragment>, text: string, x: Scan)
    requires Reads(driver, a, Outside, [], x) && text != [] && Silent(driver, text) && !IsDigitChar(text[0])
    ensures Reads(driver, a + [Raw(text)], Outside, [], EndOf(text))
  {
    TextReads(driver, text, x);
    ReadsBehind(driver, a, [Raw(text)], Outside, x, [], EndOf(text));
  }

  lemma NotNullReads(driver: Driver, column: Column)
    requires ColumnReads(driver, column)
    ensures OwnRead(driver, NotNull(column))
  {
    ColumnReadsNothing(driver, column, Outside);
    TextBehind(driver, ColumnFragments(driver, column), " IS NOT NULL", AfterColumn(column));
  }

  /** Text that stands first may begin with a digit. */
  lemma FirstReads(driver: Driver, text: string)
    requires text != [] && Silent(driver, text)
    ensures Reads(driver, [Raw(text)], Outside, [], EndOf(text))
  {
    TokensOfOne(driver, Raw(text));
    SilentAdds(driver, text, Outside);
    ReadsTokens(driver, [Raw(text)], Outside, [], EndOf(text));
  }

  lemma NeverReads(driver: Driver)
    ensures OwnRead(driver, Never)
  {
    FirstReads(driver, "1 = 0");
  }

  // ---------------------------------------------------------------------------
  // Configured clauses
  // ---------------------------------------------------------------------------

  /** A text of a clause, at its start or after a slot. */
  lemma OwnTextReads(driver: Driver, text: string, st: Scan, first: bool, last: bool) returns (end: Scan)
    requires Lex(driver, text).Some? && StandsApart(driver, text, first, last)
    requires !st.InName? && (first ==> st == Outside)
    ensures Reads(driver, [Own(text)], st, [], end)
    ensures !last && driver == Postgres ==> !end.InName?
  {
    var tokens := OwnTokens(driver, text);
    TokensOfOne(driver, Own(text));
    if text == [] {
      end := st;
    } else {
      end := Scanned(driver, tokens, Outside).1;
      if first {
        assert Adds(driver, tokens, st, [], end);
      } else {
        OwnAdds(driver, tokens, st);
      }
    }
    ReadsTokens(driver, [Own(text)], st, [], end);
  }

  ghost predicate AllStandApart(driver: Driver, texts: seq<string>, first: bool) {
    forall i :: 0 <= i < |texts| ==>
      Lex(driver, texts[i]).Some? && StandsApart(driver, texts[i], first && i == 0, i == |texts| - 1)
  }

  lemma {:induction false} InterleavedReads(driver: Driver, texts: seq<string>, slots: seq<Slot>, st: Scan, first: bool)
    returns (end: Scan)
    requires |texts| == |slots| + 1 && AllStandApart(driver, texts, first)
    requires AllNative(driver, slots) && NoLiterals(slots)
    requires !st.InName? && (first ==> st == Outside)
    ensures Reads(driver, Interleaved(texts, slots), st, Placeheld(slots), end)
  {
    var mid := OwnTextReads(driver, texts[0], st, first, slots == []);
    if slots == [] {
      end := mid;
    } else {
      var slot, texts', slots' := slots[0], texts[1..], slots[1..];
      SlotReads(driver, slot, mid);
      assert AllStandApart(driver, texts', false) by {
        assert forall i :: 0 <= i < |texts'| ==> texts'[i] == texts[i + 1];
      }
      end := InterleavedReads(driver, texts', slots', AfterSlot(slot), false);
      ReadsBehind(driver, [Own(texts[0])], SlotFragments(slot), st, mid, Placeheld([slot]), AfterSlot(slot));
      ReadsConcat(driver, [Own(texts[0])] + SlotFragments(slot), Interleaved(texts', slots'), st, Placeheld([slot]),
                  AfterSlot(slot), Placeheld(slots'), end);
      PlaceheldConcat([slot], slots');
      assert slots == [slot] + slots';
    }
  }

  lemma ClauseReads(driver: Driver, c: Cond)
    requires c.Clause? && Regular(c) && CondClean(driver, c) && NamesRead(driver, c) && AllNative(driver, c.slots)
    ensures OwnRead(driver, c)
  {
    assert AllStandApart(driver, c.texts, true);
    JointsAreJoints(driver);
    var end := InterleavedReads(driver, c.texts, c.slots, Outside, true);
    OpenedBy(driver, "(", Interleaved(c.texts, c.slots), Placeheld(c.slots), end);
    ClosedBy(driver, [Raw("(")] + Interleaved(c.texts, c.slots), ")", Placeheld(c.slots), end);
  }

  // ---------------------------------------------------------------------------
  // All conditions
  // ---------------------------------------------------------------------------

  /** A condition that is read as it was written, with slots of the database's own form. */
  ghost predicate Sound(driver: Driver, c: Cond) {
    Regular(c) && CondClean(driver, c) && NamesRead(driver, c) && AllNative(driver, SlotsOf(c))
  }

  lemma CondReadsOwn(driver: Driver, c: Cond)
    requires Sound(driver, c)
    ensures OwnRead(driver, c)
  {
    match c
    case Clause(_, _) => ClauseReads(driver, c);
    case Compare(column, op, slot) =>
      assert Native(driver, SlotsOf(c)[0]);
      CompareReads(driver, column, op, slot);
    case InList(column, slots, negated) => InListReads(driver, column, slots, negated);
    case JsonContains(name, path, slot) =>
      assert Native(driver, SlotsOf(c)[0]);
      JsonContainsReads(driver, name, path, slot);
    case Like(column, pattern, slot, ignoreCase) =>
      assert Native(driver, SlotsOf(c)[0]);
      LikeReads(driver, column, pattern, slot, ignoreCase);
    case NotNull(column) => NotNullReads(driver, column);
    case Never => NeverReads(driver);
  }

  ghost predicate AllSound(driver: Driver, conditions: seq<Cond>) {
    forall i {:trigger Sound(driver, conditions[i])} :: 0 <= i < |conditions| ==> Sound(driver, conditions[i])
  }

  lemma AllSoundConcat(driver: Driver, a: seq<Cond>, b: seq<Cond>)
    requires AllSound(driver, a) && AllSound(driver, b)
    ensures AllSound(driver, a + b)
  {
    forall i | 0 <= i < |a + b|
      ensures Sound(driver, (a + b)[i])
    {
      if i < |a| {
        assert Sound(driver, a[i]);
      } else {
        assert Sound(driver, b[i - |a|]);
      }
    }
  }

  /** The slots of all conditions, in the order of the text. */
  ghost function CondSlots(conditions: seq<Cond>): seq<Slot> {
    if conditions == [] then []
    else CondSlots(conditions[..|conditions| - 1]) + SlotsOf(conditions[|conditions| - 1])
  }

  function AfterAll(driver: Driver, conditions: seq<Cond>): Scan {
    if conditions == [] then Outside else AfterCond(driver, conditions[|conditions| - 1])
  }

  lemma {:induction false} ConditionsReadOwn(driver: Driver, conditions: seq<Cond>)
    requires AllSound(driver, conditions)
    ensures Reads(driver, WhereFragments(driver, conditions), Outside, Placeheld(CondSlots(conditions)), AfterAll(driver, conditions))
  {
    if conditions == [] {
      ReadsTokens(driver, [], Outside, [], Outside);
    } else {
      var init, last := conditions[..|conditions| - 1], conditions[|conditions| - 1];
      CondReadsOwn(driver, last);
      PlaceheldConcat(CondSlots(init), SlotsOf(last));
      if init == [] {
        assert CondSlots(init) + SlotsOf(last) == SlotsOf(last);
      } else {
        ConditionsReadOwn(driver, init);
        JointsAreJoints(driver);
        JointReads(driver, WhereFragments(driver, init), " AND ", CondFragments(driver, last), Outside,
                   Placeheld(CondSlots(init)), AfterAll(driver, init), Placeheld(SlotsOf(last)), AfterCond(driver, last));
      }
    }
  }

  lemma SoundConditionsRead(driver: Driver, conditions: seq<Cond>)
    requires AllSound(driver, conditions)
    ensures WhereReads(driver, conditions)
  {
    forall i | 0 <= i < |conditions|
      ensures Regular(conditions[i]) && CondClean(driver, conditions[i]) && NamesRead(driver, conditions[i])
    {
      assert Sound(driver, conditions[i]);
    }
    CleanConditionsRead(driver, conditions);
  }

  lemma SoundConditionsFit(driver: Driver, conditions: seq<Cond>)
    requires AllSound(driver, conditions)
    ensures Shaped(WhereFragments(driver, conditions)) && Clean(driver, WhereFragments(driver, conditions))
  {
    forall i | 0 <= i < |conditions|
      ensures Regular(conditions[i]) && CondClean(driver, conditions[i])
    {
      assert Sound(driver, conditions[i]);
    }
    WhereFits(driver, conditions);
  }

  /** The placeholders read from the text of conditions, and of what follows them, are theirs, in order. */
  lemma WhereSlotsRead(driver: Driver, conditions: seq<Cond>, tail: seq<Fragment>, slots: seq<Slot>, end: Scan)
    requires AllSound(driver, conditions) && Fit(tail) && Clean(driver, tail)
    requires Reads(driver, tail, AfterAll(driver, conditions), slots, end)
    ensures var tokens := Lex(driver, TextOf(WhereFragments(driver, conditions) + tail));
            tokens.Some? && SlotsRead(driver, tokens.value) == Placeheld(CondSlots(conditions)) + slots
  {
    var where_ := WhereFragments(driver, conditions);
    SoundConditionsFit(driver, conditions);
    ShapedConcat(where_, tail);
    CleanConcat(driver, where_, tail);
    CleanWhole(driver, where_ + tail);
    ConditionsReadOwn(driver, conditions);
    ReadsConcat(driver, where_, tail, Outside, Placeheld(CondSlots(conditions)), AfterAll(driver, conditions), slots, end);
    ReadsTokens(driver, where_ + tail, Outside, Placeheld(CondSlots(conditions)) + slots, end);
  }
}
