/** When the database reads a built query as what it was built for: what may stand in a
    configured clause, in the key of a filter, and in a value that is written into the text. */
module SelectReading {
  import opened Wrappers
  import opened Strings
  import opened SqlText
  import opened JsonText
  import opened PathText
  import opened FilterKeys
  import opened SlotText
  import opened SelectText
  import opened SelectSlots
  import opened SelectQuery
  import opened SelectSemantics

  // ---------------------------------------------------------------------------
  // What a caller can check
  // ---------------------------------------------------------------------------

  /** A path segment that stands for itself in the path text of this database. */
  predicate PlainSegment(driver: Driver, s: string) {
    match driver
    case Postgres => ArrayPlain(s) && '\'' !in s
    case Mysql => Identifier(s)
    case Sqlite => PlainKey(driver, s) && '\'' !in s
  }

  predicate PlainSegments(driver: Driver, path: seq<string>) {
    forall i :: 0 <= i < |path| ==> PlainSegment(driver, path[i])
  }

  /** A path that is read back: on MySQL and SQLite there must be one, but for containment. */
  predicate PlainPath(driver: Driver, contains: bool, path: seq<string>) {
    if contains && EmptyPath(path) then path == []
    else if driver != Postgres then path != [] && PlainSegments(driver, path)
    else if contains && |path| == 1 then '\'' !in path[0]
    else PlainSegments(driver, path)
  }

  /** A filter that the database reads as it was meant. */
  predicate PlainFilter(env: Env, expr: FilterExpression, value: string, columnType: ColumnType) {
    && PlainName(Head(expr.path))
    && (if IsJson(expr, columnType) then PlainPath(env.driver, expr.operator == Contains, Nested(expr.path))
        else PlainName(env.table))
    && (InlinesOperand(env, expr, columnType) ==> '\'' !in value)
  }

  /** A configured clause closes every literal before its next key, and stays one condition with
      the placeholders of its keys. */
  predicate PlainClause(driver: Driver, texts: seq<string>) {
    (forall i :: 0 <= i < |texts| ==> Lex(driver, texts[i]).Some?) && ClauseStands(driver, texts)
  }

  predicate PlainTerm(env: Env, t: Term) {
    match t
    case WhereTerm(texts, values) => PlainClause(env.driver, texts) && |texts| == |values| + 1
    case FilterTerm(expr, value, columnType) => PlainFilter(env, expr, value, columnType)
    case PkTerm(column, _) => PlainName(column)
    case _ => true
  }

  ghost predicate PlainTerms(env: Env, terms: seq<Term>) {
    forall i :: 0 <= i < |terms| ==> PlainTerm(env, terms[i])
  }

  // ---------------------------------------------------------------------------
  // Filters
  // ---------------------------------------------------------------------------

  lemma {:induction false} JoinHas(pieces: seq<string>, sep: char, c: char)
    requires c != sep
    ensures c in Join(pieces, sep) <==> exists i :: 0 <= i < |pieces| && c in pieces[i]
  {
    if |pieces| > 1 {
      JoinHas(pieces[1..], sep, c);
      assert forall i :: 0 < i < |pieces| ==> pieces[i] == pieces[1..][i - 1];
      if exists i :: 0 <= i < |pieces[1..]| && c in pieces[1..][i] {
        var i :| 0 <= i < |pieces[1..]| && c in pieces[1..][i];
        assert c in pieces[i + 1];
      }
    }
  }

  lemma QuoteInPath(path: seq<string>, c: char)
    requires c == '\'' || c == '\\'
    ensures c in ArrayText(path) <==> exists i :: 0 <= i < |path| && c in path[i]
    ensures c in DollarPath(path) <==> exists i :: 0 <= i < |path| && c in path[i]
  {
    JoinHas(path, ',', c);
    JoinHas(path, '.', c);
  }

  lemma ArrayPathExactly(path: seq<string>)
    ensures ReadArray(ArrayText(path)) == Some(path) && Plain(Postgres, ArrayText(path))
       <==> PlainSegments(Postgres, path)
  {
    ArrayReadsExactly(path);
    QuoteInPath(path, '\'');
    if PlainSegments(Postgres, path) {
      forall i | 0 <= i < |path|
        ensures ArrayPlain(path[i]) && '\'' !in path[i]
      {
        assert PlainSegment(Postgres, path[i]);
      }
    }
  }

  lemma IdentifierIsPlain(s: string)
    requires Identifier(s)
    ensures '\'' !in s && '\\' !in s
  {
  }

  lemma DollarPathExactly(driver: Driver, path: seq<string>)
    requires driver != Postgres
    ensures ReadPath(driver, DollarPath(path)) == Some(path) && Plain(driver, DollarPath(path))
       <==> path != [] && PlainSegments(driver, path)
  {
    PathReadsExactly(driver, path);
    QuoteInPath(path, '\'');
    QuoteInPath(path, '\\');
    if PlainSegments(driver, path) {
      forall i | 0 <= i < |path|
        ensures PlainKey(driver, path[i]) && Plain(driver, path[i])
      {
        assert PlainSegment(driver, path[i]);
        if driver == Mysql {
          IdentifierIsPlain(path[i]);
        }
      }
    }
  }

  /** The path behind a document column is read back exactly when it is plain. */
  lemma PathExactly(driver: Driver, path: seq<string>)
    ensures PathAsRead(driver, false, path) == Some(path) && Plain(driver, ExtractionPath(driver, path))
       <==> PlainPath(driver, false, path)
  {
    if driver == Postgres {
      ArrayPathExactly(path);
    } else {
      DollarPathExactly(driver, path);
    }
  }

  lemma ColumnExactly(driver: Driver, column: Column)
    ensures ColumnClean(driver, column) && ColumnReads(driver, column)
       <==> && PlainName(column.name)
            && match column
               case Field(table, _) => PlainName(table)
               case Bare(_) => true
               case JsonField(_, path) => PlainPath(driver, false, path)
  {
    if PlainName(column.name) {
      PlainNameHasNoQuote(column.name);
    }
    if column.Field? && PlainName(column.table) {
      PlainNameHasNoQuote(column.table);
    }
    if column.JsonField? {
      PathExactly(driver, column.path);
    }
  }

  lemma ContainsExactly(driver: Driver, name: string, path: seq<string>)
    ensures PlainName(name) && ContainsClean(driver, name, path) && PathAsRead(driver, true, path) == Some(path)
       <==> PlainName(name) && PlainPath(driver, true, path)
  {
    if PlainName(name) {
      PlainNameHasNoQuote(name);
    }
    if !EmptyPath(path) {
      if driver != Postgres || |path| != 1 {
        PathExactly(driver, path);
      }
    }
  }

  lemma {:induction false} PlaceholdersAreNoLiterals(driver: Driver, start: nat, n: nat)
    ensures NoLiterals(Placeholders(driver, start, n))
  {
    if n > 0 {
      PlaceholdersAreNoLiterals(driver, start, n - 1);
    }
  }

  lemma FilterIsRegular(env: Env, expr: FilterExpression, value: string, columnType: ColumnType, index: nat)
    ensures Regular(FilterCondition(env, expr, value, columnType, index))
    ensures !FilterCondition(env, expr, value, columnType, index).Clause?
  {
    PlaceholdersAreNoLiterals(env.driver, index, |Split(value, ',')|);
  }

  /** Read as it was meant, apart from the text being put together. */
  lemma FilterIsClean(env: Env, expr: FilterExpression, value: string, columnType: ColumnType, index: nat)
    ensures var c := FilterCondition(env, expr, value, columnType, index);
            CondClean(env.driver, c) && NamesRead(env.driver, c) <==> PlainFilter(env, expr, value, columnType)
  {
    if expr.operator == Contains && IsJson(expr, columnType) {
      ContainsExactly(env.driver, Head(expr.path), Nested(expr.path));
      JsonRoundTrip(value);
    } else {
      ColumnExactly(env.driver, FilterColumn(env, expr, columnType));
    }
  }

  /** The database reads the condition of a filter as it was meant exactly when the column is a
      plain name, the path is plain, and no quote stands in a value that is written into the text. */
  lemma FilterReadsExactly(env: Env, expr: FilterExpression, value: string, columnType: ColumnType, index: nat)
    ensures CondReads(env.driver, FilterCondition(env, expr, value, columnType, index))
       <==> PlainFilter(env, expr, value, columnType)
  {
    FilterIsRegular(env, expr, value, columnType, index);
    CondReadsExactly(env.driver, FilterCondition(env, expr, value, columnType, index));
    FilterIsClean(env, expr, value, columnType, index);
  }

  // ---------------------------------------------------------------------------
  // The column that was checked
  // ---------------------------------------------------------------------------

  /** The filters of a table are checked against plain names. */
  predicate PlainColumns(columns: seq<ColumnConfig>) {
    forall i :: 0 <= i < |columns| ==> PlainName(columns[i].name)
  }

  lemma {:induction false} TypeOfColumn(columns: seq<ColumnConfig>, name: string)
    ensures TypeOf(columns, name).Some? <==> exists i :: 0 <= i < |columns| && columns[i].name == name
  {
    if columns != [] {
      TypeOfColumn(columns[1..], name);
      if columns[0].name != name && exists i :: 0 <= i < |columns| && columns[i].name == name {
        var i :| 0 <= i < |columns| && columns[i].name == name;
        assert columns[1..][i - 1].name == name;
      }
      if i :| 0 <= i < |columns[1..]| && columns[1..][i].name == name {
        assert columns[i + 1].name == name;
      }
    }
  }

  /** An admitted filter is written with the column it was checked against, coerced to that
      column's type and allowed by name, exactly when it is written with a plain name. */
  lemma AdmittedColumn(f: Filter, allowed: seq<string>, columns: seq<ColumnConfig>)
    requires Admissible(f, allowed, columns) && PlainColumns(columns)
    ensures var column := Head(ParseFilterKey(f.key).value.path);
            PlainName(column) <==>
              && TypeOf(columns, column).Some?
              && TypeOf(columns, column) == TypeOf(columns, ExtractBaseColumn(f.key))
              && ("*" in allowed || column in allowed)
  {
    var column, base := Head(ParseFilterKey(f.key).value.path), ExtractBaseColumn(f.key);
    TypeOfColumn(columns, base);
    TypeOfColumn(columns, column);
    if PlainName(column) {
      PlainColumnIsChecked(f.key);
      var i :| 0 <= i < |columns| && columns[i].name == base;
      PlainNameHasNoQuote(columns[i].name);
    }
  }

  /** A key with an arrow is admitted by the name before the arrow, and written whole. */
  lemma ArrowIsAdmitted(name: string, columnType: ColumnType, value: string)
    requires PlainName(name)
    ensures var f, columns := Filter(name + "->>x", value), [ColumnConfig(name, columnType)];
            && Admissible(f, ["*"], columns)
            && Head(ParseFilterKey(f.key).value.path) == f.key
            && !PlainName(f.key)
  {
    var key := name + "->>x";
    var n := |name|;
    assert forall i :: 0 <= i < n ==> key[i] == name[i];
    assert key[n] == '-' && key[n + 1] == '>' && key[n + 2] == '>' && key[n + 3] == 'x';
    PlainNameHasNoQuote(name);
    assert '[' !in key && ']' !in key && '.' !in key;
    SplitOne(key, '.');
    ArrowBase(name, "->>x");
    assert ExtractBaseColumn(key) == name;
  }

  lemma ArrowBase(name: string, rest: string)
    requires PlainName(name) && rest != [] && rest[0] == '-' && |rest| > 1 && rest[1] == '>'
    ensures ExtractBaseColumn(name + rest) == name
  {
    var key, before := name + rest, name + ['-'];
    assert key[0] == name[0];
    assert key[|name|] == '-' && key[|name| + 1] == '>';
    assert HasArrow(key);
    assert forall i :: 0 <= i < |name| ==> before[i] == name[i];
    BeforeArrowOf(before, rest[1..]);
    assert key == before + rest[1..];
    assert before[..|before| - 1] == name && name[|name| - 1] != '-';
    assert TrimEnd(before, '-') == TrimEnd(name, '-');
  }

  lemma {:induction false} BeforeArrowOf(a: string, b: string)
    requires forall i :: 0 <= i < |a| ==> a[i] != '>' && a[i] != '#'
    requires b != [] && b[0] == '>'
    ensures BeforeArrow(a + b) == a
  {
    if a == [] {
      assert a + b == b;
    } else {
      FrontOfConcat(a, b);
      BeforeArrowOf(a[1..], b);
      assert a == [a[0]] + a[1..];
    }
  }

  // ---------------------------------------------------------------------------
  // Queries
  // ---------------------------------------------------------------------------

  lemma {:induction false} PlaceholdersAreNative(driver: Driver, start: nat, n: nat)
    ensures AllNative(driver, Placeholders(driver, start, n))
  {
    if n > 0 {
      PlaceholdersAreNative(driver, start, n - 1);
    }
  }

  lemma FilterIsSound(env: Env, expr: FilterExpression, value: string, columnType: ColumnType, index: nat)
    requires PlainFilter(env, expr, value, columnType)
    ensures Sound(env.driver, FilterCondition(env, expr, value, columnType, index))
  {
    FilterIsRegular(env, expr, value, columnType, index);
    FilterIsClean(env, expr, value, columnType, index);
    PlaceholdersAreNative(env.driver, index, |Split(value, ',')|);
  }

  lemma ClauseIsSound(driver: Driver, texts: seq<string>, n: nat)
    requires PlainClause(driver, texts) && |texts| == n + 1
    ensures Sound(driver, Clause(texts, Placeholders(driver, 1, n)))
  {
    PlaceholdersAreNoLiterals(driver, 1, n);
    PlaceholdersAreNative(driver, 1, n);
  }

  lemma PkIsSound(driver: Driver, column: string, index: nat)
    requires PlainName(column)
    ensures Sound(driver, Compare(Bare(column), Eq, Placeholder(driver, index)))
  {
    ColumnExactly(driver, Bare(column));
  }

  lemma TermReads(env: Env, t: Term, index: nat)
    requires PlainTerm(env, t)
    ensures AllSound(env.driver, CondsOf(env, t, index))
  {
    match t
    case WhereTerm(texts, values) => ClauseIsSound(env.driver, texts, |values|);
    case FilterTerm(expr, value, columnType) => FilterIsSound(env, expr, value, columnType, index);
    case PkTerm(column, _) => PkIsSound(env.driver, column, index);
    case _ =>
  }

  /** Every condition can be read, and means what it was built for. */
  lemma {:induction false} AllTermsRead(env: Env, terms: seq<Term>)
    requires PlainTerms(env, terms)
    ensures AllSound(env.driver, Compiled(env, terms).conditions)
  {
    if terms != [] {
      var init, t := terms[..|terms| - 1], terms[|terms| - 1];
      assert PlainTerms(env, init);
      AllTermsRead(env, init);
      TermReads(env, t, |Compiled(env, init).params| + 1);
      AllSoundConcat(env.driver, Compiled(env, init).conditions, CondsOf(env, t, |Compiled(env, init).params| + 1));
    }
  }

  /** A query of plain terms is read as it was built, whatever it combines. */
  lemma PlainQueryReads(env: Env, terms: seq<Term>)
    requires PlainTerms(env, terms)
    ensures WhereReads(env.driver, Compiled(env, terms).conditions)
  {
    AllTermsRead(env, terms);
    SoundConditionsRead(env.driver, Compiled(env, terms).conditions);
  }

  /** The condition of a filter can be judged on its own, and reads as it was meant exactly when the filter is plain. */
  ghost predicate Judged(env: Env, c: Cond, t: Term) {
    && Regular(c) && !c.Clause?
    && (CondClean(env.driver, c) && NamesRead(env.driver, c) <==> PlainTerm(env, t))
  }

  lemma FilterAdded(env: Env, c: Clauses, t: Term) returns (cond: Cond)
    requires t.FilterTerm?
    ensures After(env, c, t).conditions == c.conditions + [cond] && AllJudged(env, [cond], [t])
  {
    var index := |c.params| + 1;
    cond := FilterCondition(env, t.expr, t.value, t.columnType, index);
    FilterIsRegular(env, t.expr, t.value, t.columnType, index);
    FilterIsClean(env, t.expr, t.value, t.columnType, index);
  }

  ghost predicate OnlyFilters(terms: seq<Term>) {
    forall i :: 0 <= i < |terms| ==> terms[i].FilterTerm?
  }

  ghost predicate AllJudged(env: Env, conditions: seq<Cond>, terms: seq<Term>) {
    && |conditions| == |terms|
    && forall i {:trigger Judged(env, conditions[i], terms[i])} :: 0 <= i < |terms| ==> Judged(env, conditions[i], terms[i])
  }

  lemma JudgedConcat(env: Env, a: seq<Cond>, s: seq<Term>, b: seq<Cond>, t: seq<Term>)
    requires AllJudged(env, a, s) && AllJudged(env, b, t)
    ensures AllJudged(env, a + b, s + t)
  {
    forall i | 0 <= i < |s + t|
      ensures Judged(env, (a + b)[i], (s + t)[i])
    {
      if i < |s| {
        assert Judged(env, a[i], s[i]);
      } else {
        assert Judged(env, b[i - |a|], t[i - |s|]);
      }
    }
  }

  lemma {:induction false} FiltersAdded(env: Env, c: Clauses, filters: seq<Term>) returns (added: seq<Cond>)
    requires OnlyFilters(filters)
    ensures Extend(env, c, filters).conditions == c.conditions + added && AllJudged(env, added, filters)
  {
    if filters == [] {
      added := [];
    } else {
      var init, t := filters[..|filters| - 1], filters[|filters| - 1];
      var before := FiltersAdded(env, c, init);
      var cond := FilterAdded(env, Extend(env, c, init), t);
      added := before + [cond];
      JudgedConcat(env, before, init, [cond], [t]);
      InitAndLast(filters);
      Associative(c.conditions, before, [cond]);
    }
  }

  lemma InitAndLast<T>(s: seq<T>)
    requires s != []
    ensures s == s[..|s| - 1] + [s[|s| - 1]]
  {
  }

  lemma JudgedTogether(env: Env, conditions: seq<Cond>, terms: seq<Term>)
    requires AllJudged(env, conditions, terms)
    ensures NoClause(conditions)
    ensures AllClean(env.driver, conditions) && AllNamesRead(env.driver, conditions) <==> PlainTerms(env, terms)
  {
    forall i | 0 <= i < |conditions|
      ensures Regular(conditions[i]) && !conditions[i].Clause?
    {
      assert Judged(env, conditions[i], terms[i]);
    }
    if PlainTerms(env, terms) {
      forall i | 0 <= i < |conditions|
        ensures CondClean(env.driver, conditions[i]) && NamesRead(env.driver, conditions[i])
      {
        assert Judged(env, conditions[i], terms[i]);
      }
    } else {
      var i :| 0 <= i < |terms| && !PlainTerm(env, terms[i]);
      assert Judged(env, conditions[i], terms[i]);
    }
  }

  /** Behind a plain clause, filters are read as they were meant exactly when every one is plain. */
  lemma FiltersReadExactly(env: Env, clause: seq<Term>, filters: seq<Term>)
    requires |clause| <= 1 && (clause != [] ==> clause[0].WhereTerm? && PlainTerm(env, clause[0]))
    requires OnlyFilters(filters)
    ensures WhereReads(env.driver, Compiled(env, clause + filters).conditions) <==> PlainTerms(env, filters)
  {
    var first := Compiled(env, clause);
    ClauseConditions(env, clause);
    ExtendConcat(env, NO_CLAUSES, clause, filters);
    var added := FiltersAdded(env, first, filters);
    JudgedTogether(env, added, filters);
    WhereReadsExactly(env.driver, first.conditions, added);
    NamesOfBoth(env.driver, first.conditions, added);
  }

  lemma ClauseConditions(env: Env, clause: seq<Term>)
    requires |clause| <= 1 && (clause != [] ==> clause[0].WhereTerm? && PlainTerm(env, clause[0]))
    ensures var conditions := Compiled(env, clause).conditions;
            && |conditions| == |clause| && AllNamesRead(env.driver, conditions)
            && (conditions != [] ==>
                  conditions[0].Clause? && Regular(conditions[0]) && CondClean(env.driver, conditions[0]))
  {
    if clause != [] {
      assert clause == [clause[0]];
      ExtendOne(env, NO_CLAUSES, clause[0]);
      TermReads(env, clause[0], 1);
      assert Sound(env.driver, Compiled(env, clause).conditions[0]);
    }
  }

  lemma NamesOfBoth(driver: Driver, a: seq<Cond>, b: seq<Cond>)
    ensures AllNamesRead(driver, a + b) <==> AllNamesRead(driver, a) && AllNamesRead(driver, b)
  {
    assert forall i :: 0 <= i < |a| ==> (a + b)[i] == a[i];
    assert forall i :: 0 <= i < |b| ==> (a + b)[i + |a|] == b[i];
    if AllNamesRead(driver, a + b) {
      forall i | 0 <= i < |b|
        ensures NamesRead(driver, b[i])
      {
        assert NamesRead(driver, (a + b)[i + |a|]);
      }
    }
  }

  // ---------------------------------------------------------------------------
  // Placeholders in the text
  // ---------------------------------------------------------------------------

  /** What is written after the conditions and the sorting. */
  function LimitFragments(limit: Option<Limit>): seq<Fragment> {
    match limit
    case None => []
    case Some(OneRow) => [Raw(" LIMIT 1")]
    case Some(Slots(rows, offset)) => [Raw(" LIMIT ")] + SlotFragments(rows) + [Raw(" OFFSET ")] + SlotFragments(offset)
  }

  ghost predicate LimitNative(driver: Driver, limit: Option<Limit>) {
    forall slot :: slot in LimitSlots(limit) ==> Native(driver, slot) && !slot.Literal?
  }

  lemma {:induction false} LimitIsNative(env: Env, terms: seq<Term>)
    ensures LimitNative(env.driver, Compiled(env, terms).limit)
  {
    if terms != [] {
      LimitIsNative(env, terms[..|terms| - 1]);
    }
  }

  function AfterLimit(limit: Option<Limit>, st: Scan): Scan {
    match limit
    case None => st
    case Some(OneRow) => InName
    case Some(Slots(_, offset)) => AfterSlot(offset)
  }

  /** The text of a limit adds these placeholders, and can follow any conditions. */
  ghost predicate FollowsConditions(driver: Driver, fragments: seq<Fragment>, st: Scan, slots: seq<Slot>, end: Scan) {
    Reads(driver, fragments, st, slots, end) && Fit(fragments) && Clean(driver, fragments)
  }

  lemma LimitReads(driver: Driver, limit: Option<Limit>, st: Scan)
    requires LimitNative(driver, limit)
    ensures FollowsConditions(driver, LimitFragments(limit), st, Placeheld(LimitSlots(limit)), AfterLimit(limit, st))
  {
    match limit
    case None => ReadsTokens(driver, [], st, [], st);
    case Some(OneRow) => OneRowLimit(driver, st);
    case Some(Slots(rows, offset)) =>
      assert rows in LimitSlots(limit) && offset in LimitSlots(limit);
      PageLimit(driver, rows, offset, st);
  }

  lemma OneRowLimit(driver: Driver, st: Scan)
    ensures FollowsConditions(driver, LimitFragments(Some(OneRow)), st, [], InName)
  {
    OneRowReads(driver, " LIMIT 1", st);
  }

  lemma PageLimit(driver: Driver, rows: Slot, offset: Slot, st: Scan)
    requires Native(driver, rows) && Native(driver, offset) && !rows.Literal? && !offset.Literal?
    ensures FollowsConditions(driver, LimitFragments(Some(Slots(rows, offset))), st, Placeheld([rows, offset]), AfterSlot(offset))
  {
    LimitsAreJoints(driver);
    PageReads(driver, " LIMIT ", rows, " OFFSET ", offset, st);
  }

  lemma LimitsAreJoints(driver: Driver)
    ensures Joint(driver, " LIMIT ") && Joint(driver, " OFFSET ")
    ensures '\'' !in " LIMIT " && '\'' !in " OFFSET "
  {
  }

  lemma OneRowReads(driver: Driver, text: string, st: Scan)
    requires text != [] && Silent(driver, text) && !IsDigitChar(text[0]) && '\'' !in text
    ensures FollowsConditions(driver, [Raw(text)], st, [], EndOf(text))
  {
    TextReads(driver, text, st);
    RawFits(driver, text);
  }

  lemma PageReads(driver: Driver, limit: string, rows: Slot, skip: string, offset: Slot, st: Scan)
    requires Native(driver, rows) && Native(driver, offset) && !rows.Literal? && !offset.Literal?
    requires Joint(driver, limit) && Joint(driver, skip) && '\'' !in limit && '\'' !in skip
    ensures FollowsConditions(driver, [Raw(limit)] + SlotFragments(rows) + [Raw(skip)] + SlotFragments(offset), st,
                              Placeheld([rows, offset]), AfterSlot(offset))
  {
    PageFits(driver, limit, rows, skip, offset);
    TextReads(driver, limit, st);
    SlotReads(driver, rows, Outside);
    ReadsBehind(driver, [Raw(limit)], SlotFragments(rows), st, Outside, Placeheld([rows]), AfterSlot(rows));
    SlotReads(driver, offset, Outside);
    JointReads(driver, [Raw(limit)] + SlotFragments(rows), skip, SlotFragments(offset), st, Placeheld([rows]), AfterSlot(rows),
               Placeheld([offset]), AfterSlot(offset));
    PlaceheldConcat([rows], [offset]);
    assert [rows] + [offset] == [rows, offset];
  }

  lemma PageFits(driver: Driver, limit: string, rows: Slot, skip: string, offset: Slot)
    requires !rows.Literal? && !offset.Literal? && '\'' !in limit && '\'' !in skip
    ensures var fragments := [Raw(limit)] + SlotFragments(rows) + [Raw(skip)] + SlotFragments(offset);
            Fit(fragments) && Clean(driver, fragments)
  {
    RawFits(driver, limit);
    RawFits(driver, skip);
    SlotFits(driver, rows);
    SlotFits(driver, offset);
    Concat(driver, [Raw(limit)], SlotFragments(rows));
    Concat3(driver, [Raw(limit)] + SlotFragments(rows), [Raw(skip)], SlotFragments(offset));
  }

  /** The placeholders that the database reads from the conditions and the limit of a plain query
      are its slots in order, but for the values that are written into the text. */
  lemma SlotsInText(env: Env, terms: seq<Term>)
    requires PlainTerms(env, terms)
    ensures var c := Compiled(env, terms);
            var tokens := Lex(env.driver, TextOf(WhereFragments(env.driver, c.conditions) + LimitFragments(c.limit)));
            tokens.Some? && SlotsRead(env.driver, tokens.value) == Placeheld(QuerySlots(c))
  {
    var c := Compiled(env, terms);
    AllTermsRead(env, terms);
    LimitIsNative(env, terms);
    var st := AfterAll(env.driver, c.conditions);
    LimitReads(env.driver, c.limit, st);
    WhereSlotsRead(env.driver, c.conditions, LimitFragments(c.limit), Placeheld(LimitSlots(c.limit)), AfterLimit(c.limit, st));
    PlaceheldConcat(CondSlots(c.conditions), LimitSlots(c.limit));
  }

  // ---------------------------------------------------------------------------
  // A value that ends its own literal
  // ---------------------------------------------------------------------------

  /** A containment filter on a document column of PostgreSQL. */
  function ContainsTerm(column: string, value: string): Term {
    FilterTerm(FilterExpression([column], Contains), value, Jsonb)
  }

  lemma ContainsTermCompiled(env: Env, column: string, value: string)
    requires env.driver == Postgres
    ensures Compiled(env, [ContainsTerm(column, value)]).conditions == [JsonContains(column, [], Literal(value))]
  {
    var t := ContainsTerm(column, value);
    ExtendOne(env, NO_CLAUSES, t);
    assert Nested(t.expr.path) == [];
    assert FilterCondition(env, t.expr, value, Jsonb, 1) == JsonContains(column, [], Literal(value));
  }

  lemma ContainsTermText(column: string, value: string)
    requires '\'' !in column
    ensures QuotesIn(WhereText(Postgres, [JsonContains(column, [], Literal(value))])) == 2 + QuotesIn(value)
  {
    var fragments := WhereFragments(Postgres, [JsonContains(column, [], Literal(value))]);
    assert fragments == [Raw(column), Raw(" @> "), Quoted(JsonString(value)), Raw("::jsonb")];
    JsonKeepsQuotes(value);
    QuotesOfFour(column, " @> ", JsonString(value), "::jsonb");
  }

  lemma QuotesFirst(fragments: seq<Fragment>)
    requires fragments != []
    ensures QuotesIn(TextOf(fragments)) == QuotesIn(FragmentText(fragments[0])) + QuotesIn(TextOf(fragments[1..]))
  {
    QuotesConcat(FragmentText(fragments[0]), TextOf(fragments[1..]));
  }

  lemma QuotesOfLiteral(body: string)
    ensures QuotesIn(FragmentText(Quoted(body))) == 2 + QuotesIn(body)
  {
    QuotesConcat(['\''] + body, ['\'']);
    QuotesConcat(['\''], body);
    assert ['\''][1..] == [];
  }

  lemma QuotesOfFour(a: string, b: string, body: string, d: string)
    requires '\'' !in a && '\'' !in b && '\'' !in d
    ensures QuotesIn(TextOf([Raw(a), Raw(b), Quoted(body), Raw(d)])) == 2 + QuotesIn(body)
  {
    var one, two, three := [Raw(d)], [Quoted(body), Raw(d)], [Raw(b), Quoted(body), Raw(d)];
    var four := [Raw(a), Raw(b), Quoted(body), Raw(d)];
    assert four[1..] == three && three[1..] == two && two[1..] == one && one[1..] == [];
    QuotesFirst(four);
    QuotesFirst(three);
    QuotesFirst(two);
    QuotesFirst(one);
    QuotesOfLiteral(body);
    NoQuotes(a);
    NoQuotes(b);
    NoQuotes(d);
  }

  lemma OddQuotesUnread(column: string, value: string)
    requires '\'' !in column && QuotesIn(value) % 2 == 1
    ensures Lex(Postgres, WhereText(Postgres, [JsonContains(column, [], Literal(value))])) == None
  {
    ContainsTermText(column, value);
    OddQuotesUnreadable(Postgres, WhereText(Postgres, [JsonContains(column, [], Literal(value))]));
  }

  /** With an odd number of quotes in the value, the text of the query cannot be read at all. */
  lemma OddQuotesBreakContainment(env: Env, column: string, value: string)
    requires env.driver == Postgres && '\'' !in column && QuotesIn(value) % 2 == 1
    ensures Lex(Postgres, WhereText(Postgres, Compiled(env, [ContainsTerm(column, value)]).conditions)) == None
  {
    ContainsTermCompiled(env, column, value);
    OddQuotesUnread(column, value);
  }
}
