/** The keys of filters: how one is taken apart, and which column it is checked against. */
module FilterKeys {
  import opened Wrappers
  import opened Strings
  import opened PathText
  import opened SqlText

  datatype Comparison = Eq | Ne | Gt | Gte | Lt | Lte

  datatype FilterOperator =
    | Comparing(op: Comparison) | In | NotIn | Contains | Exists | StartsWith | EndsWith | LikeWhole | ILike

  datatype FilterExpression = FilterExpression(path: seq<string>, operator: FilterOperator)

  datatype KeyError = BadSyntax | UnsupportedOperator(name: string)

  function OperatorOf(name: string): Option<FilterOperator> {
    match name
    case "eq" => Some(Comparing(Eq))
    case "ne" => Some(Comparing(Ne))
    case "gt" => Some(Comparing(Gt))
    case "gte" => Some(Comparing(Gte))
    case "lt" => Some(Comparing(Lt))
    case "lte" => Some(Comparing(Lte))
    case "in" => Some(In)
    case "not_in" => Some(NotIn)
    case "contains" => Some(Contains)
    case "exists" => Some(Exists)
    case "startswith" => Some(StartsWith)
    case "endswith" => Some(EndsWith)
    case "like" => Some(LikeWhole)
    case "ilike" => Some(ILike)
    case _ => None
  }

  // ---------------------------------------------------------------------------
  // Path and operator
  // ---------------------------------------------------------------------------

  /** The text before the last separator, and the text after it. */
  function SplitLast(s: string, sep: char): Option<(string, string)> {
    if s == [] then None
    else if s[|s| - 1] == sep then Some((s[..|s| - 1], []))
    else match SplitLast(s[..|s| - 1], sep)
      case None => None
      case Some((before, after)) => Some((before, after + [s[|s| - 1]]))
  }

  predicate OperatorName(s: string) {
    s != [] && forall i :: 0 <= i < |s| ==> 'a' <= s[i] <= 'z' || s[i] == '_'
  }

  /** The path and the operator of a key of the form `path[operator]`. */
  function Bracketed(key: string): Option<(string, string)> {
    if key == [] || key[|key| - 1] != ']' then None
    else match SplitLast(key[..|key| - 1], '[')
      case None => None
      case Some((path, name)) => if OperatorName(name) && '\n' !in path then Some((path, name)) else None
  }

  function ParseFilterKey(key: string): (r: Result<FilterExpression, KeyError>)
    ensures r.Ok? ==> r.value.path != []
  {
    match Bracketed(key)
    case Some((path, name)) =>
      (match OperatorOf(name)
       case None => Err(UnsupportedOperator(name))
       case Some(operator) => Ok(FilterExpression(Split(path, '.'), operator)))
    case None =>
      if '[' in key || ']' in key then Err(BadSyntax) else Ok(FilterExpression(Split(key, '.'), Comparing(Eq)))
  }

  // ---------------------------------------------------------------------------
  // The parts of a field with dots and brackets
  // ---------------------------------------------------------------------------

  /** The text up to a closing bracket, and the text after it; all of the text when there is none. */
  function UpToBracket(s: string): (r: (string, string))
    ensures |r.1| <= |s|
  {
    if s == [] then ([], [])
    else if s[0] == ']' then ([], s[1..])
    else var (content, rest) := UpToBracket(s[1..]); ([s[0]] + content, rest)
  }

  function Flush(part: string): seq<string> {
    if part == [] then [] else [part]
  }

  /** The parts of the rest of a field when this much of the current part has been read. */
  function PartsFrom(s: string, current: string): seq<string>
    decreases |s|
  {
    if s == [] then Flush(current)
    else if s[0] == '[' then
      var (content, rest) := UpToBracket(s[1..]);
      Flush(current) + Flush(content) + PartsFrom(rest, [])
    else if s[0] == '.' then Flush(current) + PartsFrom(s[1..], [])
    else PartsFrom(s[1..], current + [s[0]])
  }

  function FieldParts(s: string): (string, seq<string>) {
    var parts := PartsFrom(s, []);
    if parts == [] then (s, []) else (parts[0], parts[1..])
  }

  lemma {:induction false} UpToBracketAt(s: string, start: nat, stop: nat)
    requires start <= stop <= |s| && (forall k :: start <= k < stop ==> s[k] != ']')
    requires stop == |s| || s[stop] == ']'
    ensures UpToBracket(s[start..]) == (s[start..stop], s[if stop == |s| then stop else stop + 1..])
    decreases stop - start
  {
    if start < stop {
      UpToBracketAt(s, start + 1, stop);
      assert s[start..][1..] == s[start + 1..];
      assert s[start..stop] == [s[start]] + s[start + 1..stop];
    } else if start < |s| {
      assert s[start..stop] == [] && s[start..][0] == ']';
      assert s[start..][1..] == s[stop + 1..];
    } else {
      assert s[start..] == [] && s[start..stop] == [] && s[stop..] == [];
    }
  }

  /** Reads on to the closing bracket, and over it. */
  method ReadBracket(field: string, start: nat) returns (content: string, next: nat)
    requires start <= |field|
    ensures start <= next <= |field| && UpToBracket(field[start..]) == (content, field[next..])
  {
    next, content := start, [];
    while next < |field| && field[next] != ']'
      invariant start <= next <= |field| && content == field[start..next]
      invariant forall k :: start <= k < next ==> field[k] != ']'
    {
      content := content + [field[next]];
      next := next + 1;
    }
    UpToBracketAt(field, start, next);
    if next < |field| {
      next := next + 1;
    }
  }

  /** What has been collected, and what the rest of the field adds to it, are the parts of the field. */
  ghost predicate Collected(field: string, parts: seq<string>, current: string, i: nat)
    requires i <= |field|
  {
    parts + PartsFrom(field[i..], current) == PartsFrom(field, [])
  }

  lemma CollectedStep(field: string, parts: seq<string>, current: string, i: nat)
    requires i < |field| && Collected(field, parts, current, i)
    ensures field[i] == '.' ==> Collected(field, parts + Flush(current), [], i + 1)
    ensures field[i] != '.' && field[i] != '[' ==> Collected(field, parts, current + [field[i]], i + 1)
  {
    assert field[i..][1..] == field[i + 1..];
    Associative(parts, Flush(current), PartsFrom(field[i + 1..], []));
  }

  lemma CollectedBracket(field: string, parts: seq<string>, current: string, i: nat, content: string, next: nat)
    requires i < |field| && field[i] == '[' && Collected(field, parts, current, i)
    requires next <= |field| && UpToBracket(field[i + 1..]) == (content, field[next..])
    ensures Collected(field, parts + Flush(current) + Flush(content), [], next)
  {
    assert field[i..][1..] == field[i + 1..];
    Associative(parts, Flush(current) + Flush(content), PartsFrom(field[next..], []));
    Associative(parts, Flush(current), Flush(content));
  }

  method ParseSortField(field: string) returns (base: string, path: seq<string>)
    ensures base == FieldParts(field).0 && path == FieldParts(field).1
  {
    var parts: seq<string>, current: string, i := [], [], 0;
    assert field[0..] == field;
    while i < |field|
      invariant 0 <= i <= |field| && Collected(field, parts, current, i)
    {
      if field[i] == '[' {
        var content, next := ReadBracket(field, i + 1);
        CollectedBracket(field, parts, current, i, content, next);
        parts, current := parts + Flush(current) + Flush(content), [];
        i := next;
      } else {
        CollectedStep(field, parts, current, i);
        if field[i] == '.' {
          parts, current := parts + Flush(current), [];
        } else {
          current := current + [field[i]];
        }
        i := i + 1;
      }
    }
    parts := parts + Flush(current);
    assert parts == PartsFrom(field, []);
    if parts == [] {
      return field, [];
    }
    base, path := parts[0], parts[1..];
  }

  // ---------------------------------------------------------------------------
  // The column a field is checked against
  // ---------------------------------------------------------------------------

  function TrimStart(s: string, c: char): string {
    if s != [] && s[0] == c then TrimStart(s[1..], c) else s
  }

  function TrimEnd(s: string, c: char): string {
    if s != [] && s[|s| - 1] == c then TrimEnd(s[..|s| - 1], c) else s
  }

  /** The text before the first `>` or `#`. */
  function BeforeArrow(s: string): string {
    if s == [] || s[0] == '>' || s[0] == '#' then [] else [s[0]] + BeforeArrow(s[1..])
  }

  /** Does an arrow operator, `->` or `#>`, occur? */
  predicate HasArrow(s: string) {
    exists i :: 0 <= i < |s| - 1 && (s[i] == '-' || s[i] == '#') && s[i + 1] == '>'
  }

  function ExtractBaseColumn(field: string): string {
    if field != [] && field[0] == '$' then
      var parts := Split(field, '.');
      if |parts| > 1 then TrimStart(parts[1], '$') else TrimStart(field, '$')
    else if HasArrow(field) then TrimEnd(BeforeArrow(field), '-')
    else if '[' in field || '.' in field then FieldParts(field).0
    else field
  }

  // ---------------------------------------------------------------------------
  // Keys whose column is a plain name
  // ---------------------------------------------------------------------------

  lemma {:induction false} SplitStarts(s: string, sep: char)
    ensures Split(s, sep)[0] <= s && sep !in Split(s, sep)[0]
    ensures Split(s, sep)[0] == s || s[|Split(s, sep)[0]|] == sep
  {
    if s != [] && s[0] != sep {
      SplitStarts(s[1..], sep);
      assert s == [s[0]] + s[1..];
    }
  }

  lemma {:induction false} SplitLastJoins(s: string, sep: char)
    ensures SplitLast(s, sep).Some? ==> s == SplitLast(s, sep).value.0 + [sep] + SplitLast(s, sep).value.1
  {
    if s != [] && s[|s| - 1] != sep {
      SplitLastJoins(s[..|s| - 1], sep);
      assert s == s[..|s| - 1] + [s[|s| - 1]];
    }
  }

  lemma {:induction false} SplitLastAt(before: string, after: string, sep: char)
    requires sep !in after
    ensures SplitLast(before + [sep] + after, sep) == Some((before, after))
    decreases |after|
  {
    var s := before + [sep] + after;
    if after == [] {
      assert s[..|s| - 1] == before;
    } else {
      assert s[..|s| - 1] == before + [sep] + after[..|after| - 1];
      SplitLastAt(before, after[..|after| - 1], sep);
      assert after == after[..|after| - 1] + [after[|after| - 1]];
    }
  }

  /** The path and the operator that are read from a key written with brackets. */
  lemma BracketedReads(path: string, name: string)
    requires OperatorName(name) && '\n' !in path
    ensures Bracketed(path + ['['] + name + [']']) == Some((path, name))
  {
    var key := path + ['['] + name + [']'];
    assert key[..|key| - 1] == path + ['['] + name;
    SplitLastAt(path, name, '[');
  }

  /** A key starts with its column; what follows is a dot, or a bracket and nothing but an operator. */
  predicate StartsWithColumn(key: string, column: string) {
    && column <= key
    && (|column| < |key| ==>
          || key[|column|] == '.'
          || (key[|column|] == '[' && forall i :: |column| <= i < |key| ==> key[i] != '>' && key[i] != '#'))
  }

  lemma KeyStartsWithColumn(key: string)
    requires ParseFilterKey(key).Ok?
    ensures StartsWithColumn(key, ParseFilterKey(key).value.path[0])
  {
    if Bracketed(key).Some? {
      var (path, name) := Bracketed(key).value;
      SplitLastJoins(key[..|key| - 1], '[');
      assert key == path + ['['] + name + [']'];
      SplitStarts(path, '.');
      forall i | |path| <= i < |key|
        ensures key[i] != '>' && key[i] != '#'
      {
        if |path| < i < |key| - 1 {
          assert key[i] == name[i - |path| - 1];
        }
      }
    } else {
      SplitStarts(key, '.');
    }
  }

  lemma {:induction false} PlainPartsFrom(column: string, rest: string, current: string)
    requires '.' !in column && '[' !in column
    ensures PartsFrom(column + rest, current) == PartsFrom(rest, current + column)
  {
    if column == [] {
      assert column + rest == rest && current + column == current;
    } else {
      FrontOfConcat(column, rest);
      assert column[0] in column;
      PlainPartsFrom(column[1..], rest, current + [column[0]]);
      assert current + [column[0]] + column[1..] == current + column;
    }
  }

  lemma {:induction false} ArrowComesLater(s: string, n: nat)
    requires n < |s| && forall i :: 0 <= i <= n ==> s[i] != '>' && s[i] != '#'
    ensures |BeforeArrow(s)| > n && BeforeArrow(s)[n] == s[n]
  {
    if n > 0 {
      ArrowComesLater(s[1..], n - 1);
    }
  }

  lemma {:induction false} TrimEndKeeps(s: string, c: char, n: nat)
    requires n < |s| && s[n] != c
    ensures s[n] in TrimEnd(s, c)
  {
    if s[|s| - 1] == c {
      TrimEndKeeps(s[..|s| - 1], c, n);
    }
  }

  lemma ColumnOfPlainStart(key: string, column: string)
    requires PlainName(column) && StartsWithColumn(key, column)
    ensures ExtractBaseColumn(key) == column || '.' in ExtractBaseColumn(key)
    ensures !HasArrow(key) ==> ExtractBaseColumn(key) == column
  {
    var n := |column|;
    assert forall i :: 0 <= i < n ==> key[i] == column[i];
    if HasArrow(key) {
      assert key[n] == '.';
      ArrowComesLater(key, n);
      TrimEndKeeps(BeforeArrow(key), '-', n);
    } else if '[' in key || '.' in key {
      assert n < |key|;
      assert key == column + key[n..];
      PlainPartsFrom(column, key[n..], []);
      assert [] + column == column;
      assert PartsFrom(key, [])[0] == column;
    } else {
      assert key[..n] == column;
    }
  }

  /** When the column that a filter is written with is a plain name, the key is checked against
      that very column, or against a name that holds a dot. */
  lemma PlainColumnIsChecked(key: string)
    requires ParseFilterKey(key).Ok? && PlainName(ParseFilterKey(key).value.path[0])
    ensures var column := ParseFilterKey(key).value.path[0];
            && ExtractBaseColumn(column) == column
            && (ExtractBaseColumn(key) == column || '.' in ExtractBaseColumn(key))
  {
    var column := ParseFilterKey(key).value.path[0];
    KeyStartsWithColumn(key);
    ColumnOfPlainStart(key, column);
    PlainNameHasNoQuote(column);
    assert StartsWithColumn(column, column);
    ColumnOfPlainStart(column, column);
  }

  // ---------------------------------------------------------------------------
  // Keys written as a JSON path or with an arrow
  // ---------------------------------------------------------------------------

  lemma {:induction false} BeforeArrowAt(before: string, arrow: char, rest: string)
    requires '>' !in before && '#' !in before && (arrow == '>' || arrow == '#')
    ensures BeforeArrow(before + [arrow] + rest) == before
  {
    if before == [] {
      assert before + [arrow] + rest == [arrow] + rest;
    } else {
      assert (before + [arrow] + rest)[1..] == before[1..] + [arrow] + rest;
      BeforeArrowAt(before[1..], arrow, rest);
      assert before == [before[0]] + before[1..];
    }
  }

  /** A plain column before an arrow operator is the one that the key is checked by. */
  lemma ArrowColumn(column: string, rest: string)
    requires PlainName(column)
    ensures ExtractBaseColumn(column + ['-', '>'] + rest) == column
    ensures ExtractBaseColumn(column + ['#', '>'] + rest) == column
  {
    var dash, hash := column + ['-', '>'] + rest, column + ['#', '>'] + rest;
    var n := |column|;
    assert '>' !in column && '#' !in column;
    assert dash[n] == '-' && dash[n + 1] == '>' && hash[n] == '#' && hash[n + 1] == '>';
    assert dash == (column + ['-']) + ['>'] + rest && hash == column + ['#'] + (['>'] + rest);
    BeforeArrowAt(column + ['-'], '>', rest);
    BeforeArrowAt(column, '#', ['>'] + rest);
    assert TrimEnd(column, '-') == column;
    assert (column + ['-'])[..n] == column;
  }

  lemma PathSteps(first: string, second: string, steps: seq<string>, sep: char)
    requires sep !in first && sep !in second && forall i :: 0 <= i < |steps| ==> sep !in steps[i]
    ensures Split(Join([first, second] + steps, sep), sep) == [first, second] + steps
  {
    SplitOfJoin([first, second] + steps, sep);
  }

  lemma JoinedStart(first: string, second: string, rest: seq<string>, sep: char)
    ensures first + [sep] <= Join([first, second] + rest, sep)
  {
    assert ([first, second] + rest)[0] == first;
  }

  /** A JSON path is checked by its first step. */
  lemma DollarColumn(column: string, steps: seq<string>)
    requires PlainName(column) && forall i :: 0 <= i < |steps| ==> '.' !in steps[i]
    ensures ExtractBaseColumn(Join([['$'], column] + steps, '.')) == column
  {
    PlainNameHasNoQuote(column);
    PathSteps(['$'], column, steps, '.');
    JoinedStart(['$'], column, steps, '.');
    assert TrimStart(column, '$') == column;
  }
}
