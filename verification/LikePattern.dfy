/** LIKE over strings, and when a value used as a pattern stands for itself. */
module LikePattern {
  import opened SqlText
  import opened Strings
  import opened Wrappers

  /** Does the database read a backslash in a pattern as an escape? */
  predicate Escapes(driver: Driver) {
    driver != Sqlite
  }

  /** Whether the text matches the pattern: `%` is any text, `_` any character, and any other
      character one that `fold` does not tell apart from it. After a backslash that escapes, a
      character stands for itself; at the end it stands for itself on MySQL and matches
      nothing on PostgreSQL. */
  predicate LikeMatch(driver: Driver, fold: char -> char, pattern: string, text: string)
    decreases |pattern| + |text|
  {
    if pattern == [] then text == []
    else if pattern[0] == '%' then
      LikeMatch(driver, fold, pattern[1..], text) || (text != [] && LikeMatch(driver, fold, pattern, text[1..]))
    else if pattern[0] == '_' then text != [] && LikeMatch(driver, fold, pattern[1..], text[1..])
    else if pattern[0] == '\\' && Escapes(driver) && |pattern| > 1 then
      text != [] && fold(pattern[1]) == fold(text[0]) && LikeMatch(driver, fold, pattern[2..], text[1..])
    else if pattern == ['\\'] && driver == Postgres then false
    else text != [] && fold(pattern[0]) == fold(text[0]) && LikeMatch(driver, fold, pattern[1..], text[1..])
  }

  /** Equal but for what `fold` does not tell apart. */
  predicate SameText(fold: char -> char, a: string, b: string) {
    |a| == |b| && forall i :: 0 <= i < |a| ==> fold(a[i]) == fold(b[i])
  }

  predicate HasPrefix(fold: char -> char, value: string, text: string) {
    |value| <= |text| && SameText(fold, value, text[..|value|])
  }

  predicate HasSuffix(fold: char -> char, value: string, text: string) {
    |value| <= |text| && SameText(fold, value, text[|text| - |value|..])
  }

  predicate Occurs(fold: char -> char, value: string, text: string) {
    exists i :: 0 <= i <= |text| && HasPrefix(fold, value, text[i..])
  }

  // ---------------------------------------------------------------------------
  // Values that stand for themselves
  // ---------------------------------------------------------------------------

  predicate Wild(driver: Driver, c: char) {
    c == '%' || c == '_' || (c == '\\' && Escapes(driver))
  }

  /** No character of the value means anything but itself in a pattern. */
  predicate NoWildcards(driver: Driver, value: string) {
    forall i :: 0 <= i < |value| ==> !Wild(driver, value[i])
  }

  /** The same, where nothing follows: on MySQL a last backslash is harmless. */
  predicate HarmlessAtEnd(driver: Driver, value: string) {
    || value == []
    || (driver == Mysql && value == ['\\'])
    || (!Wild(driver, value[0]) && HarmlessAtEnd(driver, value[1..]))
  }

  lemma LiteralFirst(driver: Driver, value: string)
    requires value != []
    ensures NoWildcards(driver, value) <==> !Wild(driver, value[0]) && NoWildcards(driver, value[1..])
  {
    assert forall i :: 0 < i < |value| ==> value[i] == value[1..][i - 1];
  }

  lemma SameFirst(fold: char -> char, a: string, b: string)
    requires a != [] && b != []
    ensures SameText(fold, a, b) <==> fold(a[0]) == fold(b[0]) && SameText(fold, a[1..], b[1..])
  {
    if fold(a[0]) == fold(b[0]) && SameText(fold, a[1..], b[1..]) {
      forall i | 0 <= i < |a|
        ensures fold(a[i]) == fold(b[i])
      {
        if i > 0 {
          assert a[i] == a[1..][i - 1] && b[i] == b[1..][i - 1];
        }
      }
    }
  }

  lemma PrefixFirst(fold: char -> char, value: string, text: string)
    requires value != []
    ensures HasPrefix(fold, value, text)
       <==> text != [] && fold(value[0]) == fold(text[0]) && HasPrefix(fold, value[1..], text[1..])
  {
    if |value| <= |text| {
      SameFirst(fold, value, text[..|value|]);
      assert text[..|value|][1..] == text[1..][..|value| - 1];
    }
  }

  /** `%` matches every text. */
  lemma {:induction false} AnyMatches(driver: Driver, fold: char -> char, text: string)
    ensures LikeMatch(driver, fold, ['%'], text)
  {
    if text != [] {
      AnyMatches(driver, fold, text[1..]);
    }
  }

  /** `%` in front skips any number of characters. */
  lemma {:induction false} AnyThen(driver: Driver, fold: char -> char, pattern: string, text: string)
    ensures LikeMatch(driver, fold, ['%'] + pattern, text)
       <==> exists i :: 0 <= i <= |text| && LikeMatch(driver, fold, pattern, text[i..])
  {
    assert (['%'] + pattern)[1..] == pattern;
    assert text[0..] == text;
    if text != [] {
      AnyThen(driver, fold, pattern, text[1..]);
      assert forall i :: 0 <= i <= |text[1..]| ==> text[1..][i..] == text[i + 1..];
      if exists i :: 0 <= i <= |text| && LikeMatch(driver, fold, pattern, text[i..]) {
        var i :| 0 <= i <= |text| && LikeMatch(driver, fold, pattern, text[i..]);
        if i > 0 {
          assert LikeMatch(driver, fold, pattern, text[1..][i - 1..]);
        }
      }
      if exists i :: 0 <= i <= |text[1..]| && LikeMatch(driver, fold, pattern, text[1..][i..]) {
        var i :| 0 <= i <= |text[1..]| && LikeMatch(driver, fold, pattern, text[1..][i..]);
        assert LikeMatch(driver, fold, pattern, text[i + 1..]);
      }
    }
  }

  /** A literal value consumes exactly a prefix that is the same text. */
  lemma {:induction false} LiteralThen(driver: Driver, fold: char -> char, value: string, pattern: string, text: string)
    requires NoWildcards(driver, value)
    ensures LikeMatch(driver, fold, value + pattern, text)
       <==> HasPrefix(fold, value, text) && LikeMatch(driver, fold, pattern, text[|value|..])
  {
    if value == [] {
      assert value + pattern == pattern && text[0..] == text;
    } else {
      LiteralFirst(driver, value);
      PrefixFirst(fold, value, text);
      FrontOfConcat(value, pattern);
      if text != [] {
        LiteralThen(driver, fold, value[1..], pattern, text[1..]);
        if |value| <= |text| {
          assert text[1..][|value| - 1..] == text[|value|..];
        }
      }
    }
  }

  lemma {:induction false} LiteralWhole(driver: Driver, fold: char -> char, value: string, text: string)
    requires HarmlessAtEnd(driver, value)
    ensures LikeMatch(driver, fold, value, text) <==> SameText(fold, value, text)
  {
    if value != [] && text != [] {
      SameFirst(fold, value, text);
      if value != ['\\'] || driver != Mysql {
        LiteralWhole(driver, fold, value[1..], text[1..]);
      }
    }
  }

  // ---------------------------------------------------------------------------
  // Values that do not
  // ---------------------------------------------------------------------------

  /** The comparison tells the characters of patterns from those they are mistaken for. */
  predicate TellsApart(fold: char -> char) {
    fold('_') != fold('a') && fold('\\') != fold('%')
  }

  /** A text that a value matches as a pattern, where `%` follows it or nothing does. */
  function Sample(driver: Driver, value: string, open: bool): (text: string)
    ensures |text| <= |value|
  {
    if value == [] then []
    else if value[0] == '%' then Sample(driver, value[1..], open)
    else if value[0] == '_' then ['a'] + Sample(driver, value[1..], open)
    else if value[0] == '\\' && Escapes(driver) then
      if |value| > 1 then [value[1]] + Sample(driver, value[2..], open) else if open then ['%'] else ['\\']
    else [value[0]] + Sample(driver, value[1..], open)
  }

  /** A backslash that escapes, with nothing after it. */
  predicate Dangling(value: string) {
    value != [] && if value[0] == '\\' then |value| == 1 || Dangling(value[2..]) else Dangling(value[1..])
  }

  lemma {:induction false} OpenSampleMatches(driver: Driver, fold: char -> char, value: string)
    ensures LikeMatch(driver, fold, value + ['%'], Sample(driver, value, true))
  {
    var pattern, text := value + ['%'], Sample(driver, value, true);
    if value == [] {
      assert pattern == ['%'];
    } else {
      FrontOfConcat(value, ['%']);
      if value[0] == '\\' && Escapes(driver) {
        if |value| > 1 {
          OpenSampleMatches(driver, fold, value[2..]);
          assert pattern[2..] == value[2..] + ['%'] && text[1..] == Sample(driver, value[2..], true);
        } else {
          assert pattern[2..] == [] && text[1..] == [];
        }
      } else {
        OpenSampleMatches(driver, fold, value[1..]);
        assert value[0] != '%' ==> text[1..] == Sample(driver, value[1..], true);
      }
    }
  }

  lemma {:induction false} ClosedSampleMatches(driver: Driver, fold: char -> char, value: string)
    requires driver != Postgres || !Dangling(value)
    ensures LikeMatch(driver, fold, value, Sample(driver, value, false))
  {
    var text := Sample(driver, value, false);
    if value != [] {
      if value[0] == '\\' && Escapes(driver) {
        if |value| > 1 {
          ClosedSampleMatches(driver, fold, value[2..]);
          assert text[1..] == Sample(driver, value[2..], false);
        } else {
          assert value[1..] == [] && text[1..] == [];
        }
      } else {
        ClosedSampleMatches(driver, fold, value[1..]);
        assert value[0] != '%' ==> text[1..] == Sample(driver, value[1..], false);
      }
    }
  }

  lemma {:induction false} DanglingMatchesNothing(fold: char -> char, value: string, text: string)
    requires Dangling(value)
    ensures !LikeMatch(Postgres, fold, value, text)
    decreases |value| + |text|
  {
    if value[0] == '\\' {
      if |value| > 1 && text != [] {
        DanglingMatchesNothing(fold, value[2..], text[1..]);
      }
    } else {
      DanglingMatchesNothing(fold, value[1..], text);
      if text != [] {
        DanglingMatchesNothing(fold, value[1..], text[1..]);
        DanglingMatchesNothing(fold, value, text[1..]);
      }
    }
  }

  /** The sample of a value that does not stand for itself is another text. */
  lemma {:induction false} SampleDiffers(driver: Driver, fold: char -> char, value: string, open: bool)
    requires TellsApart(fold)
    requires if open then !NoWildcards(driver, value) else !HarmlessAtEnd(driver, value)
    requires open || driver != Postgres || !Dangling(value)
    ensures !SameText(fold, value, Sample(driver, value, open))
  {
    var text := Sample(driver, value, open);
    LiteralFirst(driver, value);
    if !Wild(driver, value[0]) {
      SampleDiffers(driver, fold, value[1..], open);
      SameFirst(fold, value, text);
      assert text[1..] == Sample(driver, value[1..], open);
    } else if value[0] == '_' {
      assert fold(value[0]) != fold(text[0]);
    } else if value == ['\\'] && open {
      assert fold(value[0]) != fold(text[0]);
    }
  }

  // ---------------------------------------------------------------------------
  // The patterns built around an operand
  // ---------------------------------------------------------------------------

  /** The operand itself, or the operand concatenated with a wildcard. */
  datatype Pattern = Whole | StartingWith | EndingWith

  /** Concatenation with NULL is NULL on MySQL; elsewhere it leaves NULL out. */
  function PatternText(driver: Driver, pattern: Pattern, operand: Option<string>): Option<string> {
    match pattern
    case Whole => operand
    case StartingWith =>
      if operand.Some? then Some(operand.value + ['%']) else if driver == Mysql then None else Some(['%'])
    case EndingWith =>
      if operand.Some? then Some(['%'] + operand.value) else if driver == Mysql then None else Some(['%'])
  }

  predicate Matches(driver: Driver, fold: char -> char, pattern: Option<string>, text: string) {
    pattern.Some? && LikeMatch(driver, fold, pattern.value, text)
  }

  /** What a text parameter is bound as: the word null, in any case, as NULL. */
  function TextOperand(value: string): Option<string> {
    if NullWord(value) then None else Some(value)
  }

  ghost predicate FindsOccurrences(driver: Driver, fold: char -> char, value: string) {
    forall text :: LikeMatch(driver, fold, ['%'] + (value + ['%']), text) <==> Occurs(fold, value, text)
  }

  ghost predicate FindsPrefixes(driver: Driver, fold: char -> char, value: string) {
    forall text :: Matches(driver, fold, PatternText(driver, StartingWith, TextOperand(value)), text) <==> HasPrefix(fold, value, text)
  }

  ghost predicate FindsSuffixes(driver: Driver, fold: char -> char, value: string) {
    forall text :: Matches(driver, fold, PatternText(driver, EndingWith, TextOperand(value)), text) <==> HasSuffix(fold, value, text)
  }

  lemma LiteralOccurs(driver: Driver, fold: char -> char, value: string, text: string)
    requires NoWildcards(driver, value)
    ensures LikeMatch(driver, fold, ['%'] + (value + ['%']), text) <==> Occurs(fold, value, text)
  {
    AnyThen(driver, fold, value + ['%'], text);
    forall i | 0 <= i <= |text|
      ensures LikeMatch(driver, fold, value + ['%'], text[i..]) <==> HasPrefix(fold, value, text[i..])
    {
      LiteralStarts(driver, fold, value, text[i..]);
    }
  }

  lemma LiteralStarts(driver: Driver, fold: char -> char, value: string, text: string)
    requires NoWildcards(driver, value)
    ensures LikeMatch(driver, fold, value + ['%'], text) <==> HasPrefix(fold, value, text)
  {
    LiteralThen(driver, fold, value, ['%'], text);
    if |value| <= |text| {
      AnyMatches(driver, fold, text[|value|..]);
    }
  }

  lemma LiteralEnds(driver: Driver, fold: char -> char, value: string, text: string)
    requires HarmlessAtEnd(driver, value)
    ensures LikeMatch(driver, fold, ['%'] + value, text) <==> HasSuffix(fold, value, text)
  {
    AnyThen(driver, fold, value, text);
    forall i | 0 <= i <= |text|
      ensures LikeMatch(driver, fold, value, text[i..]) <==> SameText(fold, value, text[i..])
    {
      LiteralWhole(driver, fold, value, text[i..]);
    }
  }

  /** `contains` finds exactly the texts the value occurs in, if and only if the value holds no
      wildcard and no escape. */
  lemma ContainsExactly(driver: Driver, fold: char -> char, value: string)
    requires TellsApart(fold)
    ensures FindsOccurrences(driver, fold, value) <==> NoWildcards(driver, value)
  {
    if NoWildcards(driver, value) {
      forall text
        ensures LikeMatch(driver, fold, ['%'] + (value + ['%']), text) <==> Occurs(fold, value, text)
      {
        LiteralOccurs(driver, fold, value, text);
      }
    } else {
      var text := Sample(driver, value, true);
      OpenSampleMatches(driver, fold, value);
      SampleDiffers(driver, fold, value, true);
      AnyThen(driver, fold, value + ['%'], text);
      assert text[0..] == text;
      assert LikeMatch(driver, fold, ['%'] + (value + ['%']), text);
      assert !Occurs(fold, value, text);
    }
  }

  /** `startswith` finds exactly the texts the value is a prefix of, if and only if the value holds
      no wildcard and no escape and is not the word null. */
  lemma StartsWithExactly(driver: Driver, fold: char -> char, value: string)
    requires TellsApart(fold)
    ensures FindsPrefixes(driver, fold, value) <==> NoWildcards(driver, value) && !NullWord(value)
  {
    var pattern := PatternText(driver, StartingWith, TextOperand(value));
    if NullWord(value) {
      NullFindsOther(driver, fold, value, pattern);
    } else if NoWildcards(driver, value) {
      forall text
        ensures Matches(driver, fold, pattern, text) <==> HasPrefix(fold, value, text)
      {
        LiteralStarts(driver, fold, value, text);
      }
    } else {
      var text := Sample(driver, value, true);
      OpenSampleMatches(driver, fold, value);
      SampleDiffers(driver, fold, value, true);
      assert Matches(driver, fold, pattern, text) && !HasPrefix(fold, value, text);
    }
  }

  /** A pattern built around NULL matches everything, or nothing. */
  lemma NullFindsOther(driver: Driver, fold: char -> char, value: string, pattern: Option<string>)
    requires value != [] && pattern == if driver == Mysql then None else Some(['%'])
    ensures !Matches(driver, fold, pattern, value) || Matches(driver, fold, pattern, [])
    ensures HasPrefix(fold, value, value) && !HasPrefix(fold, value, [])
    ensures HasSuffix(fold, value, value) && !HasSuffix(fold, value, [])
  {
    assert value[..|value|] == value && value[|value| - |value|..] == value;
    AnyMatches(driver, fold, []);
  }

  /** `endswith` finds exactly the texts the value is a suffix of, if and only if the value holds no
      wildcard and no escape, but for a last backslash on MySQL, and is not the word null. */
  lemma EndsWithExactly(driver: Driver, fold: char -> char, value: string)
    requires TellsApart(fold)
    ensures FindsSuffixes(driver, fold, value) <==> HarmlessAtEnd(driver, value) && !NullWord(value)
  {
    var pattern := PatternText(driver, EndingWith, TextOperand(value));
    if NullWord(value) {
      NullFindsOther(driver, fold, value, pattern);
    } else if HarmlessAtEnd(driver, value) {
      forall text
        ensures Matches(driver, fold, pattern, text) <==> HasSuffix(fold, value, text)
      {
        LiteralEnds(driver, fold, value, text);
      }
    } else if driver == Postgres && Dangling(value) {
      DanglingNeverEnds(fold, value, value);
      assert value[|value| - |value|..] == value;
      assert !Matches(driver, fold, pattern, value) && HasSuffix(fold, value, value);
    } else {
      var text := Sample(driver, value, false);
      ClosedSampleMatches(driver, fold, value);
      SampleDiffers(driver, fold, value, false);
      AnyThen(driver, fold, value, text);
      assert text[0..] == text;
      assert Matches(driver, fold, pattern, text) && !HasSuffix(fold, value, text);
    }
  }

  lemma DanglingNeverEnds(fold: char -> char, value: string, text: string)
    requires Dangling(value)
    ensures !LikeMatch(Postgres, fold, ['%'] + value, text)
  {
    AnyThen(Postgres, fold, value, text);
    forall i | 0 <= i <= |text|
      ensures !LikeMatch(Postgres, fold, value, text[i..])
    {
      DanglingMatchesNothing(fold, value, text[i..]);
    }
  }

  /** Looking for "50%" also finds "500", on every database. */
  lemma PercentIsWild(driver: Driver, fold: char -> char)
    ensures LikeMatch(driver, fold, ['%'] + ("50%" + ['%']), "500")
    ensures fold('%') != fold('0') ==> !Occurs(fold, "50%", "500")
  {
    var text := "500";
    AnyThen(driver, fold, "50%" + ['%'], text);
    LiteralThen(driver, fold, "50", "%%", text);
    assert "50" + "%%" == "50%" + ['%'];
    assert text[2..] == "0" && text[0..] == text;
    AnyMatches(driver, fold, "0");
    assert "%%"[1..] == ['%'];
    assert text[..2] == "50";
    assert HasPrefix(fold, "50", text);
  }
}
