/** Placeholders as a database reads them from the tokens of a text: `$n` on PostgreSQL, unless
    it continues a name, and `?` on MySQL and SQLite. */
module SlotText {
  import opened SqlText
  import opened PathText
  import Numerals

  /** `$n` on PostgreSQL, `?` on MySQL and SQLite, or a string written into the text as JSON. */
  datatype Slot = Dollar(index: nat) | Question | Literal(text: string)

  /** What the reader is in: a name, the number of a placeholder, or neither. */
  datatype Scan = Outside | InName | InNumber(value: nat)

  predicate NameChar(c: char) {
    IsLetter(c) || IsDigitChar(c) || c == '$'
  }

  /** A number that has not ended yet. */
  function Pending(st: Scan): seq<Slot> {
    if st.InNumber? then [Dollar(st.value)] else []
  }

  function AfterMark(driver: Driver, c: char, st: Scan): Scan {
    if driver == Postgres && c == '$' && !st.InName? then InNumber(0)
    else if NameChar(c) then InName
    else Outside
  }

  /** The placeholders that end with a token, and what the reader is in after it. */
  function ReadToken(driver: Driver, t: Token, st: Scan): (seq<Slot>, Scan) {
    match t
    case Str(_) => (Pending(st), Outside)
    case Mark(c) =>
      if st.InNumber? && IsDigitChar(c) then ([], InNumber(st.value * 10 + (c - '0') as nat))
      else if driver != Postgres && c == '?' then (Pending(st) + [Question], Outside)
      else (Pending(st), AfterMark(driver, c, st))
  }

  function Scanned(driver: Driver, tokens: seq<Token>, st: Scan): (seq<Slot>, Scan) {
    if tokens == [] then ([], st)
    else
      var (first, next) := ReadToken(driver, tokens[0], st);
      var (others, end) := Scanned(driver, tokens[1..], next);
      (first + others, end)
  }

  /** All placeholders of a text, in order. */
  function SlotsRead(driver: Driver, tokens: seq<Token>): seq<Slot> {
    var (slots, end) := Scanned(driver, tokens, Outside);
    slots + Pending(end)
  }

  // ---------------------------------------------------------------------------
  // Text put together
  // ---------------------------------------------------------------------------

  /** Reading these tokens adds these placeholders and ends like this. */
  ghost predicate Adds(driver: Driver, tokens: seq<Token>, st: Scan, slots: seq<Slot>, end: Scan) {
    Scanned(driver, tokens, st).1 == end && Scanned(driver, tokens, st).0 + Pending(end) == Pending(st) + slots
  }

  lemma {:induction false} ScannedConcat(driver: Driver, a: seq<Token>, b: seq<Token>, st: Scan)
    ensures var (x, mid) := Scanned(driver, a, st);
            var (y, end) := Scanned(driver, b, mid);
            Scanned(driver, a + b, st) == (x + y, end)
  {
    if a == [] {
      assert a + b == b;
      assert [] + Scanned(driver, b, st).0 == Scanned(driver, b, st).0;
    } else {
      FrontOfConcat(a, b);
      var (first, next) := ReadToken(driver, a[0], st);
      ScannedConcat(driver, a[1..], b, next);
      var (x, mid) := Scanned(driver, a[1..], next);
      Associative(first, x, Scanned(driver, b, mid).0);
    }
  }

  lemma AddsConcat(driver: Driver, a: seq<Token>, b: seq<Token>, st: Scan, s: seq<Slot>, mid: Scan, t: seq<Slot>, end: Scan)
    requires Adds(driver, a, st, s, mid) && Adds(driver, b, mid, t, end)
    ensures Adds(driver, a + b, st, s + t, end)
  {
    ScannedConcat(driver, a, b, st);
    var x, y := Scanned(driver, a, st).0, Scanned(driver, b, mid).0;
    Associative(x, y, Pending(end));
    Associative(x, Pending(mid), t);
    Associative(Pending(st), s, t);
  }

  lemma ScannedFirst(driver: Driver, t: Token, rest: seq<Token>, st: Scan)
    ensures var (first, next) := ReadToken(driver, t, st);
            var (others, end) := Scanned(driver, rest, next);
            Scanned(driver, [t] + rest, st) == (first + others, end)
  {
    assert ([t] + rest)[1..] == rest;
  }

  lemma ScannedOne(driver: Driver, t: Token, st: Scan)
    ensures Scanned(driver, [t], st) == ReadToken(driver, t, st)
  {
    assert [t] + [] == [t];
    ScannedFirst(driver, t, [], st);
    assert ReadToken(driver, t, st).0 + [] == ReadToken(driver, t, st).0;
  }

  lemma {:induction false} MarksConcat(a: string, b: string)
    ensures Marks(a + b) == Marks(a) + Marks(b)
  {
    if a == [] {
      assert a + b == b;
    } else {
      FrontOfConcat(a, b);
      MarksConcat(a[1..], b);
      Associative([Mark(a[0])], Marks(a[1..]), Marks(b));
    }
  }

  /** Text without the character that starts a placeholder. */
  predicate Silent(driver: Driver, text: string) {
    if driver == Postgres then '$' !in text else '?' !in text
  }

  function EndOf(text: string): Scan
    requires text != []
  {
    if NameChar(text[|text| - 1]) then InName else Outside
  }

  lemma {:induction false} SilentAdds(driver: Driver, text: string, st: Scan)
    requires text != [] && Silent(driver, text) && (st.InNumber? ==> !IsDigitChar(text[0]))
    ensures Adds(driver, Marks(text), st, [], EndOf(text))
  {
    var next := AfterMark(driver, text[0], st);
    assert text[0] in text;
    assert ReadToken(driver, Mark(text[0]), st) == (Pending(st), next);
    if |text| == 1 {
      assert text[1..] == [] && Marks(text) == [Mark(text[0])];
      ScannedOne(driver, Mark(text[0]), st);
    } else {
      assert forall c :: c in text[1..] ==> c in text;
      SilentAdds(driver, text[1..], next);
      ScannedFirst(driver, Mark(text[0]), Marks(text[1..]), st);
      assert text[1..][|text[1..]| - 1] == text[|text| - 1];
    }
  }

  /** A name may hold dollar signs, but does not start with one. */
  lemma {:induction false} InsideName(driver: Driver, text: string)
    requires forall i :: 0 <= i < |text| ==> NameChar(text[i])
    ensures Scanned(driver, Marks(text), InName) == ([], InName)
  {
    if text != [] {
      InsideName(driver, text[1..]);
      assert ReadToken(driver, Mark(text[0]), InName) == ([], InName);
      ScannedFirst(driver, Mark(text[0]), Marks(text[1..]), InName);
      assert [] + Scanned(driver, Marks(text[1..]), InName).0 == [];
    }
  }

  lemma NameAdds(driver: Driver, name: string, st: Scan)
    requires PlainName(name)
    ensures Adds(driver, Marks(name), st, [], InName)
  {
    assert ReadToken(driver, Mark(name[0]), st) == (Pending(st), InName);
    assert forall i :: 0 <= i < |name[1..]| ==> name[1..][i] == name[i + 1];
    InsideName(driver, name[1..]);
    ScannedFirst(driver, Mark(name[0]), Marks(name[1..]), st);
  }

  lemma {:induction false} DigitsScanned(n: nat)
    ensures Scanned(Postgres, Marks(Numerals.Decimal(n)), InNumber(0)) == ([], InNumber(n))
  {
    if n < 10 {
      var c := '0' + n as char;
      assert Numerals.Decimal(n) == [c] && [c][1..] == [];
      assert Marks([c]) == [Mark(c)];
      ScannedOne(Postgres, Mark(c), InNumber(0));
    } else {
      var c := '0' + (n % 10) as char;
      DigitsScanned(n / 10);
      MarksConcat(Numerals.Decimal(n / 10), [c]);
      ScannedConcat(Postgres, Marks(Numerals.Decimal(n / 10)), Marks([c]), InNumber(0));
      assert [c][1..] == [] && Marks([c]) == [Mark(c)];
      ScannedOne(Postgres, Mark(c), InNumber(n / 10));
    }
  }

  lemma DollarAdds(n: nat, st: Scan)
    requires !st.InName?
    ensures Adds(Postgres, Marks(['$'] + Numerals.Decimal(n)), st, [Dollar(n)], InNumber(n))
  {
    MarksConcat(['$'], Numerals.Decimal(n));
    assert ['$'][1..] == [] && Marks(['$']) == [Mark('$')];
    ScannedFirst(Postgres, Mark('$'), Marks(Numerals.Decimal(n)), st);
    DigitsScanned(n);
  }

  lemma QuestionAdds(driver: Driver, st: Scan)
    requires driver != Postgres
    ensures Adds(driver, Marks("?"), st, [Question], Outside)
  {
    assert "?"[1..] == [] && Marks("?") == [Mark('?')];
    ScannedOne(driver, Mark('?'), st);
  }

  lemma LiteralAdds(driver: Driver, text: string, st: Scan)
    ensures Adds(driver, [Str(text)], st, [], Outside)
  {
    ScannedOne(driver, Str(text), st);
  }

  /** Tokens that hold no placeholder of their own hold none after a number either, which they do not continue. */
  lemma OwnAdds(driver: Driver, tokens: seq<Token>, st: Scan)
    requires SlotsRead(driver, tokens) == [] && !st.InName?
    requires tokens != [] && (tokens[0].Mark? ==> !IsDigitChar(tokens[0].c))
    ensures Adds(driver, tokens, st, [], Scanned(driver, tokens, Outside).1)
  {
    var (first, next) := ReadToken(driver, tokens[0], Outside);
    assert first + Scanned(driver, tokens[1..], next).0 == [] && first == [];
    assert ReadToken(driver, tokens[0], st) == (Pending(st), next);
  }
}
