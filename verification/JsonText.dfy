/** A string as a JSON text, and read back from it. */
module JsonText {
  import opened Wrappers
  import opened SqlText

  function HexDigit(n: nat): char
    requires n < 16
  {
    if n < 10 then '0' + n as char else 'a' + (n - 10) as char
  }

  function HexValue(c: char): Option<nat> {
    if '0' <= c <= '9' then Some((c - '0') as nat)
    else if 'a' <= c <= 'f' then Some((c - 'a') as nat + 10)
    else if 'A' <= c <= 'F' then Some((c - 'A') as nat + 10)
    else None
  }

  const BACKSPACE: char := 8 as char
  const FORM_FEED: char := 12 as char

  /** The letter after the backslash, for the characters that have a short escape. */
  function ShortEscape(c: char): Option<char> {
    if c == '"' || c == '\\' then Some(c)
    else if c == BACKSPACE then Some('b')
    else if c == '\t' then Some('t')
    else if c == '\n' then Some('n')
    else if c == FORM_FEED then Some('f')
    else if c == '\r' then Some('r')
    else None
  }

  /** How a serializer writes one character. */
  function EscapeChar(c: char): string {
    if ShortEscape(c).Some? then ['\\', ShortEscape(c).value]
    else if c < ' ' then ['\\', 'u', '0', '0', HexDigit(c as nat / 16), HexDigit(c as nat % 16)]
    else [c]
  }

  function Escaped(s: string): string {
    if s == [] then [] else EscapeChar(s[0]) + Escaped(s[1..])
  }

  function JsonString(s: string): string {
    ['"'] + Escaped(s) + ['"']
  }

  // ---------------------------------------------------------------------------
  // Reading
  // ---------------------------------------------------------------------------

  function Unescape(c: char): Option<char> {
    if c == '"' || c == '\\' || c == '/' then Some(c)
    else if c == 'b' then Some(BACKSPACE)
    else if c == 't' then Some('\t')
    else if c == 'n' then Some('\n')
    else if c == 'f' then Some(FORM_FEED)
    else if c == 'r' then Some('\r')
    else None
  }

  /** The character with this number, below the surrogates. */
  function CharOf(a: Option<nat>, b: Option<nat>, c: Option<nat>, d: Option<nat>): Option<char> {
    if a.None? || b.None? || c.None? || d.None? then None
    else
      var n := ((a.value * 16 + b.value) * 16 + c.value) * 16 + d.value;
      if n < 0xD800 then Some(n as char) else None
  }

  /** One character of a string and the number of characters it is written with. */
  function ReadChar(text: string): Option<(char, nat)> {
    if text == [] || text[0] < ' ' || text[0] == '"' then None
    else if text[0] != '\\' then Some((text[0], 1))
    else if |text| < 2 then None
    else if text[1] == 'u' then
      if |text| < 6 then None
      else match CharOf(HexValue(text[2]), HexValue(text[3]), HexValue(text[4]), HexValue(text[5]))
        case None => None
        case Some(c) => Some((c, 6))
    else match Unescape(text[1])
      case None => None
      case Some(c) => Some((c, 2))
  }

  /** The rest of a string whose opening quote has been read; nothing may follow its end. */
  function ReadRest(text: string): Option<string>
    decreases |text|
  {
    if text == [] then None
    else if text[0] == '"' then (if |text| == 1 then Some([]) else None)
    else match ReadChar(text)
      case None => None
      case Some((c, n)) =>
        if n > |text| then None
        else match ReadRest(text[n..])
          case None => None
          case Some(others) => Some([c] + others)
  }

  function ReadJson(text: string): Option<string> {
    if text == [] || text[0] != '"' then None else ReadRest(text[1..])
  }

  // ---------------------------------------------------------------------------
  // Round trip
  // ---------------------------------------------------------------------------

  lemma CharReads(c: char, rest: string)
    ensures EscapeChar(c) != [] && EscapeChar(c)[0] != '"'
    ensures ReadChar(EscapeChar(c) + rest) == Some((c, |EscapeChar(c)|))
  {
    if ShortEscape(c) == None && c < ' ' {
      ControlReads(c);
    }
  }

  lemma ControlReads(c: char)
    requires c < ' '
    ensures CharOf(Some(0), Some(0), HexValue(HexDigit(c as nat / 16)), HexValue(HexDigit(c as nat % 16))) == Some(c)
  {
  }

  lemma {:induction false} EscapedReads(s: string)
    ensures ReadRest(Escaped(s) + ['"']) == Some(s)
  {
    if s != [] {
      var first, rest := EscapeChar(s[0]), Escaped(s[1..]) + ['"'];
      EscapedReads(s[1..]);
      CharReads(s[0], rest);
      Associative(first, Escaped(s[1..]), ['"']);
      DropOfConcat(first, rest, |first|);
      assert first[|first|..] + rest == rest;
      assert s == [s[0]] + s[1..];
    }
  }

  /** Every string is read back from its JSON text. */
  lemma JsonRoundTrip(s: string)
    ensures ReadJson(JsonString(s)) == Some(s)
  {
    EscapedReads(s);
    assert JsonString(s)[1..] == Escaped(s) + ['"'];
  }

  // ---------------------------------------------------------------------------
  // Quotes
  // ---------------------------------------------------------------------------

  lemma EscapeKeepsQuote(c: char)
    ensures QuotesIn(EscapeChar(c)) == if c == '\'' then 1 else 0
  {
    NoQuotes(EscapeChar(c));
    if c == '\'' {
      assert EscapeChar(c) == ['\''] && ['\''][1..] == [];
    } else {
      HexIsNoQuote(c as nat % 16);
    }
  }

  lemma HexIsNoQuote(n: nat)
    requires n < 16
    ensures HexDigit(n) != '\''
  {
  }

  /** Escaping leaves single quotes as they are. */
  lemma {:induction false} JsonKeepsQuotes(s: string)
    ensures QuotesIn(Escaped(s)) == QuotesIn(s) && QuotesIn(JsonString(s)) == QuotesIn(s)
    ensures '\'' in JsonString(s) <==> '\'' in s
  {
    if s != [] {
      JsonKeepsQuotes(s[1..]);
      EscapeKeepsQuote(s[0]);
      QuotesConcat(EscapeChar(s[0]), Escaped(s[1..]));
    }
    QuotesConcat(['"'] + Escaped(s), ['"']);
    QuotesConcat(['"'], Escaped(s));
    assert QuotesIn(['"']) == 0 by {
      assert ['"'][1..] == [];
    }
    NoQuotes(s);
    NoQuotes(JsonString(s));
  }
}
