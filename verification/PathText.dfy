/** Paths into a document, written the way each database reads them, and plain names. */
module PathText {
  import opened Wrappers
  import opened SqlText
  import opened Strings

  // ---------------------------------------------------------------------------
  // Array literals: {a,b}
  // ---------------------------------------------------------------------------

  predicate ArraySpace(c: char) {
    c == ' ' || 9 <= c as int <= 13
  }

  function ArrayTrim(s: string): (r: string)
    ensures |r| <= |s|
  {
    if s != [] && ArraySpace(s[0]) then ArrayTrim(s[1..])
    else if s != [] && ArraySpace(s[|s| - 1]) then ArrayTrim(s[..|s| - 1])
    else s
  }

  predicate ArraySpecial(c: char) {
    c == ',' || c == '{' || c == '}' || c == '"' || c == '\\'
  }

  /** A word that stands for itself as an element of an array literal. */
  predicate PlainWord(s: string) {
    s != [] && !NullWord(s) && forall i :: 0 <= i < |s| ==> !ArraySpecial(s[i])
  }

  /** Such a word without space around it, which would be dropped. */
  predicate ArrayPlain(s: string) {
    PlainWord(s) && !ArraySpace(s[0]) && !ArraySpace(s[|s| - 1])
  }

  function ArrayText(parts: seq<string>): string {
    ['{'] + Join(parts, ',') + ['}']
  }

  /** An element, unless it is malformed, null, or written with quotes, escapes or braces. */
  function ReadElement(piece: string): Option<string> {
    if PlainWord(ArrayTrim(piece)) then Some(ArrayTrim(piece)) else None
  }

  function ReadElements(pieces: seq<string>): Option<seq<string>> {
    if pieces == [] then Some([])
    else match ReadElement(pieces[0])
      case None => None
      case Some(e) => match ReadElements(pieces[1..]) case None => None case Some(es) => Some([e] + es)
  }

  predicate ArrayBlank(s: string) {
    forall i :: 0 <= i < |s| ==> ArraySpace(s[i])
  }

  function ReadArray(text: string): Option<seq<string>> {
    if |text| < 2 || text[0] != '{' || text[|text| - 1] != '}' then None
    else
      var body := text[1..|text| - 1];
      if ArrayBlank(body) then Some([]) else ReadElements(Split(body, ','))
  }

  lemma ElementReads(piece: string)
    ensures ReadElement(piece) == Some(piece) <==> ArrayPlain(piece)
  {
    if piece != [] && ArraySpace(piece[0]) {
      assert |ArrayTrim(piece)| < |piece|;
    } else if piece != [] && ArraySpace(piece[|piece| - 1]) {
      assert |ArrayTrim(piece)| < |piece|;
    }
  }

  lemma {:induction false} ElementsRead(pieces: seq<string>)
    ensures ReadElements(pieces).Some? ==> |ReadElements(pieces).value| == |pieces|
    ensures ReadElements(pieces) == Some(pieces) <==> forall i :: 0 <= i < |pieces| ==> ArrayPlain(pieces[i])
  {
    if pieces != [] {
      ElementReads(pieces[0]);
      ElementsRead(pieces[1..]);
      assert pieces == [pieces[0]] + pieces[1..];
      assert (forall i :: 0 <= i < |pieces| ==> ArrayPlain(pieces[i]))
        <==> ArrayPlain(pieces[0]) && forall i :: 0 <= i < |pieces[1..]| ==> ArrayPlain(pieces[1..][i]);
    }
  }

  /** The array literal of a path reads back as the path exactly when every part stands for itself. */
  lemma ArrayReadsExactly(parts: seq<string>)
    ensures ReadArray(ArrayText(parts)) == Some(parts) <==> forall i :: 0 <= i < |parts| ==> ArrayPlain(parts[i])
  {
    var body := Join(parts, ',');
    assert ArrayText(parts)[1..|ArrayText(parts)| - 1] == body;
    if parts != [] {
      SplitOfJoin(parts, ',');
      ElementsRead(Split(body, ','));
      if forall i :: 0 <= i < |parts| ==> ArrayPlain(parts[i]) {
        assert forall i :: 0 <= i < |parts| ==> ',' !in parts[i] by {
          forall i | 0 <= i < |parts|
            ensures ',' !in parts[i]
          {
            assert ArrayPlain(parts[i]);
          }
        }
        JoinStarts(parts, ',');
        assert ArrayPlain(parts[0]);
        assert !ArrayBlank(body);
      }
    }
  }

  lemma JoinStarts(parts: seq<string>, sep: char)
    requires parts != [] && parts[0] != []
    ensures Join(parts, sep) != [] && Join(parts, sep)[0] == parts[0][0]
  {
  }

  // ---------------------------------------------------------------------------
  // JSON paths: $.a.b
  // ---------------------------------------------------------------------------

  predicate IsLetter(c: char) {
    'a' <= c <= 'z' || 'A' <= c <= 'Z' || c == '_' || c >= 128 as char
  }

  predicate IsDigitChar(c: char) {
    '0' <= c <= '9'
  }

  /** A letter or dollar sign, then letters, dollar signs and digits. */
  predicate Identifier(s: string) {
    && s != [] && (IsLetter(s[0]) || s[0] == '$')
    && forall i :: 0 <= i < |s| ==> IsLetter(s[i]) || s[i] == '$' || IsDigitChar(s[i])
  }

  /** A key that needs no quotes in a path of this database. */
  predicate PlainKey(driver: Driver, s: string) {
    if driver == Mysql then Identifier(s)
    else s != [] && s[0] != '"' && '.' !in s && '[' !in s
  }

  function DollarPath(keys: seq<string>): string {
    ['$', '.'] + Join(keys, '.')
  }

  /** The keys of a path, unless it is malformed or has steps of other kinds. */
  function ReadPath(driver: Driver, text: string): Option<seq<string>> {
    if text == ['$'] then Some([])
    else if |text| < 2 || text[0] != '$' || text[1] != '.' then None
    else
      var keys := Split(text[2..], '.');
      if forall i :: 0 <= i < |keys| ==> PlainKey(driver, keys[i]) then Some(keys) else None
  }

  /** The path text reads back as the path exactly when there are keys and each is plain. */
  lemma PathReadsExactly(driver: Driver, keys: seq<string>)
    ensures ReadPath(driver, DollarPath(keys)) == Some(keys)
       <==> keys != [] && forall i :: 0 <= i < |keys| ==> PlainKey(driver, keys[i])
  {
    assert DollarPath(keys)[2..] == Join(keys, '.');
    if keys == [] {
      assert Split([], '.') == [[]];
    } else {
      SplitOfJoin(keys, '.');
      if forall i :: 0 <= i < |keys| ==> PlainKey(driver, keys[i]) {
        forall i | 0 <= i < |keys|
          ensures '.' !in keys[i]
        {
          assert PlainKey(driver, keys[i]);
        }
      }
    }
  }

  // ---------------------------------------------------------------------------
  // Names
  // ---------------------------------------------------------------------------

  /** A name that stands for itself without quotes. */
  predicate PlainName(s: string) {
    && s != [] && IsLetter(s[0])
    && forall i :: 0 <= i < |s| ==> IsLetter(s[i]) || s[i] == '$' || IsDigitChar(s[i])
  }

  lemma PlainNameHasNoQuote(s: string)
    requires PlainName(s)
    ensures '\'' !in s && '.' !in s && '[' !in s
  {
  }
}
