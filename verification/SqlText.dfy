/** SQL text as a database reads it: single-quoted literals, and what stands outside them.

    Text is put together from fragments, some of which are pasted between quotes. It is
    read one token at a time, and reads back as the fragments it was made of exactly when
    nothing that was pasted ends a literal early or starts one. */
module SqlText {
  import opened Wrappers

  datatype Driver = Postgres | Mysql | Sqlite

  /** Text meant to hold no literal, text pasted between quotes, and text that brings its own literals. */
  datatype Fragment = Raw(text: string) | Quoted(text: string) | Own(text: string)

  function FragmentText(f: Fragment): string {
    match f
    case Raw(text) => text
    case Quoted(text) => ['\''] + text + ['\'']
    case Own(text) => text
  }

  function TextOf(fragments: seq<Fragment>): string {
    if fragments == [] then [] else FragmentText(fragments[0]) + TextOf(fragments[1..])
  }

  // ---------------------------------------------------------------------------
  // Reading
  // ---------------------------------------------------------------------------

  /** A character outside a literal, or a whole literal. */
  datatype Token = Mark(c: char) | Str(text: string)

  /** The rest of a literal whose opening quote has been read, and what follows it. A doubled
      quote stands for one; on MySQL a backslash stands for the character after it. */
  function ReadBody(driver: Driver, text: string): (r: Option<(string, string)>)
    ensures r.Some? ==> |r.value.1| < |text|
  {
    if text == [] then None
    else if text[0] == '\'' then
      if |text| > 1 && text[1] == '\'' then Prepend('\'', ReadBody(driver, text[2..])) else Some(([], text[1..]))
    else if text[0] == '\\' && driver == Mysql then
      if |text| == 1 then None else Prepend(text[1], ReadBody(driver, text[2..]))
    else Prepend(text[0], ReadBody(driver, text[1..]))
  }

  function Prepend(c: char, r: Option<(string, string)>): Option<(string, string)> {
    if r.None? then None else Some(([c] + r.value.0, r.value.1))
  }

  /** All tokens, unless a literal is not closed. */
  function Lex(driver: Driver, text: string): Option<seq<Token>>
    decreases |text|
  {
    if text == [] then Some([])
    else if text[0] == '\'' then
      match ReadBody(driver, text[1..])
      case None => None
      case Some((body, rest)) => Push(Str(body), Lex(driver, rest))
    else Push(Mark(text[0]), Lex(driver, text[1..]))
  }

  function Push(t: Token, r: Option<seq<Token>>): Option<seq<Token>> {
    if r.None? then None else Some([t] + r.value)
  }

  // ---------------------------------------------------------------------------
  // Reading back what was pasted
  // ---------------------------------------------------------------------------

  function Marks(text: string): seq<Token> {
    if text == [] then [] else [Mark(text[0])] + Marks(text[1..])
  }

  /** The tokens that a fragment is meant as. */
  function FragmentTokens(driver: Driver, f: Fragment): seq<Token> {
    match f
    case Raw(text) => Marks(text)
    case Quoted(text) => [Str(text)]
    case Own(text) => if Lex(driver, text).Some? then Lex(driver, text).value else []
  }

  function TokensOf(driver: Driver, fragments: seq<Fragment>): seq<Token> {
    if fragments == [] then [] else FragmentTokens(driver, fragments[0]) + TokensOf(driver, fragments[1..])
  }

  /** Text that stands for itself between quotes. */
  predicate Plain(driver: Driver, text: string) {
    '\'' !in text && (driver == Mysql ==> '\\' !in text)
  }

  predicate CleanFragment(driver: Driver, f: Fragment) {
    match f
    case Raw(text) => '\'' !in text
    case Quoted(text) => Plain(driver, text)
    case Own(text) => Lex(driver, text).Some?
  }

  predicate Clean(driver: Driver, fragments: seq<Fragment>) {
    forall i :: 0 <= i < |fragments| ==> CleanFragment(driver, fragments[i])
  }

  /** What follows text that may end in a literal does not start with a quote. */
  predicate Separated(fragments: seq<Fragment>) {
    forall i :: 0 <= i < |fragments| - 1 && !fragments[i].Raw? ==>
      fragments[i + 1].Raw? && fragments[i + 1].text != [] && fragments[i + 1].text[0] != '\''
  }

  /** These tokens in front of what is read next, if that can be read. */
  function Before(tokens: seq<Token>, r: Option<seq<Token>>): Option<seq<Token>> {
    if r.None? then None else Some(tokens + r.value)
  }

  lemma PushBefore(t: Token, tokens: seq<Token>, r: Option<seq<Token>>)
    ensures Push(t, Before(tokens, r)) == Before([t] + tokens, r)
  {
    if r.Some? {
      assert [t] + (tokens + r.value) == [t] + tokens + r.value;
    }
  }

  lemma BeforeBefore(a: seq<Token>, b: seq<Token>, r: Option<seq<Token>>)
    ensures Before(a, Before(b, r)) == Before(a + b, r)
  {
    if r.Some? {
      assert a + (b + r.value) == a + b + r.value;
    }
  }

  lemma BeforeNothing(r: Option<seq<Token>>)
    ensures Before([], r) == r
  {
    if r.Some? {
      assert [] + r.value == r.value;
    }
  }

  lemma {:induction false} RawReads(driver: Driver, text: string, rest: string)
    requires '\'' !in text
    ensures Lex(driver, text + rest) == Before(Marks(text), Lex(driver, rest))
  {
    if text == [] {
      assert text + rest == rest;
      BeforeNothing(Lex(driver, rest));
    } else {
      assert text[0] in text;
      RawReads(driver, text[1..], rest);
      assert text + rest == [text[0]] + (text[1..] + rest);
      PushBefore(Mark(text[0]), Marks(text[1..]), Lex(driver, rest));
    }
  }

  lemma {:induction false} PlainBodyReads(driver: Driver, body: string, rest: string)
    requires Plain(driver, body) && (rest == [] || rest[0] != '\'')
    ensures ReadBody(driver, body + ['\''] + rest) == Some((body, rest))
  {
    var text := body + ['\''] + rest;
    if body == [] {
      assert text == ['\''] + rest;
      assert text[1..] == rest;
    } else {
      assert text[1..] == body[1..] + ['\''] + rest;
      assert text[0] == body[0] && body[0] in body;
      PlainBodyReads(driver, body[1..], rest);
      assert body == [body[0]] + body[1..];
    }
  }

  lemma QuotedReads(driver: Driver, body: string, rest: string)
    requires Plain(driver, body) && (rest == [] || rest[0] != '\'')
    ensures Lex(driver, FragmentText(Quoted(body)) + rest) == Before([Str(body)], Lex(driver, rest))
  {
    var text := FragmentText(Quoted(body)) + rest;
    assert text[1..] == body + ['\''] + rest;
    PlainBodyReads(driver, body, rest);
  }

  lemma DropOfConcat<T>(a: seq<T>, b: seq<T>, n: nat)
    requires n <= |a|
    ensures (a + b)[n..] == a[n..] + b
  {
  }

  lemma {:induction false} BodyConcat(driver: Driver, text: string, rest: string)
    requires ReadBody(driver, text).Some? && (rest == [] || rest[0] != '\'')
    ensures var (body, left) := ReadBody(driver, text).value;
            ReadBody(driver, text + rest) == Some((body, left + rest))
  {
    var whole := text + rest;
    assert whole[0] == text[0];
    DropOfConcat(text, rest, 1);
    if |text| > 1 && (text[0] == '\'' || (text[0] == '\\' && driver == Mysql)) {
      assert whole[1] == text[1];
      DropOfConcat(text, rest, 2);
      if text[0] != '\'' || text[1] == '\'' {
        BodyConcat(driver, text[2..], rest);
      }
    } else if text[0] == '\'' {
      assert whole[1..] == rest;
    } else {
      BodyConcat(driver, text[1..], rest);
    }
  }

  /** Text whose literals are all closed is read independently of what follows. */
  lemma {:induction false} OwnReads(driver: Driver, text: string, rest: string)
    requires Lex(driver, text).Some? && (rest == [] || rest[0] != '\'')
    ensures Lex(driver, text + rest) == Before(Lex(driver, text).value, Lex(driver, rest))
    decreases |text|
  {
    if text == [] {
      assert text + rest == rest;
      BeforeNothing(Lex(driver, rest));
    } else {
      assert (text + rest)[1..] == text[1..] + rest;
      if text[0] == '\'' {
        var (body, left) := ReadBody(driver, text[1..]).value;
        BodyConcat(driver, text[1..], rest);
        OwnReads(driver, left, rest);
        PushBefore(Str(body), Lex(driver, left).value, Lex(driver, rest));
      } else {
        OwnReads(driver, text[1..], rest);
        PushBefore(Mark(text[0]), Lex(driver, text[1..]).value, Lex(driver, rest));
      }
    }
  }

  lemma FragmentReads(driver: Driver, f: Fragment, rest: string)
    requires CleanFragment(driver, f) && (f.Raw? || rest == [] || rest[0] != '\'')
    ensures Lex(driver, FragmentText(f) + rest) == Before(FragmentTokens(driver, f), Lex(driver, rest))
  {
    match f
    case Raw(text) => RawReads(driver, text, rest);
    case Quoted(text) => QuotedReads(driver, text, rest);
    case Own(text) => OwnReads(driver, text, rest);
  }

  /** Clean fragments that end in raw text are read independently of what follows. */
  lemma {:induction false} CleanReads(driver: Driver, fragments: seq<Fragment>, rest: string)
    requires Separated(fragments) && Clean(driver, fragments)
    requires fragments == [] || fragments[|fragments| - 1].Raw? || rest == []
    ensures Lex(driver, TextOf(fragments) + rest) == Before(TokensOf(driver, fragments), Lex(driver, rest))
  {
    if fragments == [] {
      assert TextOf(fragments) + rest == rest;
      BeforeNothing(Lex(driver, rest));
    } else {
      var f, others := fragments[0], fragments[1..];
      assert forall i :: 0 <= i < |others| ==> others[i] == fragments[i + 1];
      CleanReads(driver, others, rest);
      Associative(FragmentText(f), TextOf(others), rest);
      FragmentReads(driver, f, TextOf(others) + rest);
      BeforeBefore(FragmentTokens(driver, f), TokensOf(driver, others), Lex(driver, rest));
    }
  }

  // ---------------------------------------------------------------------------
  // Exactly when it reads back
  // ---------------------------------------------------------------------------

  /** A literal takes up at least its length and a closing quote, and no more exactly when it is plain. */
  lemma {:induction false} BodyLength(driver: Driver, text: string)
    requires ReadBody(driver, text).Some?
    ensures var (body, rest) := ReadBody(driver, text).value;
            && |body| + 1 + |rest| <= |text|
            && (|body| + 1 + |rest| == |text| ==> Plain(driver, body))
  {
    if text[0] == '\'' {
      if |text| > 1 && text[1] == '\'' {
        BodyLength(driver, text[2..]);
      }
    } else if text[0] == '\\' && driver == Mysql {
      BodyLength(driver, text[2..]);
    } else {
      BodyLength(driver, text[1..]);
    }
  }

  function TokenSize(t: Token): nat {
    match t case Mark(_) => 1 case Str(text) => |text| + 2
  }

  function Size(tokens: seq<Token>): nat {
    if tokens == [] then 0 else TokenSize(tokens[0]) + Size(tokens[1..])
  }

  /** A mark that is no quote, or a plain literal. */
  predicate FaithfulToken(driver: Driver, t: Token) {
    match t case Mark(c) => c != '\'' case Str(text) => Plain(driver, text)
  }

  predicate Faithful(driver: Driver, tokens: seq<Token>) {
    forall i :: 0 <= i < |tokens| ==> FaithfulToken(driver, tokens[i])
  }

  lemma {:induction false} LexSize(driver: Driver, text: string)
    requires Lex(driver, text).Some?
    ensures var tokens := Lex(driver, text).value;
            Size(tokens) <= |text| && (Size(tokens) == |text| ==> Faithful(driver, tokens))
    decreases |text|
  {
    if text != [] {
      if text[0] == '\'' {
        BodyLength(driver, text[1..]);
        var (body, rest) := ReadBody(driver, text[1..]).value;
        LexSize(driver, rest);
        PushFaithful(driver, Str(body), Lex(driver, rest).value);
      } else {
        LexSize(driver, text[1..]);
        PushFaithful(driver, Mark(text[0]), Lex(driver, text[1..]).value);
      }
    }
  }

  lemma PushFaithful(driver: Driver, t: Token, tokens: seq<Token>)
    ensures Size([t] + tokens) == TokenSize(t) + Size(tokens)
    ensures Faithful(driver, [t] + tokens) <==> FaithfulToken(driver, t) && Faithful(driver, tokens)
  {
    assert ([t] + tokens)[1..] == tokens;
    assert forall i :: 0 <= i < |tokens| ==> ([t] + tokens)[i + 1] == tokens[i];
  }

  lemma {:induction false} MarksFaithful(driver: Driver, text: string, tokens: seq<Token>)
    ensures Size(Marks(text) + tokens) == |text| + Size(tokens)
    ensures Faithful(driver, Marks(text) + tokens) <==> Faithful(driver, tokens) && '\'' !in text
  {
    if text == [] {
      assert Marks(text) + tokens == tokens;
    } else {
      MarksFaithful(driver, text[1..], tokens);
      assert Marks(text) + tokens == [Mark(text[0])] + (Marks(text[1..]) + tokens);
      PushFaithful(driver, Mark(text[0]), Marks(text[1..]) + tokens);
      assert text == [text[0]] + text[1..];
    }
  }

  /** Nothing brings literals of its own. */
  predicate NoneOwn(fragments: seq<Fragment>) {
    forall i :: 0 <= i < |fragments| ==> !fragments[i].Own?
  }

  lemma CleanFirst(driver: Driver, fragments: seq<Fragment>)
    requires fragments != []
    ensures Clean(driver, fragments) <==> CleanFragment(driver, fragments[0]) && Clean(driver, fragments[1..])
  {
    assert forall i :: 0 < i < |fragments| ==> fragments[i] == fragments[1..][i - 1];
  }

  /** The tokens meant take up the whole text, and are faithful exactly when the fragments are clean. */
  lemma {:induction false} MeantTokens(driver: Driver, fragments: seq<Fragment>)
    requires NoneOwn(fragments)
    ensures Size(TokensOf(driver, fragments)) == |TextOf(fragments)|
    ensures Faithful(driver, TokensOf(driver, fragments)) <==> Clean(driver, fragments)
  {
    if fragments != [] {
      MeantTokens(driver, fragments[1..]);
      CleanFirst(driver, fragments);
      match fragments[0]
      case Raw(text) => MarksFaithful(driver, text, TokensOf(driver, fragments[1..]));
      case Quoted(text) => PushFaithful(driver, Str(text), TokensOf(driver, fragments[1..]));
    }
  }

  /** Text reads back as the fragments it was made of exactly when they are clean. */
  lemma ReadsBackExactly(driver: Driver, fragments: seq<Fragment>)
    requires Separated(fragments) && NoneOwn(fragments)
    ensures Lex(driver, TextOf(fragments)) == Some(TokensOf(driver, fragments)) <==> Clean(driver, fragments)
  {
    if Clean(driver, fragments) {
      CleanReads(driver, fragments, []);
      assert TextOf(fragments) + [] == TextOf(fragments) && TokensOf(driver, fragments) + [] == TokensOf(driver, fragments);
    } else if Lex(driver, TextOf(fragments)) == Some(TokensOf(driver, fragments)) {
      LexSize(driver, TextOf(fragments));
      MeantTokens(driver, fragments);
    }
  }

  lemma {:induction false} TextConcat(a: seq<Fragment>, b: seq<Fragment>)
    ensures TextOf(a + b) == TextOf(a) + TextOf(b)
  {
    if a == [] {
      assert a + b == b;
    } else {
      var first, others := a[0], a[1..];
      FrontOfConcat(a, b);
      TextConcat(others, b);
      Associative(FragmentText(first), TextOf(others), TextOf(b));
    }
  }

  lemma FrontOfConcat<T>(a: seq<T>, b: seq<T>)
    requires a != []
    ensures a + b != [] && (a + b)[0] == a[0] && (a + b)[1..] == a[1..] + b
  {
  }

  lemma Associative<T>(a: seq<T>, b: seq<T>, c: seq<T>)
    ensures a + (b + c) == a + b + c
  {
  }

  lemma {:induction false} TokensConcat(driver: Driver, a: seq<Fragment>, b: seq<Fragment>)
    ensures TokensOf(driver, a + b) == TokensOf(driver, a) + TokensOf(driver, b)
  {
    if a == [] {
      assert a + b == b;
    } else {
      var first, others := FragmentTokens(driver, a[0]), a[1..];
      FrontOfConcat(a, b);
      TokensConcat(driver, others, b);
      Associative(first, TokensOf(driver, others), TokensOf(driver, b));
    }
  }

  /** The same behind clean text that may bring literals of its own. */
  lemma ReadsBackAfter(driver: Driver, a: seq<Fragment>, b: seq<Fragment>)
    requires Separated(a) && Clean(driver, a) && (a == [] || a[|a| - 1].Raw?)
    requires Separated(b) && NoneOwn(b)
    ensures Lex(driver, TextOf(a + b)) == Some(TokensOf(driver, a + b)) <==> Clean(driver, b)
  {
    TextConcat(a, b);
    TokensConcat(driver, a, b);
    CleanReads(driver, a, TextOf(b));
    ReadsBackExactly(driver, b);
    var first, r := TokensOf(driver, a), Lex(driver, TextOf(b));
    if Before(first, r) == Some(first + TokensOf(driver, b)) {
      assert (first + r.value)[|first|..] == r.value && (first + TokensOf(driver, b))[|first|..] == TokensOf(driver, b);
    }
  }

  // ---------------------------------------------------------------------------
  // Unbalanced quotes
  // ---------------------------------------------------------------------------

  function QuotesIn(text: string): nat {
    if text == [] then 0 else (if text[0] == '\'' then 1 else 0) + QuotesIn(text[1..])
  }

  lemma {:induction false} QuotesConcat(a: string, b: string)
    ensures QuotesIn(a + b) == QuotesIn(a) + QuotesIn(b)
  {
    if a == [] {
      assert a + b == b;
    } else {
      QuotesConcat(a[1..], b);
      assert (a + b)[1..] == a[1..] + b;
    }
  }

  lemma {:induction false} NoQuotes(text: string)
    ensures QuotesIn(text) == 0 <==> '\'' !in text
  {
    if text != [] {
      NoQuotes(text[1..]);
      assert text == [text[0]] + text[1..];
    }
  }

  lemma {:induction false} BodyQuotes(driver: Driver, text: string)
    requires driver != Mysql && ReadBody(driver, text).Some?
    ensures (QuotesIn(text) - QuotesIn(ReadBody(driver, text).value.1)) % 2 == 1
  {
    if text[0] == '\'' {
      if |text| > 1 && text[1] == '\'' {
        BodyQuotes(driver, text[2..]);
        assert text[1..][1..] == text[2..];
      }
    } else {
      BodyQuotes(driver, text[1..]);
    }
  }

  /** Where only quotes are special, text with an odd number of them cannot be read. */
  lemma {:induction false} OddQuotesUnreadable(driver: Driver, text: string)
    requires driver != Mysql && QuotesIn(text) % 2 == 1
    ensures Lex(driver, text) == None
    decreases |text|
  {
    if text[0] == '\'' {
      if ReadBody(driver, text[1..]).Some? {
        BodyQuotes(driver, text[1..]);
        OddQuotesUnreadable(driver, ReadBody(driver, text[1..]).value.1);
      }
    } else {
      OddQuotesUnreadable(driver, text[1..]);
    }
  }
}
