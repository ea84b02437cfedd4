/** Byte-range requests for static files, served by streaming from storage or by
    slicing a file already in memory (section 14.1.2 of RFC 9110, a single
    range with a first position; suffix ranges are answered as malformed). */
module ByteRanges {
  import opened Wrappers
  import opened MemoryStorage
  import opened Numerals

  // ---------------------------------------------------------------------------
  // The header
  // ---------------------------------------------------------------------------

  const PREFIX: string := "bytes="

  function StripPrefix(s: string, prefix: string): Option<string> {
    if prefix <= s then Some(s[|prefix|..]) else None
  }

  /** The parts before and after the first `sep`. */
  function SplitOnce(s: string, sep: char): Option<(string, string)> {
    if s == [] then None
    else if s[0] == sep then Some(([], s[1..]))
    else match SplitOnce(s[1..], sep)
      case None => None
      case Some((a, b)) => Some(([s[0]] + a, b))
  }

  lemma {:induction false} SplitOnceExactly(s: string, sep: char, a: string, b: string)
    ensures SplitOnce(s, sep) == Some((a, b)) <==> sep !in a && s == a + [sep] + b
  {
    if s == [] {
    } else if s[0] == sep {
      assert s == [] + [sep] + s[1..];
      if s == a + [sep] + b {
        assert a != [] ==> s[0] == a[0] && a[0] in a;
        assert a == [] ==> s[1..] == b;
      }
    } else {
      var rest := SplitOnce(s[1..], sep);
      if SplitOnce(s, sep) == Some((a, b)) {
        SplitOnceExactly(s[1..], sep, rest.value.0, rest.value.1);
        assert s == [s[0]] + s[1..];
      }
      if sep !in a && s == a + [sep] + b {
        assert a != [] && a[0] == s[0];
        assert s[1..] == a[1..] + [sep] + b;
        SplitOnceExactly(s[1..], sep, a[1..], b);
        assert a == [a[0]] + a[1..];
      }
    }
  }

  // ---------------------------------------------------------------------------
  // The two handlers' decisions
  // ---------------------------------------------------------------------------

  /** Whether a subtraction below zero panics or wraps around at 64 bits. */
  datatype Build = Checked | Wrapping

  /** `ServeNothing` is a partial response without a byte, from a range that ends one before it starts. */
  datatype Verdict =
    | Malformed | Unsatisfiable | Panics | Serve(first: nat, last: nat) | ServeNothing(first: nat, last: nat)

  function Min(a: nat, b: nat): nat {
    if a < b then a else b
  }

  function SaturatingPred(n: nat): nat {
    if n == 0 then 0 else n - 1
  }

  function StreamingVerdict(header: string, size: nat): (v: Verdict)
    ensures v.Serve? ==> v.first <= v.last < size
    ensures v != Panics && !v.ServeNothing?
  {
    match StripPrefix(header, PREFIX)
    case None => Malformed
    case Some(value) =>
      match SplitOnce(value, '-')
      case None => Malformed
      case Some((a, b)) =>
        match ParseU64(a)
        case None => Malformed
        case Some(start) =>
          var parsed := if b == [] then Some(SaturatingPred(size)) else ParseU64(b);
          var end := Min(if parsed.Some? then parsed.value else SaturatingPred(size), SaturatingPred(size));
          if start >= size || start > end then Unsatisfiable else Serve(start, end)
  }

  function SmallVerdict(header: string, size: nat, build: Build): (v: Verdict)
    ensures v.Serve? ==> v.first <= v.last < size
    ensures v.ServeNothing? ==> v.first == v.last + 1 <= size
  {
    match StripPrefix(header, PREFIX)
    case None => Malformed
    case Some(value) =>
      match SplitOnce(value, '-')
      case None => Malformed
      case Some((a, b)) =>
        match ParseU64(a)
        case None => Malformed
        case Some(start) =>
          if b == [] && size == 0 && build == Checked then Panics
          else
            var parsed := if b != [] then ParseU64(b) else if size == 0 then Some(U64_LIMIT - 1) else Some(size - 1);
            if parsed.None? then Malformed
            else if start >= size then Unsatisfiable
            else
              var last := Min(parsed.value, size - 1);
              if last >= start then Serve(start, last)
              else if build == Checked || last + 1 < start then Panics
              else ServeNothing(start, last)
  }

  /** What a header asks for: from `first` to `last`, or to the end of the file. */
  datatype IntRange = IntRange(first: nat, last: Option<nat>)

  /** The header is `bytes=first-` or `bytes=first-last`. */
  ghost predicate Denotes(header: string, range: IntRange) {
    exists a, b :: DenotesWith(header, range, a, b)
  }

  ghost predicate DenotesWith(header: string, range: IntRange, a: string, b: string) {
    && IsHeader(header, a, b) && ParseU64(a) == Some(range.first)
    && (if b == [] then range.last == None else ParseU64(b) == range.last && range.last.Some?)
  }

  ghost predicate IsHeader(header: string, a: string, b: string) {
    header == PREFIX + (a + ['-'] + b) && '-' !in a
  }

  ghost predicate Denotation(header: string) {
    exists range :: Denotes(header, range)
  }

  /** A first position, followed by something that is neither empty nor a number. */
  ghost predicate GarbageEnd(header: string) {
    exists a, b :: GarbageAfter(header, a, b)
  }

  ghost predicate GarbageAfter(header: string, a: string, b: string) {
    IsHeader(header, a, b) && ParseU64(a).Some? && b != [] && ParseU64(b).None?
  }

  /** The standard's answer: nothing at or past the end, otherwise up to the last byte there is. */
  ghost function StandardAnswer(range: IntRange, size: nat): Verdict {
    if range.first >= size then Unsatisfiable
    else Serve(range.first, if range.last.Some? then Min(range.last.value, size - 1) else size - 1)
  }

  /** A last position before the first makes a range invalid. */
  ghost predicate ValidRange(range: IntRange) {
    range.last.Some? ==> range.first <= range.last.value
  }

  lemma HeaderParts(header: string, a: string, b: string)
    ensures IsHeader(header, a, b)
       <==> && StripPrefix(header, PREFIX).Some?
            && SplitOnce(StripPrefix(header, PREFIX).value, '-') == Some((a, b))
  {
    if StripPrefix(header, PREFIX).Some? {
      SplitOnceExactly(header[|PREFIX|..], '-', a, b);
      assert header == PREFIX + header[|PREFIX|..];
      assert header == PREFIX + (a + ['-'] + b) ==> header[|PREFIX|..] == a + ['-'] + b;
    }
  }

  lemma VerdictsOfGarbage(header: string, a: string, b: string, size: nat)
    requires GarbageAfter(header, a, b)
    ensures forall build :: SmallVerdict(header, size, build) == Malformed
    ensures StreamingVerdict(header, size) != Malformed
    ensures !Denotation(header)
  {
    HeaderParts(header, a, b);
    if range :| Denotes(header, range) {
      var c, d :| DenotesWith(header, range, c, d);
      HeaderParts(header, c, d);
    }
  }

  lemma VerdictsOfOthers(header: string, size: nat)
    requires !Denotation(header) && !GarbageEnd(header)
    ensures StreamingVerdict(header, size) == Malformed
    ensures forall build :: SmallVerdict(header, size, build) == Malformed
  {
    if StripPrefix(header, PREFIX).Some? {
      var split := SplitOnce(StripPrefix(header, PREFIX).value, '-');
      if split.Some? {
        var a, b := split.value.0, split.value.1;
        HeaderParts(header, a, b);
        if ParseU64(a).Some? {
          assert !GarbageAfter(header, a, b);
          var range := IntRange(ParseU64(a).value, if b == [] then None else ParseU64(b));
          assert DenotesWith(header, range, a, b);
          assert Denotes(header, range);
        }
      }
    }
  }

  lemma VerdictsOfRange(header: string, range: IntRange, size: nat, build: Build)
    requires Denotes(header, range)
    ensures !GarbageEnd(header)
    ensures StreamingVerdict(header, size) == if ValidRange(range) then StandardAnswer(range, size) else Unsatisfiable
    ensures SmallVerdict(header, size, build) ==
            if size == 0 && range.last.None? && build == Checked then Panics
            else if range.first >= size || ValidRange(range) then StandardAnswer(range, size)
            else if build == Checked || range.last.value + 1 < range.first then Panics
            else ServeNothing(range.first, range.last.value)
  {
    var a, b :| DenotesWith(header, range, a, b);
    HeaderParts(header, a, b);
    if c, d :| GarbageAfter(header, c, d) {
      VerdictsOfGarbage(header, c, d, size);
    }
  }

  /** Exactly when the two handlers decide alike, in either build. */
  lemma HandlersAgree(header: string, size: nat, build: Build)
    ensures StreamingVerdict(header, size) == SmallVerdict(header, size, build)
       <==> && !GarbageEnd(header)
            && forall range :: Denotes(header, range) ==>
                 && !(size == 0 && range.last.None? && build == Checked)
                 && !(range.first < size && !ValidRange(range))
  {
    if a, b :| GarbageAfter(header, a, b) {
      VerdictsOfGarbage(header, a, b, size);
    } else if Denotation(header) {
      forall range | Denotes(header, range)
        ensures StreamingVerdict(header, size) == SmallVerdict(header, size, build)
           <==> !(size == 0 && range.last.None? && build == Checked) && !(range.first < size && !ValidRange(range))
      {
        VerdictsOfRange(header, range, size, build);
      }
    } else {
      VerdictsOfOthers(header, size);
    }
  }

  /** For a valid range of a non-empty file both follow the standard. */
  lemma BothFollowTheStandard(header: string, range: IntRange, size: nat, build: Build)
    requires Denotes(header, range) && ValidRange(range) && size > 0
    ensures StreamingVerdict(header, size) == SmallVerdict(header, size, build) == StandardAnswer(range, size)
    ensures StreamingVerdict(header, size) == Unsatisfiable <==> range.first >= size
  {
    VerdictsOfRange(header, range, size, build);
  }

  // ---------------------------------------------------------------------------
  // The handlers
  // ---------------------------------------------------------------------------

  datatype Response = Response(status: nat, headers: map<string, string>, body: Bytes)

  datatype Failure = BadRequest | FileNotFound | RangeNotSatisfiable(contentRange: string) | Panic

  function ContentRange(first: nat, last: nat, size: nat): string {
    "bytes " + Decimal(first) + "-" + Decimal(last) + "/" + Decimal(size)
  }

  function UnsatisfiedRange(size: nat): string {
    "bytes */" + Decimal(size)
  }

  /** What a Content-Range header says: positions of a file of this size, or only the size. */
  datatype Described = Positions(first: nat, last: nat, size: nat) | NoPosition(size: nat)

  /** How a client reads a Content-Range header. */
  function ReadContentRange(text: string): Option<Described> {
    match StripPrefix(text, "bytes ")
    case None => None
    case Some(value) =>
      match SplitOnce(value, '/')
      case None => None
      case Some((range, size)) =>
        if ParseU64(size).None? then None
        else if range == "*" then Some(NoPosition(ParseU64(size).value))
        else
          match SplitOnce(range, '-')
          case None => None
          case Some((first, last)) =>
            if ParseU64(first).None? || ParseU64(last).None? then None
            else Some(Positions(ParseU64(first).value, ParseU64(last).value, ParseU64(size).value))
  }

  lemma NumbersHold(n: nat, c: char)
    requires !IsDigit(c)
    ensures c !in Decimal(n)
  {
    DecimalDigits(n);
  }

  lemma PrefixStripped(prefix: string, rest: string)
    ensures StripPrefix(prefix + rest, prefix) == Some(rest)
  {
  }

  /** Three numbers behind a prefix, told apart by a dash and a slash. */
  lemma NumbersRead(prefix: string, a: string, b: string, c: string)
    requires prefix == "bytes " && '-' !in a && '/' !in a && '/' !in b
    requires ParseU64(a).Some? && ParseU64(b).Some? && ParseU64(c).Some?
    ensures ReadContentRange(prefix + (a + ['-'] + b + ['/'] + c))
         == Some(Positions(ParseU64(a).value, ParseU64(b).value, ParseU64(c).value))
  {
    var range := a + ['-'] + b;
    PrefixStripped(prefix, range + ['/'] + c);
    SplitOnceExactly(range + ['/'] + c, '/', range, c);
    SplitOnceExactly(range, '-', a, b);
    assert '-' in range && '-' !in "*";
  }

  lemma ContentRangeText(first: nat, last: nat, size: nat, prefix: string)
    requires prefix == "bytes "
    ensures ContentRange(first, last, size) == prefix + (Decimal(first) + ['-'] + Decimal(last) + ['/'] + Decimal(size))
  {
    assert "-" == ['-'] && "/" == ['/'];
  }

  lemma PositionsRead(first: nat, last: nat, size: nat)
    requires first < U64_LIMIT && last < U64_LIMIT && size < U64_LIMIT
    ensures ReadContentRange(ContentRange(first, last, size)) == Some(Positions(first, last, size))
  {
    NumbersHold(first, '-');
    NumbersHold(first, '/');
    NumbersHold(last, '/');
    PrintedNumberParses(first);
    PrintedNumberParses(last);
    PrintedNumberParses(size);
    ContentRangeText(first, last, size, "bytes ");
    NumbersRead("bytes ", Decimal(first), Decimal(last), Decimal(size));
  }

  /** A star and a number behind a prefix. */
  lemma StarRead(prefix: string, star: string, c: string)
    requires prefix == "bytes " && star == "*" && ParseU64(c).Some?
    ensures ReadContentRange(prefix + (star + ['/'] + c)) == Some(NoPosition(ParseU64(c).value))
  {
    PrefixStripped(prefix, star + ['/'] + c);
    SplitOnceExactly(star + ['/'] + c, '/', star, c);
  }

  lemma UnsatisfiedText(size: nat, prefix: string, star: string)
    requires prefix == "bytes " && star == "*"
    ensures UnsatisfiedRange(size) == prefix + (star + ['/'] + Decimal(size))
  {
    assert "bytes */" == prefix + (star + ['/']);
  }

  lemma SizeRead(size: nat)
    requires size < U64_LIMIT
    ensures ReadContentRange(UnsatisfiedRange(size)) == Some(NoPosition(size))
  {
    PrintedNumberParses(size);
    UnsatisfiedText(size, "bytes ", "*");
    StarRead("bytes ", "*", Decimal(size));
  }

  /** The positions a client reads are those of the bytes it gets, and the length and the size are
      the ones it reads; a response without a byte ends one before it starts. */
  ghost predicate DescribesItself(r: Response, content: Bytes) {
    && "Content-Length" in r.headers && "Content-Range" in r.headers
    && var read := ReadContentRange(r.headers["Content-Range"]);
       && read.Some? && read.value.Positions?
       && var (first, last) := (read.value.first, read.value.last);
          && first <= last + 1 <= read.value.size == |content|
          && r.body == content[first..last + 1]
          && ParseU64(r.headers["Content-Length"]) == Some(last + 1 - first)
  }

  /** The positions a client reads are these. */
  ghost predicate ReadsPositions(r: Response, first: nat, last: nat) {
    && "Content-Range" in r.headers
    && var read := ReadContentRange(r.headers["Content-Range"]);
       read.Some? && read.value.Positions? && read.value.first == first && read.value.last == last
  }

  /** A 206 response that carries these positions of a file of this size. */
  ghost predicate IsPartial(r: Response, content: Bytes, first: nat, last: nat, size: nat)
    requires first <= last < |content|
  {
    && r.status == 206
    && r.body == content[first..last + 1]
    && "Content-Length" in r.headers && r.headers["Content-Length"] == Decimal(|r.body|)
    && "Content-Range" in r.headers && r.headers["Content-Range"] == ContentRange(first, last, size)
  }

  lemma PartialDescribesItself(r: Response, content: Bytes, first: nat, last: nat)
    requires first <= last < |content| < U64_LIMIT && IsPartial(r, content, first, last, |content|)
    ensures DescribesItself(r, content) && ReadsPositions(r, first, last)
  {
    PositionsRead(first, last, |content|);
    PrintedNumberParses(|r.body|);
  }

  lemma NothingDescribesItself(r: Response, content: Bytes, first: nat, last: nat)
    requires first == last + 1 <= |content| < U64_LIMIT
    requires r == Response(206, map["Content-Length" := "0", "Content-Range" := ContentRange(first, last, |content|)], [])
    ensures DescribesItself(r, content) && ReadsPositions(r, first, last)
  {
    PositionsRead(first, last, |content|);
    PrintedNumberParses(0);
    assert Decimal(0) == "0";
  }

  /** What the client gets for this range of a file: those bytes, under their own positions, or the
      size alone if it starts past the end. */
  ghost predicate Answers(r: Result<Response, Failure>, content: Bytes, range: IntRange) {
    if range.first >= |content| then
      && r.Err? && r.error.RangeNotSatisfiable?
      && ReadContentRange(r.error.contentRange) == Some(NoPosition(|content|))
    else
      var last := if range.last.Some? && range.last.value < |content| then range.last.value else |content| - 1;
      && r.Ok? && r.value.status == 206 && range.first <= last && r.value.body == content[range.first..last + 1]
      && DescribesItself(r.value, content) && ReadsPositions(r.value, range.first, last)
  }

  /** The response that a decision calls for. */
  ghost predicate Carries(r: Result<Response, Failure>, content: Bytes, verdict: Verdict)
    requires verdict.Serve? ==> verdict.first <= verdict.last < |content|
  {
    match verdict
    case Malformed => r == Err(BadRequest)
    case Unsatisfiable => r == Err(RangeNotSatisfiable(UnsatisfiedRange(|content|)))
    case Panics => r == Err(Panic)
    case Serve(first, last) => r.Ok? && IsPartial(r.value, content, first, last, |content|)
    case ServeNothing(first, last) =>
      r == Ok(Response(206, map["Content-Length" := "0", "Content-Range" := ContentRange(first, last, |content|)], []))
  }

  lemma CarriedDescribesItself(r: Result<Response, Failure>, content: Bytes, verdict: Verdict)
    requires |content| < U64_LIMIT
    requires verdict.Serve? ==> verdict.first <= verdict.last < |content|
    requires verdict.ServeNothing? ==> verdict.first == verdict.last + 1 <= |content|
    requires Carries(r, content, verdict)
    ensures r.Ok? ==> DescribesItself(r.value, content)
    ensures r.Err? && r.error.RangeNotSatisfiable? ==> ReadContentRange(r.error.contentRange) == Some(NoPosition(|content|))
  {
    match verdict {
      case Serve(first, last) => PartialDescribesItself(r.value, content, first, last);
      case ServeNothing(first, last) => NothingDescribesItself(r.value, content, first, last);
      case Unsatisfiable => SizeRead(|content|);
      case Malformed =>
      case Panics =>
    }
  }

  /** A range that is denoted and valid is answered as it asks, whichever handler does. */
  lemma DenotedIsAnswered(r: Result<Response, Failure>, content: Bytes, verdict: Verdict, range: IntRange)
    requires 0 < |content| < U64_LIMIT && ValidRange(range) && verdict == StandardAnswer(range, |content|)
    requires Carries(r, content, verdict)
    ensures Answers(r, content, range)
  {
    if range.first >= |content| {
      SizeRead(|content|);
    } else {
      PartialDescribesItself(r.value, content, verdict.first, verdict.last);
    }
  }

  lemma EveryRangeIsAnswered(r: Result<Response, Failure>, content: Bytes, header: string, build: Build, small: bool)
    requires 0 < |content| < U64_LIMIT
    requires Carries(r, content, if small then SmallVerdict(header, |content|, build) else StreamingVerdict(header, |content|))
    ensures forall range :: Denotes(header, range) && ValidRange(range) ==> Answers(r, content, range)
  {
    forall range | Denotes(header, range) && ValidRange(range)
      ensures Answers(r, content, range)
    {
      BothFollowTheStandard(header, range, |content|, build);
      DenotedIsAnswered(r, content, StandardAnswer(range, |content|), range);
    }
  }

  /** Reads from the first position on and passes on no more than the length of the range. */
  method HandleRangeStreaming(storage: Memory, path: Path, header: string, size: nat)
    returns (r: Result<Response, Failure>)
    requires path in storage.data ==> |storage.data[path]| == size
    ensures path in storage.data ==> Carries(r, storage.data[path], StreamingVerdict(header, size))
    ensures path !in storage.data
        ==> r == Err(match StreamingVerdict(header, size)
                     case Malformed => BadRequest
                     case Unsatisfiable => RangeNotSatisfiable(UnsatisfiedRange(size))
                     case _ => FileNotFound)
    ensures r.Ok? && size < U64_LIMIT ==> path in storage.data && DescribesItself(r.value, storage.data[path])
    ensures r.Err? && r.error.RangeNotSatisfiable? && size < U64_LIMIT
        ==> ReadContentRange(r.error.contentRange) == Some(NoPosition(size))
    ensures path in storage.data && 0 < size < U64_LIMIT
        ==> forall range :: Denotes(header, range) && ValidRange(range) ==> Answers(r, storage.data[path], range)
  {
    match StreamingVerdict(header, size) {
      case Malformed => r := Err(BadRequest);
      case Unsatisfiable => r := Err(RangeNotSatisfiable(UnsatisfiedRange(size)));
      case Serve(first, last) =>
        var length := last + 1 - first;
        var reader := storage.SeekRead(path, first);
        if reader.Err? {
          r := Err(FileNotFound);
        } else {
          var body := reader.value[..length];
          var headers := map["Content-Range" := ContentRange(first, last, size)];
          headers := headers["Content-Length" := Decimal(length)];
          headers := headers["Accept-Ranges" := "bytes"];
          r := Ok(Response(206, headers, body));
        }
    }
    if size < U64_LIMIT {
      SizeRead(size);
      if path in storage.data {
        CarriedDescribesItself(r, storage.data[path], StreamingVerdict(header, size));
        if size > 0 {
          EveryRangeIsAnswered(r, storage.data[path], header, Wrapping, false);
        }
      }
    }
  }

  method HandleRangeSmallFile(content: Bytes, header: string, build: Build) returns (r: Result<Response, Failure>)
    ensures Carries(r, content, SmallVerdict(header, |content|, build))
    ensures r.Ok? && |content| < U64_LIMIT ==> DescribesItself(r.value, content)
    ensures r.Err? && r.error.RangeNotSatisfiable? && |content| < U64_LIMIT
        ==> ReadContentRange(r.error.contentRange) == Some(NoPosition(|content|))
    ensures 0 < |content| < U64_LIMIT
        ==> forall range :: Denotes(header, range) && ValidRange(range) ==> Answers(r, content, range)
  {
    match SmallVerdict(header, |content|, build) {
      case Malformed => r := Err(BadRequest);
      case Unsatisfiable => r := Err(RangeNotSatisfiable(UnsatisfiedRange(|content|)));
      case Panics => r := Err(Panic);
      case Serve(first, last) =>
        var length := last - first + 1;
        var body := content[first..first + length];
        r := Ok(Response(206, map["Content-Length" := Decimal(length), "Content-Range" := ContentRange(first, last, |content|)], body));
      case ServeNothing(first, last) =>
        r := Ok(Response(206, map["Content-Length" := "0", "Content-Range" := ContentRange(first, last, |content|)], []));
    }
    if |content| < U64_LIMIT {
      CarriedDescribesItself(r, content, SmallVerdict(header, |content|, build));
      if |content| > 0 {
        EveryRangeIsAnswered(r, content, header, build, true);
      }
    }
  }

  // ---------------------------------------------------------------------------
  // Fetching a file piece by piece
  // ---------------------------------------------------------------------------

  function RangeHeader(first: nat, last: nat): string {
    PREFIX + (Decimal(first) + ['-'] + Decimal(last))
  }

  lemma RangeHeaderDenotes(first: nat, last: nat)
    requires first < U64_LIMIT && last < U64_LIMIT
    ensures Denotes(RangeHeader(first, last), IntRange(first, Some(last)))
  {
    PrintedNumberParses(first);
    PrintedNumberParses(last);
    DecimalDigits(first);
    DecimalDigits(last);
    assert '-' !in Decimal(first) by {
      assert !IsDigit('-');
    }
    assert DenotesWith(RangeHeader(first, last), IntRange(first, Some(last)), Decimal(first), Decimal(last));
  }

  /** Strictly increasing offsets from 0 to the size of the file. */
  ghost predicate Cuts(cuts: seq<nat>, size: nat) {
    && |cuts| > 0 && cuts[0] == 0 && cuts[|cuts| - 1] == size
    && forall i :: 0 < i < |cuts| ==> cuts[i - 1] < cuts[i]
  }

  ghost function Served(content: Bytes, verdict: Verdict): Bytes
    requires verdict.Serve? ==> verdict.first <= verdict.last < |content|
  {
    if verdict.Serve? then content[verdict.first..verdict.last + 1] else []
  }

  ghost function Piece(content: Bytes, first: nat, last: nat, small: bool, build: Build): Bytes {
    var header := RangeHeader(first, last);
    Served(content, if small then SmallVerdict(header, |content|, build) else StreamingVerdict(header, |content|))
  }

  /** The answers to the first `n` of the ranges between the cuts, put together; `small`
      says which handler answers each of them. */
  ghost function Fetched(content: Bytes, cuts: seq<nat>, small: seq<bool>, build: Build, n: nat): Bytes
    requires Cuts(cuts, |content|) && n < |cuts| && |small| == |cuts|
  {
    if n == 0 then []
    else
      Fetched(content, cuts, small, build, n - 1) + Piece(content, cuts[n - 1], cuts[n] - 1, small[n], build)
  }

  lemma {:induction false} CutsIncrease(cuts: seq<nat>, size: nat, i: nat, j: nat)
    requires Cuts(cuts, size) && i <= j < |cuts|
    ensures cuts[i] <= cuts[j]
    decreases j
  {
    if i < j {
      CutsIncrease(cuts, size, i, j - 1);
    }
  }

  lemma PieceVerdicts(size: nat, first: nat, last: nat, build: Build)
    requires first <= last < size < U64_LIMIT
    ensures StreamingVerdict(RangeHeader(first, last), size) == Serve(first, last)
    ensures SmallVerdict(RangeHeader(first, last), size, build) == Serve(first, last)
  {
    RangeHeaderDenotes(first, last);
    BothFollowTheStandard(RangeHeader(first, last), IntRange(first, Some(last)), size, build);
  }

  lemma PieceIsServed(content: Bytes, first: nat, last: nat, small: bool, build: Build)
    requires first <= last < |content| < U64_LIMIT
    ensures Piece(content, first, last, small, build) == content[first..last + 1]
  {
    PieceVerdicts(|content|, first, last, build);
  }

  lemma SlicesJoin(content: Bytes, a: nat, b: nat)
    requires a <= b <= |content|
    ensures content[..a] + content[a..b] == content[..b]
  {
  }

  /** Contiguous ranges tile the file, whichever handler answers each of them. */
  lemma {:induction false} RangesTile(content: Bytes, cuts: seq<nat>, small: seq<bool>, build: Build, n: nat)
    requires Cuts(cuts, |content|) && n < |cuts| && |small| == |cuts| && |content| < U64_LIMIT
    ensures cuts[n] <= |content| && Fetched(content, cuts, small, build, n) == content[..cuts[n]]
    ensures n == |cuts| - 1 ==> Fetched(content, cuts, small, build, n) == content
  {
    CutsIncrease(cuts, |content|, n, |cuts| - 1);
    if n > 0 {
      RangesTile(content, cuts, small, build, n - 1);
      PieceIsServed(content, cuts[n - 1], cuts[n] - 1, small[n], build);
      SlicesJoin(content, cuts[n - 1], cuts[n]);
    }
  }

  /** The streaming handler takes a garbage end for the end of the file. */
  lemma GarbageEndIsServedWhole()
    ensures StreamingVerdict("bytes=0-x", 10) == Serve(0, 9)
    ensures forall build :: SmallVerdict("bytes=0-x", 10, build) == Malformed
  {
    var header := "bytes=0-x";
    assert ParseU64("0") == Some(0) by {
      PrintedNumberParses(0);
      assert Decimal(0) == "0";
    }
    assert ParseU64("x") == None by {
      assert !IsDigit("x"[0]);
    }
    assert header == PREFIX + ("0" + ['-'] + "x");
    HeaderParts(header, "0", "x");
  }
}
