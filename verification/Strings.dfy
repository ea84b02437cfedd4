/** Strings that are split at a separator and put together again. */
module Strings {

  /** `str::split`: always at least one piece. */
  function Split(s: string, sep: char): (pieces: seq<string>)
    ensures pieces != []
  {
    if s == [] then [[]] else Prefixed(s[0], Split(s[1..], sep), sep)
  }

  /** The pieces after one more character in front. */
  function Prefixed(c: char, pieces: seq<string>, sep: char): seq<string>
    requires pieces != []
  {
    if c == sep then [[]] + pieces else [[c] + pieces[0]] + pieces[1..]
  }

  function Join(pieces: seq<string>, sep: char): string {
    if pieces == [] then []
    else if |pieces| == 1 then pieces[0]
    else pieces[0] + [sep] + Join(pieces[1..], sep)
  }

  /** Splitting loses nothing and leaves no separator in a piece. */
  lemma {:induction false} SplitJoins(s: string, sep: char)
    ensures Split(s, sep) != [] && Join(Split(s, sep), sep) == s
    ensures forall i :: 0 <= i < |Split(s, sep)| ==> sep !in Split(s, sep)[i]
  {
    if s != [] {
      SplitJoins(s[1..], sep);
      PrefixedJoins(s[0], Split(s[1..], sep), sep);
      assert s == [s[0]] + s[1..];
    }
  }

  lemma PrefixedJoins(c: char, pieces: seq<string>, sep: char)
    requires pieces != []
    ensures Prefixed(c, pieces, sep) != [] && Join(Prefixed(c, pieces, sep), sep) == [c] + Join(pieces, sep)
  {
    var r := Prefixed(c, pieces, sep);
    if c == sep {
      assert r[1..] == pieces;
    } else {
      assert r[1..] == pieces[1..];
      if |pieces| > 1 {
        assert [c] + pieces[0] + [sep] + Join(pieces[1..], sep) == [c] + (pieces[0] + [sep] + Join(pieces[1..], sep));
      }
    }
  }

  /** `char::is_whitespace`. */
  predicate IsSpace(c: char) {
    var n := c as int;
    || 9 <= n <= 13 || n == 0x20 || n == 0x85 || n == 0xA0 || n == 0x1680 || 0x2000 <= n <= 0x200A
    || n == 0x2028 || n == 0x2029 || n == 0x202F || n == 0x205F || n == 0x3000
  }

  /** `str::trim`. */
  function Trim(s: string): string {
    if s != [] && IsSpace(s[0]) then Trim(s[1..])
    else if s != [] && IsSpace(s[|s| - 1]) then Trim(s[..|s| - 1])
    else s
  }

  predicate AllSpaces(s: string) {
    forall i :: 0 <= i < |s| ==> IsSpace(s[i])
  }

  ghost predicate Padded(s: string, before: string, core: string, after: string) {
    s == before + core + after && AllSpaces(before) && AllSpaces(after)
  }

  /** `core` is what is left of `s` without the spaces around it. */
  ghost predicate TrimsTo(s: string, core: string) {
    && (core != [] ==> !IsSpace(core[0]) && !IsSpace(core[|core| - 1]))
    && exists before, after :: Padded(s, before, core, after)
  }

  lemma PaddedMore(s: string, before: string, core: string, after: string, c: char)
    requires Padded(s, before, core, after) && IsSpace(c)
    ensures Padded([c] + s, [c] + before, core, after)
    ensures Padded(s + [c], before, core, after + [c])
  {
    assert [c] + s == [c] + before + core + after;
    assert s + [c] == before + core + (after + [c]);
  }

  lemma {:induction false} TrimIsPadded(s: string) returns (before: string, after: string)
    ensures Padded(s, before, Trim(s), after)
    ensures Trim(s) != [] ==> !IsSpace(Trim(s)[0]) && !IsSpace(Trim(s)[|Trim(s)| - 1])
    decreases |s|
  {
    if s != [] && IsSpace(s[0]) {
      before, after := TrimIsPadded(s[1..]);
      PaddedMore(s[1..], before, Trim(s), after, s[0]);
      before := [s[0]] + before;
      assert s == [s[0]] + s[1..];
    } else if s != [] && IsSpace(s[|s| - 1]) {
      before, after := TrimIsPadded(s[..|s| - 1]);
      PaddedMore(s[..|s| - 1], before, Trim(s), after, s[|s| - 1]);
      after := after + [s[|s| - 1]];
      assert s == s[..|s| - 1] + [s[|s| - 1]];
    } else {
      before, after := [], [];
    }
  }

  lemma {:induction false} TrimOfPadded(before: string, core: string, after: string)
    requires AllSpaces(before) && AllSpaces(after)
    requires core != [] ==> !IsSpace(core[0]) && !IsSpace(core[|core| - 1])
    ensures Trim(before + core + after) == core
    decreases |before| + |after|
  {
    var s := before + core + after;
    if before != [] {
      assert s[1..] == before[1..] + core + after;
      TrimOfPadded(before[1..], core, after);
    } else if after != [] {
      if core == [] {
        assert s == after && s[1..] == [] + core + after[1..];
        TrimOfPadded([], core, after[1..]);
      } else {
        assert s[0] == core[0];
        assert s[..|s| - 1] == [] + core + after[..|after| - 1];
        TrimOfPadded([], core, after[..|after| - 1]);
      }
    } else {
      assert s == core;
    }
  }

  /** Trimming removes the spaces around a string, and nothing else. */
  lemma TrimExactly(s: string, core: string)
    ensures Trim(s) == core <==> TrimsTo(s, core)
  {
    var b, a := TrimIsPadded(s);
    if TrimsTo(s, core) {
      var before, after :| Padded(s, before, core, after);
      TrimOfPadded(before, core, after);
    }
  }

  lemma {:induction false} SplitConcat(a: string, b: string, sep: char)
    ensures Split(a + [sep] + b, sep) == Split(a, sep) + Split(b, sep)
  {
    if a == [] {
      assert [] + [sep] + b == [sep] + b;
      assert ([sep] + b)[1..] == b;
    } else {
      SplitConcat(a[1..], b, sep);
      assert (a + [sep] + b)[1..] == a[1..] + [sep] + b;
      PrefixedConcat(a[0], Split(a[1..], sep), Split(b, sep), sep);
    }
  }

  lemma PrefixedConcat(c: char, p: seq<string>, q: seq<string>, sep: char)
    requires p != []
    ensures Prefixed(c, p + q, sep) == Prefixed(c, p, sep) + q
  {
    assert (p + q)[0] == p[0] && (p + q)[1..] == p[1..] + q;
  }

  /** A string without the separator is its own only piece, and any other has more. */
  lemma {:induction false} SplitOne(a: string, sep: char)
    ensures |Split(a, sep)| >= 1
    ensures |Split(a, sep)| == 1 <==> sep !in a
    ensures sep !in a ==> Split(a, sep) == [a]
  {
    if a != [] {
      SplitOne(a[1..], sep);
      assert a == [a[0]] + a[1..];
    }
  }

  /** Joined pieces split into at least as many, and into themselves exactly when none holds the separator. */
  lemma {:induction false} SplitOfJoin(pieces: seq<string>, sep: char)
    requires pieces != []
    ensures |Split(Join(pieces, sep), sep)| >= |pieces|
    ensures |Split(Join(pieces, sep), sep)| == |pieces| <==> forall i :: 0 <= i < |pieces| ==> sep !in pieces[i]
    ensures (forall i :: 0 <= i < |pieces| ==> sep !in pieces[i]) ==> Split(Join(pieces, sep), sep) == pieces
  {
    SplitOne(pieces[0], sep);
    if |pieces| > 1 {
      var rest := pieces[1..];
      SplitOfJoin(rest, sep);
      SplitConcat(pieces[0], Join(rest, sep), sep);
      assert forall i :: 0 < i < |pieces| ==> pieces[i] == rest[i - 1];
      assert pieces == [pieces[0]] + rest;
    }
  }

  function LowerAscii(c: char): char {
    if 'A' <= c <= 'Z' then c - 'A' + 'a' else c
  }

  /** The word null, in any case. */
  predicate NullWord(s: string) {
    |s| == 4 && LowerAscii(s[0]) == 'n' && LowerAscii(s[1]) == 'u' && LowerAscii(s[2]) == 'l' && LowerAscii(s[3]) == 'l'
  }
}
