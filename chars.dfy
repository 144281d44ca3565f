/** Character classes and the two whitespace tokenisers of the log-file
    readers: Python's `str.split()` and the pattern ` (\S+)` applied with
    `re.findall`. Python's `float()` is a parameter (`FloatParser`). */
module Chars {
  import opened Wrappers

  /** Python's `float(s)`: `Some(x)` when it returns `x`, `None` when it
      raises `ValueError`. Its exact grammar is not part of this model. */
  type FloatParser = string -> Option<real>

  /** `is_float` (process.py): whether `float(s)` succeeds. */
  predicate IsFloat(parse: FloatParser, s: string)
  {
    parse(s).Some?
  }

  /** Characters that `str.split()` and the regex class `\s` treat as whitespace (ASCII range). */
  predicate IsWhitespace(c: char)
  {
    c == ' ' || c == '\t' || c == '\n' || c == '\r' || c == '\U{B}' || c == '\U{C}'
    || ('\U{1C}' <= c <= '\U{1F}')
  }

  /** The regex class `\d` (ASCII range). */
  predicate IsDigit(c: char)
  {
    '0' <= c <= '9'
  }

  /** The regex class `[a-zA-Z]`. */
  predicate IsLetter(c: char)
  {
    ('a' <= c <= 'z') || ('A' <= c <= 'Z')
  }

  predicate NoWhitespace(s: string)
  {
    forall i :: 0 <= i < |s| ==> !IsWhitespace(s[i])
  }

  predicate AllWhitespace(s: string)
  {
    forall i :: 0 <= i < |s| ==> IsWhitespace(s[i])
  }

  /** A body line of a log file: its first character is a digit. */
  predicate DigitLeading(line: string)
  {
    |line| > 0 && IsDigit(line[0])
  }

  /** Length of the longest prefix of `s` without whitespace. */
  function WordLength(s: string): (n: nat)
    ensures n <= |s|
    ensures NoWhitespace(s[..n])
    ensures n < |s| ==> IsWhitespace(s[n])
  {
    if |s| == 0 || IsWhitespace(s[0]) then 0 else 1 + WordLength(s[1..])
  }

  /** Python's `s.split()`: the maximal runs of non-whitespace, in order. */
  function Split(s: string): (r: seq<string>)
    ensures forall i :: 0 <= i < |r| ==> r[i] != [] && NoWhitespace(r[i])
    decreases |s|
  {
    if |s| == 0 then []
    else if IsWhitespace(s[0]) then Split(s[1..])
    else
      var n := WordLength(s);
      [s[..n]] + Split(s[n..])
  }

  /** `re.findall(' (\S+)', s)`: every maximal run of non-whitespace that
      directly follows a space, scanning left to right. */
  function SpaceTokens(s: string): (r: seq<string>)
    ensures forall i :: 0 <= i < |r| ==> r[i] != [] && NoWhitespace(r[i])
    decreases |s|
  {
    if |s| < 2 then []
    else if s[0] == ' ' && !IsWhitespace(s[1]) then
      var n := WordLength(s[1..]);
      assert s[1..][..n] == s[1..1 + n];
      [s[1..1 + n]] + SpaceTokens(s[1 + n..])
    else SpaceTokens(s[1..])
  }

  /** The words separated by single spaces. */
  function Join(words: seq<string>): string
  {
    if |words| == 0 then ""
    else if |words| == 1 then words[0]
    else words[0] + " " + Join(words[1..])
  }

  /** Words that a whitespace tokeniser can give back unchanged. */
  predicate AreWords(words: seq<string>)
  {
    forall i :: 0 <= i < |words| ==> words[i] != [] && NoWhitespace(words[i])
  }

  lemma {:induction false} WordLengthOfWord(w: string, rest: string)
    requires NoWhitespace(w)
    requires rest == [] || IsWhitespace(rest[0])
    ensures WordLength(w + rest) == |w|
    decreases |w|
  {
    if |w| > 0 {
      assert (w + rest)[1..] == w[1..] + rest;
      WordLengthOfWord(w[1..], rest);
    } else {
      assert w + rest == rest;
    }
  }

  lemma {:induction false} SplitOfWhitespace(s: string)
    requires AllWhitespace(s)
    ensures Split(s) == []
    decreases |s|
  {
    if |s| > 0 {
      SplitOfWhitespace(s[1..]);
    }
  }

  lemma {:induction false} SpaceTokensOfWhitespace(s: string)
    requires AllWhitespace(s)
    ensures SpaceTokens(s) == []
    decreases |s|
  {
    if |s| >= 2 {
      SpaceTokensOfWhitespace(s[1..]);
    }
  }

  /** Splitting the words joined by spaces, followed by any trailing
      whitespace (the line terminator), gives the words back. */
  lemma {:induction false} SplitJoin(words: seq<string>, tail: string)
    requires AreWords(words)
    requires AllWhitespace(tail)
    ensures Split(Join(words) + tail) == words
    decreases |words|
  {
    if |words| == 0 {
      assert Join(words) + tail == tail;
      SplitOfWhitespace(tail);
    } else if |words| == 1 {
      SplitJoinSingle(words[0], tail);
      assert words == [words[0]];
    } else {
      SplitJoinStep(words, tail);
      AreWordsTail(words);
      SplitJoin(words[1..], tail);
      assert words == [words[0]] + words[1..];
    }
  }

  lemma SplitJoinSingle(w: string, tail: string)
    requires w != [] && NoWhitespace(w)
    requires AllWhitespace(tail)
    ensures Split(Join([w]) + tail) == [w]
  {
    assert Join([w]) + tail == w + tail;
    SplitWord(w, tail);
    SplitOfWhitespace(tail);
  }

  lemma SplitJoinStep(words: seq<string>, tail: string)
    requires |words| >= 2 && words[0] != [] && NoWhitespace(words[0])
    ensures Split(Join(words) + tail) == [words[0]] + Split(Join(words[1..]) + tail)
  {
    var rest := " " + Join(words[1..]) + tail;
    JoinCons(words, tail);
    SplitWord(words[0], rest);
    SplitSpace(Join(words[1..]), tail);
  }

  lemma AreWordsTail(words: seq<string>)
    requires |words| > 0 && AreWords(words)
    ensures AreWords(words[1..])
  {
    forall i | 0 <= i < |words| - 1 ensures words[1..][i] == words[i + 1] { }
  }

  /** Words of two or more, joined and followed by `tail`: the first word,
      then a space and the joined rest. */
  lemma JoinCons(words: seq<string>, tail: string)
    requires |words| >= 2
    ensures Join(words) + tail == words[0] + (" " + Join(words[1..]) + tail)
  {
  }

  /** A word followed by whitespace or the end is split off first. */
  lemma SplitWord(w: string, rest: string)
    requires w != [] && NoWhitespace(w)
    requires rest == [] || IsWhitespace(rest[0])
    ensures Split(w + rest) == [w] + Split(rest)
  {
    var s := w + rest;
    WordLengthOfWord(w, rest);
    assert s[..|w|] == w;
    assert s[|w|..] == rest;
  }

  /** `str.split()` skips a leading space. */
  lemma SplitSpace(s: string, tail: string)
    ensures Split(" " + s + tail) == Split(s + tail)
  {
    assert (" " + s + tail)[1..] == s + tail;
  }

  /** The header row " a b c" followed by the line terminator yields the
      column names a, b, c. */
  lemma {:induction false} SpaceTokensJoin(words: seq<string>, tail: string)
    requires AreWords(words)
    requires AllWhitespace(tail)
    ensures SpaceTokens(" " + Join(words) + tail) == words
    decreases |words|
  {
    if |words| == 0 {
      assert " " + Join(words) + tail == " " + tail;
      SpaceTokensOfWhitespace(" " + tail);
    } else if |words| == 1 {
      assert " " + Join(words) + tail == " " + words[0] + tail;
      SpaceTokensWord(words[0], tail);
      SpaceTokensOfWhitespace(tail);
      assert words == [words[0]];
    } else {
      var rest := " " + Join(words[1..]) + tail;
      JoinCons(words, tail);
      assert " " + Join(words) + tail == " " + words[0] + rest;
      SpaceTokensWord(words[0], rest);
      AreWordsTail(words);
      SpaceTokensJoin(words[1..], tail);
      assert words == [words[0]] + words[1..];
    }
  }

  /** A word after a space, followed by whitespace or the end, is the
      next token. */
  lemma SpaceTokensWord(w: string, rest: string)
    requires w != [] && NoWhitespace(w)
    requires rest == [] || IsWhitespace(rest[0])
    ensures SpaceTokens(" " + w + rest) == [w] + SpaceTokens(rest)
  {
    var s := " " + w + rest;
    assert s[1..] == w + rest;
    WordLengthOfWord(w, rest);
    assert s[1..1 + |w|] == w;
    assert s[1 + |w|..] == rest;
  }

  /** A token that does not follow a space (the leading `#` of a header
      row) is not reported. */
  lemma {:induction false} SpaceTokensSkipsUnprefixed(w: string, rest: string)
    requires w != [] && NoWhitespace(w)
    ensures SpaceTokens(w + rest) == SpaceTokens(rest)
    decreases |w|
  {
    var s := w + rest;
    if |s| >= 2 {
      assert s[0] != ' ';
      if |w| == 1 {
        assert s[1..] == rest;
      } else {
        assert s[1..] == w[1..] + rest;
        SpaceTokensSkipsUnprefixed(w[1..], rest);
      }
    } else {
      assert rest == [];
    }
  }
}
