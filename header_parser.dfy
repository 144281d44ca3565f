/** The header parser and row extractor of the post-processor (process.py
    lines 62-136): `extractCoordinates`, `extractVariableNames` and
    `openCsv`. A log file is given as its lines, each with its terminator,
    as iterating over a text file yields them; reading the file is not
    modelled. */
module HeaderParser {
  import opened Wrappers
  import opened Chars

  /** A coordinate value: a number when Python's `float()` accepts the text,
      the text itself otherwise. */
  datatype Coord = Num(x: real) | Text(s: string)

  /** One match of the assignment pattern: the two groups and the number of
      characters the match consumed. */
  datatype Match = Match(name: string, value: string, length: nat)

  predicate IsSign(c: char)
  {
    c == '+' || c == '-'
  }

  /** The class `[a-zA-Z-_]` of textual values. */
  predicate IsValueChar(c: char)
  {
    IsLetter(c) || c == '-' || c == '_'
  }

  /** Length of the longest prefix of `s` whose characters are all in `inClass`. */
  function RunLength(s: string, inClass: char -> bool): (n: nat)
    ensures n <= |s|
    ensures forall i :: 0 <= i < n ==> inClass(s[i])
    ensures n < |s| ==> !inClass(s[n])
  {
    if |s| == 0 || !inClass(s[0]) then 0 else 1 + RunLength(s[1..], inClass)
  }

  /** The number of digits `\d*` matched greedily from position `i` of `s`. */
  function DigitsFrom(s: string, i: nat): (n: nat)
    requires i <= |s|
    ensures i + n <= |s|
    ensures forall k :: i <= k < i + n ==> IsDigit(s[k])
    ensures i + n < |s| ==> !IsDigit(s[i + n])
    decreases |s| - i
  {
    if i == |s| || !IsDigit(s[i]) then 0 else 1 + DigitsFrom(s, i + 1)
  }

  /** `(?:[eE][-+]?\d+)?` matched greedily from position `i` of `s`. */
  function ExponentLength(s: string, i: nat): (n: nat)
    requires i <= |s|
    ensures i + n <= |s|
    ensures n > 0 ==> (s[i] == 'e' || s[i] == 'E') && IsDigit(s[i + n - 1])
  {
    if i < |s| && (s[i] == 'e' || s[i] == 'E') then
      var b := if i + 1 < |s| && IsSign(s[i + 1]) then 2 else 1;
      var e := DigitsFrom(s, i + b);
      if e > 0 then b + e else 0
    else 0
  }

  /** The numeric alternative `[-+]?\d*\.?\d+(?:[eE][-+]?\d+)?` at the start
      of `s`, with the backtracking of Python's `re`: the longest mantissa
      whose fractional part, if any, has at least one digit, then the
      greedy exponent. `None` when there is no digit to match. */
  function NumberLength(s: string): (r: Option<nat>)
    ensures r.Some? ==> 0 < r.value <= |s|
    ensures r.Some? ==> IsDigit(s[r.value - 1])
  {
    var a := if |s| > 0 && IsSign(s[0]) then 1 else 0;
    var d := a + DigitsFrom(s, a);
    if d < |s| && s[d] == '.' && DigitsFrom(s, d + 1) > 0 then
      var m := d + 1 + DigitsFrom(s, d + 1);
      Some(m + ExponentLength(s, m))
    else if d > a then
      Some(d + ExponentLength(s, d))
    else None
  }

  /** The value group: the numeric alternative if it matches, else `[a-zA-Z-_]*`. */
  function ValueLength(s: string): (n: nat)
    ensures n <= |s|
  {
    match NumberLength(s)
    case Some(n) => n
    case None => RunLength(s, IsValueChar)
  }

  /** The pattern ` (?P<varName>[a-zA-Z]+) = (?P<varValue>...)?` anchored at
      the start of `s`. */
  function MatchAssignment(s: string): (r: Option<Match>)
    ensures r.Some? ==> 4 <= r.value.length <= |s|
    ensures r.Some? ==> r.value.name != [] && forall i :: 0 <= i < |r.value.name| ==> IsLetter(r.value.name[i])
  {
    if |s| == 0 || s[0] != ' ' then None
    else
      var n := RunLength(s[1..], IsLetter);
      assert n <= |s| - 1 && forall i :: 0 <= i < n ==> IsLetter(s[1..][i]);
      MatchAfterName(s, n)
  }

  /** The rest of the pattern once the name run of length `n` is known:
      ` = ` and the value group. */
  function MatchAfterName(s: string, n: nat): (r: Option<Match>)
    requires 0 < |s| && n < |s|
    requires forall i :: 0 <= i < n ==> IsLetter(s[1..][i])
    ensures r.Some? ==> 4 <= r.value.length <= |s|
    ensures r.Some? ==> r.value.name != [] && forall i :: 0 <= i < |r.value.name| ==> IsLetter(r.value.name[i])
  {
    if n == 0 || |s| < n + 4 || s[n + 1..n + 4] != " = " then None
    else
      var v := ValueLength(s[n + 4..]);
      assert s[1..][..n] == s[1..n + 1];
      Some(Match(s[1..n + 1], s[n + 4..n + 4 + v], n + 4 + v))
  }

  /** `re.findall` of the assignment pattern: the (name, value) pairs of the
      non-overlapping matches, left to right. */
  function FindAll(s: string): (r: seq<(string, string)>)
    ensures forall i :: 0 <= i < |r| ==> r[i].0 != []
    decreases |s|
  {
    if |s| == 0 then []
    else
      match MatchAssignment(s)
      case Some(m) => [(m.name, m.value)] + FindAll(s[m.length..])
      case None => FindAll(s[1..])
  }

  /** `float(value) if is_float(value) else value` */
  function Lift(parse: FloatParser, value: string): (c: Coord)
    ensures c.Num? <==> IsFloat(parse, value)
    ensures c.Text? ==> c.s == value
  {
    match parse(value)
    case Some(x) => Num(x)
    case None => Text(value)
  }

  /** The dict comprehension over the matches: later pairs overwrite earlier
      ones with the same name (see `ToDictLastWins`). */
  function ToDict(parse: FloatParser, pairs: seq<(string, string)>): (d: map<string, Coord>)
    ensures d.Keys == set p | p in pairs :: p.0
  {
    if |pairs| == 0 then map[]
    else
      var init, last := pairs[..|pairs| - 1], pairs[|pairs| - 1];
      assert pairs == init + [last];
      var d := ToDict(parse, init);
      d[last.0 := Lift(parse, last.1)]
  }

  /** Every matched name is bound to the lifted value of its last occurrence. */
  lemma {:induction false} ToDictLastWins(parse: FloatParser, pairs: seq<(string, string)>, i: nat)
    requires i < |pairs|
    requires forall j :: i < j < |pairs| ==> pairs[j].0 != pairs[i].0
    ensures pairs[i].0 in ToDict(parse, pairs)
    ensures ToDict(parse, pairs)[pairs[i].0] == Lift(parse, pairs[i].1)
    decreases |pairs|
  {
    if i < |pairs| - 1 {
      var init := pairs[..|pairs| - 1];
      assert init[i] == pairs[i];
      assert forall j :: i < j < |init| ==> init[j] == pairs[j];
      ToDictLastWins(parse, init, i);
    }
  }

  /** A header line ends the scan of `extractCoordinates` when it holds an
      assignment or is the first body line. */
  predicate EndsHeaderScan(line: string)
  {
    FindAll(line) != [] || DigitLeading(line)
  }

  /** Line `i` is the one where `extractCoordinates` stops scanning. */
  predicate FirstScanEnd(lines: seq<string>, i: int)
  {
    0 <= i < |lines| && EndsHeaderScan(lines[i])
    && forall j :: 0 <= j < i ==> !EndsHeaderScan(lines[j])
  }

  lemma FirstScanEndUnique(lines: seq<string>, i: int, k: int)
    requires FirstScanEnd(lines, i) && FirstScanEnd(lines, k)
    ensures i == k
  {
  }

  /** `extractCoordinates`: the assignments of the first line that has any;
      `{}` if a body line comes first; `None` (Python's implicit return)
      when the file has neither. */
  method ExtractCoordinates(parse: FloatParser, lines: seq<string>) returns (r: Option<map<string, Coord>>)
    requires forall i :: 0 <= i < |lines| ==> lines[i] != []
    ensures r.None? <==> forall i :: 0 <= i < |lines| ==> !EndsHeaderScan(lines[i])
    ensures forall i :: FirstScanEnd(lines, i) && FindAll(lines[i]) != []
                        ==> r == Some(ToDict(parse, FindAll(lines[i])))
    ensures forall i :: FirstScanEnd(lines, i) && FindAll(lines[i]) == [] ==> r == Some(map[])
  {
    var i := 0;
    while i < |lines|
      invariant 0 <= i <= |lines|
      invariant forall j :: 0 <= j < i ==> !EndsHeaderScan(lines[j])
    {
      var line := lines[i];
      var found := FindAll(line);
      if found != [] || IsDigit(line[0]) {
        assert FirstScanEnd(lines, i);
        forall k | FirstScanEnd(lines, k) ensures k == i {
          FirstScanEndUnique(lines, i, k);
        }
        if found != [] {
          return Some(ToDict(parse, found));
        } else {
          return Some(map[]);
        }
      }
      i := i + 1;
    }
    return None;
  }

  /** Whether `b` is where the body starts: the first digit-leading line,
      or the end of the file when there is none. */
  predicate BodyStartsAt(lines: seq<string>, b: int)
  {
    0 <= b <= |lines|
    && (b < |lines| ==> DigitLeading(lines[b]))
    && forall j :: 0 <= j < b ==> !DigitLeading(lines[j])
  }

  /** `extractVariableNames`: the space-prefixed tokens of the last line
      before the body; no names when the body starts on the first line. */
  method ExtractVariableNames(lines: seq<string>) returns (names: seq<string>)
    requires forall i :: 0 <= i < |lines| ==> lines[i] != []
    ensures forall b :: BodyStartsAt(lines, b) ==> names == if b == 0 then [] else SpaceTokens(lines[b - 1])
  {
    var lastHeaderLine := "";
    var i := 0;
    while i < |lines|
      invariant 0 <= i <= |lines|
      invariant forall j :: 0 <= j < i ==> !DigitLeading(lines[j])
      invariant lastHeaderLine == if i == 0 then "" else lines[i - 1]
    {
      if IsDigit(lines[i][0]) {
        break;
      }
      lastHeaderLine := lines[i];
      i := i + 1;
    }
    assert BodyStartsAt(lines, i);
    forall b | BodyStartsAt(lines, b) ensures b == i {
    }
    if lastHeaderLine != "" {
      names := SpaceTokens(lastHeaderLine);
    } else {
      names := [];
    }
  }

  /** The lines `openCsv` keeps: the digit-leading ones, in file order. */
  function BodyLines(lines: seq<string>): (body: seq<string>)
    ensures forall i :: 0 <= i < |body| ==> DigitLeading(body[i])
    ensures forall l :: l in body <==> l in lines && DigitLeading(l)
    ensures |body| <= |lines|
  {
    if |lines| == 0 then []
    else
      var rest := BodyLines(lines[1..]);
      assert forall l :: l in lines <==> l == lines[0] || l in lines[1..];
      if DigitLeading(lines[0]) then [lines[0]] + rest else rest
  }

  /** `[float(x) for x in tokens]`; `None` when some token is not a number. */
  function ParseRow(parse: FloatParser, tokens: seq<string>): (r: Option<seq<real>>)
    ensures r.Some? <==> forall j :: 0 <= j < |tokens| ==> IsFloat(parse, tokens[j])
    ensures r.Some? ==> |r.value| == |tokens|
                        && forall j :: 0 <= j < |tokens| ==> parse(tokens[j]) == Some(r.value[j])
  {
    if |tokens| == 0 then Some([])
    else
      match parse(tokens[0])
      case None => None
      case Some(x) =>
        match ParseRow(parse, tokens[1..])
        case None => None
        case Some(rest) => Some([x] + rest)
  }

  /** Every whitespace token of every line of `body` is accepted by `float()`. */
  predicate AllTokensNumeric(parse: FloatParser, body: seq<string>)
  {
    forall i, j :: 0 <= i < |body| && 0 <= j < |Split(body[i])| ==> IsFloat(parse, Split(body[i])[j])
  }

  /** `rows` holds, line by line and token by token, the numbers `float()`
      reads from the whitespace tokens of `body`. */
  predicate RowsOf(parse: FloatParser, body: seq<string>, rows: seq<seq<real>>)
  {
    |rows| == |body|
    && forall i :: 0 <= i < |body| ==>
         |rows[i]| == |Split(body[i])|
         && forall j :: 0 <= j < |rows[i]| ==> parse(Split(body[i])[j]) == Some(rows[i][j])
  }

  function ParseRows(parse: FloatParser, body: seq<string>): (r: Option<seq<seq<real>>>)
    ensures r.Some? <==> AllTokensNumeric(parse, body)
    ensures r.Some? ==> RowsOf(parse, body, r.value)
  {
    if |body| == 0 then Some([])
    else
      match ParseRow(parse, Split(body[0]))
      case None =>
        assert exists j :: 0 <= j < |Split(body[0])| && !IsFloat(parse, Split(body[0])[j]);
        None
      case Some(row) =>
        match ParseRows(parse, body[1..])
        case None =>
          assert exists i, j :: 0 <= i < |body| - 1 && 0 <= j < |Split(body[1..][i])|
                                && !IsFloat(parse, Split(body[1..][i])[j]);
          None
        case Some(rest) =>
          assert forall i :: 0 <= i < |body| - 1 ==> body[1..][i] == body[i + 1];
          Some([row] + rest)
  }

  /** `openCsv`: one row per digit-leading line, one number per whitespace
      token; `None` when `float()` rejects a token (the `ValueError` aborts
      the read). */
  function OpenCsv(parse: FloatParser, lines: seq<string>): (r: Option<seq<seq<real>>>)
    ensures r.Some? <==> AllTokensNumeric(parse, BodyLines(lines))
    ensures r.Some? ==> RowsOf(parse, BodyLines(lines), r.value)
  {
    ParseRows(parse, BodyLines(lines))
  }

  // ---------------------------------------------------------------------
  /** A single line is kept exactly when it is digit-leading. */
  lemma BodyLinesSingle(line: string)
    ensures BodyLines([line]) == if DigitLeading(line) then [line] else []
  {
    assert [line][1..] == [];
  }

  /** The filter distributes over concatenation: the kept lines keep their
      order and multiplicity. */
  lemma {:induction false} BodyLinesAppend(a: seq<string>, b: seq<string>)
    ensures BodyLines(a + b) == BodyLines(a) + BodyLines(b)
    decreases |a|
  {
    if |a| == 0 {
      assert a + b == b;
    } else {
      assert (a + b)[0] == a[0] && (a + b)[1..] == a[1..] + b;
      BodyLinesAppend(a[1..], b);
    }
  }

  // The header grammar, read backwards: a rendered header line is parsed
  // back into the assignments it was rendered from.

  predicate AllDigits(s: string)
  {
    forall i :: 0 <= i < |s| ==> IsDigit(s[i])
  }

  /** The parts of a numeric literal: an optional sign, the integer digits,
      an optional fraction (`.` and at least one digit), at least one
      mantissa digit in all, and an optional exponent `[eE][-+]?\d+`. */
  predicate LiteralParts(sign: string, whole: string, frac: string, exp: string)
  {
    && (sign == [] || (|sign| == 1 && IsSign(sign[0])))
    && AllDigits(whole)
    && (frac == [] || (|frac| >= 2 && frac[0] == '.' && AllDigits(frac[1..])))
    && |whole| + |frac| > 0
    && (exp == [] || (|exp| >= 2 && (exp[0] == 'e' || exp[0] == 'E') && ExponentDigits(exp[1..])))
  }

  /** `[-+]?\d+` spanning all of `x`. */
  predicate ExponentDigits(x: string)
  {
    (x != [] && AllDigits(x)) || (|x| >= 2 && IsSign(x[0]) && AllDigits(x[1..]))
  }

  /** A numeric literal such as `3`, `-0.25`, `.5` or `1e-05` (but not `3.`
      or `1e`). */
  ghost predicate NumberLiteral(v: string)
  {
    exists sign, whole, frac, exp :: LiteralParts(sign, whole, frac, exp) && v == sign + whole + frac + exp
  }

  /** A value the pattern reads back whole: a numeric literal, or a word
      of `[a-zA-Z-_]`. */
  ghost predicate PlainValue(v: string)
  {
    NumberLiteral(v) || (forall i :: 0 <= i < |v| ==> IsValueChar(v[i]))
  }

  ghost predicate PlainAssignments(pairs: seq<(string, string)>)
  {
    forall i :: 0 <= i < |pairs| ==>
      pairs[i].0 != [] && (forall j :: 0 <= j < |pairs[i].0| ==> IsLetter(pairs[i].0[j]))
      && PlainValue(pairs[i].1)
  }

  /** The header text `" name = value"` for each assignment, concatenated. */
  function Render(pairs: seq<(string, string)>): string
  {
    if |pairs| == 0 then "" else " " + pairs[0].0 + " = " + pairs[0].1 + Render(pairs[1..])
  }

  lemma {:induction false} RunLengthOfRun(w: string, rest: string, inClass: char -> bool)
    requires forall i :: 0 <= i < |w| ==> inClass(w[i])
    requires rest == [] || !inClass(rest[0])
    ensures RunLength(w + rest, inClass) == |w|
    decreases |w|
  {
    if |w| > 0 {
      assert (w + rest)[1..] == w[1..] + rest;
      RunLengthOfRun(w[1..], rest, inClass);
    } else {
      assert w + rest == rest;
    }
  }

  lemma ValueLengthOfPlain(v: string, rest: string)
    requires PlainValue(v)
    requires rest == [] || IsWhitespace(rest[0])
    ensures ValueLength(v + rest) == |v|
  {
    if NumberLiteral(v) {
      var sign, whole, frac, exp :| LiteralParts(sign, whole, frac, exp) && v == sign + whole + frac + exp;
      ValueLengthOfNumber(sign, whole, frac, exp, rest);
    } else {
      ValueLengthOfWord(v, rest);
    }
  }

  /** A numeric literal followed by whitespace or the end is read whole by
      the numeric alternative: the backtracking never stops early, and the
      whitespace is never taken in. */
  lemma ValueLengthOfNumber(sign: string, whole: string, frac: string, exp: string, rest: string)
    requires LiteralParts(sign, whole, frac, exp)
    requires rest == [] || IsWhitespace(rest[0])
    ensures NumberLength(sign + whole + frac + exp + rest) == Some(|sign + whole + frac + exp|)
    ensures ValueLength(sign + whole + frac + exp + rest) == |sign + whole + frac + exp|
  {
    var s := sign + whole + frac + exp + rest;
    var p1, p2, p3 := |sign|, |sign| + |whole|, |sign| + |whole| + |frac|;
    var eb := if exp != [] && IsSign(exp[1]) then 2 else 1;
    LiteralLayout(sign, whole, frac, exp, rest);
    NumberLengthOfLayout(s, p1, p2, p3, |sign + whole + frac + exp|, eb);
  }

  /** The characters the numeric alternative inspects, for a literal
      followed by whitespace or the end. */
  lemma LiteralLayout(sign: string, whole: string, frac: string, exp: string, rest: string)
    requires LiteralParts(sign, whole, frac, exp)
    requires rest == [] || IsWhitespace(rest[0])
    ensures var s, p1, p2, p3, q := sign + whole + frac + exp + rest, |sign|, |sign| + |whole|,
                                    |sign| + |whole| + |frac|, |sign + whole + frac + exp|;
            var eb := if exp != [] && IsSign(exp[1]) then 2 else 1;
            Layout(s, p1, p2, p3, q, eb)
  {
    var v := sign + whole + frac + exp;
    var s := v + rest;
    LiteralChars(sign, whole, frac, exp);
    assert forall k :: 0 <= k < |v| ==> s[k] == v[k];
    assert |v| < |s| ==> IsWhitespace(s[|v|]);
  }

  /** The shape of a numeric literal in `s`, ending at `q`: an optional sign
      before `p1`, digits up to `p2`, a fraction `.` and digits up to `p3`
      (or none, `p3 == p2`), an exponent marker and `eb - 1` sign characters
      and digits up to `q` (or none, `q == p3`), and no digit after it. */
  predicate Layout(s: string, p1: nat, p2: nat, p3: nat, q: nat, eb: nat)
  {
    && p1 <= p2 <= p3 <= q <= |s|
    && p1 == (if |s| > 0 && IsSign(s[0]) then 1 else 0)
    && (forall k :: p1 <= k < p2 ==> IsDigit(s[k]))
    && (p3 > p2 ==> p3 > p2 + 1 && s[p2] == '.' && forall k :: p2 + 1 <= k < p3 ==> IsDigit(s[k]))
    && (p3 == p2 ==> p2 > p1 && (p2 < |s| ==> s[p2] != '.'))
    && (p2 < |s| ==> !IsDigit(s[p2]))
    && (p3 < |s| ==> !IsDigit(s[p3]))
    && (q > p3 ==> && (s[p3] == 'e' || s[p3] == 'E') && p3 + 1 < |s|
                   && eb == (if IsSign(s[p3 + 1]) then 2 else 1)
                   && p3 + eb < q && forall k :: p3 + eb <= k < q ==> IsDigit(s[k]))
    && (q == p3 ==> !(q < |s| && (s[q] == 'e' || s[q] == 'E')))
    && (q < |s| ==> !IsDigit(s[q]))
  }

  /** The numeric alternative reads a laid-out literal up to its end. */
  lemma NumberLengthOfLayout(s: string, p1: nat, p2: nat, p3: nat, q: nat, eb: nat)
    requires Layout(s, p1, p2, p3, q, eb)
    ensures NumberLength(s) == Some(q)
  {
    DigitsFromRun(s, p1, p2);
    if p3 > p2 {
      DigitsFromRun(s, p2 + 1, p3);
    }
    ExponentOfLayout(s, p3, q, eb);
    NumberLengthOfParts(s, p1, p2, p3);
  }

  lemma ExponentOfLayout(s: string, p3: nat, q: nat, eb: nat)
    requires p3 <= q <= |s|
    requires q > p3 ==> && (s[p3] == 'e' || s[p3] == 'E') && p3 + 1 < |s|
                        && eb == (if IsSign(s[p3 + 1]) then 2 else 1)
                        && p3 + eb < q && forall k :: p3 + eb <= k < q ==> IsDigit(s[k])
    requires q == p3 ==> !(q < |s| && (s[q] == 'e' || s[q] == 'E'))
    requires q < |s| ==> !IsDigit(s[q])
    ensures ExponentLength(s, p3) == q - p3
  {
    if q > p3 {
      DigitsFromRun(s, p3 + eb, q);
    }
  }

  /** Where each part of a numeric literal lies in the literal. */
  lemma LiteralChars(sign: string, whole: string, frac: string, exp: string)
    requires LiteralParts(sign, whole, frac, exp)
    ensures var v, p1, p2, p3 := sign + whole + frac + exp, |sign|, |sign| + |whole|, |sign| + |whole| + |frac|;
            && |v| > 0
            && ((if IsSign(v[0]) then 1 else 0) == p1)
            && (forall k :: p1 <= k < p2 ==> IsDigit(v[k]))
            && (frac != [] ==> v[p2] == '.' && forall k :: p2 + 1 <= k < p3 ==> IsDigit(v[k]))
            && (frac == [] && p2 < |v| ==> v[p2] != '.' && !IsDigit(v[p2]))
            && (frac != [] && p3 < |v| ==> !IsDigit(v[p3]))
            && (exp == [] ==> p3 == |v|)
            && (exp != [] ==>
                  && (v[p3] == 'e' || v[p3] == 'E') && p3 + 1 < |v| && v[p3 + 1] == exp[1]
                  && var b := if IsSign(exp[1]) then 2 else 1;
                     p3 + b < |v| && forall k :: p3 + b <= k < |v| ==> IsDigit(v[k]))
  {
    var v, p1, p2, p3 := sign + whole + frac + exp, |sign|, |sign| + |whole|, |sign| + |whole| + |frac|;
    assert forall k :: p1 <= k < p2 ==> v[k] == whole[k - p1];
    assert forall k :: p2 <= k < p3 ==> v[k] == frac[k - p2];
    assert forall k :: p3 <= k < |v| ==> v[k] == exp[k - p3];
    if sign == [] {
      assert v[0] == if whole != [] then whole[0] else frac[0];
    }
    if exp != [] {
      var b := if IsSign(exp[1]) then 2 else 1;
      assert forall k :: p3 + b <= k < |v| ==> v[k] == exp[1..][k - p3 - 1];
    }
  }

  /** The greedy digit run from `i` ends at `j` when every character in
      between is a digit and the one at `j`, if any, is not. */
  lemma {:induction false} DigitsFromRun(s: string, i: nat, j: nat)
    requires i <= j <= |s|
    requires forall k :: i <= k < j ==> IsDigit(s[k])
    requires j == |s| || !IsDigit(s[j])
    ensures DigitsFrom(s, i) == j - i
    decreases j - i
  {
    if i < j {
      DigitsFromRun(s, i + 1, j);
    }
  }

  /** `NumberLength` from the positions where the sign, the integer digits
      and the fraction end. */
  lemma NumberLengthOfParts(s: string, a: nat, d: nat, m: nat)
    requires a == (if |s| > 0 && IsSign(s[0]) then 1 else 0)
    requires a <= d <= m <= |s| && DigitsFrom(s, a) == d - a
    requires m > d ==> m > d + 1 && s[d] == '.' && DigitsFrom(s, d + 1) == m - d - 1
    requires m == d ==> d > a && !(d < |s| && s[d] == '.')
    ensures NumberLength(s) == Some(m + ExponentLength(s, m))
  {
  }

  /** A word of `[a-zA-Z-_]` is not a number and is read whole by the
      textual alternative. */
  lemma ValueLengthOfWord(v: string, rest: string)
    requires forall i :: 0 <= i < |v| ==> IsValueChar(v[i])
    requires rest == [] || IsWhitespace(rest[0])
    ensures ValueLength(v + rest) == |v|
  {
    var s := v + rest;
    var a := if |s| > 0 && IsSign(s[0]) then 1 else 0;
    assert a <= |v|;
    assert a == |s| || !IsDigit(s[a]);
    assert NumberLength(s) == None;
    RunLengthOfRun(v, rest, IsValueChar);
  }

  lemma {:induction false} FindAllOfWhitespace(s: string)
    requires AllWhitespace(s)
    ensures FindAll(s) == []
    decreases |s|
  {
    if |s| > 0 {
      if s[0] == ' ' && |s| > 1 {
        assert RunLength(s[1..], IsLetter) == 0;
      }
      assert MatchAssignment(s) == None;
      FindAllOfWhitespace(s[1..]);
    }
  }

  /** The facts that make `MatchAssignment` match `name` and `value`. */
  lemma MatchAssignmentSome(s: string, name: string, value: string)
    requires name != [] && |name| + 4 + |value| <= |s| && s[0] == ' '
    requires RunLength(s[1..], IsLetter) == |name| && s[1..|name| + 1] == name
    requires s[|name| + 1..|name| + 4] == " = "
    requires ValueLength(s[|name| + 4..]) == |value| && s[|name| + 4..|name| + 4 + |value|] == value
    ensures MatchAssignment(s) == Some(Match(name, value, |name| + 4 + |value|))
  {
    MatchAssignmentName(s, |name|);
    MatchAfterNameSome(s, name, value);
  }

  /** `MatchAssignment` after the leading space and the name run. */
  lemma MatchAssignmentName(s: string, n: nat)
    requires 0 < |s| && s[0] == ' ' && RunLength(s[1..], IsLetter) == n
    ensures n < |s| && forall i :: 0 <= i < n ==> IsLetter(s[1..][i])
    ensures MatchAssignment(s) == MatchAfterName(s, n)
  {
  }

  /** `MatchAfterName` when the name is followed by ` = ` and the value. */
  lemma MatchAfterNameSome(s: string, name: string, value: string)
    requires name != [] && |name| + 4 + |value| <= |s|
    requires forall i :: 0 <= i < |name| ==> IsLetter(s[1..][i])
    requires s[1..|name| + 1] == name && s[|name| + 1..|name| + 4] == " = "
    requires ValueLength(s[|name| + 4..]) == |value| && s[|name| + 4..|name| + 4 + |value|] == value
    ensures MatchAfterName(s, |name|) == Some(Match(name, value, |name| + 4 + |value|))
  {
  }

  /** The facts `MatchAssignment` inspects, for a rendered assignment. */
  predicate RenderedAt(s: string, name: string, value: string, rest: string)
  {
    s == " " + name + " = " + value + rest
  }

  lemma RenderedName(s: string, name: string, value: string, rest: string)
    requires RenderedAt(s, name, value, rest)
    requires forall j :: 0 <= j < |name| ==> IsLetter(name[j])
    ensures RunLength(s[1..], IsLetter) == |name| && s[1..|name| + 1] == name
  {
    var tail := " = " + value + rest;
    assert s[1..] == name + tail;
    RunLengthOfRun(name, tail, IsLetter);
  }

  lemma RenderedEquals(s: string, name: string, value: string, rest: string)
    requires RenderedAt(s, name, value, rest)
    ensures |name| + 4 + |value| <= |s| && s[0] == ' ' && s[|name| + 1..|name| + 4] == " = "
    ensures s[|name| + 4..] == value + rest
  {
  }

  lemma RenderedValue(s: string, k: nat, value: string, rest: string)
    requires k <= |s| && s[k..] == value + rest
    requires PlainValue(value)
    requires rest == [] || IsWhitespace(rest[0])
    ensures k + |value| <= |s| && ValueLength(s[k..]) == |value| && s[k..k + |value|] == value
  {
    assert ValueLength(s[k..]) == |value| by {
      ValueLengthOfPlain(value, rest);
    }
    assert s[k..k + |value|] == value by {
      assert s[k..k + |value|] == s[k..][..|value|];
      assert (value + rest)[..|value|] == value;
    }
  }

  lemma MatchRenderedAt(s: string, name: string, value: string, rest: string)
    requires RenderedAt(s, name, value, rest)
    requires name != [] && forall j :: 0 <= j < |name| ==> IsLetter(name[j])
    requires PlainValue(value)
    requires rest == [] || IsWhitespace(rest[0])
    ensures MatchAssignment(s) == Some(Match(name, value, |name| + 4 + |value|))
  {
    RenderedName(s, name, value, rest);
    RenderedEquals(s, name, value, rest);
    RenderedValue(s, |name| + 4, value, rest);
    MatchAssignmentSome(s, name, value);
  }

  /** One rendered assignment, followed by a space or the end of the line,
      is one match that consumes exactly the assignment. */
  lemma MatchRendered(name: string, value: string, rest: string)
    requires name != [] && forall j :: 0 <= j < |name| ==> IsLetter(name[j])
    requires PlainValue(value)
    requires rest == [] || IsWhitespace(rest[0])
    ensures MatchAssignment(" " + name + " = " + value + rest)
            == Some(Match(name, value, |name| + 4 + |value|))
  {
    MatchRenderedAt(" " + name + " = " + value + rest, name, value, rest);
  }

  /** Parsing a rendered header line, line terminator included, gives back
      the assignments it was rendered from. */
  lemma {:induction false} FindAllRender(pairs: seq<(string, string)>, tail: string)
    requires PlainAssignments(pairs)
    requires AllWhitespace(tail)
    ensures FindAll(Render(pairs) + tail) == pairs
    decreases |pairs|
  {
    if |pairs| == 0 {
      assert Render(pairs) + tail == tail;
      FindAllOfWhitespace(tail);
    } else {
      var later := pairs[1..];
      PlainAssignmentsTail(pairs);
      FindAllRender(later, tail);
      RenderStep(pairs, tail);
      assert pairs == [pairs[0]] + later;
    }
  }

  lemma PlainAssignmentsTail(pairs: seq<(string, string)>)
    requires |pairs| > 0 && PlainAssignments(pairs)
    ensures PlainAssignments(pairs[1..])
  {
    forall i | 0 <= i < |pairs| - 1 ensures pairs[1..][i] == pairs[i + 1] { }
  }

  /** The first rendered assignment is matched first; the scan then goes
      on with the rest of the rendering. */
  lemma RenderStep(pairs: seq<(string, string)>, tail: string)
    requires |pairs| > 0 && PlainAssignments(pairs)
    requires AllWhitespace(tail)
    ensures FindAll(Render(pairs) + tail) == [pairs[0]] + FindAll(Render(pairs[1..]) + tail)
  {
    var name, value := pairs[0].0, pairs[0].1;
    var rest := Render(pairs[1..]) + tail;
    RenderCons(pairs, tail);
    assert rest == [] || IsWhitespace(rest[0]) by {
      if |pairs| > 1 {
        assert rest[0] == ' ';
      } else {
        assert rest == tail;
      }
    }
    MatchRendered(name, value, rest);
    DropRendered(name, value, rest);
    FindAllStep(" " + name + " = " + value + rest, Match(name, value, |name| + 4 + |value|));
  }

  lemma RenderCons(pairs: seq<(string, string)>, tail: string)
    requires |pairs| > 0
    ensures Render(pairs) + tail == " " + pairs[0].0 + " = " + pairs[0].1 + (Render(pairs[1..]) + tail)
  {
  }

  lemma DropRendered(name: string, value: string, rest: string)
    ensures (" " + name + " = " + value + rest)[|name| + 4 + |value|..] == rest
  {
  }

  /** A match at the start of `s` contributes its pair, and the scan goes
      on after it. */
  lemma FindAllStep(s: string, m: Match)
    requires |s| > 0 && MatchAssignment(s) == Some(m)
    ensures FindAll(s) == [(m.name, m.value)] + FindAll(s[m.length..])
  {
  }

  lemma ExamplePairsPlain()
    ensures PlainAssignments([("Algorithm", "ff_linpro"), ("Seed", "3")])
  {
    WordIsPlain("ff_linpro");
    ThreeIsLiteral();
  }

  lemma WordIsPlain(w: string)
    requires forall i :: 0 <= i < |w| ==> IsValueChar(w[i])
    ensures PlainValue(w)
  {
  }

  lemma ThreeIsLiteral()
    ensures NumberLiteral("3")
  {
    assert LiteralParts("", "3", "", "") && "3" == "" + "3" + "" + "";
  }

  lemma ExampleRender()
    ensures Render([("Algorithm", "ff_linpro"), ("Seed", "3")]) + "\n" == " Algorithm = ff_linpro Seed = 3\n"
  {
    var pairs := [("Algorithm", "ff_linpro"), ("Seed", "3")];
    assert Render(pairs[1..][1..]) == "";
    assert Render(pairs[1..]) == " Seed = 3";
    assert Render(pairs) == " Algorithm = ff_linpro" + " Seed = 3";
  }

  /** The header line ` Algorithm = ff_linpro Seed = 3` followed by its
      terminator gives `{Algorithm: "ff_linpro", Seed: 3.0}` when `float()`
      reads "3" as 3 and rejects "ff_linpro". */
  lemma HeaderExample(parse: FloatParser)
    requires parse("3") == Some(3.0) && parse("ff_linpro") == None
    ensures FindAll(" Algorithm = ff_linpro Seed = 3\n") == [("Algorithm", "ff_linpro"), ("Seed", "3")]
    ensures ToDict(parse, [("Algorithm", "ff_linpro"), ("Seed", "3")])
            == map["Algorithm" := Text("ff_linpro"), "Seed" := Num(3.0)]
  {
    var pairs := [("Algorithm", "ff_linpro"), ("Seed", "3")];
    ExamplePairsPlain();
    ExampleRender();
    FindAllRender(pairs, "\n");
    ToDictLastWins(parse, pairs, 0);
    ToDictLastWins(parse, pairs, 1);
  }
}
