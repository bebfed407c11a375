/** The Python string operations the script relies on, over `string` (a sequence of
    Unicode scalar values): `str.strip`, `str.split`, `str.splitlines`, ASCII
    `str.lower`, `int(str)` and the ordering `sorted` uses for names. */
module Text {
  import opened Common

  // ---------------------------------------------------------------- whitespace

  /** The characters for which Python's `str.isspace()` holds; `str.strip()` removes them. */
  predicate IsSpace(c: char) {
    || c == ' '
    || '\t' <= c <= '\r'
    || '\U{1C}' <= c <= '\U{1F}'
    || c == '\U{85}' || c == '\U{A0}' || c == '\U{1680}'
    || '\U{2000}' <= c <= '\U{200A}'
    || c == '\U{2028}' || c == '\U{2029}' || c == '\U{202F}' || c == '\U{205F}'
    || c == '\U{3000}'
  }

  function TrimStart(s: string): (r: string)
    ensures |r| <= |s|
    decreases |s|
  {
    if s != [] && IsSpace(s[0]) then TrimStart(s[1..]) else s
  }

  /** `TrimStart` drops the leading whitespace of `s` and nothing else. */
  lemma {:induction false} TrimStartMeaning(s: string)
    ensures var r := TrimStart(s);
      && r == s[|s| - |r|..]
      && (r == [] || !IsSpace(r[0]))
      && forall k | 0 <= k < |s| - |r| :: IsSpace(s[k])
    decreases |s|
  {
    if s != [] && IsSpace(s[0]) {
      TrimStartMeaning(s[1..]);
      assert forall k | 1 <= k < |s| :: s[k] == s[1..][k - 1];
    }
  }

  function TrimEnd(s: string): (r: string)
    ensures |r| <= |s|
    decreases |s|
  {
    if s != [] && IsSpace(s[|s| - 1]) then TrimEnd(s[..|s| - 1]) else s
  }

  /** `TrimEnd` drops the trailing whitespace of `s` and nothing else. */
  lemma {:induction false} TrimEndMeaning(s: string)
    ensures var r := TrimEnd(s);
      && r == s[..|r|]
      && (r == [] || !IsSpace(r[|r| - 1]))
      && forall k | |r| <= k < |s| :: IsSpace(s[k])
    decreases |s|
  {
    if s != [] && IsSpace(s[|s| - 1]) {
      TrimEndMeaning(s[..|s| - 1]);
    }
  }

  /** Python's `str.strip()` without arguments. */
  function Strip(s: string): (r: string)
    ensures |r| <= |s|
  {
    TrimEnd(TrimStart(s))
  }

  /** What `strip` returns neither starts nor ends with whitespace, and it is
      empty exactly when `s` is blank. */
  lemma StripMeaning(s: string)
    ensures var r := Strip(s);
      && (r == [] || (!IsSpace(r[0]) && !IsSpace(r[|r| - 1])))
      && (r == [] <==> forall k | 0 <= k < |s| :: IsSpace(s[k]))
  {
    var t := TrimStart(s);
    TrimStartMeaning(s);
    TrimEndMeaning(t);
    var r := TrimEnd(t);
    if r != [] {
      assert r[0] == t[0];
    }
  }

  /** A string without surrounding whitespace is left as it is by `strip`. */
  lemma StripKeeps(s: string)
    requires s == [] || (!IsSpace(s[0]) && !IsSpace(s[|s| - 1]))
    ensures Strip(s) == s
  {
    assert TrimStart(s) == s;
  }

  /** `strip` is idempotent. */
  lemma StripIdempotent(s: string)
    ensures Strip(Strip(s)) == Strip(s)
  {
    StripMeaning(s);
    StripKeeps(Strip(s));
  }

  /** Leading whitespace does not change what `strip` returns. */
  lemma StripLeading(w: string, s: string)
    requires forall k | 0 <= k < |w| :: IsSpace(w[k])
    ensures Strip(w + s) == Strip(s)
  {
    TrimStartLeading(w, s);
  }

  /** Whitespace before a string without surrounding whitespace is all that
      `strip` removes. */
  lemma StripPadded(w: string, s: string)
    requires forall k | 0 <= k < |w| :: IsSpace(w[k])
    requires s == [] || (!IsSpace(s[0]) && !IsSpace(s[|s| - 1]))
    ensures Strip(w + s) == s
  {
    StripLeading(w, s);
    StripKeeps(s);
  }

  lemma {:induction false} TrimStartLeading(w: string, s: string)
    requires forall k | 0 <= k < |w| :: IsSpace(w[k])
    ensures TrimStart(w + s) == TrimStart(s)
    decreases |w|
  {
    if w != [] {
      assert (w + s)[1..] == w[1..] + s;
      assert IsSpace((w + s)[0]);
      TrimStartLeading(w[1..], s);
    } else {
      assert w + s == s;
    }
  }

  // -------------------------------------------------------------------- split

  /** Python's `s.split(sep)` for a one-character separator: one more part than
      there are separators, none of the parts containing the separator. */
  function Split(s: string, sep: char): (parts: seq<string>)
    ensures |parts| >= 1
    ensures forall i | 0 <= i < |parts| :: sep !in parts[i]
    decreases |s|
  {
    if s == [] then [[]]
    else
      var rest := Split(s[1..], sep);
      if s[0] == sep then [[]] + rest else [[s[0]] + rest[0]] + rest[1..]
  }

  /** Python's `sep.join(parts)`. */
  function Join(parts: seq<string>, sep: char): string
    requires |parts| >= 1
    decreases |parts|
  {
    if |parts| == 1 then parts[0] else parts[0] + [sep] + Join(parts[1..], sep)
  }

  /** Splitting loses nothing: joining the parts gives back the input. */
  lemma {:induction false} JoinSplit(s: string, sep: char)
    ensures Join(Split(s, sep), sep) == s
    decreases |s|
  {
    if s != [] {
      JoinSplit(s[1..], sep);
      var rest := Split(s[1..], sep);
      if s[0] == sep {
        assert ([[]] + rest)[1..] == rest;
      } else if |rest| > 1 {
        var parts := [[s[0]] + rest[0]] + rest[1..];
        assert parts[1..] == rest[1..];
        assert Join(rest, sep) == rest[0] + [sep] + Join(rest[1..], sep);
        assert s == [s[0]] + s[1..];
      }
    }
  }

  lemma {:induction false} SplitAfterPart(p: string, t: string, sep: char)
    requires sep !in p
    ensures Split(p + t, sep) == [p + Split(t, sep)[0]] + Split(t, sep)[1..]
    decreases |p|
  {
    var rest := Split(t, sep);
    if p == [] {
      assert p + t == t;
      assert p + rest[0] == rest[0];
      assert [rest[0]] + rest[1..] == rest;
    } else {
      assert (p + t)[1..] == p[1..] + t;
      SplitAfterPart(p[1..], t, sep);
      assert [p[0]] + (p[1..] + Split(t, sep)[0]) == p + Split(t, sep)[0];
    }
  }

  /** Splitting is the inverse of joining parts that do not contain the separator. */
  lemma {:induction false} SplitJoin(parts: seq<string>, sep: char)
    requires |parts| >= 1
    requires forall i | 0 <= i < |parts| :: sep !in parts[i]
    ensures Split(Join(parts, sep), sep) == parts
    decreases |parts|
  {
    var p := parts[0];
    if |parts| == 1 {
      SplitAfterPart(p, [], sep);
      assert p + [] == p;
    } else {
      var tail := [sep] + Join(parts[1..], sep);
      assert Join(parts, sep) == p + tail;
      SplitAfterPart(p, tail, sep);
      SplitJoin(parts[1..], sep);
      assert tail[1..] == Join(parts[1..], sep);
      assert Split(tail, sep) == [[]] + parts[1..];
      assert p + [] == p;
      assert [p] + parts[1..] == parts;
    }
  }

  // ---------------------------------------------------------------- splitlines

  /** The line boundaries of Python's `str.splitlines()` (`\r\n` counts as one). */
  predicate IsLineBreak(c: char) {
    || '\n' <= c <= '\r'
    || '\U{1C}' <= c <= '\U{1E}'
    || c == '\U{85}' || c == '\U{2028}' || c == '\U{2029}'
  }

  /** A line: no character of it is a line boundary. */
  predicate IsSingleLine(line: string) {
    forall k | 0 <= k < |line| :: !IsLineBreak(line[k])
  }

  /** The index of the first line boundary in `s`, or `|s|` when there is none. */
  function LineEnd(s: string): (i: nat)
    ensures i <= |s|
    ensures i < |s| ==> IsLineBreak(s[i])
    decreases |s|
  {
    if s == [] || IsLineBreak(s[0]) then 0 else 1 + LineEnd(s[1..])
  }

  /** No boundary comes before `LineEnd(s)`. */
  lemma {:induction false} LineEndIsFirst(s: string)
    ensures forall k | 0 <= k < LineEnd(s) :: !IsLineBreak(s[k])
    decreases |s|
  {
    if s != [] && !IsLineBreak(s[0]) {
      LineEndIsFirst(s[1..]);
      assert forall k | 1 <= k < |s| :: s[k] == s[1..][k - 1];
    }
  }

  /** Python's `str.splitlines()`. */
  function SplitLines(s: string): (lines: seq<string>)
    ensures |lines| <= |s|
    ensures s == [] <==> lines == []
    decreases |s|
  {
    if s == [] then []
    else
      var i := LineEnd(s);
      if i == |s| then [s]
      else
        var next := if s[i] == '\r' && i + 1 < |s| && s[i + 1] == '\n' then i + 2 else i + 1;
        [s[..i]] + SplitLines(s[next..])
  }

  /** No line `splitlines` returns contains a boundary, and a final boundary
      does not start an empty last line: the result is empty only for an
      empty string. */
  lemma {:induction false} SplitLinesMeaning(s: string)
    ensures var lines := SplitLines(s);
      && (forall i | 0 <= i < |lines| :: IsSingleLine(lines[i]))
      && (s == [] <==> lines == [])
    decreases |s|
  {
    if s != [] {
      var i := LineEnd(s);
      FirstLineIsSingle(s);
      if i < |s| {
        var next := if s[i] == '\r' && i + 1 < |s| && s[i + 1] == '\n' then i + 2 else i + 1;
        SplitLinesMeaning(s[next..]);
        var rest := SplitLines(s[next..]);
        assert SplitLines(s) == [s[..i]] + rest;
        SingleLinesCons(s[..i], rest);
      } else {
        assert s[..i] == s;
      }
    }
  }

  /** The text in front of the first boundary has no boundary. */
  lemma FirstLineIsSingle(s: string)
    ensures IsSingleLine(s[..LineEnd(s)])
  {
    var line := s[..LineEnd(s)];
    LineEndIsFirst(s);
    forall k | 0 <= k < |line|
      ensures !IsLineBreak(line[k])
    {
      assert line[k] == s[k];
    }
  }

  /** A line without boundaries in front of lines without boundaries. */
  lemma SingleLinesCons(line: string, rest: seq<string>)
    requires IsSingleLine(line)
    requires forall i | 0 <= i < |rest| :: IsSingleLine(rest[i])
    ensures var lines := [line] + rest;
      forall i | 0 <= i < |lines| :: IsSingleLine(lines[i])
  {
    var lines := [line] + rest;
    forall i | 0 <= i < |lines|
      ensures IsSingleLine(lines[i])
    {
      if i > 0 {
        assert lines[i] == rest[i - 1];
      }
    }
  }

  /** Each line followed by a newline, as a tool writes its report. */
  function JoinLines(lines: seq<string>): string
    decreases |lines|
  {
    if lines == [] then [] else lines[0] + "\n" + JoinLines(lines[1..])
  }

  /** A line without boundaries followed by a newline is split off as a whole. */
  lemma SplitLinesCons(l: string, rest: string)
    requires IsSingleLine(l)
    ensures SplitLines(l + "\n" + rest) == [l] + SplitLines(rest)
  {
    var s := l + "\n" + rest;
    assert s[|l|] == '\n';
    assert forall k | 0 <= k < |l| :: s[k] == l[k];
    LineEndIsFirst(s);
    assert LineEnd(s) == |l|;
    assert s[..|l|] == l;
    assert s[|l| + 1..] == rest;
  }

  /** `splitlines` recovers the lines of a newline-terminated report. */
  lemma {:induction false} SplitLinesJoinLines(lines: seq<string>)
    requires forall i | 0 <= i < |lines| :: IsSingleLine(lines[i])
    ensures SplitLines(JoinLines(lines)) == lines
    decreases |lines|
  {
    if lines != [] {
      var rest := lines[1..];
      assert forall i | 0 <= i < |rest| :: IsSingleLine(rest[i]) by {
        forall i | 0 <= i < |rest|
          ensures IsSingleLine(rest[i])
        {
          assert rest[i] == lines[i + 1];
        }
      }
      SplitLinesJoinLines(rest);
      assert IsSingleLine(lines[0]);
      SplitLinesCons(lines[0], JoinLines(rest));
      assert lines == [lines[0]] + rest;
    }
  }

  /** A two-line report, each line newline-terminated, splits into its lines. */
  lemma SplitTwoLines(a: string, b: string)
    requires IsSingleLine(a)
    requires IsSingleLine(b)
    ensures SplitLines(a + "\n" + b + "\n") == [a, b]
  {
    SplitLinesCons(b, []);
    assert b + "\n" + [] == b + "\n";
    SplitLinesCons(a, b + "\n");
    assert a + "\n" + b + "\n" == a + "\n" + (b + "\n");
  }

  // -------------------------------------------------------------------- lower

  function LowerChar(c: char): (r: char)
    ensures !('A' <= r <= 'Z')
    ensures 'a' <= r <= 'z' ==> 'a' <= c <= 'z' || 'A' <= c <= 'Z'
  {
    if 'A' <= c <= 'Z' then (c as int + 32) as char else c
  }

  /** Python's `str.lower()` on ASCII letters; other characters are kept. */
  function Lower(s: string): (r: string)
    ensures |r| == |s|
    decreases |s|
  {
    if s == [] then [] else Lower(s[..|s| - 1]) + [LowerChar(s[|s| - 1])]
  }

  /** Lower-casing works character by character: it leaves no capital letter
      and keeps every character that is not a capital. */
  lemma {:induction false} LowerFolds(s: string)
    ensures forall i | 0 <= i < |s| :: Lower(s)[i] == LowerChar(s[i])
    ensures forall i | 0 <= i < |s| :: !('A' <= Lower(s)[i] <= 'Z')
    ensures forall i | 0 <= i < |s| && !('A' <= s[i] <= 'Z') :: Lower(s)[i] == s[i]
    decreases |s|
  {
    if s != [] {
      var front := s[..|s| - 1];
      LowerFolds(front);
      forall i | 0 <= i < |s|
        ensures Lower(s)[i] == LowerChar(s[i])
      {
        if i < |s| - 1 {
          assert Lower(s)[i] == Lower(front)[i];
          assert front[i] == s[i];
        }
      }
    }
  }

  // ---------------------------------------------------------------- int(str)

  predicate IsDigit(c: char) {
    '0' <= c <= '9'
  }

  /** Decimal digits in which every underscore stands between two digits, the
      digit string Python's `int()` accepts in base 10. */
  predicate IsDigitGroups(s: string) {
    && |s| > 0
    && forall k | 0 <= k < |s| ::
         || IsDigit(s[k])
         || (s[k] == '_' && 0 < k < |s| - 1 && IsDigit(s[k - 1]) && IsDigit(s[k + 1]))
  }

  /** The value of a digit string, ignoring the underscores. */
  function DigitsValue(s: string): nat
    decreases |s|
  {
    if s == [] then 0
    else
      var c := s[|s| - 1];
      if IsDigit(c) then DigitsValue(s[..|s| - 1]) * 10 + (c as int - '0' as int)
      else DigitsValue(s[..|s| - 1])
  }

  /** A base-10 integer literal without surrounding whitespace: an optional sign
      followed by digit groups. */
  function IntLiteral(t: string): (r: Option<int>)
    ensures r.Some? ==> |t| > 0 && (IsDigit(t[0]) || t[0] == '+' || t[0] == '-')
    ensures r.Some? ==> IsDigit(t[|t| - 1])
  {
    if t != [] && (t[0] == '+' || t[0] == '-') then
      if IsDigitGroups(t[1..]) then
        var v: int := DigitsValue(t[1..]);
        Some(if t[0] == '-' then -v else v)
      else None
    else if IsDigitGroups(t) then Some(DigitsValue(t))
    else None
  }

  /** Python's `int(s)`: `None` stands for the `ValueError` it raises. A blank
      string is never a number. */
  function PyInt(s: string): (r: Option<int>)
    ensures r.Some? ==> Strip(s) != []
  {
    IntLiteral(Strip(s))
  }

  function DigitChar(d: nat): (c: char)
    requires d < 10
    ensures IsDigit(c) && c as int - '0' as int == d
  {
    ('0' as int + d) as char
  }

  /** Python's `str(n)` for a natural number. */
  function NatDecimal(n: nat): (s: string)
    ensures |s| > 0
    ensures forall k | 0 <= k < |s| :: IsDigit(s[k])
  {
    if n < 10 then [DigitChar(n)] else NatDecimal(n / 10) + [DigitChar(n % 10)]
  }

  /** Python's `str(n)` for an integer. */
  function Decimal(n: int): string {
    if n < 0 then "-" + NatDecimal(-n) else NatDecimal(n)
  }

  lemma {:induction false} NatDecimalValue(n: nat)
    ensures DigitsValue(NatDecimal(n)) == n
  {
    if n >= 10 {
      NatDecimalValue(n / 10);
      var s := NatDecimal(n);
      assert s[..|s| - 1] == NatDecimal(n / 10);
    }
  }

  lemma DecimalLiteral(n: int)
    ensures IntLiteral(Decimal(n)) == Some(n)
  {
    var m := if n < 0 then -n else n;
    var digits := NatDecimal(m);
    NatDecimalValue(m);
    assert IsDigitGroups(digits);
    if n < 0 {
      assert Decimal(n)[1..] == digits;
    } else {
      assert IsDigit(digits[0]);
    }
  }

  /** `int` reads back what `str` writes. */
  lemma DecimalRoundTrip(n: int)
    ensures PyInt(Decimal(n)) == Some(n)
  {
    DecimalLiteral(n);
    var s := Decimal(n);
    var digits := NatDecimal(if n < 0 then -n else n);
    assert s[|s| - 1] == digits[|digits| - 1];
    assert IsDigit(s[|s| - 1]);
    assert s[0] == '-' || IsDigit(s[0]);
    StripKeeps(s);
  }

  // -------------------------------------------------------- ordering of names

  /** Python's `a <= b` on strings: lexicographic by code point, a proper prefix
      coming first. */
  predicate LexLe(a: string, b: string)
    ensures a <= b ==> LexLe(a, b)
    decreases |a|
  {
    a == [] || (b != [] && (a[0] < b[0] || (a[0] == b[0] && LexLe(a[1..], b[1..]))))
  }

  lemma {:induction false} LexLeTotal(a: string, b: string)
    ensures LexLe(a, b) || LexLe(b, a)
    decreases |a|
  {
    if a != [] && b != [] && a[0] == b[0] {
      LexLeTotal(a[1..], b[1..]);
    }
  }

  lemma {:induction false} LexLeTransitive(a: string, b: string, c: string)
    requires LexLe(a, b) && LexLe(b, c)
    ensures LexLe(a, c)
    decreases |a|
  {
    if a != [] && a[0] == b[0] && b[0] == c[0] {
      LexLeTransitive(a[1..], b[1..], c[1..]);
    }
  }
}
