/** Reading an image's width from the report of `sips -g pixelWidth <image>`
    (the loop inside `sips_get_pixel_width`). */
module PixelWidth {
  import opened Common
  import opened Text
  import opened Errors

  const Key: string := "pixelWidth:"

  /** A report line that holds the width: once stripped, it starts with the key. */
  predicate IsWidthLine(line: string) {
    Key <= Strip(line)
  }

  /** Python's `s.split(sep, 1)[1]`: the text after the first `sep`. */
  function AfterFirst(s: string, sep: char): (r: string)
    requires sep in s
    ensures |r| < |s|
    decreases |s|
  {
    if s[0] == sep then s[1..] else AfterFirst(s[1..], sep)
  }

  /** What follows the first `sep` is a suffix of `s` right after a `sep`, and
      no `sep` comes before it. */
  lemma {:induction false} AfterFirstMeaning(s: string, sep: char)
    requires sep in s
    ensures var r := AfterFirst(s, sep);
      && r == s[|s| - |r|..]
      && s[|s| - |r| - 1] == sep
      && forall k | 0 <= k < |s| - |r| - 1 :: s[k] != sep
    decreases |s|
  {
    if s[0] != sep {
      assert sep in s[1..];
      AfterFirstMeaning(s[1..], sep);
      assert forall k | 1 <= k < |s| :: s[k] == s[1..][k - 1];
    }
  }

  /** On a width line the first colon is the one that ends the key, so the value
      is the text after the key. */
  lemma AfterKey(t: string)
    requires Key <= t
    ensures ':' in t && AfterFirst(t, ':') == t[|Key|..]
  {
    assert t[10] == Key[10] == ':';
    assert forall k | 0 <= k < 10 :: t[k] == Key[k] && Key[k] != ':';
    AfterFirstMeaning(t, ':');
    var r := AfterFirst(t, ':');
    var c := |t| - |r| - 1;
    assert t[c] == ':';
    assert c == 10;
  }

  /** `int(line.split(":", 1)[1].strip())` on a stripped width line; `int`'s
      `ValueError` becomes `PixelWidthNotInteger`. */
  function LineValue(line: string): (r: Result<int, Error>)
    requires IsWidthLine(line)
    ensures r.Err? ==> r.error.PixelWidthNotInteger?
  {
    var t := Strip(line);
    AfterKey(t);
    var value := Strip(AfterFirst(t, ':'));
    match PyInt(value)
    case Some(n) => Ok(n)
    case None => Err(PixelWidthNotInteger(value))
  }

  /** The value of the first width line of `lines`. */
  function FirstWidth(lines: seq<string>): (r: Result<int, Error>)
    ensures r.Err? ==> r.error == PixelWidthMissing || r.error.PixelWidthNotInteger?
    decreases |lines|
  {
    if lines == [] then Err(PixelWidthMissing)
    else if IsWidthLine(lines[0]) then LineValue(lines[0])
    else FirstWidth(lines[1..])
  }

  /** The scan fails with `PixelWidthMissing` exactly when no line is a width line. */
  lemma {:induction false} FirstWidthMissing(lines: seq<string>)
    ensures (forall i | 0 <= i < |lines| :: !IsWidthLine(lines[i])) <==>
              FirstWidth(lines) == Err(PixelWidthMissing)
    decreases |lines|
  {
    if lines != [] && !IsWidthLine(lines[0]) {
      FirstWidthMissing(lines[1..]);
      assert forall i | 1 <= i < |lines| :: lines[i] == lines[1..][i - 1];
    }
  }

  /** The scan returns the value of the first width line; later width lines are
      never looked at. */
  lemma {:induction false} FirstWidthIsFirst(lines: seq<string>, i: nat)
    requires i < |lines| && IsWidthLine(lines[i])
    requires forall j | 0 <= j < i :: !IsWidthLine(lines[j])
    ensures FirstWidth(lines) == LineValue(lines[i])
    decreases i
  {
    if i > 0 {
      assert !IsWidthLine(lines[0]);
      var rest := lines[1..];
      assert rest[i - 1] == lines[i];
      forall j | 0 <= j < i - 1
        ensures !IsWidthLine(rest[j])
      {
        assert rest[j] == lines[j + 1];
      }
      FirstWidthIsFirst(rest, i - 1);
    }
  }

  /** What `sips_get_pixel_width` returns for a report `text`. */
  function PixelWidthOf(text: string): (r: Result<int, Error>)
    ensures r.Err? ==> r.error == PixelWidthMissing || r.error.PixelWidthNotInteger?
    ensures text == [] ==> r == Err(PixelWidthMissing)
  {
    FirstWidth(SplitLines(text))
  }

  /** The scan of `sips_get_pixel_width`: strip each line, and return the value
      of the first one that starts with the key. */
  method ParsePixelWidth(text: string) returns (r: Result<int, Error>)
    ensures r == PixelWidthOf(text)
  {
    var lines := SplitLines(text);
    for i := 0 to |lines|
      invariant FirstWidth(lines[i..]) == FirstWidth(lines)
    {
      var line := Strip(lines[i]);
      if Key <= line {
        AfterKey(line);
        var value := Strip(AfterFirst(line, ':'));
        match PyInt(value) {
          case Some(n) => return Ok(n);
          case None => return Err(PixelWidthNotInteger(value));
        }
      }
      assert lines[i..][1..] == lines[i + 1..];
    }
    assert lines[|lines|..] == [];
    return Err(PixelWidthMissing);
  }

  /** `str(n)` is non-empty, has no surrounding whitespace and no line boundary. */
  lemma DecimalIsPlain(n: int)
    ensures |Decimal(n)| > 0
    ensures !IsSpace(Decimal(n)[0]) && !IsSpace(Decimal(n)[|Decimal(n)| - 1])
    ensures IsSingleLine(Decimal(n))
  {
    var digits := Decimal(n);
    var m := if n < 0 then -n else n;
    var ds := NatDecimal(m);
    assert digits[|digits| - 1] == ds[|ds| - 1];
    assert digits[0] == '-' || IsDigit(digits[0]);
    forall k | 0 <= k < |digits|
      ensures !IsLineBreak(digits[k])
    {
      if n < 0 && k > 0 {
        assert digits[k] == ds[k - 1];
      } else if n >= 0 {
        assert digits[k] == ds[k];
      }
    }
  }

  /** Stripping the indented width line leaves the key, a space and the digits. */
  lemma StrippedWidthLine(n: int)
    ensures Strip(SipsWidthLine(n)) == Key + " " + Decimal(n)
  {
    var digits := Decimal(n);
    var rest := Key + " " + digits;
    assert SipsWidthLine(n) == "  " + rest;
    DecimalIsPlain(n);
    assert rest[|rest| - 1] == digits[|digits| - 1];
    StripPadded("  ", rest);
  }

  /** The value after the key of a stripped width line is the width. */
  lemma KeyedValue(n: int)
    ensures Key <= Key + " " + Decimal(n)
    ensures Strip(AfterFirst(Key + " " + Decimal(n), ':')) == Decimal(n)
  {
    var digits := Decimal(n);
    var value := " " + digits;
    var rest := Key + value;
    assert rest == Key + " " + digits;
    AfterKey(rest);
    assert rest[|Key|..] == value;
    DecimalIsPlain(n);
    StripPadded(" ", digits);
  }

  /** The indented width line `sips` prints yields the width. */
  lemma WidthLineValue(n: int)
    ensures IsWidthLine(SipsWidthLine(n))
    ensures LineValue(SipsWidthLine(n)) == Ok(n)
  {
    StrippedWidthLine(n);
    KeyedValue(n);
    DecimalRoundTrip(n);
  }

  /** The report `sips` prints for an image: its path, then its width indented. */
  function SipsReportText(path: string, n: int): string {
    path + "\n" + SipsWidthLine(n) + "\n"
  }

  /** The width line of that report: `  pixelWidth: <n>`. */
  function SipsWidthLine(n: int): string {
    "  " + Key + " " + Decimal(n)
  }

  lemma SipsWidthLinePlain(n: int)
    ensures IsSingleLine(SipsWidthLine(n))
  {
    var digits := Decimal(n);
    var line := SipsWidthLine(n);
    DecimalIsPlain(n);
    forall k | 0 <= k < |line|
      ensures !IsLineBreak(line[k])
    {
      if k >= |line| - |digits| {
        assert line[k] == digits[k - (|line| - |digits|)];
      }
    }
  }

  /** The report splits into the path line and the width line. */
  lemma SipsReportLines(path: string, n: int)
    requires IsSingleLine(path)
    ensures SplitLines(SipsReportText(path, n)) == [path, SipsWidthLine(n)]
  {
    SipsWidthLinePlain(n);
    SplitTwoLines(path, SipsWidthLine(n));
  }

  /** The scan skips a first line that is not a width line. */
  lemma SecondLineWidth(a: string, b: string)
    requires !IsWidthLine(a) && IsWidthLine(b)
    ensures FirstWidth([a, b]) == LineValue(b)
  {
    assert [a, b][1..] == [b];
  }

  /** The report `sips` prints, the image's path on one line and its width
      indented on the next, yields the width. */
  lemma SipsReport(path: string, n: int)
    requires IsSingleLine(path)
    requires !IsWidthLine(path)
    ensures PixelWidthOf(SipsReportText(path, n)) == Ok(n)
  {
    SipsReportLines(path, n);
    WidthLineValue(n);
    SecondLineWidth(path, SipsWidthLine(n));
  }
}
