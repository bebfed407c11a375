/** The widths the script works with: parsing the `--widths` option
    (`parse_widths`) and deriving the widths to produce for one image
    (`target_widths`). */
module Widths {
  import opened Common
  import opened Text
  import opened Errors

  predicate StrictlyAscending(xs: seq<int>) {
    forall i, j | 0 <= i < j < |xs| :: xs[i] < xs[j]
  }

  // ------------------------------------------------------ sorted(set(...))

  function Insert(x: int, xs: seq<int>): (r: seq<int>)
    requires StrictlyAscending(xs)
    ensures StrictlyAscending(r)
    ensures forall y :: y in r <==> y == x || y in xs
    decreases |xs|
  {
    if xs == [] then [x]
    else if x < xs[0] then [x] + xs
    else if x == xs[0] then xs
    else
      var rest := Insert(x, xs[1..]);
      assert forall i | 0 <= i < |rest| :: xs[0] < rest[i] by {
        forall i | 0 <= i < |rest|
          ensures xs[0] < rest[i]
        {
          var y := rest[i];
          assert y in rest;
          if y != x {
            var k :| 0 <= k < |xs[1..]| && xs[1..][k] == y;
            assert y == xs[k + 1];
          }
        }
      }
      assert xs == [xs[0]] + xs[1..];
      [xs[0]] + rest
  }

  /** Python's `sorted(set(xs))`: the distinct elements of `xs` in ascending order. */
  function SortedDistinct(xs: seq<int>): (r: seq<int>)
    ensures StrictlyAscending(r)
    ensures forall y :: y in r <==> y in xs
    ensures |r| <= |xs|
    decreases |xs|
  {
    if xs == [] then []
    else
      var prefix := xs[..|xs| - 1];
      assert xs == prefix + [xs[|xs| - 1]];
      var r := Insert(xs[|xs| - 1], SortedDistinct(prefix));
      assert |r| <= |xs| by {
        SortedDistinctShort(prefix, xs[|xs| - 1], SortedDistinct(prefix));
      }
      r
  }

  lemma {:induction false} InsertLength(x: int, xs: seq<int>)
    requires StrictlyAscending(xs)
    ensures |Insert(x, xs)| <= |xs| + 1
    decreases |xs|
  {
    if xs != [] && x > xs[0] {
      InsertLength(x, xs[1..]);
    }
  }

  lemma SortedDistinctShort(prefix: seq<int>, x: int, sorted: seq<int>)
    requires StrictlyAscending(sorted) && |sorted| <= |prefix|
    ensures |Insert(x, sorted)| <= |prefix| + 1
  {
    InsertLength(x, sorted);
  }

  /** A strictly ascending sequence is determined by its elements, so
      `SortedDistinct` is the one order `sorted(set(...))` can produce. */
  lemma {:induction false} AscendingUnique(xs: seq<int>, ys: seq<int>)
    requires StrictlyAscending(xs) && StrictlyAscending(ys)
    requires forall x :: x in xs <==> x in ys
    ensures xs == ys
    decreases |xs|
  {
    if xs != [] && ys != [] {
      assert xs[0] in ys && ys[0] in xs;
      assert xs[0] == ys[0];
      forall x
        ensures x in xs[1..] <==> x in ys[1..]
      {
        assert x in xs[1..] <==> x in xs && x != xs[0];
        assert x in ys[1..] <==> x in ys && x != ys[0];
      }
      AscendingUnique(xs[1..], ys[1..]);
      assert xs == [xs[0]] + xs[1..] && ys == [ys[0]] + ys[1..];
    } else {
      EmptyTogether(xs, ys);
    }
  }

  lemma EmptyTogether(xs: seq<int>, ys: seq<int>)
    requires forall x :: x in xs <==> x in ys
    ensures xs == [] <==> ys == []
  {
    if xs != [] {
      var x := xs[0];
      assert x in xs;
    }
    if ys != [] {
      var y := ys[0];
      assert y in ys;
    }
  }

  // ------------------------------------------------------------ parse_widths

  /** A part that `parse_widths` skips: empty or whitespace only. */
  predicate Blank(part: string) {
    Strip(part) == []
  }

  /** Some non-blank part of the option is not an integer. */
  predicate Unparsable(parts: seq<string>) {
    exists i | 0 <= i < |parts| :: !Blank(parts[i]) && PyInt(Strip(parts[i])).None?
  }

  /** Some non-blank part of the option is the integer `n`. */
  predicate Mentions(parts: seq<string>, n: int) {
    exists i | 0 <= i < |parts| :: !Blank(parts[i]) && PyInt(Strip(parts[i])) == Some(n)
  }

  lemma UnparsableSnoc(prefix: seq<string>, part: string)
    ensures Unparsable(prefix + [part]) <==>
              Unparsable(prefix) || (!Blank(part) && PyInt(Strip(part)).None?)
  {
    var parts := prefix + [part];
    assert forall i | 0 <= i < |prefix| :: parts[i] == prefix[i];
    assert parts[|prefix|] == part;
  }

  lemma MentionsSnoc(prefix: seq<string>, part: string, n: int)
    ensures Mentions(prefix + [part], n) <==>
              Mentions(prefix, n) || (!Blank(part) && PyInt(Strip(part)) == Some(n))
  {
    var parts := prefix + [part];
    assert forall i | 0 <= i < |prefix| :: parts[i] == prefix[i];
    assert parts[|prefix|] == part;
  }

  /** The comprehension `w for w in widths if w > 0`. */
  function Positive(values: seq<int>): (r: seq<int>)
    ensures forall w :: w in r <==> w in values && w > 0
    decreases |values|
  {
    if values == [] then []
    else
      var front := Positive(values[..|values| - 1]);
      var w := values[|values| - 1];
      assert values == values[..|values| - 1] + [w];
      if w > 0 then front + [w] else front
  }

  /** The integers in the non-blank parts, in order; `None` when one of them is
      not an integer. */
  function ParsedValues(parts: seq<string>): (r: Option<seq<int>>)
    ensures r.Some? ==> |r.value| <= |parts|
    decreases |parts|
  {
    if parts == [] then Some([])
    else
      var prefix := parts[..|parts| - 1];
      var part := parts[|parts| - 1];
      match ParsedValues(prefix)
      case None => None
      case Some(vs) =>
        if Blank(part) then Some(vs)
        else
          match PyInt(Strip(part))
          case None => None
          case Some(v) => Some(vs + [v])
  }

  /** The loop fails exactly when a non-blank part is not an integer, and
      otherwise collects exactly the integers written in the non-blank parts. */
  lemma {:induction false} ParsedValuesMeaning(parts: seq<string>)
    ensures ParsedValues(parts).None? <==> Unparsable(parts)
    ensures ParsedValues(parts).Some? ==> forall n :: n in ParsedValues(parts).value <==> Mentions(parts, n)
    decreases |parts|
  {
    if parts != [] {
      var prefix := parts[..|parts| - 1];
      var part := parts[|parts| - 1];
      assert parts == prefix + [part];
      ParsedValuesMeaning(prefix);
      UnparsableSnoc(prefix, part);
      forall n
        ensures Mentions(parts, n) <==> Mentions(prefix, n) || (!Blank(part) && PyInt(Strip(part)) == Some(n))
      {
        MentionsSnoc(prefix, part, n);
      }
    }
  }

  /** The result of `parse_widths(raw)`: the distinct positive integers among
      the comma-separated parts, ascending; blank parts are ignored, a part that
      is not an integer fails with the raw text, and an empty result fails with
      "no valid widths". */
  function WidthsOf(raw: string): (r: Result<seq<int>, Error>)
    ensures r.Ok? ==> |r.value| > 0 && StrictlyAscending(r.value)
    ensures r.Ok? ==> forall i | 0 <= i < |r.value| :: r.value[i] > 0
    ensures r.Ok? || r == Err(InvalidWidths(raw)) || r == Err(NoValidWidths)
  {
    var parts := Split(raw, ',');
    match ParsedValues(parts)
    case None => Err(InvalidWidths(raw))
    case Some(values) =>
      var widths := SortedDistinct(Positive(values));
      if widths == [] then
        Err(NoValidWidths)
      else
        assert forall i | 0 <= i < |widths| :: widths[i] > 0 by {
          forall i | 0 <= i < |widths| ensures widths[i] > 0 {
            assert widths[i] in widths;
          }
        }
        Ok(widths)
  }

  /** What `parse_widths` accepts and returns: exactly the positive integers
      written in the non-blank parts; it fails with the raw text exactly when a
      non-blank part is not an integer, and with "no valid widths" exactly when
      every part is blank or a non-positive integer. */
  lemma WidthsOfMeaning(raw: string)
    ensures WidthsOf(raw).Ok? ==> forall n :: n in WidthsOf(raw).value <==> n > 0 && Mentions(Split(raw, ','), n)
    ensures WidthsOf(raw) == Err(InvalidWidths(raw)) <==> Unparsable(Split(raw, ','))
    ensures WidthsOf(raw) == Err(NoValidWidths) <==>
              !Unparsable(Split(raw, ',')) && forall n :: Mentions(Split(raw, ','), n) ==> n <= 0
  {
    var parts := Split(raw, ',');
    ParsedValuesMeaning(parts);
    if ParsedValues(parts).Some? {
      var values := ParsedValues(parts).value;
      var positive := Positive(values);
      var widths := SortedDistinct(positive);
      assert forall n :: n in widths <==> n > 0 && Mentions(parts, n) by {
        forall n ensures n in widths <==> n > 0 && Mentions(parts, n) {
          assert n in widths <==> n in positive;
          assert n in positive <==> n in values && n > 0;
        }
      }
      if widths != [] {
        var w := widths[0];
        assert w in widths;
      }
    }
  }

  /** One more part through the loop of `parse_widths`. */
  lemma ParsedValuesStep(parts: seq<string>, i: nat)
    requires i < |parts|
    ensures ParsedValues(parts[..i + 1]) ==
      match ParsedValues(parts[..i])
      case None => None
      case Some(vs) =>
        if Blank(parts[i]) then Some(vs)
        else match PyInt(Strip(parts[i]))
          case None => None
          case Some(v) => Some(vs + [v])
  {
    assert parts[..i + 1][..i] == parts[..i];
  }

  /** `parse_widths`: the loop over the comma-separated parts, then the filter,
      the sort and the emptiness check. */
  method ParseWidths(raw: string) returns (r: Result<seq<int>, Error>)
    ensures r == WidthsOf(raw)
  {
    var parts := Split(raw, ',');
    var widths: seq<int> := [];
    for i := 0 to |parts|
      invariant ParsedValues(parts[..i]) == Some(widths)
    {
      ParsedValuesStep(parts, i);
      var part := Strip(parts[i]);
      if part == [] {
        continue;
      }
      match PyInt(part) {
        case None =>
          ParsedValuesMeaning(parts);
          assert !Blank(parts[i]) && PyInt(Strip(parts[i])).None?;
          return Err(InvalidWidths(raw));
        case Some(n) =>
          widths := widths + [n];
      }
    }
    assert parts[..|parts|] == parts;
    var kept := SortedDistinct(Positive(widths));
    if kept == [] {
      return Err(NoValidWidths);
    }
    return Ok(kept);
  }

  // ----------------------------------------------------------- target_widths

  /** Python's `max(xs)`. */
  function Max(xs: seq<int>): (m: int)
    requires |xs| > 0
    ensures m in xs
    ensures forall x | x in xs :: x <= m
    decreases |xs|
  {
    if |xs| == 1 then xs[0]
    else
      var m := Max(xs[1..]);
      assert forall x | x in xs :: x == xs[0] || x in xs[1..];
      if xs[0] >= m then xs[0] else m
  }

  /** The largest of an ascending sequence is its last element. */
  lemma MaxOfAscending(xs: seq<int>)
    requires |xs| > 0 && StrictlyAscending(xs)
    ensures Max(xs) == xs[|xs| - 1]
  {
    var m := Max(xs);
    var k :| 0 <= k < |xs| && xs[k] == m;
    assert xs[|xs| - 1] in xs;
  }

  /** The comprehension `[w for w in requested if w < original_width]`. */
  function Below(requested: seq<int>, original: int): (r: seq<int>)
    ensures forall w :: w in r <==> w in requested && w < original
    decreases |requested|
  {
    if requested == [] then []
    else
      var front := Below(requested[..|requested| - 1], original);
      var w := requested[|requested| - 1];
      assert requested == requested[..|requested| - 1] + [w];
      if w < original then front + [w] else front
  }

  function Min(a: int, b: int): int {
    if a <= b then a else b
  }

  /** `target_widths(original, requested)`: the requested widths below the
      image's own width, plus the image's width capped at the largest requested
      width, without repetition and ascending. The widest result is exactly
      `min(original, max(requested))`. */
  function TargetWidths(original: int, requested: seq<int>): (r: seq<int>)
    requires |requested| > 0
    ensures |r| > 0 && StrictlyAscending(r)
    ensures r[|r| - 1] == Min(original, Max(requested))
  {
    var top := Max(requested);
    var cap := if original <= top then original else top;
    var kept := Below(requested, original);
    assert forall w | w in kept :: w <= cap;
    var r := SortedDistinct(kept + [cap]);
    CappedTop(kept, cap, r);
    r
  }

  /** The cap tops the result: every kept width is below the image's width and
      at most the largest request. */
  lemma CappedTop(kept: seq<int>, cap: int, r: seq<int>)
    requires forall w | w in kept :: w <= cap
    requires StrictlyAscending(r)
    requires forall w :: w in r <==> w in kept + [cap]
    ensures |r| > 0 && r[|r| - 1] == cap
  {
    assert cap in kept + [cap];
    forall w | w in r
      ensures w <= cap
    {
      assert w in kept + [cap];
    }
    LastIsLargest(r, cap);
  }

  /** In an ascending sequence, an element no other element exceeds is the last. */
  lemma LastIsLargest(r: seq<int>, top: int)
    requires StrictlyAscending(r) && top in r
    requires forall w | w in r :: w <= top
    ensures |r| > 0 && r[|r| - 1] == top
  {
    var k :| 0 <= k < |r| && r[k] == top;
    assert r[|r| - 1] in r;
  }

  /** No target width exceeds the image or the largest request, and a width is a
      target exactly when it is that cap or a requested width below the image's. */
  lemma TargetWidthsMeaning(original: int, requested: seq<int>)
    requires |requested| > 0
    ensures forall w | w in TargetWidths(original, requested) :: w <= original && w <= Max(requested)
    ensures forall w :: w in TargetWidths(original, requested) <==>
              w == Min(original, Max(requested)) || (w in requested && w < original)
  {
    var r := TargetWidths(original, requested);
    var cap := Min(original, Max(requested));
    var kept := Below(requested, original);
    assert r == SortedDistinct(kept + [cap]);
    forall w
      ensures w in r <==> w == cap || (w in requested && w < original)
    {
      assert w in r <==> w in kept + [cap];
    }
  }

  /** An image wider than every requested width gets exactly the requested widths. */
  lemma TargetWidthsOfLargeImage()
    ensures TargetWidths(2000, [320, 640, 960, 1600]) == [320, 640, 960, 1600]
  {
    var requested := [320, 640, 960, 1600];
    MaxOfAscending(requested);
    TargetWidthsMeaning(2000, requested);
    var r := TargetWidths(2000, requested);
    forall w
      ensures w in r <==> w in requested
    {
      assert w in requested ==> w < 2000;
    }
    AscendingUnique(r, requested);
  }

  /** A narrower image keeps the smaller requested widths and adds its own width. */
  lemma TargetWidthsOfSmallImage()
    ensures TargetWidths(500, [320, 640, 960, 1600]) == [320, 500]
  {
    var requested := [320, 640, 960, 1600];
    MaxOfAscending(requested);
    TargetWidthsMeaning(500, requested);
    var r := TargetWidths(500, requested);
    forall w
      ensures w in r <==> w in [320, 500]
    {
      assert w in requested && w < 500 <==> w == 320;
    }
    AscendingUnique(r, [320, 500]);
  }
}
