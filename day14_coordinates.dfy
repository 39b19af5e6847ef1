/** Day 14: regolith reservoir. Only the coordinate parser is modelled:
    `x,y` with both fields read as `usize` and then cast to `isize`. */
module Coordinates {
  import opened Common

  // ---------------------------------------------------------------------
  // `str::split` on a single character

  /** The pieces `str::split(sep)` yields: always at least one, and the
      separator itself never appears inside a piece. */
  function Split(s: string, sep: char): (r: seq<string>)
    ensures |r| >= 1
    ensures forall i :: 0 <= i < |r| ==> sep !in r[i]
  {
    if s == [] then [""]
    else
      var rest := Split(s[1..], sep);
      if s[0] == sep then [""] + rest
      else [[s[0]] + rest[0]] + rest[1..]
  }

  /** Gluing the pieces back together with the separator. */
  function Join(pieces: seq<string>, sep: char): string
    requires |pieces| >= 1
  {
    if |pieces| == 1 then pieces[0] else pieces[0] + [sep] + Join(pieces[1..], sep)
  }

  /** Splitting loses nothing: joining the pieces gives the input back. */
  lemma {:induction false} JoinSplit(s: string, sep: char)
    ensures Join(Split(s, sep), sep) == s
  {
    if s != [] {
      var rest := Split(s[1..], sep);
      JoinSplit(s[1..], sep);
      if s[0] != sep {
        var r := Split(s, sep);
        if |rest| == 1 {
          assert r == [[s[0]] + rest[0]];
        } else {
          assert r[1..] == rest[1..];
          assert Join(r, sep) == [s[0]] + rest[0] + [sep] + Join(rest[1..], sep);
        }
      }
    }
  }

  /** A string without the separator is a single piece. */
  lemma {:induction false} SplitWithoutSep(s: string, sep: char)
    requires sep !in s
    ensures Split(s, sep) == [s]
  {
    if s != [] {
      SplitWithoutSep(s[1..], sep);
      assert [s[0]] + s[1..] == s;
    }
  }

  /** A separator between `a` and `b` splits exactly there. */
  lemma {:induction false} SplitAround(a: string, b: string, sep: char)
    ensures Split(a + [sep] + b, sep) == Split(a, sep) + Split(b, sep)
  {
    var s := a + [sep] + b;
    if a == [] {
      assert s[0] == sep && s[1..] == b;
    } else {
      assert s[0] == a[0] && s[1..] == a[1..] + [sep] + b;
      SplitAround(a[1..], b, sep);
      var ra := Split(a[1..], sep);
      var rb := Split(b, sep);
      var rs := Split(s[1..], sep);
      assert rs == ra + rb;
      if a[0] != sep {
        var head := [a[0]] + ra[0];
        assert Split(a, sep) == [head] + ra[1..];
        assert rs[0] == ra[0] && rs[1..] == ra[1..] + rb;
        assert Split(s, sep) == [head] + (ra[1..] + rb);
        assert [head] + (ra[1..] + rb) == [head] + ra[1..] + rb;
      }
    }
  }

  /** A string holding the separator yields at least two pieces. */
  lemma {:induction false} SplitWithSep(s: string, sep: char)
    requires sep in s
    ensures |Split(s, sep)| >= 2
  {
    if s[0] != sep {
      SplitWithSep(s[1..], sep);
    }
  }

  // ---------------------------------------------------------------------
  // The parser

  datatype Vector2 = Vector2(x: int, y: int)

  datatype ParseResult = Ok(v: Vector2) | Err(msg: string)

  const FAILED_X: string := "Failed to parse x"
  const NO_X: string := "No x in str"
  const FAILED_Y: string := "Failed to parse y"
  const NO_Y: string := "No y in str"

  /** `usize as isize`: values above `isize::MAX` wrap to negatives. */
  function AsIsize(n: nat): (r: int)
    requires IsUsize(n)
    ensures IsIsize(r)
    ensures r % USIZE_LIMIT == n % USIZE_LIMIT
  {
    if n <= ISIZE_MAX then n else n - USIZE_LIMIT
  }

  /** `Vector2::from_str`: the first piece of a split on `,` is x, the
      second is y, each parsed as `usize` and cast to `isize`; further
      pieces are never looked at. */
  function FromStr(input: string): (r: ParseResult)
    ensures r != Err(NO_X)
    ensures r.Ok? ==> IsIsize(r.v.x) && IsIsize(r.v.y)
    ensures r.Err? ==> r.msg in {FAILED_X, FAILED_Y, NO_Y}
  {
    var pieces := Split(input, ',');
    if |pieces| < 1 then Err(NO_X)
    else match ParseUsize(pieces[0])
      case None => Err(FAILED_X)
      case Some(x) =>
        if |pieces| < 2 then Err(NO_Y)
        else match ParseUsize(pieces[1])
          case None => Err(FAILED_Y)
          case Some(y) => Ok(Vector2(AsIsize(x), AsIsize(y)))
  }

  /** What the source evidently intends: coordinates are never negative,
      so a field above `isize::MAX` is refused as unparsable instead of
      wrapping. */
  function FromStrFixed(input: string): (r: ParseResult)
    ensures r.Ok? ==> 0 <= r.v.x <= ISIZE_MAX && 0 <= r.v.y <= ISIZE_MAX
    ensures r.Err? ==> r.msg in {FAILED_X, FAILED_Y, NO_Y}
  {
    var pieces := Split(input, ',');
    match ParseUsize(pieces[0])
    case None => Err(FAILED_X)
    case Some(x) =>
      if x > ISIZE_MAX then Err(FAILED_X)
      else if |pieces| < 2 then Err(NO_Y)
      else match ParseUsize(pieces[1])
        case None => Err(FAILED_Y)
        case Some(y) => if y > ISIZE_MAX then Err(FAILED_Y) else Ok(Vector2(x, y))
  }

  /** How a point is written in the scan: `x,y` in decimal. */
  function ToStr(x: nat, y: nat): string
  {
    NatToString(x) + "," + NatToString(y)
  }

  /** Digits contain no comma. */
  lemma NoCommaInDigits(n: nat)
    ensures ',' !in NatToString(n)
  {
  }

  lemma SplitToStr(x: nat, y: nat)
    ensures Split(ToStr(x, y), ',') == [NatToString(x), NatToString(y)]
  {
    NoCommaInDigits(x);
    NoCommaInDigits(y);
    SplitAround(NatToString(x), NatToString(y), ',');
    SplitWithoutSep(NatToString(x), ',');
    SplitWithoutSep(NatToString(y), ',');
  }

  /** Parsing a written point gives the point back, as long as both
      coordinates fit in an `isize`. */
  lemma FromStrOfToStr(x: nat, y: nat)
    requires x <= ISIZE_MAX && y <= ISIZE_MAX
    ensures FromStr(ToStr(x, y)) == Ok(Vector2(x, y))
    ensures FromStrFixed(ToStr(x, y)) == Ok(Vector2(x, y))
  {
    SplitToStr(x, y);
    ParseUsizeOfDisplay(x);
    ParseUsizeOfDisplay(y);
  }

  /** As written, a field between `isize::MAX` and `usize::MAX` is
      accepted and comes back negative. */
  lemma LargeCoordinateWraps()
    ensures FromStr(ToStr(ISIZE_MAX + 1, 0)) == Ok(Vector2(ISIZE_MIN, 0))
    ensures FromStrFixed(ToStr(ISIZE_MAX + 1, 0)) == Err(FAILED_X)
  {
    SplitToStr(ISIZE_MAX + 1, 0);
    ParseUsizeOfDisplay(ISIZE_MAX + 1);
    ParseUsizeOfDisplay(0);
  }

  /** The two parsers agree on every input whose result the fixed one
      accepts, and the fixed one refuses exactly the inputs the written
      one turns into a negative coordinate. */
  lemma FixedAgrees(input: string)
    ensures FromStrFixed(input).Ok? ==> FromStr(input) == FromStrFixed(input)
    ensures FromStr(input).Ok? && FromStr(input).v.x >= 0 && FromStr(input).v.y >= 0
      ==> FromStrFixed(input) == FromStr(input)
  {
  }

  /** Input without a comma: an unparsable x is reported first, otherwise
      the missing y. */
  lemma WithoutComma(input: string)
    requires ',' !in input
    ensures ParseUsize(input).None? ==> FromStr(input) == Err(FAILED_X)
    ensures ParseUsize(input).Some? ==> FromStr(input) == Err(NO_Y)
  {
    SplitWithoutSep(input, ',');
  }

  /** A negative x (a leading `-`) is refused as unparsable. */
  lemma NegativeXRefused(input: string)
    requires |input| > 0 && input[0] == '-'
    ensures FromStr(input) == Err(FAILED_X)
  {
    var p := Split(input, ',')[0];
    assert p[0] == '-' by {
      if input[1..] == [] {
      } else {
        assert p == [input[0]] + Split(input[1..], ',')[0];
      }
    }
    assert !IsDigit(p[0]);
  }

  /** Anything after a second comma is ignored. */
  lemma ExtraFieldsIgnored(input: string, rest: string)
    requires ',' in input
    ensures FromStr(input + "," + rest) == FromStr(input)
  {
    SplitAround(input, rest, ',');
    SplitWithSep(input, ',');
    var a := Split(input, ',');
    var b := Split(input + "," + rest, ',');
    assert b[0] == a[0] && b[1] == a[1];
  }

  lemma Example()
    ensures FromStr("498,4") == Ok(Vector2(498, 4))
  {
    assert ToStr(498, 4) == "498,4" by {
      assert NatToString(498) == "498";
    }
    FromStrOfToStr(498, 4);
  }
}
