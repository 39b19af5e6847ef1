/** Shared vocabulary for the puzzle programs: optional values, the
    outcome of a computation that may panic, and the parts of Rust's
    standard library the programs lean on (integer parsing and display,
    `char::is_whitespace`, `str::trim`). */
module Common {

  datatype Option<T> = None | Some(value: T)

  /** The result of a Rust computation that either returns a value or
      aborts the program with a panic (a failed `assert!`, an `unwrap` of
      `None`/`Err`, an explicit `panic!`). */
  datatype Outcome<T> = Returns(value: T) | Panics

  /** `usize` and `isize` are 64 bits wide. */
  const USIZE_LIMIT: nat := 0x1_0000_0000_0000_0000
  const ISIZE_MAX: int := 0x7fff_ffff_ffff_ffff
  const ISIZE_MIN: int := -0x8000_0000_0000_0000

  predicate IsUsize(n: int) { 0 <= n < USIZE_LIMIT }
  predicate IsIsize(n: int) { ISIZE_MIN <= n <= ISIZE_MAX }

  /** `isize::abs`: the magnitude of a signed integer. */
  function Abs(a: int): (r: nat)
    ensures r == a || r == -a
  {
    if a < 0 then -a else a
  }

  // ---------------------------------------------------------------------
  // Decimal digits

  predicate IsDigit(c: char) { '0' <= c <= '9' }

  predicate AllDigits(s: string) { forall i :: 0 <= i < |s| ==> IsDigit(s[i]) }

  function DigitValue(c: char): nat
    requires IsDigit(c)
  {
    (c as int - '0' as int) as nat
  }

  function DigitChar(d: nat): (c: char)
    requires d < 10
    ensures IsDigit(c) && DigitValue(c) == d
  {
    ('0' as int + d) as char
  }

  /** The number a string of decimal digits denotes (most significant first). */
  function DigitsValue(s: string): nat
    requires AllDigits(s)
  {
    if s == [] then 0 else DigitsValue(s[..|s| - 1]) * 10 + DigitValue(s[|s| - 1])
  }

  /** `str::parse::<usize>`: an optional `+`, then at least one decimal
      digit, and a value that fits in 64 bits. */
  function ParseUsize(s: string): (r: Option<nat>)
    ensures r.Some? ==> IsUsize(r.value)
  {
    var digits := if |s| > 0 && s[0] == '+' then s[1..] else s;
    if |digits| > 0 && AllDigits(digits) && DigitsValue(digits) < USIZE_LIMIT
    then Some(DigitsValue(digits))
    else None
  }

  /** `str::parse::<isize>`: an optional `+` or `-`, then at least one
      decimal digit, and a value in the signed 64-bit range. */
  function ParseIsize(s: string): (r: Option<int>)
    ensures r.Some? ==> IsIsize(r.value)
  {
    var negative := |s| > 0 && s[0] == '-';
    var digits := if |s| > 0 && (s[0] == '+' || s[0] == '-') then s[1..] else s;
    if |digits| == 0 || !AllDigits(digits) then None
    else
      var magnitude: int := DigitsValue(digits);
      var v := if negative then -magnitude else magnitude;
      if IsIsize(v) then Some(v) else None
  }

  /** `Display` for unsigned integers: decimal, no leading zeros. */
  function NatToString(n: nat): (s: string)
    ensures |s| > 0 && AllDigits(s)
  {
    if n < 10 then [DigitChar(n)] else NatToString(n / 10) + [DigitChar(n % 10)]
  }

  /** `Display` for signed integers. */
  function IntToString(i: int): string
  {
    if i < 0 then "-" + NatToString(-i) else NatToString(i)
  }

  lemma {:induction false} DigitsValueOfDisplay(n: nat)
    ensures DigitsValue(NatToString(n)) == n
  {
    if n >= 10 {
      var s := NatToString(n);
      DigitsValueOfDisplay(n / 10);
      assert s[..|s| - 1] == NatToString(n / 10);
    }
  }

  /** Parsing what `Display` wrote for a `usize` gives the number back. */
  lemma ParseUsizeOfDisplay(n: nat)
    requires IsUsize(n)
    ensures ParseUsize(NatToString(n)) == Some(n)
  {
    DigitsValueOfDisplay(n);
  }

  /** Parsing what `Display` wrote for an `isize` gives the number back. */
  lemma ParseIsizeOfDisplay(i: int)
    requires IsIsize(i)
    ensures ParseIsize(IntToString(i)) == Some(i)
  {
    var s := IntToString(i);
    if i < 0 {
      DigitsValueOfDisplay(-i);
      assert s[0] == '-' && s[1..] == NatToString(-i);
    } else {
      DigitsValueOfDisplay(i);
      assert s == NatToString(i) && IsDigit(s[0]);
    }
  }

  lemma DigitsValueAppend(s: string, c: char)
    requires AllDigits(s) && IsDigit(c)
    ensures AllDigits(s + [c]) && DigitsValue(s + [c]) == DigitsValue(s) * 10 + DigitValue(c)
  {
    assert (s + [c])[..|s|] == s;
  }

  // ---------------------------------------------------------------------
  // Whitespace

  /** `char::is_whitespace`: the Unicode White_Space property. */
  predicate IsWhitespace(c: char)
  {
    ('\U{9}' <= c <= '\U{D}') || c == ' ' || c == '\U{85}' || c == '\U{A0}'
    || c == '\U{1680}' || ('\U{2000}' <= c <= '\U{200A}') || c == '\U{2028}'
    || c == '\U{2029}' || c == '\U{202F}' || c == '\U{205F}' || c == '\U{3000}'
  }

  /** `s.trim().len() == 0`: the line holds nothing but whitespace. */
  predicate IsBlank(s: string)
  {
    forall i :: 0 <= i < |s| ==> IsWhitespace(s[i])
  }

  /** `str::trim_end`. */
  function TrimEnd(s: string): (t: string)
    ensures |t| <= |s| && t == s[..|t|]
    ensures forall i :: |t| <= i < |s| ==> IsWhitespace(s[i])
    ensures |t| > 0 ==> !IsWhitespace(t[|t| - 1])
  {
    if s == [] || !IsWhitespace(s[|s| - 1]) then s else TrimEnd(s[..|s| - 1])
  }

  // ---------------------------------------------------------------------
  // Sums

  function Sum(s: seq<int>): int
  {
    if s == [] then 0 else Sum(s[..|s| - 1]) + s[|s| - 1]
  }

  function SumNat(s: seq<nat>): nat
  {
    if s == [] then 0 else SumNat(s[..|s| - 1]) + s[|s| - 1]
  }

  lemma {:induction false} SumNatAppend(s: seq<nat>, t: seq<nat>)
    ensures SumNat(s + t) == SumNat(s) + SumNat(t)
  {
    if t == [] {
      assert s + t == s;
    } else {
      var u := s + t;
      assert u[..|u| - 1] == s + t[..|t| - 1];
      assert u[|u| - 1] == t[|t| - 1];
      SumNatAppend(s, t[..|t| - 1]);
    }
  }

  /** Multiplying by a positive number keeps the order, and one more
      times `c` adds `c`. */
  lemma OrderedProducts(a: int, b: int, c: nat)
    ensures a <= b ==> a * c <= b * c
    ensures (a - 1) * c == a * c - c
  {
  }

  /** `a` is `q` whole `b`s and `m` more, with `m` below `b`: then `q`
      and `m` are the quotient and the remainder. */
  lemma DivUnique(a: nat, b: nat, q: nat, m: nat)
    requires b > 0 && m < b && a == q * b + m
    ensures a / b == q && a % b == m
  {
    var q', m' := a / b, a % b;
    assert a == q' * b + m';
    if q' < q {
      OrderedProducts(q' + 1, q, b);
      assert false;
    } else if q < q' {
      OrderedProducts(q + 1, q', b);
      assert false;
    }
  }
}
