/**
 * Decimal text as the switcher reads and writes it: `big.Int.SetString(s, 10)` on the
 * `\d+` capture of the statistics parser, `strconv.Atoi` on HTTP path parameters and
 * `strconv.Itoa` on rule priorities.
 */
module Decimal {
  import opened Wrappers

  const MinInt64: int := -0x8000_0000_0000_0000
  const MaxInt64: int := 0x7FFF_FFFF_FFFF_FFFF

  predicate IsDigit(c: char) {
    '0' <= c <= '9'
  }

  /** What the pattern `\d+` matches: one or more ASCII digits. */
  predicate IsDigits(s: string) {
    |s| > 0 && forall i :: 0 <= i < |s| ==> IsDigit(s[i])
  }

  /** A non-empty digit string, as captured by `\d+`. */
  type DigitString = s: string | IsDigits(s) witness "0"

  function DigitValue(c: char): (d: nat)
    requires IsDigit(c)
    ensures d < 10
  {
    c as int - '0' as int
  }

  function DigitChar(d: nat): (c: char)
    requires d < 10
    ensures IsDigit(c) && DigitValue(c) == d
  {
    ('0' as int + d) as char
  }

  /** The base-10 value of a digit string, most significant digit first. */
  function Value(s: string): nat
    requires forall i :: 0 <= i < |s| ==> IsDigit(s[i])
  {
    if |s| == 0 then 0 else 10 * Value(s[..|s| - 1]) + DigitValue(s[|s| - 1])
  }

  /** The canonical decimal form of a natural number: no sign, no leading zero. */
  function Format(n: nat): (s: string)
    ensures IsDigits(s)
    ensures |s| > 1 ==> s[0] != '0'
  {
    if n < 10 then [DigitChar(n)] else Format(n / 10) + [DigitChar(n % 10)]
  }

  /** Reading back the canonical form gives the number it was made from. */
  lemma {:induction false} ValueOfFormat(n: nat)
    ensures Value(Format(n)) == n
  {
    if n >= 10 {
      var s := Format(n);
      assert s[..|s| - 1] == Format(n / 10);
      ValueOfFormat(n / 10);
    }
  }

  /** Conversely, a digit string without a leading zero is the canonical form of its value. */
  lemma {:induction false} FormatOfValue(s: string)
    requires IsDigits(s) && (|s| > 1 ==> s[0] != '0')
    ensures Format(Value(s)) == s
  {
    if |s| == 1 {
    } else {
      var p := s[..|s| - 1];
      assert p[0] == s[0];
      FormatOfValue(p);
      ValueOfLeadingNonZero(p);
      assert Value(s) / 10 == Value(p) && Value(s) % 10 == DigitValue(s[|s| - 1]);
    }
  }

  /** A digit string whose first digit is not zero has a value of at least 1. */
  lemma {:induction false} ValueOfLeadingNonZero(s: string)
    requires IsDigits(s) && s[0] != '0'
    ensures Value(s) >= 1
  {
    if |s| > 1 {
      var p := s[..|s| - 1];
      assert p[0] == s[0];
      ValueOfLeadingNonZero(p);
    }
  }

  /** The optional sign `strconv.ParseInt` accepts in front of the digits. */
  function Unsigned(s: string): string {
    if |s| > 0 && (s[0] == '+' || s[0] == '-') then s[1..] else s
  }

  function Negative(s: string): bool {
    |s| > 0 && s[0] == '-'
  }

  /** A base-10 integer with an optional sign and no range limit. */
  function ParseInt(s: string): (r: Option<int>)
    ensures r.Some? <==> IsDigits(Unsigned(s))
  {
    var digits := Unsigned(s);
    if !IsDigits(digits) then None
    else
      var v: int := Value(digits);
      if Negative(s) then Some(-v) else Some(v)
  }

  /**
   * `strconv.Atoi` on a 64-bit platform: an optional sign then at least one digit, base 10,
   * no spaces or underscores, and a result that fits in an `int`.
   */
  function Atoi(s: string): (r: Option<int>)
    ensures r.Some? <==> ParseInt(s).Some? && MinInt64 <= ParseInt(s).value <= MaxInt64
    ensures r.Some? ==> r == ParseInt(s)
  {
    match ParseInt(s)
    case Some(v) => if MinInt64 <= v <= MaxInt64 then Some(v) else None
    case None => None
  }

  /** `strconv.Itoa`: an optional minus sign, then the canonical digits. */
  function Itoa(n: int): (s: string)
    ensures |s| > 0
    ensures n >= 0 ==> IsDigits(s)
  {
    if n < 0 then "-" + Format(-n) else Format(n)
  }

  lemma ParseIntItoa(n: int)
    ensures ParseInt(Itoa(n)) == Some(n)
  {
    if n < 0 {
      assert Unsigned(Itoa(n)) == Format(-n);
      ValueOfFormat(-n);
    } else {
      var s := Format(n);
      assert Unsigned(Itoa(n)) == s;
      ValueOfFormat(n);
    }
  }

  /** An `int` printed by `strconv.Itoa` is read back unchanged by `strconv.Atoi`. */
  lemma AtoiItoa(n: int)
    requires MinInt64 <= n <= MaxInt64
    ensures Atoi(Itoa(n)) == Some(n)
  {
    ParseIntItoa(n);
  }
}
