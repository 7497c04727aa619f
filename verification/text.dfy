/**
 Text helpers the scheduler relies on: Foundation's whitespace trimming
 (`trimmingCharacters(in: .whitespacesAndNewlines)`), Swift's decimal
 rendering of integers in string interpolation, and `Int(Double)`
 truncation.
 */
module Text {
  import opened Options

  /** Members of Foundation's `whitespacesAndNewlines` character set: the
      Unicode space separators, the line and paragraph separators, and the
      control characters U+0009 to U+000D and U+0085. */
  predicate IsSpace(c: char) {
    || c == ' ' || c == '\t' || c == '\n' || c == '\U{000B}' || c == '\U{000C}' || c == '\r'
    || c == '\U{0085}' || c == '\U{00A0}' || c == '\U{1680}'
    || ('\U{2000}' <= c <= '\U{200A}')
    || c == '\U{2028}' || c == '\U{2029}' || c == '\U{202F}' || c == '\U{205F}' || c == '\U{3000}'
  }

  /** Number of whitespace characters at the front of `s`. */
  function LeadingSpaces(s: string): (n: nat)
    ensures n <= |s|
    ensures forall k :: 0 <= k < n ==> IsSpace(s[k])
    ensures n < |s| ==> !IsSpace(s[n])
  {
    if |s| == 0 || !IsSpace(s[0]) then 0 else 1 + LeadingSpaces(s[1..])
  }

  /** Number of whitespace characters at the back of `s`. */
  function TrailingSpaces(s: string): (n: nat)
    ensures n <= |s|
    ensures forall k :: |s| - n <= k < |s| ==> IsSpace(s[k])
    ensures n < |s| ==> !IsSpace(s[|s| - 1 - n])
  {
    if |s| == 0 || !IsSpace(s[|s| - 1]) then 0 else 1 + TrailingSpaces(s[..|s| - 1])
  }

  /** `s` with whitespace removed from both ends. The result is the
      contiguous slice of `s` between the first and the last non-space
      character, and it is empty exactly when `s` is all whitespace. */
  function Trim(s: string): (r: string)
    ensures r != [] ==> !IsSpace(r[0]) && !IsSpace(r[|r| - 1])
    ensures r == [] <==> forall k :: 0 <= k < |s| ==> IsSpace(s[k])
  {
    var rest := s[LeadingSpaces(s)..];
    rest[..|rest| - TrailingSpaces(rest)]
  }

  /** The trimmed text is the slice of `s` after its leading whitespace,
      and everything after that slice is whitespace. */
  lemma TrimIsSlice(s: string)
    ensures LeadingSpaces(s) + |Trim(s)| <= |s|
    ensures Trim(s) == s[LeadingSpaces(s)..LeadingSpaces(s) + |Trim(s)|]
    ensures forall k :: LeadingSpaces(s) + |Trim(s)| <= k < |s| ==> IsSpace(s[k])
  {
    var a := LeadingSpaces(s);
    var rest := s[a..];
    var b := TrailingSpaces(rest);
    assert Trim(s) == rest[..|rest| - b];
    assert rest[..|rest| - b] == s[a..a + |rest| - b];
    forall k | a + |rest| - b <= k < |s|
      ensures IsSpace(s[k])
    {
      assert s[k] == rest[k - a];
    }
  }

  /** Trimming is idempotent: a trimmed name or URL is stored as is. */
  lemma TrimIdempotent(s: string)
    ensures Trim(Trim(s)) == Trim(s)
  {
    var t := Trim(s);
    if t != [] {
      assert LeadingSpaces(t) == 0;
      assert TrailingSpaces(t) == 0;
    }
  }

  /** The character for a decimal digit. */
  function DigitChar(d: nat): (c: char)
    requires d < 10
    ensures '0' <= c <= '9'
  {
    ['0', '1', '2', '3', '4', '5', '6', '7', '8', '9'][d]
  }

  /** The digit a decimal character stands for. */
  function DigitValue(c: char): (d: nat)
    requires '0' <= c <= '9'
    ensures d < 10
    ensures DigitChar(d) == c
  {
    (c as int - '0' as int) as nat
  }

  predicate IsDigits(s: string) {
    forall k :: 0 <= k < |s| ==> '0' <= s[k] <= '9'
  }

  /** Decimal rendering of a natural number, most significant digit first,
      without leading zeros. */
  function NatText(n: nat): (r: string)
    ensures |r| >= 1 && IsDigits(r)
    ensures |r| > 1 ==> r[0] != '0'
    decreases n
  {
    if n < 10 then [DigitChar(n)] else NatText(n / 10) + [DigitChar(n % 10)]
  }

  /** The value a non-empty string of decimal digits denotes. */
  function DigitsValue(s: string): nat
    requires |s| >= 1 && IsDigits(s)
  {
    if |s| == 1 then DigitValue(s[0])
    else 10 * DigitsValue(s[..|s| - 1]) + DigitValue(s[|s| - 1])
  }

  /** Reading back the decimal rendering of `n` gives `n`. */
  lemma {:induction false} NatTextRoundTrip(n: nat)
    ensures DigitsValue(NatText(n)) == n
    decreases n
  {
    if n >= 10 {
      var prefix := NatText(n / 10);
      var t := NatText(n);
      assert t == prefix + [DigitChar(n % 10)];
      assert t[..|t| - 1] == prefix;
      assert DigitValue(t[|t| - 1]) == n % 10 by {
        assert DigitChar(DigitValue(t[|t| - 1])) == DigitChar(n % 10);
        assert t[|t| - 1] == DigitChar(n % 10);
        DigitCharInjective(DigitValue(t[|t| - 1]), n % 10);
      }
      NatTextRoundTrip(n / 10);
    } else {
      DigitCharInjective(DigitValue(DigitChar(n)), n);
    }
  }

  lemma DigitCharInjective(a: nat, b: nat)
    requires a < 10 && b < 10
    requires DigitChar(a) == DigitChar(b)
    ensures a == b
  {
  }

  /** Swift's interpolation of an `Int`: a leading minus sign for negative
      values, then the decimal digits of the magnitude. */
  function IntText(n: int): string
  {
    if n < 0 then "-" + NatText(-n) else NatText(n)
  }

  /** Reads back a string produced by `IntText`; `None` for anything else
      that is not an optional minus sign followed by decimal digits. */
  function ParseInt(s: string): Option<int>
  {
    if |s| >= 1 && s[0] == '-' then
      match ParseNat(s[1..])
      case Some(m) => Some(-(m as int))
      case None => None
    else
      match ParseNat(s)
      case Some(m) => Some(m as int)
      case None => None
  }

  /** Reads a non-empty string of decimal digits. */
  function ParseNat(s: string): Option<nat>
  {
    if |s| >= 1 && IsDigits(s) then Some(DigitsValue(s)) else None
  }

  /** `IntText` is injective: its text determines the integer. */
  lemma IntTextRoundTrip(n: int)
    ensures ParseInt(IntText(n)) == Some(n)
  {
    if n < 0 {
      assert IntText(n) == "-" + NatText(-n);
      NegativeTextRoundTrip(n);
    } else {
      assert IntText(n) == NatText(n);
      NonNegativeTextRoundTrip(n);
    }
  }

  lemma NonNegativeTextRoundTrip(n: nat)
    ensures ParseInt(NatText(n)) == Some(n)
  {
    var t := NatText(n);
    assert t[0] != '-';
    ParseNatText(n);
  }

  lemma ParseNatText(n: nat)
    ensures ParseNat(NatText(n)) == Some(n)
  {
    NatTextRoundTrip(n);
  }

  lemma NegativeTextRoundTrip(n: int)
    requires n < 0
    ensures ParseInt("-" + NatText(-n)) == Some(n)
  {
    var m: nat := -n;
    ParseNatText(m);
    MinusPrefix(NatText(m));
  }

  /** A leading minus sign is stripped before the digits are read. */
  lemma MinusPrefix(d: string)
    ensures ParseInt("-" + d) == match ParseNat(d) case Some(m) => Some(-(m as int)) case None => None
  {
    assert ("-" + d)[1..] == d;
  }

  /** Swift's `Int(x)` for a finite `Double`: truncation toward zero. */
  function Trunc(x: real): (r: int)
    ensures x >= 0.0 ==> r >= 0 && r as real <= x < r as real + 1.0
    ensures x < 0.0 ==> r <= 0 && r as real - 1.0 < x <= r as real
  {
    if x >= 0.0 then x.Floor else -((-x).Floor)
  }
}
