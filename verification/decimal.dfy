/** Decimal text of integers, as JavaScript's `Number.prototype.toString()`
    writes an integral number, and the `slice(-2)` that keeps its last two
    characters. */
module Decimal {

  predicate IsDigit(c: char) {
    '0' <= c <= '9'
  }

  /** The character of a single decimal digit. */
  function DigitChar(d: nat): (c: char)
    requires d < 10
    ensures IsDigit(c)
  {
    ('0' as int + d) as char
  }

  /** The value of a digit character. */
  function DigitValue(c: char): (d: nat)
    requires IsDigit(c)
    ensures d < 10 && DigitChar(d) == c
  {
    (c as int - '0' as int)
  }

  predicate AllDigits(s: string) {
    forall i :: 0 <= i < |s| ==> IsDigit(s[i])
  }

  /** The value of a string of decimal digits, most significant first. */
  function DigitsValue(s: string): nat
    requires AllDigits(s)
  {
    if s == [] then 0
    else DigitsValue(s[..|s| - 1]) * 10 + DigitValue(s[|s| - 1])
  }

  /** Decimal text of a natural number, without leading zeros. */
  function NatToString(n: nat): (s: string)
    ensures |s| >= 1 && AllDigits(s)
    ensures |s| == 1 <==> n < 10
    ensures s[0] != '0' || n == 0
    decreases n
  {
    if n < 10 then [DigitChar(n)]
    else
      var high := NatToString(n / 10);
      var s := high + [DigitChar(n % 10)];
      assert s[0] == high[0];
      s
  }

  /** Decimal text of an integer: a minus sign before a negative one. */
  function IntToString(n: int): (s: string)
    ensures |s| >= 1
    ensures s[0] == '-' <==> n < 0
    ensures n >= 0 ==> AllDigits(s) && DigitsValue(s) == n && (s[0] != '0' || n == 0)
    ensures n < 0 ==> |s| >= 2 && AllDigits(s[1..]) && DigitsValue(s[1..]) == -n && s[1] != '0'
  {
    if n < 0 then
      var digits := NatToString(-n);
      NatToStringRoundTrip(-n);
      assert ("-" + digits)[1..] == digits;
      "-" + digits
    else
      NatToStringRoundTrip(n);
      NatToString(n)
  }

  /** `s.slice(-2)`: the last two characters, or all of a shorter string. */
  function LastTwo(s: string): (r: string)
    ensures |r| == if |s| < 2 then |s| else 2
    ensures r == s[|s| - |r|..]
  {
    if |s| <= 2 then s else s[|s| - 2..]
  }

  /** Reading back the digits of a number gives the number. */
  lemma {:induction false} NatToStringRoundTrip(n: nat)
    ensures DigitsValue(NatToString(n)) == n
    decreases n
  {
    var s := NatToString(n);
    if n >= 10 {
      NatToStringRoundTrip(n / 10);
      assert s[..|s| - 1] == NatToString(n / 10);
    }
  }

  /** The last two characters of a number's text are its tens and units
      digits, once the number has at least two digits. */
  lemma {:induction false} LastTwoOfNat(n: nat)
    requires n >= 10
    ensures LastTwo(NatToString(n)) == [DigitChar(n / 10 % 10), DigitChar(n % 10)]
  {
    var q := n / 10;
    var s := NatToString(q);
    var t := NatToString(n);
    assert t == s + [DigitChar(n % 10)];
    LastDigit(q);
    LastTwoAppend(s, DigitChar(n % 10));
  }

  /** The last two characters after appending `c` to a non-empty text. */
  lemma LastTwoAppend(s: string, c: char)
    requires |s| >= 1
    ensures LastTwo(s + [c]) == [s[|s| - 1], c]
  {
    var t := s + [c];
    assert t[|t| - 2..] == [s[|s| - 1], c];
  }

  /** The last character of a number's text is its units digit. */
  lemma LastDigit(n: nat)
    ensures NatToString(n)[|NatToString(n)| - 1] == DigitChar(n % 10)
  {
    if n >= 10 {
      assert NatToString(n) == NatToString(n / 10) + [DigitChar(n % 10)];
    }
  }

  /** For the years a clock can report, the two-character suffix is the year
      modulo 100, written with two digits. */
  lemma LastTwoOfYear(y: int)
    requires y >= 10
    ensures LastTwo(IntToString(y)) == [DigitChar(y % 100 / 10), DigitChar(y % 10)]
  {
    LastTwoOfNat(y);
    var a, b := y / 100, y % 100;
    assert y == 100 * a + b;
    assert y / 10 == 10 * a + b / 10;
    assert (10 * a + b / 10) % 10 == b / 10;
  }
}
