/** Amounts as the ledger stores them: the result of JavaScript's
    `parseFloat` on the amount field, a number or "not a number". Numbers are
    modelled as exact reals. */
module Amounts {
  import opened Decimal

  /** A JavaScript number as far as the ledger uses it. */
  datatype Num = NaN | Value(v: real)

  /** Length of the run of decimal digits at the start of `s`. */
  function DigitRun(s: string): (n: nat)
    ensures n <= |s| && AllDigits(s[..n])
    ensures n < |s| ==> !IsDigit(s[n])
  {
    if s == [] || !IsDigit(s[0]) then 0
    else
      var n := 1 + DigitRun(s[1..]);
      assert s[..n] == [s[0]] + s[1..][..n - 1];
      n
  }

  function Pow10(k: nat): (p: nat)
    ensures p >= 1
  {
    if k == 0 then 1 else 10 * Pow10(k - 1)
  }

  /** True when an unsigned decimal literal can start `t`: a digit, or a
      point followed by a digit. */
  predicate StartsNumeric(t: string) {
    |t| > 0 && (IsDigit(t[0]) || (t[0] == '.' && |t| > 1 && IsDigit(t[1])))
  }

  /** The fraction digits of a literal whose integer digits are done: after a
      point, the run of digits that follows it; otherwise none. */
  function FractionDigits(rest: string): (f: string)
    ensures AllDigits(f)
    ensures f != "" <==> |rest| > 1 && rest[0] == '.' && IsDigit(rest[1])
    ensures f != "" ==> |f| < |rest|
  {
    if |rest| > 0 && rest[0] == '.' then rest[1..][..DigitRun(rest[1..])] else ""
  }

  /** What follows the digits of a literal's integer and fraction parts:
      past the point and its fraction digits when there is a point. */
  function AfterFraction(rest: string): (after: string)
    ensures |after| <= |rest|
  {
    if |rest| > 0 && rest[0] == '.' then rest[1 + DigitRun(rest[1..])..] else rest
  }

  /** The exponent part that may follow the digits of a literal: `e` or `E`,
      an optional sign and at least one digit. Without one, the exponent is
      0 and whatever follows is ignored. */
  function ExponentOf(rest: string): (e: int)
    ensures !(|rest| > 1 && (rest[0] == 'e' || rest[0] == 'E')) ==> e == 0
    ensures e < 0 ==> |rest| > 1 && rest[1] == '-'
  {
    if |rest| > 1 && (rest[0] == 'e' || rest[0] == 'E') then
      var signed := rest[1..];
      var u := Unsigned(signed);
      var k := DigitRun(u);
      var magnitude: int := DigitsValue(u[..k]);
      if k == 0 then 0 else if signed[0] == '-' then -magnitude else magnitude
    else 0
  }

  /** `x` times ten to the power `e`, one factor of ten at a time. */
  function Scale(x: real, e: int): (r: real)
    ensures x >= 0.0 ==> r >= 0.0
    decreases if e < 0 then -e else e
  {
    if e == 0 then x else if e > 0 then 10.0 * Scale(x, e - 1) else Scale(x, e + 1) / 10.0
  }

  /** The value of integer digits `i` and fraction digits `f`. */
  function DecimalValue(i: string, f: string): (v: real)
    requires AllDigits(i) && AllDigits(f)
    ensures v >= 0.0
  {
    var p := Pow10(|f|) as real;
    assert p >= 1.0;
    DigitsValue(i) as real + DigitsValue(f) as real / p
  }

  /** The longest unsigned decimal literal at the start of `t` (integer
      digits, then optionally a point and fraction digits, then optionally
      an exponent), or NaN when there is none. Whatever follows the literal
      is ignored. */
  function UnsignedPrefix(t: string): (r: Num)
    ensures r.NaN? <==> !StartsNumeric(t)
    ensures r.Value? ==> r.v >= 0.0
  {
    var k := DigitRun(t);
    var rest := t[k..];
    var frac := FractionDigits(rest);
    if k == 0 && frac == "" then NaN
    else Value(Scale(DecimalValue(t[..k], frac), ExponentOf(AfterFraction(rest))))
  }

  /** The text after an optional leading sign. */
  function Unsigned(s: string): (u: string)
    ensures |u| <= |s|
  {
    if |s| > 0 && (s[0] == '-' || s[0] == '+') then s[1..] else s
  }

  /** `parseFloat(s)` for the strings a number field produces: an optional
      sign, then the longest decimal literal at the start. */
  function ParseFloat(s: string): (r: Num)
    ensures r.NaN? <==> !StartsNumeric(Unsigned(s))
    ensures r.Value? && r.v < 0.0 ==> s[0] == '-'
  {
    var m := UnsignedPrefix(Unsigned(s));
    if |s| > 0 && s[0] == '-' && m.Value? then Value(-m.v) else m
  }

  /** `parseFloat(x) || 0` applied to a stored amount `x`: the falsy values,
      NaN and zero, both count as 0, and any other number as itself. */
  function Contribution(a: Num): (r: real)
    ensures r == 0.0 <==> a.NaN? || a.v == 0.0
    ensures a.Value? ==> r == a.v
  {
    match a
    case NaN => 0.0
    case Value(v) => v
  }

  /** The text of a whole number parses back to that number. */
  lemma ParseNatText(n: nat)
    ensures ParseFloat(NatToString(n)) == Value(n as real)
  {
    ParseDigits(NatToString(n));
    NatToStringRoundTrip(n);
  }

  /** A run of digits alone parses as its value. */
  lemma ParseDigits(s: string)
    requires AllDigits(s) && |s| > 0
    ensures ParseFloat(s) == Value(DigitsValue(s) as real)
  {
    assert UnsignedPrefix(s) == Value(DigitsValue(s) as real) by {
      DigitRunStops(s, "");
      assert s + "" == s;
      assert s[..|s|] == s;
      assert s[|s|..] == "";
      WholeValue(s);
    }
    assert Unsigned(s) == s;
  }

  /** A run of digits ends where a non-digit (or the end of the text)
      follows it. */
  lemma {:induction false} DigitRunStops(a: string, b: string)
    requires AllDigits(a)
    requires b == "" || !IsDigit(b[0])
    ensures DigitRun(a + b) == |a|
  {
    if a == "" {
      assert a + b == b;
    } else {
      assert (a + b)[1..] == a[1..] + b;
      DigitRunStops(a[1..], b);
    }
  }

  /** Integer digits, a point and fraction digits, with nothing after them,
      read as the integer part plus the fraction over its power of ten. */
  lemma DecimalPrefix(i: string, f: string)
    requires AllDigits(i) && AllDigits(f) && |f| > 0
    ensures UnsignedPrefix(i + "." + f) == Value(DecimalValue(i, f))
  {
    var t := i + "." + f;
    DigitRunStops(i, "." + f);
    assert t == i + ("." + f);
    assert t[..|i|] == i;
    var rest := t[|i|..];
    assert rest == "." + f;
    assert rest[1..] == f;
    DigitRunStops(f, "");
    assert f + "" == f;
    assert f[..|f|] == f;
    assert FractionDigits(rest) == f;
    assert AfterFraction(rest) == "";
  }

  /** A decimal amount such as "1500.75" is stored as its exact value: the
      integer part plus the fraction digits over their power of ten. */
  lemma ParseDecimalText(i: string, f: string)
    requires AllDigits(i) && AllDigits(f) && |f| > 0
    ensures ParseFloat(i + "." + f) == Value(DecimalValue(i, f))
  {
    var t := i + "." + f;
    assert t[0] == '.' || IsDigit(t[0]);
    assert Unsigned(t) == t;
    DecimalPrefix(i, f);
  }

  /** A leading minus negates a decimal amount. */
  lemma ParseNegativeDecimalText(i: string, f: string)
    requires AllDigits(i) && AllDigits(f) && |f| > 0
    ensures ParseFloat("-" + i + "." + f) == Value(-DecimalValue(i, f))
  {
    var t := i + "." + f;
    assert "-" + i + "." + f == "-" + t;
    assert ParseFloat("-" + t) == Value(-DecimalValue(i, f)) by {
      DecimalPrefix(i, f);
      NegatedValue(t, DecimalValue(i, f));
    }
  }

  /** A minus before an unsigned literal negates its value. */
  lemma Negated(t: string)
    requires StartsNumeric(t)
    ensures ParseFloat("-" + t) == Value(-UnsignedPrefix(t).v)
  {
    assert Unsigned("-" + t) == t;
  }

  /** A minus before a literal of value `v` gives `-v`. */
  lemma NegatedValue(t: string, v: real)
    requires UnsignedPrefix(t) == Value(v)
    ensures ParseFloat("-" + t) == Value(-v)
  {
    Negated(t);
  }

  /** An exponent part: `e` and digits read as the digits' value. */
  lemma ExponentDigits(d: string)
    requires AllDigits(d) && |d| > 0
    ensures ExponentOf("e" + d) == DigitsValue(d)
  {
    var rest := "e" + d;
    assert rest[1..] == d;
    assert Unsigned(d) == d;
    DigitRunStops(d, "");
    assert d + "" == d;
    assert d[..|d|] == d;
  }

  /** An exponent part in full: `e` or `E`, an optional sign and digits
      read as the digits' value, negated after a minus. */
  lemma ExponentSigned(c: char, sign: string, d: string)
    requires c == 'e' || c == 'E'
    requires sign == "" || sign == "+" || sign == "-"
    requires AllDigits(d) && |d| > 0
    ensures ExponentOf([c] + sign + d) == if sign == "-" then -(DigitsValue(d) as int) else DigitsValue(d)
  {
    var rest := [c] + sign + d;
    assert rest[0] == c;
    assert rest[1..] == sign + d;
    SignThenDigits(sign, d);
    ExponentValue(rest, d);
  }

  /** An optional sign before digits: the digits are what is left once the
      sign is taken off, and the text starts with a minus only after one. */
  lemma SignThenDigits(sign: string, d: string)
    requires sign == "" || sign == "+" || sign == "-"
    requires AllDigits(d) && |d| > 0
    ensures Unsigned(sign + d) == d
    ensures (sign + d)[0] == '-' <==> sign == "-"
  {
    if sign != "" {
      assert (sign + d)[1..] == d;
    } else {
      assert sign + d == d;
      assert IsDigit(d[0]);
    }
  }

  /** An exponent marker followed by a signed digit run `d`. */
  lemma ExponentValue(rest: string, d: string)
    requires |rest| > 1 && (rest[0] == 'e' || rest[0] == 'E')
    requires AllDigits(d) && |d| > 0 && Unsigned(rest[1..]) == d
    ensures ExponentOf(rest) == if rest[1] == '-' then -(DigitsValue(d) as int) else DigitsValue(d)
  {
    DigitRunStops(d, "");
    assert d + "" == d;
    assert d[..|d|] == d;
  }

  /** Integer digits, a point, fraction digits and then an exponent part:
      the decimal value scaled by ten to that exponent. */
  lemma FractionExponentPrefix(i: string, f: string, x: string)
    requires AllDigits(i) && AllDigits(f) && |f| > 0
    requires |x| > 0 && (x[0] == 'e' || x[0] == 'E')
    ensures UnsignedPrefix(i + "." + f + x) == Value(Scale(DecimalValue(i, f), ExponentOf(x)))
  {
    var t := i + "." + f + x;
    DigitRunStops(i, "." + f + x);
    assert t == i + ("." + f + x);
    assert t[..|i|] == i;
    var rest := t[|i|..];
    assert rest == "." + f + x;
    assert rest[1..] == f + x;
    DigitRunStops(f, x);
    assert (f + x)[..|f|] == f;
    assert FractionDigits(rest) == f;
    assert AfterFraction(rest) == x;
  }

  /** An amount such as "1.5e3": the fraction and the exponent together. */
  lemma ParseFractionExponentText(i: string, f: string, x: string)
    requires AllDigits(i) && AllDigits(f) && |f| > 0
    requires |x| > 0 && (x[0] == 'e' || x[0] == 'E')
    ensures ParseFloat(i + "." + f + x) == Value(Scale(DecimalValue(i, f), ExponentOf(x)))
  {
    var t := i + "." + f + x;
    assert t[0] == if |i| > 0 then i[0] else '.';
    assert t[0] != '-' && t[0] != '+' by {
      if |i| > 0 {
        assert IsDigit(i[0]);
      }
    }
    FractionExponentPrefix(i, f, x);
    Unprefixed(t, Scale(DecimalValue(i, f), ExponentOf(x)));
  }

  /** Integer digits followed by an exponent part. */
  lemma ExponentPrefix(i: string, x: string)
    requires AllDigits(i) && |i| > 0 && |x| > 0 && (x[0] == 'e' || x[0] == 'E')
    ensures ParseFloat(i + x) == Value(Scale(DigitsValue(i) as real, ExponentOf(x)))
  {
    var t := i + x;
    assert t[0] == i[0] && IsDigit(i[0]);
    WholePrefix(i, x);
    Unprefixed(t, Scale(DigitsValue(i) as real, ExponentOf(x)));
  }

  /** Text that starts with a digit parses as its unsigned literal. */
  lemma Unprefixed(t: string, v: real)
    requires |t| > 0 && t[0] != '-' && t[0] != '+' && UnsignedPrefix(t) == Value(v)
    ensures ParseFloat(t) == Value(v)
  {
    assert Unsigned(t) == t;
  }

  /** Integer digits followed by an exponent part, read without a sign. */
  lemma WholePrefix(i: string, x: string)
    requires AllDigits(i) && |i| > 0 && |x| > 0 && (x[0] == 'e' || x[0] == 'E')
    ensures UnsignedPrefix(i + x) == Value(Scale(DigitsValue(i) as real, ExponentOf(x)))
  {
    var t := i + x;
    DigitRunStops(i, x);
    assert t[..|i|] == i;
    assert t[|i|..] == x;
    WholeValue(i);
  }

  /** Digits without a fraction have their whole-number value. */
  lemma WholeValue(i: string)
    requires AllDigits(i)
    ensures DecimalValue(i, "") == DigitsValue(i) as real
  {
    assert DigitsValue("") == 0 && Pow10(|""|) == 1;
  }

  /** Digits followed by an exponent part, such as "1e3", scale the digits'
      value by that power of ten. */
  lemma ParseExponentText(i: string, d: string)
    requires AllDigits(i) && |i| > 0 && AllDigits(d) && |d| > 0
    ensures ParseFloat(i + "e" + d) == Value((DigitsValue(i) * Pow10(DigitsValue(d))) as real)
  {
    var x := "e" + d;
    assert i + "e" + d == i + x;
    ExponentPrefix(i, x);
    ExponentDigits(d);
    ScaleUp(DigitsValue(i), DigitsValue(d));
  }

  /** A non-negative exponent multiplies by its power of ten. */
  lemma {:induction false} ScaleUp(v: nat, e: nat)
    ensures Scale(v as real, e) == (v * Pow10(e)) as real
  {
    if e > 0 {
      ScaleUp(v, e - 1);
      var p := Pow10(e - 1);
      assert Scale(v as real, e) == 10.0 * (v * p) as real;
      assert 10 * (v * p) == v * (10 * p);
    }
  }
  /** A negative exponent divides: "2.5E-1" is stored as 0.25. */
  lemma ParseNegativeExponentExample()
    ensures ParseFloat("2.5E-1") == Value(0.25)
  {
    var t := "2.5E-1";
    assert Unsigned(t) == t;
    DigitRunStops("2", ".5E-1");
    assert t == "2" + ".5E-1";
    var rest := ".5E-1";
    DigitRunStops("5", "E-1");
    assert rest[1..] == "5" + "E-1";
    assert FractionDigits(rest) == "5";
    assert AfterFraction(rest) == "E-1";
    assert DecimalValue("2", "5") == 2.5;
    assert "E-1"[1..] == "-1";
    DigitRunStops("1", "");
    assert "1" + "" == "1";
    assert ExponentOf("E-1") == -1;
  }
}
