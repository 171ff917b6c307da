/** Decimal text of an integer, as C# string interpolation writes an `int`
    (`{minValue}`): an optional '-' followed by digits without leading zeros. */
module Decimal {

  predicate IsDigit(c: char) {
    '0' <= c <= '9'
  }

  predicate AllDigits(s: string) {
    forall i :: 0 <= i < |s| ==> IsDigit(s[i])
  }

  function DigitChar(d: nat): (c: char)
    requires d < 10
    ensures IsDigit(c) && c as int - '0' as int == d
  {
    ('0' as int + d) as char
  }

  /** Digits of `n`, most significant first. */
  function NatToString(n: nat): (s: string)
    ensures |s| > 0 && AllDigits(s)
    ensures s[0] == '0' ==> n == 0 && s == "0"
    decreases n
  {
    if n < 10 then [DigitChar(n)] else NatToString(n / 10) + [DigitChar(n % 10)]
  }

  function IntToString(i: int): (s: string)
    ensures |s| > 0
    ensures (s[0] == '-') <==> i < 0
    ensures i < 0 ==> |s| > 1 && AllDigits(s[1..]) && s[1] != '0'
    ensures i >= 0 ==> AllDigits(s) && (s[0] == '0' ==> s == "0")
  {
    if i < 0 then "-" + NatToString(-i) else NatToString(i)
  }

  /** The value a string of digits denotes. */
  function DigitsValue(s: string): nat
    requires AllDigits(s)
  {
    if |s| == 0 then 0 else 10 * DigitsValue(s[..|s| - 1]) + (s[|s| - 1] as int - '0' as int)
  }

  /** Reads back an optionally signed decimal string. */
  function ParseInt(s: string): int
    requires |s| > 0
    requires s[0] == '-' ==> AllDigits(s[1..])
    requires s[0] != '-' ==> AllDigits(s)
  {
    if s[0] == '-' then -(DigitsValue(s[1..]) as int) else DigitsValue(s)
  }

  lemma {:induction false} NatToStringRoundTrip(n: nat)
    ensures DigitsValue(NatToString(n)) == n
    decreases n
  {
    if n >= 10 {
      var s := NatToString(n);
      NatToStringRoundTrip(n / 10);
      assert s[..|s| - 1] == NatToString(n / 10);
    }
  }

  /** The integer embedded in a message can be read back exactly. */
  lemma IntToStringRoundTrip(i: int)
    ensures var s := IntToString(i);
      && (s[0] == '-' ==> AllDigits(s[1..]))
      && (s[0] != '-' ==> AllDigits(s))
      && ParseInt(s) == i
  {
    var s := IntToString(i);
    if i < 0 {
      assert s[1..] == NatToString(-i);
      NatToStringRoundTrip(-i);
    } else {
      NatToStringRoundTrip(i);
    }
  }

  /** A character of an integer's text: a digit or the minus sign. */
  predicate IsNumeral(c: char) {
    IsDigit(c) || c == '-'
  }

  predicate AllNumerals(s: string) {
    forall i :: 0 <= i < |s| ==> IsNumeral(s[i])
  }

  lemma IntToStringNumerals(i: int)
    ensures AllNumerals(IntToString(i))
  {
  }

  /** Different integers are written differently. */
  lemma IntToStringInjective(i: int, j: int)
    requires IntToString(i) == IntToString(j)
    ensures i == j
  {
    IntToStringRoundTrip(i);
    IntToStringRoundTrip(j);
  }

  /** Text that ends with a character other than a numeral, followed by a
      numeral, splits in one way only. */
  lemma SplitBeforeNumeral(x: string, a: string, y: string, b: string)
    requires AllNumerals(a) && AllNumerals(b)
    requires |x| > 0 && !IsNumeral(x[|x| - 1]) && |y| > 0 && !IsNumeral(y[|y| - 1])
    requires x + a == y + b
    ensures x == y && a == b
  {
    var s := x + a;
    var k := if |a| < |b| then |a| else |b|;
    assert IsNumeral(s[|s| - k - 1]) <==> k < |a|;
    assert IsNumeral((y + b)[|s| - k - 1]) <==> k < |b|;
    assert x == s[..|x|] && y == s[..|y|];
    assert a == s[|x|..] && b == s[|y|..];
  }
}
