/**
 * Python's `str(n)` on integers, used for the effect key `str(choice_num)`
 * and for the health and gold figures in the final-stats text, with the
 * parse that reads such a text back.
 */
module Decimal {
  import opened Wrappers

  predicate IsDigit(c: char)
  {
    '0' <= c <= '9'
  }

  predicate AllDigits(s: string)
  {
    forall k :: 0 <= k < |s| ==> IsDigit(s[k])
  }

  function DigitValue(c: char): (d: nat)
    requires IsDigit(c)
    ensures d < 10
  {
    c as int - '0' as int
  }

  function DigitChar(d: nat): (c: char)
    requires d < 10
    ensures IsDigit(c) && DigitValue(c) == d
  {
    ('0' as int + d) as char
  }

  /** The decimal digits of `n`, most significant first, with no leading zero. */
  function NatToString(n: nat): (s: string)
    ensures |s| >= 1 && AllDigits(s)
    ensures |s| > 1 ==> s[0] != '0'
  {
    if n < 10 then [DigitChar(n)] else NatToString(n / 10) + [DigitChar(n % 10)]
  }

  /** `str(i)`: a minus sign before the digits of `-i` when `i` is negative. */
  function IntToString(i: int): string
  {
    if i < 0 then "-" + NatToString(-i) else NatToString(i)
  }

  /** The number a string of decimal digits denotes. */
  function DigitsValue(s: string): nat
    requires AllDigits(s)
  {
    if |s| == 0 then 0 else 10 * DigitsValue(s[..|s| - 1]) + DigitValue(s[|s| - 1])
  }

  /** `int(s)` restricted to an optional minus sign followed by at least one digit. */
  function ParseInt(s: string): Option<int>
  {
    if |s| > 1 && s[0] == '-' && AllDigits(s[1..]) then Some(-(DigitsValue(s[1..]) as int))
    else if |s| > 0 && AllDigits(s) then Some(DigitsValue(s))
    else None
  }

  lemma {:induction false} NatToStringValue(n: nat)
    ensures DigitsValue(NatToString(n)) == n
  {
    if n >= 10 {
      var s := NatToString(n);
      NatToStringValue(n / 10);
      assert s[..|s| - 1] == NatToString(n / 10);
    }
  }

  /** `str` is undone by `int`: the text of an integer reads back as that integer. */
  lemma IntToStringRoundTrip(i: int)
    ensures ParseInt(IntToString(i)) == Some(i)
  {
    var s := IntToString(i);
    if i < 0 {
      NatToStringValue(-i);
      assert s[1..] == NatToString(-i);
    } else {
      NatToStringValue(i);
    }
  }

  /** Distinct integers have distinct texts, so each choice number has its own effect key. */
  lemma IntToStringInjective(i: int, j: int)
    requires IntToString(i) == IntToString(j)
    ensures i == j
  {
    IntToStringRoundTrip(i);
    IntToStringRoundTrip(j);
  }

  /** A character `str(i)` can contain: a digit or the minus sign. */
  predicate IsNumeral(c: char)
  {
    IsDigit(c) || c == '-'
  }

  lemma IntToStringNumerals(i: int)
    ensures forall k :: 0 <= k < |IntToString(i)| ==> IsNumeral(IntToString(i)[k])
  {
    if i < 0 {
      assert forall k :: 1 <= k < |IntToString(i)| ==> IntToString(i)[k] == NatToString(-i)[k - 1];
    }
  }

  /**
   * The texts of two different integers stay different when each is
   * followed by a text that does not start with a numeral character.
   */
  lemma DelimitedDiffer(i: int, j: int, x: string, y: string)
    requires i != j
    requires |x| > 0 && |y| > 0 && !IsNumeral(x[0]) && !IsNumeral(y[0])
    ensures IntToString(i) + x != IntToString(j) + y
  {
    var a, b := IntToString(i), IntToString(j);
    IntToStringNumerals(i);
    IntToStringNumerals(j);
    if a == b {
      IntToStringInjective(i, j);
    } else if |a| < |b| {
      assert (a + x)[|a|] == x[0] && (b + y)[|a|] == b[|a|];
    } else if |b| < |a| {
      assert (b + y)[|b|] == y[0] && (a + x)[|b|] == a[|b|];
    } else {
      var k :| 0 <= k < |a| && a[k] != b[k];
      assert (a + x)[k] == a[k] && (b + y)[k] == b[k];
    }
  }
}
