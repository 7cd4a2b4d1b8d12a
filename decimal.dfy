/**
 * PHP's conversions between integers and their decimal strings: string
 * interpolation of an int ("LIMIT $limit"), coercion of an int argument to a
 * `string` parameter, and the rule by which a canonical decimal string used as
 * an array key becomes an integer key.
 */
module Decimal {

  predicate IsDigit(c: char) { '0' <= c <= '9' }

  function DigitChar(d: nat): (c: char)
    requires d < 10
    ensures IsDigit(c) && (c as int) - ('0' as int) == d
  {
    (('0' as int) + d) as char
  }

  function DigitValue(c: char): nat
    requires IsDigit(c)
  {
    (c as int) - ('0' as int)
  }

  /** Decimal digits of a natural number, without leading zeros. */
  function NatToString(n: nat): string
    decreases n
  {
    if n < 10 then [DigitChar(n)] else NatToString(n / 10) + [DigitChar(n % 10)]
  }

  /** PHP's string form of an int: a minus sign, then the digits. */
  function IntToString(i: int): string
  {
    if i < 0 then "-" + NatToString(-i) else NatToString(i)
  }

  predicate AllDigits(s: string) { forall k :: 0 <= k < |s| ==> IsDigit(s[k]) }

  /** "0", or digits that do not start with '0'. */
  predicate IsCanonicalNat(s: string)
  {
    |s| > 0 && AllDigits(s) && (s[0] == '0' ==> |s| == 1)
  }

  /**
   * The strings PHP turns into integer array keys: a canonical natural
   * number, optionally preceded by '-' when it is not zero.
   */
  predicate IsCanonicalInt(s: string)
  {
    IsCanonicalNat(s) || (|s| >= 2 && s[0] == '-' && s[1] != '0' && IsCanonicalNat(s[1..]))
  }

  function ParseNat(s: string): nat
    requires AllDigits(s)
    decreases |s|
  {
    if s == [] then 0 else ParseNat(s[..|s| - 1]) * 10 + DigitValue(s[|s| - 1])
  }

  function ParseInt(s: string): int
    requires IsCanonicalInt(s)
  {
    var n: int := if s[0] == '-' then ParseNat(s[1..]) else ParseNat(s);
    if s[0] == '-' then -n else n
  }

  lemma {:induction false} NatToStringCanonical(n: nat)
    ensures IsCanonicalNat(NatToString(n))
    ensures ParseNat(NatToString(n)) == n
    decreases n
  {
    if n >= 10 {
      NatToStringCanonical(n / 10);
      var s := NatToString(n);
      assert s[..|s| - 1] == NatToString(n / 10);
    }
  }

  /** Printing an int and reading it back as an array key gives the int. */
  lemma IntToStringRoundTrip(i: int)
    ensures IsCanonicalInt(IntToString(i))
    ensures ParseInt(IntToString(i)) == i
  {
    if i < 0 {
      NatToStringCanonical(-i);
      var s := IntToString(i);
      assert s[1..] == NatToString(-i);
    } else {
      NatToStringCanonical(i);
    }
  }

  lemma {:induction false} ParseNatRoundTrip(s: string)
    requires IsCanonicalNat(s)
    ensures NatToString(ParseNat(s)) == s
    decreases |s|
  {
    if |s| > 1 {
      var init := s[..|s| - 1];
      assert init[0] == s[0];
      ParseNatRoundTrip(init);
      var n := ParseNat(s);
      assert n / 10 == ParseNat(init);
      assert n % 10 == DigitValue(s[|s| - 1]);
    }
  }

  /** A canonical key string is exactly the printed form of its value. */
  lemma ParseIntRoundTrip(s: string)
    requires IsCanonicalInt(s)
    ensures IntToString(ParseInt(s)) == s
  {
    if s[0] == '-' {
      ParseNatRoundTrip(s[1..]);
    } else {
      ParseNatRoundTrip(s);
    }
  }
}
