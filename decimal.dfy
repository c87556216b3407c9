/** Decimal text of integers, as strconv.Itoa and the %d verb write it. */
module Decimal {

  predicate IsDigit(c: char) {
    '0' <= c <= '9'
  }

  /** Every character is a decimal digit. */
  predicate AllDigits(s: string) {
    forall i :: 0 <= i < |s| ==> IsDigit(s[i])
  }

  function DigitChar(d: nat): (c: char)
    requires d < 10
    ensures IsDigit(c)
  {
    "0123456789"[d]
  }

  function DigitValue(c: char): (d: nat)
    requires IsDigit(c)
    ensures d < 10
  {
    c as int - '0' as int
  }

  lemma DigitRoundTrip(d: nat)
    requires d < 10
    ensures DigitValue(DigitChar(d)) == d
  {
  }

  /** A canonical decimal text: at least one digit, and no leading zero
      unless the text is "0" itself. */
  predicate Canonical(s: string) {
    |s| >= 1 && AllDigits(s) && (s[0] == '0' ==> s == "0")
  }

  /** The digits of n, most significant first, without leading zeros. */
  function NatToString(n: nat): (s: string)
    ensures Canonical(s)
    ensures s[0] == '0' <==> n == 0
  {
    if n < 10 then [DigitChar(n)] else NatToString(n / 10) + [DigitChar(n % 10)]
  }

  /** strconv.Itoa: a '-' before the digits of a negative number. */
  function Itoa(i: int): (s: string)
    ensures i >= 0 ==> Canonical(s) && ParseDigits(s) == i
    ensures i < 0 ==> |s| >= 2 && s[0] == '-' && Canonical(s[1..]) && ParseDigits(s[1..]) == -i && s[1] != '0'
  {
    ParseNatToString(if i < 0 then -i else i);
    if i < 0 then "-" + NatToString(-i) else NatToString(i)
  }

  /** Reading a string of digits back as a number. */
  function ParseDigits(s: string): nat
    requires AllDigits(s)
  {
    if s == [] then 0 else ParseDigits(s[..|s| - 1]) * 10 + DigitValue(s[|s| - 1])
  }

  /** Reading back a number's digits gives the number. */
  lemma {:induction false} ParseNatToString(n: nat)
    ensures ParseDigits(NatToString(n)) == n
  {
    var s := NatToString(n);
    if n >= 10 {
      ParseNatToString(n / 10);
      assert s[..|s| - 1] == NatToString(n / 10);
    }
    DigitRoundTrip(n % 10);
  }

  /** A canonical decimal text is the text of the number it reads as: no
      other spelling of a number (such as one with a leading zero) is
      canonical. */
  lemma {:induction false} CanonicalIsNatToString(s: string)
    requires Canonical(s)
    ensures NatToString(ParseDigits(s)) == s
  {
    var last := s[|s| - 1];
    if |s| == 1 {
      assert DigitChar(DigitValue(last)) == last;
      assert s == [last];
    } else {
      var front := s[..|s| - 1];
      assert s == front + [last];
      assert front[0] == s[0];
      CanonicalIsNatToString(front);
      NatToStringAppend(ParseDigits(front), last);
    }
  }

  /** A positive number followed by one more digit: the text grows by that
      digit. */
  lemma NatToStringAppend(m: nat, c: char)
    requires 0 < m && IsDigit(c)
    ensures NatToString(m * 10 + DigitValue(c)) == NatToString(m) + [c]
  {
    var d := DigitValue(c);
    assert DigitChar(d) == c;
    assert (m * 10 + d) / 10 == m && (m * 10 + d) % 10 == d;
  }

  lemma NatToStringInjective(a: nat, b: nat)
    requires NatToString(a) == NatToString(b)
    ensures a == b
  {
    ParseNatToString(a);
    ParseNatToString(b);
  }

  /** Different numbers have different decimal texts. */
  lemma ItoaInjective(a: int, b: int)
    requires Itoa(a) == Itoa(b)
    ensures a == b
  {
    if a < 0 && b < 0 {
      assert Itoa(a)[1..] == NatToString(-a);
      assert Itoa(b)[1..] == NatToString(-b);
      NatToStringInjective(-a, -b);
    } else if a >= 0 && b >= 0 {
      NatToStringInjective(a, b);
    }
  }
}
