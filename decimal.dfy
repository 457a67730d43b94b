/** Decimal rendering of integers, as Go's `fmt` verb `%d` prints them,
    together with its inverse, used to show that the rendering is injective. */
module Decimal {

  /** The character of a decimal digit. */
  function DigitChar(d: int): (c: char)
    requires 0 <= d < 10
    ensures '0' <= c <= '9' && c as int - '0' as int == d
  {
    (d + '0' as int) as char
  }

  predicate IsDigit(c: char) {
    '0' <= c <= '9'
  }

  predicate AllDigits(s: string) {
    forall i | 0 <= i < |s| :: IsDigit(s[i])
  }

  /** Decimal digits of a natural number, most significant first, without leading zeros. */
  function NatToString(n: nat): (s: string)
    ensures |s| > 0
    decreases n
  {
    if n < 10 then [DigitChar(n)] else NatToString(n / 10) + [DigitChar(n % 10)]
  }

  lemma {:induction false} NatToStringDigits(n: nat)
    ensures AllDigits(NatToString(n))
    decreases n
  {
    if n >= 10 {
      NatToStringDigits(n / 10);
    }
  }

  /** `%d`: a minus sign for negative numbers followed by the digits of the magnitude. */
  function FormatInt(n: int): (s: string)
    ensures |s| > 0
    decreases if n < 0 then 1 else 0
  {
    if n < 0 then "-" + FormatInt(-n) else NatToString(n)
  }

  /** `%d` prints only digits and the minus sign. */
  lemma FormatIntChars(n: int)
    ensures forall i | 0 <= i < |FormatInt(n)| :: FormatInt(n)[i] == '-' || IsDigit(FormatInt(n)[i])
  {
    NatToStringDigits(if n < 0 then -n else n);
  }

  /** Reads back a string of digits. */
  function ParseNat(s: string): nat
    requires AllDigits(s)
  {
    if s == [] then 0 else ParseNat(s[..|s| - 1]) * 10 + (s[|s| - 1] as int - '0' as int)
  }

  /** Reads back what `FormatInt` prints. */
  function ParseInt(s: string): int
    requires |s| > 0
    requires AllDigits(if s[0] == '-' then s[1..] else s)
  {
    if s[0] == '-' then -(ParseNat(s[1..]) as int) else ParseNat(s)
  }

  lemma {:induction false} NatRoundTrip(n: nat)
    ensures AllDigits(NatToString(n)) && ParseNat(NatToString(n)) == n
    decreases n
  {
    NatToStringDigits(n);
    if n >= 10 {
      var s := NatToString(n);
      assert s[..|s| - 1] == NatToString(n / 10);
      NatRoundTrip(n / 10);
    }
  }

  /** `%d` loses nothing: the printed number reads back as itself. */
  lemma FormatIntRoundTrip(n: int)
    ensures var s := FormatInt(n); AllDigits(if s[0] == '-' then s[1..] else s) && ParseInt(s) == n
  {
    var s := FormatInt(n);
    if n < 0 {
      assert FormatInt(-n) == NatToString(-n);
      assert s[1..] == NatToString(-n);
      NatRoundTrip(-n);
    } else {
      NatRoundTrip(n);
      assert IsDigit(s[0]);
    }
  }

  /** Different numbers print differently. */
  lemma FormatIntInjective(m: int, n: int)
    requires FormatInt(m) == FormatInt(n)
    ensures m == n
  {
    FormatIntRoundTrip(m);
    FormatIntRoundTrip(n);
  }
}
