/**
  The `%d` conversion shared by Go's fmt.Sprintf (building the tester's command
  line) and C's sprintf (pretty_bytes), and its inverse: reading a decimal
  numeral back, as strtol does on the strings `%d` produces.
 */
module Decimal {

  predicate IsDigit(c: char) {
    '0' <= c <= '9'
  }

  function DigitChar(d: nat): (c: char)
    requires d < 10
    ensures IsDigit(c)
  {
    ['0', '1', '2', '3', '4', '5', '6', '7', '8', '9'][d]
  }

  function DigitValue(c: char): nat
    requires IsDigit(c)
  {
    (c as int) - ('0' as int)
  }

  function Pow10(k: nat): (r: nat)
    ensures r >= 1
  {
    if k == 0 then 1 else 10 * Pow10(k - 1)
  }

  /** The decimal numeral of `n`: no sign, no leading zeros, "0" for zero. */
  function FormatNat(n: nat): (s: string)
    ensures |s| >= 1
    ensures forall i :: 0 <= i < |s| ==> IsDigit(s[i])
    ensures |s| > 1 ==> s[0] != '0'
    decreases n
  {
    if n < 10 then [DigitChar(n)] else FormatNat(n / 10) + [DigitChar(n % 10)]
  }

  /** `%d` of a signed integer: a leading '-' for negative values. */
  function FormatInt(n: int): (s: string)
    ensures |s| >= 1
    ensures n < 0 <==> s[0] == '-'
  {
    if n < 0 then "-" + FormatNat(-n) else FormatNat(n)
  }

  predicate AllDigits(s: string) {
    forall i :: 0 <= i < |s| ==> IsDigit(s[i])
  }

  function ParseNat(s: string): nat
    requires AllDigits(s)
  {
    if |s| == 0 then 0 else 10 * ParseNat(s[..|s| - 1]) + DigitValue(s[|s| - 1])
  }

  /** An optional '-' followed by decimal digits. */
  predicate IsNumeral(s: string) {
    |s| >= 1 && if s[0] == '-' then AllDigits(s[1..]) else AllDigits(s)
  }

  function ParseInt(s: string): int
    requires IsNumeral(s)
  {
    if s[0] == '-' then -(ParseNat(s[1..]) as int) else ParseNat(s)
  }

  lemma {:induction false} ParseFormatNat(n: nat)
    ensures ParseNat(FormatNat(n)) == n
    decreases n
  {
    if n >= 10 {
      var init := FormatNat(n / 10);
      var s := init + [DigitChar(n % 10)];
      assert s[..|s| - 1] == init;
      ParseFormatNat(n / 10);
    }
  }

  /** Reading back what `%d` wrote gives the number that was written. */
  lemma ParseFormatInt(n: int)
    ensures IsNumeral(FormatInt(n)) && ParseInt(FormatInt(n)) == n
  {
    var s := FormatInt(n);
    if n < 0 {
      assert s[1..] == FormatNat(-n);
      ParseFormatNat(-n);
    } else {
      ParseFormatNat(n);
    }
  }

  /** `%d` writes only digits and a leading '-': never a blank. */
  lemma FormatIntHasNoBlank(n: int)
    ensures ' ' !in FormatInt(n)
  {
    if n < 0 {
      assert FormatInt(n)[1..] == FormatNat(-n);
    }
  }

  /** A number below 10^k is written with at most k digits. */
  lemma {:induction false} FormatNatLength(n: nat, k: nat)
    requires 1 <= k && n < Pow10(k)
    ensures |FormatNat(n)| <= k
    decreases k
  {
    if n >= 10 {
      assert k >= 2;
      assert n / 10 < Pow10(k - 1);
      FormatNatLength(n / 10, k - 1);
    }
  }
}
