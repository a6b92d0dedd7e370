/** Decimal and lowercase hexadecimal numerals of whole numbers (`parseInt`, `toString(16)`). */
module Numerals {
  const DecimalDigits := "0123456789"
  const HexDigits := "0123456789abcdef"

  predicate IsDigit(c: char) {
    '0' <= c <= '9'
  }

  predicate AllDigits(s: string) {
    forall i :: 0 <= i < |s| ==> IsDigit(s[i])
  }

  predicate IsHexDigit(c: char) {
    '0' <= c <= '9' || 'a' <= c <= 'f'
  }

  predicate AllHexDigits(s: string) {
    forall i :: 0 <= i < |s| ==> IsHexDigit(s[i])
  }

  /** `n` written in decimal, as a template literal writes a number. */
  function Decimal(n: nat): (s: string)
    ensures |s| > 0 && AllDigits(s)
  {
    if n < 10 then [DecimalDigits[n]] else Decimal(n / 10) + [DecimalDigits[n % 10]]
  }

  /** `parseInt(s)` of a run of decimal digits. */
  function DecimalValue(s: string): nat
    requires AllDigits(s)
  {
    if s == [] then 0
    else DecimalValue(s[..|s| - 1]) * 10 + ((s[|s| - 1] as int) - ('0' as int))
  }

  /** `n.toString(16)`: lowercase hexadecimal without leading zeros. */
  function Hex(n: nat): (s: string)
    ensures |s| > 0 && AllHexDigits(s)
  {
    if n < 16 then [HexDigits[n]] else Hex(n / 16) + [HexDigits[n % 16]]
  }

  function HexDigitValue(c: char): nat
    requires IsHexDigit(c)
  {
    if c <= '9' then (c as int) - ('0' as int) else (c as int) - ('a' as int) + 10
  }

  /** The number a lowercase hexadecimal numeral denotes. */
  function HexValue(s: string): nat
    requires AllHexDigits(s)
  {
    if s == [] then 0 else HexValue(s[..|s| - 1]) * 16 + HexDigitValue(s[|s| - 1])
  }

  /** Reading back the decimal numeral of `n` gives `n`. */
  lemma {:induction false} DecimalRoundTrip(n: nat)
    ensures DecimalValue(Decimal(n)) == n
  {
    if n >= 10 {
      var s := Decimal(n);
      assert s[..|s| - 1] == Decimal(n / 10);
      DecimalRoundTrip(n / 10);
    }
  }

  /** Reading back the hexadecimal numeral of `n` gives `n`. */
  lemma {:induction false} HexRoundTrip(n: nat)
    ensures HexValue(Hex(n)) == n
  {
    if n >= 16 {
      var s := Hex(n);
      assert s[..|s| - 1] == Hex(n / 16);
      HexRoundTrip(n / 16);
    }
  }

  /** One hexadecimal digit below 16; from 16 on at least two, and exactly two below 256. */
  lemma HexLength(n: nat)
    ensures n < 16 ==> |Hex(n)| == 1
    ensures 16 <= n ==> |Hex(n)| >= 2
    ensures 16 <= n < 256 ==> |Hex(n)| == 2
  {
  }
}
