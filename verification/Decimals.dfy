/** Decimal numerals as strings, as template literals and `String(n)` print integers. */
module Decimals {
  predicate IsDigit(c: char) { '0' <= c <= '9' }

  predicate AllDigits(s: string) { forall i | 0 <= i < |s| :: IsDigit(s[i]) }

  function DigitChar(d: nat): (c: char)
    requires d < 10
    ensures IsDigit(c) && c as int - '0' as int == d
  {
    '0' + d as char
  }

  /** The numeral of a natural number. */
  function Decimal(n: nat): (s: string)
    ensures s != "" && AllDigits(s)
  {
    if n < 10 then [DigitChar(n)] else Decimal(n / 10) + [DigitChar(n % 10)]
  }

  function Value(s: string): nat
    requires AllDigits(s)
  {
    if s == "" then 0 else 10 * Value(s[..|s| - 1]) + (s[|s| - 1] as int - '0' as int)
  }

  /** Reading a printed number gives the number back. */
  lemma {:induction false} ValueOfDecimal(n: nat)
    ensures Value(Decimal(n)) == n
  {
    var s := Decimal(n);
    if n < 10 {
      assert s[..0] == "";
    } else {
      assert s[..|s| - 1] == Decimal(n / 10);
      ValueOfDecimal(n / 10);
    }
  }

  function Integer(n: int): string {
    if n < 0 then "-" + Decimal(-n) else Decimal(n)
  }

  /** No leading zeros. */
  predicate Numeral(s: string) { s != "" && AllDigits(s) && (s[0] != '0' || |s| == 1) }

  lemma {:induction false} DecimalIsNumeral(n: nat)
    ensures Numeral(Decimal(n)) && (n > 0 ==> Decimal(n)[0] != '0')
  {
    if n >= 10 { DecimalIsNumeral(n / 10); }
  }

  lemma {:induction false} PositiveNumeral(s: string)
    requires AllDigits(s) && s != "" && s[0] != '0'
    ensures Value(s) > 0
  {
    if |s| > 1 { PositiveNumeral(s[..|s| - 1]); }
  }

  /** Every numeral is the decimal form of its value. */
  lemma {:induction false} DecimalOfValue(s: string)
    requires Numeral(s)
    ensures Decimal(Value(s)) == s
  {
    var n := |s| - 1;
    assert s == s[..n] + [s[n]] && IsDigit(s[n]);
    if n == 0 {
      assert s[..0] == "";
    } else {
      DecimalOfValue(s[..n]);
      PositiveNumeral(s[..n]);
      assert Value(s) / 10 == Value(s[..n]);
    }
  }
}
