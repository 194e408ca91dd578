/**
 * Byte strings and decimal numbers, as the C library and sds handle them. A byte is a Dafny `char`:
 * there are more chars than bytes, so what is shown for every text holds for every byte string.
 */
module Bytes {

  type Text = string

  const CRLF: Text := "\r\n"
  const LLONG_MAX: nat := 0x7fff_ffff_ffff_ffff
  const INT_MAX: nat := 0x7fff_ffff

  /** `ll2string` on a non-negative number. */
  function Decimal(n: nat): (s: Text)
    ensures s != [] && forall d <- s :: IsDigit(d)
    ensures n >= 1 ==> s[0] != '0'
  {
    if n < 10 then [Digit(n)] else Decimal(n / 10) + [Digit(n % 10)]
  }

  function Digit(d: nat): (c: char)
    requires d < 10
    ensures IsDigit(c) && DigitValue(c) == d
  {
    ('0' as int + d) as char
  }

  function DigitValue(c: char): nat
    requires IsDigit(c)
  {
    c as int - '0' as int
  }

  /** `ll2string`. */
  function SignedDecimal(n: int): Text {
    if n < 0 then "-" + Decimal(-n) else Decimal(n)
  }

  predicate IsDigit(c: char) {
    '0' <= c <= '9'
  }

  predicate IsSpace(c: char) {
    c == ' ' || 9 <= c as int <= 13
  }

  /** The value of the leading digits of `s`, continuing from `acc`. */
  function DigitsValue(s: Text, acc: nat): (v: nat)
    ensures v >= acc
  {
    if s == [] || !IsDigit(s[0]) then acc else DigitsValue(s[1..], acc * 10 + DigitValue(s[0]))
  }

  function SkipSpaces(s: Text): Text {
    if s != [] && IsSpace(s[0]) then SkipSpaces(s[1..]) else s
  }

  /** `atoi` and `strtol` base 10: blanks, an optional sign, then digits up to the first other byte. */
  function Atoi(s: Text): int {
    var t := SkipSpaces(s);
    if t == [] then 0
    else if t[0] == '-' then 0 - DigitsValue(t[1..], 0)
    else if t[0] == '+' then DigitsValue(t[1..], 0)
    else DigitsValue(t, 0)
  }

  lemma {:induction false} DigitsOfDecimal(n: nat, rest: Text)
    ensures DigitsValue(Decimal(n) + rest, 0) == DigitsValue(rest, n)
  {
    if n < 10 {
      assert (Decimal(n) + rest)[1..] == rest;
    } else {
      var last: Text := [Digit(n % 10)];
      DigitsOfDecimal(n / 10, last + rest);
      assert Decimal(n) + rest == Decimal(n / 10) + (last + rest);
      assert (last + rest)[1..] == rest;
    }
  }

  /** `atoi` inverts `ll2string`, whatever non-digit follows the number. */
  lemma AtoiOfDecimal(n: nat, rest: Text)
    requires rest == [] || !IsDigit(rest[0])
    ensures Atoi(Decimal(n) + rest) == n
  {
    DigitsOfDecimal(n, rest);
  }

  /** A non-empty prefix of a positive number's digits still reads as a positive number. */
  lemma AtoiOfCutDecimal(n: nat, p: Text)
    requires n >= 1 && p != [] && IsDigit(p[0]) && p[0] == Decimal(n)[0]
    ensures Atoi(p) >= 1
  {
  }

  /** `Decimal(n)` has at most `k` digits when `n` is below ten to the `k`. */
  lemma {:induction false} DecimalLength(n: nat, k: nat, bound: nat)
    requires k >= 1 && bound == Pow10(k) && n < bound
    ensures |Decimal(n)| <= k
  {
    if n >= 10 {
      DecimalLength(n / 10, k - 1, Pow10(k - 1));
    }
  }

  function Pow10(k: nat): nat {
    if k == 0 then 1 else 10 * Pow10(k - 1)
  }

  /** Every 64-bit length prints in at most nineteen digits. */
  lemma LongLongDigits(n: nat)
    requires n <= LLONG_MAX
    ensures |Decimal(n)| <= 19
  {
    assert Pow10(5) == 100_000;
    assert Pow10(10) == 10_000_000_000;
    assert Pow10(15) == 1_000_000_000_000_000;
    assert Pow10(19) == 10_000_000_000_000_000_000;
    DecimalLength(n, 19, Pow10(19));
  }
}
