/** Decimal rendering of natural numbers, as JavaScript's number-to-string
    conversion renders the integer parts of column names (`x3`, `s12`) and
    of the pivot-row message. */
module Decimal {

  predicate IsDigit(ch: char) {
    '0' <= ch <= '9'
  }

  function DigitChar(d: nat): (ch: char)
    requires d < 10
    ensures IsDigit(ch)
  {
    (48 + d) as char
  }

  function DigitValue(ch: char): (d: nat)
    requires IsDigit(ch)
    ensures d < 10
  {
    ch as int - 48
  }

  /** The shortest decimal spelling of `k` (no leading zeros). */
  function Digits(k: nat): (s: string)
    ensures |s| >= 1
    ensures forall i :: 0 <= i < |s| ==> IsDigit(s[i])
    ensures k != 0 ==> s[0] != '0'
  {
    if k < 10 then [DigitChar(k)] else Digits(k / 10) + [DigitChar(k % 10)]
  }

  /** Reads a string of decimal digits back as a number. */
  function ParseDigits(s: string): nat
    requires forall i :: 0 <= i < |s| ==> IsDigit(s[i])
  {
    if |s| == 0 then 0 else ParseDigits(s[..|s| - 1]) * 10 + DigitValue(s[|s| - 1])
  }

  /** Rendering a number and reading it back yields the number. */
  lemma {:induction false} ParseDigitsInvertsDigits(k: nat)
    ensures ParseDigits(Digits(k)) == k
  {
    var s := Digits(k);
    if k >= 10 {
      ParseDigitsInvertsDigits(k / 10);
      assert s[..|s| - 1] == Digits(k / 10);
      assert DigitValue(DigitChar(k % 10)) == k % 10;
    } else {
      assert s[..0] == [];
    }
  }

  /** Distinct numbers have distinct spellings. */
  lemma DigitsInjective(a: nat, b: nat)
    ensures Digits(a) == Digits(b) ==> a == b
  {
    ParseDigitsInvertsDigits(a);
    ParseDigitsInvertsDigits(b);
  }
}
