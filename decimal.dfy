/**
 * Decimal text of integers: what Java's `String.valueOf(int)` produces, the one-character
 * padding rule of `Time.toString`, and a reader for such text so that formatting can be
 * shown to lose nothing.
 */
module Decimal {
  import opened Wrappers

  predicate IsDigit(c: char) {
    '0' <= c <= '9'
  }

  predicate AllDigits(s: string) {
    forall i :: 0 <= i < |s| ==> IsDigit(s[i])
  }

  function DigitChar(d: nat): (c: char)
    requires d < 10
    ensures IsDigit(c) && DigitValue(c) == d
  {
    (48 + d) as char
  }

  function DigitValue(c: char): nat
    requires IsDigit(c)
  {
    (c as int) - 48
  }

  /** The decimal digits of `n`, most significant first, without leading zeros. */
  function Digits(n: nat): (s: string)
    ensures AllDigits(s)
    ensures |s| >= 1
    ensures |s| == 1 <==> n < 10
    decreases n
  {
    if n < 10 then [DigitChar(n)] else Digits(n / 10) + [DigitChar(n % 10)]
  }

  /** `String.valueOf(int)`: a minus sign for negative values, then the digits of the magnitude. */
  function ValueOf(x: int): (s: string)
    ensures |s| == 1 <==> 0 <= x <= 9
    ensures forall i :: 0 <= i < |s| ==> IsDigit(s[i]) || s[i] == '-'
  {
    if x < 0 then "-" + Digits(-x) else Digits(x)
  }

  /** Prefix a `"0"` exactly when the text is one character long. */
  function Pad(s: string): string
  {
    if |s| == 1 then "0" + s else s
  }

  /** The value of a run of digits (leading zeros allowed). */
  function DigitsValue(s: string): nat
    requires AllDigits(s)
    decreases |s|
  {
    if s == [] then 0 else DigitsValue(s[..|s| - 1]) * 10 + DigitValue(s[|s| - 1])
  }

  /** Reads an optional minus sign followed by at least one digit; anything else is rejected. */
  function ParseDecimal(s: string): Option<int> {
    if |s| >= 2 && s[0] == '-' && AllDigits(s[1..]) then Some(0 - DigitsValue(s[1..]))
    else if |s| >= 1 && AllDigits(s) then Some(DigitsValue(s))
    else None
  }

  lemma {:induction false} DigitsRoundTrip(n: nat)
    ensures DigitsValue(Digits(n)) == n
    decreases n
  {
    if n >= 10 {
      var s := Digits(n);
      DigitsRoundTrip(n / 10);
      assert s[..|s| - 1] == Digits(n / 10);
      assert s[|s| - 1] == DigitChar(n % 10);
    }
  }

  /** Reading back the text of `String.valueOf(x)` gives `x`. */
  lemma ValueOfRoundTrip(x: int)
    ensures ParseDecimal(ValueOf(x)) == Some(x)
  {
    if x < 0 {
      var s := ValueOf(x);
      assert s[1..] == Digits(-x);
      DigitsRoundTrip(-x);
    } else {
      DigitsRoundTrip(x);
    }
  }

  /** Padding never changes the value that is read back. */
  lemma PadRoundTrip(x: int)
    ensures ParseDecimal(Pad(ValueOf(x))) == Some(x)
  {
    ValueOfRoundTrip(x);
    if 0 <= x <= 9 {
      var s := Pad(ValueOf(x));
      assert s == ['0', DigitChar(x)];
      assert s[..1] == ['0'] && s[..1][..0] == [];
      assert DigitsValue(['0']) == 0;
      assert DigitsValue(s) == x;
    }
  }

  /** The padding rule: exactly the values 0..9 gain a leading zero; negatives and values of two or more digits are left alone. */
  lemma PadRule(x: int)
    ensures 0 <= x <= 9 ==> Pad(ValueOf(x)) == "0" + [DigitChar(x)]
    ensures (x < 0 || x >= 10) ==> Pad(ValueOf(x)) == ValueOf(x)
  {
  }
}
