/**
 * Decimal digit strings: the fixed-width, left-to-right accumulation that Go's
 * time and strconv packages use to read numbers, and the zero-padded rendering
 * that Go's time formatting uses to write them.
 */
module Decimal {

  predicate IsDigit(c: char) {
    '0' <= c <= '9'
  }

  predicate AllDigits(s: string) {
    forall i :: 0 <= i < |s| ==> IsDigit(s[i])
  }

  function DigitValue(c: char): nat
    requires IsDigit(c)
  {
    (c as int) - ('0' as int)
  }

  function DigitChar(d: nat): (c: char)
    requires d < 10
    ensures IsDigit(c) && DigitValue(c) == d
  {
    (('0' as int) + d) as char
  }

  /** The value of a digit string read left to right: x := x * 10 + digit. */
  function ValueOf(s: string): nat
    requires AllDigits(s)
    decreases |s|
  {
    if s == [] then 0 else ValueOf(s[..|s| - 1]) * 10 + DigitValue(s[|s| - 1])
  }

  function Pow10(k: nat): nat {
    if k == 0 then 1 else 10 * Pow10(k - 1)
  }

  /** The shortest decimal rendering of n, without leading zeros. */
  function Digits(n: nat): (s: string)
    ensures AllDigits(s) && 1 <= |s|
    ensures ValueOf(s) == n
    ensures n < 10 ==> |s| == 1
    decreases n
  {
    if n < 10 then [DigitChar(n)]
    else
      var prefix := Digits(n / 10);
      var s := prefix + [DigitChar(n % 10)];
      assert s[..|s| - 1] == prefix;
      s
  }

  function Zeros(k: nat): (s: string)
    ensures |s| == k && AllDigits(s)
    ensures forall i :: 0 <= i < k ==> s[i] == '0'
  {
    if k == 0 then [] else ['0'] + Zeros(k - 1)
  }

  /** Decimal rendering of n padded with leading zeros to at least `width` characters. */
  function Padded(n: nat, width: nat): (s: string)
    ensures AllDigits(s)
  {
    var d := Digits(n);
    if |d| < width then Zeros(width - |d|) + d else d
  }

  lemma {:induction false} LeadingZeroValue(s: string)
    requires AllDigits(s)
    ensures AllDigits(['0'] + s) && ValueOf(['0'] + s) == ValueOf(s)
    decreases |s|
  {
    var z := ['0'] + s;
    if s != [] {
      assert z[..|z| - 1] == ['0'] + s[..|s| - 1];
      LeadingZeroValue(s[..|s| - 1]);
    }
  }

  lemma {:induction false} ZerosValue(k: nat, s: string)
    requires AllDigits(s)
    ensures AllDigits(Zeros(k) + s) && ValueOf(Zeros(k) + s) == ValueOf(s)
    decreases k
  {
    if k == 0 {
      assert Zeros(k) + s == s;
    } else {
      ZerosValue(k - 1, s);
      assert Zeros(k) + s == ['0'] + (Zeros(k - 1) + s);
      LeadingZeroValue(Zeros(k - 1) + s);
    }
  }

  /** Padding preserves the value and the rendering has exactly `width` characters when n fits. */
  lemma PaddedValue(n: nat, width: nat)
    requires width > 0
    ensures ValueOf(Padded(n, width)) == n
    ensures n < Pow10(width) ==> |Padded(n, width)| == width
    ensures n >= Pow10(width) ==> |Padded(n, width)| > width
  {
    var d := Digits(n);
    DigitsLength(n, width);
    if |d| < width {
      assert Padded(n, width) == Zeros(width - |d|) + d;
      ZerosValue(width - |d|, d);
    } else {
      assert Padded(n, width) == d;
    }
  }

  /** n has at most k digits exactly when n < 10^k. */
  lemma {:induction false} DigitsLength(n: nat, k: nat)
    requires n > 0 || k > 0
    ensures |Digits(n)| <= k <==> n < Pow10(k)
    decreases n
  {
    if n >= 10 {
      if k > 0 {
        DigitsLength(n / 10, k - 1);
      } else {
        assert |Digits(n)| >= 1;
      }
    } else if k > 0 {
      PowPositive(k);
    }
  }

  lemma {:induction false} PowPositive(k: nat)
    ensures Pow10(k) >= 1 && (k > 0 ==> Pow10(k) >= 10)
  {
    if k > 0 { PowPositive(k - 1); }
  }
}
