/**
 * Go's strconv.ParseInt(s, 10, 64), which is also what strconv.Atoi does on a 64-bit
 * platform: an optional '+' or '-' sign, then one or more decimal digits (leading
 * zeros allowed, no underscores in base 10), with a value that fits in an int64.
 */
module Strconv {
  import opened Wrappers
  import opened Decimal
  import opened Clock

  /** The digits after an optional sign. */
  function Unsigned(s: string): string {
    if |s| > 0 && (s[0] == '+' || s[0] == '-') then s[1..] else s
  }

  predicate Negative(s: string) {
    |s| > 0 && s[0] == '-'
  }

  function Signed(negative: bool, magnitude: nat): int {
    if negative then 0 - magnitude as int else magnitude
  }

  /** strconv.ParseInt(s, 10, 64); None where Go returns a syntax or range error. */
  function ParseInt(s: string): (r: Option<int>)
    ensures r.Some? <==> (|Unsigned(s)| > 0 && AllDigits(Unsigned(s))
                          && InInt64(Signed(Negative(s), ValueOf(Unsigned(s)))))
    ensures r.Some? ==> r.value == Signed(Negative(s), ValueOf(Unsigned(s)))
  {
    var digits := Unsigned(s);
    if |digits| == 0 || !AllDigits(digits) then None
    else
      var n := Signed(Negative(s), ValueOf(digits));
      if InInt64(n) then Some(n) else None
  }

  /** strconv.FormatInt(n, 10): a '-' for negative values, then the digits without leading zeros. */
  function FormatInt(n: int): string {
    if n < 0 then "-" + Digits(-n) else Digits(n)
  }

  /** Every int64 is read back from its decimal rendering. */
  lemma ParseFormatInt(n: int)
    requires InInt64(n)
    ensures ParseInt(FormatInt(n)) == Some(n)
  {
    var s := FormatInt(n);
    if n < 0 {
      assert s[1..] == Digits(-n);
    } else {
      assert s[0] != '+' && s[0] != '-' by { assert IsDigit(s[0]); }
    }
  }
}
