/**
 * The two pieces of number handling the name rules need: `atoi` of the two-digit
 * clip capture (main.go:197-200) and Go's `%02d` formatting of the incremented
 * or decremented index (main.go:124-127, 227-229).
 */
module Numbers {

  predicate IsDigit(c: char) { '0' <= c <= '9' }

  /** Exactly what `\d{2}` in the name pattern matches. */
  predicate IsTwoDigits(s: string) {
    |s| == 2 && IsDigit(s[0]) && IsDigit(s[1])
  }

  function DigitValue(c: char): (d: nat)
    requires IsDigit(c)
    ensures d < 10
  {
    c as int - '0' as int
  }

  function DigitChar(d: nat): (c: char)
    requires d < 10
    ensures IsDigit(c) && DigitValue(c) == d
  {
    ('0' as int + d) as char
  }

  /** `strconv.Atoi` on a two-digit capture; the recogniser never passes anything else. */
  function Atoi(s: string): (n: nat)
    requires IsTwoDigits(s)
    ensures n <= 99
  {
    10 * DigitValue(s[0]) + DigitValue(s[1])
  }

  /** Decimal digits of `n`, most significant first, without leading zeros. */
  function Decimal(n: nat): (s: string)
    ensures |s| >= 1
    ensures forall k :: 0 <= k < |s| ==> IsDigit(s[k])
    decreases n
  {
    if n < 10 then [DigitChar(n)] else Decimal(n / 10) + [DigitChar(n % 10)]
  }

  /**
   * Go's `%02d`: at least two characters, zero-padded after the sign. The rules
   * only format values from -1 to 100, so "-1" and "100" occur.
   */
  function Format02(n: int): (s: string)
    ensures |s| >= 2
    ensures n >= 0 ==> forall k :: 0 <= k < |s| ==> IsDigit(s[k])
    ensures n < 0 ==> s[0] == '-' && forall k :: 1 <= k < |s| ==> IsDigit(s[k])
  {
    if n < 0 then "-" + Decimal(-n)
    else if n < 10 then "0" + Decimal(n)
    else Decimal(n)
  }

  /** Formatting the value of a two-digit capture gives the capture back. */
  lemma FormatOfAtoi(s: string)
    requires IsTwoDigits(s)
    ensures Format02(Atoi(s)) == s
  {
    var n := Atoi(s);
    if n < 10 {
      assert DigitValue(s[0]) == 0;
      assert Format02(n) == ['0', DigitChar(n)];
    } else {
      assert Decimal(n / 10) == [DigitChar(n / 10)];
      assert Format02(n) == [DigitChar(n / 10), DigitChar(n % 10)];
    }
  }

  /** Every index from 0 to 99 is formatted as two digits that read back as the same index. */
  lemma AtoiOfFormat(n: int)
    requires 0 <= n <= 99
    ensures IsTwoDigits(Format02(n)) && Atoi(Format02(n)) == n
  {
    if n >= 10 {
      assert Decimal(n / 10) == [DigitChar(n / 10)];
      assert Format02(n) == [DigitChar(n / 10), DigitChar(n % 10)];
    }
  }

  /**
   * Outside 0..99 the formatted index is never two digits: the successor of 99
   * and the predecessor of 00 have no two-digit spelling.
   */
  lemma FormatOutOfRange(n: int)
    requires n < 0 || n > 99
    ensures !IsTwoDigits(Format02(n))
    ensures n == -1 ==> Format02(n) == "-1"
    ensures n == 100 ==> Format02(n) == "100"
  {
    if n > 99 {
      assert n / 10 >= 10;
      assert |Decimal(n / 10)| >= 2;
    }
    if n == 100 {
      assert Decimal(10) == "10";
    }
  }
}
