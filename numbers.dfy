/** The few JavaScript number/text conversions the components rely on:
    `Number.prototype.toString()` on integers (the semester labels),
    `Number(value)` on the decimal strings of the page-size selector,
    and the truncating remainder operator `%`. */
module JsNumbers {

  predicate IsDigit(c: char) {
    '0' <= c <= '9'
  }

  /** The character of a decimal digit. */
  function DigitChar(d: int): (c: char)
    requires 0 <= d < 10
    ensures IsDigit(c) && c as int - '0' as int == d
  {
    ('0' as int + d) as char
  }

  /** The value of a decimal digit character. */
  function DigitValue(c: char): (d: nat)
    requires IsDigit(c)
    ensures d < 10 && DigitChar(d) == c
  {
    c as int - '0' as int
  }

  /** `n.toString()` for a non-negative integer: its shortest decimal form. */
  function NatToDecimal(n: nat): (s: string)
    ensures |s| >= 1 && forall i :: 0 <= i < |s| ==> IsDigit(s[i])
    ensures (|s| == 1) == (n < 10)
    ensures n >= 10 ==> s[0] != '0'
    decreases n
  {
    if n < 10 then [DigitChar(n)] else NatToDecimal(n / 10) + [DigitChar(n % 10)]
  }

  /** `n.toString()` for any integer: a minus sign in front of negatives. */
  function IntToString(n: int): (s: string)
    ensures n >= 0 ==> IsDecimal(s) && DecimalValue(s) == n
    ensures n < 0 ==> |s| > 1 && s[0] == '-' && IsDecimal(s[1..]) && DecimalValue(s[1..]) == -n
  {
    if n < 0 then
      DecimalRoundTrip(-n);
      assert ("-" + NatToDecimal(-n))[1..] == NatToDecimal(-n);
      "-" + NatToDecimal(-n)
    else
      DecimalRoundTrip(n);
      NatToDecimal(n)
  }

  /** A non-empty string of ASCII digits, the shape `Number(value)` is applied to. */
  predicate IsDecimal(s: string) {
    |s| > 0 && forall i :: 0 <= i < |s| ==> IsDigit(s[i])
  }

  /** `Number(s)` for a decimal string (leading zeros allowed, as in JavaScript). */
  function DecimalValue(s: string): (v: nat)
    requires IsDecimal(s)
    ensures v == 0 <==> forall i :: 0 <= i < |s| ==> s[i] == '0'
    decreases |s|
  {
    if |s| == 1 then DigitValue(s[0])
    else DecimalValue(s[..|s| - 1]) * 10 + DigitValue(s[|s| - 1])
  }

  /** JavaScript's `a % b`: the sign of the result follows the dividend. */
  function JsRemainder(a: int, b: int): (r: int)
    requires b > 0
    ensures -b < r < b
    ensures a >= 0 ==> r == a % b
    ensures a < 0 ==> r <= 0 && -r == (-a) % b
  {
    if a >= 0 then a % b else -((-a) % b)
  }

  /** `Number(n.toString())` gives `n` back. */
  lemma {:induction false} DecimalRoundTrip(n: nat)
    ensures IsDecimal(NatToDecimal(n)) && DecimalValue(NatToDecimal(n)) == n
    decreases n
  {
    var s := NatToDecimal(n);
    if n >= 10 {
      DecimalRoundTrip(n / 10);
      assert s[..|s| - 1] == NatToDecimal(n / 10);
    }
  }

  /** A number of two decimal digits prints as exactly those two digits. */
  lemma TwoDigitDecimal(n: nat)
    requires 10 <= n < 100
    ensures NatToDecimal(n) == [DigitChar(n / 10), DigitChar(n % 10)]
  {
  }
}
