/**
 * Decimal rendering of integers, as Java's string concatenation of a `long`
 * produces it, and the one branch of `formatFileSize` that uses it.
 */
module FileSize {

  predicate IsDigit(c: char) { '0' <= c <= '9' }

  predicate AllDigits(s: string) { forall i :: 0 <= i < |s| ==> IsDigit(s[i]) }

  function DigitChar(d: nat): (c: char)
    requires d < 10
    ensures IsDigit(c)
  {
    (48 + d) as char
  }

  function DigitValue(c: char): nat
    requires IsDigit(c)
  {
    c as int - 48
  }

  /** The shortest decimal numeral of `n`. */
  function NatToString(n: nat): string
    decreases n
  {
    if n < 10 then [DigitChar(n)] else NatToString(n / 10) + [DigitChar(n % 10)]
  }

  /** `Long.toString`: a minus sign in front of a negative value. */
  function IntToString(n: int): string
  {
    if n < 0 then "-" + NatToString(-n) else NatToString(n)
  }

  /** The value of a decimal numeral, most significant digit first. */
  function ParseNat(s: string): nat
    requires AllDigits(s)
  {
    if s == [] then 0 else ParseNat(s[..|s| - 1]) * 10 + DigitValue(s[|s| - 1])
  }

  /** The numeral is non-empty, made of digits, has no leading zero, and reads back as `n`. */
  lemma {:induction false} NatToStringRoundTrip(n: nat)
    ensures |NatToString(n)| >= 1
    ensures AllDigits(NatToString(n))
    ensures ParseNat(NatToString(n)) == n
    ensures NatToString(n)[0] == '0' ==> n == 0
    decreases n
  {
    var s := NatToString(n);
    if n >= 10 {
      NatToStringRoundTrip(n / 10);
      var p := NatToString(n / 10);
      assert s == p + [DigitChar(n % 10)];
      assert s[..|s| - 1] == p;
      assert s[0] == p[0];
    }
  }

  /**
   * `formatFileSize(bytes)`. Below 1024 it is the decimal count followed by
   * " B"; from 1024 on the source scales by a floating-point logarithm and
   * prints one decimal place, which this model takes as the parameter
   * `scaled`.
   */
  function FormatFileSize(bytes: int, scaled: int -> string): string
  {
    if bytes < 1024 then IntToString(bytes) + " B" else scaled(bytes)
  }

  /** A byte count below 1024 is shown as its own decimal numeral and the unit " B". */
  lemma SmallSizeIsDecimalBytes(bytes: int, scaled: int -> string)
    requires 0 <= bytes < 1024
    ensures var s := FormatFileSize(bytes, scaled);
      |s| >= 3 && s[|s| - 2..] == " B" &&
      AllDigits(s[..|s| - 2]) && ParseNat(s[..|s| - 2]) == bytes &&
      (s[0] == '0' ==> bytes == 0)
  {
    NatToStringRoundTrip(bytes);
    var s := FormatFileSize(bytes, scaled);
    assert s[..|s| - 2] == NatToString(bytes);
  }

  /** A negative count (never a real size) keeps Java's minus sign. */
  lemma NegativeSizeHasSign(bytes: int, scaled: int -> string)
    requires bytes < 0
    ensures var s := FormatFileSize(bytes, scaled);
      |s| >= 4 && s[0] == '-' && s[|s| - 2..] == " B" &&
      AllDigits(s[1..|s| - 2]) && ParseNat(s[1..|s| - 2]) == -bytes
  {
    NatToStringRoundTrip(-bytes);
    var s := FormatFileSize(bytes, scaled);
    assert s[1..|s| - 2] == NatToString(-bytes);
  }
}
