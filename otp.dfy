/**
 * The six-digit code generator of POST /api/send-otp and POST
 * /api/forgot-password: 100000 plus a random offset below 900000, printed
 * in decimal. The offset is the integer part of the random float times
 * 900000, given here as the parameter `r` with `0 <= r < 900000`.
 */
module Otp {

  const Lowest := 100000
  const Span := 900000

  predicate IsDigit(c: char) {
    '0' <= c <= '9'
  }

  function DigitChar(d: nat): (c: char)
    requires d < 10
    ensures IsDigit(c)
  {
    ['0', '1', '2', '3', '4', '5', '6', '7', '8', '9'][d]
  }

  function DigitValue(c: char): (d: nat)
    requires IsDigit(c)
    ensures d < 10
  {
    (c as int - '0' as int) as nat
  }

  lemma DigitRoundTrip(d: nat)
    requires d < 10
    ensures DigitValue(DigitChar(d)) == d
  {
  }

  /** `Number.prototype.toString()` of a non-negative integer: its decimal digits, most significant first. */
  function DecimalString(n: nat): (s: string)
    ensures |s| >= 1 && (forall i :: 0 <= i < |s| ==> IsDigit(s[i]))
    ensures n > 0 ==> s[0] != '0'
    decreases n
  {
    if n < 10 then [DigitChar(n)] else DecimalString(n / 10) + [DigitChar(n % 10)]
  }

  /** The value of a string of decimal digits. */
  function DecimalValue(s: string): nat
    requires forall i :: 0 <= i < |s| ==> IsDigit(s[i])
    decreases |s|
  {
    if s == [] then 0 else DecimalValue(s[..|s| - 1]) * 10 + DigitValue(s[|s| - 1])
  }

  function Pow10(k: nat): (p: nat)
    ensures p >= 1
  {
    if k == 0 then 1 else 10 * Pow10(k - 1)
  }

  /** Reading the digits back gives the number. */
  lemma {:induction false} DecimalRoundTrip(n: nat)
    ensures DecimalValue(DecimalString(n)) == n
    decreases n
  {
    var s := DecimalString(n);
    if n < 10 {
      DigitRoundTrip(n);
    } else {
      DecimalRoundTrip(n / 10);
      DigitRoundTrip(n % 10);
      assert s[..|s| - 1] == DecimalString(n / 10);
    }
  }

  /** A number with `k` digits prints as `k` characters. */
  lemma {:induction false} DecimalLength(n: nat, k: nat)
    requires k >= 1 && Pow10(k - 1) <= n < Pow10(k)
    ensures |DecimalString(n)| == k
    decreases k
  {
    if k > 1 {
      DecimalLength(n / 10, k - 1);
    }
  }

  /** The code for the draw `r`: `floor(100000 + r)` printed in decimal. */
  function GenerateOtp(r: nat): (code: string)
    requires r < Span
    ensures forall i :: 0 <= i < |code| ==> IsDigit(code[i])
    ensures DecimalValue(code) == Lowest + r && Lowest <= DecimalValue(code) < Lowest + Span
    ensures |code| == 6 && code[0] != '0'
  {
    DecimalRoundTrip(Lowest + r);
    assert Pow10(5) == Lowest && Pow10(6) == Lowest + Span;
    DecimalLength(Lowest + r, 6);
    DecimalString(Lowest + r)
  }

  /** Distinct draws give distinct codes, and the code determines the draw. */
  lemma GenerateOtpInjective(r1: nat, r2: nat)
    requires r1 < Span && r2 < Span
    ensures GenerateOtp(r1) == GenerateOtp(r2) <==> r1 == r2
  {
    if GenerateOtp(r1) == GenerateOtp(r2) {
      DecimalRoundTrip(Lowest + r1);
      DecimalRoundTrip(Lowest + r2);
    }
  }
}
