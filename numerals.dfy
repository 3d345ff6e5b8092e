/** Decimal digits: the `\d` class of the notation, the numeric value PHP gives a
    digit string, and the decimal text `sprintf("%+d", m)` produces. */
module Numerals {

  /** `\d` without Unicode support: the ASCII digits. */
  predicate IsDigit(c: char) {
    '0' <= c <= '9'
  }

  predicate AllDigits(s: string) {
    forall k :: 0 <= k < |s| ==> IsDigit(s[k])
  }

  function DigitValue(c: char): (v: nat)
    ensures v < 10
  {
    if IsDigit(c) then (c as int) - ('0' as int) else 0
  }

  function DigitChar(d: nat): (c: char)
    requires d < 10
    ensures IsDigit(c) && DigitValue(c) == d
  {
    ['0', '1', '2', '3', '4', '5', '6', '7', '8', '9'][d]
  }

  /** The integer PHP reads from a string of decimal digits (leading zeros allowed). */
  function DecimalValue(s: string): nat
  {
    if s == [] then 0 else DecimalValue(s[..|s| - 1]) * 10 + DigitValue(s[|s| - 1])
  }

  /** The shortest decimal text of `n`. */
  function Decimal(n: nat): (s: string)
    ensures |s| >= 1 && AllDigits(s)
    ensures s[0] == '0' ==> n == 0
  {
    if n < 10 then [DigitChar(n)] else Decimal(n / 10) + [DigitChar(n % 10)]
  }

  lemma {:induction false} DecimalRoundTrip(n: nat)
    ensures DecimalValue(Decimal(n)) == n
  {
    if n >= 10 {
      var s := Decimal(n);
      assert s[..|s| - 1] == Decimal(n / 10);
      DecimalRoundTrip(n / 10);
    }
  }

  /** A digit string stands for zero exactly when every digit in it is '0'. */
  lemma {:induction false} ZeroValueIffZeroDigits(s: string)
    requires AllDigits(s)
    ensures DecimalValue(s) == 0 <==> forall k :: 0 <= k < |s| ==> s[k] == '0'
  {
    if s != [] {
      var init := s[..|s| - 1];
      assert AllDigits(init);
      ZeroValueIffZeroDigits(init);
      if DecimalValue(s) == 0 {
        forall k | 0 <= k < |s| ensures s[k] == '0' {
          if k < |s| - 1 { assert s[k] == init[k]; }
        }
      }
    }
  }

  /** `sprintf("%+d", m)`: the decimal text of |m| behind an explicit sign; zero
      gets a '+'. */
  function FormatSigned(m: int): (r: string)
    ensures |r| >= 2 && (r[0] == '+' || r[0] == '-') && AllDigits(r[1..])
    ensures r[0] == '-' <==> m < 0
    ensures DecimalValue(r[1..]) == if m < 0 then -m else m
    ensures r[1] == '0' ==> m == 0
    ensures m == 0 ==> r == "+0"
  {
    var digits := if m < 0 then Decimal(-m) else Decimal(m);
    DecimalRoundTrip(if m < 0 then -m else m);
    assert (['+'] + digits)[1..] == digits && (['-'] + digits)[1..] == digits;
    if m < 0 then ['-'] + digits else ['+'] + digits
  }
}
