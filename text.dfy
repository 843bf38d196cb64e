/**
  The string conversions the screens use: `String(n)` of a non-negative integer, its inverse on
  decimal digit strings, `padStart(2, '0')`, `toFixed(2)` of an amount held in cents, the
  `/\D/g` digit filter and an upper-casing of ASCII letters.
*/
module Text {

  predicate IsDigit(c: char)
  {
    '0' <= c <= '9'
  }

  predicate AllDigits(s: string)
  {
    forall i :: 0 <= i < |s| ==> IsDigit(s[i])
  }

  function DigitChar(d: int): (c: char)
    requires 0 <= d < 10
    ensures IsDigit(c) && DigitValue(c) == d
  {
    ('0' as int + d) as char
  }

  function DigitValue(c: char): int
  {
    c as int - '0' as int
  }

  /** The number a string of decimal digits denotes, most significant digit first. */
  function DecimalValue(s: string): int
  {
    if s == [] then 0 else DecimalValue(s[..|s| - 1]) * 10 + DigitValue(s[|s| - 1])
  }

  /** `String(n)` for an integer n >= 0: its shortest decimal spelling. */
  function NatToString(n: nat): (s: string)
    ensures |s| >= 1 && AllDigits(s)
    ensures DecimalValue(s) == n
    ensures |s| == 1 <==> n < 10
    ensures |s| == 2 <==> 10 <= n < 100
    ensures |s| > 1 ==> s[0] != '0'
    decreases n
  {
    if n < 10 then [DigitChar(n)]
    else
      var p := NatToString(n / 10);
      assert (p + [DigitChar(n % 10)])[..|p|] == p;
      p + [DigitChar(n % 10)]
  }

  /** `String(n)` for any integer n. */
  function IntToString(n: int): (s: string)
    ensures n >= 0 ==> s == NatToString(n)
    ensures n < 0 ==> s == "-" + NatToString(-n)
  {
    if n >= 0 then NatToString(n) else "-" + NatToString(-n)
  }

  /** A digit string without a leading zero denotes a positive number, unless it is "0". */
  lemma {:induction false} LeadingDigitPositive(s: string)
    requires |s| >= 1 && AllDigits(s) && s[0] != '0'
    ensures DecimalValue(s) >= 1
  {
    if |s| > 1 {
      var p := s[..|s| - 1];
      assert p[0] == s[0];
      LeadingDigitPositive(p);
    }
  }

  /** The other direction of the round trip: NatToString spells back any canonical digit string. */
  lemma {:induction false} SpellDecimal(s: string)
    requires |s| >= 1 && AllDigits(s) && (|s| > 1 ==> s[0] != '0')
    ensures DecimalValue(s) >= 0 && NatToString(DecimalValue(s)) == s
  {
    var v := DecimalValue(s);
    if |s| == 1 {
      assert s == [DigitChar(DigitValue(s[0]))];
    } else {
      var p := s[..|s| - 1];
      assert p[0] == s[0];
      SpellDecimal(p);
      LeadingDigitPositive(p);
      var d := DigitValue(s[|s| - 1]);
      assert v / 10 == DecimalValue(p) && v % 10 == d;
      assert s == p + [DigitChar(d)];
    }
  }

  /** A leading '0' does not change the number. */
  lemma {:induction false} LeadingZero(s: string)
    ensures DecimalValue(['0'] + s) == DecimalValue(s)
    decreases |s|
  {
    if s != [] {
      var p := s[..|s| - 1];
      assert (['0'] + s)[..|s|] == ['0'] + p;
      LeadingZero(p);
    }
  }

  /** `padStart(2, '0')`. */
  function PadStart2(s: string): (r: string)
    ensures |r| == if |s| >= 2 then |s| else 2
    ensures DecimalValue(r) == DecimalValue(s)
    ensures AllDigits(s) ==> AllDigits(r)
  {
    if |s| >= 2 then s
    else
      LeadingZero(s);
      if |s| == 1 then ['0'] + s
      else
        LeadingZero(['0']);
        "00"
  }

  /** `(cents / 100).toFixed(2)` for a non-negative whole number of cents. */
  function FixedTwo(cents: nat): (r: string)
    ensures |r| >= 4 && r[|r| - 3] == '.'
    ensures AllDigits(r[..|r| - 3]) && AllDigits(r[|r| - 2..])
    ensures DecimalValue(r[..|r| - 3]) * 100 + DecimalValue(r[|r| - 2..]) == cents
    ensures |r| > 4 ==> r[0] != '0'
  {
    var whole := NatToString(cents / 100);
    var frac := TwoDigits(cents % 100);
    var r := whole + "." + frac;
    assert r[..|r| - 3] == whole && r[|r| - 2..] == frac;
    r
  }

  /** The two decimal digits of a number below 100, tens first. */
  function TwoDigits(n: nat): (r: string)
    requires n < 100
    ensures |r| == 2 && AllDigits(r) && DecimalValue(r) == n
  {
    var r := [DigitChar(n / 10), DigitChar(n % 10)];
    assert r[..1] == [DigitChar(n / 10)] && [DigitChar(n / 10)][..0] == [];
    assert DecimalValue(r[..1]) == n / 10;
    r
  }

  /** The `/\D/g` filter: the digits of s, in order. */
  function Digits(s: string): (r: string)
    ensures AllDigits(r) && |r| <= |s|
  {
    if s == [] then []
    else (if IsDigit(s[0]) then [s[0]] else []) + Digits(s[1..])
  }

  lemma {:induction false} DigitsOfDigits(s: string)
    requires AllDigits(s)
    ensures Digits(s) == s
  {
    if s != [] {
      DigitsOfDigits(s[1..]);
    }
  }

  lemma {:induction false} DigitsAppend(a: string, b: string)
    ensures Digits(a + b) == Digits(a) + Digits(b)
  {
    if a == [] {
      assert a + b == b;
    } else {
      assert (a + b)[0] == a[0] && (a + b)[1..] == a[1..] + b;
      DigitsAppend(a[1..], b);
    }
  }

  /** A string made of no digit at all filters to nothing. */
  lemma {:induction false} DigitsOfSeparators(s: string)
    requires forall i :: 0 <= i < |s| ==> !IsDigit(s[i])
    ensures Digits(s) == []
  {
    if s != [] {
      DigitsOfSeparators(s[1..]);
    }
  }

  /** `toUpperCase`, for the ASCII letters a plate is written with. */
  function ToUpperAscii(s: string): (r: string)
    ensures |r| == |s|
    ensures forall i :: 0 <= i < |s| ==>
              r[i] == if 'a' <= s[i] <= 'z' then (s[i] as int - 32) as char else s[i]
    ensures forall i :: 0 <= i < |s| ==> !('a' <= r[i] <= 'z')
  {
    seq(|s|, i requires 0 <= i < |s| => if 'a' <= s[i] <= 'z' then (s[i] as int - 32) as char else s[i])
  }
}
