/** Decimal numerals as Python's int(), float() and str() read and write them,
    restricted to ASCII digits with an optional sign. */
module Numerals {
  import opened Wrappers

  predicate IsDigit(c: char) {
    '0' <= c <= '9'
  }

  predicate AllDigits(s: string) {
    forall i :: 0 <= i < |s| ==> IsDigit(s[i])
  }

  /** A non-empty run of digits: the only field text int() and float() accept
      in this model. */
  predicate IsNumeral(s: string) {
    |s| > 0 && AllDigits(s)
  }

  /** An optional '+' or '-' followed by a numeral. */
  predicate IsSignedNumeral(s: string) {
    IsNumeral(s) || (|s| > 1 && (s[0] == '-' || s[0] == '+') && AllDigits(s[1..]))
  }

  function DigitValue(c: char): (d: nat)
    requires IsDigit(c)
    ensures d < 10
  {
    c as int - '0' as int
  }

  function Digit(d: nat): (c: char)
    requires d < 10
    ensures IsDigit(c) && DigitValue(c) == d
  {
    ('0' as int + d) as char
  }

  /** The value of a digit string, most significant digit first. */
  function Num(s: string): nat
    requires AllDigits(s)
  {
    if s == [] then 0 else Num(s[..|s| - 1]) * 10 + DigitValue(s[|s| - 1])
  }

  /** float('0.' + s): the digits of s read after a decimal point. */
  function Frac(s: string): (r: real)
    requires AllDigits(s)
    ensures 0.0 <= r < 1.0
  {
    if s == [] then 0.0 else (DigitValue(s[0]) as real + Frac(s[1..])) / 10.0
  }

  /** x times 10 to the power n, written as n decimal shifts so that the
      arithmetic stays linear. */
  function Shift(x: real, n: nat): real
    decreases n
  {
    if n == 0 then x else Shift(10.0 * x, n - 1)
  }

  lemma {:induction false} ShiftAdd(a: real, b: real, n: nat)
    ensures Shift(a + b, n) == Shift(a, n) + Shift(b, n)
    decreases n
  {
    if n > 0 {
      ShiftAdd(10.0 * a, 10.0 * b, n - 1);
    }
  }

  lemma {:induction false} ShiftTen(a: real, n: nat)
    ensures Shift(10.0 * a, n) == 10.0 * Shift(a, n)
    decreases n
  {
    if n > 0 {
      ShiftTen(10.0 * a, n - 1);
    }
  }

  /** A leading digit contributes its value shifted past the digits after
      it. */
  lemma {:induction false} NumFront(c: char, t: string)
    requires IsDigit(c) && AllDigits(t)
    ensures AllDigits([c] + t)
    ensures Num([c] + t) as real == Shift(DigitValue(c) as real, |t|) + Num(t) as real
  {
    if t == [] {
      assert [c] + t == [c];
      assert [c][..0] == [];
    } else {
      var u := t[..|t| - 1];
      NumFront(c, u);
      assert ([c] + t)[..|t|] == [c] + u;
      assert ([c] + t)[|t|] == t[|t| - 1];
      ShiftTen(DigitValue(c) as real, |u|);
    }
  }

  /** float('0.' + s) is exactly the numeral s over 10 to the number of its
      digits: '.500' is 500/1000. */
  lemma {:induction false} FracValue(s: string)
    requires AllDigits(s)
    ensures Shift(Frac(s), |s|) == Num(s) as real
  {
    if s != [] {
      var t := s[1..];
      FracValue(t);
      assert s == [s[0]] + t;
      NumFront(s[0], t);
      ShiftAdd(DigitValue(s[0]) as real, Frac(t), |t|);
    }
  }

  /** Trailing zeros of a fraction do not change its value: '.5' and '.500'
      are the same half second. */
  lemma {:induction false} FracTrailingZero(s: string)
    requires AllDigits(s)
    ensures AllDigits(s + "0") && Frac(s + "0") == Frac(s)
  {
    if s != [] {
      assert (s + "0")[0] == s[0];
      assert (s + "0")[1..] == s[1..] + "0";
      FracTrailingZero(s[1..]);
    }
  }

  /** str(n) for a non-negative n: it reads back as n and has no leading
      zero. */
  function NatToString(n: nat): (s: string)
    ensures IsNumeral(s) && Num(s) == n
    ensures |s| == 1 || s[0] != '0'
  {
    if n < 10 then [Digit(n)]
    else
      var t := NatToString(n / 10);
      var s := t + [Digit(n % 10)];
      assert s[..|s| - 1] == t;
      assert s[0] == t[0];
      assert |t| == 1 ==> DigitValue(t[0]) == n / 10;
      s
  }

  /** str(n) */
  function IntToString(n: int): string {
    if n < 0 then "-" + NatToString(-n) else NatToString(n)
  }

  /** int(s) for a token that holds no whitespace: an optional sign followed by
      decimal digits; None where Python raises ValueError. */
  function ParseInt(s: string): (r: Option<int>)
    ensures r.Some? <==> IsSignedNumeral(s)
    ensures r.Some? && IsNumeral(s) ==> r.value == Num(s)
    ensures r.Some? && s[0] == '+' ==> r.value == Num(s[1..])
    ensures r.Some? && s[0] == '-' ==> r.value == -(Num(s[1..]) as int)
  {
    if |s| > 0 && (s[0] == '-' || s[0] == '+') then
      if IsNumeral(s[1..]) then
        var v: int := Num(s[1..]);
        Some(if s[0] == '-' then -v else v)
      else None
    else if IsNumeral(s) then Some(Num(s))
    else None
  }

  /** An unsigned numeral reads as its value. */
  lemma NumeralParses(s: string)
    requires IsNumeral(s)
    ensures ParseInt(s) == Some(Num(s))
  {
  }

  /** int(str(n)) == n */
  lemma ParseIntRoundTrip(n: int)
    ensures ParseInt(IntToString(n)) == Some(n)
  {
    if n < 0 {
      assert ("-" + NatToString(-n))[1..] == NatToString(-n);
    }
  }
}
